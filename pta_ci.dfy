/**
 * Context-insensitive Andersen-style pointer analysis with on-the-fly call
 * graph construction (the A5 `Solver`).
 *
 * The solver's state is the pointer-flow state of `PointerFlow`, the set of
 * reachable methods and the call-graph edges. `Closed` states the inference
 * rules of the analysis as properties of a state; the solver keeps them as
 * an invariant up to the work still in the worklist, so that when the
 * worklist is empty the result satisfies every rule (`AtFixpoint`).
 */
module PointerAnalysisCI {
  import opened Wrappers
  import opened IR
  import opened Collections
  import opened PtaInput
  import opened PointerFlow

  datatype Pointer =
    | VarPtr(v: Var)
    | StaticField(field: JField)
    | InstanceField(base: Obj, field: JField)
    | ArrayIndex(array: Obj)

  /** A call-graph edge: the call kind, the call site, the callee. */
  datatype CallEdge = CallEdge(kind: CallKind, callSite: Invoke, callee: JMethod)

  /** A snapshot of the solver's state. */
  datatype State = State(
    reachable: set<JMethod>,
    callEdges: set<CallEdge>,
    edges: set<FlowEdge<Pointer>>,
    pt: map<Pointer, set<Obj>>,
    workList: seq<Entry<Pointer, Obj>>)

  /** The objects `p` points to or is still to receive from the worklist. */
  function CoveredIn(st: State, p: Pointer): set<Obj>
  {
    Covered(st.pt, st.workList, p)
  }

  /** A call to `callee` at `i` is wired: each argument flows to its parameter, each return variable to the result. */
  ghost predicate Wired(prog: Program, st: State, i: Invoke, callee: JMethod)
  {
    var body := Body(prog, callee);
    (forall k :: 0 <= k < ArgCount(prog, i, callee) ==> FlowEdge(VarPtr(i.args[k]), VarPtr(body.params[k])) in st.edges) &&
    (i.result.Some? ==> forall r :: r in body.returnVars ==> FlowEdge(VarPtr(r), VarPtr(i.result.value)) in st.edges)
  }

  /** The rule for a statement of a reachable method. */
  ghost predicate StmtDone(prog: Program, st: State, s: Stmt)
  {
    match s.kind
    case Assign(x, NewExp(_)) => prog.allocObj(s) in CoveredIn(st, VarPtr(x))
    case Assign(x, VarExp(y)) => FlowEdge(VarPtr(y), VarPtr(x)) in st.edges
    case Assign(x, FieldAccess(None, f)) => FlowEdge(StaticField(prog.resolveField(f)), VarPtr(x)) in st.edges
    case StoreField(None, f, y) => FlowEdge(VarPtr(y), StaticField(prog.resolveField(f))) in st.edges
    case Call(i) =>
      i.kind == Static ==> prog.resolveMethod(i.ref) in st.reachable && Wired(prog, st, i, prog.resolveMethod(i.ref))
    case _ => true
  }

  /** The field and array rules for object `o` of variable `x`: `x.f = y`, `y = x.f`, `x[i] = y`, `y = x[i]`. */
  ghost predicate StoreFieldsDone(prog: Program, st: State, x: Var, o: Obj)
  {
    forall fy :: fy in StoreFieldsOf(prog, x) ==> FlowEdge(VarPtr(fy.1), InstanceField(o, prog.resolveField(fy.0))) in st.edges
  }

  ghost predicate LoadFieldsDone(prog: Program, st: State, x: Var, o: Obj)
  {
    forall fy :: fy in LoadFieldsOf(prog, x) ==> FlowEdge(InstanceField(o, prog.resolveField(fy.0)), VarPtr(fy.1)) in st.edges
  }

  ghost predicate StoreArraysDone(prog: Program, st: State, x: Var, o: Obj)
  {
    forall y :: y in StoreArraysOf(prog, x) ==> FlowEdge(VarPtr(y), ArrayIndex(o)) in st.edges
  }

  ghost predicate LoadArraysDone(prog: Program, st: State, x: Var, o: Obj)
  {
    forall y :: y in LoadArraysOf(prog, x) ==> FlowEdge(ArrayIndex(o), VarPtr(y)) in st.edges
  }

  ghost predicate FieldsDone(prog: Program, st: State, x: Var, o: Obj)
  {
    StoreFieldsDone(prog, st, x, o) && LoadFieldsDone(prog, st, x, o) &&
    StoreArraysDone(prog, st, x, o) && LoadArraysDone(prog, st, x, o)
  }

  /** The call rule for receiver object `o` at call site `i`. */
  ghost predicate ReceiverDone(prog: Program, st: State, i: Invoke, o: Obj)
  {
    match prog.resolveCallee(Some(ObjType(o)), i)
    case None => true
    case Some(m) =>
      CallEdge(i.kind, i, m) in st.callEdges &&
      (Body(prog, m).thisVar.Some? ==> o in CoveredIn(st, VarPtr(Body(prog, m).thisVar.value)))
  }

  ghost predicate CallsDone(prog: Program, st: State, x: Var, o: Obj)
  {
    forall i :: i in InvokesOf(prog, x) ==> ReceiverDone(prog, st, i, o)
  }

  ghost predicate ObjDone(prog: Program, st: State, x: Var, o: Obj)
  {
    FieldsDone(prog, st, x, o) && CallsDone(prog, st, x, o)
  }

  /** A call-graph edge's callee is reachable and the call is wired. */
  ghost predicate EdgeDone(prog: Program, st: State, e: CallEdge)
  {
    e.callee in st.reachable && Wired(prog, st, e.callSite, e.callee)
  }

  ghost predicate MethodsDone(prog: Program, st: State, ms: set<JMethod>)
  {
    forall m, s :: m in ms && s in Stmts(prog, m) ==> StmtDone(prog, st, s)
  }

  /** Every object of every variable is done, except the objects `skip` of `x0`. */
  ghost predicate ObjsDoneExcept(prog: Program, st: State, x0: Var, skip: set<Obj>)
  {
    forall x, o :: o in PointsToIn(st.pt, VarPtr(x)) ==> (x == x0 && o in skip) || ObjDone(prog, st, x, o)
  }

  ghost predicate ObjsDone(prog: Program, st: State)
  {
    forall x, o :: o in PointsToIn(st.pt, VarPtr(x)) ==> ObjDone(prog, st, x, o)
  }

  /** Every call edge except those in `skip` is done. */
  ghost predicate EdgesDoneExcept(prog: Program, st: State, skip: set<CallEdge>)
  {
    forall e :: e in st.callEdges && e !in skip ==> EdgeDone(prog, st, e)
  }

  ghost predicate EdgesDone(prog: Program, st: State)
  {
    EdgesDoneExcept(prog, st, {})
  }

  /** What the solver keeps between two worklist entries. */
  ghost predicate Inv(prog: Program, st: State)
  {
    Consistent(st.edges, st.pt, st.workList) &&
    MethodsDone(prog, st, st.reachable) &&
    ObjsDone(prog, st) &&
    EdgesDone(prog, st)
  }

  /**
   * The inference rules of the analysis hold in `st`: the entry method is
   * reachable, points-to sets flow along every PFG edge, and every
   * statement of a reachable method, every object of a variable and every
   * call edge has had its rule applied.
   */
  ghost predicate Closed(prog: Program, st: State)
  {
    st.workList == [] &&
    prog.main in st.reachable &&
    (forall e :: e in st.edges ==> PointsToIn(st.pt, e.source) <= PointsToIn(st.pt, e.target)) &&
    (forall m, s :: m in st.reachable && s in Stmts(prog, m) ==> StmtDone(prog, st, s)) &&
    (forall x, o :: o in PointsToIn(st.pt, VarPtr(x)) ==> ObjDone(prog, st, x, o)) &&
    (forall e :: e in st.callEdges ==> EdgeDone(prog, st, e))
  }

  /** Once the worklist is empty, the solver's invariant is the analysis's fixpoint. */
  lemma AtFixpoint(prog: Program, st: State)
    requires Inv(prog, st) && prog.main in st.reachable && st.workList == []
    ensures Closed(prog, st)
  {
    FixpointInclusion(st.edges, st.pt);
  }

  /** Nothing the solver has derived is lost: methods, call edges, PFG edges and covered objects only grow. */
  ghost predicate Grows(a: State, b: State)
  {
    a.reachable <= b.reachable && a.callEdges <= b.callEdges && a.edges <= b.edges &&
    CoverGrows(a.pt, a.workList, b.pt, b.workList)
  }

  lemma WiredGrows(prog: Program, a: State, b: State, i: Invoke, m: JMethod)
    requires Wired(prog, a, i, m) && a.edges <= b.edges
    ensures Wired(prog, b, i, m)
  {
  }

  lemma StmtDoneGrows(prog: Program, a: State, b: State, s: Stmt)
    requires StmtDone(prog, a, s) && Grows(a, b)
    ensures StmtDone(prog, b, s)
  {
    match s.kind
    case Assign(x, NewExp(_)) =>
      assert CoveredIn(a, VarPtr(x)) <= CoveredIn(b, VarPtr(x));
    case Call(i) =>
      if i.kind == Static {
        WiredGrows(prog, a, b, i, prog.resolveMethod(i.ref));
      }
    case _ =>
  }

  lemma MethodsDoneGrows(prog: Program, a: State, b: State, ms: set<JMethod>)
    requires MethodsDone(prog, a, ms) && Grows(a, b)
    ensures MethodsDone(prog, b, ms)
  {
    forall m, s | m in ms && s in Stmts(prog, m) ensures StmtDone(prog, b, s) {
      StmtDoneGrows(prog, a, b, s);
    }
  }

  lemma FieldsDoneGrows(prog: Program, a: State, b: State, x: Var, o: Obj)
    requires FieldsDone(prog, a, x, o) && a.edges <= b.edges
    ensures FieldsDone(prog, b, x, o)
  {
  }

  lemma ReceiverDoneGrows(prog: Program, a: State, b: State, i: Invoke, o: Obj)
    requires ReceiverDone(prog, a, i, o) && Grows(a, b)
    ensures ReceiverDone(prog, b, i, o)
  {
    match prog.resolveCallee(Some(ObjType(o)), i)
    case None =>
    case Some(m) =>
      if Body(prog, m).thisVar.Some? {
        assert CoveredIn(a, VarPtr(Body(prog, m).thisVar.value)) <= CoveredIn(b, VarPtr(Body(prog, m).thisVar.value));
      }
  }

  lemma CallsDoneGrows(prog: Program, a: State, b: State, x: Var, o: Obj)
    requires CallsDone(prog, a, x, o) && Grows(a, b)
    ensures CallsDone(prog, b, x, o)
  {
    forall i | i in InvokesOf(prog, x) ensures ReceiverDone(prog, b, i, o) {
      ReceiverDoneGrows(prog, a, b, i, o);
    }
  }

  lemma ObjDoneGrows(prog: Program, a: State, b: State, x: Var, o: Obj)
    requires ObjDone(prog, a, x, o) && Grows(a, b)
    ensures ObjDone(prog, b, x, o)
  {
    FieldsDoneGrows(prog, a, b, x, o);
    CallsDoneGrows(prog, a, b, x, o);
  }

  lemma ObjsDoneGrows(prog: Program, a: State, b: State)
    requires ObjsDone(prog, a) && Grows(a, b) && a.pt == b.pt
    ensures ObjsDone(prog, b)
  {
    forall x, o | o in PointsToIn(b.pt, VarPtr(x)) ensures ObjDone(prog, b, x, o) {
      ObjDoneGrows(prog, a, b, x, o);
    }
  }

  lemma ObjsDoneExceptGrows(prog: Program, a: State, b: State, x0: Var, skip: set<Obj>)
    requires ObjsDoneExcept(prog, a, x0, skip) && Grows(a, b) && a.pt == b.pt
    ensures ObjsDoneExcept(prog, b, x0, skip)
  {
    forall x, o | o in PointsToIn(b.pt, VarPtr(x)) && !(x == x0 && o in skip) ensures ObjDone(prog, b, x, o) {
      ObjDoneGrows(prog, a, b, x, o);
    }
  }

  lemma EdgesDoneGrows(prog: Program, a: State, b: State, skip: set<CallEdge>)
    requires EdgesDoneExcept(prog, a, skip) && Grows(a, b) && a.callEdges == b.callEdges
    ensures EdgesDoneExcept(prog, b, skip)
  {
    forall e | e in b.callEdges && e !in skip ensures EdgeDone(prog, b, e) {
      WiredGrows(prog, a, b, e.callSite, e.callee);
    }
  }

  /** The call-graph edge `processCall` adds for call site `i` and receiver object `o`, if the callee resolves. */
  function CalleeEdge(prog: Program, i: Invoke, o: Obj): set<CallEdge>
  {
    match prog.resolveCallee(Some(ObjType(o)), i)
    case None => {}
    case Some(m) => {CallEdge(i.kind, i, m)}
  }

  /** The call-graph edges `processCall` adds for the call sites `invokes` and receiver object `o`. */
  function CallEdgesOf(prog: Program, invokes: seq<Invoke>, o: Obj): set<CallEdge>
  {
    if invokes == [] then {}
    else CallEdgesOf(prog, invokes[..|invokes| - 1], o) + CalleeEdge(prog, invokes[|invokes| - 1], o)
  }

  /** Exactly the call sites that resolve on the receiver's type contribute an edge, to their resolved callee. */
  lemma {:induction false} CallEdgesOfExactly(prog: Program, invokes: seq<Invoke>, o: Obj, e: CallEdge)
    ensures e in CallEdgesOf(prog, invokes, o) <==>
      e.callSite in invokes && e.kind == e.callSite.kind && prog.resolveCallee(Some(ObjType(o)), e.callSite) == Some(e.callee)
    decreases |invokes|
  {
    if invokes != [] {
      var init := invokes[..|invokes| - 1];
      CallEdgesOfExactly(prog, init, o, e);
      assert invokes == init + [invokes[|invokes| - 1]];
    }
  }

  /**
   * What call processing keeps from state `a` to state `b`: nothing derived
   * is lost, points-to sets are untouched, the worklist only grew at its end,
   * and the PFG, the statements of reachable methods and the call edges stay
   * done.
   */
  ghost predicate Keeps(prog: Program, a: State, b: State)
  {
    Grows(a, b) && b.pt == a.pt &&
    |a.workList| <= |b.workList| && b.workList[..|a.workList|] == a.workList &&
    Consistent(b.edges, b.pt, b.workList) && MethodsDone(prog, b, b.reachable) && EdgesDone(prog, b)
  }

  lemma KeepsTrans(prog: Program, a: State, b: State, c: State)
    requires Keeps(prog, a, b) && Keeps(prog, b, c)
    ensures Keeps(prog, a, c)
  {
    PrefixTrans(a.workList, b.workList, c.workList);
  }

  // ---------------------------------------------------------------- what a closed state derives

  /** In a closed state the allocated object of `x = new T()` in a reachable method is in `pt(x)`. */
  lemma NewReachesLhs(prog: Program, st: State, m: JMethod, s: Stmt)
    requires Closed(prog, st) && m in st.reachable && s in Stmts(prog, m)
    requires s.kind.Assign? && s.kind.rhs.NewExp?
    ensures prog.allocObj(s) in PointsToIn(st.pt, VarPtr(s.kind.lhs))
  {
    assert StmtDone(prog, st, s);
    assert Pending(st.workList, VarPtr(s.kind.lhs)) == {};
  }

  /** In a closed state `x = y` in a reachable method gives `pt(y) <= pt(x)`. */
  lemma CopyIncludes(prog: Program, st: State, m: JMethod, s: Stmt)
    requires Closed(prog, st) && m in st.reachable && s in Stmts(prog, m)
    requires s.kind.Assign? && s.kind.rhs.VarExp?
    ensures PointsToIn(st.pt, VarPtr(s.kind.rhs.v)) <= PointsToIn(st.pt, VarPtr(s.kind.lhs))
  {
    assert StmtDone(prog, st, s);
    assert FlowEdge(VarPtr(s.kind.rhs.v), VarPtr(s.kind.lhs)) in st.edges;
  }

  /**
   * In a closed state a store `x.f = y` and a load `z = w.f` of the same
   * resolved field, with `x` and `w` pointing to a common object, give
   * `pt(y) <= pt(z)`.
   */
  lemma FieldFlowsThroughAlias(prog: Program, st: State, x: Var, w: Var, o: Obj, store: (FieldRef, Var), load: (FieldRef, Var))
    requires Closed(prog, st) && o in PointsToIn(st.pt, VarPtr(x)) && o in PointsToIn(st.pt, VarPtr(w))
    requires store in StoreFieldsOf(prog, x) && load in LoadFieldsOf(prog, w)
    requires prog.resolveField(store.0) == prog.resolveField(load.0)
    ensures PointsToIn(st.pt, VarPtr(store.1)) <= PointsToIn(st.pt, VarPtr(load.1))
  {
    var p := InstanceField(o, prog.resolveField(store.0));
    assert ObjDone(prog, st, x, o) && ObjDone(prog, st, w, o);
    assert FlowEdge(VarPtr(store.1), p) in st.edges && FlowEdge(p, VarPtr(load.1)) in st.edges;
  }

  /** The same for an array store `x[i] = y` and an array load `z = w[j]`: indices are not distinguished. */
  lemma ArrayFlowsThroughAlias(prog: Program, st: State, x: Var, w: Var, o: Obj, y: Var, z: Var)
    requires Closed(prog, st) && o in PointsToIn(st.pt, VarPtr(x)) && o in PointsToIn(st.pt, VarPtr(w))
    requires y in StoreArraysOf(prog, x) && z in LoadArraysOf(prog, w)
    ensures PointsToIn(st.pt, VarPtr(y)) <= PointsToIn(st.pt, VarPtr(z))
  {
    assert ObjDone(prog, st, x, o) && ObjDone(prog, st, w, o);
    assert FlowEdge(VarPtr(y), ArrayIndex(o)) in st.edges && FlowEdge(ArrayIndex(o), VarPtr(z)) in st.edges;
  }

  /**
   * In a closed state a call on `x` that resolves to `m` on an object `o` of
   * `x` has its call edge, `m` is reachable, `o` is in `pt(this)` of `m`, and
   * each argument's objects reach its parameter.
   */
  lemma InstanceCallResolved(prog: Program, st: State, x: Var, o: Obj, i: Invoke, m: JMethod)
    requires Closed(prog, st) && o in PointsToIn(st.pt, VarPtr(x)) && i in InvokesOf(prog, x)
    requires prog.resolveCallee(Some(ObjType(o)), i) == Some(m)
    ensures CallEdge(i.kind, i, m) in st.callEdges && m in st.reachable
    ensures Body(prog, m).thisVar.Some? ==> o in PointsToIn(st.pt, VarPtr(Body(prog, m).thisVar.value))
    ensures forall k :: 0 <= k < ArgCount(prog, i, m) ==>
      PointsToIn(st.pt, VarPtr(i.args[k])) <= PointsToIn(st.pt, VarPtr(Body(prog, m).params[k]))
  {
    assert ObjDone(prog, st, x, o) && ReceiverDone(prog, st, i, o);
    assert EdgeDone(prog, st, CallEdge(i.kind, i, m));
    if Body(prog, m).thisVar.Some? {
      assert Pending(st.workList, VarPtr(Body(prog, m).thisVar.value)) == {};
    }
    forall k | 0 <= k < ArgCount(prog, i, m)
      ensures PointsToIn(st.pt, VarPtr(i.args[k])) <= PointsToIn(st.pt, VarPtr(Body(prog, m).params[k]))
    {
      assert FlowEdge(VarPtr(i.args[k]), VarPtr(Body(prog, m).params[k])) in st.edges;
    }
  }

  /** In a closed state a static call in a reachable method makes its callee reachable and wires its arguments and result. */
  lemma StaticCallWired(prog: Program, st: State, m: JMethod, s: Stmt)
    requires Closed(prog, st) && m in st.reachable && s in Stmts(prog, m)
    requires s.kind.Call? && s.kind.invoke.kind == Static
    ensures prog.resolveMethod(s.kind.invoke.ref) in st.reachable
    ensures var i, callee := s.kind.invoke, prog.resolveMethod(s.kind.invoke.ref);
      forall k :: 0 <= k < ArgCount(prog, i, callee) ==>
        PointsToIn(st.pt, VarPtr(i.args[k])) <= PointsToIn(st.pt, VarPtr(Body(prog, callee).params[k]))
    ensures var i, callee := s.kind.invoke, prog.resolveMethod(s.kind.invoke.ref);
      i.result.Some? ==> forall r :: r in Body(prog, callee).returnVars ==>
        PointsToIn(st.pt, VarPtr(r)) <= PointsToIn(st.pt, VarPtr(i.result.value))
  {
    assert StmtDone(prog, st, s);
    var i, callee := s.kind.invoke, prog.resolveMethod(s.kind.invoke.ref);
    forall k | 0 <= k < ArgCount(prog, i, callee)
      ensures PointsToIn(st.pt, VarPtr(i.args[k])) <= PointsToIn(st.pt, VarPtr(Body(prog, callee).params[k]))
    {
      assert FlowEdge(VarPtr(i.args[k]), VarPtr(Body(prog, callee).params[k])) in st.edges;
    }
    if i.result.Some? {
      forall r | r in Body(prog, callee).returnVars
        ensures PointsToIn(st.pt, VarPtr(r)) <= PointsToIn(st.pt, VarPtr(i.result.value))
      {
        assert FlowEdge(VarPtr(r), VarPtr(i.result.value)) in st.edges;
      }
    }
  }

  class Solver {
    const prog: Program
    const flow: FlowState<Pointer, Obj>
    var entryMethods: set<JMethod>
    var reachable: set<JMethod>
    var callEdges: set<CallEdge>

    ghost function St(): State
      reads this, flow
    {
      State(reachable, callEdges, flow.edges, flow.pt, flow.workList)
    }

    constructor(prog: Program)
      ensures this.prog == prog
      ensures entryMethods == {} && reachable == {} && callEdges == {}
      ensures flow.edges == {} && flow.pt == map[] && flow.workList == []
    {
      this.prog := prog;
      flow := new FlowState();
      entryMethods, reachable, callEdges := {}, {}, {};
    }

    /** `solve()`: `initialize()`, then `analyze()`, the latter bounded by `fuel` worklist entries. */
    method Solve(fuel: nat) returns (done: bool)
      modifies this, flow
      ensures entryMethods == {prog.main}
      ensures done <==> flow.workList == []
      ensures done ==> Closed(prog, St())
    {
      Initialize();
      done := Analyze(fuel);
    }

    /** `initialize()`: empty worklist, PFG and call graph; `main` is the entry method and is made reachable. */
    method Initialize()
      modifies this, flow
      ensures entryMethods == {prog.main} && callEdges == {}
      ensures prog.main in reachable
      ensures Inv(prog, St())
    {
      flow.Clear();
      reachable, callEdges := {}, {};
      entryMethods := {prog.main};
      ghost var st0 := St();
      AddReachable(prog.main, {});
      ObjsDoneGrows(prog, st0, St());
      EdgesDoneGrows(prog, st0, St(), {});
    }

    /**
     * `addReachable(m)`: the first time `m` becomes reachable, the rule of
     * each of its statements is applied. `stack` holds the methods whose
     * statements are being processed further up the recursion.
     */
    method AddReachable(m: JMethod, ghost stack: set<JMethod>)
      requires Consistent(flow.edges, flow.pt, flow.workList)
      requires MethodsDone(prog, St(), reachable - stack)
      modifies this, flow
      ensures m in reachable
      ensures m in old(reachable) ==> St() == old(St())
      ensures Grows(old(St()), St()) && flow.Extends(old(flow.workList))
      ensures flow.pt == old(flow.pt) && callEdges == old(callEdges) && entryMethods == old(entryMethods)
      ensures Consistent(flow.edges, flow.pt, flow.workList)
      ensures MethodsDone(prog, St(), reachable - stack)
      decreases |prog.bodies.Keys - reachable|, 0
    {
      if m !in reachable {
        ghost var st0 := St();
        reachable := reachable + {m};
        MethodsDoneGrows(prog, st0, St(), old(reachable) - stack);
        assert reachable - (stack + {m}) <= old(reachable) - stack;
        var stmts := Stmts(prog, m);
        for i := 0 to |stmts|
          invariant old(reachable) + {m} <= reachable
          invariant Grows(st0, St()) && flow.Extends(st0.workList)
          invariant flow.pt == old(flow.pt) && callEdges == old(callEdges) && entryMethods == old(entryMethods)
          invariant Consistent(flow.edges, flow.pt, flow.workList)
          invariant MethodsDone(prog, St(), reachable - (stack + {m}))
          invariant forall k :: 0 <= k < i ==> StmtDone(prog, St(), stmts[k])
        {
          ghost var before := St();
          assert m in prog.bodies;
          RemainingShrinks(prog.bodies.Keys, old(reachable), reachable, m);
          ProcessStmt(stmts[i], stack + {m});
          forall k | 0 <= k < i ensures StmtDone(prog, St(), stmts[k]) {
            StmtDoneGrows(prog, before, St(), stmts[k]);
          }
          assert flow.workList[..|st0.workList|] == before.workList[..|st0.workList|];
        }
        assert forall s :: s in Stmts(prog, m) ==> StmtDone(prog, St(), s);
      }
    }

    /** The body of `addReachable`'s loop: the rule for one statement. */
    method ProcessStmt(s: Stmt, ghost stack: set<JMethod>)
      requires Consistent(flow.edges, flow.pt, flow.workList)
      requires MethodsDone(prog, St(), reachable - stack)
      modifies this, flow
      ensures StmtDone(prog, St(), s)
      ensures old(reachable) <= reachable
      ensures Grows(old(St()), St()) && flow.Extends(old(flow.workList))
      ensures flow.pt == old(flow.pt) && callEdges == old(callEdges) && entryMethods == old(entryMethods)
      ensures Consistent(flow.edges, flow.pt, flow.workList)
      ensures MethodsDone(prog, St(), reachable - stack)
      decreases |prog.bodies.Keys - reachable|, 1
    {
      ghost var st0 := St();
      match s.kind {
      case Assign(x, NewExp(_)) =>
        flow.AddEntry(VarPtr(x), {prog.allocObj(s)});
        PendingAppend(st0.workList, Entry(VarPtr(x), {prog.allocObj(s)}), VarPtr(x));
      case Assign(x, VarExp(y)) =>
        flow.AddPFGEdge(VarPtr(y), VarPtr(x));
      case Assign(x, FieldAccess(None, f)) =>
        flow.AddPFGEdge(StaticField(prog.resolveField(f)), VarPtr(x));
      case StoreField(None, f, y) =>
        flow.AddPFGEdge(VarPtr(y), StaticField(prog.resolveField(f)));
      case Call(i) =>
        if i.kind == Static {
          var callee := prog.resolveMethod(i.ref);
          AddReachable(callee, stack);
          ghost var st1 := St();
          WireCall(i, callee);
          MethodsDoneGrows(prog, st1, St(), reachable - stack);
          assert flow.workList[..|st0.workList|] == st1.workList[..|st0.workList|];
        }
      case _ =>
      }
      if !s.kind.Call? {
        assert Grows(st0, St()) by {
          CoveredGrows(st0.pt, st0.workList, St().pt, St().workList);
        }
        MethodsDoneGrows(prog, st0, St(), reachable - stack);
      }
    }

    /** The argument-to-parameter and return-to-result edges of a call to `callee` at `i`. */
    method WireCall(i: Invoke, callee: JMethod)
      requires Consistent(flow.edges, flow.pt, flow.workList)
      modifies flow
      ensures Wired(prog, St(), i, callee)
      ensures Grows(old(St()), St()) && flow.Extends(old(flow.workList)) && flow.pt == old(flow.pt)
      ensures Consistent(flow.edges, flow.pt, flow.workList)
    {
      var body := Body(prog, callee);
      for k := 0 to ArgCount(prog, i, callee)
        invariant forall j :: 0 <= j < k ==> FlowEdge(VarPtr(i.args[j]), VarPtr(body.params[j])) in flow.edges
        invariant old(flow.edges) <= flow.edges && flow.pt == old(flow.pt) && flow.Extends(old(flow.workList))
        invariant Consistent(flow.edges, flow.pt, flow.workList)
      {
        ghost var wl := flow.workList;
        flow.AddPFGEdge(VarPtr(i.args[k]), VarPtr(body.params[k]));
        assert flow.workList[..|old(flow.workList)|] == wl[..|old(flow.workList)|];
      }
      if i.result.Some? {
        var lhs := i.result.value;
        var rets := body.returnVars;
        for k := 0 to |rets|
          invariant forall j :: 0 <= j < ArgCount(prog, i, callee) ==> FlowEdge(VarPtr(i.args[j]), VarPtr(body.params[j])) in flow.edges
          invariant forall j :: 0 <= j < k ==> FlowEdge(VarPtr(rets[j]), VarPtr(lhs)) in flow.edges
          invariant old(flow.edges) <= flow.edges && flow.pt == old(flow.pt) && flow.Extends(old(flow.workList))
          invariant Consistent(flow.edges, flow.pt, flow.workList)
        {
          ghost var wl := flow.workList;
          flow.AddPFGEdge(VarPtr(rets[k]), VarPtr(lhs));
          assert flow.workList[..|old(flow.workList)|] == wl[..|old(flow.workList)|];
        }
      }
      assert Grows(old(St()), St()) by {
        CoveredGrows(old(St()).pt, old(St()).workList, St().pt, St().workList);
      }
    }

    /** `analyze()`: processes worklist entries until the worklist is empty or `fuel` entries are done. */
    method Analyze(fuel: nat) returns (done: bool)
      requires Inv(prog, St()) && prog.main in reachable
      modifies this, flow
      ensures Inv(prog, St()) && prog.main in reachable && entryMethods == old(entryMethods)
      ensures done <==> flow.workList == []
      ensures done ==> Closed(prog, St())
    {
      var n := fuel;
      while flow.workList != [] && n > 0
        invariant Inv(prog, St()) && prog.main in reachable && entryMethods == old(entryMethods)
        decreases n
      {
        AnalyzeStep();
        n := n - 1;
      }
      done := flow.workList == [];
      if done {
        AtFixpoint(prog, St());
      }
    }

    /** One iteration of `analyze()`'s loop. */
    method AnalyzeStep()
      requires Inv(prog, St()) && flow.workList != []
      modifies this, flow
      ensures Inv(prog, St()) && Grows(old(St()), St()) && entryMethods == old(entryMethods)
    {
      ghost var st0 := St();
      var entry := flow.PollEntry();
      var delta := flow.Propagate(entry.pointer, entry.objs);
      ghost var st1 := St();
      PropagateKeepsObjs(prog, st0, st1, entry.pointer, entry.objs, delta);
      if delta != {} && entry.pointer.VarPtr? {
        ProcessNewObjects(entry.pointer.v, delta);
      }
    }

    /** What poll-then-propagate keeps: everything covered, and every old object of a variable done. */
    static lemma PropagateKeepsObjs(prog: Program, st0: State, st1: State, p: Pointer, objs: set<Obj>, delta: set<Obj>)
      requires Inv(prog, st0)
      requires st1.reachable == st0.reachable && st1.callEdges == st0.callEdges && st1.edges == st0.edges
      requires delta == objs - PointsToIn(st0.pt, p)
      requires st1.pt == if delta == {} then st0.pt else st0.pt[p := PointsToIn(st0.pt, p) + objs]
      requires forall q :: CoveredIn(st0, q) <= CoveredIn(st1, q)
      ensures Grows(st0, st1)
      ensures MethodsDone(prog, st1, st1.reachable) && EdgesDone(prog, st1)
      ensures delta != {} && p.VarPtr? ==> ObjsDoneExcept(prog, st1, p.v, delta)
      ensures !(delta != {} && p.VarPtr?) ==> ObjsDone(prog, st1)
    {
      assert CoverGrows(st0.pt, st0.workList, st1.pt, st1.workList) by {
        forall q ensures Covered(st0.pt, st0.workList, q) <= Covered(st1.pt, st1.workList, q) {
          assert CoveredIn(st0, q) <= CoveredIn(st1, q);
        }
      }
      MethodsDoneGrows(prog, st0, st1, st0.reachable);
      EdgesDoneGrows(prog, st0, st1, {});
      forall x, o | o in PointsToIn(st1.pt, VarPtr(x)) && o in PointsToIn(st0.pt, VarPtr(x)) ensures ObjDone(prog, st1, x, o) {
        ObjDoneGrows(prog, st0, st1, x, o);
      }
    }

    /** The part of `analyze()`'s loop for a variable `x` whose points-to set gained `delta`. */
    method ProcessNewObjects(x: Var, delta: set<Obj>)
      requires Consistent(flow.edges, flow.pt, flow.workList)
      requires MethodsDone(prog, St(), reachable) && EdgesDone(prog, St())
      requires ObjsDoneExcept(prog, St(), x, delta)
      modifies this, flow
      ensures Inv(prog, St()) && Grows(old(St()), St())
      ensures flow.pt == old(flow.pt) && entryMethods == old(entryMethods)
    {
      ghost var st0 := St();
      var objs := ListOf(delta);
      AddFieldEdges(x, objs);
      ghost var st1 := St();
      MethodsDoneGrows(prog, st0, st1, reachable);
      EdgesDoneGrows(prog, st0, st1, {});
      ObjsDoneExceptGrows(prog, st0, st1, x, delta);
      for k := 0 to |objs|
        invariant Keeps(prog, st1, St()) && entryMethods == old(entryMethods)
        invariant ObjsDoneExcept(prog, St(), x, delta)
        invariant forall j :: 0 <= j < k ==> CallsDone(prog, St(), x, objs[j])
      {
        ghost var before := St();
        ProcessCall(x, objs[k]);
        KeepsTrans(prog, st1, before, St());
        ObjsDoneExceptGrows(prog, before, St(), x, delta);
        forall j | 0 <= j < k ensures CallsDone(prog, St(), x, objs[j]) {
          CallsDoneGrows(prog, before, St(), x, objs[j]);
        }
      }
      forall o | o in PointsToIn(flow.pt, VarPtr(x)) && o in delta ensures ObjDone(prog, St(), x, o) {
        var j :| 0 <= j < |objs| && objs[j] == o;
        FieldsDoneGrows(prog, st1, St(), x, o);
      }
    }

    /** The four field and array loops of `analyze()`, over the new objects `objs` of `x`. */
    method AddFieldEdges(x: Var, objs: seq<Obj>)
      requires Consistent(flow.edges, flow.pt, flow.workList)
      modifies flow
      ensures forall o :: o in objs ==> FieldsDone(prog, St(), x, o)
      ensures Grows(old(St()), St()) && flow.Extends(old(flow.workList)) && flow.pt == old(flow.pt)
      ensures Consistent(flow.edges, flow.pt, flow.workList)
    {
      ghost var wl0 := flow.workList;
      AddStoreFieldEdges(x, objs);
      ghost var wl1, e1 := flow.workList, flow.edges;
      AddLoadFieldEdges(x, objs);
      ghost var wl2, e2 := flow.workList, flow.edges;
      AddStoreArrayEdges(x, objs);
      ghost var wl3, e3 := flow.workList, flow.edges;
      AddLoadArrayEdges(x, objs);
      PrefixTrans(wl0, wl1, wl2);
      PrefixTrans(wl0, wl2, wl3);
      PrefixTrans(wl0, wl3, flow.workList);
      assert Grows(old(St()), St()) by {
        CoveredGrows(old(St()).pt, old(St()).workList, St().pt, St().workList);
      }
      forall o | o in objs ensures FieldsDone(prog, St(), x, o) {
        assert StoreFieldsDone(prog, State(reachable, callEdges, e1, flow.pt, wl1), x, o);
        assert LoadFieldsDone(prog, State(reachable, callEdges, e2, flow.pt, wl2), x, o);
        assert StoreArraysDone(prog, State(reachable, callEdges, e3, flow.pt, wl3), x, o);
      }
    }

    method AddStoreFieldEdges(x: Var, objs: seq<Obj>)
      requires Consistent(flow.edges, flow.pt, flow.workList)
      modifies flow
      ensures forall o :: o in objs ==> StoreFieldsDone(prog, St(), x, o)
      ensures old(flow.edges) <= flow.edges && flow.Extends(old(flow.workList)) && flow.pt == old(flow.pt)
      ensures Consistent(flow.edges, flow.pt, flow.workList)
    {
      var rf := prog.resolveField;
      flow.AddEdgesForEach(StoreFieldsOf(prog, x), objs,
        (fy: (FieldRef, Var), o: Obj) => VarPtr(fy.1), (fy: (FieldRef, Var), o: Obj) => InstanceField(o, rf(fy.0)));
    }

    method AddLoadFieldEdges(x: Var, objs: seq<Obj>)
      requires Consistent(flow.edges, flow.pt, flow.workList)
      modifies flow
      ensures forall o :: o in objs ==> LoadFieldsDone(prog, St(), x, o)
      ensures old(flow.edges) <= flow.edges && flow.Extends(old(flow.workList)) && flow.pt == old(flow.pt)
      ensures Consistent(flow.edges, flow.pt, flow.workList)
    {
      var rf := prog.resolveField;
      flow.AddEdgesForEach(LoadFieldsOf(prog, x), objs,
        (fy: (FieldRef, Var), o: Obj) => InstanceField(o, rf(fy.0)), (fy: (FieldRef, Var), o: Obj) => VarPtr(fy.1));
    }

    method AddStoreArrayEdges(x: Var, objs: seq<Obj>)
      requires Consistent(flow.edges, flow.pt, flow.workList)
      modifies flow
      ensures forall o :: o in objs ==> StoreArraysDone(prog, St(), x, o)
      ensures old(flow.edges) <= flow.edges && flow.Extends(old(flow.workList)) && flow.pt == old(flow.pt)
      ensures Consistent(flow.edges, flow.pt, flow.workList)
    {
      flow.AddEdgesForEach(StoreArraysOf(prog, x), objs, (y: Var, o: Obj) => VarPtr(y), (y: Var, o: Obj) => ArrayIndex(o));
    }

    method AddLoadArrayEdges(x: Var, objs: seq<Obj>)
      requires Consistent(flow.edges, flow.pt, flow.workList)
      modifies flow
      ensures forall o :: o in objs ==> LoadArraysDone(prog, St(), x, o)
      ensures old(flow.edges) <= flow.edges && flow.Extends(old(flow.workList)) && flow.pt == old(flow.pt)
      ensures Consistent(flow.edges, flow.pt, flow.workList)
    {
      flow.AddEdgesForEach(LoadArraysOf(prog, x), objs, (y: Var, o: Obj) => ArrayIndex(o), (y: Var, o: Obj) => VarPtr(y));
    }

    /** `processCall(x, recv)`: each call site with receiver `x`, resolved on the type of `recv`. */
    method ProcessCall(x: Var, recv: Obj)
      requires Consistent(flow.edges, flow.pt, flow.workList)
      requires MethodsDone(prog, St(), reachable) && EdgesDone(prog, St())
      modifies this, flow
      ensures CallsDone(prog, St(), x, recv)
      ensures callEdges == old(callEdges) + CallEdgesOf(prog, InvokesOf(prog, x), recv)
      ensures Keeps(prog, old(St()), St()) && entryMethods == old(entryMethods)
    {
      var invokes := InvokesOf(prog, x);
      for k := 0 to |invokes|
        invariant forall j :: 0 <= j < k ==> ReceiverDone(prog, St(), invokes[j], recv)
        invariant callEdges == old(callEdges) + CallEdgesOf(prog, invokes[..k], recv)
        invariant Keeps(prog, old(St()), St()) && entryMethods == old(entryMethods)
      {
        ProcessInvokeAt(invokes, k, recv, old(St()));
      }
      assert invokes[..|invokes|] == invokes;
    }

    /** One iteration of `processCall`'s loop: call site `invokes[k]`, with what the loop keeps. */
    method ProcessInvokeAt(invokes: seq<Invoke>, k: nat, recv: Obj, ghost st0: State)
      requires k < |invokes|
      requires forall j :: 0 <= j < k ==> ReceiverDone(prog, St(), invokes[j], recv)
      requires callEdges == st0.callEdges + CallEdgesOf(prog, invokes[..k], recv)
      requires Keeps(prog, st0, St())
      modifies this, flow
      ensures forall j :: 0 <= j < k + 1 ==> ReceiverDone(prog, St(), invokes[j], recv)
      ensures callEdges == st0.callEdges + CallEdgesOf(prog, invokes[..k + 1], recv)
      ensures Keeps(prog, st0, St()) && entryMethods == old(entryMethods)
    {
      ProcessInvoke(invokes[k], recv);
      KeepsTrans(prog, st0, old(St()), St());
      forall j | 0 <= j < k ensures ReceiverDone(prog, St(), invokes[j], recv) {
        ReceiverDoneGrows(prog, old(St()), St(), invokes[j], recv);
      }
      assert invokes[..k + 1][..k] == invokes[..k];
    }

    /** The body of `processCall`'s loop for one call site `i`. */
    method ProcessInvoke(i: Invoke, recv: Obj)
      requires Consistent(flow.edges, flow.pt, flow.workList)
      requires MethodsDone(prog, St(), reachable) && EdgesDone(prog, St())
      modifies this, flow
      ensures ReceiverDone(prog, St(), i, recv)
      ensures callEdges == old(callEdges) + CalleeEdge(prog, i, recv)
      ensures Keeps(prog, old(St()), St()) && entryMethods == old(entryMethods)
    {
      var callee := prog.resolveCallee(Some(ObjType(recv)), i);
      if callee.Some? {
        var m := callee.value;
        var body := Body(prog, m);
        ghost var st0 := St();
        if body.thisVar.Some? {
          flow.AddEntry(VarPtr(body.thisVar.value), {recv});
          PendingAppend(st0.workList, Entry(VarPtr(body.thisVar.value), {recv}), VarPtr(body.thisVar.value));
        }
        assert Grows(st0, St()) by {
          CoveredGrows(st0.pt, st0.workList, St().pt, St().workList);
        }
        MethodsDoneGrows(prog, st0, St(), reachable);
        EdgesDoneGrows(prog, st0, St(), {});
        ghost var st1 := St();
        var e := CallEdge(i.kind, i, m);
        if e !in callEdges {
          callEdges := callEdges + {e};
          ghost var st2 := St();
          MethodsDoneGrows(prog, st1, st2, reachable);
          AddReachable(m, {});
          ghost var st3 := St();
          EdgesDoneGrows(prog, st2, st3, {e});
          WireCall(i, m);
          EdgesDoneGrows(prog, st3, St(), {e});
          MethodsDoneGrows(prog, st3, St(), reachable);
          PrefixTrans(st0.workList, st1.workList, st3.workList);
          PrefixTrans(st0.workList, st3.workList, flow.workList);
          if body.thisVar.Some? {
            assert CoveredIn(st1, VarPtr(body.thisVar.value)) <= CoveredIn(St(), VarPtr(body.thisVar.value));
          }
        }
      }
    }
  }
}
