/**
 * Context-sensitive Andersen-style pointer analysis with on-the-fly call
 * graph construction (the A6 `Solver`).
 *
 * The structure is that of the context-insensitive solver; every variable,
 * object and method now carries a context chosen by a context selector.
 * The contexts are used as this solver uses them:
 *  - a statically called method is made reachable in the CALLER's context,
 *    while its parameters and return variables are wired in the context the
 *    selector chooses for the call;
 *  - for an instance call, `this` receives the receiver object in the
 *    selected context, but the call-graph edge's call site and the
 *    argument and result variables use the receiver OBJECT's heap context;
 *  - static calls add no call-graph edge.
 */
module PointerAnalysisCS {
  import opened Wrappers
  import opened IR
  import opened Collections
  import opened PtaInput
  import opened PointerFlow
  import opened CSElements

  /** A snapshot of the solver's state. */
  datatype State = State(
    reachable: set<CSMethod>,
    callEdges: set<CSCallEdge>,
    edges: set<FlowEdge<CSPointer>>,
    pt: map<CSPointer, set<CSObj>>,
    workList: seq<Entry<CSPointer, CSObj>>)

  /** The objects `p` points to or is still to receive from the worklist. */
  function CoveredIn(st: State, p: CSPointer): set<CSObj>
  {
    Covered(st.pt, st.workList, p)
  }

  /**
   * A call to `callee` at `i` is wired between the caller's context `cc` and
   * the callee's context `ct`: each argument flows to its parameter, each
   * return variable to the result.
   */
  ghost predicate Wired(prog: Program, st: State, cc: Context, ct: Context, i: Invoke, callee: JMethod)
  {
    var body := Body(prog, callee);
    (forall k :: 0 <= k < ArgCount(prog, i, callee) ==>
      FlowEdge(CSVar(cc, i.args[k]), CSVar(ct, body.params[k])) in st.edges) &&
    (i.result.Some? ==> forall r :: r in body.returnVars ==> FlowEdge(CSVar(ct, r), CSVar(cc, i.result.value)) in st.edges)
  }

  /** The rule for a statement `s` of the reachable method `csm`. */
  ghost predicate StmtDone(prog: Program, sel: Selector, st: State, csm: CSMethod, s: Stmt)
  {
    var c := csm.context;
    match s.kind
    case Assign(x, NewExp(_)) =>
      CSObj(sel.selectHeapContext(csm, prog.allocObj(s)), prog.allocObj(s)) in CoveredIn(st, CSVar(c, x))
    case Assign(x, VarExp(y)) => FlowEdge(CSVar(c, y), CSVar(c, x)) in st.edges
    case Assign(x, FieldAccess(None, f)) => FlowEdge(StaticField(prog.resolveField(f)), CSVar(c, x)) in st.edges
    case StoreField(None, f, y) => FlowEdge(CSVar(c, y), StaticField(prog.resolveField(f))) in st.edges
    case Call(i) =>
      i.kind == Static ==>
        (match prog.resolveCallee(None, i)
         case None => true
         case Some(m) =>
           CSMethod(c, m) in st.reachable &&
           Wired(prog, st, c, sel.selectStaticContext(CSCallSite(c, i), m), i, m))
    case _ => true
  }

  /** The field and array rules for object `o` of variable `x` in context `c`. */
  ghost predicate StoreFieldsDone(prog: Program, st: State, c: Context, x: Var, o: CSObj)
  {
    forall fy :: fy in StoreFieldsOf(prog, x) ==> FlowEdge(CSVar(c, fy.1), InstanceField(o, prog.resolveField(fy.0))) in st.edges
  }

  ghost predicate LoadFieldsDone(prog: Program, st: State, c: Context, x: Var, o: CSObj)
  {
    forall fy :: fy in LoadFieldsOf(prog, x) ==> FlowEdge(InstanceField(o, prog.resolveField(fy.0)), CSVar(c, fy.1)) in st.edges
  }

  ghost predicate StoreArraysDone(prog: Program, st: State, c: Context, x: Var, o: CSObj)
  {
    forall y :: y in StoreArraysOf(prog, x) ==> FlowEdge(CSVar(c, y), ArrayIndex(o)) in st.edges
  }

  ghost predicate LoadArraysDone(prog: Program, st: State, c: Context, x: Var, o: CSObj)
  {
    forall y :: y in LoadArraysOf(prog, x) ==> FlowEdge(ArrayIndex(o), CSVar(c, y)) in st.edges
  }

  ghost predicate FieldsDone(prog: Program, st: State, c: Context, x: Var, o: CSObj)
  {
    StoreFieldsDone(prog, st, c, x, o) && LoadFieldsDone(prog, st, c, x, o) &&
    StoreArraysDone(prog, st, c, x, o) && LoadArraysDone(prog, st, c, x, o)
  }

  /** The context `processCall` selects for the callee `m` of call site `i` of a variable in context `c` with receiver `o`. */
  function CalleeContext(sel: Selector, c: Context, i: Invoke, o: CSObj, m: JMethod): Context
  {
    sel.selectContext(CSCallSite(c, i), o, m)
  }

  /** The call rule for receiver object `o` at call site `i` of a variable in context `c`. */
  ghost predicate ReceiverDone(prog: Program, sel: Selector, st: State, c: Context, i: Invoke, o: CSObj)
  {
    match prog.resolveCallee(Some(ObjType(o.obj)), i)
    case None => true
    case Some(m) =>
      var ct := CalleeContext(sel, c, i, o, m);
      CSCallEdge(i.kind, CSCallSite(o.heapContext, i), CSMethod(ct, m)) in st.callEdges &&
      (Body(prog, m).thisVar.Some? ==> o in CoveredIn(st, CSVar(ct, Body(prog, m).thisVar.value)))
  }

  ghost predicate CallsDone(prog: Program, sel: Selector, st: State, c: Context, x: Var, o: CSObj)
  {
    forall i :: i in InvokesOf(prog, x) ==> ReceiverDone(prog, sel, st, c, i, o)
  }

  ghost predicate ObjDone(prog: Program, sel: Selector, st: State, c: Context, x: Var, o: CSObj)
  {
    FieldsDone(prog, st, c, x, o) && CallsDone(prog, sel, st, c, x, o)
  }

  /** A call-graph edge's callee is reachable and the call is wired from the call site's context to the callee's. */
  ghost predicate EdgeDone(prog: Program, st: State, e: CSCallEdge)
  {
    e.callee in st.reachable && Wired(prog, st, e.callSite.context, e.callee.context, e.callSite.callSite, e.callee.jmethod)
  }

  ghost predicate MethodsDone(prog: Program, sel: Selector, st: State, ms: set<CSMethod>)
  {
    forall csm, s :: csm in ms && s in Stmts(prog, csm.jmethod) ==> StmtDone(prog, sel, st, csm, s)
  }

  /** Every object of every variable is done, except the objects `skip` of `CSVar(c0, x0)`. */
  ghost predicate ObjsDoneExcept(prog: Program, sel: Selector, st: State, c0: Context, x0: Var, skip: set<CSObj>)
  {
    forall c, x, o :: o in PointsToIn(st.pt, CSVar(c, x)) ==> (c == c0 && x == x0 && o in skip) || ObjDone(prog, sel, st, c, x, o)
  }

  ghost predicate ObjsDone(prog: Program, sel: Selector, st: State)
  {
    forall c, x, o :: o in PointsToIn(st.pt, CSVar(c, x)) ==> ObjDone(prog, sel, st, c, x, o)
  }

  /** Every call edge except those in `skip` is done. */
  ghost predicate EdgesDoneExcept(prog: Program, st: State, skip: set<CSCallEdge>)
  {
    forall e :: e in st.callEdges && e !in skip ==> EdgeDone(prog, st, e)
  }

  ghost predicate EdgesDone(prog: Program, st: State)
  {
    EdgesDoneExcept(prog, st, {})
  }

  /** What the solver keeps between two worklist entries. */
  ghost predicate Inv(prog: Program, sel: Selector, st: State)
  {
    Consistent(st.edges, st.pt, st.workList) &&
    MethodsDone(prog, sel, st, st.reachable) &&
    ObjsDone(prog, sel, st) &&
    EdgesDone(prog, st)
  }

  /**
   * The inference rules of the analysis hold in `st`: `main` is reachable in
   * the empty context, points-to sets flow along every PFG edge, and every
   * statement of a reachable method, every object of a variable and every
   * call edge has had its rule applied.
   */
  ghost predicate Closed(prog: Program, sel: Selector, st: State)
  {
    st.workList == [] &&
    CSMethod(sel.emptyContext, prog.main) in st.reachable &&
    (forall e :: e in st.edges ==> PointsToIn(st.pt, e.source) <= PointsToIn(st.pt, e.target)) &&
    (forall csm, s :: csm in st.reachable && s in Stmts(prog, csm.jmethod) ==> StmtDone(prog, sel, st, csm, s)) &&
    (forall c, x, o :: o in PointsToIn(st.pt, CSVar(c, x)) ==> ObjDone(prog, sel, st, c, x, o)) &&
    (forall e :: e in st.callEdges ==> EdgeDone(prog, st, e))
  }

  /** Once the worklist is empty, the solver's invariant is the analysis's fixpoint. */
  lemma AtFixpoint(prog: Program, sel: Selector, st: State)
    requires Inv(prog, sel, st) && CSMethod(sel.emptyContext, prog.main) in st.reachable && st.workList == []
    ensures Closed(prog, sel, st)
  {
    FixpointInclusion(st.edges, st.pt);
  }

  /** Nothing the solver has derived is lost: methods, call edges, PFG edges and covered objects only grow. */
  ghost predicate Grows(a: State, b: State)
  {
    a.reachable <= b.reachable && a.callEdges <= b.callEdges && a.edges <= b.edges &&
    CoverGrows(a.pt, a.workList, b.pt, b.workList)
  }

  lemma WiredGrows(prog: Program, a: State, b: State, cc: Context, ct: Context, i: Invoke, m: JMethod)
    requires Wired(prog, a, cc, ct, i, m) && a.edges <= b.edges
    ensures Wired(prog, b, cc, ct, i, m)
  {
  }

  lemma StmtDoneGrows(prog: Program, sel: Selector, a: State, b: State, csm: CSMethod, s: Stmt)
    requires StmtDone(prog, sel, a, csm, s) && Grows(a, b)
    ensures StmtDone(prog, sel, b, csm, s)
  {
    var c := csm.context;
    match s.kind
    case Assign(x, NewExp(_)) =>
      assert CoveredIn(a, CSVar(c, x)) <= CoveredIn(b, CSVar(c, x));
    case Call(i) =>
      if i.kind == Static && prog.resolveCallee(None, i).Some? {
        var m := prog.resolveCallee(None, i).value;
        WiredGrows(prog, a, b, c, sel.selectStaticContext(CSCallSite(c, i), m), i, m);
      }
    case _ =>
  }

  lemma MethodsDoneGrows(prog: Program, sel: Selector, a: State, b: State, ms: set<CSMethod>)
    requires MethodsDone(prog, sel, a, ms) && Grows(a, b)
    ensures MethodsDone(prog, sel, b, ms)
  {
    forall csm, s | csm in ms && s in Stmts(prog, csm.jmethod) ensures StmtDone(prog, sel, b, csm, s) {
      StmtDoneGrows(prog, sel, a, b, csm, s);
    }
  }

  lemma FieldsDoneGrows(prog: Program, a: State, b: State, c: Context, x: Var, o: CSObj)
    requires FieldsDone(prog, a, c, x, o) && a.edges <= b.edges
    ensures FieldsDone(prog, b, c, x, o)
  {
  }

  lemma ReceiverDoneGrows(prog: Program, sel: Selector, a: State, b: State, c: Context, i: Invoke, o: CSObj)
    requires ReceiverDone(prog, sel, a, c, i, o) && Grows(a, b)
    ensures ReceiverDone(prog, sel, b, c, i, o)
  {
    match prog.resolveCallee(Some(ObjType(o.obj)), i)
    case None =>
    case Some(m) =>
      var ct := CalleeContext(sel, c, i, o, m);
      if Body(prog, m).thisVar.Some? {
        assert CoveredIn(a, CSVar(ct, Body(prog, m).thisVar.value)) <= CoveredIn(b, CSVar(ct, Body(prog, m).thisVar.value));
      }
  }

  lemma CallsDoneGrows(prog: Program, sel: Selector, a: State, b: State, c: Context, x: Var, o: CSObj)
    requires CallsDone(prog, sel, a, c, x, o) && Grows(a, b)
    ensures CallsDone(prog, sel, b, c, x, o)
  {
    forall i | i in InvokesOf(prog, x) ensures ReceiverDone(prog, sel, b, c, i, o) {
      ReceiverDoneGrows(prog, sel, a, b, c, i, o);
    }
  }

  lemma ObjDoneGrows(prog: Program, sel: Selector, a: State, b: State, c: Context, x: Var, o: CSObj)
    requires ObjDone(prog, sel, a, c, x, o) && Grows(a, b)
    ensures ObjDone(prog, sel, b, c, x, o)
  {
    FieldsDoneGrows(prog, a, b, c, x, o);
    CallsDoneGrows(prog, sel, a, b, c, x, o);
  }

  lemma ObjsDoneGrows(prog: Program, sel: Selector, a: State, b: State)
    requires ObjsDone(prog, sel, a) && Grows(a, b) && a.pt == b.pt
    ensures ObjsDone(prog, sel, b)
  {
    forall c, x, o | o in PointsToIn(b.pt, CSVar(c, x)) ensures ObjDone(prog, sel, b, c, x, o) {
      ObjDoneGrows(prog, sel, a, b, c, x, o);
    }
  }

  lemma ObjsDoneExceptGrows(prog: Program, sel: Selector, a: State, b: State, c0: Context, x0: Var, skip: set<CSObj>)
    requires ObjsDoneExcept(prog, sel, a, c0, x0, skip) && Grows(a, b) && a.pt == b.pt
    ensures ObjsDoneExcept(prog, sel, b, c0, x0, skip)
  {
    forall c, x, o | o in PointsToIn(b.pt, CSVar(c, x)) && !(c == c0 && x == x0 && o in skip)
      ensures ObjDone(prog, sel, b, c, x, o)
    {
      ObjDoneGrows(prog, sel, a, b, c, x, o);
    }
  }

  lemma EdgesDoneGrows(prog: Program, a: State, b: State, skip: set<CSCallEdge>)
    requires EdgesDoneExcept(prog, a, skip) && Grows(a, b) && a.callEdges == b.callEdges
    ensures EdgesDoneExcept(prog, b, skip)
  {
    forall e | e in b.callEdges && e !in skip ensures EdgeDone(prog, b, e) {
      WiredGrows(prog, a, b, e.callSite.context, e.callee.context, e.callSite.callSite, e.callee.jmethod);
    }
  }

  /** The call-graph edge `processCall` adds for call site `i` of a variable in context `c` with receiver `o`, if the callee resolves. */
  function CalleeEdge(prog: Program, sel: Selector, c: Context, i: Invoke, o: CSObj): set<CSCallEdge>
  {
    match prog.resolveCallee(Some(ObjType(o.obj)), i)
    case None => {}
    case Some(m) => {CSCallEdge(i.kind, CSCallSite(o.heapContext, i), CSMethod(CalleeContext(sel, c, i, o, m), m))}
  }

  /** The call-graph edges `processCall` adds for the call sites `invokes`. */
  function CallEdgesOf(prog: Program, sel: Selector, c: Context, invokes: seq<Invoke>, o: CSObj): set<CSCallEdge>
  {
    if invokes == [] then {}
    else CallEdgesOf(prog, sel, c, invokes[..|invokes| - 1], o) + CalleeEdge(prog, sel, c, invokes[|invokes| - 1], o)
  }

  /**
   * Exactly the call sites that resolve on the receiver's type contribute an
   * edge, from the call site in the receiver object's heap context, to the
   * resolved callee in the selected context.
   */
  lemma {:induction false} CallEdgesOfExactly(prog: Program, sel: Selector, c: Context, invokes: seq<Invoke>, o: CSObj, e: CSCallEdge)
    ensures e in CallEdgesOf(prog, sel, c, invokes, o) <==>
      e.callSite.callSite in invokes && e.kind == e.callSite.callSite.kind &&
      e.callSite.context == o.heapContext &&
      prog.resolveCallee(Some(ObjType(o.obj)), e.callSite.callSite) == Some(e.callee.jmethod) &&
      e.callee.context == CalleeContext(sel, c, e.callSite.callSite, o, e.callee.jmethod)
    decreases |invokes|
  {
    if invokes != [] {
      var init := invokes[..|invokes| - 1];
      CallEdgesOfExactly(prog, sel, c, init, o, e);
      assert invokes == init + [invokes[|invokes| - 1]];
    }
  }

  /**
   * What call processing keeps from state `a` to state `b`: nothing derived
   * is lost, points-to sets are untouched, the worklist only grew at its end,
   * and the PFG, the statements of reachable methods and the call edges stay
   * done.
   */
  ghost predicate Keeps(prog: Program, sel: Selector, a: State, b: State)
  {
    Grows(a, b) && b.pt == a.pt &&
    |a.workList| <= |b.workList| && b.workList[..|a.workList|] == a.workList &&
    Consistent(b.edges, b.pt, b.workList) && MethodsDone(prog, sel, b, b.reachable) && EdgesDone(prog, b)
  }

  lemma KeepsTrans(prog: Program, sel: Selector, a: State, b: State, c: State)
    requires Keeps(prog, sel, a, b) && Keeps(prog, sel, b, c)
    ensures Keeps(prog, sel, a, c)
  {
    PrefixTrans(a.workList, b.workList, c.workList);
  }

  // ---------------------------------------------------------------- what a closed state derives

  /** In a closed state `x = new T()` in a reachable `csm` puts the allocated object, in its selected heap context, in `pt(c:x)`. */
  lemma NewReachesLhs(prog: Program, sel: Selector, st: State, csm: CSMethod, s: Stmt)
    requires Closed(prog, sel, st) && csm in st.reachable && s in Stmts(prog, csm.jmethod)
    requires s.kind.Assign? && s.kind.rhs.NewExp?
    ensures CSObj(sel.selectHeapContext(csm, prog.allocObj(s)), prog.allocObj(s))
      in PointsToIn(st.pt, CSVar(csm.context, s.kind.lhs))
  {
    assert StmtDone(prog, sel, st, csm, s);
    assert Pending(st.workList, CSVar(csm.context, s.kind.lhs)) == {};
  }

  /** In a closed state `x = y` in a reachable `csm` gives `pt(c:y) <= pt(c:x)` in the method's context `c`. */
  lemma CopyIncludes(prog: Program, sel: Selector, st: State, csm: CSMethod, s: Stmt)
    requires Closed(prog, sel, st) && csm in st.reachable && s in Stmts(prog, csm.jmethod)
    requires s.kind.Assign? && s.kind.rhs.VarExp?
    ensures PointsToIn(st.pt, CSVar(csm.context, s.kind.rhs.v)) <= PointsToIn(st.pt, CSVar(csm.context, s.kind.lhs))
  {
    assert StmtDone(prog, sel, st, csm, s);
    assert FlowEdge(CSVar(csm.context, s.kind.rhs.v), CSVar(csm.context, s.kind.lhs)) in st.edges;
  }

  /**
   * In a closed state a store `x.f = y` and a load `z = w.f` of the same
   * resolved field, with `c:x` and `cw:w` pointing to a common
   * context-sensitive object, give `pt(c:y) <= pt(cw:z)`.
   */
  lemma FieldFlowsThroughAlias(prog: Program, sel: Selector, st: State, c: Context, x: Var, cw: Context, w: Var, o: CSObj,
                               store: (FieldRef, Var), load: (FieldRef, Var))
    requires Closed(prog, sel, st) && o in PointsToIn(st.pt, CSVar(c, x)) && o in PointsToIn(st.pt, CSVar(cw, w))
    requires store in StoreFieldsOf(prog, x) && load in LoadFieldsOf(prog, w)
    requires prog.resolveField(store.0) == prog.resolveField(load.0)
    ensures PointsToIn(st.pt, CSVar(c, store.1)) <= PointsToIn(st.pt, CSVar(cw, load.1))
  {
    var p := InstanceField(o, prog.resolveField(store.0));
    assert ObjDone(prog, sel, st, c, x, o) && ObjDone(prog, sel, st, cw, w, o);
    assert FlowEdge(CSVar(c, store.1), p) in st.edges && FlowEdge(p, CSVar(cw, load.1)) in st.edges;
  }

  /** The same for an array store `x[i] = y` and an array load `z = w[j]`: indices are not distinguished. */
  lemma ArrayFlowsThroughAlias(prog: Program, sel: Selector, st: State, c: Context, x: Var, cw: Context, w: Var, o: CSObj,
                               y: Var, z: Var)
    requires Closed(prog, sel, st) && o in PointsToIn(st.pt, CSVar(c, x)) && o in PointsToIn(st.pt, CSVar(cw, w))
    requires y in StoreArraysOf(prog, x) && z in LoadArraysOf(prog, w)
    ensures PointsToIn(st.pt, CSVar(c, y)) <= PointsToIn(st.pt, CSVar(cw, z))
  {
    assert ObjDone(prog, sel, st, c, x, o) && ObjDone(prog, sel, st, cw, w, o);
    assert FlowEdge(CSVar(c, y), ArrayIndex(o)) in st.edges && FlowEdge(ArrayIndex(o), CSVar(cw, z)) in st.edges;
  }

  /**
   * In a closed state a call on `c:x` that resolves to `m` on an object `o`
   * of `c:x` has its edge from the call site in `o`'s heap context to `m` in
   * the selected context `ct`, `m` is reachable in `ct`, `o` is in
   * `pt(ct:this)`, and the arguments, taken in `o`'s heap context, reach the
   * parameters in `ct`.
   */
  lemma InstanceCallResolved(prog: Program, sel: Selector, st: State, c: Context, x: Var, o: CSObj, i: Invoke, m: JMethod)
    requires Closed(prog, sel, st) && o in PointsToIn(st.pt, CSVar(c, x)) && i in InvokesOf(prog, x)
    requires prog.resolveCallee(Some(ObjType(o.obj)), i) == Some(m)
    ensures var ct := CalleeContext(sel, c, i, o, m);
      CSCallEdge(i.kind, CSCallSite(o.heapContext, i), CSMethod(ct, m)) in st.callEdges && CSMethod(ct, m) in st.reachable
    ensures var ct := CalleeContext(sel, c, i, o, m);
      Body(prog, m).thisVar.Some? ==> o in PointsToIn(st.pt, CSVar(ct, Body(prog, m).thisVar.value))
    ensures var ct := CalleeContext(sel, c, i, o, m);
      forall k :: 0 <= k < ArgCount(prog, i, m) ==>
        PointsToIn(st.pt, CSVar(o.heapContext, i.args[k])) <= PointsToIn(st.pt, CSVar(ct, Body(prog, m).params[k]))
  {
    var ct := CalleeContext(sel, c, i, o, m);
    var e := CSCallEdge(i.kind, CSCallSite(o.heapContext, i), CSMethod(ct, m));
    assert ObjDone(prog, sel, st, c, x, o) && ReceiverDone(prog, sel, st, c, i, o);
    assert EdgeDone(prog, st, e);
    if Body(prog, m).thisVar.Some? {
      assert Pending(st.workList, CSVar(ct, Body(prog, m).thisVar.value)) == {};
    }
    forall k | 0 <= k < ArgCount(prog, i, m)
      ensures PointsToIn(st.pt, CSVar(o.heapContext, i.args[k])) <= PointsToIn(st.pt, CSVar(ct, Body(prog, m).params[k]))
    {
      assert FlowEdge(CSVar(o.heapContext, i.args[k]), CSVar(ct, Body(prog, m).params[k])) in st.edges;
    }
  }

  /**
   * In a closed state a static call in a reachable `csm` that resolves to
   * `m` makes `m` reachable in the caller's context `c`, and wires the
   * arguments in `c` to the parameters in the selected context.
   */
  lemma StaticCallWired(prog: Program, sel: Selector, st: State, csm: CSMethod, s: Stmt, m: JMethod)
    requires Closed(prog, sel, st) && csm in st.reachable && s in Stmts(prog, csm.jmethod)
    requires s.kind.Call? && s.kind.invoke.kind == Static && prog.resolveCallee(None, s.kind.invoke) == Some(m)
    ensures CSMethod(csm.context, m) in st.reachable
    ensures var i := s.kind.invoke;
      var ct := sel.selectStaticContext(CSCallSite(csm.context, i), m);
      forall k :: 0 <= k < ArgCount(prog, i, m) ==>
        PointsToIn(st.pt, CSVar(csm.context, i.args[k])) <= PointsToIn(st.pt, CSVar(ct, Body(prog, m).params[k]))
  {
    assert StmtDone(prog, sel, st, csm, s);
    var i := s.kind.invoke;
    var ct := sel.selectStaticContext(CSCallSite(csm.context, i), m);
    forall k | 0 <= k < ArgCount(prog, i, m)
      ensures PointsToIn(st.pt, CSVar(csm.context, i.args[k])) <= PointsToIn(st.pt, CSVar(ct, Body(prog, m).params[k]))
    {
      assert FlowEdge(CSVar(csm.context, i.args[k]), CSVar(ct, Body(prog, m).params[k])) in st.edges;
    }
  }

  class Solver {
    const prog: Program
    const sel: Selector
    const flow: FlowState<CSPointer, CSObj>
    var entryMethods: set<CSMethod>
    var reachable: set<CSMethod>
    var callEdges: set<CSCallEdge>

    ghost function St(): State
      reads this, flow
    {
      State(reachable, callEdges, flow.edges, flow.pt, flow.workList)
    }

    constructor(prog: Program, sel: Selector)
      ensures this.prog == prog && this.sel == sel
      ensures entryMethods == {} && reachable == {} && callEdges == {}
      ensures flow.edges == {} && flow.pt == map[] && flow.workList == []
    {
      this.prog := prog;
      this.sel := sel;
      flow := new FlowState();
      entryMethods, reachable, callEdges := {}, {}, {};
    }

    /** `solve()`: `initialize()`, then `analyze()`, the latter bounded by `fuel` worklist entries. */
    method Solve(fuel: nat) returns (done: bool)
      modifies this, flow
      ensures entryMethods == {CSMethod(sel.emptyContext, prog.main)}
      ensures done <==> flow.workList == []
      ensures done ==> Closed(prog, sel, St())
    {
      Initialize();
      done := Analyze(fuel);
    }

    /** `initialize()`: empty worklist, PFG and call graph; `main` in the empty context is the entry method and is made reachable. */
    method Initialize()
      modifies this, flow
      ensures entryMethods == {CSMethod(sel.emptyContext, prog.main)} && callEdges == {}
      ensures CSMethod(sel.emptyContext, prog.main) in reachable
      ensures Inv(prog, sel, St())
    {
      flow.Clear();
      reachable, callEdges := {}, {};
      var csMethod := CSMethod(sel.emptyContext, prog.main);
      entryMethods := {csMethod};
      ghost var st0 := St();
      AddReachable(csMethod, {});
      ObjsDoneGrows(prog, sel, st0, St());
      EdgesDoneGrows(prog, st0, St(), {});
    }

    /**
     * `addReachable(csMethod)`: the first time `csMethod` becomes reachable,
     * the rule of each statement of its method is applied in its context.
     * `stack` holds the methods whose statements are being processed further
     * up the recursion.
     */
    method AddReachable(csMethod: CSMethod, ghost stack: set<CSMethod>)
      requires Consistent(flow.edges, flow.pt, flow.workList)
      requires MethodsDone(prog, sel, St(), reachable - stack)
      modifies this, flow
      ensures csMethod in reachable
      ensures csMethod in old(reachable) ==> St() == old(St())
      ensures Grows(old(St()), St()) && flow.Extends(old(flow.workList))
      ensures flow.pt == old(flow.pt) && callEdges == old(callEdges) && entryMethods == old(entryMethods)
      ensures Consistent(flow.edges, flow.pt, flow.workList)
      ensures MethodsDone(prog, sel, St(), reachable - stack)
      decreases |MethodsIn(prog.bodies.Keys, csMethod.context) - reachable|, 0
    {
      if csMethod !in reachable {
        ghost var st0 := St();
        reachable := reachable + {csMethod};
        MethodsDoneGrows(prog, sel, st0, St(), old(reachable) - stack);
        assert reachable - (stack + {csMethod}) <= old(reachable) - stack;
        var stmts := Stmts(prog, csMethod.jmethod);
        for i := 0 to |stmts|
          invariant old(reachable) + {csMethod} <= reachable
          invariant Grows(st0, St()) && flow.Extends(st0.workList)
          invariant flow.pt == old(flow.pt) && callEdges == old(callEdges) && entryMethods == old(entryMethods)
          invariant Consistent(flow.edges, flow.pt, flow.workList)
          invariant MethodsDone(prog, sel, St(), reachable - (stack + {csMethod}))
          invariant forall k :: 0 <= k < i ==> StmtDone(prog, sel, St(), csMethod, stmts[k])
        {
          ghost var before := St();
          assert csMethod.jmethod in prog.bodies;
          assert csMethod in MethodsIn(prog.bodies.Keys, csMethod.context);
          RemainingShrinks(MethodsIn(prog.bodies.Keys, csMethod.context), old(reachable), reachable, csMethod);
          ProcessStmt(stmts[i], csMethod, stack + {csMethod});
          forall k | 0 <= k < i ensures StmtDone(prog, sel, St(), csMethod, stmts[k]) {
            StmtDoneGrows(prog, sel, before, St(), csMethod, stmts[k]);
          }
          assert flow.workList[..|st0.workList|] == before.workList[..|st0.workList|];
        }
        assert forall s :: s in Stmts(prog, csMethod.jmethod) ==> StmtDone(prog, sel, St(), csMethod, s);
      }
    }

    /** The body of `addReachable`'s loop: the rule for one statement `s` of `csMethod`. */
    method ProcessStmt(s: Stmt, csMethod: CSMethod, ghost stack: set<CSMethod>)
      requires Consistent(flow.edges, flow.pt, flow.workList)
      requires MethodsDone(prog, sel, St(), reachable - stack)
      modifies this, flow
      ensures StmtDone(prog, sel, St(), csMethod, s)
      ensures old(reachable) <= reachable
      ensures Grows(old(St()), St()) && flow.Extends(old(flow.workList))
      ensures flow.pt == old(flow.pt) && callEdges == old(callEdges) && entryMethods == old(entryMethods)
      ensures Consistent(flow.edges, flow.pt, flow.workList)
      ensures MethodsDone(prog, sel, St(), reachable - stack)
      decreases |MethodsIn(prog.bodies.Keys, csMethod.context) - reachable|, 1
    {
      ghost var st0 := St();
      var c := csMethod.context;
      match s.kind {
      case Assign(x, NewExp(_)) =>
        var obj := prog.allocObj(s);
        var ct := sel.selectHeapContext(csMethod, obj);
        flow.AddEntry(CSVar(c, x), {CSObj(ct, obj)});
        PendingAppend(st0.workList, Entry(CSVar(c, x), {CSObj(ct, obj)}), CSVar(c, x));
      case Assign(x, VarExp(y)) =>
        flow.AddPFGEdge(CSVar(c, y), CSVar(c, x));
      case Assign(x, FieldAccess(None, f)) =>
        flow.AddPFGEdge(StaticField(prog.resolveField(f)), CSVar(c, x));
      case StoreField(None, f, y) =>
        flow.AddPFGEdge(CSVar(c, y), StaticField(prog.resolveField(f)));
      case Call(i) =>
        if i.kind == Static {
          var callee := prog.resolveCallee(None, i);
          if callee.Some? {
            var m := callee.value;
            AddReachable(CSMethod(c, m), stack);
            ghost var st1 := St();
            var ct := sel.selectStaticContext(CSCallSite(c, i), m);
            WireCall(c, ct, i, m);
            MethodsDoneGrows(prog, sel, st1, St(), reachable - stack);
            assert flow.workList[..|st0.workList|] == st1.workList[..|st0.workList|];
          }
        }
      case _ =>
      }
      if !(s.kind.Call? && s.kind.invoke.kind == Static && prog.resolveCallee(None, s.kind.invoke).Some?) {
        assert Grows(st0, St()) by {
          CoveredGrows(st0.pt, st0.workList, St().pt, St().workList);
        }
        MethodsDoneGrows(prog, sel, st0, St(), reachable - stack);
      }
    }

    /** The argument-to-parameter and return-to-result edges of a call to `callee` at `i`, from context `cc` into context `ct`. */
    method WireCall(cc: Context, ct: Context, i: Invoke, callee: JMethod)
      requires Consistent(flow.edges, flow.pt, flow.workList)
      modifies flow
      ensures Wired(prog, St(), cc, ct, i, callee)
      ensures Grows(old(St()), St()) && flow.Extends(old(flow.workList)) && flow.pt == old(flow.pt)
      ensures Consistent(flow.edges, flow.pt, flow.workList)
    {
      var body := Body(prog, callee);
      for k := 0 to ArgCount(prog, i, callee)
        invariant forall j :: 0 <= j < k ==> FlowEdge(CSVar(cc, i.args[j]), CSVar(ct, body.params[j])) in flow.edges
        invariant old(flow.edges) <= flow.edges && flow.pt == old(flow.pt) && flow.Extends(old(flow.workList))
        invariant Consistent(flow.edges, flow.pt, flow.workList)
      {
        ghost var wl := flow.workList;
        flow.AddPFGEdge(CSVar(cc, i.args[k]), CSVar(ct, body.params[k]));
        assert flow.workList[..|old(flow.workList)|] == wl[..|old(flow.workList)|];
      }
      if i.result.Some? {
        var lhs := i.result.value;
        var rets := body.returnVars;
        for k := 0 to |rets|
          invariant forall j :: 0 <= j < ArgCount(prog, i, callee) ==>
            FlowEdge(CSVar(cc, i.args[j]), CSVar(ct, body.params[j])) in flow.edges
          invariant forall j :: 0 <= j < k ==> FlowEdge(CSVar(ct, rets[j]), CSVar(cc, lhs)) in flow.edges
          invariant old(flow.edges) <= flow.edges && flow.pt == old(flow.pt) && flow.Extends(old(flow.workList))
          invariant Consistent(flow.edges, flow.pt, flow.workList)
        {
          ghost var wl := flow.workList;
          flow.AddPFGEdge(CSVar(ct, rets[k]), CSVar(cc, lhs));
          assert flow.workList[..|old(flow.workList)|] == wl[..|old(flow.workList)|];
        }
      }
      assert Grows(old(St()), St()) by {
        CoveredGrows(old(St()).pt, old(St()).workList, St().pt, St().workList);
      }
    }

    /** `analyze()`: processes worklist entries until the worklist is empty or `fuel` entries are done. */
    method Analyze(fuel: nat) returns (done: bool)
      requires Inv(prog, sel, St()) && CSMethod(sel.emptyContext, prog.main) in reachable
      modifies this, flow
      ensures Inv(prog, sel, St()) && CSMethod(sel.emptyContext, prog.main) in reachable
      ensures entryMethods == old(entryMethods)
      ensures done <==> flow.workList == []
      ensures done ==> Closed(prog, sel, St())
    {
      var n := fuel;
      while flow.workList != [] && n > 0
        invariant Inv(prog, sel, St()) && CSMethod(sel.emptyContext, prog.main) in reachable
        invariant entryMethods == old(entryMethods)
        decreases n
      {
        AnalyzeStep();
        n := n - 1;
      }
      done := flow.workList == [];
      if done {
        AtFixpoint(prog, sel, St());
      }
    }

    /** One iteration of `analyze()`'s loop. */
    method AnalyzeStep()
      requires Inv(prog, sel, St()) && flow.workList != []
      modifies this, flow
      ensures Inv(prog, sel, St()) && Grows(old(St()), St()) && entryMethods == old(entryMethods)
    {
      ghost var st0 := St();
      var entry := flow.PollEntry();
      var delta := flow.Propagate(entry.pointer, entry.objs);
      ghost var st1 := St();
      PropagateKeepsObjs(prog, sel, st0, st1, entry.pointer, entry.objs, delta);
      if delta != {} && entry.pointer.CSVar? {
        ProcessNewObjects(entry.pointer.context, entry.pointer.v, delta);
      }
    }

    /** What poll-then-propagate keeps: everything covered, and every old object of a variable done. */
    static lemma PropagateKeepsObjs(prog: Program, sel: Selector, st0: State, st1: State, p: CSPointer,
                                    objs: set<CSObj>, delta: set<CSObj>)
      requires Inv(prog, sel, st0)
      requires st1.reachable == st0.reachable && st1.callEdges == st0.callEdges && st1.edges == st0.edges
      requires delta == objs - PointsToIn(st0.pt, p)
      requires st1.pt == if delta == {} then st0.pt else st0.pt[p := PointsToIn(st0.pt, p) + objs]
      requires forall q :: CoveredIn(st0, q) <= CoveredIn(st1, q)
      ensures Grows(st0, st1)
      ensures MethodsDone(prog, sel, st1, st1.reachable) && EdgesDone(prog, st1)
      ensures delta != {} && p.CSVar? ==> ObjsDoneExcept(prog, sel, st1, p.context, p.v, delta)
      ensures !(delta != {} && p.CSVar?) ==> ObjsDone(prog, sel, st1)
    {
      assert CoverGrows(st0.pt, st0.workList, st1.pt, st1.workList) by {
        forall q ensures Covered(st0.pt, st0.workList, q) <= Covered(st1.pt, st1.workList, q) {
          assert CoveredIn(st0, q) <= CoveredIn(st1, q);
        }
      }
      MethodsDoneGrows(prog, sel, st0, st1, st0.reachable);
      EdgesDoneGrows(prog, st0, st1, {});
      forall c, x, o | o in PointsToIn(st1.pt, CSVar(c, x)) && o in PointsToIn(st0.pt, CSVar(c, x))
        ensures ObjDone(prog, sel, st1, c, x, o)
      {
        ObjDoneGrows(prog, sel, st0, st1, c, x, o);
      }
    }

    /** The part of `analyze()`'s loop for the variable `x` in context `c` whose points-to set gained `delta`. */
    method ProcessNewObjects(c: Context, x: Var, delta: set<CSObj>)
      requires Consistent(flow.edges, flow.pt, flow.workList)
      requires MethodsDone(prog, sel, St(), reachable) && EdgesDone(prog, St())
      requires ObjsDoneExcept(prog, sel, St(), c, x, delta)
      modifies this, flow
      ensures Inv(prog, sel, St()) && Grows(old(St()), St())
      ensures flow.pt == old(flow.pt) && entryMethods == old(entryMethods)
    {
      ghost var st0 := St();
      var objs := ListOf(delta);
      AddFieldEdges(c, x, objs);
      ghost var st1 := St();
      MethodsDoneGrows(prog, sel, st0, st1, reachable);
      EdgesDoneGrows(prog, st0, st1, {});
      ObjsDoneExceptGrows(prog, sel, st0, st1, c, x, delta);
      for k := 0 to |objs|
        invariant Keeps(prog, sel, st1, St()) && entryMethods == old(entryMethods)
        invariant ObjsDoneExcept(prog, sel, St(), c, x, delta)
        invariant forall j :: 0 <= j < k ==> CallsDone(prog, sel, St(), c, x, objs[j])
      {
        ghost var before := St();
        ProcessCall(c, x, objs[k]);
        KeepsTrans(prog, sel, st1, before, St());
        ObjsDoneExceptGrows(prog, sel, before, St(), c, x, delta);
        forall j | 0 <= j < k ensures CallsDone(prog, sel, St(), c, x, objs[j]) {
          CallsDoneGrows(prog, sel, before, St(), c, x, objs[j]);
        }
      }
      forall o | o in PointsToIn(flow.pt, CSVar(c, x)) && o in delta ensures ObjDone(prog, sel, St(), c, x, o) {
        var j :| 0 <= j < |objs| && objs[j] == o;
        FieldsDoneGrows(prog, st1, St(), c, x, o);
      }
    }

    /** The four field and array loops of `analyze()`, over the new objects `objs` of `x` in context `c`. */
    method AddFieldEdges(c: Context, x: Var, objs: seq<CSObj>)
      requires Consistent(flow.edges, flow.pt, flow.workList)
      modifies flow
      ensures forall o :: o in objs ==> FieldsDone(prog, St(), c, x, o)
      ensures Grows(old(St()), St()) && flow.Extends(old(flow.workList)) && flow.pt == old(flow.pt)
      ensures Consistent(flow.edges, flow.pt, flow.workList)
    {
      ghost var wl0 := flow.workList;
      AddStoreFieldEdges(c, x, objs);
      ghost var wl1, e1 := flow.workList, flow.edges;
      AddLoadFieldEdges(c, x, objs);
      ghost var wl2, e2 := flow.workList, flow.edges;
      AddStoreArrayEdges(c, x, objs);
      ghost var wl3, e3 := flow.workList, flow.edges;
      AddLoadArrayEdges(c, x, objs);
      PrefixTrans(wl0, wl1, wl2);
      PrefixTrans(wl0, wl2, wl3);
      PrefixTrans(wl0, wl3, flow.workList);
      assert Grows(old(St()), St()) by {
        CoveredGrows(old(St()).pt, old(St()).workList, St().pt, St().workList);
      }
      forall o | o in objs ensures FieldsDone(prog, St(), c, x, o) {
        assert StoreFieldsDone(prog, State(reachable, callEdges, e1, flow.pt, wl1), c, x, o);
        assert LoadFieldsDone(prog, State(reachable, callEdges, e2, flow.pt, wl2), c, x, o);
        assert StoreArraysDone(prog, State(reachable, callEdges, e3, flow.pt, wl3), c, x, o);
      }
    }

    method AddStoreFieldEdges(c: Context, x: Var, objs: seq<CSObj>)
      requires Consistent(flow.edges, flow.pt, flow.workList)
      modifies flow
      ensures forall o :: o in objs ==> StoreFieldsDone(prog, St(), c, x, o)
      ensures old(flow.edges) <= flow.edges && flow.Extends(old(flow.workList)) && flow.pt == old(flow.pt)
      ensures Consistent(flow.edges, flow.pt, flow.workList)
    {
      var rf := prog.resolveField;
      flow.AddEdgesForEach(StoreFieldsOf(prog, x), objs,
        (fy: (FieldRef, Var), o: CSObj) => CSVar(c, fy.1), (fy: (FieldRef, Var), o: CSObj) => InstanceField(o, rf(fy.0)));
    }

    method AddLoadFieldEdges(c: Context, x: Var, objs: seq<CSObj>)
      requires Consistent(flow.edges, flow.pt, flow.workList)
      modifies flow
      ensures forall o :: o in objs ==> LoadFieldsDone(prog, St(), c, x, o)
      ensures old(flow.edges) <= flow.edges && flow.Extends(old(flow.workList)) && flow.pt == old(flow.pt)
      ensures Consistent(flow.edges, flow.pt, flow.workList)
    {
      var rf := prog.resolveField;
      flow.AddEdgesForEach(LoadFieldsOf(prog, x), objs,
        (fy: (FieldRef, Var), o: CSObj) => InstanceField(o, rf(fy.0)), (fy: (FieldRef, Var), o: CSObj) => CSVar(c, fy.1));
    }

    method AddStoreArrayEdges(c: Context, x: Var, objs: seq<CSObj>)
      requires Consistent(flow.edges, flow.pt, flow.workList)
      modifies flow
      ensures forall o :: o in objs ==> StoreArraysDone(prog, St(), c, x, o)
      ensures old(flow.edges) <= flow.edges && flow.Extends(old(flow.workList)) && flow.pt == old(flow.pt)
      ensures Consistent(flow.edges, flow.pt, flow.workList)
    {
      flow.AddEdgesForEach(StoreArraysOf(prog, x), objs, (y: Var, o: CSObj) => CSVar(c, y), (y: Var, o: CSObj) => ArrayIndex(o));
    }

    method AddLoadArrayEdges(c: Context, x: Var, objs: seq<CSObj>)
      requires Consistent(flow.edges, flow.pt, flow.workList)
      modifies flow
      ensures forall o :: o in objs ==> LoadArraysDone(prog, St(), c, x, o)
      ensures old(flow.edges) <= flow.edges && flow.Extends(old(flow.workList)) && flow.pt == old(flow.pt)
      ensures Consistent(flow.edges, flow.pt, flow.workList)
    {
      flow.AddEdgesForEach(LoadArraysOf(prog, x), objs, (y: Var, o: CSObj) => ArrayIndex(o), (y: Var, o: CSObj) => CSVar(c, y));
    }

    /** `processCall(recv, recvObj)` for the receiver variable `CSVar(c, x)`: each of its call sites, resolved on the type of `recvObj`. */
    method ProcessCall(c: Context, x: Var, recvObj: CSObj)
      requires Consistent(flow.edges, flow.pt, flow.workList)
      requires MethodsDone(prog, sel, St(), reachable) && EdgesDone(prog, St())
      modifies this, flow
      ensures CallsDone(prog, sel, St(), c, x, recvObj)
      ensures callEdges == old(callEdges) + CallEdgesOf(prog, sel, c, InvokesOf(prog, x), recvObj)
      ensures Keeps(prog, sel, old(St()), St()) && entryMethods == old(entryMethods)
    {
      var invokes := InvokesOf(prog, x);
      for k := 0 to |invokes|
        invariant forall j :: 0 <= j < k ==> ReceiverDone(prog, sel, St(), c, invokes[j], recvObj)
        invariant callEdges == old(callEdges) + CallEdgesOf(prog, sel, c, invokes[..k], recvObj)
        invariant Keeps(prog, sel, old(St()), St()) && entryMethods == old(entryMethods)
      {
        ProcessInvokeAt(c, invokes, k, recvObj, old(St()));
      }
      assert invokes[..|invokes|] == invokes;
    }

    /** One iteration of `processCall`'s loop: call site `invokes[k]`, with what the loop keeps. */
    method ProcessInvokeAt(c: Context, invokes: seq<Invoke>, k: nat, recvObj: CSObj, ghost st0: State)
      requires k < |invokes|
      requires forall j :: 0 <= j < k ==> ReceiverDone(prog, sel, St(), c, invokes[j], recvObj)
      requires callEdges == st0.callEdges + CallEdgesOf(prog, sel, c, invokes[..k], recvObj)
      requires Keeps(prog, sel, st0, St())
      modifies this, flow
      ensures forall j :: 0 <= j < k + 1 ==> ReceiverDone(prog, sel, St(), c, invokes[j], recvObj)
      ensures callEdges == st0.callEdges + CallEdgesOf(prog, sel, c, invokes[..k + 1], recvObj)
      ensures Keeps(prog, sel, st0, St()) && entryMethods == old(entryMethods)
    {
      ProcessInvoke(c, invokes[k], recvObj);
      KeepsTrans(prog, sel, st0, old(St()), St());
      forall j | 0 <= j < k ensures ReceiverDone(prog, sel, St(), c, invokes[j], recvObj) {
        ReceiverDoneGrows(prog, sel, old(St()), St(), c, invokes[j], recvObj);
      }
      assert invokes[..k + 1][..k] == invokes[..k];
    }

    /** The body of `processCall`'s loop for one call site `i` of a variable in context `c`. */
    method ProcessInvoke(c: Context, i: Invoke, recvObj: CSObj)
      requires Consistent(flow.edges, flow.pt, flow.workList)
      requires MethodsDone(prog, sel, St(), reachable) && EdgesDone(prog, St())
      modifies this, flow
      ensures ReceiverDone(prog, sel, St(), c, i, recvObj)
      ensures callEdges == old(callEdges) + CalleeEdge(prog, sel, c, i, recvObj)
      ensures Keeps(prog, sel, old(St()), St()) && entryMethods == old(entryMethods)
    {
      var callee := prog.resolveCallee(Some(ObjType(recvObj.obj)), i);
      if callee.Some? {
        var m := callee.value;
        var ct := sel.selectContext(CSCallSite(c, i), recvObj, m);
        var body := Body(prog, m);
        ghost var st0 := St();
        if body.thisVar.Some? {
          flow.AddEntry(CSVar(ct, body.thisVar.value), {recvObj});
          PendingAppend(st0.workList, Entry(CSVar(ct, body.thisVar.value), {recvObj}), CSVar(ct, body.thisVar.value));
        }
        assert Grows(st0, St()) by {
          CoveredGrows(st0.pt, st0.workList, St().pt, St().workList);
        }
        MethodsDoneGrows(prog, sel, st0, St(), reachable);
        EdgesDoneGrows(prog, st0, St(), {});
        ghost var st1 := St();
        var oc := recvObj.heapContext;
        var e := CSCallEdge(i.kind, CSCallSite(oc, i), CSMethod(ct, m));
        if e !in callEdges {
          callEdges := callEdges + {e};
          ghost var st2 := St();
          MethodsDoneGrows(prog, sel, st1, st2, reachable);
          AddReachable(CSMethod(ct, m), {});
          ghost var st3 := St();
          EdgesDoneGrows(prog, st2, st3, {e});
          WireCall(oc, ct, i, m);
          EdgesDoneGrows(prog, st3, St(), {e});
          MethodsDoneGrows(prog, sel, st3, St(), reachable);
          PrefixTrans(st0.workList, st1.workList, st3.workList);
          PrefixTrans(st0.workList, st3.workList, flow.workList);
          if body.thisVar.Some? {
            assert CoveredIn(st1, CSVar(ct, body.thisVar.value)) <= CoveredIn(St(), CSVar(ct, body.thisVar.value));
          }
        }
      }
    }
  }
}
