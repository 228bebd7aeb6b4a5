/**
 * The context-sensitive pointer analysis with the taint plug-in (the A8
 * `Solver`).
 *
 * Its pointer-flow and call-graph rules are those of the context-sensitive
 * solver, except that every call, static or not, goes through
 * `processSingleCall`: the callee is made reachable in the context selected
 * for it, a call-graph edge is added from the call site in the caller's
 * context, and a configured source call hands its result a fresh taint
 * object in the empty heap context. After each resolved call the transfer
 * rules are applied (`transferTaint`), and `possibleTaintTransfers`
 * remembers, for each argument variable of a reachable method, the call
 * sites that use it, so that the transfers are applied again when a taint
 * object reaches that argument.
 */
module PointerAnalysisTaint {
  import opened Wrappers
  import opened IR
  import opened Collections
  import opened PtaInput
  import opened PointerFlow
  import opened CSElements
  import opened TaintAnalysis

  /** The analysis's fixed inputs: the program with its framework hooks, the context selector and the taint configuration. */
  datatype Env = Env(prog: Program, sel: Selector, config: TaintConfig)

  /** A snapshot of the solver's state; `transfers` is `possibleTaintTransfers`. */
  datatype State = State(
    reachable: set<CSMethod>,
    callEdges: set<CSCallEdge>,
    edges: set<FlowEdge<CSPointer>>,
    pt: map<CSPointer, set<CSObj>>,
    workList: seq<Entry<CSPointer, CSObj>>,
    transfers: map<CSPointer, set<Invoke>>)

  function CoveredIn(st: State, p: CSPointer): set<CSObj>
  {
    Covered(st.pt, st.workList, p)
  }

  /** `possibleTaintTransfers.getOrDefault(p, new HashSet<>())`. */
  function RecordedAt(transfers: map<CSPointer, set<Invoke>>, p: CSPointer): set<Invoke>
  {
    if p in transfers then transfers[p] else {}
  }

  /** The call site `invoke` if `p` is one of the variables `args` in context `c`. */
  function Recording(c: Context, invoke: Invoke, args: seq<Var>, p: CSPointer): set<Invoke>
  {
    if p.CSVar? && p.context == c && p.v in args then {invoke} else {}
  }

  /**
   * Every method context the selector can choose, for any call site, object and
   * method, lies in `contexts`. This bounds the selector's whole range, not
   * only its range over the program: the context-insensitive selector meets
   * it, and so does a selector that maps every input outside the program to
   * one default context, but an unclamped k-limiting selector does not.
   */
  ghost predicate SelectsWithin(sel: Selector, contexts: set<Context>)
  {
    sel.emptyContext in contexts &&
    (forall cs, m :: sel.selectStaticContext(cs, m) in contexts) &&
    (forall cs, o, m :: sel.selectContext(cs, o, m) in contexts)
  }

  /** Arguments flow from the caller's context `cc` to the parameters in the callee's context `ct`, return variables back to the result. */
  ghost predicate Wired(prog: Program, st: State, cc: Context, ct: Context, i: Invoke, callee: JMethod)
  {
    var body := Body(prog, callee);
    (forall k :: 0 <= k < ArgCount(prog, i, callee) ==>
      FlowEdge(CSVar(cc, i.args[k]), CSVar(ct, body.params[k])) in st.edges) &&
    (i.result.Some? ==> forall r :: r in body.returnVars ==> FlowEdge(CSVar(ct, r), CSVar(cc, i.result.value)) in st.edges)
  }

  /** A source callee's taint object, in the empty heap context, is given to the call's result in the call site's context. */
  ghost predicate SourceDone(env: Env, st: State, cs: CSCallSite, callee: JMethod)
  {
    match HandleTaintSource(env.config, env.prog, cs.callSite, callee)
    case None => true
    case Some(t) =>
      cs.callSite.result.Some? ==>
        CSObj(env.sel.emptyContext, t) in CoveredIn(st, CSVar(cs.context, cs.callSite.result.value))
  }

  /** What `processSingleCall(callSite, method)` establishes: the source rule and the call-graph edge. */
  ghost predicate SingleCallDone(env: Env, st: State, cs: CSCallSite, csm: CSMethod)
  {
    SourceDone(env, st, cs, csm.jmethod) && CSCallEdge(cs.callSite.kind, cs, csm) in st.callEdges
  }

  /** Each argument of each call site of `csm`'s method, in `csm`'s context, has that call site recorded. */
  ghost predicate RecordedIn(env: Env, st: State, csm: CSMethod)
  {
    forall s, a :: s in Stmts(env.prog, csm.jmethod) && s.kind.Call? && a in s.kind.invoke.args ==>
      s.kind.invoke in RecordedAt(st.transfers, CSVar(csm.context, a))
  }

  /** The rule for a statement `s` of the reachable method `csm`. */
  ghost predicate StmtDone(env: Env, st: State, csm: CSMethod, s: Stmt)
  {
    var prog, sel, c := env.prog, env.sel, csm.context;
    match s.kind
    case Assign(x, NewExp(_)) =>
      CSObj(sel.selectHeapContext(csm, prog.allocObj(s)), prog.allocObj(s)) in CoveredIn(st, CSVar(c, x))
    case Assign(x, VarExp(y)) => FlowEdge(CSVar(c, y), CSVar(c, x)) in st.edges
    case Assign(x, FieldAccess(None, f)) => FlowEdge(StaticField(prog.resolveField(f)), CSVar(c, x)) in st.edges
    case StoreField(None, f, y) => FlowEdge(CSVar(c, y), StaticField(prog.resolveField(f))) in st.edges
    case Call(i) =>
      RecordedIn(env, st, csm) &&
      (i.kind == Static ==>
        (match prog.resolveCallee(None, i)
         case None => true
         case Some(m) =>
           var cs := CSCallSite(c, i);
           SingleCallDone(env, st, cs, CSMethod(sel.selectStaticContext(cs, m), m))))
    case _ => true
  }

  ghost predicate StoreFieldsDone(prog: Program, st: State, c: Context, x: Var, o: CSObj)
  {
    forall fy :: fy in StoreFieldsOf(prog, x) ==> FlowEdge(CSVar(c, fy.1), InstanceField(o, prog.resolveField(fy.0))) in st.edges
  }

  ghost predicate LoadFieldsDone(prog: Program, st: State, c: Context, x: Var, o: CSObj)
  {
    forall fy :: fy in LoadFieldsOf(prog, x) ==> FlowEdge(InstanceField(o, prog.resolveField(fy.0)), CSVar(c, fy.1)) in st.edges
  }

  ghost predicate StoreArraysDone(prog: Program, st: State, c: Context, x: Var, o: CSObj)
  {
    forall y :: y in StoreArraysOf(prog, x) ==> FlowEdge(CSVar(c, y), ArrayIndex(o)) in st.edges
  }

  ghost predicate LoadArraysDone(prog: Program, st: State, c: Context, x: Var, o: CSObj)
  {
    forall y :: y in LoadArraysOf(prog, x) ==> FlowEdge(ArrayIndex(o), CSVar(c, y)) in st.edges
  }

  ghost predicate FieldsDone(prog: Program, st: State, c: Context, x: Var, o: CSObj)
  {
    StoreFieldsDone(prog, st, c, x, o) && LoadFieldsDone(prog, st, c, x, o) &&
    StoreArraysDone(prog, st, c, x, o) && LoadArraysDone(prog, st, c, x, o)
  }

  /**
   * The call rule for receiver object `o` at call site `i` of a variable in
   * context `c`: `this` receives `o` in the selected context, and the call
   * is processed from the call site in the variable's context `c`.
   */
  ghost predicate ReceiverDone(env: Env, st: State, c: Context, i: Invoke, o: CSObj)
  {
    match env.prog.resolveCallee(Some(ObjType(o.obj)), i)
    case None => true
    case Some(m) =>
      var cs := CSCallSite(c, i);
      var ct := env.sel.selectContext(cs, o, m);
      SingleCallDone(env, st, cs, CSMethod(ct, m)) &&
      (Body(env.prog, m).thisVar.Some? ==> o in CoveredIn(st, CSVar(ct, Body(env.prog, m).thisVar.value)))
  }

  ghost predicate CallsDone(env: Env, st: State, c: Context, x: Var, o: CSObj)
  {
    forall i :: i in InvokesOf(env.prog, x) ==> ReceiverDone(env, st, c, i, o)
  }

  ghost predicate ObjDone(env: Env, st: State, c: Context, x: Var, o: CSObj)
  {
    FieldsDone(env.prog, st, c, x, o) && CallsDone(env, st, c, x, o)
  }

  /** A call-graph edge's callee is reachable and the call is wired from the call site's context to the callee's. */
  ghost predicate EdgeDone(prog: Program, st: State, e: CSCallEdge)
  {
    e.callee in st.reachable && Wired(prog, st, e.callSite.context, e.callee.context, e.callSite.callSite, e.callee.jmethod)
  }

  ghost predicate MethodsDone(env: Env, st: State, ms: set<CSMethod>)
  {
    forall csm, s :: csm in ms && s in Stmts(env.prog, csm.jmethod) ==> StmtDone(env, st, csm, s)
  }

  ghost predicate ObjsDoneExcept(env: Env, st: State, c0: Context, x0: Var, skip: set<CSObj>)
  {
    forall c, x, o :: o in PointsToIn(st.pt, CSVar(c, x)) ==> (c == c0 && x == x0 && o in skip) || ObjDone(env, st, c, x, o)
  }

  ghost predicate ObjsDone(env: Env, st: State)
  {
    forall c, x, o :: o in PointsToIn(st.pt, CSVar(c, x)) ==> ObjDone(env, st, c, x, o)
  }

  ghost predicate EdgesDoneExcept(prog: Program, st: State, skip: set<CSCallEdge>)
  {
    forall e :: e in st.callEdges && e !in skip ==> EdgeDone(prog, st, e)
  }

  ghost predicate EdgesDone(prog: Program, st: State)
  {
    EdgesDoneExcept(prog, st, {})
  }

  ghost predicate Inv(env: Env, st: State)
  {
    Consistent(st.edges, st.pt, st.workList) &&
    MethodsDone(env, st, st.reachable) &&
    ObjsDone(env, st) &&
    EdgesDone(env.prog, st)
  }

  /**
   * The rules of the analysis hold in `st`: `main` is reachable in the empty
   * context, points-to sets flow along every PFG edge, and the rule of every
   * statement of a reachable method, of every object of a variable and of
   * every call edge has been applied.
   */
  ghost predicate Closed(env: Env, st: State)
  {
    st.workList == [] &&
    CSMethod(env.sel.emptyContext, env.prog.main) in st.reachable &&
    (forall e :: e in st.edges ==> PointsToIn(st.pt, e.source) <= PointsToIn(st.pt, e.target)) &&
    (forall csm, s :: csm in st.reachable && s in Stmts(env.prog, csm.jmethod) ==> StmtDone(env, st, csm, s)) &&
    (forall c, x, o :: o in PointsToIn(st.pt, CSVar(c, x)) ==> ObjDone(env, st, c, x, o)) &&
    (forall e :: e in st.callEdges ==> EdgeDone(env.prog, st, e))
  }

  lemma AtFixpoint(env: Env, st: State)
    requires Inv(env, st) && CSMethod(env.sel.emptyContext, env.prog.main) in st.reachable && st.workList == []
    ensures Closed(env, st)
  {
    FixpointInclusion(st.edges, st.pt);
  }

  /** The pairs of a transfer are each given to their variable in the call site's context, as taint objects in the empty heap context. */
  ghost predicate TransferDone(env: Env, st: State, cs: CSCallSite, callee: JMethod, base: Option<CSPointer>)
    requires base.Some? ==> base.value.CSVar?
  {
    forall q :: q in TransferPairs(env.config, env.prog, st.pt, cs, callee, base) && q.0.Some? ==>
      CSObj(env.sel.emptyContext, q.1) in CoveredIn(st, CSVar(cs.context, q.0.value))
  }

  /** After a resolved instance call, the transfers with the receiver variable as base are done. */
  ghost predicate ReceiverTransferDone(env: Env, st: State, c: Context, x: Var, i: Invoke, o: CSObj)
  {
    match env.prog.resolveCallee(Some(ObjType(o.obj)), i)
    case None => true
    case Some(m) => TransferDone(env, st, CSCallSite(c, i), m, Some(CSVar(c, x)))
  }

  ghost predicate CallTransfersDone(env: Env, st: State, c: Context, x: Var, o: CSObj)
  {
    forall i :: i in InvokesOf(env.prog, x) ==> ReceiverTransferDone(env, st, c, x, i, o)
  }

  /**
   * The transfers of call site `i` in context `c` are done again: for an
   * instance call, once per callee of each object of the receiver; for a
   * static call, for its callee with no base.
   */
  ghost predicate RerunDone(env: Env, st: State, c: Context, i: Invoke)
  {
    var cs := CSCallSite(c, i);
    if i.base.Some? then
      forall o :: o in PointsToIn(st.pt, CSVar(c, i.base.value)) ==>
        match env.prog.resolveCallee(Some(ObjType(o.obj)), i)
        case None => true
        case Some(m) => TransferDone(env, st, cs, m, Some(CSVar(c, i.base.value)))
    else
      match env.prog.resolveCallee(None, i)
      case None => true
      case Some(m) => TransferDone(env, st, cs, m, None)
  }

  /** Nothing derived is lost: methods, call edges, PFG edges, covered objects and recorded call sites only grow. */
  ghost predicate Grows(a: State, b: State)
  {
    a.reachable <= b.reachable && a.callEdges <= b.callEdges && a.edges <= b.edges &&
    (CoverGrows(a.pt, a.workList, b.pt, b.workList)) &&
    (forall p :: RecordedAt(a.transfers, p) <= RecordedAt(b.transfers, p))
  }

  lemma GrowsTrans(a: State, b: State, c: State)
    requires Grows(a, b) && Grows(b, c)
    ensures Grows(a, c)
  {
  }

  lemma GrowsBy(a: State, b: State)
    requires a.reachable <= b.reachable && a.callEdges <= b.callEdges && a.edges <= b.edges && a.transfers == b.transfers
    requires forall p :: PointsToIn(a.pt, p) <= PointsToIn(b.pt, p)
    requires |a.workList| <= |b.workList| && b.workList[..|a.workList|] == a.workList
    ensures Grows(a, b)
  {
    CoveredGrows(a.pt, a.workList, b.pt, b.workList);
  }

  lemma WiredGrows(prog: Program, a: State, b: State, cc: Context, ct: Context, i: Invoke, m: JMethod)
    requires Wired(prog, a, cc, ct, i, m) && a.edges <= b.edges
    ensures Wired(prog, b, cc, ct, i, m)
  {
  }

  lemma SourceDoneGrows(env: Env, a: State, b: State, cs: CSCallSite, m: JMethod)
    requires SourceDone(env, a, cs, m) && Grows(a, b)
    ensures SourceDone(env, b, cs, m)
  {
    if HandleTaintSource(env.config, env.prog, cs.callSite, m).Some? && cs.callSite.result.Some? {
      assert CoveredIn(a, CSVar(cs.context, cs.callSite.result.value)) <= CoveredIn(b, CSVar(cs.context, cs.callSite.result.value));
    }
  }

  lemma StmtDoneGrows(env: Env, a: State, b: State, csm: CSMethod, s: Stmt)
    requires StmtDone(env, a, csm, s) && Grows(a, b)
    ensures StmtDone(env, b, csm, s)
  {
    var c := csm.context;
    match s.kind
    case Assign(x, NewExp(_)) =>
      assert CoveredIn(a, CSVar(c, x)) <= CoveredIn(b, CSVar(c, x));
    case Call(i) =>
      forall s', arg | s' in Stmts(env.prog, csm.jmethod) && s'.kind.Call? && arg in s'.kind.invoke.args
        ensures s'.kind.invoke in RecordedAt(b.transfers, CSVar(c, arg))
      {
        assert RecordedAt(a.transfers, CSVar(c, arg)) <= RecordedAt(b.transfers, CSVar(c, arg));
      }
      if i.kind == Static && env.prog.resolveCallee(None, i).Some? {
        var m := env.prog.resolveCallee(None, i).value;
        SourceDoneGrows(env, a, b, CSCallSite(c, i), m);
      }
    case _ =>
  }

  lemma MethodsDoneGrows(env: Env, a: State, b: State, ms: set<CSMethod>)
    requires MethodsDone(env, a, ms) && Grows(a, b)
    ensures MethodsDone(env, b, ms)
  {
    forall csm, s | csm in ms && s in Stmts(env.prog, csm.jmethod) ensures StmtDone(env, b, csm, s) {
      StmtDoneGrows(env, a, b, csm, s);
    }
  }

  lemma FieldsDoneGrows(prog: Program, a: State, b: State, c: Context, x: Var, o: CSObj)
    requires FieldsDone(prog, a, c, x, o) && a.edges <= b.edges
    ensures FieldsDone(prog, b, c, x, o)
  {
  }

  lemma ReceiverDoneGrows(env: Env, a: State, b: State, c: Context, i: Invoke, o: CSObj)
    requires ReceiverDone(env, a, c, i, o) && Grows(a, b)
    ensures ReceiverDone(env, b, c, i, o)
  {
    match env.prog.resolveCallee(Some(ObjType(o.obj)), i)
    case None =>
    case Some(m) =>
      var cs := CSCallSite(c, i);
      var ct := env.sel.selectContext(cs, o, m);
      SourceDoneGrows(env, a, b, cs, m);
      if Body(env.prog, m).thisVar.Some? {
        assert CoveredIn(a, CSVar(ct, Body(env.prog, m).thisVar.value)) <= CoveredIn(b, CSVar(ct, Body(env.prog, m).thisVar.value));
      }
  }

  lemma CallsDoneGrows(env: Env, a: State, b: State, c: Context, x: Var, o: CSObj)
    requires CallsDone(env, a, c, x, o) && Grows(a, b)
    ensures CallsDone(env, b, c, x, o)
  {
    forall i | i in InvokesOf(env.prog, x) ensures ReceiverDone(env, b, c, i, o) {
      ReceiverDoneGrows(env, a, b, c, i, o);
    }
  }

  lemma ObjDoneGrows(env: Env, a: State, b: State, c: Context, x: Var, o: CSObj)
    requires ObjDone(env, a, c, x, o) && Grows(a, b)
    ensures ObjDone(env, b, c, x, o)
  {
    FieldsDoneGrows(env.prog, a, b, c, x, o);
    CallsDoneGrows(env, a, b, c, x, o);
  }

  lemma ObjsDoneGrows(env: Env, a: State, b: State)
    requires ObjsDone(env, a) && Grows(a, b) && a.pt == b.pt
    ensures ObjsDone(env, b)
  {
    forall c, x, o | o in PointsToIn(b.pt, CSVar(c, x)) ensures ObjDone(env, b, c, x, o) {
      ObjDoneGrows(env, a, b, c, x, o);
    }
  }

  lemma ObjsDoneExceptGrows(env: Env, a: State, b: State, c0: Context, x0: Var, skip: set<CSObj>)
    requires ObjsDoneExcept(env, a, c0, x0, skip) && Grows(a, b) && a.pt == b.pt
    ensures ObjsDoneExcept(env, b, c0, x0, skip)
  {
    forall c, x, o | o in PointsToIn(b.pt, CSVar(c, x)) && !(c == c0 && x == x0 && o in skip)
      ensures ObjDone(env, b, c, x, o)
    {
      ObjDoneGrows(env, a, b, c, x, o);
    }
  }

  lemma EdgesDoneGrows(prog: Program, a: State, b: State, skip: set<CSCallEdge>)
    requires EdgesDoneExcept(prog, a, skip) && Grows(a, b) && a.callEdges == b.callEdges
    ensures EdgesDoneExcept(prog, b, skip)
  {
    forall e | e in b.callEdges && e !in skip ensures EdgeDone(prog, b, e) {
      WiredGrows(prog, a, b, e.callSite.context, e.callee.context, e.callSite.callSite, e.callee.jmethod);
    }
  }

  lemma TransferDoneGrows(env: Env, a: State, b: State, cs: CSCallSite, m: JMethod, base: Option<CSPointer>)
    requires base.Some? ==> base.value.CSVar?
    requires TransferDone(env, a, cs, m, base) && Grows(a, b) && a.pt == b.pt
    ensures TransferDone(env, b, cs, m, base)
  {
    forall q | q in TransferPairs(env.config, env.prog, b.pt, cs, m, base) && q.0.Some?
      ensures CSObj(env.sel.emptyContext, q.1) in CoveredIn(b, CSVar(cs.context, q.0.value))
    {
      assert CoveredIn(a, CSVar(cs.context, q.0.value)) <= CoveredIn(b, CSVar(cs.context, q.0.value));
    }
  }

  lemma CallTransfersDoneGrows(env: Env, a: State, b: State, c: Context, x: Var, o: CSObj)
    requires CallTransfersDone(env, a, c, x, o) && Grows(a, b) && a.pt == b.pt
    ensures CallTransfersDone(env, b, c, x, o)
  {
    forall i | i in InvokesOf(env.prog, x) ensures ReceiverTransferDone(env, b, c, x, i, o) {
      if env.prog.resolveCallee(Some(ObjType(o.obj)), i).Some? {
        TransferDoneGrows(env, a, b, CSCallSite(c, i), env.prog.resolveCallee(Some(ObjType(o.obj)), i).value, Some(CSVar(c, x)));
      }
    }
  }

  lemma RerunDoneGrows(env: Env, a: State, b: State, c: Context, i: Invoke)
    requires RerunDone(env, a, c, i) && Grows(a, b) && a.pt == b.pt
    ensures RerunDone(env, b, c, i)
  {
    var cs := CSCallSite(c, i);
    if i.base.Some? {
      forall o | o in PointsToIn(b.pt, CSVar(c, i.base.value)) && env.prog.resolveCallee(Some(ObjType(o.obj)), i).Some?
        ensures TransferDone(env, b, cs, env.prog.resolveCallee(Some(ObjType(o.obj)), i).value, Some(CSVar(c, i.base.value)))
      {
        TransferDoneGrows(env, a, b, cs, env.prog.resolveCallee(Some(ObjType(o.obj)), i).value, Some(CSVar(c, i.base.value)));
      }
    } else if env.prog.resolveCallee(None, i).Some? {
      TransferDoneGrows(env, a, b, cs, env.prog.resolveCallee(None, i).value, None);
    }
  }

  /** The rules of the first `n` statements `stmts` of `csm`'s method hold. */
  ghost predicate PrefixDone(env: Env, st: State, csm: CSMethod, stmts: seq<Stmt>, n: nat)
  {
    forall k :: 0 <= k < n && k < |stmts| ==> StmtDone(env, st, csm, stmts[k])
  }

  lemma PrefixDoneGrows(env: Env, a: State, b: State, csm: CSMethod, stmts: seq<Stmt>, n: nat)
    requires PrefixDone(env, a, csm, stmts, n) && Grows(a, b)
    requires n < |stmts| && StmtDone(env, b, csm, stmts[n])
    ensures PrefixDone(env, b, csm, stmts, n + 1)
  {
    forall k | 0 <= k < n ensures StmtDone(env, b, csm, stmts[k]) {
      StmtDoneGrows(env, a, b, csm, stmts[k]);
    }
  }

  /**
   * The first `n` new objects `objs` of `CSVar(c, x)` have had their calls
   * and transfers processed and, once one of them is a taint object, the
   * call sites `recorded` their transfers done again.
   */
  ghost predicate NewObjsDone(env: Env, st: State, c: Context, x: Var, objs: seq<CSObj>, n: nat, recorded: set<Invoke>)
  {
    (forall j :: 0 <= j < n && j < |objs| ==> CallsDone(env, st, c, x, objs[j]) && CallTransfersDone(env, st, c, x, objs[j])) &&
    ((exists j :: 0 <= j < n && j < |objs| && IsTaint(objs[j].obj)) ==> forall i :: i in recorded ==> RerunDone(env, st, c, i))
  }

  lemma NewObjsDoneGrows(env: Env, a: State, b: State, c: Context, x: Var, objs: seq<CSObj>, n: nat, recorded: set<Invoke>)
    requires NewObjsDone(env, a, c, x, objs, n, recorded) && Grows(a, b) && a.pt == b.pt
    ensures NewObjsDone(env, b, c, x, objs, n, recorded)
  {
    forall j | 0 <= j < n && j < |objs| ensures CallsDone(env, b, c, x, objs[j]) && CallTransfersDone(env, b, c, x, objs[j]) {
      CallsDoneGrows(env, a, b, c, x, objs[j]);
      CallTransfersDoneGrows(env, a, b, c, x, objs[j]);
    }
    if exists j :: 0 <= j < n && j < |objs| && IsTaint(objs[j].obj) {
      forall i | i in recorded ensures RerunDone(env, b, c, i) {
        RerunDoneGrows(env, a, b, c, i);
      }
    }
  }

  lemma NewObjsDoneStep(env: Env, st: State, c: Context, x: Var, objs: seq<CSObj>, n: nat, recorded: set<Invoke>)
    requires n < |objs| && NewObjsDone(env, st, c, x, objs, n, recorded)
    requires CallsDone(env, st, c, x, objs[n]) && CallTransfersDone(env, st, c, x, objs[n])
    requires IsTaint(objs[n].obj) ==> forall i :: i in recorded ==> RerunDone(env, st, c, i)
    ensures NewObjsDone(env, st, c, x, objs, n + 1, recorded)
  {
    if exists j :: 0 <= j < n + 1 && j < |objs| && IsTaint(objs[j].obj) {
      var j :| 0 <= j < n + 1 && j < |objs| && IsTaint(objs[j].obj);
      if j < n {
        assert exists j :: 0 <= j < n && j < |objs| && IsTaint(objs[j].obj);
      }
    }
  }

  /** The transfers of the first `n` call sites `invokes` in context `c` are done again. */
  ghost predicate RerunsDone(env: Env, st: State, c: Context, invokes: seq<Invoke>, n: nat)
  {
    forall j :: 0 <= j < n && j < |invokes| ==> RerunDone(env, st, c, invokes[j])
  }

  lemma RerunsDoneGrows(env: Env, a: State, b: State, c: Context, invokes: seq<Invoke>, n: nat)
    requires RerunsDone(env, a, c, invokes, n) && Grows(a, b) && a.pt == b.pt
    requires n < |invokes| && RerunDone(env, b, c, invokes[n])
    ensures RerunsDone(env, b, c, invokes, n + 1)
  {
    forall j | 0 <= j < n ensures RerunDone(env, b, c, invokes[j]) {
      RerunDoneGrows(env, a, b, c, invokes[j]);
    }
  }

  /** What call processing keeps from `a` to `b`: growth, the same points-to sets, an extended worklist, and the PFG, statements and call edges done. */
  ghost predicate Keeps(env: Env, a: State, b: State)
  {
    Grows(a, b) && b.pt == a.pt &&
    |a.workList| <= |b.workList| && b.workList[..|a.workList|] == a.workList &&
    Consistent(b.edges, b.pt, b.workList) && MethodsDone(env, b, b.reachable) && EdgesDone(env.prog, b)
  }

  lemma KeepsTrans(env: Env, a: State, b: State, c: State)
    requires Keeps(env, a, b) && Keeps(env, b, c)
    ensures Keeps(env, a, c)
  {
    PrefixTrans(a.workList, b.workList, c.workList);
  }

  /** The worklist entries `transferTaint` adds for the pairs `qs`, in order; a pair without a variable adds none. */
  function TaintEntries(sel: Selector, cs: CSCallSite, qs: seq<TaintPair>): seq<Entry<CSPointer, CSObj>>
  {
    if qs == [] then [] else TaintEntries(sel, cs, qs[..|qs| - 1]) + TaintEntry(sel, cs, qs[|qs| - 1])
  }

  lemma TaintEntriesSnoc(sel: Selector, cs: CSCallSite, xs: seq<TaintPair>, k: nat)
    requires k < |xs|
    ensures TaintEntries(sel, cs, xs[..k + 1]) == TaintEntries(sel, cs, xs[..k]) + TaintEntry(sel, cs, xs[k])
  {
    assert xs[..k + 1][..k] == xs[..k];
  }

  function TaintEntry(sel: Selector, cs: CSCallSite, q: TaintPair): seq<Entry<CSPointer, CSObj>>
  {
    match q.0
    case None => []
    case Some(v) => [Entry(CSVar(cs.context, v), {CSObj(sel.emptyContext, q.1)})]
  }

  /** Each of the first `n` pairs of `qs` with a variable has its taint object given to that variable in the call site's context. */
  ghost predicate PairsGiven(env: Env, st: State, cs: CSCallSite, qs: seq<TaintPair>, n: nat)
  {
    forall j :: 0 <= j < n && j < |qs| && qs[j].0.Some? ==>
      CSObj(env.sel.emptyContext, qs[j].1) in CoveredIn(st, CSVar(cs.context, qs[j].0.value))
  }

  lemma PairsGivenStep(env: Env, a: State, b: State, cs: CSCallSite, qs: seq<TaintPair>, n: nat)
    requires PairsGiven(env, a, cs, qs, n) && Grows(a, b) && n < |qs|
    requires qs[n].0.Some? ==> CSObj(env.sel.emptyContext, qs[n].1) in CoveredIn(b, CSVar(cs.context, qs[n].0.value))
    ensures PairsGiven(env, b, cs, qs, n + 1)
  {
    forall j | 0 <= j < n && qs[j].0.Some?
      ensures CSObj(env.sel.emptyContext, qs[j].1) in CoveredIn(b, CSVar(cs.context, qs[j].0.value))
    {
      assert CoveredIn(a, CSVar(cs.context, qs[j].0.value)) <= CoveredIn(b, CSVar(cs.context, qs[j].0.value));
    }
  }

  /** In a closed state `x = new T()` in a reachable `csm` puts the allocated object, in its selected heap context, in `pt(c:x)`. */
  lemma NewReachesLhs(env: Env, st: State, csm: CSMethod, s: Stmt)
    requires Closed(env, st) && csm in st.reachable && s in Stmts(env.prog, csm.jmethod)
    requires s.kind.Assign? && s.kind.rhs.NewExp?
    ensures CSObj(env.sel.selectHeapContext(csm, env.prog.allocObj(s)), env.prog.allocObj(s))
      in PointsToIn(st.pt, CSVar(csm.context, s.kind.lhs))
  {
    assert StmtDone(env, st, csm, s);
    assert Pending(st.workList, CSVar(csm.context, s.kind.lhs)) == {};
  }

  /**
   * In a closed state a call on `c:x` that resolves to `m` on an object `o`
   * of `c:x` has its edge from the call site in `c` to `m` in the selected
   * context `ct`, `m` is reachable in `ct`, `o` is in `pt(ct:this)`, and the
   * arguments in `c` reach the parameters in `ct`.
   */
  lemma InstanceCallResolved(env: Env, st: State, c: Context, x: Var, o: CSObj, i: Invoke, m: JMethod)
    requires Closed(env, st) && o in PointsToIn(st.pt, CSVar(c, x)) && i in InvokesOf(env.prog, x)
    requires env.prog.resolveCallee(Some(ObjType(o.obj)), i) == Some(m)
    ensures var ct := env.sel.selectContext(CSCallSite(c, i), o, m);
      CSCallEdge(i.kind, CSCallSite(c, i), CSMethod(ct, m)) in st.callEdges && CSMethod(ct, m) in st.reachable
    ensures var ct := env.sel.selectContext(CSCallSite(c, i), o, m);
      Body(env.prog, m).thisVar.Some? ==> o in PointsToIn(st.pt, CSVar(ct, Body(env.prog, m).thisVar.value))
    ensures var ct := env.sel.selectContext(CSCallSite(c, i), o, m);
      forall k :: 0 <= k < ArgCount(env.prog, i, m) ==>
        PointsToIn(st.pt, CSVar(c, i.args[k])) <= PointsToIn(st.pt, CSVar(ct, Body(env.prog, m).params[k]))
  {
    var ct := env.sel.selectContext(CSCallSite(c, i), o, m);
    var e := CSCallEdge(i.kind, CSCallSite(c, i), CSMethod(ct, m));
    assert ObjDone(env, st, c, x, o) && ReceiverDone(env, st, c, i, o);
    assert EdgeDone(env.prog, st, e);
    if Body(env.prog, m).thisVar.Some? {
      assert Pending(st.workList, CSVar(ct, Body(env.prog, m).thisVar.value)) == {};
    }
    forall k | 0 <= k < ArgCount(env.prog, i, m)
      ensures PointsToIn(st.pt, CSVar(c, i.args[k])) <= PointsToIn(st.pt, CSVar(ct, Body(env.prog, m).params[k]))
    {
      assert FlowEdge(CSVar(c, i.args[k]), CSVar(ct, Body(env.prog, m).params[k])) in st.edges;
    }
  }

  /**
   * In a closed state a static call in a reachable `csm` that resolves to
   * `m` has its call edge to `m` in the selected context `ct`, `m` is
   * reachable in `ct`, and the arguments in the caller's context reach the
   * parameters in `ct`.
   */
  lemma StaticCallWired(env: Env, st: State, csm: CSMethod, s: Stmt, m: JMethod)
    requires Closed(env, st) && csm in st.reachable && s in Stmts(env.prog, csm.jmethod)
    requires s.kind.Call? && s.kind.invoke.kind == Static && env.prog.resolveCallee(None, s.kind.invoke) == Some(m)
    ensures var cs := CSCallSite(csm.context, s.kind.invoke);
      var ct := env.sel.selectStaticContext(cs, m);
      CSCallEdge(Static, cs, CSMethod(ct, m)) in st.callEdges && CSMethod(ct, m) in st.reachable
    ensures var i := s.kind.invoke;
      var ct := env.sel.selectStaticContext(CSCallSite(csm.context, i), m);
      forall k :: 0 <= k < ArgCount(env.prog, i, m) ==>
        PointsToIn(st.pt, CSVar(csm.context, i.args[k])) <= PointsToIn(st.pt, CSVar(ct, Body(env.prog, m).params[k]))
  {
    var i := s.kind.invoke;
    var cs := CSCallSite(csm.context, i);
    var ct := env.sel.selectStaticContext(cs, m);
    assert StmtDone(env, st, csm, s);
    assert EdgeDone(env.prog, st, CSCallEdge(Static, cs, CSMethod(ct, m)));
    forall k | 0 <= k < ArgCount(env.prog, i, m)
      ensures PointsToIn(st.pt, CSVar(csm.context, i.args[k])) <= PointsToIn(st.pt, CSVar(ct, Body(env.prog, m).params[k]))
    {
      assert FlowEdge(CSVar(csm.context, i.args[k]), CSVar(ct, Body(env.prog, m).params[k])) in st.edges;
    }
  }

  /** A static source call's taint object reaches the result variable once the analysis is done. */
  lemma SourceReachesResult(env: Env, st: State, csm: CSMethod, s: Stmt, m: JMethod)
    requires Closed(env, st) && csm in st.reachable && s in Stmts(env.prog, csm.jmethod)
    requires s.kind.Call? && s.kind.invoke.kind == Static && s.kind.invoke.result.Some?
    requires env.prog.resolveCallee(None, s.kind.invoke) == Some(m)
    requires Source(m, env.prog.returnType(m)) in env.config.sources
    ensures CSObj(env.sel.emptyContext, MakeTaint(s.kind.invoke, env.prog.returnType(m)))
      in PointsToIn(st.pt, CSVar(csm.context, s.kind.invoke.result.value))
  {
    assert StmtDone(env, st, csm, s);
  }

  /** An instance call resolved to a source on a receiver object gives the result its taint object. */
  lemma InstanceSourceReachesResult(env: Env, st: State, c: Context, x: Var, o: CSObj, i: Invoke, m: JMethod)
    requires Closed(env, st) && o in PointsToIn(st.pt, CSVar(c, x)) && i in InvokesOf(env.prog, x)
    requires env.prog.resolveCallee(Some(ObjType(o.obj)), i) == Some(m) && i.result.Some?
    requires Source(m, env.prog.returnType(m)) in env.config.sources
    ensures CSObj(env.sel.emptyContext, MakeTaint(i, env.prog.returnType(m))) in PointsToIn(st.pt, CSVar(c, i.result.value))
  {
    assert ObjDone(env, st, c, x, o) && ReceiverDone(env, st, c, i, o);
  }

  /** At a static call to a sink, a taint object the sink argument points to is reported as a flow. */
  lemma StaticSinkReported(env: Env, st: State, csm: CSMethod, s: Stmt, m: JMethod, k: nat, o: CSObj)
    requires Closed(env, st) && csm in st.reachable && s in Stmts(env.prog, csm.jmethod)
    requires s.kind.Call? && s.kind.invoke.kind == Static && env.prog.resolveCallee(None, s.kind.invoke) == Some(m)
    requires k < |s.kind.invoke.args| && Sink(m, k) in env.config.sinks
    requires o in PointsToIn(st.pt, CSVar(csm.context, s.kind.invoke.args[k])) && IsTaint(o.obj)
    ensures TaintFlow(o.obj.sourceCall, s.kind.invoke, k) in TaintFlows(env.config, st.pt, st.reachable, st.callEdges)
  {
    var i := s.kind.invoke;
    var cs := CSCallSite(csm.context, i);
    var e := CSCallEdge(i.kind, cs, CSMethod(env.sel.selectStaticContext(cs, m), m));
    assert StmtDone(env, st, csm, s);
    assert e in st.callEdges && EdgeDone(env.prog, st, e);
    VarPointsToExactly(st.pt, i.args[k], o.obj);
    TaintFlowsExactly(env.config, st.pt, st.reachable, st.callEdges, TaintFlow(o.obj.sourceCall, i, k));
  }

  /** At an instance call to a sink, resolved on an object of the receiver, a taint object of the sink argument is reported. */
  lemma InstanceSinkReported(env: Env, st: State, c: Context, x: Var, recvObj: CSObj, i: Invoke, m: JMethod, k: nat, o: CSObj)
    requires Closed(env, st) && recvObj in PointsToIn(st.pt, CSVar(c, x)) && i in InvokesOf(env.prog, x)
    requires env.prog.resolveCallee(Some(ObjType(recvObj.obj)), i) == Some(m)
    requires k < |i.args| && Sink(m, k) in env.config.sinks
    requires o in PointsToIn(st.pt, CSVar(c, i.args[k])) && IsTaint(o.obj)
    ensures TaintFlow(o.obj.sourceCall, i, k) in TaintFlows(env.config, st.pt, st.reachable, st.callEdges)
  {
    var cs := CSCallSite(c, i);
    var e := CSCallEdge(i.kind, cs, CSMethod(env.sel.selectContext(cs, recvObj, m), m));
    assert ObjDone(env, st, c, x, recvObj) && ReceiverDone(env, st, c, i, recvObj);
    assert e in st.callEdges && EdgeDone(env.prog, st, e);
    VarPointsToExactly(st.pt, i.args[k], o.obj);
    TaintFlowsExactly(env.config, st.pt, st.reachable, st.callEdges, TaintFlow(o.obj.sourceCall, i, k));
  }

  class Solver {
    const env: Env
    /** A finite set that holds every context the selector chooses for a method. */
    ghost const contexts: set<Context>
    const flow: FlowState<CSPointer, CSObj>
    var entryMethods: set<CSMethod>
    var reachable: set<CSMethod>
    var callEdges: set<CSCallEdge>
    var taintTransfers: map<CSPointer, set<Invoke>>

    ghost function St(): State
      reads this, flow
    {
      State(reachable, callEdges, flow.edges, flow.pt, flow.workList, taintTransfers)
    }

    /** The context-sensitive methods that can become reachable. */
    ghost function Universe(): set<CSMethod>
    {
      set c, m | c in contexts && m in env.prog.bodies.Keys :: CSMethod(c, m)
    }

    constructor(env: Env, ghost contexts: set<Context>)
      ensures this.env == env && this.contexts == contexts
      ensures entryMethods == {} && reachable == {} && callEdges == {} && taintTransfers == map[]
      ensures flow.edges == {} && flow.pt == map[] && flow.workList == []
    {
      this.env := env;
      this.contexts := contexts;
      flow := new FlowState();
      entryMethods, reachable, callEdges, taintTransfers := {}, {}, {}, map[];
    }

    /** `solve()`: `initialize()`, `analyze()` bounded by `fuel` worklist entries, then the taint flows of `onFinish()`. */
    method Solve(fuel: nat) returns (done: bool, taintFlows: set<TaintFlow>)
      requires SelectsWithin(env.sel, contexts)
      modifies this, flow
      ensures entryMethods == {CSMethod(env.sel.emptyContext, env.prog.main)}
      ensures done <==> flow.workList == []
      ensures done ==> Closed(env, St())
      ensures taintFlows == TaintFlows(env.config, flow.pt, reachable, callEdges)
    {
      Initialize();
      done := Analyze(fuel);
      taintFlows := CollectTaintFlows(env.config, flow.pt, reachable, callEdges);
    }

    /** `initialize()`: empty state; `main` in the empty context is the entry method and is made reachable. */
    method Initialize()
      requires SelectsWithin(env.sel, contexts)
      modifies this, flow
      ensures entryMethods == {CSMethod(env.sel.emptyContext, env.prog.main)}
      ensures CSMethod(env.sel.emptyContext, env.prog.main) in reachable
      ensures Inv(env, St())
    {
      flow.Clear();
      reachable, callEdges, taintTransfers := {}, {}, map[];
      var csMethod := CSMethod(env.sel.emptyContext, env.prog.main);
      entryMethods := {csMethod};
      AddReachable(csMethod, {}, {});
    }

    /**
     * `addReachable(csMethod)`. `stack` holds the methods whose statements
     * are being processed further up the recursion, `pending` the call
     * edges added further up and not yet wired.
     */
    method AddReachable(csMethod: CSMethod, ghost stack: set<CSMethod>, ghost pending: set<CSCallEdge>)
      requires SelectsWithin(env.sel, contexts) && csMethod.context in contexts
      requires Consistent(flow.edges, flow.pt, flow.workList)
      requires MethodsDone(env, St(), reachable - stack) && EdgesDoneExcept(env.prog, St(), pending)
      modifies this, flow
      ensures csMethod in reachable
      ensures csMethod in old(reachable) ==> St() == old(St())
      ensures Grows(old(St()), St()) && flow.Extends(old(flow.workList))
      ensures flow.pt == old(flow.pt) && entryMethods == old(entryMethods)
      ensures Consistent(flow.edges, flow.pt, flow.workList)
      ensures MethodsDone(env, St(), reachable - stack) && EdgesDoneExcept(env.prog, St(), pending)
      decreases |Universe() - reachable|, 0
    {
      if csMethod !in reachable {
        ghost var st0 := St();
        reachable := reachable + {csMethod};
        MethodsDoneGrows(env, st0, St(), old(reachable) - stack);
        EdgesDoneGrows(env.prog, st0, St(), pending);
        assert reachable - (stack + {csMethod}) <= old(reachable) - stack;
        var stmts := Stmts(env.prog, csMethod.jmethod);
        for i := 0 to |stmts|
          invariant old(reachable) + {csMethod} <= reachable
          invariant Grows(st0, St()) && flow.Extends(st0.workList)
          invariant flow.pt == old(flow.pt) && entryMethods == old(entryMethods)
          invariant Consistent(flow.edges, flow.pt, flow.workList)
          invariant MethodsDone(env, St(), reachable - (stack + {csMethod})) && EdgesDoneExcept(env.prog, St(), pending)
          invariant PrefixDone(env, St(), csMethod, stmts, i)
        {
          ghost var before := St();
          assert csMethod.jmethod in env.prog.bodies;
          assert csMethod in Universe();
          RemainingShrinks(Universe(), old(reachable), reachable, csMethod);
          ProcessStmt(stmts[i], csMethod, stack + {csMethod}, pending);
          PrefixDoneGrows(env, before, St(), csMethod, stmts, i);
          GrowsTrans(st0, before, St());
          assert flow.workList[..|st0.workList|] == before.workList[..|st0.workList|];
        }
        assert PrefixDone(env, St(), csMethod, stmts, |stmts|);
        assert forall s :: s in Stmts(env.prog, csMethod.jmethod) ==> StmtDone(env, St(), csMethod, s);
      }
    }

    /** The body of `addReachable`'s loop for one statement `s` of `csMethod`. */
    method ProcessStmt(s: Stmt, csMethod: CSMethod, ghost stack: set<CSMethod>, ghost pending: set<CSCallEdge>)
      requires SelectsWithin(env.sel, contexts)
      requires Consistent(flow.edges, flow.pt, flow.workList)
      requires MethodsDone(env, St(), reachable - stack) && EdgesDoneExcept(env.prog, St(), pending)
      modifies this, flow
      ensures StmtDone(env, St(), csMethod, s)
      ensures old(reachable) <= reachable
      ensures Grows(old(St()), St()) && flow.Extends(old(flow.workList))
      ensures flow.pt == old(flow.pt) && entryMethods == old(entryMethods)
      ensures Consistent(flow.edges, flow.pt, flow.workList)
      ensures MethodsDone(env, St(), reachable - stack) && EdgesDoneExcept(env.prog, St(), pending)
      decreases |Universe() - reachable|, 4
    {
      if s.kind.Call? {
        ProcessCallStmt(s, csMethod, stack, pending);
      } else {
        ghost var st0 := St();
        ProcessLocalStmt(s, csMethod);
        MethodsDoneGrows(env, st0, St(), reachable - stack);
        EdgesDoneGrows(env.prog, st0, St(), pending);
      }
    }

    /** A statement other than a call: an allocation, a copy, a static field load or store; the others need nothing. */
    method ProcessLocalStmt(s: Stmt, csMethod: CSMethod)
      requires !s.kind.Call?
      requires Consistent(flow.edges, flow.pt, flow.workList)
      modifies flow
      ensures StmtDone(env, St(), csMethod, s)
      ensures Grows(old(St()), St()) && flow.Extends(old(flow.workList)) && flow.pt == old(flow.pt)
      ensures Consistent(flow.edges, flow.pt, flow.workList)
    {
      var c := csMethod.context;
      match s.kind {
      case Assign(x, NewExp(_)) =>
        var obj := env.prog.allocObj(s);
        var ct := env.sel.selectHeapContext(csMethod, obj);
        flow.AddEntry(CSVar(c, x), {CSObj(ct, obj)});
        PendingAppend(old(flow.workList), Entry(CSVar(c, x), {CSObj(ct, obj)}), CSVar(c, x));
      case Assign(x, VarExp(y)) =>
        flow.AddPFGEdge(CSVar(c, y), CSVar(c, x));
      case Assign(x, FieldAccess(None, f)) =>
        flow.AddPFGEdge(StaticField(env.prog.resolveField(f)), CSVar(c, x));
      case StoreField(None, f, y) =>
        flow.AddPFGEdge(CSVar(c, y), StaticField(env.prog.resolveField(f)));
      case _ =>
      }
      GrowsBy(old(St()), St());
    }

    /**
     * A call statement of `csMethod`: a static call is resolved, processed by
     * `processSingleCall` in the selected context and taint-transferred with
     * no base; then the call sites of the method are recorded for each of
     * their arguments.
     */
    method ProcessCallStmt(s: Stmt, csMethod: CSMethod, ghost stack: set<CSMethod>, ghost pending: set<CSCallEdge>)
      requires s.kind.Call?
      requires SelectsWithin(env.sel, contexts)
      requires Consistent(flow.edges, flow.pt, flow.workList)
      requires MethodsDone(env, St(), reachable - stack) && EdgesDoneExcept(env.prog, St(), pending)
      modifies this, flow
      ensures StmtDone(env, St(), csMethod, s)
      ensures old(reachable) <= reachable
      ensures Grows(old(St()), St()) && flow.Extends(old(flow.workList))
      ensures flow.pt == old(flow.pt) && entryMethods == old(entryMethods)
      ensures Consistent(flow.edges, flow.pt, flow.workList)
      ensures MethodsDone(env, St(), reachable - stack) && EdgesDoneExcept(env.prog, St(), pending)
      decreases |Universe() - reachable|, 3
    {
      var i := s.kind.invoke;
      var c := csMethod.context;
      ghost var st0 := St();
      if i.kind == Static {
        var callee := env.prog.resolveCallee(None, i);
        if callee.Some? {
          var m := callee.value;
          var cs := CSCallSite(c, i);
          var ct := env.sel.selectStaticContext(cs, m);
          ProcessSingleCall(cs, CSMethod(ct, m), stack, pending);
          ghost var st1 := St();
          ghost var order := TransferTaint(cs, m, None);
          MethodsDoneGrows(env, st1, St(), reachable - stack);
          EdgesDoneGrows(env.prog, st1, St(), pending);
          SourceDoneGrows(env, st1, St(), cs, m);
          GrowsTrans(st0, st1, St());
          PrefixTrans(st0.workList, st1.workList, flow.workList);
        }
      }
      ghost var st2 := St();
      RecordInvokes(csMethod);
      assert Grows(st2, St());
      MethodsDoneGrows(env, st2, St(), reachable - stack);
      EdgesDoneGrows(env.prog, st2, St(), pending);
      if i.kind == Static && env.prog.resolveCallee(None, i).Some? {
        SourceDoneGrows(env, st2, St(), CSCallSite(c, i), env.prog.resolveCallee(None, i).value);
      }
    }

    /** The loop over the statements of `csMethod` that records each call site for each of its arguments. */
    method RecordInvokes(csMethod: CSMethod)
      modifies this
      ensures RecordedIn(env, St(), csMethod)
      ensures forall p :: RecordedAt(old(taintTransfers), p) <= RecordedAt(taintTransfers, p)
      ensures reachable == old(reachable) && callEdges == old(callEdges) && entryMethods == old(entryMethods)
    {
      var stmts := Stmts(env.prog, csMethod.jmethod);
      for k := 0 to |stmts|
        invariant forall j, a :: 0 <= j < k && stmts[j].kind.Call? && a in stmts[j].kind.invoke.args ==>
          stmts[j].kind.invoke in RecordedAt(taintTransfers, CSVar(csMethod.context, a))
        invariant forall p :: RecordedAt(old(taintTransfers), p) <= RecordedAt(taintTransfers, p)
        invariant reachable == old(reachable) && callEdges == old(callEdges) && entryMethods == old(entryMethods)
      {
        if stmts[k].kind.Call? {
          RecordArgs(csMethod.context, stmts[k].kind.invoke);
        }
      }
    }

    /** `possibleTaintTransfers` gains `invoke` for each of its arguments in context `c`. */
    method RecordArgs(c: Context, invoke: Invoke)
      modifies this
      ensures forall p :: RecordedAt(taintTransfers, p) == RecordedAt(old(taintTransfers), p) + Recording(c, invoke, invoke.args, p)
      ensures reachable == old(reachable) && callEdges == old(callEdges) && entryMethods == old(entryMethods)
    {
      var args := invoke.args;
      for j := 0 to |args|
        invariant forall p :: RecordedAt(taintTransfers, p) == RecordedAt(old(taintTransfers), p) + Recording(c, invoke, args[..j], p)
        invariant reachable == old(reachable) && callEdges == old(callEdges) && entryMethods == old(entryMethods)
      {
        var v := CSVar(c, args[j]);
        var invokes := RecordedAt(taintTransfers, v);
        taintTransfers := taintTransfers[v := invokes + {invoke}];
        assert args[..j + 1] == args[..j] + [args[j]];
      }
      assert args[..|args|] == args;
    }

    /**
     * `processSingleCall(callSite, method)`: a configured source hands the
     * call's result a taint object; a new call edge makes the callee
     * reachable and wires the call.
     */
    method ProcessSingleCall(cs: CSCallSite, csm: CSMethod, ghost stack: set<CSMethod>, ghost pending: set<CSCallEdge>)
      requires SelectsWithin(env.sel, contexts) && csm.context in contexts
      requires Consistent(flow.edges, flow.pt, flow.workList)
      requires MethodsDone(env, St(), reachable - stack) && EdgesDoneExcept(env.prog, St(), pending)
      modifies this, flow
      ensures SingleCallDone(env, St(), cs, csm)
      ensures CSCallEdge(cs.callSite.kind, cs, csm) !in old(callEdges) ==> csm in reachable
      ensures old(reachable) <= reachable
      ensures Grows(old(St()), St()) && flow.Extends(old(flow.workList))
      ensures flow.pt == old(flow.pt) && entryMethods == old(entryMethods)
      ensures Consistent(flow.edges, flow.pt, flow.workList)
      ensures MethodsDone(env, St(), reachable - stack) && EdgesDoneExcept(env.prog, St(), pending)
      decreases |Universe() - reachable|, 2
    {
      var invoke := cs.callSite;
      ghost var st0 := St();
      var obj := HandleTaintSource(env.config, env.prog, invoke, csm.jmethod);
      var lVar := invoke.result;
      if obj.Some? && lVar.Some? {
        var ptr := CSVar(cs.context, lVar.value);
        flow.AddEntry(ptr, {CSObj(env.sel.emptyContext, obj.value)});
        PendingAppend(st0.workList, Entry(ptr, {CSObj(env.sel.emptyContext, obj.value)}), ptr);
      }
      GrowsBy(st0, St());
      MethodsDoneGrows(env, st0, St(), reachable - stack);
      EdgesDoneGrows(env.prog, st0, St(), pending);
      ghost var st1 := St();
      AddCallEdge(cs, csm, stack, pending);
      GrowsTrans(st0, st1, St());
      PrefixTrans(st0.workList, st1.workList, flow.workList);
      SourceDoneGrows(env, st1, St(), cs, csm.jmethod);
    }

    /** The rest of `processSingleCall`: a call edge not yet in the call graph is added, its callee made reachable and the call wired. */
    method AddCallEdge(cs: CSCallSite, csm: CSMethod, ghost stack: set<CSMethod>, ghost pending: set<CSCallEdge>)
      requires SelectsWithin(env.sel, contexts) && csm.context in contexts
      requires Consistent(flow.edges, flow.pt, flow.workList)
      requires MethodsDone(env, St(), reachable - stack) && EdgesDoneExcept(env.prog, St(), pending)
      modifies this, flow
      ensures CSCallEdge(cs.callSite.kind, cs, csm) in callEdges
      ensures CSCallEdge(cs.callSite.kind, cs, csm) !in old(callEdges) ==> csm in reachable
      ensures CSCallEdge(cs.callSite.kind, cs, csm) in old(callEdges) ==> St() == old(St())
      ensures old(reachable) <= reachable
      ensures Grows(old(St()), St()) && flow.Extends(old(flow.workList))
      ensures flow.pt == old(flow.pt) && entryMethods == old(entryMethods)
      ensures Consistent(flow.edges, flow.pt, flow.workList)
      ensures MethodsDone(env, St(), reachable - stack) && EdgesDoneExcept(env.prog, St(), pending)
      decreases |Universe() - reachable|, 1
    {
      var invoke := cs.callSite;
      var c, ct := cs.context, csm.context;
      var e := CSCallEdge(invoke.kind, cs, csm);
      if e !in callEdges {
        ghost var st1 := St();
        callEdges := callEdges + {e};
        ghost var st2 := St();
        assert Grows(st1, st2);
        MethodsDoneGrows(env, st1, st2, reachable - stack);
        AddReachable(csm, stack, pending + {e});
        ghost var st3 := St();
        WireCall(c, ct, invoke, csm.jmethod);
        EdgesDoneGrows(env.prog, st3, St(), pending + {e});
        MethodsDoneGrows(env, st3, St(), reachable - stack);
        GrowsTrans(st1, st2, st3);
        GrowsTrans(st1, st3, St());
        PrefixTrans(st1.workList, st3.workList, flow.workList);
      }
    }

    /** Argument-to-parameter and return-to-result edges of a call to `callee` at `i`, from context `cc` into context `ct`. */
    method WireCall(cc: Context, ct: Context, i: Invoke, callee: JMethod)
      requires Consistent(flow.edges, flow.pt, flow.workList)
      modifies flow
      ensures Wired(env.prog, St(), cc, ct, i, callee)
      ensures Grows(old(St()), St()) && flow.Extends(old(flow.workList)) && flow.pt == old(flow.pt)
      ensures Consistent(flow.edges, flow.pt, flow.workList)
    {
      var body := Body(env.prog, callee);
      for k := 0 to ArgCount(env.prog, i, callee)
        invariant forall j :: 0 <= j < k ==> FlowEdge(CSVar(cc, i.args[j]), CSVar(ct, body.params[j])) in flow.edges
        invariant old(flow.edges) <= flow.edges && flow.pt == old(flow.pt) && flow.Extends(old(flow.workList))
        invariant Consistent(flow.edges, flow.pt, flow.workList)
      {
        ghost var wl := flow.workList;
        flow.AddPFGEdge(CSVar(cc, i.args[k]), CSVar(ct, body.params[k]));
        assert flow.workList[..|old(flow.workList)|] == wl[..|old(flow.workList)|];
      }
      if i.result.Some? {
        var lhs := i.result.value;
        var rets := body.returnVars;
        for k := 0 to |rets|
          invariant forall j :: 0 <= j < ArgCount(env.prog, i, callee) ==>
            FlowEdge(CSVar(cc, i.args[j]), CSVar(ct, body.params[j])) in flow.edges
          invariant forall j :: 0 <= j < k ==> FlowEdge(CSVar(ct, rets[j]), CSVar(cc, lhs)) in flow.edges
          invariant old(flow.edges) <= flow.edges && flow.pt == old(flow.pt) && flow.Extends(old(flow.workList))
          invariant Consistent(flow.edges, flow.pt, flow.workList)
        {
          ghost var wl := flow.workList;
          flow.AddPFGEdge(CSVar(ct, rets[k]), CSVar(cc, lhs));
          assert flow.workList[..|old(flow.workList)|] == wl[..|old(flow.workList)|];
        }
      }
      GrowsBy(old(St()), St());
    }

    /**
     * `transferTaint(csCallSite, callee, base)`: one worklist entry per pair
     * that `handleTaintTransfer` returns, in the order `order` of its
     * iteration, for the pair's variable in the call site's context.
     */
    method TransferTaint(cs: CSCallSite, callee: JMethod, base: Option<CSPointer>) returns (ghost order: seq<TaintPair>)
      requires base.Some? ==> base.value.CSVar?
      requires Consistent(flow.edges, flow.pt, flow.workList)
      modifies flow
      ensures NoDuplicates(order) && Elements(order) == TransferPairs(env.config, env.prog, flow.pt, cs, callee, base)
      ensures flow.workList == old(flow.workList) + TaintEntries(env.sel, cs, order)
      ensures TransferDone(env, St(), cs, callee, base)
      ensures flow.edges == old(flow.edges) && flow.pt == old(flow.pt)
      ensures Grows(old(St()), St()) && flow.Extends(old(flow.workList))
      ensures Consistent(flow.edges, flow.pt, flow.workList)
    {
      var pairs := HandleTaintTransfer(env.config, env.prog, flow.pt, cs, callee, base);
      var xs := ListOf(pairs);
      order := xs;
      AddTaintEntries(cs, xs);
    }

    /** The loop of `transferTaint` over the pairs `xs`. */
    method AddTaintEntries(cs: CSCallSite, xs: seq<TaintPair>)
      requires Consistent(flow.edges, flow.pt, flow.workList)
      modifies flow
      ensures flow.workList == old(flow.workList) + TaintEntries(env.sel, cs, xs)
      ensures PairsGiven(env, St(), cs, xs, |xs|)
      ensures flow.edges == old(flow.edges) && flow.pt == old(flow.pt)
      ensures Grows(old(St()), St()) && Consistent(flow.edges, flow.pt, flow.workList)
    {
      for k := 0 to |xs|
        invariant flow.workList == old(flow.workList) + TaintEntries(env.sel, cs, xs[..k])
        invariant flow.edges == old(flow.edges) && flow.pt == old(flow.pt)
        invariant Grows(old(St()), St()) && Consistent(flow.edges, flow.pt, flow.workList)
        invariant PairsGiven(env, St(), cs, xs, k)
      {
        ghost var before := St();
        AddTaintEntry(cs, xs[k]);
        PairsGivenStep(env, before, St(), cs, xs, k);
        GrowsTrans(old(St()), before, St());
        TaintEntriesSnoc(env.sel, cs, xs, k);
      }
      assert xs[..|xs|] == xs;
    }

    /** The worklist entry of one pair `q` of `transferTaint`, if it has a variable. */
    method AddTaintEntry(cs: CSCallSite, q: TaintPair)
      requires Consistent(flow.edges, flow.pt, flow.workList)
      modifies flow
      ensures flow.workList == old(flow.workList) + TaintEntry(env.sel, cs, q)
      ensures q.0.Some? ==> CSObj(env.sel.emptyContext, q.1) in CoveredIn(St(), CSVar(cs.context, q.0.value))
      ensures flow.edges == old(flow.edges) && flow.pt == old(flow.pt)
      ensures Grows(old(St()), St()) && Consistent(flow.edges, flow.pt, flow.workList)
    {
      if q.0.Some? {
        var ptr := CSVar(cs.context, q.0.value);
        flow.AddEntry(ptr, {CSObj(env.sel.emptyContext, q.1)});
        PendingAppend(old(flow.workList), Entry(ptr, {CSObj(env.sel.emptyContext, q.1)}), ptr);
      }
      GrowsBy(old(St()), St());
    }

    /** `analyze()`: processes worklist entries until the worklist is empty or `fuel` entries are done. */
    method Analyze(fuel: nat) returns (done: bool)
      requires SelectsWithin(env.sel, contexts)
      requires Inv(env, St()) && CSMethod(env.sel.emptyContext, env.prog.main) in reachable
      modifies this, flow
      ensures Inv(env, St()) && CSMethod(env.sel.emptyContext, env.prog.main) in reachable
      ensures entryMethods == old(entryMethods)
      ensures done <==> flow.workList == []
      ensures done ==> Closed(env, St())
    {
      var n := fuel;
      while flow.workList != [] && n > 0
        invariant Inv(env, St()) && CSMethod(env.sel.emptyContext, env.prog.main) in reachable
        invariant entryMethods == old(entryMethods)
        decreases n
      {
        AnalyzeStep();
        n := n - 1;
      }
      done := flow.workList == [];
      if done {
        AtFixpoint(env, St());
      }
    }

    /** One iteration of `analyze()`'s loop. */
    method AnalyzeStep()
      requires SelectsWithin(env.sel, contexts)
      requires Inv(env, St()) && flow.workList != []
      modifies this, flow
      ensures Inv(env, St()) && Grows(old(St()), St()) && entryMethods == old(entryMethods)
    {
      ghost var st0 := St();
      var entry := flow.PollEntry();
      var delta := flow.Propagate(entry.pointer, entry.objs);
      ghost var st1 := St();
      PropagateKeepsObjs(env, st0, st1, entry.pointer, entry.objs, delta);
      if delta != {} && entry.pointer.CSVar? {
        ProcessNewObjects(entry.pointer.context, entry.pointer.v, delta);
        GrowsTrans(st0, st1, St());
      }
    }

    static lemma PropagateKeepsObjs(env: Env, st0: State, st1: State, p: CSPointer, objs: set<CSObj>, delta: set<CSObj>)
      requires Inv(env, st0)
      requires st1.reachable == st0.reachable && st1.callEdges == st0.callEdges && st1.edges == st0.edges
      requires st1.transfers == st0.transfers
      requires delta == objs - PointsToIn(st0.pt, p)
      requires st1.pt == if delta == {} then st0.pt else st0.pt[p := PointsToIn(st0.pt, p) + objs]
      requires forall q :: CoveredIn(st0, q) <= CoveredIn(st1, q)
      ensures Grows(st0, st1)
      ensures MethodsDone(env, st1, st1.reachable) && EdgesDone(env.prog, st1)
      ensures delta != {} && p.CSVar? ==> ObjsDoneExcept(env, st1, p.context, p.v, delta)
      ensures !(delta != {} && p.CSVar?) ==> ObjsDone(env, st1)
    {
      assert CoverGrows(st0.pt, st0.workList, st1.pt, st1.workList) by {
        forall q ensures Covered(st0.pt, st0.workList, q) <= Covered(st1.pt, st1.workList, q) {
          assert CoveredIn(st0, q) <= CoveredIn(st1, q);
        }
      }
      MethodsDoneGrows(env, st0, st1, st0.reachable);
      EdgesDoneGrows(env.prog, st0, st1, {});
      forall c, x, o | o in PointsToIn(st1.pt, CSVar(c, x)) && o in PointsToIn(st0.pt, CSVar(c, x))
        ensures ObjDone(env, st1, c, x, o)
      {
        ObjDoneGrows(env, st0, st1, c, x, o);
      }
    }

    /**
     * The part of `analyze()`'s loop for `CSVar(c, x)` whose points-to set
     * gained `delta`: the field and array edges, then, per new object, the
     * calls on it and, for a taint object, the recorded transfers again.
     */
    method ProcessNewObjects(c: Context, x: Var, delta: set<CSObj>)
      requires SelectsWithin(env.sel, contexts)
      requires Consistent(flow.edges, flow.pt, flow.workList)
      requires MethodsDone(env, St(), reachable) && EdgesDone(env.prog, St())
      requires ObjsDoneExcept(env, St(), c, x, delta)
      modifies this, flow
      ensures Inv(env, St()) && Grows(old(St()), St())
      ensures flow.pt == old(flow.pt) && entryMethods == old(entryMethods)
      ensures forall o :: o in delta ==> CallTransfersDone(env, St(), c, x, o)
      ensures (exists o :: o in delta && IsTaint(o.obj)) ==>
        forall i :: i in RecordedAt(old(taintTransfers), CSVar(c, x)) ==> RerunDone(env, St(), c, i)
    {
      ghost var st0 := St();
      var objs := ListOf(delta);
      AddFieldEdges(c, x, objs);
      ghost var st1 := St();
      MethodsDoneGrows(env, st0, st1, reachable);
      EdgesDoneGrows(env.prog, st0, st1, {});
      ObjsDoneExceptGrows(env, st0, st1, c, x, delta);
      for k := 0 to |objs|
        invariant Keeps(env, st1, St()) && entryMethods == old(entryMethods)
        invariant ObjsDoneExcept(env, St(), c, x, delta)
        invariant NewObjsDone(env, St(), c, x, objs, k, RecordedAt(st0.transfers, CSVar(c, x)))
      {
        ProcessNewObjectAt(c, x, objs, k, delta, st0, st1);
      }
      assert NewObjsDone(env, St(), c, x, objs, |objs|, RecordedAt(st0.transfers, CSVar(c, x)));
      forall o | o in PointsToIn(flow.pt, CSVar(c, x)) && o in delta ensures ObjDone(env, St(), c, x, o) {
        var j :| 0 <= j < |objs| && objs[j] == o;
        FieldsDoneGrows(env.prog, st1, St(), c, x, o);
      }
      GrowsTrans(st0, st1, St());
      if exists o :: o in delta && IsTaint(o.obj) {
        var o :| o in delta && IsTaint(o.obj);
        var j :| 0 <= j < |objs| && objs[j] == o;
      }
    }

    /** One iteration of the loop over the new objects: `processCall`, then the recorded transfers again for a taint object. */
    method ProcessNewObjectAt(c: Context, x: Var, objs: seq<CSObj>, k: nat, delta: set<CSObj>, ghost st0: State, ghost st1: State)
      requires SelectsWithin(env.sel, contexts)
      requires k < |objs|
      requires Keeps(env, st1, St()) && Grows(st0, st1)
      requires ObjsDoneExcept(env, St(), c, x, delta)
      requires NewObjsDone(env, St(), c, x, objs, k, RecordedAt(st0.transfers, CSVar(c, x)))
      modifies this, flow
      ensures Keeps(env, st1, St()) && entryMethods == old(entryMethods)
      ensures ObjsDoneExcept(env, St(), c, x, delta)
      ensures NewObjsDone(env, St(), c, x, objs, k + 1, RecordedAt(st0.transfers, CSVar(c, x)))
    {
      ghost var recorded := RecordedAt(st0.transfers, CSVar(c, x));
      ghost var before := St();
      ProcessCall(c, x, objs[k]);
      ghost var mid := St();
      NewObjsDoneGrows(env, before, mid, c, x, objs, k, recorded);
      if IsTaint(objs[k].obj) {
        RerunTransfers(c, x);
        NewObjsDoneGrows(env, mid, St(), c, x, objs, k, recorded);
        CallsDoneGrows(env, mid, St(), c, x, objs[k]);
        CallTransfersDoneGrows(env, mid, St(), c, x, objs[k]);
        assert recorded <= RecordedAt(mid.transfers, CSVar(c, x));
        KeepsTrans(env, before, mid, St());
      }
      KeepsTrans(env, st1, before, St());
      ObjsDoneExceptGrows(env, before, St(), c, x, delta);
      NewObjsDoneStep(env, St(), c, x, objs, k, recorded);
    }

    /** The transfers of the call sites recorded for `CSVar(c, x)` done again, reading the current points-to sets. */
    method RerunTransfers(c: Context, x: Var)
      requires Consistent(flow.edges, flow.pt, flow.workList)
      requires MethodsDone(env, St(), reachable) && EdgesDone(env.prog, St())
      modifies flow
      ensures forall i :: i in RecordedAt(taintTransfers, CSVar(c, x)) ==> RerunDone(env, St(), c, i)
      ensures flow.edges == old(flow.edges) && flow.pt == old(flow.pt) && flow.Extends(old(flow.workList))
      ensures Keeps(env, old(St()), St())
    {
      var invokes := ListOf(RecordedAt(taintTransfers, CSVar(c, x)));
      for k := 0 to |invokes|
        invariant RerunsDone(env, St(), c, invokes, k)
        invariant flow.edges == old(flow.edges) && flow.pt == old(flow.pt) && flow.Extends(old(flow.workList))
        invariant Grows(old(St()), St()) && Consistent(flow.edges, flow.pt, flow.workList)
      {
        ghost var before := St();
        RerunInvoke(c, invokes[k]);
        RerunsDoneGrows(env, before, St(), c, invokes, k);
        GrowsTrans(old(St()), before, St());
        PrefixTrans(old(flow.workList), before.workList, flow.workList);
      }
      assert RerunsDone(env, St(), c, invokes, |invokes|);
      MethodsDoneGrows(env, old(St()), St(), reachable);
      EdgesDoneGrows(env.prog, old(St()), St(), {});
    }

    /** The transfers of one recorded call site `i` in context `c`. */
    method RerunInvoke(c: Context, i: Invoke)
      requires Consistent(flow.edges, flow.pt, flow.workList)
      modifies flow
      ensures RerunDone(env, St(), c, i)
      ensures flow.edges == old(flow.edges) && flow.pt == old(flow.pt) && flow.Extends(old(flow.workList))
      ensures Grows(old(St()), St()) && Consistent(flow.edges, flow.pt, flow.workList)
    {
      var cs := CSCallSite(c, i);
      if i.base.Some? {
        var recv := CSVar(c, i.base.value);
        var recvObjs := ListOf(flow.PointsTo(recv));
        for j := 0 to |recvObjs|
          invariant forall j' :: 0 <= j' < j && env.prog.resolveCallee(Some(ObjType(recvObjs[j'].obj)), i).Some? ==>
            TransferDone(env, St(), cs, env.prog.resolveCallee(Some(ObjType(recvObjs[j'].obj)), i).value, Some(recv))
          invariant flow.edges == old(flow.edges) && flow.pt == old(flow.pt) && flow.Extends(old(flow.workList))
          invariant Grows(old(St()), St()) && Consistent(flow.edges, flow.pt, flow.workList)
        {
          ghost var before := St();
          var callee := env.prog.resolveCallee(Some(ObjType(recvObjs[j].obj)), i);
          if callee.Some? {
            ghost var order := TransferTaint(cs, callee.value, Some(recv));
            forall j' | 0 <= j' < j && env.prog.resolveCallee(Some(ObjType(recvObjs[j'].obj)), i).Some?
              ensures TransferDone(env, St(), cs, env.prog.resolveCallee(Some(ObjType(recvObjs[j'].obj)), i).value, Some(recv))
            {
              TransferDoneGrows(env, before, St(), cs, env.prog.resolveCallee(Some(ObjType(recvObjs[j'].obj)), i).value, Some(recv));
            }
            GrowsTrans(old(St()), before, St());
            PrefixTrans(old(flow.workList), before.workList, flow.workList);
          }
        }
      } else {
        var callee := env.prog.resolveCallee(None, i);
        if callee.Some? {
          ghost var order := TransferTaint(cs, callee.value, None);
        }
      }
    }

    /** The four field and array loops of `analyze()`, over the new objects `objs` of `x` in context `c`. */
    method AddFieldEdges(c: Context, x: Var, objs: seq<CSObj>)
      requires Consistent(flow.edges, flow.pt, flow.workList)
      modifies flow
      ensures forall o :: o in objs ==> FieldsDone(env.prog, St(), c, x, o)
      ensures Grows(old(St()), St()) && flow.Extends(old(flow.workList)) && flow.pt == old(flow.pt)
      ensures Consistent(flow.edges, flow.pt, flow.workList)
    {
      ghost var wl0 := flow.workList;
      AddStoreFieldEdges(c, x, objs);
      ghost var wl1, e1 := flow.workList, flow.edges;
      AddLoadFieldEdges(c, x, objs);
      ghost var wl2, e2 := flow.workList, flow.edges;
      AddStoreArrayEdges(c, x, objs);
      ghost var wl3, e3 := flow.workList, flow.edges;
      AddLoadArrayEdges(c, x, objs);
      PrefixTrans(wl0, wl1, wl2);
      PrefixTrans(wl0, wl2, wl3);
      PrefixTrans(wl0, wl3, flow.workList);
      GrowsBy(old(St()), St());
      forall o | o in objs ensures FieldsDone(env.prog, St(), c, x, o) {
        assert StoreFieldsDone(env.prog, State(reachable, callEdges, e1, flow.pt, wl1, taintTransfers), c, x, o);
        assert LoadFieldsDone(env.prog, State(reachable, callEdges, e2, flow.pt, wl2, taintTransfers), c, x, o);
        assert StoreArraysDone(env.prog, State(reachable, callEdges, e3, flow.pt, wl3, taintTransfers), c, x, o);
      }
    }

    method AddStoreFieldEdges(c: Context, x: Var, objs: seq<CSObj>)
      requires Consistent(flow.edges, flow.pt, flow.workList)
      modifies flow
      ensures forall o :: o in objs ==> StoreFieldsDone(env.prog, St(), c, x, o)
      ensures old(flow.edges) <= flow.edges && flow.Extends(old(flow.workList)) && flow.pt == old(flow.pt)
      ensures Consistent(flow.edges, flow.pt, flow.workList)
    {
      var rf := env.prog.resolveField;
      flow.AddEdgesForEach(StoreFieldsOf(env.prog, x), objs,
        (fy: (FieldRef, Var), o: CSObj) => CSVar(c, fy.1), (fy: (FieldRef, Var), o: CSObj) => InstanceField(o, rf(fy.0)));
    }

    method AddLoadFieldEdges(c: Context, x: Var, objs: seq<CSObj>)
      requires Consistent(flow.edges, flow.pt, flow.workList)
      modifies flow
      ensures forall o :: o in objs ==> LoadFieldsDone(env.prog, St(), c, x, o)
      ensures old(flow.edges) <= flow.edges && flow.Extends(old(flow.workList)) && flow.pt == old(flow.pt)
      ensures Consistent(flow.edges, flow.pt, flow.workList)
    {
      var rf := env.prog.resolveField;
      flow.AddEdgesForEach(LoadFieldsOf(env.prog, x), objs,
        (fy: (FieldRef, Var), o: CSObj) => InstanceField(o, rf(fy.0)), (fy: (FieldRef, Var), o: CSObj) => CSVar(c, fy.1));
    }

    method AddStoreArrayEdges(c: Context, x: Var, objs: seq<CSObj>)
      requires Consistent(flow.edges, flow.pt, flow.workList)
      modifies flow
      ensures forall o :: o in objs ==> StoreArraysDone(env.prog, St(), c, x, o)
      ensures old(flow.edges) <= flow.edges && flow.Extends(old(flow.workList)) && flow.pt == old(flow.pt)
      ensures Consistent(flow.edges, flow.pt, flow.workList)
    {
      flow.AddEdgesForEach(StoreArraysOf(env.prog, x), objs, (y: Var, o: CSObj) => CSVar(c, y), (y: Var, o: CSObj) => ArrayIndex(o));
    }

    method AddLoadArrayEdges(c: Context, x: Var, objs: seq<CSObj>)
      requires Consistent(flow.edges, flow.pt, flow.workList)
      modifies flow
      ensures forall o :: o in objs ==> LoadArraysDone(env.prog, St(), c, x, o)
      ensures old(flow.edges) <= flow.edges && flow.Extends(old(flow.workList)) && flow.pt == old(flow.pt)
      ensures Consistent(flow.edges, flow.pt, flow.workList)
    {
      flow.AddEdgesForEach(LoadArraysOf(env.prog, x), objs, (y: Var, o: CSObj) => ArrayIndex(o), (y: Var, o: CSObj) => CSVar(c, y));
    }

    /** `processCall(recv, recvObj)` for the receiver `CSVar(c, x)`: each call site, resolved on the type of `recvObj`. */
    method ProcessCall(c: Context, x: Var, recvObj: CSObj)
      requires SelectsWithin(env.sel, contexts)
      requires Consistent(flow.edges, flow.pt, flow.workList)
      requires MethodsDone(env, St(), reachable) && EdgesDone(env.prog, St())
      modifies this, flow
      ensures CallsDone(env, St(), c, x, recvObj) && CallTransfersDone(env, St(), c, x, recvObj)
      ensures Keeps(env, old(St()), St()) && entryMethods == old(entryMethods)
    {
      var invokes := InvokesOf(env.prog, x);
      for k := 0 to |invokes|
        invariant forall j :: 0 <= j < k ==>
          ReceiverDone(env, St(), c, invokes[j], recvObj) && ReceiverTransferDone(env, St(), c, x, invokes[j], recvObj)
        invariant Keeps(env, old(St()), St()) && entryMethods == old(entryMethods)
      {
        ProcessInvokeAt(c, x, invokes, k, recvObj, old(St()));
      }
    }

    /** One iteration of `processCall`'s loop, with what the loop keeps. */
    method ProcessInvokeAt(c: Context, x: Var, invokes: seq<Invoke>, k: nat, recvObj: CSObj, ghost st0: State)
      requires SelectsWithin(env.sel, contexts)
      requires k < |invokes|
      requires forall j :: 0 <= j < k ==>
        ReceiverDone(env, St(), c, invokes[j], recvObj) && ReceiverTransferDone(env, St(), c, x, invokes[j], recvObj)
      requires Keeps(env, st0, St())
      modifies this, flow
      ensures forall j :: 0 <= j < k + 1 ==>
        ReceiverDone(env, St(), c, invokes[j], recvObj) && ReceiverTransferDone(env, St(), c, x, invokes[j], recvObj)
      ensures Keeps(env, st0, St()) && entryMethods == old(entryMethods)
    {
      ProcessInvoke(c, x, invokes[k], recvObj);
      KeepsTrans(env, st0, old(St()), St());
      forall j | 0 <= j < k
        ensures ReceiverDone(env, St(), c, invokes[j], recvObj) && ReceiverTransferDone(env, St(), c, x, invokes[j], recvObj)
      {
        ReceiverDoneGrows(env, old(St()), St(), c, invokes[j], recvObj);
        if env.prog.resolveCallee(Some(ObjType(recvObj.obj)), invokes[j]).Some? {
          TransferDoneGrows(env, old(St()), St(), CSCallSite(c, invokes[j]),
            env.prog.resolveCallee(Some(ObjType(recvObj.obj)), invokes[j]).value, Some(CSVar(c, x)));
        }
      }
    }

    /**
     * The body of `processCall`'s loop for call site `i` of `CSVar(c, x)`:
     * `this` receives `recvObj` in the selected context, the call is
     * processed from the call site in context `c`, and the transfers with
     * the receiver as base are applied.
     */
    method ProcessInvoke(c: Context, x: Var, i: Invoke, recvObj: CSObj)
      requires SelectsWithin(env.sel, contexts)
      requires Consistent(flow.edges, flow.pt, flow.workList)
      requires MethodsDone(env, St(), reachable) && EdgesDone(env.prog, St())
      modifies this, flow
      ensures ReceiverDone(env, St(), c, i, recvObj) && ReceiverTransferDone(env, St(), c, x, i, recvObj)
      ensures Keeps(env, old(St()), St()) && entryMethods == old(entryMethods)
    {
      var callee := env.prog.resolveCallee(Some(ObjType(recvObj.obj)), i);
      var cs := CSCallSite(c, i);
      if callee.Some? {
        var m := callee.value;
        var ct := env.sel.selectContext(cs, recvObj, m);
        var body := Body(env.prog, m);
        ghost var st0 := St();
        if body.thisVar.Some? {
          flow.AddEntry(CSVar(ct, body.thisVar.value), {recvObj});
          PendingAppend(st0.workList, Entry(CSVar(ct, body.thisVar.value), {recvObj}), CSVar(ct, body.thisVar.value));
        }
        GrowsBy(st0, St());
        MethodsDoneGrows(env, st0, St(), reachable);
        EdgesDoneGrows(env.prog, st0, St(), {});
        ghost var st1 := St();
        ProcessSingleCall(cs, CSMethod(ct, m), {}, {});
        ghost var st2 := St();
        ghost var order := TransferTaint(cs, m, Some(CSVar(c, x)));
        MethodsDoneGrows(env, st2, St(), reachable);
        EdgesDoneGrows(env.prog, st2, St(), {});
        SourceDoneGrows(env, st2, St(), cs, m);
        GrowsTrans(st1, st2, St());
        GrowsTrans(st0, st1, St());
        PrefixTrans(st0.workList, st2.workList, flow.workList);
        if body.thisVar.Some? {
          assert CoveredIn(st1, CSVar(ct, body.thisVar.value)) <= CoveredIn(St(), CSVar(ct, body.thisVar.value));
        }
      }
    }
  }
}
