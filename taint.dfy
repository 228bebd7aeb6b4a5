/**
 * The taint plug-in of the context-sensitive pointer analysis
 * (`TaintAnalysiss`): source matching, transfer-rule matching, and the
 * collection of taint flows into sinks once the analysis is done.
 *
 * The configuration (sources, sinks, transfers) is a value. The taint
 * manager is specified by its contract only: `makeTaint(call, type)` is a
 * taint object of that type whose source call is `call`.
 */
module TaintAnalysis {
  import opened Wrappers
  import opened IR
  import opened Collections
  import opened PtaInput
  import opened PointerFlow
  import opened CSElements

  /** Calls to `jmethod` whose result type is `ty` return taint. */
  datatype Source = Source(jmethod: JMethod, ty: Type)

  /** Argument `index` of a call to `jmethod` is a sink. */
  datatype Sink = Sink(jmethod: JMethod, index: nat)

  /** An end of a transfer: the receiver (`TaintTransfer.BASE`), the result (`TaintTransfer.RESULT`) or an argument. */
  datatype TransferPoint = BaseVar | ResultVar | ArgAt(index: nat)

  /** Taint passes through a call to `jmethod` from `from` to `to`, taking the type `ty`. */
  datatype TaintTransfer = TaintTransfer(jmethod: JMethod, from: TransferPoint, to: TransferPoint, ty: Type)

  datatype TaintConfig = TaintConfig(sources: set<Source>, sinks: set<Sink>, transfers: set<TaintTransfer>)

  /** Taint created at `sourceCall` reaches argument `index` of `sinkCall`. */
  datatype TaintFlow = TaintFlow(sourceCall: Invoke, sinkCall: Invoke, index: nat)

  /** A variable to receive a taint object; `None` is the missing result of a call. */
  type TaintPair = (Option<Var>, Obj)

  /** `isTaint(obj)`. */
  predicate IsTaint(o: Obj)
  {
    o.TaintObj?
  }

  /** `manager.makeTaint(call, type)`. */
  function MakeTaint(call: Invoke, ty: Type): (t: Obj)
    ensures IsTaint(t) && t.sourceCall == call && ObjType(t) == ty
  {
    TaintObj(call, ty)
  }

  /** `handleTaintSource(callSite, callee)`: a new taint object if the callee and its return type are a configured source. */
  function HandleTaintSource(config: TaintConfig, prog: Program, callSite: Invoke, callee: JMethod): (r: Option<Obj>)
    ensures r.Some? <==> Source(callee, prog.returnType(callee)) in config.sources
    ensures r.Some? ==> IsTaint(r.value) && r.value.sourceCall == callSite && ObjType(r.value) == prog.returnType(callee)
  {
    var ty := prog.returnType(callee);
    if Source(callee, ty) in config.sources then Some(MakeTaint(callSite, ty)) else None
  }

  /** The source calls of the taint objects among `objs`. */
  function TaintSources(objs: set<CSObj>): set<Invoke>
  {
    set o | o in objs && IsTaint(o.obj) :: o.obj.sourceCall
  }

  /** A pair `(v, makeTaint(getSourceCall(o), ty))` for each taint object `o` among `objs`. */
  function TaintPairs(objs: set<CSObj>, v: Option<Var>, ty: Type): set<TaintPair>
  {
    set s | s in TaintSources(objs) :: (v, MakeTaint(s, ty))
  }

  /** The points-to set of argument `i` of the call site, in the call site's context. */
  function ArgPts(pt: map<CSPointer, set<CSObj>>, cs: CSCallSite, i: nat): set<CSObj>
    requires i < |cs.callSite.args|
  {
    PointsToIn(pt, CSVar(cs.context, cs.callSite.args[i]))
  }

  /** The pairs of the transfers from the first `n` arguments to `to`, given to `v` with type `ty`. */
  function ArgPairs(config: TaintConfig, pt: map<CSPointer, set<CSObj>>, cs: CSCallSite, callee: JMethod,
                    to: TransferPoint, v: Option<Var>, ty: Type, n: nat): set<TaintPair>
    requires n <= |cs.callSite.args|
  {
    if n == 0 then {}
    else
      ArgPairs(config, pt, cs, callee, to, v, ty, n - 1) +
      (if TaintTransfer(callee, ArgAt(n - 1), to, ty) in config.transfers then TaintPairs(ArgPts(pt, cs, n - 1), v, ty) else {})
  }

  /** The base-to-result and arg-to-base pairs of a call with receiver `base`. */
  function BasePairs(config: TaintConfig, prog: Program, pt: map<CSPointer, set<CSObj>>, cs: CSCallSite,
                     callee: JMethod, base: CSPointer): set<TaintPair>
    requires base.CSVar?
  {
    var lVar := cs.callSite.result;
    var resultType := prog.returnType(callee);
    (if TaintTransfer(callee, BaseVar, ResultVar, resultType) in config.transfers && lVar.Some?
     then TaintPairs(PointsToIn(pt, base), lVar, resultType) else {}) +
    ArgPairs(config, pt, cs, callee, BaseVar, Some(base.v), base.v.ty, |cs.callSite.args|)
  }

  /** What `handleTaintTransfer(csCallSite, callee, base)` returns; `base` is `None` for a static call. */
  function TransferPairs(config: TaintConfig, prog: Program, pt: map<CSPointer, set<CSObj>>, cs: CSCallSite,
                         callee: JMethod, base: Option<CSPointer>): set<TaintPair>
    requires base.Some? ==> base.value.CSVar?
  {
    (if base.Some? then BasePairs(config, prog, pt, cs, callee, base.value) else {}) +
    ArgPairs(config, pt, cs, callee, ResultVar, cs.callSite.result, prog.returnType(callee), |cs.callSite.args|)
  }

  /** A pair comes from the first `n` arguments exactly when a configured transfer from one of them carries one of its taint objects. */
  lemma {:induction false} ArgPairsExactly(config: TaintConfig, pt: map<CSPointer, set<CSObj>>, cs: CSCallSite, callee: JMethod,
                                           to: TransferPoint, v: Option<Var>, ty: Type, n: nat, q: TaintPair)
    requires n <= |cs.callSite.args|
    ensures q in ArgPairs(config, pt, cs, callee, to, v, ty, n) <==>
      exists i, s :: 0 <= i < n && TaintTransfer(callee, ArgAt(i), to, ty) in config.transfers &&
        s in TaintSources(ArgPts(pt, cs, i)) && q == (v, MakeTaint(s, ty))
  {
    if n > 0 {
      ArgPairsExactly(config, pt, cs, callee, to, v, ty, n - 1, q);
      if TaintTransfer(callee, ArgAt(n - 1), to, ty) in config.transfers && q in TaintPairs(ArgPts(pt, cs, n - 1), v, ty) {
        var s :| s in TaintSources(ArgPts(pt, cs, n - 1)) && q == (v, MakeTaint(s, ty));
        assert 0 <= n - 1 < n;
      }
      if exists i, s :: 0 <= i < n && TaintTransfer(callee, ArgAt(i), to, ty) in config.transfers &&
           s in TaintSources(ArgPts(pt, cs, i)) && q == (v, MakeTaint(s, ty)) {
        var i, s :| 0 <= i < n && TaintTransfer(callee, ArgAt(i), to, ty) in config.transfers &&
          s in TaintSources(ArgPts(pt, cs, i)) && q == (v, MakeTaint(s, ty));
        if i == n - 1 {
          assert q in TaintPairs(ArgPts(pt, cs, n - 1), v, ty);
        }
      }
    }
  }

  /**
   * The three transfer rules, exactly: base-to-result needs a receiver, a
   * configured rule and a result variable; arg-to-base needs a receiver and
   * a configured rule; arg-to-result needs a configured rule only, so it
   * produces pairs for a call without a result too.
   */
  lemma TransferPairsExactly(config: TaintConfig, prog: Program, pt: map<CSPointer, set<CSObj>>, cs: CSCallSite,
                             callee: JMethod, base: Option<CSPointer>, q: TaintPair)
    requires base.Some? ==> base.value.CSVar?
    ensures q in TransferPairs(config, prog, pt, cs, callee, base) <==>
      (base.Some? && cs.callSite.result.Some? &&
       TaintTransfer(callee, BaseVar, ResultVar, prog.returnType(callee)) in config.transfers &&
       exists s :: s in TaintSources(PointsToIn(pt, base.value)) && q == (cs.callSite.result, MakeTaint(s, prog.returnType(callee)))) ||
      (base.Some? &&
       exists i, s :: 0 <= i < |cs.callSite.args| && TaintTransfer(callee, ArgAt(i), BaseVar, base.value.v.ty) in config.transfers &&
         s in TaintSources(ArgPts(pt, cs, i)) && q == (Some(base.value.v), MakeTaint(s, base.value.v.ty))) ||
      (exists i, s :: 0 <= i < |cs.callSite.args| && TaintTransfer(callee, ArgAt(i), ResultVar, prog.returnType(callee)) in config.transfers &&
         s in TaintSources(ArgPts(pt, cs, i)) && q == (cs.callSite.result, MakeTaint(s, prog.returnType(callee))))
  {
    ArgPairsExactly(config, pt, cs, callee, ResultVar, cs.callSite.result, prog.returnType(callee), |cs.callSite.args|, q);
    if base.Some? {
      ArgPairsExactly(config, pt, cs, callee, BaseVar, Some(base.value.v), base.value.v.ty, |cs.callSite.args|, q);
    }
  }

  /**
   * Every pair is a taint object whose source call is that of a taint object
   * the receiver or an argument points to, given to the call's result or to
   * the receiver.
   */
  lemma TransferPairsFromTaints(config: TaintConfig, prog: Program, pt: map<CSPointer, set<CSObj>>, cs: CSCallSite,
                                callee: JMethod, base: Option<CSPointer>, q: TaintPair)
    requires base.Some? ==> base.value.CSVar?
    requires q in TransferPairs(config, prog, pt, cs, callee, base)
    ensures IsTaint(q.1)
    ensures q.0 == cs.callSite.result || (base.Some? && q.0 == Some(base.value.v))
    ensures (base.Some? && q.1.sourceCall in TaintSources(PointsToIn(pt, base.value))) ||
            exists i :: 0 <= i < |cs.callSite.args| && q.1.sourceCall in TaintSources(ArgPts(pt, cs, i))
  {
    TransferPairsExactly(config, prog, pt, cs, callee, base, q);
  }

  /** Without a result variable, an arg-to-result rule still yields a pair, for the missing variable. */
  lemma ArgToResultWithoutResult(config: TaintConfig, prog: Program, pt: map<CSPointer, set<CSObj>>, cs: CSCallSite,
                                 callee: JMethod, base: Option<CSPointer>, i: nat, o: CSObj)
    requires base.Some? ==> base.value.CSVar?
    requires cs.callSite.result == None && i < |cs.callSite.args|
    requires TaintTransfer(callee, ArgAt(i), ResultVar, prog.returnType(callee)) in config.transfers
    requires o in ArgPts(pt, cs, i) && IsTaint(o.obj)
    ensures (None, MakeTaint(o.obj.sourceCall, prog.returnType(callee))) in TransferPairs(config, prog, pt, cs, callee, base)
  {
    var q: TaintPair := (None, MakeTaint(o.obj.sourceCall, prog.returnType(callee)));
    assert o.obj.sourceCall in TaintSources(ArgPts(pt, cs, i));
    TransferPairsExactly(config, prog, pt, cs, callee, base, q);
  }

  lemma TaintPairsAdd(objs: set<CSObj>, o: CSObj, v: Option<Var>, ty: Type)
    ensures TaintPairs(objs + {o}, v, ty) ==
      TaintPairs(objs, v, ty) + (if IsTaint(o.obj) then {(v, MakeTaint(o.obj.sourceCall, ty))} else {})
  {
    assert TaintSources(objs + {o}) == TaintSources(objs) + (if IsTaint(o.obj) then {o.obj.sourceCall} else {});
  }

  /** A `forEach` over a points-to set adding the pair of each taint object. */
  method AddTaintPairs(acc: set<TaintPair>, objs: set<CSObj>, v: Option<Var>, ty: Type) returns (r: set<TaintPair>)
    ensures r == acc + TaintPairs(objs, v, ty)
  {
    var xs := ListOf(objs);
    r := acc;
    for k := 0 to |xs|
      invariant r == acc + TaintPairs(Elements(xs[..k]), v, ty)
    {
      assert xs[..k + 1] == xs[..k] + [xs[k]];
      assert Elements(xs[..k + 1]) == Elements(xs[..k]) + {xs[k]};
      TaintPairsAdd(Elements(xs[..k]), xs[k], v, ty);
      if IsTaint(xs[k].obj) {
        r := r + {(v, MakeTaint(xs[k].obj.sourceCall, ty))};
      }
    }
    assert xs[..|xs|] == xs;
    assert Elements(xs) == objs;
  }

  /** The loop of `handleTaintTransfer` over the arguments, for the transfers to `to`. */
  method AddArgPairs(config: TaintConfig, pt: map<CSPointer, set<CSObj>>, cs: CSCallSite, callee: JMethod,
                     to: TransferPoint, v: Option<Var>, ty: Type, acc: set<TaintPair>) returns (r: set<TaintPair>)
    ensures r == acc + ArgPairs(config, pt, cs, callee, to, v, ty, |cs.callSite.args|)
  {
    var args := cs.callSite.args;
    r := acc;
    for i := 0 to |args|
      invariant r == acc + ArgPairs(config, pt, cs, callee, to, v, ty, i)
    {
      var transfer := TaintTransfer(callee, ArgAt(i), to, ty);
      if transfer in config.transfers {
        r := AddTaintPairs(r, PointsToIn(pt, CSVar(cs.context, args[i])), v, ty);
      }
    }
  }

  /** `handleTaintTransfer(csCallSite, callee, base)`, reading points-to sets from `pt`. */
  method HandleTaintTransfer(config: TaintConfig, prog: Program, pt: map<CSPointer, set<CSObj>>, cs: CSCallSite,
                             callee: JMethod, base: Option<CSPointer>) returns (result: set<TaintPair>)
    requires base.Some? ==> base.value.CSVar?
    ensures result == TransferPairs(config, prog, pt, cs, callee, base)
  {
    var lVar := cs.callSite.result;
    result := {};
    if base.Some? {
      var resultType := prog.returnType(callee);
      var transfer := TaintTransfer(callee, BaseVar, ResultVar, resultType);
      if transfer in config.transfers && lVar.Some? {
        result := AddTaintPairs(result, PointsToIn(pt, base.value), lVar, resultType);
      }
      var baseType := base.value.v.ty;
      result := AddArgPairs(config, pt, cs, callee, BaseVar, Some(base.value.v), baseType, result);
    }
    var resultType := prog.returnType(callee);
    result := AddArgPairs(config, pt, cs, callee, ResultVar, lVar, resultType, result);
  }

  /** `result.getPointsToSet(v)`: the objects `v` points to in any context, without their heap contexts. */
  function VarPointsTo(pt: map<CSPointer, set<CSObj>>, v: Var): set<Obj>
  {
    set p, o | p in pt.Keys && p.CSVar? && p.v == v && o in pt[p] :: o.obj
  }

  lemma VarPointsToExactly(pt: map<CSPointer, set<CSObj>>, v: Var, o: Obj)
    ensures o in VarPointsTo(pt, v) <==> exists c, h :: CSObj(h, o) in PointsToIn(pt, CSVar(c, v))
  {
    if o in VarPointsTo(pt, v) {
      var p, co :| p in pt.Keys && p.CSVar? && p.v == v && co in pt[p] && co.obj == o;
      assert CSObj(co.heapContext, o) in PointsToIn(pt, CSVar(p.context, v));
    }
    if exists c, h :: CSObj(h, o) in PointsToIn(pt, CSVar(c, v)) {
      var c, h :| CSObj(h, o) in PointsToIn(pt, CSVar(c, v));
      assert CSVar(c, v) in pt.Keys;
    }
  }

  /** `callGraph.getCallersOf(csMethod)`. */
  function CallersOf(callEdges: set<CSCallEdge>, csm: CSMethod): set<CSCallSite>
  {
    set e | e in callEdges && e.callee == csm :: e.callSite
  }

  /** A flow for each taint object among `objs`, into argument `i` of `callSite`. */
  function FlowsOf(objs: set<Obj>, callSite: Invoke, i: nat): set<TaintFlow>
  {
    set o | o in objs && IsTaint(o) :: TaintFlow(o.sourceCall, callSite, i)
  }

  /** The flows into the first `n` arguments of `callSite`, a call to `callee`. */
  function CallSiteFlows(config: TaintConfig, pt: map<CSPointer, set<CSObj>>, callee: JMethod, callSite: Invoke, n: nat): set<TaintFlow>
    requires n <= |callSite.args|
  {
    if n == 0 then {}
    else
      CallSiteFlows(config, pt, callee, callSite, n - 1) +
      (if Sink(callee, n - 1) in config.sinks then FlowsOf(VarPointsTo(pt, callSite.args[n - 1]), callSite, n - 1) else {})
  }

  /** The flows into all arguments of `callSite`. */
  function AllArgFlows(config: TaintConfig, pt: map<CSPointer, set<CSObj>>, callee: JMethod, callSite: Invoke): set<TaintFlow>
  {
    CallSiteFlows(config, pt, callee, callSite, |callSite.args|)
  }

  /** The flows at the call sites that call `csm`. */
  function MethodFlows(config: TaintConfig, pt: map<CSPointer, set<CSObj>>, callEdges: set<CSCallEdge>, csm: CSMethod): set<TaintFlow>
  {
    set cs, f | cs in CallersOf(callEdges, csm) && f in AllArgFlows(config, pt, csm.jmethod, cs.callSite) :: f
  }

  /** What `collectTaintFlows()` returns. */
  function TaintFlows(config: TaintConfig, pt: map<CSPointer, set<CSObj>>, reachable: set<CSMethod>, callEdges: set<CSCallEdge>): set<TaintFlow>
  {
    set csm, f | csm in reachable && f in MethodFlows(config, pt, callEdges, csm) :: f
  }

  lemma {:induction false} CallSiteFlowsExactly(config: TaintConfig, pt: map<CSPointer, set<CSObj>>, callee: JMethod,
                                                callSite: Invoke, n: nat, f: TaintFlow)
    requires n <= |callSite.args|
    ensures f in CallSiteFlows(config, pt, callee, callSite, n) <==>
      exists i, o :: 0 <= i < n && Sink(callee, i) in config.sinks && o in VarPointsTo(pt, callSite.args[i]) && IsTaint(o) &&
        f == TaintFlow(o.sourceCall, callSite, i)
  {
    if n > 0 {
      CallSiteFlowsExactly(config, pt, callee, callSite, n - 1, f);
      if Sink(callee, n - 1) in config.sinks && f in FlowsOf(VarPointsTo(pt, callSite.args[n - 1]), callSite, n - 1) {
        var o :| o in VarPointsTo(pt, callSite.args[n - 1]) && IsTaint(o) && f == TaintFlow(o.sourceCall, callSite, n - 1);
        assert 0 <= n - 1 < n;
      }
      if exists i, o :: 0 <= i < n && Sink(callee, i) in config.sinks && o in VarPointsTo(pt, callSite.args[i]) && IsTaint(o) &&
           f == TaintFlow(o.sourceCall, callSite, i) {
        var i, o :| 0 <= i < n && Sink(callee, i) in config.sinks && o in VarPointsTo(pt, callSite.args[i]) && IsTaint(o) &&
          f == TaintFlow(o.sourceCall, callSite, i);
        if i == n - 1 {
          assert f in FlowsOf(VarPointsTo(pt, callSite.args[n - 1]), callSite, n - 1);
        }
      }
    }
  }

  /**
   * A flow is reported exactly for a call edge into a reachable method, an
   * argument that the callee's configuration names as a sink, and a taint
   * object that argument points to in some context; the flow records the
   * taint's source call.
   */
  lemma TaintFlowsExactly(config: TaintConfig, pt: map<CSPointer, set<CSObj>>, reachable: set<CSMethod>, callEdges: set<CSCallEdge>, f: TaintFlow)
    ensures f in TaintFlows(config, pt, reachable, callEdges) <==>
      exists e, i, o :: e in callEdges && e.callee in reachable && 0 <= i < |e.callSite.callSite.args| &&
        Sink(e.callee.jmethod, i) in config.sinks && o in VarPointsTo(pt, e.callSite.callSite.args[i]) && IsTaint(o) &&
        f == TaintFlow(o.sourceCall, e.callSite.callSite, i)
  {
    if f in TaintFlows(config, pt, reachable, callEdges) {
      var csm :| csm in reachable && f in MethodFlows(config, pt, callEdges, csm);
      var cs :| cs in CallersOf(callEdges, csm) && f in AllArgFlows(config, pt, csm.jmethod, cs.callSite);
      var e :| e in callEdges && e.callee == csm && e.callSite == cs;
      CallSiteFlowsExactly(config, pt, csm.jmethod, cs.callSite, |cs.callSite.args|, f);
    }
    if exists e, i, o :: e in callEdges && e.callee in reachable && 0 <= i < |e.callSite.callSite.args| &&
         Sink(e.callee.jmethod, i) in config.sinks && o in VarPointsTo(pt, e.callSite.callSite.args[i]) && IsTaint(o) &&
         f == TaintFlow(o.sourceCall, e.callSite.callSite, i) {
      var e, i, o :| e in callEdges && e.callee in reachable && 0 <= i < |e.callSite.callSite.args| &&
        Sink(e.callee.jmethod, i) in config.sinks && o in VarPointsTo(pt, e.callSite.callSite.args[i]) && IsTaint(o) &&
        f == TaintFlow(o.sourceCall, e.callSite.callSite, i);
      CallSiteFlowsExactly(config, pt, e.callee.jmethod, e.callSite.callSite, |e.callSite.callSite.args|, f);
      assert f in AllArgFlows(config, pt, e.callee.jmethod, e.callSite.callSite);
      assert e.callSite in CallersOf(callEdges, e.callee);
      assert f in MethodFlows(config, pt, callEdges, e.callee);
    }
  }

  lemma FlowsOfAdd(objs: set<Obj>, o: Obj, callSite: Invoke, i: nat)
    ensures FlowsOf(objs + {o}, callSite, i) ==
      FlowsOf(objs, callSite, i) + (if IsTaint(o) then {TaintFlow(o.sourceCall, callSite, i)} else {})
  {
  }

  /** The `forEach` over the points-to set of a sink argument. */
  method AddFlows(acc: set<TaintFlow>, objs: set<Obj>, callSite: Invoke, i: nat) returns (r: set<TaintFlow>)
    ensures r == acc + FlowsOf(objs, callSite, i)
  {
    var xs := ListOf(objs);
    r := acc;
    for k := 0 to |xs|
      invariant r == acc + FlowsOf(Elements(xs[..k]), callSite, i)
    {
      assert xs[..k + 1] == xs[..k] + [xs[k]];
      assert Elements(xs[..k + 1]) == Elements(xs[..k]) + {xs[k]};
      FlowsOfAdd(Elements(xs[..k]), xs[k], callSite, i);
      if IsTaint(xs[k]) {
        r := r + {TaintFlow(xs[k].sourceCall, callSite, i)};
      }
    }
    assert xs[..|xs|] == xs;
    assert Elements(xs) == objs;
  }

  /** The loop of `collectTaintFlows` over the arguments of one call site of `callee`. */
  method CollectCallSiteFlows(config: TaintConfig, pt: map<CSPointer, set<CSObj>>, callee: JMethod, callSite: Invoke,
                              acc: set<TaintFlow>) returns (r: set<TaintFlow>)
    ensures r == acc + AllArgFlows(config, pt, callee, callSite)
  {
    var args := callSite.args;
    r := acc;
    for i := 0 to |args|
      invariant r == acc + CallSiteFlows(config, pt, callee, callSite, i)
    {
      var arg := args[i];
      var sink := Sink(callee, i);
      if sink in config.sinks {
        r := AddFlows(r, VarPointsTo(pt, arg), callSite, i);
      }
    }
  }

  /** The loop of `collectTaintFlows` over the callers of one reachable method. */
  method CollectMethodFlows(config: TaintConfig, pt: map<CSPointer, set<CSObj>>, callEdges: set<CSCallEdge>, csm: CSMethod,
                            acc: set<TaintFlow>) returns (r: set<TaintFlow>)
    ensures r == acc + MethodFlows(config, pt, callEdges, csm)
  {
    ghost var flowsAt := (cs: CSCallSite) => AllArgFlows(config, pt, csm.jmethod, cs.callSite);
    var callers := ListOf(CallersOf(callEdges, csm));
    r := acc;
    for k := 0 to |callers|
      invariant r == acc + UnionOver(callers[..k], flowsAt)
    {
      UnionOverSnoc(callers, k, flowsAt);
      r := CollectCallSiteFlows(config, pt, csm.jmethod, callers[k].callSite, r);
    }
    assert callers[..|callers|] == callers;
    forall f ensures f in UnionOver(callers, flowsAt) <==> f in MethodFlows(config, pt, callEdges, csm) {
      if f in MethodFlows(config, pt, callEdges, csm) {
        var cs :| cs in CallersOf(callEdges, csm) && f in AllArgFlows(config, pt, csm.jmethod, cs.callSite);
        assert cs in callers && f in flowsAt(cs);
      }
    }
  }

  /** `collectTaintFlows()`, over the reachable methods, call edges and points-to sets of the finished analysis. */
  method CollectTaintFlows(config: TaintConfig, pt: map<CSPointer, set<CSObj>>, reachable: set<CSMethod>,
                           callEdges: set<CSCallEdge>) returns (taintFlows: set<TaintFlow>)
    ensures taintFlows == TaintFlows(config, pt, reachable, callEdges)
  {
    ghost var flowsOf := (csm: CSMethod) => MethodFlows(config, pt, callEdges, csm);
    var methods := ListOf(reachable);
    taintFlows := {};
    for k := 0 to |methods|
      invariant taintFlows == UnionOver(methods[..k], flowsOf)
    {
      UnionOverSnoc(methods, k, flowsOf);
      taintFlows := CollectMethodFlows(config, pt, callEdges, methods[k], taintFlows);
    }
    assert methods[..|methods|] == methods;
    forall f ensures f in UnionOver(methods, flowsOf) <==> f in TaintFlows(config, pt, reachable, callEdges) {
      if f in TaintFlows(config, pt, reachable, callEdges) {
        var csm :| csm in reachable && f in MethodFlows(config, pt, callEdges, csm);
        assert csm in methods && f in flowsOf(csm);
      }
    }
  }
}
