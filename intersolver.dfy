/**
 * The worklist solver of the interprocedural analyses: it gives every ICFG
 * node an IN and an OUT fact, then repeatedly takes a node off a set queue,
 * meets the facts its in-edges deliver into its IN, applies the node's
 * transfer and, when OUT changed, queues the node's successors.
 *
 * The solver runs one of two interprocedural constant propagations: the
 * plain one, whose node transfers only touch the node's own OUT, and the
 * alias-aware one, whose store and load transfers also read and update the
 * OUT facts of related loads and queue those loads' successors. Those
 * transfers are methods of the solver here, because they change the
 * solver's own state.
 *
 * Facts are values: the IN and OUT of each node are entries of two
 * sequences indexed by node, and updating a fact in place is replacing the
 * entry.
 */
module InterSolver {
  import opened Wrappers
  import opened IR
  import opened Collections
  import opened ConstantPropagation
  import opened InterConstantPropagation

  /** The analysis the solver runs: without aliases, or alias-aware with the relations `initialize` built. */
  datatype Analysis = Plain | AliasAware(rel: AliasRelations)

  predicate AnalysisFits(g: ICFG, a: Analysis)
  {
    a.AliasAware? ==> RelationsFit(g, a.rel)
  }

  /** One IN and one OUT fact per node. */
  predicate Shaped(g: ICFG, ins: seq<Fact>, outs: seq<Fact>)
  {
    |ins| == |g.nodes| && |outs| == |g.nodes|
  }

  /** The fact `newBoundaryFact` gives a method's entry: NAC for each int-holding parameter. */
  ghost predicate IsBoundaryFact(f: Fact, params: seq<Var>)
  {
    forall v :: Get(f, v) == (if v in params && CanHoldInt(v) then NAC else Undef)
  }

  // ---------------------------------------------------------------- what a step does

  /** The fact `edges` deliver, met into `target` one edge at a time. */
  function MeetAll(g: ICFG, outs: seq<Fact>, edges: seq<ICFGEdge>, target: Fact): Fact
    requires |outs| == |g.nodes| && forall e :: e in edges ==> ValidEdge(g, e)
  {
    if edges == [] then target
    else
      var e := edges[|edges| - 1];
      assert e in edges && ValidEdge(g, e) && e.source < |outs|;
      MeetResult(EdgeFact(g, e, outs[e.source]), MeetAll(g, outs, edges[..|edges| - 1], target))
  }

  /**
   * The node's own new OUT: a call node copies IN; in the alias-aware
   * analysis an array load copies IN except the loaded variable and then
   * pulls from its related stores, and a field load only copies; every other
   * node is the intraprocedural transfer.
   */
  function OwnResult(g: ICFG, a: Analysis, ins: seq<Fact>, outs: seq<Fact>, n: nat): Fact
    requires AnalysisFits(g, a) && Shaped(g, ins, outs) && n < |g.nodes|
  {
    var s := g.nodes[n];
    if IsCallNode(g, n) then ins[n]
    else if a.AliasAware? && IsLoadArray(s) then
      PullUpTo(g, a.rel, outs, n, |g.nodes|, CopyOthersResult(ins[n], outs[n], LoadedVar(g, n)))
    else if a.AliasAware? && IsLoadField(s) then CopyOthersResult(ins[n], outs[n], LoadedVar(g, n))
    else TransferResult(s, ins[n], outs[n])
  }

  /**
   * The new OUT of another node `l` after node `n`'s transfer, `own` being
   * `n`'s new OUT: a field store pushes its value into its related loads and
   * an array store runs `transferLoadArray` on its related loads.
   */
  function PushedOut(g: ICFG, a: Analysis, ins: seq<Fact>, own: Fact, outs: seq<Fact>, n: nat, l: nat): Fact
    requires AnalysisFits(g, a) && Shaped(g, ins, outs) && n < |g.nodes| && l < |g.nodes|
  {
    var s := g.nodes[n];
    if a.AliasAware? && s.kind.StoreField? && (n, l) in a.rel.fieldStoreToLoads then
      FieldPush(g, l, outs[l], Get(ins[n], s.kind.rvalue))
    else if a.AliasAware? && s.kind.StoreArray? && (n, l) in a.rel.arrayStoreToLoads then
      LoadArrayStep(g, own, n, l, outs[l])
    else outs[l]
  }

  /** The successors of the nodes other than `n` whose OUT changed: what `propagate` queued. */
  ghost function Propagated(g: ICFG, before: seq<Fact>, after: seq<Fact>, n: nat): set<nat>
    requires |g.succs| == |g.nodes| && |before| == |g.nodes| && |after| == |g.nodes|
  {
    set l: nat, q | l < |g.nodes| && l != n && before[l] != after[l] && q in g.succs[l] :: q
  }

  // ---------------------------------------------------------------- stability

  /** IN lies below what every in-edge delivers. */
  ghost predicate EdgesMet(g: ICFG, ins: seq<Fact>, outs: seq<Fact>, m: nat)
    requires ValidICFG(g) && Shaped(g, ins, outs) && m < |g.nodes|
  {
    forall e :: e in g.inEdges[m] ==> FactBelow(ins[m], EdgeFact(g, e, outs[e.source]))
  }

  /**
   * OUT is a fixed point of the node's transfer from its IN (for alias-aware
   * loads: of the copy of IN; the array pulls are left to the next visit).
   */
  ghost predicate Settled(g: ICFG, a: Analysis, ins: seq<Fact>, outs: seq<Fact>, m: nat)
    requires ValidICFG(g) && Shaped(g, ins, outs) && m < |g.nodes|
  {
    var s := g.nodes[m];
    if IsCallNode(g, m) then outs[m] == ins[m]
    else if a.AliasAware? && (IsLoadArray(s) || IsLoadField(s)) then
      CopyOthersResult(ins[m], outs[m], LoadedVar(g, m)) == outs[m]
    else TransferResult(s, ins[m], outs[m]) == outs[m]
  }

  /** An alias-aware field store's value has reached every related load. */
  ghost predicate FieldPushed(g: ICFG, a: Analysis, ins: seq<Fact>, outs: seq<Fact>, m: nat)
    requires ValidICFG(g) && AnalysisFits(g, a) && Shaped(g, ins, outs) && m < |g.nodes|
  {
    a.AliasAware? && g.nodes[m].kind.StoreField? ==>
      forall l: nat :: l < |g.nodes| && (m, l) in a.rel.fieldStoreToLoads ==>
        Below(Get(outs[l], LoadedVar(g, l)), Get(ins[m], g.nodes[m].kind.rvalue))
  }

  ghost predicate Stable(g: ICFG, a: Analysis, ins: seq<Fact>, outs: seq<Fact>, m: nat)
    requires ValidICFG(g) && AnalysisFits(g, a) && Shaped(g, ins, outs) && m < |g.nodes|
  {
    EdgesMet(g, ins, outs, m) && Settled(g, a, ins, outs, m) && FieldPushed(g, a, ins, outs, m)
  }

  // ---------------------------------------------------------------- the solver

  class Solver {
    const icfg: ICFG
    const analysis: Analysis
    var inFacts: seq<Fact>
    var outFacts: seq<Fact>
    /** A set queue: no node twice. */
    var workList: seq<nat>

    ghost predicate Valid()
      reads this
    {
      ValidICFG(icfg) && AnalysisFits(icfg, analysis) && Shaped(icfg, inFacts, outFacts) &&
      (forall k :: 0 <= k < |workList| ==> workList[k] < |icfg.nodes|) && NoDuplicates(workList)
    }

    constructor (icfg: ICFG, analysis: Analysis)
      requires ValidICFG(icfg) && AnalysisFits(icfg, analysis)
      ensures Valid() && this.icfg == icfg && this.analysis == analysis
      ensures forall n :: 0 <= n < |icfg.nodes| ==> inFacts[n] == NewInitialFact() && outFacts[n] == NewInitialFact()
      ensures workList == []
    {
      this.icfg := icfg;
      this.analysis := analysis;
      inFacts := seq(|icfg.nodes|, _ => NewInitialFact());
      outFacts := seq(|icfg.nodes|, _ => NewInitialFact());
      workList := [];
    }

    /** `solve`: initialize, then run the worklist for at most `fuel` steps. */
    method Solve(fuel: nat) returns (done: bool)
      requires Valid()
      modifies this
      ensures Valid()
      ensures done <==> workList == []
      ensures done ==> forall n: nat :: n < |icfg.nodes| ==> Stable(icfg, analysis, inFacts, outFacts, n)
    {
      Initialize();
      done := DoSolve(fuel);
    }

    /** `initialize`: entry nodes get the boundary fact as IN and OUT, every other node the empty fact. */
    method Initialize()
      requires Valid()
      modifies this
      ensures Valid() && workList == old(workList)
      ensures forall n :: 0 <= n < |icfg.nodes| ==>
        outFacts[n] == inFacts[n] &&
        (if n in icfg.entryNodes then IsBoundaryFact(inFacts[n], Params(icfg, icfg.nodes[n].owner))
         else inFacts[n] == NewInitialFact())
    {
      var ins, outs := [], [];
      for n := 0 to |icfg.nodes|
        invariant |ins| == n && |outs| == n
        invariant workList == old(workList) && inFacts == old(inFacts) && outFacts == old(outFacts)
        invariant forall k :: 0 <= k < n ==>
          outs[k] == ins[k] &&
          (if k in icfg.entryNodes then IsBoundaryFact(ins[k], Params(icfg, icfg.nodes[k].owner))
           else ins[k] == NewInitialFact())
      {
        if n in icfg.entryNodes {
          var boundary := NewBoundaryFact(Params(icfg, icfg.nodes[n].owner));
          ins, outs := ins + [boundary], outs + [boundary];
        } else {
          ins, outs := ins + [NewInitialFact()], outs + [NewInitialFact()];
        }
      }
      inFacts, outFacts := ins, outs;
    }

    /**
     * `doSolve`: queue every node, then process nodes until the queue is
     * empty or the fuel runs out. Every node off the queue is stable, so
     * an emptied queue leaves a solution.
     */
    method DoSolve(fuel: nat) returns (done: bool)
      requires Valid()
      modifies this
      ensures Valid()
      ensures done <==> workList == []
      ensures forall n: nat :: n < |icfg.nodes| && n !in workList ==> Stable(icfg, analysis, inFacts, outFacts, n)
    {
      workList := [];
      for n := 0 to |icfg.nodes|
        invariant Valid() && |workList| == n
        invariant forall k :: 0 <= k < n ==> workList[k] == k
      {
        workList := workList + [n];
      }
      forall n: nat | n < |icfg.nodes| ensures n in workList {
        assert workList[n] == n;
      }
      var steps := fuel;
      while workList != [] && steps > 0
        invariant Valid()
        invariant forall n: nat :: n < |icfg.nodes| && n !in workList ==> Stable(icfg, analysis, inFacts, outFacts, n)
        decreases steps
      {
        Step();
        steps := steps - 1;
      }
      done := workList == [];
    }

    /** One iteration of the worklist loop, on the node at the head of the queue. */
    method Step()
      requires Valid() && workList != []
      requires forall n: nat :: n < |icfg.nodes| && n !in workList ==> Stable(icfg, analysis, inFacts, outFacts, n)
      modifies this
      ensures Valid()
      ensures var n := old(workList[0]);
        inFacts == old(inFacts)[n := MeetAll(icfg, old(outFacts), icfg.inEdges[n], old(inFacts)[n])] &&
        outFacts[n] == OwnResult(icfg, analysis, inFacts, old(outFacts), n) &&
        forall l :: 0 <= l < |icfg.nodes| && l != n ==>
          outFacts[l] == PushedOut(icfg, analysis, inFacts, outFacts[n], old(outFacts), n, l)
      ensures forall n: nat :: n < |icfg.nodes| && n !in workList ==> Stable(icfg, analysis, inFacts, outFacts, n)
    {
      var n := workList[0];
      ghost var ins0, outs0, wl0 := inFacts, outFacts, workList;
      workList := workList[1..];
      var fin := MeetInEdges(n);
      inFacts := inFacts[n := fin];
      var changed := TransferAt(n);
      if changed {
        AddAll(icfg.succs[n]);
      }
      forall m | m in wl0 && m != n ensures m in workList {
        assert m in wl0[1..];
      }
      StepKeepsStable(icfg, analysis, ins0, outs0, wl0, n, inFacts, outFacts, workList);
    }

    /** The loop over a node's in-edges: each edge's fact met into IN. */
    method MeetInEdges(n: nat) returns (fin: Fact)
      requires Valid() && n < |icfg.nodes|
      ensures fin == MeetAll(icfg, outFacts, icfg.inEdges[n], inFacts[n])
    {
      fin := inFacts[n];
      var edges := icfg.inEdges[n];
      for k := 0 to |edges|
        invariant fin == MeetAll(icfg, outFacts, edges[..k], inFacts[n])
      {
        var e := edges[k];
        var edgeOut := TransferEdge(icfg, e, outFacts[e.source]);
        var met := MeetInto(edgeOut, fin);
        FactExtensionality(met, MeetResult(edgeOut, fin));
        assert edges[..k + 1][..k] == edges[..k];
        fin := met;
      }
      assert edges[..|edges|] == edges;
    }

    /** `SetQueue.addAll`: appends the nodes not already queued. */
    method AddAll(ns: seq<nat>)
      requires Valid() && forall k :: 0 <= k < |ns| ==> ns[k] < |icfg.nodes|
      modifies this
      ensures Valid() && inFacts == old(inFacts) && outFacts == old(outFacts)
      ensures old(workList) <= workList
      ensures Elements(workList) == Elements(old(workList)) + Elements(ns)
    {
      for k := 0 to |ns|
        invariant Valid() && inFacts == old(inFacts) && outFacts == old(outFacts)
        invariant old(workList) <= workList
        invariant Elements(workList) == Elements(old(workList)) + Elements(ns[..k])
      {
        if ns[k] !in workList {
          ElementsOfConcat(workList, [ns[k]]);
          workList := workList + [ns[k]];
        }
        assert ns[..k + 1] == ns[..k] + [ns[k]];
        ElementsOfConcat(ns[..k], [ns[k]]);
      }
      assert ns[..|ns|] == ns;
    }

    /** `propagate`: queue the successors of `n`. */
    method Propagate(n: nat)
      requires Valid() && n < |icfg.nodes|
      modifies this
      ensures Valid() && inFacts == old(inFacts) && outFacts == old(outFacts)
      ensures old(workList) <= workList
      ensures Elements(workList) == Elements(old(workList)) + Elements(icfg.succs[n])
    {
      AddAll(icfg.succs[n]);
    }

    /** `transferNode`: a call node or any other node; reports whether the node's own OUT changed. */
    method TransferAt(n: nat) returns (changed: bool)
      requires Valid() && n < |icfg.nodes|
      modifies this
      ensures Valid() && inFacts == old(inFacts)
      ensures outFacts[n] == OwnResult(icfg, analysis, inFacts, old(outFacts), n)
      ensures forall l :: 0 <= l < |icfg.nodes| && l != n ==>
        outFacts[l] == PushedOut(icfg, analysis, inFacts, outFacts[n], old(outFacts), n, l)
      ensures changed <==> outFacts[n] != old(outFacts)[n]
      ensures old(workList) <= workList
      ensures Elements(workList) == Elements(old(workList)) + Propagated(icfg, old(outFacts), outFacts, n)
    {
      if IsCallNode(icfg, n) {
        changed := TransferCallNode(n);
      } else {
        changed := TransferNonCallNode(n);
      }
    }

    /** `transferCallNode`: OUT becomes a copy of IN. */
    method TransferCallNode(n: nat) returns (changed: bool)
      requires Valid() && n < |icfg.nodes| && IsCallNode(icfg, n)
      modifies this
      ensures Valid() && inFacts == old(inFacts) && workList == old(workList)
      ensures outFacts == old(outFacts)[n := inFacts[n]]
      ensures changed <==> outFacts[n] != old(outFacts)[n]
      ensures Propagated(icfg, old(outFacts), outFacts, n) == {}
    {
      changed := outFacts[n] != inFacts[n];
      ghost var before := outFacts;
      outFacts := outFacts[n := inFacts[n]];
      NothingPropagated(icfg, before, outFacts, n);
    }

    /** `transferNonCallNode`, for the analysis the solver runs. */
    method TransferNonCallNode(n: nat) returns (changed: bool)
      requires Valid() && n < |icfg.nodes| && !IsCallNode(icfg, n)
      modifies this
      ensures Valid() && inFacts == old(inFacts)
      ensures outFacts[n] == OwnResult(icfg, analysis, inFacts, old(outFacts), n)
      ensures forall l :: 0 <= l < |icfg.nodes| && l != n ==>
        outFacts[l] == PushedOut(icfg, analysis, inFacts, outFacts[n], old(outFacts), n, l)
      ensures changed <==> outFacts[n] != old(outFacts)[n]
      ensures old(workList) <= workList
      ensures Elements(workList) == Elements(old(workList)) + Propagated(icfg, old(outFacts), outFacts, n)
    {
      var s := icfg.nodes[n];
      if analysis.AliasAware? && IsLoadArray(s) {
        changed := TransferArrayLoad(n);
      } else if analysis.AliasAware? && s.kind.StoreArray? {
        changed := TransferArrayStore(n);
      } else if analysis.AliasAware? && IsLoadField(s) {
        changed := TransferFieldLoad(n);
      } else if analysis.AliasAware? && s.kind.StoreField? {
        changed := TransferFieldStore(n);
      } else {
        changed := TransferOwn(n);
      }
    }

    /** The intraprocedural `transferNode` on the node's own facts. */
    method TransferOwn(n: nat) returns (changed: bool)
      requires Valid() && n < |icfg.nodes|
      modifies this
      ensures Valid() && inFacts == old(inFacts) && workList == old(workList)
      ensures outFacts == old(outFacts)[n := TransferResult(icfg.nodes[n], inFacts[n], old(outFacts)[n])]
      ensures changed <==> outFacts[n] != old(outFacts)[n]
      ensures Propagated(icfg, old(outFacts), outFacts, n) == {}
    {
      var newOut;
      newOut, changed := TransferNode(icfg.nodes[n], inFacts[n], outFacts[n]);
      ghost var before := outFacts;
      outFacts := outFacts[n := newOut];
      NothingPropagated(icfg, before, outFacts, n);
    }

    /** An alias-aware field load: every variable of IN but the loaded one is copied into OUT. */
    method TransferFieldLoad(n: nat) returns (changed: bool)
      requires Valid() && n < |icfg.nodes| && IsLoadField(icfg.nodes[n])
      modifies this
      ensures Valid() && inFacts == old(inFacts) && workList == old(workList)
      ensures outFacts == old(outFacts)[n := CopyOthersResult(inFacts[n], old(outFacts)[n], LoadedVar(icfg, n))]
      ensures changed <==> outFacts[n] != old(outFacts)[n]
      ensures Propagated(icfg, old(outFacts), outFacts, n) == {}
    {
      var newOut;
      newOut, changed := CopyOthers(inFacts[n], outFacts[n], LoadedVar(icfg, n));
      ghost var before := outFacts;
      outFacts := outFacts[n := newOut];
      NothingPropagated(icfg, before, outFacts, n);
    }

    /** `transferLoadArray(store, load)` on the solver's OUT facts. */
    method TransferLoadArray(s: nat, l: nat) returns (changed: bool)
      requires Valid() && s < |icfg.nodes| && l < |icfg.nodes|
      requires icfg.nodes[s].kind.StoreArray? && IsLoadArray(icfg.nodes[l])
      modifies this
      ensures Valid() && inFacts == old(inFacts) && workList == old(workList)
      ensures outFacts == old(outFacts)[l := LoadArrayStep(icfg, old(outFacts)[s], s, l, old(outFacts)[l])]
      ensures changed <==> outFacts[l] != old(outFacts)[l]
    {
      var store, load := icfg.nodes[s].kind, icfg.nodes[l].kind;
      var storeOut, loadOut := outFacts[s], outFacts[l];
      var vi, vj := Get(storeOut, store.arrayIndex), Get(loadOut, load.rhs.index);
      changed := false;
      if !vi.Undef? && !vj.Undef? {
        if (vi.Const? && vj.Const? && vi == vj) || vi.NAC? || vj.NAC? {
          var y := load.lhs;
          var newVy := MeetValue(Get(loadOut, y), Get(storeOut, store.stored));
          UpdateReportsChange(loadOut, y, newVy);
          changed := Get(loadOut, y) != newVy;
          outFacts := outFacts[l := Update(loadOut, y, newVy)];
        }
      }
    }

    /** An alias-aware array load: copy IN but the loaded variable, then pull from each related store in index order. */
    method TransferArrayLoad(n: nat) returns (changed: bool)
      requires Valid() && analysis.AliasAware? && n < |icfg.nodes| && IsLoadArray(icfg.nodes[n])
      modifies this
      ensures Valid() && inFacts == old(inFacts) && workList == old(workList)
      ensures outFacts == old(outFacts)[n := OwnResult(icfg, analysis, inFacts, old(outFacts), n)]
      ensures changed <==> outFacts[n] != old(outFacts)[n]
      ensures Propagated(icfg, old(outFacts), outFacts, n) == {}
    {
      var copied, copyChanged := CopyOthers(inFacts[n], outFacts[n], LoadedVar(icfg, n));
      changed := PullFromArrayStores(n, copied, copyChanged);
      NothingPropagated(icfg, old(outFacts), outFacts, n);
    }

    /** The loop of an array load over its related stores, from the copied fact `copied`. */
    method PullFromArrayStores(n: nat, copied: Fact, copyChanged: bool) returns (changed: bool)
      requires Valid() && analysis.AliasAware? && n < |icfg.nodes| && IsLoadArray(icfg.nodes[n])
      requires Get(copied, LoadedVar(icfg, n)) == Get(outFacts[n], LoadedVar(icfg, n))
      requires copyChanged <==> copied != outFacts[n]
      modifies this
      ensures Valid() && inFacts == old(inFacts) && workList == old(workList)
      ensures outFacts == old(outFacts)[n := PullUpTo(icfg, analysis.rel, old(outFacts), n, |icfg.nodes|, copied)]
      ensures changed <==> outFacts[n] != old(outFacts)[n]
    {
      var rel := analysis.rel;
      changed := copyChanged;
      outFacts := outFacts[n := copied];
      for s := 0 to |icfg.nodes|
        invariant Valid() && inFacts == old(inFacts) && workList == old(workList)
        invariant outFacts == old(outFacts)[n := PullUpTo(icfg, rel, old(outFacts), n, s, copied)]
        invariant changed <==> outFacts[n] != old(outFacts)[n]
      {
        if (n, s) in rel.arrayLoadToStores {
          ghost var prev := outFacts[n];
          var pulled := TransferLoadArray(s, n);
          PullReportsChange(icfg, rel, old(outFacts), n, s, copied, prev, outFacts[n], pulled, changed);
          changed := changed || pulled;
        }
      }
    }

    /** An alias-aware array store: the intraprocedural transfer, then `transferLoadArray` on each related load. */
    method TransferArrayStore(n: nat) returns (changed: bool)
      requires Valid() && analysis.AliasAware? && n < |icfg.nodes| && icfg.nodes[n].kind.StoreArray?
      modifies this
      ensures Valid() && inFacts == old(inFacts)
      ensures outFacts[n] == OwnResult(icfg, analysis, inFacts, old(outFacts), n)
      ensures forall l :: 0 <= l < |icfg.nodes| && l != n ==>
        outFacts[l] == PushedOut(icfg, analysis, inFacts, outFacts[n], old(outFacts), n, l)
      ensures changed <==> outFacts[n] != old(outFacts)[n]
      ensures old(workList) <= workList
      ensures Elements(workList) == Elements(old(workList)) + Propagated(icfg, old(outFacts), outFacts, n)
    {
      var newOut;
      newOut, changed := TransferNode(icfg.nodes[n], inFacts[n], outFacts[n]);
      ghost var outs0 := outFacts;
      outFacts := outFacts[n := newOut];
      NothingPropagated(icfg, outs0, outFacts, n);
      ghost var outs1, wl1 := outFacts, workList;
      PushToArrayLoads(n);
      forall l | l in Propagated(icfg, outs1, outFacts, n) ensures l in Propagated(icfg, outs0, outFacts, n) {
      }
      forall l | l in Propagated(icfg, outs0, outFacts, n) ensures l in Propagated(icfg, outs1, outFacts, n) {
      }
    }

    /** The loop of an array store over its related loads. */
    method PushToArrayLoads(n: nat)
      requires Valid() && analysis.AliasAware? && n < |icfg.nodes| && icfg.nodes[n].kind.StoreArray?
      modifies this
      ensures Valid() && inFacts == old(inFacts) && outFacts[n] == old(outFacts)[n]
      ensures forall q :: 0 <= q < |icfg.nodes| && q != n ==>
        outFacts[q] == if (n, q) in analysis.rel.arrayStoreToLoads then LoadArrayStep(icfg, outFacts[n], n, q, old(outFacts)[q])
                       else old(outFacts)[q]
      ensures old(workList) <= workList
      ensures Elements(workList) == Elements(old(workList)) + Propagated(icfg, old(outFacts), outFacts, n)
    {
      var rel := analysis.rel;
      for l := 0 to |icfg.nodes|
        invariant Valid() && inFacts == old(inFacts) && outFacts[n] == old(outFacts)[n]
        invariant forall q :: 0 <= q < |icfg.nodes| && q != n ==>
          outFacts[q] == if q < l && (n, q) in rel.arrayStoreToLoads then LoadArrayStep(icfg, outFacts[n], n, q, old(outFacts)[q])
                         else old(outFacts)[q]
        invariant old(workList) <= workList
        invariant Elements(workList) == Elements(old(workList)) + Propagated(icfg, old(outFacts), outFacts, n)
      {
        if (n, l) in rel.arrayStoreToLoads {
          ghost var before := outFacts;
          PushToArrayLoad(n, l);
          PropagatedStep(icfg, old(outFacts), before, n, l, outFacts[l]);
        }
      }
    }

    /** `transferLoadArray(store, load)`, then `propagate(load)` when it reports a change. */
    method PushToArrayLoad(n: nat, l: nat)
      requires Valid() && n < |icfg.nodes| && l < |icfg.nodes|
      requires icfg.nodes[n].kind.StoreArray? && IsLoadArray(icfg.nodes[l])
      modifies this
      ensures Valid() && inFacts == old(inFacts)
      ensures outFacts == old(outFacts)[l := LoadArrayStep(icfg, old(outFacts)[n], n, l, old(outFacts)[l])]
      ensures old(workList) <= workList
      ensures Elements(workList) ==
        Elements(old(workList)) + (if outFacts[l] != old(outFacts)[l] then Elements(icfg.succs[l]) else {})
    {
      var pushed := TransferLoadArray(n, l);
      if pushed {
        Propagate(l);
      }
    }

    /** An alias-aware field store: push IN's value of the stored variable into each related load, then the intraprocedural transfer. */
    method TransferFieldStore(n: nat) returns (changed: bool)
      requires Valid() && analysis.AliasAware? && n < |icfg.nodes| && icfg.nodes[n].kind.StoreField?
      modifies this
      ensures Valid() && inFacts == old(inFacts)
      ensures outFacts[n] == OwnResult(icfg, analysis, inFacts, old(outFacts), n)
      ensures forall l :: 0 <= l < |icfg.nodes| && l != n ==>
        outFacts[l] == PushedOut(icfg, analysis, inFacts, outFacts[n], old(outFacts), n, l)
      ensures changed <==> outFacts[n] != old(outFacts)[n]
      ensures old(workList) <= workList
      ensures Elements(workList) == Elements(old(workList)) + Propagated(icfg, old(outFacts), outFacts, n)
    {
      var value := Get(inFacts[n], icfg.nodes[n].kind.rvalue);
      ghost var outs0 := outFacts;
      PushToFieldLoads(n, value);
      var newOut;
      newOut, changed := TransferNode(icfg.nodes[n], inFacts[n], outFacts[n]);
      ghost var before := outFacts;
      outFacts := outFacts[n := newOut];
      PropagatedIgnoresOwn(icfg, outs0, before, n, newOut);
    }

    /** The loop of a field store over its related loads. */
    method PushToFieldLoads(n: nat, value: Value)
      requires Valid() && analysis.AliasAware? && n < |icfg.nodes| && icfg.nodes[n].kind.StoreField?
      modifies this
      ensures Valid() && inFacts == old(inFacts) && outFacts[n] == old(outFacts)[n]
      ensures forall q :: 0 <= q < |icfg.nodes| && q != n ==>
        outFacts[q] == if (n, q) in analysis.rel.fieldStoreToLoads then FieldPush(icfg, q, old(outFacts)[q], value)
                       else old(outFacts)[q]
      ensures old(workList) <= workList
      ensures Elements(workList) == Elements(old(workList)) + Propagated(icfg, old(outFacts), outFacts, n)
    {
      var rel := analysis.rel;
      for l := 0 to |icfg.nodes|
        invariant Valid() && inFacts == old(inFacts) && outFacts[n] == old(outFacts)[n]
        invariant forall q :: 0 <= q < |icfg.nodes| && q != n ==>
          outFacts[q] == if q < l && (n, q) in rel.fieldStoreToLoads then FieldPush(icfg, q, old(outFacts)[q], value)
                         else old(outFacts)[q]
        invariant old(workList) <= workList
        invariant Elements(workList) == Elements(old(workList)) + Propagated(icfg, old(outFacts), outFacts, n)
      {
        if (n, l) in rel.fieldStoreToLoads {
          ghost var before := outFacts;
          PushToFieldLoad(l, value);
          PropagatedStep(icfg, old(outFacts), before, n, l, outFacts[l]);
        }
      }
    }

    /** A field store's push into one load: meet `value` into the loaded variable, and `propagate` the load if that changed it. */
    method PushToFieldLoad(l: nat, value: Value)
      requires Valid() && l < |icfg.nodes| && IsLoadField(icfg.nodes[l])
      modifies this
      ensures Valid() && inFacts == old(inFacts)
      ensures outFacts == old(outFacts)[l := FieldPush(icfg, l, old(outFacts)[l], value)]
      ensures old(workList) <= workList
      ensures Elements(workList) ==
        Elements(old(workList)) + (if outFacts[l] != old(outFacts)[l] then Elements(icfg.succs[l]) else {})
    {
      var y := LoadedVar(icfg, l);
      var loadOut := outFacts[l];
      var newV := MeetValue(Get(loadOut, y), value);
      UpdateReportsChange(loadOut, y, newV);
      var updated := Get(loadOut, y) != newV;
      outFacts := outFacts[l := Update(loadOut, y, newV)];
      if updated {
        Propagate(l);
      }
    }
  }

  // ---------------------------------------------------------------- proofs

  lemma FactBelowTransitive(f: Fact, g: Fact, h: Fact)
    requires FactBelow(f, g) && FactBelow(g, h)
    ensures FactBelow(f, h)
  {
    forall v ensures Below(Get(f, v), Get(h, v)) {
      BelowPartialOrder(Get(f, v), Get(g, v), Get(h, v));
    }
  }

  /** Meeting the in-edges lowers IN below its old value and below every edge's fact. */
  lemma {:induction false} MeetAllLowers(g: ICFG, outs: seq<Fact>, edges: seq<ICFGEdge>, target: Fact)
    requires |outs| == |g.nodes| && forall e :: e in edges ==> ValidEdge(g, e)
    ensures FactBelow(MeetAll(g, outs, edges, target), target)
    ensures forall e :: e in edges ==> FactBelow(MeetAll(g, outs, edges, target), EdgeFact(g, e, outs[e.source]))
  {
    if edges != [] {
      var init, last := edges[..|edges| - 1], edges[|edges| - 1];
      assert edges == init + [last];
      assert last in edges;
      MeetAllLowers(g, outs, init, target);
      var prev := MeetAll(g, outs, init, target);
      var fact := EdgeFact(g, last, outs[last.source]);
      var met := MeetResult(fact, prev);
      MeetIntoLowers(fact, prev, met);
      FactBelowTransitive(met, prev, target);
      forall e | e in edges ensures FactBelow(met, EdgeFact(g, e, outs[e.source])) {
        if e != last {
          assert e in init;
          FactBelowTransitive(met, prev, EdgeFact(g, e, outs[e.source]));
        }
      }
    }
  }

  lemma NothingPropagated(g: ICFG, before: seq<Fact>, after: seq<Fact>, n: nat)
    requires |g.succs| == |g.nodes| && |before| == |g.nodes| && |after| == |g.nodes|
    requires forall l :: 0 <= l < |g.nodes| && l != n ==> after[l] == before[l]
    ensures Propagated(g, before, after, n) == {}
  {
  }

  lemma PropagatedStep(g: ICFG, before: seq<Fact>, after: seq<Fact>, n: nat, l: nat, x: Fact)
    requires |g.succs| == |g.nodes| && |before| == |g.nodes| && |after| == |g.nodes|
    requires l < |g.nodes| && l != n && after[l] == before[l]
    ensures Propagated(g, before, after[l := x], n) ==
      Propagated(g, before, after, n) + (if x != before[l] then Elements(g.succs[l]) else {})
  {
  }

  lemma PropagatedIgnoresOwn(g: ICFG, before: seq<Fact>, after: seq<Fact>, n: nat, x: Fact)
    requires |g.succs| == |g.nodes| && |before| == |g.nodes| && |after| == |g.nodes| && n < |g.nodes|
    ensures Propagated(g, before, after[n := x], n) == Propagated(g, before, after, n)
  {
  }

  /** A pull that reports a change leaves the load's OUT different from the one before its transfer. */
  lemma PullReportsChange(g: ICFG, rel: AliasRelations, outs: seq<Fact>, n: nat, s: nat, copied: Fact,
                          prev: Fact, next: Fact, pulled: bool, changed: bool)
    requires RelationsFit(g, rel) && |outs| == |g.nodes| && n < |g.nodes| && IsLoadArray(g.nodes[n]) && s < |g.nodes|
    requires (n, s) in rel.arrayLoadToStores
    requires Get(copied, LoadedVar(g, n)) == Get(outs[n], LoadedVar(g, n))
    requires prev == PullUpTo(g, rel, outs, n, s, copied)
    requires next == LoadArrayStep(g, outs[s], s, n, prev)
    requires pulled <==> next != prev
    requires changed <==> prev != outs[n]
    ensures next == PullUpTo(g, rel, outs, n, s + 1, copied)
    ensures changed || pulled <==> next != outs[n]
  {
    var y := LoadedVar(g, n);
    PullLowersByAliasedStores(g, rel, outs, n, s, copied);
    PullLowersByAliasedStores(g, rel, outs, n, s + 1, copied);
    if pulled && next == outs[n] {
      var store := g.nodes[s].kind;
      MeetIsGreatestLowerBound(Get(prev, y), Get(outs[s], store.stored), NAC);
      forall v ensures Get(next, v) == Get(prev, v) {
        if v == y {
          BelowPartialOrder(Get(next, v), Get(prev, v), Get(copied, v));
        }
      }
      FactExtensionality(next, prev);
    }
    if !changed && !pulled {
      assert next == outs[n];
    }
  }

  /** Copying IN but `y` leaves nothing to copy again when only `y` has changed since. */
  lemma CopyOthersStays(fin: Fact, fout: Fact, fout': Fact, y: Var)
    requires CopyOthersResult(fin, fout, y) == fout
    requires forall v :: v != y ==> Get(fout', v) == Get(fout, v)
    ensures CopyOthersResult(fin, fout', y) == fout'
  {
    forall v ensures Get(CopyOthersResult(fin, fout', y), v) == Get(fout', v) {
      if v != y {
        assert Get(CopyOthersResult(fin, fout, y), v) == Get(fout, v);
      }
    }
    FactExtensionality(CopyOthersResult(fin, fout', y), fout');
  }

  /** The new OUT of a pushed-into node differs from its old one only in the loaded variable, which it lowers. */
  lemma PushChangesOnlyLoaded(g: ICFG, a: Analysis, ins: seq<Fact>, own: Fact, outs: seq<Fact>, n: nat, l: nat)
    requires AnalysisFits(g, a) && Shaped(g, ins, outs) && n < |g.nodes| && l < |g.nodes|
    requires PushedOut(g, a, ins, own, outs, n, l) != outs[l]
    ensures g.nodes[l].kind.Assign? && (IsLoadField(g.nodes[l]) || IsLoadArray(g.nodes[l]))
    ensures forall v :: v != LoadedVar(g, l) ==> Get(PushedOut(g, a, ins, own, outs, n, l), v) == Get(outs[l], v)
    ensures Below(Get(PushedOut(g, a, ins, own, outs, n, l), LoadedVar(g, l)), Get(outs[l], LoadedVar(g, l)))
  {
    var y := LoadedVar(g, l);
    var s := g.nodes[n];
    if a.AliasAware? && s.kind.StoreField? && (n, l) in a.rel.fieldStoreToLoads {
      MeetIsGreatestLowerBound(Get(outs[l], y), Get(ins[n], s.kind.rvalue), NAC);
    } else {
      MeetIsGreatestLowerBound(Get(outs[l], y), Get(own, s.kind.stored), NAC);
    }
  }

  /** IN meets its in-edges: what a step keeps for the nodes that leave or stay off the queue. */
  lemma EdgesMetAfterStep(g: ICFG, a: Analysis, ins: seq<Fact>, outs: seq<Fact>, n: nat,
                          ins': seq<Fact>, outs': seq<Fact>, wl': set<nat>, m: nat)
    requires ValidICFG(g) && Shaped(g, ins, outs) && Shaped(g, ins', outs') && n < |g.nodes| && m < |g.nodes|
    requires ins' == ins[n := MeetAll(g, outs, g.inEdges[n], ins[n])]
    requires m != n ==> EdgesMet(g, ins, outs, m)
    requires Propagated(g, outs, outs', n) <= wl'
    requires outs'[n] != outs[n] ==> Elements(g.succs[n]) <= wl'
    requires m !in wl'
    ensures EdgesMet(g, ins', outs', m)
  {
    if m == n {
      MeetAllLowers(g, outs, g.inEdges[n], ins[n]);
    }
    forall e | e in g.inEdges[m] ensures FactBelow(ins'[m], EdgeFact(g, e, outs'[e.source])) {
      assert m in g.succs[e.source];
      if outs'[e.source] != outs[e.source] {
        assert false;
      }
    }
  }

  /** OUT stays a fixed point of the node's transfer. */
  lemma SettledAfterStep(g: ICFG, a: Analysis, ins: seq<Fact>, outs: seq<Fact>, n: nat,
                         ins': seq<Fact>, outs': seq<Fact>, m: nat)
    requires ValidICFG(g) && AnalysisFits(g, a) && Shaped(g, ins, outs) && Shaped(g, ins', outs')
    requires n < |g.nodes| && m < |g.nodes|
    requires forall k :: 0 <= k < |g.nodes| && k != n ==> ins'[k] == ins[k]
    requires outs'[n] == OwnResult(g, a, ins', outs, n)
    requires forall l :: 0 <= l < |g.nodes| && l != n ==> outs'[l] == PushedOut(g, a, ins', outs'[n], outs, n, l)
    requires m != n ==> Settled(g, a, ins, outs, m)
    ensures Settled(g, a, ins', outs', m)
  {
    var s := g.nodes[m];
    if m == n {
      if IsCallNode(g, m) {
      } else if a.AliasAware? && IsLoadArray(s) {
        var copied := CopyOthersResult(ins'[n], outs[n], LoadedVar(g, n));
        PullLowersByAliasedStores(g, a.rel, outs, n, |g.nodes|, copied);
        CopyOthersStays(ins'[n], copied, outs'[n], LoadedVar(g, n));
      } else if a.AliasAware? && IsLoadField(s) {
        CopyOthersStays(ins'[n], outs'[n], outs'[n], LoadedVar(g, n)) by {
          forall v ensures Get(CopyOthersResult(ins'[n], outs'[n], LoadedVar(g, n)), v) == Get(outs'[n], v) {
          }
          FactExtensionality(CopyOthersResult(ins'[n], outs'[n], LoadedVar(g, n)), outs'[n]);
        }
      } else {
        TransferIdempotent(s, ins'[n], outs[n]);
      }
    } else if outs'[m] != outs[m] {
      PushChangesOnlyLoaded(g, a, ins', outs'[n], outs, n, m);
      assert a.AliasAware?;
      CopyOthersStays(ins[m], outs[m], outs'[m], LoadedVar(g, m));
    }
  }

  /** Pushed values stay in the loads: loads only ever lower their loaded variable. */
  lemma FieldPushedAfterStep(g: ICFG, a: Analysis, ins: seq<Fact>, outs: seq<Fact>, n: nat,
                             ins': seq<Fact>, outs': seq<Fact>, m: nat)
    requires ValidICFG(g) && AnalysisFits(g, a) && Shaped(g, ins, outs) && Shaped(g, ins', outs')
    requires n < |g.nodes| && m < |g.nodes|
    requires forall k :: 0 <= k < |g.nodes| && k != n ==> ins'[k] == ins[k]
    requires outs'[n] == OwnResult(g, a, ins', outs, n)
    requires forall l :: 0 <= l < |g.nodes| && l != n ==> outs'[l] == PushedOut(g, a, ins', outs'[n], outs, n, l)
    requires m != n ==> FieldPushed(g, a, ins, outs, m)
    ensures FieldPushed(g, a, ins', outs', m)
  {
    if a.AliasAware? && g.nodes[m].kind.StoreField? {
      var value := Get(ins'[m], g.nodes[m].kind.rvalue);
      forall l: nat | l < |g.nodes| && (m, l) in a.rel.fieldStoreToLoads
        ensures Below(Get(outs'[l], LoadedVar(g, l)), value)
      {
        var y := LoadedVar(g, l);
        if m == n {
          MeetIsGreatestLowerBound(Get(outs[l], y), value, NAC);
        } else {
          assert Below(Get(outs'[l], y), Get(outs[l], y)) by {
            if l == n {
              assert outs'[n] == CopyOthersResult(ins'[n], outs[n], y);
            } else if outs'[l] != outs[l] {
              PushChangesOnlyLoaded(g, a, ins', outs'[n], outs, n, l);
            }
          }
          BelowPartialOrder(Get(outs'[l], y), Get(outs[l], y), value);
        }
      }
    }
  }

  /** A step keeps every node off the queue stable. */
  lemma StepKeepsStable(g: ICFG, a: Analysis, ins: seq<Fact>, outs: seq<Fact>, wl: seq<nat>, n: nat,
                        ins': seq<Fact>, outs': seq<Fact>, wl': seq<nat>)
    requires ValidICFG(g) && AnalysisFits(g, a) && Shaped(g, ins, outs) && Shaped(g, ins', outs') && n < |g.nodes|
    requires forall m: nat :: m < |g.nodes| && m !in wl ==> Stable(g, a, ins, outs, m)
    requires ins' == ins[n := MeetAll(g, outs, g.inEdges[n], ins[n])]
    requires outs'[n] == OwnResult(g, a, ins', outs, n)
    requires forall l :: 0 <= l < |g.nodes| && l != n ==> outs'[l] == PushedOut(g, a, ins', outs'[n], outs, n, l)
    requires forall m :: m in wl && m != n ==> m in wl'
    requires Propagated(g, outs, outs', n) <= Elements(wl')
    requires outs'[n] != outs[n] ==> Elements(g.succs[n]) <= Elements(wl')
    ensures forall m: nat :: m < |g.nodes| && m !in wl' ==> Stable(g, a, ins', outs', m)
  {
    forall m: nat | m < |g.nodes| && m !in wl' ensures Stable(g, a, ins', outs', m) {
      EdgesMetAfterStep(g, a, ins, outs, n, ins', outs', Elements(wl'), m);
      SettledAfterStep(g, a, ins, outs, n, ins', outs', m);
      FieldPushedAfterStep(g, a, ins, outs, n, ins', outs', m);
    }
  }
}
