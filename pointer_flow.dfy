/**
 * The state every pointer-analysis solver keeps: the pointer-flow graph
 * (PFG), the points-to set of each pointer and the worklist of pointers with
 * objects still to be added to their points-to sets. `addPFGEdge` and
 * `propagate` read the same in the context-insensitive, context-sensitive
 * and taint solvers, so they are modelled once here, generic in the kind of
 * pointer `P` and of object `O`.
 *
 * A worklist entry carries a snapshot of its objects: a later change to the
 * points-to set the entry was built from does not reach the entry.
 */
module PointerFlow {
  import opened Collections

  datatype FlowEdge<P> = FlowEdge(source: P, target: P)

  datatype Entry<P, O> = Entry(pointer: P, objs: set<O>)

  /** The points-to set of `p`; a pointer not yet in the map points to nothing. */
  function PointsToIn<P(==), O>(pt: map<P, set<O>>, p: P): set<O>
  {
    if p in pt then pt[p] else {}
  }

  /** The objects the worklist still carries for `p`. */
  function Pending<P(==), O>(wl: seq<Entry<P, O>>, p: P): set<O>
  {
    if wl == [] then {}
    else Pending(wl[..|wl| - 1], p) + (if wl[|wl| - 1].pointer == p then wl[|wl| - 1].objs else {})
  }

  /** The objects `p` points to or is still to be given by the worklist. */
  function Covered<P(==), O>(pt: map<P, set<O>>, wl: seq<Entry<P, O>>, p: P): set<O>
  {
    PointsToIn(pt, p) + Pending(wl, p)
  }

  lemma PendingAppend<P, O>(wl: seq<Entry<P, O>>, e: Entry<P, O>, p: P)
    ensures Pending(wl + [e], p) == Pending(wl, p) + (if e.pointer == p then e.objs else {})
  {
    assert (wl + [e])[..|wl|] == wl;
  }

  lemma {:induction false} PendingConcat<P, O>(a: seq<Entry<P, O>>, b: seq<Entry<P, O>>, p: P)
    ensures Pending(a + b, p) == Pending(a, p) + Pending(b, p)
    decreases |b|
  {
    if b == [] {
      assert a + b == a;
    } else {
      var init, last := b[..|b| - 1], b[|b| - 1];
      assert b == init + [last];
      assert a + b == (a + init) + [last];
      PendingConcat(a, init, p);
      PendingAppend(a + init, last, p);
      PendingAppend(init, last, p);
    }
  }

  /** Polling the head of the worklist takes exactly its objects out of what is pending. */
  lemma PendingPoll<P, O>(wl: seq<Entry<P, O>>, p: P)
    requires |wl| > 0
    ensures Pending(wl, p) == (if wl[0].pointer == p then wl[0].objs else {}) + Pending(wl[1..], p)
  {
    var head := [wl[0]];
    assert wl == head + wl[1..];
    PendingConcat(head, wl[1..], p);
    assert head[..0] == [];
  }

  /** Extending the worklist at its end keeps everything pending. */
  lemma PendingExtends<P, O>(a: seq<Entry<P, O>>, b: seq<Entry<P, O>>, p: P)
    requires |a| <= |b| && b[..|a|] == a
    ensures Pending(a, p) <= Pending(b, p)
  {
    assert b == a + b[|a|..];
    PendingConcat(a, b[|a|..], p);
  }

  /** Every object covered for a pointer in the first state is still covered in the second. */
  ghost predicate CoverGrows<P(!new), O>(pa: map<P, set<O>>, wa: seq<Entry<P, O>>, pb: map<P, set<O>>, wb: seq<Entry<P, O>>)
  {
    forall p :: Covered(pa, wa, p) <= Covered(pb, wb, p)
  }

  /** Points-to sets that only grow and a worklist extended at its end keep every object covered. */
  lemma CoveredGrows<P(!new), O>(pa: map<P, set<O>>, wa: seq<Entry<P, O>>, pb: map<P, set<O>>, wb: seq<Entry<P, O>>)
    requires forall p :: PointsToIn(pa, p) <= PointsToIn(pb, p)
    requires |wa| <= |wb| && wb[..|wa|] == wa
    ensures CoverGrows(pa, wa, pb, wb)
  {
    forall p ensures Covered(pa, wa, p) <= Covered(pb, wb, p) {
      PendingExtends(wa, wb, p);
    }
  }

  /** An entry's objects are pending for its pointer. */
  lemma {:induction false} PendingHas<P, O>(wl: seq<Entry<P, O>>, k: nat, p: P)
    requires k < |wl| && wl[k].pointer == p
    ensures wl[k].objs <= Pending(wl, p)
    decreases |wl|
  {
    if k < |wl| - 1 {
      assert wl[..|wl| - 1][k] == wl[k];
      PendingHas(wl[..|wl| - 1], k, p);
    }
  }

  /**
   * Every PFG edge has carried its source's objects to its target, or the
   * worklist still carries them for the target; objects in `extra` count as
   * delivered to `q` as well.
   */
  ghost predicate ConsistentWith<P, O>(edges: set<FlowEdge<P>>, pt: map<P, set<O>>, wl: seq<Entry<P, O>>,
                                       q: P, extra: set<O>)
  {
    forall e :: e in edges ==>
      PointsToIn(pt, e.source) <= Covered(pt, wl, e.target) + (if e.target == q then extra else {})
  }

  ghost predicate Consistent<P, O>(edges: set<FlowEdge<P>>, pt: map<P, set<O>>, wl: seq<Entry<P, O>>)
  {
    forall e :: e in edges ==> PointsToIn(pt, e.source) <= Covered(pt, wl, e.target)
  }

  /** Once the worklist is empty, the points-to set of every PFG edge's source is included in its target's. */
  lemma FixpointInclusion<P, O>(edges: set<FlowEdge<P>>, pt: map<P, set<O>>)
    requires Consistent(edges, pt, [])
    ensures forall e :: e in edges ==> PointsToIn(pt, e.source) <= PointsToIn(pt, e.target)
  {
    forall e | e in edges ensures PointsToIn(pt, e.source) <= PointsToIn(pt, e.target) {
      assert Covered(pt, [], e.target) == PointsToIn(pt, e.target);
    }
  }

  class FlowState<P(==), O(==)> {
    var edges: set<FlowEdge<P>>
    var pt: map<P, set<O>>
    var workList: seq<Entry<P, O>>

    constructor()
      ensures edges == {} && pt == map[] && workList == []
    {
      edges, pt, workList := {}, map[], [];
    }

    /** A fresh worklist and an empty PFG with no points-to sets. */
    method Clear()
      modifies this
      ensures edges == {} && pt == map[] && workList == []
    {
      edges, pt, workList := {}, map[], [];
    }

    function PointsTo(p: P): set<O>
      reads this
    {
      PointsToIn(pt, p)
    }

    /** `getSuccsOf(p)`. */
    function Succs(p: P): set<P>
      reads this
    {
      set e | e in edges && e.source == p :: e.target
    }

    /** A worklist that only grew at its end, over `before`. */
    ghost predicate Extends(before: seq<Entry<P, O>>)
      reads this
    {
      |before| <= |workList| && workList[..|before|] == before
    }

    /** `workList.addEntry(p, objs)`. */
    method AddEntry(p: P, objs: set<O>)
      modifies this
      ensures workList == old(workList) + [Entry(p, objs)]
      ensures edges == old(edges) && pt == old(pt)
      ensures old(Consistent(edges, pt, workList)) ==> Consistent(edges, pt, workList)
    {
      ghost var wl := workList;
      workList := workList + [Entry(p, objs)];
      forall q ensures Pending(wl, q) <= Pending(workList, q) {
        PendingAppend(wl, Entry(p, objs), q);
      }
    }

    /**
     * `addPFGEdge(source, target)`: a new edge hands the source's current
     * objects, if there are any, to the target through the worklist.
     */
    method AddPFGEdge(source: P, target: P)
      modifies this
      ensures edges == old(edges) + {FlowEdge(source, target)} && pt == old(pt)
      ensures workList ==
        if FlowEdge(source, target) !in old(edges) && old(PointsTo(source)) != {}
        then old(workList) + [Entry(target, old(PointsTo(source)))]
        else old(workList)
      ensures old(Consistent(edges, pt, workList)) ==> Consistent(edges, pt, workList)
    {
      ghost var wl := workList;
      ghost var consistent := Consistent(edges, pt, workList);
      var e := FlowEdge(source, target);
      if e !in edges {
        edges := edges + {e};
        var objs := PointsTo(source);
        if objs != {} {
          AddEntry(target, objs);
          PendingAppend(wl, Entry(target, objs), target);
        }
        if consistent {
          forall d | d in edges ensures PointsToIn(pt, d.source) <= Covered(pt, workList, d.target) {
            PendingExtends(wl, workList, d.target);
          }
        }
      }
    }

    /** `workList.pollEntry()`: its objects are no longer pending but still count for its pointer. */
    method PollEntry() returns (entry: Entry<P, O>)
      requires workList != []
      modifies this
      ensures entry == old(workList[0]) && workList == old(workList[1..])
      ensures edges == old(edges) && pt == old(pt)
      ensures old(Consistent(edges, pt, workList)) ==> ConsistentWith(edges, pt, workList, entry.pointer, entry.objs)
      ensures forall q :: Covered(old(pt), old(workList), q) <= Covered(pt, workList, q) + (if q == entry.pointer then entry.objs else {})
    {
      ghost var wl := workList;
      entry := workList[0];
      workList := workList[1..];
      forall q ensures Pending(wl, q) == (if wl[0].pointer == q then wl[0].objs else {}) + Pending(workList, q) {
        PendingPoll(wl, q);
      }
    }

    /**
     * `propagate(p, objs)`: adds `objs` to the points-to set of `p` and
     * returns the objects that were new there; when there are any, one
     * worklist entry carrying them goes to each PFG successor of `p`.
     */
    method Propagate(p: P, objs: set<O>) returns (delta: set<O>)
      modifies this
      ensures delta == objs - old(PointsTo(p))
      ensures pt == if delta == {} then old(pt) else old(pt)[p := old(PointsTo(p)) + objs]
      ensures edges == old(edges)
      ensures delta == {} ==> workList == old(workList)
      ensures Extends(old(workList))
      ensures forall k :: |old(workList)| <= k < |workList| ==> workList[k].objs == delta && workList[k].pointer in Succs(p)
      ensures delta != {} ==> forall s :: s in Succs(p) ==> exists k :: |old(workList)| <= k < |workList| && workList[k].pointer == s
      ensures forall k1, k2 :: |old(workList)| <= k1 < k2 < |workList| ==> workList[k1].pointer != workList[k2].pointer
      ensures old(ConsistentWith(edges, pt, workList, p, objs)) ==> Consistent(edges, pt, workList)
      ensures forall q :: Covered(old(pt), old(workList), q) + (if q == p then objs else {}) <= Covered(pt, workList, q)
    {
      ghost var pt0, wl0 := pt, workList;
      delta := AddObjects(p, objs);
      if delta != {} {
        var succs := ListOf(Succs(p));
        for j := 0 to |succs|
          invariant |workList| == |wl0| + j && workList[..|wl0|] == wl0
          invariant forall k :: |wl0| <= k < |workList| ==> workList[k] == Entry(succs[k - |wl0|], delta)
          invariant pt == pt0[p := PointsToIn(pt0, p) + objs] && edges == old(edges)
        {
          workList := workList + [Entry(succs[j], delta)];
        }
        forall s | s in Succs(p) ensures exists k :: |wl0| <= k < |workList| && workList[k].pointer == s {
          var i :| 0 <= i < |succs| && succs[i] == s;
          assert workList[|wl0| + i].pointer == s;
        }
      }
      PropagateKeeps(p, objs, pt0, wl0, delta);
    }

    /** The loop of `propagate` that adds each object of `objs` to the points-to set of `p`, collecting the new ones. */
    method AddObjects(p: P, objs: set<O>) returns (delta: set<O>)
      modifies this
      ensures delta == objs - old(PointsTo(p))
      ensures pt == if delta == {} then old(pt) else old(pt)[p := old(PointsTo(p)) + objs]
      ensures edges == old(edges) && workList == old(workList)
    {
      var xs := ListOf(objs);
      delta := {};
      ghost var mine := PointsTo(p);
      for k := 0 to |xs|
        invariant delta == Elements(xs[..k]) - mine
        invariant pt == if delta == {} then old(pt) else old(pt)[p := mine + Elements(xs[..k])]
        invariant PointsTo(p) == mine + Elements(xs[..k])
        invariant edges == old(edges) && workList == old(workList)
      {
        assert xs[..k + 1] == xs[..k] + [xs[k]];
        assert Elements(xs[..k + 1]) == Elements(xs[..k]) + {xs[k]};
        if xs[k] !in PointsTo(p) {
          if delta == {} {
            forall o | o in Elements(xs[..k]) ensures o in mine {
              assert o !in delta;
            }
          }
          assert PointsTo(p) + {xs[k]} == mine + Elements(xs[..k + 1]);
          pt := pt[p := PointsTo(p) + {xs[k]}];
          delta := delta + {xs[k]};
        } else {
          assert mine + Elements(xs[..k + 1]) == mine + Elements(xs[..k]);
        }
      }
      assert xs[..|xs|] == xs;
      assert Elements(xs) == objs;
    }

    /** What `propagate` keeps: consistency, and everything covered before plus `objs` at `p`. */
    lemma PropagateKeeps(p: P, objs: set<O>, pt0: map<P, set<O>>, wl0: seq<Entry<P, O>>, delta: set<O>)
      requires delta == objs - PointsToIn(pt0, p)
      requires pt == if delta == {} then pt0 else pt0[p := PointsToIn(pt0, p) + objs]
      requires Extends(wl0)
      requires delta != {} ==> forall s :: s in Succs(p) ==> exists k :: |wl0| <= k < |workList| && workList[k].pointer == s
      requires forall k :: |wl0| <= k < |workList| ==> workList[k].objs == delta
      ensures ConsistentWith(edges, pt0, wl0, p, objs) ==> Consistent(edges, pt, workList)
      ensures forall q :: Covered(pt0, wl0, q) + (if q == p then objs else {}) <= Covered(pt, workList, q)
    {
      forall q ensures PointsToIn(pt, q) == PointsToIn(pt0, q) + (if q == p then objs else {}) {
        if q == p && delta == {} {
          forall o | o in objs ensures o in PointsToIn(pt0, p) {
            assert o !in delta;
          }
        }
      }
      forall q ensures Covered(pt0, wl0, q) + (if q == p then objs else {}) <= Covered(pt, workList, q) {
        PendingExtends(wl0, workList, q);
      }
      if ConsistentWith(edges, pt0, wl0, p, objs) {
        forall e | e in edges ensures PointsToIn(pt, e.source) <= Covered(pt, workList, e.target) {
          assert Covered(pt0, wl0, e.target) + (if e.target == p then objs else {}) <= Covered(pt, workList, e.target);
          if e.source == p && delta != {} {
            assert e.target in Succs(p);
            var k :| |wl0| <= k < |workList| && workList[k].pointer == e.target;
            PendingHas(workList, k, e.target);
          }
        }
      }
    }

    /**
     * The nested loops of the solvers' main loop: for each item (a store or
     * load of the changed variable) and each new object, one PFG edge.
     */
    method AddEdgesForEach<S>(items: seq<S>, objs: seq<O>, source: (S, O) -> P, target: (S, O) -> P)
      modifies this
      ensures edges == old(edges) + (set s, o | s in items && o in objs :: FlowEdge(source(s, o), target(s, o)))
      ensures pt == old(pt) && Extends(old(workList))
      ensures old(Consistent(edges, pt, workList)) ==> Consistent(edges, pt, workList)
    {
      for i := 0 to |items|
        invariant edges == old(edges) + (set s, o | s in items[..i] && o in objs :: FlowEdge(source(s, o), target(s, o)))
        invariant pt == old(pt) && Extends(old(workList))
        invariant old(Consistent(edges, pt, workList)) ==> Consistent(edges, pt, workList)
      {
        ghost var wl := workList;
        AddEdgesFor(items[i], objs, source, target);
        assert workList[..|old(workList)|] == wl[..|old(workList)|];
        assert items[..i + 1] == items[..i] + [items[i]];
      }
      assert items[..|items|] == items;
    }

    /** The inner loop of `AddEdgesForEach`: one PFG edge per object for a single item. */
    method AddEdgesFor<S>(item: S, objs: seq<O>, source: (S, O) -> P, target: (S, O) -> P)
      modifies this
      ensures edges == old(edges) + (set o | o in objs :: FlowEdge(source(item, o), target(item, o)))
      ensures pt == old(pt) && Extends(old(workList))
      ensures old(Consistent(edges, pt, workList)) ==> Consistent(edges, pt, workList)
    {
      for j := 0 to |objs|
        invariant edges == old(edges) + (set o | o in objs[..j] :: FlowEdge(source(item, o), target(item, o)))
        invariant pt == old(pt) && Extends(old(workList))
        invariant old(Consistent(edges, pt, workList)) ==> Consistent(edges, pt, workList)
      {
        ghost var wl := workList;
        AddPFGEdge(source(item, objs[j]), target(item, objs[j]));
        assert workList[..|old(workList)|] == wl[..|old(workList)|];
        assert objs[..j + 1] == objs[..j] + [objs[j]];
      }
      assert objs[..|objs|] == objs;
    }
  }
}
