/**
 * Call-graph construction by class hierarchy analysis (CHA).
 *
 * A call site is resolved from its declared class and subsignature alone:
 * static calls to the declared method, special calls by dispatch from the
 * declared class, virtual and interface calls by dispatch from every subtype
 * of the declared class. The call graph is grown from the entry method by a
 * worklist of reachable methods.
 */
module CHABuilder {
  import opened Wrappers
  import opened IR
  import opened Collections

  /**
   * A class or interface: its superclass, whether it is an interface, the
   * subsignatures it declares (mapped to whether that declaration is
   * abstract), and its rank in a topological order of the subtype relation.
   */
  datatype ClassInfo = ClassInfo(
    superClass: Option<ClassName>,
    isInterface: bool,
    declared: map<Subsignature, bool>,
    rank: nat)

  /** The class hierarchy: the classes and the direct subclass, subinterface and implementor relations. */
  datatype Hierarchy = Hierarchy(
    classes: map<ClassName, ClassInfo>,
    subclasses: map<ClassName, seq<ClassName>>,
    subinterfaces: map<ClassName, seq<ClassName>>,
    implementors: map<ClassName, seq<ClassName>>,
    maxRank: nat)

  function Lookup(m: map<ClassName, seq<ClassName>>, c: ClassName): seq<ClassName>
  {
    if c in m then m[c] else []
  }

  /**
   * The direct subtypes the resolution walk enqueues: subinterfaces and then
   * implementors for an interface, subclasses for a class.
   */
  function Children(h: Hierarchy, c: ClassName): seq<ClassName>
    requires c in h.classes
  {
    if h.classes[c].isInterface then Lookup(h.subinterfaces, c) + Lookup(h.implementors, c)
    else Lookup(h.subclasses, c)
  }

  function Rank(h: Hierarchy, c: ClassName): nat
    requires c in h.classes
  {
    h.classes[c].rank
  }

  /**
   * Every class named is known; superclasses have a lower rank and direct
   * subtypes a higher one (the subtype relation is acyclic).
   */
  predicate ValidHierarchy(h: Hierarchy)
  {
    (forall c :: c in h.classes ==> h.classes[c].rank <= h.maxRank) &&
    (forall c :: c in h.classes && h.classes[c].superClass.Some? ==>
       h.classes[c].superClass.value in h.classes &&
       h.classes[h.classes[c].superClass.value].rank < h.classes[c].rank) &&
    (forall c, d :: c in h.classes && d in Children(h, c) ==>
       d in h.classes && h.classes[c].rank < h.classes[d].rank)
  }

  /** `c` declares a non-abstract method with subsignature `sig`. */
  predicate DeclaresConcrete(h: Hierarchy, c: ClassName, sig: Subsignature)
    requires c in h.classes
  {
    sig in h.classes[c].declared && !h.classes[c].declared[sig]
  }

  predicate IsAbstract(h: Hierarchy, m: JMethod)
  {
    m.declaringClass in h.classes && m.subsig in h.classes[m.declaringClass].declared &&
    h.classes[m.declaringClass].declared[m.subsig]
  }

  /**
   * `dispatch(c, sig)`: the non-abstract method with subsignature `sig`
   * declared by `c` or by the nearest superclass of `c` above it; `None`
   * for a missing class or when there is none.
   */
  function Dispatch(h: Hierarchy, c: Option<ClassName>, sig: Subsignature): (r: Option<JMethod>)
    requires ValidHierarchy(h) && (c.Some? ==> c.value in h.classes)
    ensures c.None? ==> r.None?
    ensures r.Some? ==> (r.value.subsig == sig && r.value.declaringClass in h.classes &&
                         DeclaresConcrete(h, r.value.declaringClass, sig) && !IsAbstract(h, r.value))
    decreases if c.Some? then Rank(h, c.value) + 1 else 0
  {
    match c
    case None => None
    case Some(cls) =>
      if DeclaresConcrete(h, cls, sig) then Some(JMethod(cls, sig))
      else Dispatch(h, h.classes[cls].superClass, sig)
  }

  /** `c` followed by its superclasses, nearest first. */
  function SuperChain(h: Hierarchy, c: ClassName): (chain: seq<ClassName>)
    requires ValidHierarchy(h) && c in h.classes
    ensures |chain| >= 1 && chain[0] == c
    ensures forall k :: 0 <= k < |chain| ==> chain[k] in h.classes
    decreases Rank(h, c)
  {
    match h.classes[c].superClass
    case None => [c]
    case Some(s) => [c] + SuperChain(h, s)
  }

  /** `k` is the first position on `chain` whose class declares a concrete `sig`. */
  predicate FirstConcreteAt(h: Hierarchy, chain: seq<ClassName>, sig: Subsignature, k: int)
    requires forall i :: 0 <= i < |chain| ==> chain[i] in h.classes
  {
    0 <= k < |chain| && DeclaresConcrete(h, chain[k], sig) &&
    forall j :: 0 <= j < k ==> !DeclaresConcrete(h, chain[j], sig)
  }

  /**
   * The method of the first class in `chain` that declares a concrete `sig`:
   * a plain linear search, the reference against which dispatch is checked.
   */
  function FirstConcreteIn(h: Hierarchy, chain: seq<ClassName>, sig: Subsignature): (r: Option<JMethod>)
    requires forall i :: 0 <= i < |chain| ==> chain[i] in h.classes
    ensures r.None? ==> forall k :: 0 <= k < |chain| ==> !DeclaresConcrete(h, chain[k], sig)
    ensures r.Some? ==> exists k :: FirstConcreteAt(h, chain, sig, k) && r.value == JMethod(chain[k], sig)
  {
    if chain == [] then None
    else if DeclaresConcrete(h, chain[0], sig) then
      assert FirstConcreteAt(h, chain, sig, 0);
      Some(JMethod(chain[0], sig))
    else
      var r := FirstConcreteIn(h, chain[1..], sig);
      assert forall k :: 1 <= k < |chain| ==> chain[k] == chain[1..][k - 1];
      assert r.Some? ==> exists k :: FirstConcreteAt(h, chain[1..], sig, k) && r.value == JMethod(chain[1..][k], sig);
      assert forall k :: FirstConcreteAt(h, chain[1..], sig, k) ==> FirstConcreteAt(h, chain, sig, k + 1);
      r
  }

  /**
   * Dispatch picks the first class on the superclass chain that declares a
   * concrete `sig`, and finds nothing exactly when no class on it does.
   */
  lemma {:induction false} DispatchIsFirstConcreteOnChain(h: Hierarchy, c: ClassName, sig: Subsignature)
    requires ValidHierarchy(h) && c in h.classes
    ensures Dispatch(h, Some(c), sig) == FirstConcreteIn(h, SuperChain(h, c), sig)
    decreases Rank(h, c)
  {
    var chain := SuperChain(h, c);
    if !DeclaresConcrete(h, c, sig) {
      match h.classes[c].superClass
      case None =>
      case Some(s) =>
        DispatchIsFirstConcreteOnChain(h, s, sig);
        assert chain[1..] == SuperChain(h, s);
    }
  }

  // ---------------------------------------------------------------- subtypes

  predicate AllKnown(h: Hierarchy, cs: seq<ClassName>)
  {
    forall d :: d in cs ==> d in h.classes
  }

  predicate AllAbove(h: Hierarchy, cs: seq<ClassName>, r: nat)
    requires AllKnown(h, cs)
  {
    forall d :: d in cs ==> r < Rank(h, d)
  }

  /** `c` and every class or interface below it (subclasses, subinterfaces, implementors). */
  function Descendants(h: Hierarchy, c: ClassName): set<ClassName>
    requires ValidHierarchy(h) && c in h.classes
    decreases 2 * (h.maxRank - Rank(h, c)) + 1, 0
  {
    {c} + DescendantsOfAll(h, Children(h, c), Rank(h, c))
  }

  function DescendantsOfAll(h: Hierarchy, cs: seq<ClassName>, r: nat): set<ClassName>
    requires ValidHierarchy(h) && AllKnown(h, cs) && AllAbove(h, cs, r)
    decreases 2 * (h.maxRank - r), |cs|
  {
    if cs == [] then {} else Descendants(h, cs[0]) + DescendantsOfAll(h, cs[1..], r)
  }

  /** The descendants of every class in a queue. */
  function QueueDescendants(h: Hierarchy, q: seq<ClassName>): set<ClassName>
    requires ValidHierarchy(h) && AllKnown(h, q)
  {
    if q == [] then {} else Descendants(h, q[0]) + QueueDescendants(h, q[1..])
  }

  /**
   * The number of downward paths starting at `c`: how many times a walk that
   * keeps no visited set polls some class when started at `c`.
   */
  function Weight(h: Hierarchy, c: ClassName): nat
    requires ValidHierarchy(h) && c in h.classes
    decreases 2 * (h.maxRank - Rank(h, c)) + 1, 0
  {
    1 + WeightOfAll(h, Children(h, c), Rank(h, c))
  }

  function WeightOfAll(h: Hierarchy, cs: seq<ClassName>, r: nat): nat
    requires ValidHierarchy(h) && AllKnown(h, cs) && AllAbove(h, cs, r)
    decreases 2 * (h.maxRank - r), |cs|
  {
    if cs == [] then 0 else Weight(h, cs[0]) + WeightOfAll(h, cs[1..], r)
  }

  function QueueWeight(h: Hierarchy, q: seq<ClassName>): nat
    requires ValidHierarchy(h) && AllKnown(h, q)
  {
    if q == [] then 0 else Weight(h, q[0]) + QueueWeight(h, q[1..])
  }

  lemma {:induction false} QueueAppend(h: Hierarchy, a: seq<ClassName>, b: seq<ClassName>)
    requires ValidHierarchy(h) && AllKnown(h, a) && AllKnown(h, b)
    ensures QueueDescendants(h, a + b) == QueueDescendants(h, a) + QueueDescendants(h, b)
    ensures QueueWeight(h, a + b) == QueueWeight(h, a) + QueueWeight(h, b)
  {
    if a == [] {
      assert a + b == b;
    } else {
      assert (a + b)[0] == a[0];
      assert (a + b)[1..] == a[1..] + b;
      QueueAppend(h, a[1..], b);
    }
  }

  lemma {:induction false} QueueOfAll(h: Hierarchy, cs: seq<ClassName>, r: nat)
    requires ValidHierarchy(h) && AllKnown(h, cs) && AllAbove(h, cs, r)
    ensures QueueDescendants(h, cs) == DescendantsOfAll(h, cs, r)
    ensures QueueWeight(h, cs) == WeightOfAll(h, cs, r)
  {
    if cs != [] {
      QueueOfAll(h, cs[1..], r);
    }
  }

  /** The methods that dispatch finds from a set of classes. */
  function Dispatched(h: Hierarchy, cs: set<ClassName>, sig: Subsignature): set<JMethod>
    requires ValidHierarchy(h)
  {
    set c | c in cs && c in h.classes && Dispatch(h, Some(c), sig).Some? :: Dispatch(h, Some(c), sig).value
  }

  lemma DispatchedUnion(h: Hierarchy, a: set<ClassName>, b: set<ClassName>, sig: Subsignature)
    requires ValidHierarchy(h)
    ensures Dispatched(h, a + b, sig) == Dispatched(h, a, sig) + Dispatched(h, b, sig)
  {
  }

  lemma DispatchedOne(h: Hierarchy, c: ClassName, sig: Subsignature)
    requires ValidHierarchy(h) && c in h.classes
    ensures Dispatched(h, {c}, sig) == if Dispatch(h, Some(c), sig).Some? then {Dispatch(h, Some(c), sig).value} else {}
  {
  }

  /** Polling the head of the walk's queue and enqueueing its direct subtypes. */
  lemma ResolveStep(h: Hierarchy, queue: seq<ClassName>, sig: Subsignature)
    requires ValidHierarchy(h) && AllKnown(h, queue) && |queue| > 0
    ensures AllKnown(h, queue[1..] + Children(h, queue[0]))
    ensures Dispatched(h, QueueDescendants(h, queue), sig) ==
      Dispatched(h, {queue[0]}, sig) + Dispatched(h, QueueDescendants(h, queue[1..] + Children(h, queue[0])), sig)
    ensures QueueWeight(h, queue) == 1 + QueueWeight(h, queue[1..] + Children(h, queue[0]))
  {
    var c, rest, children := queue[0], queue[1..], Children(h, queue[0]);
    assert AllKnown(h, children) && AllAbove(h, children, Rank(h, c));
    QueueAppend(h, rest, children);
    QueueOfAll(h, children, Rank(h, c));
    PollDescendants(h, queue);
    DispatchedUnion(h, {c}, QueueDescendants(h, rest + children), sig);
    PollWeight(h, queue);
  }

  lemma PollDescendants(h: Hierarchy, queue: seq<ClassName>)
    requires ValidHierarchy(h) && AllKnown(h, queue) && |queue| > 0
    requires AllKnown(h, Children(h, queue[0])) && AllAbove(h, Children(h, queue[0]), Rank(h, queue[0]))
    requires QueueDescendants(h, queue[1..] + Children(h, queue[0])) ==
      QueueDescendants(h, queue[1..]) + QueueDescendants(h, Children(h, queue[0]))
    requires QueueDescendants(h, Children(h, queue[0])) == DescendantsOfAll(h, Children(h, queue[0]), Rank(h, queue[0]))
    ensures QueueDescendants(h, queue) == {queue[0]} + QueueDescendants(h, queue[1..] + Children(h, queue[0]))
  {
    assert QueueDescendants(h, queue) == Descendants(h, queue[0]) + QueueDescendants(h, queue[1..]);
  }

  lemma PollWeight(h: Hierarchy, queue: seq<ClassName>)
    requires ValidHierarchy(h) && AllKnown(h, queue) && |queue| > 0
    requires AllKnown(h, Children(h, queue[0])) && AllAbove(h, Children(h, queue[0]), Rank(h, queue[0]))
    requires QueueWeight(h, queue[1..] + Children(h, queue[0])) ==
      QueueWeight(h, queue[1..]) + QueueWeight(h, Children(h, queue[0]))
    requires QueueWeight(h, Children(h, queue[0])) == WeightOfAll(h, Children(h, queue[0]), Rank(h, queue[0]))
    ensures QueueWeight(h, queue) == 1 + QueueWeight(h, queue[1..] + Children(h, queue[0]))
  {
    assert QueueWeight(h, queue) == Weight(h, queue[0]) + QueueWeight(h, queue[1..]);
  }

  /** What CHA resolves a call site to. */
  function CHATargets(h: Hierarchy, cs: Invoke): set<JMethod>
    requires ValidHierarchy(h) && cs.ref.declaringClass in h.classes
  {
    var c, sig := cs.ref.declaringClass, cs.ref.subsig;
    match cs.kind
    case Static => if sig in h.classes[c].declared then {JMethod(c, sig)} else {}
    case Special => if Dispatch(h, Some(c), sig).Some? then {Dispatch(h, Some(c), sig).value} else {}
    case Virtual => Dispatched(h, Descendants(h, c), sig)
    case Interface => Dispatched(h, Descendants(h, c), sig)
    case Dynamic => {}
  }

  /**
   * `resolve(callSite)`: static calls give the declared method, special calls
   * the dispatch from the declared class, virtual and interface calls the
   * non-abstract dispatch result of every class polled by a walk down the
   * subtype relation from the declared class (a class reachable along two
   * paths is polled twice).
   */
  method Resolve(h: Hierarchy, cs: Invoke) returns (methods: set<JMethod>)
    requires ValidHierarchy(h) && cs.ref.declaringClass in h.classes
    ensures methods == CHATargets(h, cs)
  {
    methods := {};
    var clazz, sig := cs.ref.declaringClass, cs.ref.subsig;
    match cs.kind {
      case Static =>
        if sig in h.classes[clazz].declared {
          methods := {JMethod(clazz, sig)};
        }
      case Special =>
        var m := Dispatch(h, Some(clazz), sig);
        if m.Some? {
          methods := {m.value};
        }
      case Dynamic =>
      case _ =>
        methods := ResolveBySubtypes(h, clazz, sig);
    }
  }

  /**
   * The virtual and interface case of `resolve`: a first-in first-out walk
   * down the subtype relation from `clazz`, without a visited set, that
   * collects the non-abstract dispatch result of every class it polls.
   */
  method ResolveBySubtypes(h: Hierarchy, clazz: ClassName, sig: Subsignature) returns (methods: set<JMethod>)
    requires ValidHierarchy(h) && clazz in h.classes
    ensures methods == Dispatched(h, Descendants(h, clazz), sig)
  {
    methods := {};
    var queue := [clazz];
    ghost var goal := Dispatched(h, Descendants(h, clazz), sig);
    assert QueueDescendants(h, queue) == Descendants(h, clazz);
    while |queue| > 0
      invariant AllKnown(h, queue)
      invariant methods + Dispatched(h, QueueDescendants(h, queue), sig) == goal
      decreases QueueWeight(h, queue)
    {
      methods, queue := PollClass(h, sig, methods, queue);
    }
  }

  /** The body of the walk: poll the head of the queue, keep its dispatch result and enqueue its direct subtypes. */
  method PollClass(h: Hierarchy, sig: Subsignature, methods: set<JMethod>, queue: seq<ClassName>)
    returns (methods': set<JMethod>, queue': seq<ClassName>)
    requires ValidHierarchy(h) && AllKnown(h, queue) && |queue| > 0
    ensures AllKnown(h, queue')
    ensures methods' + Dispatched(h, QueueDescendants(h, queue'), sig) ==
      methods + Dispatched(h, QueueDescendants(h, queue), sig)
    ensures QueueWeight(h, queue') < QueueWeight(h, queue)
  {
    var jclass := queue[0];
    var m := Dispatch(h, Some(jclass), sig);
    ResolveStep(h, queue, sig);
    DispatchedOne(h, jclass, sig);
    DispatchNeverAbstract(h, jclass, sig);
    methods' := methods;
    if m.Some? && !IsAbstract(h, m.value) {
      methods' := methods + {m.value};
    }
    queue' := queue[1..] + Children(h, jclass);
  }

  /** Dispatch never yields an abstract method, so the walk's abstractness check never filters. */
  lemma DispatchNeverAbstract(h: Hierarchy, c: ClassName, sig: Subsignature)
    requires ValidHierarchy(h) && c in h.classes
    ensures Dispatch(h, Some(c), sig).Some? ==> !IsAbstract(h, Dispatch(h, Some(c), sig).value)
  {
  }

  /**
   * A virtual or interface call reaches exactly the dispatch targets of the
   * declared class's subtypes: each subtype's non-null dispatch, and nothing
   * else.
   */
  lemma VirtualTargets(h: Hierarchy, cs: Invoke, m: JMethod)
    requires ValidHierarchy(h) && cs.ref.declaringClass in h.classes
    requires cs.kind == Virtual || cs.kind == Interface
    ensures m in CHATargets(h, cs) <==>
      exists d :: d in Descendants(h, cs.ref.declaringClass) && d in h.classes &&
        Dispatch(h, Some(d), cs.ref.subsig) == Some(m)
  {
  }

  // ---------------------------------------------------------------- call graph

  /** The program: the call sites in each method's body. */
  type Program = map<JMethod, seq<Invoke>>

  function CallSitesIn(p: Program, m: JMethod): seq<Invoke>
  {
    if m in p then p[m] else []
  }

  /** Every call site sits in the method it names as its container and names a known class. */
  predicate ValidProgram(h: Hierarchy, p: Program)
  {
    forall m, cs :: m in p && cs in p[m] ==> cs.container == m && cs.ref.declaringClass in h.classes
  }

  datatype CallEdge = CallEdge(kind: CallKind, callSite: Invoke, callee: JMethod)

  datatype CallGraph = CallGraph(entry: JMethod, reachable: set<JMethod>, edges: set<CallEdge>)

  /** The methods CHA makes callable from `m`'s call sites. */
  function Callees(h: Hierarchy, p: Program, m: JMethod): set<JMethod>
    requires ValidHierarchy(h) && ValidProgram(h, p)
  {
    TargetsOfSites(h, CallSitesIn(p, m))
  }

  /** The union of the CHA targets of some call sites. */
  function TargetsOfSites(h: Hierarchy, sites: seq<Invoke>): set<JMethod>
    requires ValidHierarchy(h) && forall cs :: cs in sites ==> cs.ref.declaringClass in h.classes
  {
    if sites == [] then {}
    else TargetsOfSites(h, sites[..|sites| - 1]) + CHATargets(h, sites[|sites| - 1])
  }

  /** A target of some call sites is a target of one of them. */
  lemma {:induction false} TargetsOfSitesMembers(h: Hierarchy, sites: seq<Invoke>, t: JMethod)
    requires ValidHierarchy(h) && forall cs :: cs in sites ==> cs.ref.declaringClass in h.classes
    requires t in TargetsOfSites(h, sites)
    ensures exists cs :: cs in sites && t in CHATargets(h, cs)
    decreases |sites|
  {
    var last := sites[|sites| - 1];
    if t !in CHATargets(h, last) {
      TargetsOfSitesMembers(h, sites[..|sites| - 1], t);
      var cs :| cs in sites[..|sites| - 1] && t in CHATargets(h, cs);
      assert cs in sites;
    }
  }

  /** An edge the call graph should hold: a call site of its container and one of its CHA targets. */
  predicate IsCHAEdge(h: Hierarchy, p: Program, e: CallEdge)
    requires ValidHierarchy(h) && ValidProgram(h, p)
  {
    e.callSite in CallSitesIn(p, e.callSite.container) &&
    e.callee in CHATargets(h, e.callSite) && e.kind == e.callSite.kind
  }

  /** The callee relation of the whole program, as a successor function. */
  ghost function CallsOf(h: Hierarchy, p: Program): JMethod -> set<JMethod>
    requires ValidHierarchy(h) && ValidProgram(h, p)
  {
    m => Callees(h, p, m)
  }

  /** `m` is reachable from `entry` through CHA-resolved calls. */
  ghost predicate CallReaches(h: Hierarchy, p: Program, entry: JMethod, m: JMethod)
    requires ValidHierarchy(h) && ValidProgram(h, p)
  {
    Reaches(CallsOf(h, p), entry, m)
  }

  /** Every method any call site can resolve to. */
  function DeclaredMethods(h: Hierarchy): set<JMethod>
  {
    set c, sig | c in h.classes && sig in h.classes[c].declared :: JMethod(c, sig)
  }

  lemma CalleesDeclared(h: Hierarchy, p: Program, m: JMethod)
    requires ValidHierarchy(h) && ValidProgram(h, p)
    ensures Callees(h, p, m) <= DeclaredMethods(h)
  {
    var sites := CallSitesIn(p, m);
    assert forall cs :: cs in sites ==> cs.ref.declaringClass in h.classes;
    forall t | t in Callees(h, p, m) ensures t in DeclaredMethods(h) {
      TargetsOfSitesMembers(h, sites, t);
      var cs :| cs in sites && t in CHATargets(h, cs);
      assert t.declaringClass in h.classes && t.subsig in h.classes[t.declaringClass].declared;
    }
  }

  lemma CallReachesStep(h: Hierarchy, p: Program, entry: JMethod, m: JMethod, t: JMethod)
    requires ValidHierarchy(h) && ValidProgram(h, p)
    requires CallReaches(h, p, entry, m) && t in Callees(h, p, m)
    ensures CallReaches(h, p, entry, t)
  {
    assert t in CallsOf(h, p)(m);
    ReachesStep(CallsOf(h, p), entry, m, t);
  }

  /** What the worklist loop keeps true between two polls. */
  ghost predicate BuildInvariant(h: Hierarchy, p: Program, entry: JMethod,
                                 reachable: set<JMethod>, worklist: seq<JMethod>, edges: set<CallEdge>)
    requires ValidHierarchy(h) && ValidProgram(h, p)
  {
    reachable <= DeclaredMethods(h) + {entry} &&
    (forall m :: m in worklist ==> m in DeclaredMethods(h) + {entry} && CallReaches(h, p, entry, m)) &&
    (forall m :: m in reachable ==> CallReaches(h, p, entry, m)) &&
    (entry in reachable || entry in worklist) &&
    (forall m :: m in reachable ==> Callees(h, p, m) <= reachable + Elements(worklist)) &&
    (forall e :: e in edges <==> e.callSite.container in reachable && IsCHAEdge(h, p, e))
  }

  /** One call edge from `callSite` to each of `callees`. */
  method AddEdges(callSite: Invoke, callees: seq<JMethod>, edges: set<CallEdge>) returns (edges': set<CallEdge>)
    ensures forall e :: e in edges' <==> (e in edges ||
      (e.callSite == callSite && e.callee in callees && e.kind == callSite.kind))
  {
    edges' := edges;
    for k := 0 to |callees|
      invariant forall e :: e in edges' <==> (e in edges ||
        (e.callSite == callSite && e.callee in callees[..k] && e.kind == callSite.kind))
    {
      edges' := edges' + {CallEdge(callSite.kind, callSite, callees[k])};
      assert callees[..k + 1] == callees[..k] + [callees[k]];
    }
    assert callees[..|callees|] == callees;
  }

  /**
   * The call-site loop for a newly reached method `m`: every call site is
   * resolved, its targets appended to the worklist and one edge added per target.
   */
  method ProcessCallSites(h: Hierarchy, p: Program, m: JMethod, worklist: seq<JMethod>, edges: set<CallEdge>)
    returns (worklist': seq<JMethod>, edges': set<CallEdge>)
    requires ValidHierarchy(h) && ValidProgram(h, p)
    ensures Elements(worklist') == Elements(worklist) + Callees(h, p, m)
    ensures |worklist'| >= |worklist| && worklist'[..|worklist|] == worklist
    ensures forall e :: e in edges' <==> (e in edges || (e.callSite.container == m && IsCHAEdge(h, p, e)))
  {
    var sites := CallSitesIn(p, m);
    assert forall cs :: cs in sites ==> cs.ref.declaringClass in h.classes && cs.container == m;
    worklist', edges' := worklist, edges;
    for j := 0 to |sites|
      invariant |worklist'| >= |worklist| && worklist'[..|worklist|] == worklist
      invariant Elements(worklist') == Elements(worklist) + TargetsOfSites(h, sites[..j])
      invariant forall e :: e in edges' <==> (e in edges ||
        (e.callSite in sites[..j] && e.callee in CHATargets(h, e.callSite) && e.kind == e.callSite.kind))
    {
      var callSite := sites[j];
      ghost var before := worklist';
      worklist', edges' := ResolveSite(h, callSite, worklist', edges');
      assert worklist'[..|worklist|] == before[..|worklist|];
      TargetsOfPrefix(h, sites, j);
    }
    assert sites[..|sites|] == sites;
  }

  /** Extending a prefix of the call sites by one site adds that site's targets. */
  lemma TargetsOfPrefix(h: Hierarchy, sites: seq<Invoke>, j: nat)
    requires ValidHierarchy(h) && forall cs :: cs in sites ==> cs.ref.declaringClass in h.classes
    requires j < |sites|
    ensures TargetsOfSites(h, sites[..j + 1]) == TargetsOfSites(h, sites[..j]) + CHATargets(h, sites[j])
    ensures forall c :: c in sites[..j + 1] <==> c in sites[..j] || c == sites[j]
  {
    assert sites[..j + 1] == sites[..j] + [sites[j]];
    assert sites[..j + 1][..j] == sites[..j];
  }

  /** The body of the call-site loop: resolve one call site, queue its targets and add its edges. */
  method ResolveSite(h: Hierarchy, callSite: Invoke, worklist: seq<JMethod>, edges: set<CallEdge>)
    returns (worklist': seq<JMethod>, edges': set<CallEdge>)
    requires ValidHierarchy(h) && callSite.ref.declaringClass in h.classes
    ensures Elements(worklist') == Elements(worklist) + CHATargets(h, callSite)
    ensures |worklist'| >= |worklist| && worklist'[..|worklist|] == worklist
    ensures forall e :: e in edges' <==> (e in edges ||
      (e.callSite == callSite && e.callee in CHATargets(h, callSite) && e.kind == callSite.kind))
  {
    var methods := Resolve(h, callSite);
    var callees := ListOf(methods);
    ElementsOfConcat(worklist, callees);
    assert Elements(callees) == methods;
    worklist' := worklist + callees;
    assert worklist'[..|worklist|] == worklist;
    edges' := AddEdges(callSite, callees, edges);
  }

  /**
   * `buildCallGraph(entry)`: polls methods off a first-in first-out worklist;
   * a method already in the call graph is skipped, otherwise it becomes
   * reachable and each of its call sites is resolved, the targets queued and
   * the edges added. The result's reachable methods are exactly those reached
   * from the entry through resolved calls, and its edges exactly the resolved
   * edges out of them.
   */
  method BuildCallGraph(h: Hierarchy, p: Program, entry: JMethod) returns (cg: CallGraph)
    requires ValidHierarchy(h) && ValidProgram(h, p)
    ensures cg.entry == entry
    ensures forall m :: m in cg.reachable <==> CallReaches(h, p, entry, m)
    ensures forall e :: e in cg.edges <==> e.callSite.container in cg.reachable && IsCHAEdge(h, p, e)
  {
    var reachable: set<JMethod> := {};
    var edges: set<CallEdge> := {};
    var worklist := [entry];
    BuildStarts(h, p, entry);
    ghost var universe := DeclaredMethods(h) + {entry};
    while |worklist| > 0
      invariant BuildInvariant(h, p, entry, reachable, worklist, edges)
      decreases |universe - reachable|, |worklist|
    {
      var current := worklist[0];
      if current in reachable {
        BuildSkips(h, p, entry, reachable, worklist, edges);
        worklist := worklist[1..];
      } else {
        var worklist', edges' := ProcessCallSites(h, p, current, worklist[1..], edges);
        BuildVisits(h, p, entry, reachable, worklist, edges, worklist', edges');
        assert current in universe;
        assert universe - (reachable + {current}) < universe - reachable;
        reachable := reachable + {current};
        worklist, edges := worklist', edges';
      }
    }
    BuildEnds(h, p, entry, reachable, edges);
    cg := CallGraph(entry, reachable, edges);
  }

  lemma BuildStarts(h: Hierarchy, p: Program, entry: JMethod)
    requires ValidHierarchy(h) && ValidProgram(h, p)
    ensures BuildInvariant(h, p, entry, {}, [entry], {})
  {
    ReachesEntry(CallsOf(h, p), entry);
  }

  lemma BuildSkips(h: Hierarchy, p: Program, entry: JMethod,
                   reachable: set<JMethod>, worklist: seq<JMethod>, edges: set<CallEdge>)
    requires ValidHierarchy(h) && ValidProgram(h, p)
    requires BuildInvariant(h, p, entry, reachable, worklist, edges)
    requires |worklist| > 0 && worklist[0] in reachable
    ensures BuildInvariant(h, p, entry, reachable, worklist[1..], edges)
  {
    assert worklist == [worklist[0]] + worklist[1..];
    assert Elements(worklist) == {worklist[0]} + Elements(worklist[1..]);
    forall m | m in worklist[1..] ensures m in worklist {
    }
  }

  lemma BuildVisits(h: Hierarchy, p: Program, entry: JMethod,
                    reachable: set<JMethod>, worklist: seq<JMethod>, edges: set<CallEdge>,
                    worklist': seq<JMethod>, edges': set<CallEdge>)
    requires ValidHierarchy(h) && ValidProgram(h, p)
    requires BuildInvariant(h, p, entry, reachable, worklist, edges)
    requires |worklist| > 0 && worklist[0] !in reachable
    requires Elements(worklist') == Elements(worklist[1..]) + Callees(h, p, worklist[0])
    requires forall e :: e in edges' <==> (e in edges || (e.callSite.container == worklist[0] && IsCHAEdge(h, p, e)))
    ensures BuildInvariant(h, p, entry, reachable + {worklist[0]}, worklist', edges')
  {
    var m := worklist[0];
    assert m in worklist;
    VisitQueues(h, p, entry, reachable, worklist, worklist');
    VisitCloses(h, p, entry, reachable, worklist, worklist');
    var reachable' := reachable + {m};
    assert reachable' <= DeclaredMethods(h) + {entry};
    assert forall n :: n in reachable' ==> CallReaches(h, p, entry, n);
    forall e ensures e in edges' <==> e.callSite.container in reachable' && IsCHAEdge(h, p, e) {
    }
  }

  /** The methods a visit queues are declared and reached, and the entry stays visited or queued. */
  lemma VisitQueues(h: Hierarchy, p: Program, entry: JMethod,
                    reachable: set<JMethod>, worklist: seq<JMethod>, worklist': seq<JMethod>)
    requires ValidHierarchy(h) && ValidProgram(h, p)
    requires forall m :: m in worklist ==> m in DeclaredMethods(h) + {entry} && CallReaches(h, p, entry, m)
    requires entry in reachable || entry in worklist
    requires |worklist| > 0
    requires Elements(worklist') == Elements(worklist[1..]) + Callees(h, p, worklist[0])
    ensures forall t :: t in worklist' ==> t in DeclaredMethods(h) + {entry} && CallReaches(h, p, entry, t)
    ensures entry in reachable + {worklist[0]} || entry in worklist'
  {
    var m := worklist[0];
    assert m in worklist;
    CalleesDeclared(h, p, m);
    forall t | t in worklist' ensures t in DeclaredMethods(h) + {entry} && CallReaches(h, p, entry, t) {
      QueuedFromTailOr(worklist, worklist', Callees(h, p, m), t);
      if t !in worklist {
        CallReachesStep(h, p, entry, m, t);
      }
    }
    if entry !in reachable + {m} {
      assert entry in worklist[1..];
      QueuedKept(worklist, worklist', Callees(h, p, m), entry);
    }
  }

  /** What a visit queues comes from the old queue or from the visited method's callees. */
  lemma QueuedFromTailOr<T>(worklist: seq<T>, worklist': seq<T>, added: set<T>, t: T)
    requires |worklist| > 0 && Elements(worklist') == Elements(worklist[1..]) + added
    requires t in worklist'
    ensures t in worklist || t in added
  {
    assert t in Elements(worklist');
    if t in Elements(worklist[1..]) {
      var k :| 0 <= k < |worklist[1..]| && worklist[1..][k] == t;
      assert worklist[k + 1] == t;
    }
  }

  lemma QueuedKept<T>(worklist: seq<T>, worklist': seq<T>, added: set<T>, t: T)
    requires |worklist| > 0 && Elements(worklist') == Elements(worklist[1..]) + added
    requires t in worklist[1..]
    ensures t in worklist'
  {
    assert t in Elements(worklist[1..]);
    assert t in Elements(worklist');
  }

  /** After a visit the callees of every visited method are visited or queued. */
  lemma VisitCloses(h: Hierarchy, p: Program, entry: JMethod,
                    reachable: set<JMethod>, worklist: seq<JMethod>, worklist': seq<JMethod>)
    requires ValidHierarchy(h) && ValidProgram(h, p)
    requires forall m :: m in reachable ==> Callees(h, p, m) <= reachable + Elements(worklist)
    requires |worklist| > 0
    requires Elements(worklist') == Elements(worklist[1..]) + Callees(h, p, worklist[0])
    ensures forall n :: n in reachable + {worklist[0]} ==> Callees(h, p, n) <= reachable + {worklist[0]} + Elements(worklist')
  {
    var m := worklist[0];
    assert worklist == [m] + worklist[1..];
    assert Elements(worklist) == {m} + Elements(worklist[1..]);
    forall n | n in reachable + {m} ensures Callees(h, p, n) <= reachable + {m} + Elements(worklist') {
      if n != m {
        assert Callees(h, p, n) <= reachable + Elements(worklist);
      }
    }
  }

  lemma BuildEnds(h: Hierarchy, p: Program, entry: JMethod, reachable: set<JMethod>, edges: set<CallEdge>)
    requires ValidHierarchy(h) && ValidProgram(h, p)
    requires BuildInvariant(h, p, entry, reachable, [], edges)
    ensures forall m :: m in reachable <==> CallReaches(h, p, entry, m)
  {
    assert Elements<JMethod>([]) == {};
    forall z | z in reachable ensures CallsOf(h, p)(z) <= reachable {
      assert CallsOf(h, p)(z) == Callees(h, p, z);
    }
    forall m | CallReaches(h, p, entry, m) ensures m in reachable {
      ClosedContainsReached(CallsOf(h, p), entry, reachable, m);
    }
  }
}
