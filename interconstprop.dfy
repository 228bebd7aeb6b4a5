/**
 * Interprocedural constant propagation: the facts that flow along the four
 * kinds of edge of an interprocedural control-flow graph (ICFG), and the
 * alias indexing that relates field and array stores to the loads they may
 * reach.
 *
 * The node transfers that write into other nodes' OUT facts live with the
 * solver that owns those facts (module InterSolver).
 */
module InterConstantPropagation {
  import opened Wrappers
  import opened IR
  import opened Collections
  import opened ConstantPropagation
  import opened JavaInt

  // ---------------------------------------------------------------- the ICFG

  datatype ICFGEdgeKind =
    /** Intraprocedural flow. */
    | NormalEdge
    /** From a call site to the statement after it, inside the caller. */
    | CallToReturnEdge
    /** From a call site to the entry of `callee`. */
    | CallEdge(callee: JMethod)
    /** From a callee's exit back to the statement after `callSite`, with the callee's return variables. */
    | ReturnEdge(callSite: nat, returnVars: seq<Var>)

  datatype ICFGEdge = ICFGEdge(kind: ICFGEdgeKind, source: nat, target: nat)

  /**
   * An ICFG whose nodes are the statements `nodes[0..]`: the entry nodes of
   * the entry methods, each node's in-edges and successors, and each
   * method's parameters.
   */
  datatype ICFG = ICFG(
    nodes: seq<Stmt>,
    entryNodes: set<nat>,
    inEdges: seq<seq<ICFGEdge>>,
    succs: seq<seq<nat>>,
    params: map<JMethod, seq<Var>>)

  function Params(g: ICFG, m: JMethod): seq<Var>
  {
    if m in g.params then g.params[m] else []
  }

  /** `isCallSite`: the node is a call statement. */
  predicate IsCallNode(g: ICFG, n: nat)
    requires n < |g.nodes|
  {
    g.nodes[n].kind.Call?
  }

  /** The call a call-site node makes. */
  function InvokeAt(g: ICFG, n: nat): Invoke
    requires n < |g.nodes| && IsCallNode(g, n)
  {
    g.nodes[n].kind.invoke
  }

  /**
   * The arguments of a call edge's call site fit the callee's parameters when
   * the subsignatures agree; the call-edge transfer reads `params.get(i)` for
   * every argument index and would throw otherwise.
   */
  predicate BindsFit(g: ICFG, e: ICFGEdge)
    requires e.source < |g.nodes| && IsCallNode(g, e.source) && e.kind.CallEdge?
  {
    var call := InvokeAt(g, e.source);
    call.kind != Dynamic && call.ref.subsig == e.kind.callee.subsig ==>
      |call.args| <= |Params(g, e.kind.callee)|
  }

  /** What each kind of edge requires of the nodes it connects. */
  predicate ValidEdge(g: ICFG, e: ICFGEdge)
  {
    e.source < |g.nodes| && e.target < |g.nodes| &&
    match e.kind
    case NormalEdge => true
    case CallToReturnEdge => IsCallNode(g, e.source)
    case CallEdge(_) => IsCallNode(g, e.source) && BindsFit(g, e)
    case ReturnEdge(cs, _) => cs < |g.nodes| && IsCallNode(g, cs)
  }

  predicate ValidICFG(g: ICFG)
  {
    |g.inEdges| == |g.nodes| && |g.succs| == |g.nodes| &&
    (forall n :: n in g.entryNodes ==> n < |g.nodes|) &&
    (forall n: nat, k :: n < |g.nodes| && 0 <= k < |g.succs[n]| ==> g.succs[n][k] < |g.nodes|) &&
    (forall n: nat, e :: n < |g.nodes| && e in g.inEdges[n] ==>
       ValidEdge(g, e) && e.target == n && n in g.succs[e.source]) &&
    (forall m :: m in g.params ==> NoDuplicates(g.params[m]))
  }

  // ---------------------------------------------------------------- edge transfers

  /** A fact without `v`. */
  function Without(f: Fact, v: Var): (r: Fact)
    ensures forall x :: Get(r, x) == if x == v then Undef else Get(f, x)
  {
    map x | x in f && x != v :: f[x]
  }

  /**
   * The parameters bound by the first `k` arguments: each int-holding
   * parameter gets its argument's value at the call site.
   */
  function BindArgs(args: seq<Var>, params: seq<Var>, out: Fact, k: nat): Fact
    requires k <= |args| <= |params|
  {
    if k == 0 then NewInitialFact()
    else
      var bound := BindArgs(args, params, out, k - 1);
      if CanHoldInt(params[k - 1]) then Update(bound, params[k - 1], Get(out, args[k - 1])) else bound
  }

  /**
   * With distinct parameters, each int-holding parameter among the first `k`
   * holds its argument's value, and every other variable is UNDEF.
   */
  lemma {:induction false} BindArgsBinds(args: seq<Var>, params: seq<Var>, out: Fact, k: nat)
    requires k <= |args| <= |params| && NoDuplicates(params)
    ensures forall i :: 0 <= i < k ==>
      Get(BindArgs(args, params, out, k), params[i]) == if CanHoldInt(params[i]) then Get(out, args[i]) else Undef
    ensures forall v :: v !in params[..k] ==> Get(BindArgs(args, params, out, k), v) == Undef
  {
    if k > 0 {
      BindArgsBinds(args, params, out, k - 1);
      assert params[..k] == params[..k - 1] + [params[k - 1]];
      forall i | 0 <= i < k - 1 ensures params[i] != params[k - 1] {
      }
    }
  }

  /**
   * The value a call receives from its callee's return variables: the meet
   * of their values, folded from UNDEF in order.
   */
  function ReturnValue(vars: seq<Var>, out: Fact): Value
  {
    if vars == [] then Undef
    else MeetValue(Get(out, vars[|vars| - 1]), ReturnValue(vars[..|vars| - 1], out))
  }

  /**
   * The returned value is UNDEF when every return variable is UNDEF, the
   * constant `c` when every defined return variable holds `c`, and NAC
   * otherwise.
   */
  lemma {:induction false} ReturnValueMeaning(vars: seq<Var>, out: Fact, c: Int32)
    ensures ReturnValue(vars, out) == Undef <==> forall v :: v in vars ==> Get(out, v) == Undef
    ensures ReturnValue(vars, out) == Const(c) <==>
      (exists v :: v in vars && Get(out, v) == Const(c)) &&
      (forall v :: v in vars ==> Get(out, v) == Undef || Get(out, v) == Const(c))
  {
    if vars != [] {
      var init, last := vars[..|vars| - 1], vars[|vars| - 1];
      ReturnValueMeaning(init, out, c);
      assert vars == init + [last];
      assert forall v :: v in vars <==> v in init || v == last;
    }
  }

  /** The fact a call-to-return edge carries: the caller's fact without the call's result variable. */
  function CallToReturnFact(g: ICFG, e: ICFGEdge, out: Fact): Fact
    requires ValidEdge(g, e) && e.kind.CallToReturnEdge?
  {
    match DefinedVar(g.nodes[e.source])
    case None => out
    case Some(v) => Without(out, v)
  }

  /** The fact a call edge carries into the callee: its bound parameters, or nothing for dynamic calls and mismatched subsignatures. */
  function CallFact(g: ICFG, e: ICFGEdge, out: Fact): Fact
    requires ValidEdge(g, e) && e.kind.CallEdge?
  {
    var call := InvokeAt(g, e.source);
    if call.kind != Dynamic && call.ref.subsig == e.kind.callee.subsig then
      BindArgs(call.args, Params(g, e.kind.callee), out, |call.args|)
    else NewInitialFact()
  }

  /** The fact a return edge carries back: the call's int-holding result bound to the return value. */
  function ReturnFact(g: ICFG, e: ICFGEdge, out: Fact): Fact
    requires ValidEdge(g, e) && e.kind.ReturnEdge?
  {
    var result := InvokeAt(g, e.kind.callSite).result;
    if result.Some? && CanHoldInt(result.value) then
      Update(NewInitialFact(), result.value, ReturnValue(e.kind.returnVars, out))
    else NewInitialFact()
  }

  /** `transferEdge`: the fact an edge delivers, given its source's OUT fact. */
  function EdgeFact(g: ICFG, e: ICFGEdge, out: Fact): Fact
    requires ValidEdge(g, e)
  {
    match e.kind
    case NormalEdge => out
    case CallToReturnEdge => CallToReturnFact(g, e, out)
    case CallEdge(_) => CallFact(g, e, out)
    case ReturnEdge(_, _) => ReturnFact(g, e, out)
  }

  /** `transferCallEdge`: binds the arguments one at a time into a fresh fact. */
  method TransferCallEdge(g: ICFG, e: ICFGEdge, callSiteOut: Fact) returns (ret: Fact)
    requires ValidEdge(g, e) && e.kind.CallEdge?
    ensures ret == CallFact(g, e, callSiteOut)
  {
    var call := InvokeAt(g, e.source);
    ret := NewInitialFact();
    if call.kind != Dynamic && call.ref.subsig == e.kind.callee.subsig {
      var args, params := call.args, Params(g, e.kind.callee);
      for i := 0 to |args|
        invariant ret == BindArgs(args, params, callSiteOut, i)
      {
        var arg, param := args[i], params[i];
        if CanHoldInt(param) {
          var argValue := Get(callSiteOut, arg);
          ret := Update(ret, param, argValue);
        }
      }
    }
  }

  /** `transferReturnEdge`: folds the return variables' values with the meet, starting from UNDEF. */
  method TransferReturnEdge(g: ICFG, e: ICFGEdge, returnOut: Fact) returns (ret: Fact)
    requires ValidEdge(g, e) && e.kind.ReturnEdge?
    ensures ret == ReturnFact(g, e, returnOut)
  {
    var lhs := InvokeAt(g, e.kind.callSite).result;
    ret := NewInitialFact();
    if lhs.Some? && CanHoldInt(lhs.value) {
      var retValue := Undef;
      var vars := e.kind.returnVars;
      for k := 0 to |vars|
        invariant retValue == ReturnValue(vars[..k], returnOut)
      {
        assert vars[..k + 1][..k] == vars[..k];
        retValue := MeetValue(Get(returnOut, vars[k]), retValue);
      }
      assert vars[..|vars|] == vars;
      ret := Update(ret, lhs.value, retValue);
    }
  }

  /** `transferEdge`, dispatched on the edge kind. */
  method TransferEdge(g: ICFG, e: ICFGEdge, out: Fact) returns (r: Fact)
    requires ValidEdge(g, e)
    ensures r == EdgeFact(g, e, out)
  {
    match e.kind {
      case NormalEdge => r := out;
      case CallToReturnEdge =>
        r := CallToReturnFact(g, e, out);
      case CallEdge(_) => r := TransferCallEdge(g, e, out);
      case ReturnEdge(_, _) => r := TransferReturnEdge(g, e, out);
    }
  }

  /** A normal edge passes the fact on unchanged, and a call-to-return edge kills only the call's result. */
  lemma LocalEdgesKillOnlyTheResult(g: ICFG, e: ICFGEdge, out: Fact, v: Var)
    requires ValidEdge(g, e) && (e.kind.NormalEdge? || e.kind.CallToReturnEdge?)
    ensures e.kind.NormalEdge? ==> EdgeFact(g, e, out) == out
    ensures e.kind.CallToReturnEdge? ==>
      Get(EdgeFact(g, e, out), v) == if DefinedVar(g.nodes[e.source]) == Some(v) then Undef else Get(out, v)
  {
  }

  /**
   * A call edge into a callee with distinct parameters binds exactly the
   * int-holding parameters that receive arguments; a dynamic call or one
   * whose subsignature differs from the callee's binds nothing.
   */
  lemma CallEdgeBindsParameters(g: ICFG, e: ICFGEdge, out: Fact)
    requires ValidICFG(g) && ValidEdge(g, e) && e.kind.CallEdge?
    ensures var call, params := InvokeAt(g, e.source), Params(g, e.kind.callee);
      if call.kind != Dynamic && call.ref.subsig == e.kind.callee.subsig then
        (forall i :: 0 <= i < |call.args| ==> (Get(EdgeFact(g, e, out), params[i]) ==
                                                 if CanHoldInt(params[i]) then Get(out, call.args[i]) else Undef)) &&
        (forall v :: v !in params[..|call.args|] ==> Get(EdgeFact(g, e, out), v) == Undef)
      else EdgeFact(g, e, out) == map[]
  {
    var call, params := InvokeAt(g, e.source), Params(g, e.kind.callee);
    if call.kind != Dynamic && call.ref.subsig == e.kind.callee.subsig {
      assert NoDuplicates(params);
      BindArgsBinds(call.args, params, out, |call.args|);
    }
  }

  /** A return edge binds at most the call's result variable, and nothing when it has none or it cannot hold an int. */
  lemma ReturnEdgeBindsResult(g: ICFG, e: ICFGEdge, out: Fact, v: Var)
    requires ValidEdge(g, e) && e.kind.ReturnEdge?
    ensures var result := InvokeAt(g, e.kind.callSite).result;
      Get(EdgeFact(g, e, out), v) ==
        if result == Some(v) && CanHoldInt(v) then ReturnValue(e.kind.returnVars, out) else Undef
  {
  }

  // ---------------------------------------------------------------- alias indexing

  /** A points-to result: the objects each variable may point to. */
  type PointsTo = map<Var, set<Obj>>

  /** Field resolution, a framework call. */
  type FieldResolver = FieldRef -> JField

  predicate IsLoadField(s: Stmt)
  {
    s.kind.Assign? && s.kind.rhs.FieldAccess?
  }

  predicate IsLoadArray(s: Stmt)
  {
    s.kind.Assign? && s.kind.rhs.ArrayAccess?
  }

  /** The variable a statement accesses a field or an array element through, if any. */
  function AccessBase(s: Stmt): Option<Var>
  {
    match s.kind
    case StoreField(b, _, _) => b
    case StoreArray(b, _, _) => Some(b)
    case Assign(_, FieldAccess(b, _)) => b
    case Assign(_, ArrayAccess(b, _)) => Some(b)
    case _ => None
  }

  /** `v` has at least one field or array store or load. */
  predicate HasAccess(g: ICFG, v: Var)
  {
    exists k :: 0 <= k < |g.nodes| && AccessBase(g.nodes[k]) == Some(v)
  }

  /** The objects pointed to by both variables (both must be in the points-to result). */
  ghost predicate MayAlias(pts: PointsTo, u: Var, w: Var)
  {
    u in pts && w in pts && exists o :: o in pts[u] && o in pts[w]
  }

  /** A static field store of an int-holding value. */
  predicate IsStaticIntStore(g: ICFG, s: nat)
    requires s < |g.nodes|
  {
    var st := g.nodes[s].kind;
    st.StoreField? && st.storeBase.None? && CanHoldInt(st.rvalue)
  }

  /** A static field load into an int-holding variable. */
  predicate IsStaticIntLoad(g: ICFG, l: nat)
    requires l < |g.nodes|
  {
    IsLoadField(g.nodes[l]) && g.nodes[l].kind.rhs.fieldBase.None? && CanHoldInt(g.nodes[l].kind.lhs)
  }

  function StoredField(g: ICFG, resolve: FieldResolver, s: nat): JField
    requires s < |g.nodes| && g.nodes[s].kind.StoreField?
  {
    resolve(g.nodes[s].kind.storeField)
  }

  function LoadedField(g: ICFG, resolve: FieldResolver, l: nat): JField
    requires l < |g.nodes| && IsLoadField(g.nodes[l])
  {
    resolve(g.nodes[l].kind.rhs.field)
  }

  /** A static store of an int-holding value and a static load into an int-holding variable of the same field. */
  predicate StaticFieldPair(g: ICFG, resolve: FieldResolver, s: nat, l: nat)
    requires s < |g.nodes| && l < |g.nodes|
  {
    IsStaticIntStore(g, s) && IsStaticIntLoad(g, l) && StoredField(g, resolve, s) == LoadedField(g, resolve, l)
  }

  /** An instance store of an int-holding value and an instance load of the same field through bases in `storeBases` and `loadBases`. */
  predicate InstanceFieldPair(g: ICFG, resolve: FieldResolver, s: nat, l: nat,
                              storeBases: set<Var>, loadBases: set<Var>)
    requires s < |g.nodes| && l < |g.nodes|
  {
    var st, ld := g.nodes[s].kind, g.nodes[l].kind;
    st.StoreField? && st.storeBase.Some? && st.storeBase.value in storeBases && CanHoldInt(st.rvalue) &&
    IsLoadField(g.nodes[l]) && ld.rhs.fieldBase.Some? && ld.rhs.fieldBase.value in loadBases &&
    resolve(st.storeField) == resolve(ld.rhs.field)
  }

  /** An array store of an int-holding value and an array load through bases in `storeBases` and `loadBases`. */
  predicate ArrayPair(g: ICFG, s: nat, l: nat, storeBases: set<Var>, loadBases: set<Var>)
    requires s < |g.nodes| && l < |g.nodes|
  {
    var st, ld := g.nodes[s].kind, g.nodes[l].kind;
    st.StoreArray? && st.arrayBase in storeBases && CanHoldInt(st.stored) &&
    IsLoadArray(g.nodes[l]) && ld.rhs.arrayBase in loadBases
  }

  /** A field store may reach a field load: same static field, or same field through aliased bases. */
  ghost predicate FieldRelated(g: ICFG, pts: PointsTo, resolve: FieldResolver, s: nat, l: nat)
    requires s < |g.nodes| && l < |g.nodes|
  {
    StaticFieldPair(g, resolve, s, l) ||
    (exists u, w :: InstanceFieldPair(g, resolve, s, l, {u}, {w}) && MayAlias(pts, u, w))
  }

  /** An array store may reach an array load: their bases are aliased (indices are compared during solving). */
  ghost predicate ArrayRelated(g: ICFG, pts: PointsTo, s: nat, l: nat)
    requires s < |g.nodes| && l < |g.nodes|
  {
    exists u, w :: ArrayPair(g, s, l, {u}, {w}) && MayAlias(pts, u, w)
  }

  /** The three relations `initialize` builds, as sets of (key, value) pairs. */
  datatype AliasRelations = AliasRelations(
    fieldStoreToLoads: set<(nat, nat)>,
    arrayStoreToLoads: set<(nat, nat)>,
    arrayLoadToStores: set<(nat, nat)>)

  /** The values a multimap relates to `k`. */
  function RelatedTo(rel: set<(nat, nat)>, k: nat): set<nat>
  {
    set p | p in rel && p.0 == k :: p.1
  }

  /** The variables with a field or array access that point to `o`. */
  ghost function PointedBy(g: ICFG, pts: PointsTo, o: Obj): set<Var>
  {
    set v | v in pts && HasAccess(g, v) && o in pts[v]
  }

  function Lookup<K, V>(m: map<K, set<V>>, k: K): set<V>
  {
    if k in m then m[k] else {}
  }

  function StaticPairsOf(g: ICFG, resolve: FieldResolver, fields: set<JField>): set<(nat, nat)>
  {
    set s: nat, l: nat | s < |g.nodes| && l < |g.nodes| && StaticFieldPair(g, resolve, s, l) &&
      StoredField(g, resolve, s) in fields :: (s, l)
  }

  /** The instance field pairs through the aliases of some object in `objs`. */
  ghost function InstanceUnion(g: ICFG, resolve: FieldResolver, pointedBy: map<Obj, set<Var>>, objs: set<Obj>): set<(nat, nat)>
  {
    set s: nat, l: nat | s < |g.nodes| && l < |g.nodes| &&
      exists o :: o in objs && InstanceFieldPair(g, resolve, s, l, Lookup(pointedBy, o), Lookup(pointedBy, o)) :: (s, l)
  }

  /** The array pairs through the aliases of some object in `objs`. */
  ghost function ArrayUnion(g: ICFG, pointedBy: map<Obj, set<Var>>, objs: set<Obj>): set<(nat, nat)>
  {
    set s: nat, l: nat | s < |g.nodes| && l < |g.nodes| &&
      exists o :: o in objs && ArrayPair(g, s, l, Lookup(pointedBy, o), Lookup(pointedBy, o)) :: (s, l)
  }

  function InstancePairsOf(g: ICFG, resolve: FieldResolver, storeBases: set<Var>, loadBases: set<Var>): set<(nat, nat)>
  {
    set s: nat, l: nat | s < |g.nodes| && l < |g.nodes| &&
      InstanceFieldPair(g, resolve, s, l, storeBases, loadBases) :: (s, l)
  }

  function ArrayPairsOf(g: ICFG, storeBases: set<Var>, loadBases: set<Var>): set<(nat, nat)>
  {
    set s: nat, l: nat | s < |g.nodes| && l < |g.nodes| && ArrayPair(g, s, l, storeBases, loadBases) :: (s, l)
  }

  function Flip(rel: set<(nat, nat)>): set<(nat, nat)>
  {
    set p | p in rel :: (p.1, p.0)
  }

  /** The field pairs the static part and the alias part of `initialize` relate. */
  ghost function FieldPairs(g: ICFG, pts: PointsTo, resolve: FieldResolver): set<(nat, nat)>
  {
    set s: nat, l: nat | s < |g.nodes| && l < |g.nodes| && FieldRelated(g, pts, resolve, s, l) :: (s, l)
  }

  /** The pairs of a relation, flipped: `Flip` undone. */
  lemma FlipInverts(rel: set<(nat, nat)>, a: nat, b: nat)
    ensures (a, b) in Flip(rel) <==> (b, a) in rel
  {
    if (a, b) in Flip(rel) {
      var p :| p in rel && (p.1, p.0) == (a, b);
    }
  }

  lemma FlipUnion(a: set<(nat, nat)>, b: set<(nat, nat)>)
    ensures Flip(a + b) == Flip(a) + Flip(b)
  {
  }

  ghost function ArrayPairs(g: ICFG, pts: PointsTo): set<(nat, nat)>
  {
    set s: nat, l: nat | s < |g.nodes| && l < |g.nodes| && ArrayRelated(g, pts, s, l) :: (s, l)
  }

  /**
   * `initialize`: pairs every static int store with the static int loads of
   * the same field; inverts the points-to result into `pointedBy` over the
   * variables that access fields or arrays; then, for the aliases of each
   * object, pairs instance int stores with same-field loads and array int
   * stores with array loads (in both directions).
   */
  method ComputeRelations(g: ICFG, pts: PointsTo, resolve: FieldResolver) returns (rel: AliasRelations)
    ensures rel.fieldStoreToLoads == FieldPairs(g, pts, resolve)
    ensures rel.arrayStoreToLoads == ArrayPairs(g, pts)
    ensures rel.arrayLoadToStores == Flip(ArrayPairs(g, pts))
    ensures RelationsFit(g, rel)
  {
    var staticStores, staticLoads := StaticAccesses(g, resolve);
    var fieldRel: set<(nat, nat)> := {};
    var fields := staticStores.Keys;
    while fields != {}
      invariant fields <= staticStores.Keys
      invariant fieldRel == StaticPairsOf(g, resolve, staticStores.Keys - fields)
      decreases |fields|
    {
      var f :| f in fields;
      ghost var before := staticStores.Keys - fields;
      fieldRel := fieldRel + (set s, l | s in staticStores[f] && l in Lookup(staticLoads, f) :: (s, l));
      fields := fields - {f};
      assert staticStores.Keys - fields == before + {f};
      StaticPairsGrow(g, resolve, before, f, staticStores, staticLoads);
    }
    StaticPairsComplete(g, resolve, staticStores);
    var pointedBy := InvertPointsTo(g, pts);
    rel := CollectAliasPairs(g, pts, resolve, pointedBy, fieldRel);
    PairsFit(g, pts, resolve, rel);
  }

  /** The relations `initialize` builds only pair stores and loads of the matching kinds. */
  lemma PairsFit(g: ICFG, pts: PointsTo, resolve: FieldResolver, rel: AliasRelations)
    requires rel.fieldStoreToLoads == FieldPairs(g, pts, resolve)
    requires rel.arrayStoreToLoads == ArrayPairs(g, pts)
    requires rel.arrayLoadToStores == Flip(ArrayPairs(g, pts))
    ensures RelationsFit(g, rel)
  {
    forall p | p in rel.arrayLoadToStores
      ensures p.0 < |g.nodes| && p.1 < |g.nodes| && IsLoadArray(g.nodes[p.0]) && g.nodes[p.1].kind.StoreArray?
    {
      FlipInverts(ArrayPairs(g, pts), p.0, p.1);
    }
  }

  /** The static int stores of field `f` among the first `k` statements. */
  function StaticStoresBelow(g: ICFG, resolve: FieldResolver, f: JField, k: nat): set<nat>
    requires k <= |g.nodes|
  {
    set s: nat | s < k && IsStaticIntStore(g, s) && StoredField(g, resolve, s) == f
  }

  /** The static int loads of field `f` among the first `k` statements. */
  function StaticLoadsBelow(g: ICFG, resolve: FieldResolver, f: JField, k: nat): set<nat>
    requires k <= |g.nodes|
  {
    set l: nat | l < k && IsStaticIntLoad(g, l) && LoadedField(g, resolve, l) == f
  }

  /** The loop over the statements that indexes static int stores and loads by resolved field. */
  method StaticAccesses(g: ICFG, resolve: FieldResolver)
    returns (staticStores: map<JField, set<nat>>, staticLoads: map<JField, set<nat>>)
    ensures forall f :: Lookup(staticStores, f) == StaticStoresBelow(g, resolve, f, |g.nodes|)
    ensures forall f :: Lookup(staticLoads, f) == StaticLoadsBelow(g, resolve, f, |g.nodes|)
  {
    staticStores, staticLoads := map[], map[];
    for k := 0 to |g.nodes|
      invariant forall f :: Lookup(staticStores, f) == StaticStoresBelow(g, resolve, f, k)
      invariant forall f :: Lookup(staticLoads, f) == StaticLoadsBelow(g, resolve, f, k)
    {
      ghost var stores0, loads0 := staticStores, staticLoads;
      if IsStaticIntStore(g, k) {
        var f := StoredField(g, resolve, k);
        staticStores := staticStores[f := Lookup(staticStores, f) + {k}];
      }
      if IsStaticIntLoad(g, k) {
        var f := LoadedField(g, resolve, k);
        staticLoads := staticLoads[f := Lookup(staticLoads, f) + {k}];
      }
      forall f ensures Lookup(staticStores, f) == StaticStoresBelow(g, resolve, f, k + 1)
               ensures Lookup(staticLoads, f) == StaticLoadsBelow(g, resolve, f, k + 1)
      {
        assert StaticStoresBelow(g, resolve, f, k + 1) == StaticStoresBelow(g, resolve, f, k) +
          (if IsStaticIntStore(g, k) && StoredField(g, resolve, k) == f then {k} else {});
        assert StaticLoadsBelow(g, resolve, f, k + 1) == StaticLoadsBelow(g, resolve, f, k) +
          (if IsStaticIntLoad(g, k) && LoadedField(g, resolve, k) == f then {k} else {});
      }
    }
  }

  lemma StaticPairsGrow(g: ICFG, resolve: FieldResolver, before: set<JField>, f: JField,
                        staticStores: map<JField, set<nat>>, staticLoads: map<JField, set<nat>>)
    requires f in staticStores
    requires forall f :: Lookup(staticStores, f) == StaticStoresBelow(g, resolve, f, |g.nodes|)
    requires forall f :: Lookup(staticLoads, f) == StaticLoadsBelow(g, resolve, f, |g.nodes|)
    ensures StaticPairsOf(g, resolve, before + {f}) ==
      StaticPairsOf(g, resolve, before) + (set s, l | s in staticStores[f] && l in Lookup(staticLoads, f) :: (s, l))
  {
    assert staticStores[f] == Lookup(staticStores, f);
  }

  lemma StaticPairsComplete(g: ICFG, resolve: FieldResolver, staticStores: map<JField, set<nat>>)
    requires forall f :: Lookup(staticStores, f) == StaticStoresBelow(g, resolve, f, |g.nodes|)
    ensures forall s: nat, l: nat :: s < |g.nodes| && l < |g.nodes| && StaticFieldPair(g, resolve, s, l) ==>
      (s, l) in StaticPairsOf(g, resolve, staticStores.Keys)
  {
    forall s: nat, l: nat | s < |g.nodes| && l < |g.nodes| && StaticFieldPair(g, resolve, s, l)
      ensures (s, l) in StaticPairsOf(g, resolve, staticStores.Keys)
    {
      assert s in Lookup(staticStores, StoredField(g, resolve, s));
    }
  }

  /** The variables of `vars` with a field or array access that point to `o`. */
  ghost function PointedAmong(g: ICFG, pts: PointsTo, vars: set<Var>, o: Obj): set<Var>
  {
    set v | v in vars && v in pts && HasAccess(g, v) && o in pts[v]
  }

  /** The loop over the points-to result that builds `pointedBy`, keeping only variables with field or array accesses. */
  method InvertPointsTo(g: ICFG, pts: PointsTo) returns (pointedBy: map<Obj, set<Var>>)
    ensures forall o :: Lookup(pointedBy, o) == PointedBy(g, pts, o)
    ensures forall o :: o in pointedBy ==> pointedBy[o] != {}
  {
    pointedBy := map[];
    var vars := pts.Keys;
    while vars != {}
      invariant vars <= pts.Keys
      invariant forall o :: Lookup(pointedBy, o) == PointedAmong(g, pts, pts.Keys - vars, o)
      invariant forall o :: o in pointedBy ==> pointedBy[o] != {}
      decreases |vars|
    {
      var v :| v in vars;
      ghost var done := pts.Keys - vars;
      if HasAccess(g, v) {
        pointedBy := AddPointer(pointedBy, v, pts[v]);
      }
      vars := vars - {v};
      assert pts.Keys - vars == done + {v};
      PointedAmongGrows(g, pts, done, v);
    }
    assert pts.Keys - vars == pts.Keys;
  }

  /** `pointedBy` with `v` added to the set of every object in `objs`. */
  function AddPointer(pointedBy: map<Obj, set<Var>>, v: Var, objs: set<Obj>): (r: map<Obj, set<Var>>)
    ensures forall o :: Lookup(r, o) == Lookup(pointedBy, o) + (if o in objs then {v} else {})
    ensures forall o :: o in r ==> o in pointedBy || o in objs
  {
    map o | o in pointedBy.Keys + objs :: Lookup(pointedBy, o) + (if o in objs then {v} else {})
  }

  lemma PointedAmongGrows(g: ICFG, pts: PointsTo, done: set<Var>, v: Var)
    requires v in pts
    ensures forall o :: (PointedAmong(g, pts, done + {v}, o) ==
                         PointedAmong(g, pts, done, o) + (if HasAccess(g, v) && o in pts[v] then {v} else {}))
  {
  }

  /** The alias part of `initialize`: the pairs through shared objects, joined to the static pairs. */
  method CollectAliasPairs(g: ICFG, pts: PointsTo, resolve: FieldResolver,
                           pointedBy: map<Obj, set<Var>>, staticRel: set<(nat, nat)>)
    returns (rel: AliasRelations)
    requires forall o :: Lookup(pointedBy, o) == PointedBy(g, pts, o)
    requires forall o :: o in pointedBy ==> pointedBy[o] != {}
    requires forall s: nat, l: nat :: (s, l) in staticRel <==>
      s < |g.nodes| && l < |g.nodes| && StaticFieldPair(g, resolve, s, l)
    ensures rel.fieldStoreToLoads == FieldPairs(g, pts, resolve)
    ensures rel.arrayStoreToLoads == ArrayPairs(g, pts)
    ensures rel.arrayLoadToStores == Flip(ArrayPairs(g, pts))
  {
    var fieldUnion, arrayS2L, arrayL2S := UnionOverObjects(g, resolve, pointedBy);
    UnionsComplete(g, pts, resolve, pointedBy, staticRel);
    rel := AliasRelations(staticRel + fieldUnion, arrayS2L, arrayL2S);
  }

  /** The loop over the objects of `pointedBy`: the pairs through each object's aliases. */
  method UnionOverObjects(g: ICFG, resolve: FieldResolver, pointedBy: map<Obj, set<Var>>)
    returns (fieldUnion: set<(nat, nat)>, arrayS2L: set<(nat, nat)>, arrayL2S: set<(nat, nat)>)
    ensures fieldUnion == InstanceUnion(g, resolve, pointedBy, pointedBy.Keys)
    ensures arrayS2L == ArrayUnion(g, pointedBy, pointedBy.Keys)
    ensures arrayL2S == Flip(arrayS2L)
  {
    fieldUnion, arrayS2L, arrayL2S := {}, {}, {};
    var objs := pointedBy.Keys;
    ghost var done: set<Obj> := {};
    while objs != {}
      invariant objs <= pointedBy.Keys && done == pointedBy.Keys - objs
      invariant fieldUnion == InstanceUnion(g, resolve, pointedBy, done)
      invariant arrayS2L == ArrayUnion(g, pointedBy, done)
      invariant arrayL2S == Flip(arrayS2L)
      decreases |objs|
    {
      var o :| o in objs;
      var aliases := pointedBy[o];
      var fieldPairs, arrayPairs := PairsThrough(g, resolve, aliases);
      FlipUnion(arrayS2L, arrayPairs);
      UnionsGrow(g, resolve, pointedBy, done, o);
      fieldUnion := fieldUnion + fieldPairs;
      arrayS2L := arrayS2L + arrayPairs;
      arrayL2S := arrayL2S + Flip(arrayPairs);
      objs := objs - {o};
      done := done + {o};
    }
    assert done == pointedBy.Keys;
  }

  /** The inner loop over the aliases of one object. */
  method PairsThrough(g: ICFG, resolve: FieldResolver, aliases: set<Var>)
    returns (fieldPairs: set<(nat, nat)>, arrayPairs: set<(nat, nat)>)
    ensures fieldPairs == InstancePairsOf(g, resolve, aliases, aliases)
    ensures arrayPairs == ArrayPairsOf(g, aliases, aliases)
  {
    fieldPairs, arrayPairs := {}, {};
    var vs := aliases;
    while vs != {}
      invariant vs <= aliases
      invariant fieldPairs == InstancePairsOf(g, resolve, aliases - vs, aliases)
      invariant arrayPairs == ArrayPairsOf(g, aliases - vs, aliases)
      decreases |vs|
    {
      var v :| v in vs;
      ghost var seen := aliases - vs;
      fieldPairs := fieldPairs + InstancePairsOf(g, resolve, {v}, aliases);
      arrayPairs := arrayPairs + ArrayPairsOf(g, {v}, aliases);
      vs := vs - {v};
      assert aliases - vs == seen + {v};
      PairsSplit(g, resolve, seen, v, aliases);
    }
    assert aliases - vs == aliases;
  }

  lemma PairsSplit(g: ICFG, resolve: FieldResolver, seen: set<Var>, v: Var, aliases: set<Var>)
    ensures InstancePairsOf(g, resolve, seen + {v}, aliases) ==
      InstancePairsOf(g, resolve, seen, aliases) + InstancePairsOf(g, resolve, {v}, aliases)
    ensures ArrayPairsOf(g, seen + {v}, aliases) == ArrayPairsOf(g, seen, aliases) + ArrayPairsOf(g, {v}, aliases)
  {
  }

  lemma UnionsGrow(g: ICFG, resolve: FieldResolver, pointedBy: map<Obj, set<Var>>, done: set<Obj>, o: Obj)
    requires o in pointedBy
    ensures InstanceUnion(g, resolve, pointedBy, done + {o}) ==
      InstanceUnion(g, resolve, pointedBy, done) + InstancePairsOf(g, resolve, pointedBy[o], pointedBy[o])
    ensures ArrayUnion(g, pointedBy, done + {o}) ==
      ArrayUnion(g, pointedBy, done) + ArrayPairsOf(g, pointedBy[o], pointedBy[o])
  {
    assert Lookup(pointedBy, o) == pointedBy[o];
  }

  /** Sharing an object of `pointedBy` is exactly aliasing through variables with accesses. */
  lemma UnionsComplete(g: ICFG, pts: PointsTo, resolve: FieldResolver, pointedBy: map<Obj, set<Var>>,
                       staticRel: set<(nat, nat)>)
    requires forall o :: Lookup(pointedBy, o) == PointedBy(g, pts, o)
    requires forall o :: o in pointedBy ==> pointedBy[o] != {}
    requires forall s: nat, l: nat :: (s, l) in staticRel <==>
      s < |g.nodes| && l < |g.nodes| && StaticFieldPair(g, resolve, s, l)
    ensures staticRel + InstanceUnion(g, resolve, pointedBy, pointedBy.Keys) == FieldPairs(g, pts, resolve)
    ensures ArrayUnion(g, pointedBy, pointedBy.Keys) == ArrayPairs(g, pts)
  {
    var computed, spec := staticRel + InstanceUnion(g, resolve, pointedBy, pointedBy.Keys), FieldPairs(g, pts, resolve);
    forall p: (nat, nat) ensures p in computed <==> p in spec {
      var (s, l) := p;
      if s < |g.nodes| && l < |g.nodes| {
        InstanceSharedIsAlias(g, pts, resolve, pointedBy, s, l);
      }
    }
    assert computed == spec;
    forall p | p in ArrayUnion(g, pointedBy, pointedBy.Keys) ensures p in ArrayPairs(g, pts) {
      ArraySharedIsAlias(g, pts, pointedBy, p.0, p.1);
    }
    forall p | p in ArrayPairs(g, pts) ensures p in ArrayUnion(g, pointedBy, pointedBy.Keys) {
      ArraySharedIsAlias(g, pts, pointedBy, p.0, p.1);
    }
  }

  /** Two accessing variables share an object of `pointedBy` exactly when they may alias. */
  lemma SharedIsAlias(g: ICFG, pts: PointsTo, pointedBy: map<Obj, set<Var>>, s: nat, l: nat, u: Var, w: Var)
    requires forall o :: Lookup(pointedBy, o) == PointedBy(g, pts, o)
    requires forall o :: o in pointedBy ==> pointedBy[o] != {}
    requires s < |g.nodes| && l < |g.nodes|
    requires AccessBase(g.nodes[s]) == Some(u) && AccessBase(g.nodes[l]) == Some(w)
    ensures (exists o :: o in pointedBy.Keys && u in Lookup(pointedBy, o) && w in Lookup(pointedBy, o)) <==> MayAlias(pts, u, w)
  {
    assert HasAccess(g, u) && HasAccess(g, w);
    if MayAlias(pts, u, w) {
      var o :| o in pts[u] && o in pts[w];
      assert u in PointedBy(g, pts, o) && w in PointedBy(g, pts, o);
      assert o in pointedBy.Keys;
    }
    if exists o :: o in pointedBy.Keys && u in Lookup(pointedBy, o) && w in Lookup(pointedBy, o) {
      var o :| o in pointedBy.Keys && u in Lookup(pointedBy, o) && w in Lookup(pointedBy, o);
      assert u in PointedBy(g, pts, o) && w in PointedBy(g, pts, o);
    }
  }

  lemma InstanceSharedIsAlias(g: ICFG, pts: PointsTo, resolve: FieldResolver, pointedBy: map<Obj, set<Var>>, s: nat, l: nat)
    requires forall o :: Lookup(pointedBy, o) == PointedBy(g, pts, o)
    requires forall o :: o in pointedBy ==> pointedBy[o] != {}
    requires s < |g.nodes| && l < |g.nodes|
    ensures (s, l) in InstanceUnion(g, resolve, pointedBy, pointedBy.Keys) <==>
      exists u, w :: InstanceFieldPair(g, resolve, s, l, {u}, {w}) && MayAlias(pts, u, w)
  {
    var st, ld := g.nodes[s].kind, g.nodes[l].kind;
    if st.StoreField? && st.storeBase.Some? && IsLoadField(g.nodes[l]) && ld.rhs.fieldBase.Some? {
      var u, w := st.storeBase.value, ld.rhs.fieldBase.value;
      SharedIsAlias(g, pts, pointedBy, s, l, u, w);
      if (s, l) in InstanceUnion(g, resolve, pointedBy, pointedBy.Keys) {
        var o :| o in pointedBy.Keys && InstanceFieldPair(g, resolve, s, l, Lookup(pointedBy, o), Lookup(pointedBy, o));
        assert InstanceFieldPair(g, resolve, s, l, {u}, {w}) && MayAlias(pts, u, w);
      }
      if exists u', w' :: InstanceFieldPair(g, resolve, s, l, {u'}, {w'}) && MayAlias(pts, u', w') {
        var u', w' :| InstanceFieldPair(g, resolve, s, l, {u'}, {w'}) && MayAlias(pts, u', w');
        assert u' == u && w' == w;
        var o :| o in pointedBy.Keys && u in Lookup(pointedBy, o) && w in Lookup(pointedBy, o);
        assert InstanceFieldPair(g, resolve, s, l, Lookup(pointedBy, o), Lookup(pointedBy, o));
      }
    }
  }

  lemma ArraySharedIsAlias(g: ICFG, pts: PointsTo, pointedBy: map<Obj, set<Var>>, s: nat, l: nat)
    requires forall o :: Lookup(pointedBy, o) == PointedBy(g, pts, o)
    requires forall o :: o in pointedBy ==> pointedBy[o] != {}
    requires s < |g.nodes| && l < |g.nodes|
    ensures (s, l) in ArrayUnion(g, pointedBy, pointedBy.Keys) <==> ArrayRelated(g, pts, s, l)
  {
    var st, ld := g.nodes[s].kind, g.nodes[l].kind;
    if st.StoreArray? && IsLoadArray(g.nodes[l]) {
      var u, w := st.arrayBase, ld.rhs.arrayBase;
      SharedIsAlias(g, pts, pointedBy, s, l, u, w);
      if (s, l) in ArrayUnion(g, pointedBy, pointedBy.Keys) {
        var o :| o in pointedBy.Keys && ArrayPair(g, s, l, Lookup(pointedBy, o), Lookup(pointedBy, o));
        assert ArrayPair(g, s, l, {u}, {w}) && MayAlias(pts, u, w);
      }
      if ArrayRelated(g, pts, s, l) {
        var u', w' :| ArrayPair(g, s, l, {u'}, {w'}) && MayAlias(pts, u', w');
        assert u' == u && w' == w;
        var o :| o in pointedBy.Keys && u in Lookup(pointedBy, o) && w in Lookup(pointedBy, o);
        assert ArrayPair(g, s, l, Lookup(pointedBy, o), Lookup(pointedBy, o));
      }
    }
  }

  // ---------------------------------------------------------------- alias-aware transfers

  /** The relations pair stores and loads of the matching kinds, in range. */
  predicate RelationsFit(g: ICFG, rel: AliasRelations)
  {
    (forall p :: p in rel.fieldStoreToLoads ==>
       p.0 < |g.nodes| && p.1 < |g.nodes| && g.nodes[p.0].kind.StoreField? && IsLoadField(g.nodes[p.1])) &&
    (forall p :: p in rel.arrayStoreToLoads ==>
       p.0 < |g.nodes| && p.1 < |g.nodes| && g.nodes[p.0].kind.StoreArray? && IsLoadArray(g.nodes[p.1])) &&
    (forall p :: p in rel.arrayLoadToStores ==>
       p.0 < |g.nodes| && p.1 < |g.nodes| && IsLoadArray(g.nodes[p.0]) && g.nodes[p.1].kind.StoreArray?)
  }

  /** Two index values may denote the same array element: both defined, and equal constants or either NAC. */
  predicate IndicesMayAlias(vi: Value, vj: Value)
  {
    !vi.Undef? && !vj.Undef? && ((vi.Const? && vj.Const? && vi == vj) || vi.NAC? || vj.NAC?)
  }

  /** Indices may alias exactly when both are defined and they are not two different constants. */
  lemma IndicesMayAliasUnlessDistinct(vi: Value, vj: Value)
    ensures IndicesMayAlias(vi, vj) <==> vi != Undef && vj != Undef && !(vi.Const? && vj.Const? && vi.c != vj.c)
    ensures IndicesMayAlias(vi, vj) <==> IndicesMayAlias(vj, vi)
  {
  }

  /** The variable a field or array load defines. */
  function LoadedVar(g: ICFG, l: nat): Var
    requires l < |g.nodes| && g.nodes[l].kind.Assign?
  {
    g.nodes[l].kind.lhs
  }

  /**
   * `transferLoadArray(store, load)`: when the store's index (in the store's
   * OUT) and the load's index (in the load's OUT) may alias, the load's
   * variable gets the meet of its value and the stored value.
   */
  function LoadArrayStep(g: ICFG, storeOut: Fact, s: nat, l: nat, loadOut: Fact): Fact
    requires s < |g.nodes| && l < |g.nodes| && g.nodes[s].kind.StoreArray? && IsLoadArray(g.nodes[l])
  {
    var store, y := g.nodes[s].kind, LoadedVar(g, l);
    if IndicesMayAlias(Get(storeOut, store.arrayIndex), Get(loadOut, g.nodes[l].kind.rhs.index)) then
      Update(loadOut, y, MeetValue(Get(loadOut, y), Get(storeOut, store.stored)))
    else loadOut
  }

  /** A store field pushing `value` into a related load: the load's variable gets the meet of its value and `value`. */
  function FieldPush(g: ICFG, l: nat, loadOut: Fact, value: Value): Fact
    requires l < |g.nodes| && IsLoadField(g.nodes[l])
  {
    var y := LoadedVar(g, l);
    Update(loadOut, y, MeetValue(Get(loadOut, y), value))
  }

  /** The pulls of array load `l` from its related stores below `k`, in index order, starting from `acc`. */
  function PullUpTo(g: ICFG, rel: AliasRelations, outs: seq<Fact>, l: nat, k: nat, acc: Fact): Fact
    requires RelationsFit(g, rel) && |outs| == |g.nodes| && l < |g.nodes| && IsLoadArray(g.nodes[l]) && k <= |g.nodes|
  {
    if k == 0 then acc
    else
      var prev := PullUpTo(g, rel, outs, l, k - 1, acc);
      if (l, k - 1) in rel.arrayLoadToStores then LoadArrayStep(g, outs[k - 1], k - 1, l, prev) else prev
  }

  /**
   * Pulling changes only the load's variable, and only lowers it; when the
   * load's index is a different variable, the result lies below the value
   * of every related store whose index may alias the load's.
   */
  lemma {:induction false} PullLowersByAliasedStores(g: ICFG, rel: AliasRelations, outs: seq<Fact>, l: nat, k: nat, acc: Fact)
    requires RelationsFit(g, rel) && |outs| == |g.nodes| && l < |g.nodes| && IsLoadArray(g.nodes[l]) && k <= |g.nodes|
    ensures forall v :: v != LoadedVar(g, l) ==> Get(PullUpTo(g, rel, outs, l, k, acc), v) == Get(acc, v)
    ensures Below(Get(PullUpTo(g, rel, outs, l, k, acc), LoadedVar(g, l)), Get(acc, LoadedVar(g, l)))
    ensures g.nodes[l].kind.rhs.index != LoadedVar(g, l) ==>
      forall s: nat ::
        (s < k && (l, s) in rel.arrayLoadToStores &&
         IndicesMayAlias(Get(outs[s], g.nodes[s].kind.arrayIndex), Get(acc, g.nodes[l].kind.rhs.index))) ==>
        Below(Get(PullUpTo(g, rel, outs, l, k, acc), LoadedVar(g, l)), Get(outs[s], g.nodes[s].kind.stored))
  {
    if k > 0 {
      PullLowersByAliasedStores(g, rel, outs, l, k - 1, acc);
      var prev := PullUpTo(g, rel, outs, l, k - 1, acc);
      var y := LoadedVar(g, l);
      if (l, k - 1) in rel.arrayLoadToStores {
        var store := g.nodes[k - 1].kind;
        MeetIsGreatestLowerBound(Get(prev, y), Get(outs[k - 1], store.stored), NAC);
        BelowPartialOrder(MeetValue(Get(prev, y), Get(outs[k - 1], store.stored)), Get(prev, y), Get(acc, y));
        if g.nodes[l].kind.rhs.index != y {
          forall s: nat | s < k - 1 && (l, s) in rel.arrayLoadToStores &&
            IndicesMayAlias(Get(outs[s], g.nodes[s].kind.arrayIndex), Get(acc, g.nodes[l].kind.rhs.index))
            ensures Below(Get(PullUpTo(g, rel, outs, l, k, acc), y), Get(outs[s], g.nodes[s].kind.stored))
          {
            BelowPartialOrder(Get(PullUpTo(g, rel, outs, l, k, acc), y), Get(prev, y), Get(outs[s], g.nodes[s].kind.stored));
          }
        }
      }
    }
  }
}
