/**
 * Dead-code detection for one method: the statements that no path of
 * followed control-flow edges reaches from the entry (branches whose
 * condition is a known constant are pruned), and the assignments whose
 * variable is dead afterwards and whose right-hand side has no side effect.
 *
 * The results of constant propagation (an IN fact per node) and of live
 * variable analysis (a live-out set per node) are given.
 */
module DeadCodeDetection {
  import opened Wrappers
  import opened JavaInt
  import opened IR
  import opened Collections
  import opened ConstantPropagation

  datatype EdgeKind = IfTrue | IfFalse | SwitchCase | SwitchDefault | FallThrough | Goto | Entry | Return | Caught

  /** A control-flow edge; `caseValue` matters only for `SwitchCase` edges. */
  datatype Edge = Edge(kind: EdgeKind, target: nat, caseValue: int)

  /** A control-flow graph whose nodes are numbered by position, which is each statement's index; `outEdges[i]` leave node `i`. */
  datatype CFG = CFG(stmts: seq<Stmt>, entry: nat, outEdges: seq<seq<Edge>>)

  predicate ValidCFG(g: CFG)
  {
    |g.outEdges| == |g.stmts| && g.entry < |g.stmts| &&
    (forall i :: 0 <= i < |g.stmts| ==> g.stmts[i].index == i) &&
    forall i, e :: 0 <= i < |g.outEdges| && e in g.outEdges[i] ==> e.target < |g.stmts|
  }

  /** Whether an expression may have an effect beyond its value (allocation, an exception). */
  function HasNoSideEffect(e: Exp): bool
  {
    match e
    case NewExp(_) => false
    case CastExp(_, _) => false
    case FieldAccess(_, _) => false
    case ArrayAccess(_, _) => false
    case BinaryExp(Arithmetic(op), _, _) => op != Div && op != Rem
    case _ => true
  }

  /** The last `SwitchDefault` edge of a list, the one a scan over the edges remembers. */
  function LastDefault(edges: seq<Edge>): (r: Option<Edge>)
    ensures r.Some? ==> r.value in edges && r.value.kind == SwitchDefault
    ensures r.None? ==> forall e :: e in edges ==> e.kind != SwitchDefault
  {
    if edges == [] then None
    else if edges[|edges| - 1].kind == SwitchDefault then Some(edges[|edges| - 1])
    else LastDefault(edges[..|edges| - 1])
  }

  function AllTargets(edges: seq<Edge>): set<nat>
  {
    set e | e in edges :: e.target
  }

  /** The targets of a `switch` on `num`: matching cases, plain edges, and the default when no case matched. */
  function SwitchFollowed(edges: seq<Edge>, num: int): set<nat>
  {
    var matched := exists e :: e in edges && e.kind == SwitchCase && e.caseValue == num;
    (set e | e in edges && e.kind == SwitchCase && e.caseValue == num :: e.target) +
    (set e | e in edges && e.kind != SwitchCase && e.kind != SwitchDefault :: e.target) +
    (if !matched && LastDefault(edges).Some? then {LastDefault(edges).value.target} else {})
  }

  /**
   * The nodes the traversal enqueues after visiting node `i`: for an `if`
   * whose condition is the constant `c`, only the `IfTrue` (c != 0) or only
   * the `IfFalse` (c == 0) targets; for a `switch` on the constant `k`, the
   * cases labelled `k`, every edge that is neither a case nor the default, and
   * the default when no case matched; all targets otherwise.
   */
  function Followed(g: CFG, facts: seq<Fact>, i: nat): set<nat>
    requires ValidCFG(g) && |facts| == |g.stmts| && i < |g.stmts|
  {
    var edges := g.outEdges[i];
    match g.stmts[i].kind
    case If(cond) =>
      var value := Evaluate(cond, facts[i]);
      if value.Const? then
        var kind := if value.c != 0 then IfTrue else IfFalse;
        set e | e in edges && e.kind == kind :: e.target
      else AllTargets(edges)
    case Switch(v) =>
      var value := Evaluate(VarExp(v), facts[i]);
      if value.Const? then SwitchFollowed(edges, value.c) else AllTargets(edges)
    case _ => AllTargets(edges)
  }

  /** `p` is a path of followed edges from the entry. */
  ghost predicate IsPath(g: CFG, facts: seq<Fact>, p: seq<nat>)
    requires ValidCFG(g) && |facts| == |g.stmts|
  {
    |p| >= 1 && p[0] == g.entry &&
    (forall k :: 0 <= k < |p| ==> p[k] < |g.stmts|) &&
    forall k :: 0 <= k < |p| - 1 ==> p[k + 1] in Followed(g, facts, p[k])
  }

  /** Node `n` is reached from the entry along followed edges. */
  ghost predicate Reaches(g: CFG, facts: seq<Fact>, n: nat)
    requires ValidCFG(g) && |facts| == |g.stmts|
  {
    exists p :: IsPath(g, facts, p) && p[|p| - 1] == n
  }

  /** The numbers below `n`. */
  function NatsBelow(n: nat): (r: set<nat>)
    ensures forall i: nat :: i in r <==> i < n
  {
    if n == 0 then {} else NatsBelow(n - 1) + {n - 1}
  }

  function Nodes(g: CFG): set<nat>
  {
    NatsBelow(|g.stmts|)
  }

  /** Followed targets are nodes of the graph. */
  lemma FollowedInGraph(g: CFG, facts: seq<Fact>, i: nat)
    requires ValidCFG(g) && |facts| == |g.stmts| && i < |g.stmts|
    ensures forall t :: t in Followed(g, facts, i) ==> t < |g.stmts|
  {
    forall t | t in Followed(g, facts, i) ensures t < |g.stmts| {
      var e :| e in g.outEdges[i] && e.target == t;
    }
  }

  /** A followed edge out of a reached node leads to a reached node. */
  lemma ReachesStep(g: CFG, facts: seq<Fact>, n: nat, t: nat)
    requires ValidCFG(g) && |facts| == |g.stmts| && n < |g.stmts|
    requires Reaches(g, facts, n) && t in Followed(g, facts, n)
    ensures Reaches(g, facts, t)
  {
    var p :| IsPath(g, facts, p) && p[|p| - 1] == n;
    FollowedInGraph(g, facts, n);
    assert IsPath(g, facts, p + [t]);
  }

  ghost predicate Closed(g: CFG, facts: seq<Fact>, s: set<nat>)
    requires ValidCFG(g) && |facts| == |g.stmts|
  {
    forall i :: i in s && i < |g.stmts| ==> Followed(g, facts, i) <= s
  }

  /** A closed set that contains the entry contains every node a path reaches. */
  lemma {:induction false} ClosedContainsPath(g: CFG, facts: seq<Fact>, s: set<nat>, p: seq<nat>)
    requires ValidCFG(g) && |facts| == |g.stmts|
    requires g.entry in s && Closed(g, facts, s)
    requires IsPath(g, facts, p)
    ensures p[|p| - 1] in s
    decreases |p|
  {
    if |p| > 1 {
      var q := p[..|p| - 1];
      assert IsPath(g, facts, q);
      ClosedContainsPath(g, facts, s, q);
      assert p[|p| - 1] in Followed(g, facts, p[|p| - 2]);
    }
  }

  /**
   * The targets enqueued when visiting node `i`, computed edge by edge as the
   * traversal does: the `if` flag, and for a `switch` the `defaultflag`
   * cleared by a matching case and the remembered default edge.
   */
  method FollowedTargets(g: CFG, facts: seq<Fact>, i: nat) returns (targets: seq<nat>)
    requires ValidCFG(g) && |facts| == |g.stmts| && i < |g.stmts|
    ensures forall t :: t in targets <==> t in Followed(g, facts, i)
  {
    var edges := g.outEdges[i];
    match g.stmts[i].kind {
      case If(cond) =>
        var value := Evaluate(cond, facts[i]);
        if value.Const? {
          targets := IfTargets(edges, value.c != 0);
        } else {
          targets := AllEdgeTargets(edges);
        }
      case Switch(v) =>
        var value := Evaluate(VarExp(v), facts[i]);
        if value.Const? {
          targets := SwitchTargets(edges, value.c);
        } else {
          targets := AllEdgeTargets(edges);
        }
      case _ =>
        targets := AllEdgeTargets(edges);
    }
  }

  /** The targets of an `if` whose condition is known: the `IfTrue` edges when `flag` holds, else the `IfFalse` ones. */
  method IfTargets(edges: seq<Edge>, flag: bool) returns (targets: seq<nat>)
    ensures forall t :: t in targets <==> t in (set e | e in edges && e.kind == (if flag then IfTrue else IfFalse) :: e.target)
  {
    targets := [];
    var k := 0;
    while k < |edges|
      invariant 0 <= k <= |edges|
      invariant forall t :: t in targets <==> exists e :: (e in edges[..k] && e.target == t &&
        ((flag && e.kind == IfTrue) || (!flag && e.kind == IfFalse)))
    {
      var e := edges[k];
      if (flag && e.kind == IfTrue) || (!flag && e.kind == IfFalse) {
        targets := targets + [e.target];
      }
      assert edges[..k + 1] == edges[..k] + [e];
      k := k + 1;
    }
    assert edges[..k] == edges;
  }

  /**
   * The targets of a `switch` on the known value `num`: the matching cases and
   * the plain edges, and the remembered default edge when no case matched.
   */
  method SwitchTargets(edges: seq<Edge>, num: int) returns (targets: seq<nat>)
    ensures forall t :: t in targets <==> t in SwitchFollowed(edges, num)
  {
    targets := [];
    var k := 0;
    var defaultFlag := true;
    var defaultEdge: Option<Edge> := None;
    while k < |edges|
      invariant 0 <= k <= |edges|
      invariant defaultEdge == LastDefault(edges[..k])
      invariant defaultFlag <==> !exists e :: e in edges[..k] && e.kind == SwitchCase && e.caseValue == num
      invariant forall t :: t in targets <==> exists e :: (e in edges[..k] && e.target == t &&
        ((e.kind == SwitchCase && e.caseValue == num) || (e.kind != SwitchCase && e.kind != SwitchDefault)))
    {
      var e := edges[k];
      assert edges[..k + 1] == edges[..k] + [e];
      assert edges[..k + 1][..k] == edges[..k];
      if e.kind == SwitchCase {
        if e.caseValue == num {
          defaultFlag := false;
          targets := targets + [e.target];
        }
      } else if e.kind == SwitchDefault {
        defaultEdge := Some(e);
      } else {
        targets := targets + [e.target];
      }
      k := k + 1;
    }
    assert edges[..k] == edges;
    if defaultFlag && defaultEdge.Some? {
      targets := targets + [defaultEdge.value.target];
    }
  }

  /** The targets of all edges, in order. */
  method AllEdgeTargets(edges: seq<Edge>) returns (targets: seq<nat>)
    ensures forall t :: t in targets <==> t in AllTargets(edges)
  {
    targets := [];
    var k := 0;
    while k < |edges|
      invariant 0 <= k <= |edges|
      invariant forall t :: t in targets <==> exists e :: e in edges[..k] && e.target == t
    {
      targets := targets + [edges[k].target];
      assert edges[..k + 1] == edges[..k] + [edges[k]];
      k := k + 1;
    }
    assert edges[..k] == edges;
  }

  /**
   * What the traversal keeps true: every visited or pending node is reached,
   * the entry is visited or pending, and the followed targets of a visited
   * node are visited or pending.
   */
  ghost predicate TraversalInvariant(g: CFG, facts: seq<Fact>, visited: set<nat>, worklist: seq<nat>)
    requires ValidCFG(g) && |facts| == |g.stmts|
  {
    visited <= Nodes(g) &&
    (forall n :: n in worklist ==> n < |g.stmts| && Reaches(g, facts, n)) &&
    (forall n :: n in visited ==> Reaches(g, facts, n)) &&
    (g.entry in visited || g.entry in worklist) &&
    forall i :: i in visited ==> Followed(g, facts, i) <= visited + Elements(worklist)
  }

  lemma TraversalStarts(g: CFG, facts: seq<Fact>)
    requires ValidCFG(g) && |facts| == |g.stmts|
    ensures TraversalInvariant(g, facts, {}, [g.entry])
  {
    EntryReached(g, facts);
  }

  /** Polling a node that was already visited keeps the invariant. */
  lemma TraversalSkips(g: CFG, facts: seq<Fact>, visited: set<nat>, worklist: seq<nat>)
    requires ValidCFG(g) && |facts| == |g.stmts|
    requires |worklist| > 0 && worklist[0] in visited
    requires TraversalInvariant(g, facts, visited, worklist)
    ensures TraversalInvariant(g, facts, visited, worklist[1..])
  {
    assert worklist == [worklist[0]] + worklist[1..];
    assert Elements(worklist) == {worklist[0]} + Elements(worklist[1..]);
    forall n | n in worklist[1..] ensures n < |g.stmts| && Reaches(g, facts, n) {
      assert n in worklist;
    }
  }

  /** Visiting a new node and appending its followed targets keeps the invariant. */
  lemma TraversalVisits(g: CFG, facts: seq<Fact>, visited: set<nat>, worklist: seq<nat>, targets: seq<nat>)
    requires ValidCFG(g) && |facts| == |g.stmts|
    requires |worklist| > 0 && worklist[0] !in visited
    requires TraversalInvariant(g, facts, visited, worklist)
    requires worklist[0] < |g.stmts|
    requires forall t :: t in targets <==> t in Followed(g, facts, worklist[0])
    ensures TraversalInvariant(g, facts, visited + {worklist[0]}, worklist[1..] + targets)
  {
    var work := worklist[0];
    assert worklist == [work] + worklist[1..];
    assert Elements(worklist) == {work} + Elements(worklist[1..]);
    assert Elements(worklist[1..] + targets) == Elements(worklist[1..]) + Elements(targets);
    FollowedInGraph(g, facts, work);
    forall t | t in worklist[1..] + targets ensures t < |g.stmts| && Reaches(g, facts, t) {
      if t in targets {
        ReachesStep(g, facts, work, t);
      } else {
        assert t in worklist;
      }
    }
  }

  /**
   * The reachability traversal: a first-in first-out worklist seeded with the
   * entry; a node already visited is skipped, otherwise it is marked and its
   * followed targets are appended. The result is exactly the set of nodes
   * reached along followed edges.
   */
  method ReachableNodes(g: CFG, facts: seq<Fact>) returns (reachable: set<nat>)
    requires ValidCFG(g) && |facts| == |g.stmts|
    ensures forall n: nat :: n in reachable <==> n < |g.stmts| && Reaches(g, facts, n)
  {
    reachable := {};
    var worklist: seq<nat> := [g.entry];
    TraversalStarts(g, facts);
    while |worklist| > 0
      invariant TraversalInvariant(g, facts, reachable, worklist)
      decreases |Nodes(g) - reachable|, |worklist|
    {
      var work := worklist[0];
      if work in reachable {
        TraversalSkips(g, facts, reachable, worklist);
        worklist := worklist[1..];
        continue;
      }
      assert work < |g.stmts| by {
        assert work in worklist;
      }
      var targets := FollowedTargets(g, facts, work);
      TraversalVisits(g, facts, reachable, worklist, targets);
      assert Nodes(g) - (reachable + {work}) < Nodes(g) - reachable by {
        assert work in Nodes(g) - reachable;
      }
      reachable := reachable + {work};
      worklist := worklist[1..] + targets;
    }
    TraversalEnds(g, facts, reachable);
  }

  /** An emptied worklist leaves exactly the reached nodes visited. */
  lemma TraversalEnds(g: CFG, facts: seq<Fact>, visited: set<nat>)
    requires ValidCFG(g) && |facts| == |g.stmts|
    requires TraversalInvariant(g, facts, visited, [])
    ensures forall n: nat :: n in visited <==> n < |g.stmts| && Reaches(g, facts, n)
  {
    assert Elements<nat>([]) == {};
    assert Closed(g, facts, visited);
    forall n: nat | n < |g.stmts| && Reaches(g, facts, n) ensures n in visited {
      var p :| IsPath(g, facts, p) && p[|p| - 1] == n;
      ClosedContainsPath(g, facts, visited, p);
    }
  }

  /** Statement `i` assigns a variable that is dead afterwards, with a side-effect-free right-hand side. */
  predicate IsUselessDefinition(g: CFG, liveOut: seq<set<Var>>, i: nat)
    requires i < |g.stmts| && |liveOut| == |g.stmts|
  {
    var s := g.stmts[i];
    DefinedVar(s).Some? && DefinedVar(s).value !in liveOut[i] && HasNoSideEffect(RValue(s))
  }

  /**
   * The dead code of a method, in increasing statement order: the statements
   * with a non-negative line number that are not reached, and the useless
   * definitions (checked over all statements).
   */
  method Analyze(g: CFG, facts: seq<Fact>, liveOut: seq<set<Var>>) returns (deadCode: seq<nat>)
    requires ValidCFG(g) && |facts| == |g.stmts| && |liveOut| == |g.stmts|
    requires forall i :: 0 <= i < |g.stmts| ==> !IsStore(g.stmts[i])
    ensures forall j, k :: 0 <= j < k < |deadCode| ==> deadCode[j] < deadCode[k]
    ensures forall j, k :: 0 <= j < k < |deadCode| ==> deadCode[k] < |g.stmts| && g.stmts[deadCode[j]].index < g.stmts[deadCode[k]].index
    ensures forall i: nat :: (i in deadCode <==> (i < |g.stmts| &&
      ((!Reaches(g, facts, i) && g.stmts[i].line >= 0) || IsUselessDefinition(g, liveOut, i))))
  {
    var reachable := ReachableNodes(g, facts);
    var uselessDef: set<nat> := {};
    var i := 0;
    while i < |g.stmts|
      invariant 0 <= i <= |g.stmts|
      invariant forall j: nat :: j in uselessDef <==> j < i && IsUselessDefinition(g, liveOut, j)
    {
      var s := g.stmts[i];
      match DefinedVar(s) {
        case Some(v) =>
          if v !in liveOut[i] && HasNoSideEffect(RValue(s)) {
            uselessDef := uselessDef + {i};
          }
        case None =>
      }
      i := i + 1;
    }
    var dead: set<nat> := {};
    i := 0;
    while i < |g.stmts|
      invariant 0 <= i <= |g.stmts|
      invariant forall j: nat :: j in dead <==> j < i && j !in reachable && g.stmts[j].line >= 0
    {
      if i !in reachable && g.stmts[i].line >= 0 {
        dead := dead + {i};
      }
      i := i + 1;
    }
    dead := dead + uselessDef;
    // The sorted set, listed by increasing index.
    deadCode := [];
    i := 0;
    while i < |g.stmts|
      invariant 0 <= i <= |g.stmts|
      invariant forall j, k :: 0 <= j < k < |deadCode| ==> deadCode[j] < deadCode[k]
      invariant forall j :: 0 <= j < |deadCode| ==> deadCode[j] < i
      invariant forall j: nat :: j in deadCode <==> j < i && j in dead
    {
      if i in dead {
        deadCode := deadCode + [i];
      }
      i := i + 1;
    }
  }

  // ---------------------------------------------------------------- properties

  /** A constant `if` condition follows only the matching branch; any other condition follows all. */
  lemma IfPruning(g: CFG, facts: seq<Fact>, i: nat, t: nat)
    requires ValidCFG(g) && |facts| == |g.stmts| && i < |g.stmts| && g.stmts[i].kind.If?
    ensures var value := Evaluate(g.stmts[i].kind.cond, facts[i]);
      t in Followed(g, facts, i) <==>
        exists e :: e in g.outEdges[i] && e.target == t &&
          (value.Const? ==> e.kind == (if value.c != 0 then IfTrue else IfFalse))
  {
  }

  /**
   * On a constant switch every case edge labelled with the value is followed,
   * every edge that is neither a case nor the default is followed, and the
   * default is followed only when no case matched.
   */
  lemma SwitchPruning(g: CFG, facts: seq<Fact>, i: nat, num: Int32)
    requires ValidCFG(g) && |facts| == |g.stmts| && i < |g.stmts| && g.stmts[i].kind.Switch?
    requires Evaluate(VarExp(g.stmts[i].kind.scrutinee), facts[i]) == Const(num)
    ensures forall e :: e in g.outEdges[i] && e.kind == SwitchCase && e.caseValue == num ==>
      e.target in Followed(g, facts, i)
    ensures forall e :: e in g.outEdges[i] && e.kind != SwitchCase && e.kind != SwitchDefault ==>
      e.target in Followed(g, facts, i)
    ensures (exists e :: e in g.outEdges[i] && e.kind == SwitchCase && e.caseValue == num) ==>
      forall t :: t in Followed(g, facts, i) ==> exists e :: e in g.outEdges[i] && e.target == t && e.kind != SwitchDefault
  {
  }

  /** Only the entry and successors along followed edges are ever reached. */
  lemma EntryReached(g: CFG, facts: seq<Fact>)
    requires ValidCFG(g) && |facts| == |g.stmts|
    ensures Reaches(g, facts, g.entry)
  {
    assert IsPath(g, facts, [g.entry]);
  }

  /** The side-effect classifier singles out allocation, casts, field and array accesses, `/` and `%`. */
  lemma SideEffectClassification(e: Exp)
    ensures !HasNoSideEffect(e) <==>
      e.NewExp? || e.CastExp? || e.FieldAccess? || e.ArrayAccess? || (e.BinaryExp? && IsDivOrRem(e.op))
  {
  }

  /** A side-effect-free operator expression over defined operands never throws. */
  lemma NoSideEffectCannotTrap(e: Exp, env: Env)
    requires e.BinaryExp? && HasNoSideEffect(e)
    requires e.operand1 in env && e.operand2 in env
    ensures ConcreteValue(e, env).Some?
  {
  }
}
