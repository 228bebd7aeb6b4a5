/** Small collection helpers shared by the analyses. */
module Collections {
  import opened Wrappers

  /** The elements of a sequence, as a set. */
  function Elements<T>(s: seq<T>): set<T>
  {
    set x | x in s
  }

  lemma ElementsOfConcat<T>(a: seq<T>, b: seq<T>)
    ensures Elements(a + b) == Elements(a) + Elements(b)
  {
  }

  /** The results of `f` on the elements of `s` it maps to a value, in order. */
  function FilterMap<T(!new), U(!new)>(s: seq<T>, f: T -> Option<U>): (r: seq<U>)
    ensures forall u :: u in r <==> exists t :: t in s && f(t) == Some(u)
  {
    if s == [] then []
    else
      var rest := FilterMap(s[1..], f);
      assert forall t :: t in s <==> t == s[0] || t in s[1..];
      match f(s[0])
      case Some(u) => [u] + rest
      case None => rest
  }

  /** The elements of a set, listed once each in some order. */
  method ListOf<T(==)>(s: set<T>) returns (xs: seq<T>)
    ensures forall x :: x in xs <==> x in s
    ensures NoDuplicates(xs)
  {
    xs := [];
    var rest := s;
    while rest != {}
      invariant forall x :: x in s <==> x in xs || x in rest
      invariant forall x :: x in xs ==> x !in rest
      invariant NoDuplicates(xs)
      decreases |rest|
    {
      var x :| x in rest;
      xs := xs + [x];
      rest := rest - {x};
    }
  }

  predicate NoDuplicates<T(==)>(xs: seq<T>)
  {
    forall i, j :: 0 <= i < j < |xs| ==> xs[i] != xs[j]
  }

  /** Each element of `path` after the first is a successor of the one before it. */
  ghost predicate IsPath<T(!new)>(succ: T -> set<T>, entry: T, path: seq<T>)
  {
    |path| >= 1 && path[0] == entry &&
    forall k :: 0 <= k < |path| - 1 ==> path[k + 1] in succ(path[k])
  }

  /** `x` is reached from `entry` by following `succ` zero or more times. */
  ghost predicate Reaches<T(!new)>(succ: T -> set<T>, entry: T, x: T)
  {
    exists path :: IsPath(succ, entry, path) && path[|path| - 1] == x
  }

  lemma ReachesEntry<T(!new)>(succ: T -> set<T>, entry: T)
    ensures Reaches(succ, entry, entry)
  {
    assert IsPath(succ, entry, [entry]);
  }

  /** A successor of a reached element is reached. */
  lemma ReachesStep<T(!new)>(succ: T -> set<T>, entry: T, x: T, y: T)
    requires Reaches(succ, entry, x) && y in succ(x)
    ensures Reaches(succ, entry, y)
  {
    var path :| IsPath(succ, entry, path) && path[|path| - 1] == x;
    var longer := path + [y];
    forall k | 0 <= k < |longer| - 1 ensures longer[k + 1] in succ(longer[k]) {
      assert longer[k] == path[k];
      if k + 1 < |path| {
        assert longer[k + 1] == path[k + 1];
      }
    }
    assert IsPath(succ, entry, longer);
  }

  /** A set holding `entry` and closed under `succ` holds everything reached from `entry`. */
  lemma ClosedContainsReached<T(!new)>(succ: T -> set<T>, entry: T, s: set<T>, x: T)
    requires entry in s && forall z :: z in s ==> succ(z) <= s
    requires Reaches(succ, entry, x)
    ensures x in s
  {
    var path :| IsPath(succ, entry, path) && path[|path| - 1] == x;
    ClosedContainsPath(succ, entry, s, path);
  }

  lemma {:induction false} ClosedContainsPath<T(!new)>(succ: T -> set<T>, entry: T, s: set<T>, path: seq<T>)
    requires entry in s && forall z :: z in s ==> succ(z) <= s
    requires IsPath(succ, entry, path)
    ensures path[|path| - 1] in s
    decreases |path|
  {
    if |path| > 1 {
      assert IsPath(succ, entry, path[..|path| - 1]);
      ClosedContainsPath(succ, entry, s, path[..|path| - 1]);
    }
  }

  /** Adding an element of `universe` to a set leaves fewer elements of `universe` outside it. */
  lemma RemainingShrinks<T>(universe: set<T>, before: set<T>, after: set<T>, x: T)
    requires before + {x} <= after && x in universe && x !in before
    ensures |universe - after| < |universe - before|
  {
    var small, big := universe - after, universe - before;
    assert small + {x} <= big && x !in small;
    assert |small + {x}| == |small| + 1;
    assert |big| == |small + {x}| + |big - (small + {x})|;
  }

  lemma PrefixTrans<T>(a: seq<T>, b: seq<T>, c: seq<T>)
    requires |a| <= |b| && b[..|a|] == a
    requires |b| <= |c| && c[..|b|] == b
    ensures |a| <= |c| && c[..|a|] == a
  {
    assert c[..|a|] == c[..|b|][..|a|];
  }

  /** The union of `f(x)` over the elements `x` of `xs`. */
  ghost function UnionOver<T, U>(xs: seq<T>, f: T -> set<U>): set<U>
  {
    set x, u | x in xs && u in f(x) :: u
  }

  lemma UnionOverSnoc<T, U>(xs: seq<T>, k: nat, f: T -> set<U>)
    requires k < |xs|
    ensures UnionOver(xs[..k + 1], f) == UnionOver(xs[..k], f) + f(xs[k])
  {
    assert xs[..k + 1] == xs[..k] + [xs[k]];
    assert forall x :: x in xs[..k + 1] <==> x in xs[..k] || x == xs[k];
  }
}
