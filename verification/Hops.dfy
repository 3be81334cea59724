/** Walks and shortest hop counts over an arbitrary step relation.
    Both breadth-first searches of the program (crawl graph and dependency
    graph) are specified against this module. */
module Hops {

  /** Some walk of exactly n steps leads from one of the sources to v. */
  ghost predicate Reaches<T(!new)>(step: (T, T) -> bool, sources: set<T>, v: T, n: nat)
  {
    if n == 0 then v in sources
    else exists w :: Reaches(step, sources, w, n - 1) && step(w, v)
  }

  /** The shortest walk from the sources to v has exactly n steps. */
  ghost predicate AtDistance<T(!new)>(step: (T, T) -> bool, sources: set<T>, v: T, n: nat)
  {
    Reaches(step, sources, v, n) && forall k: nat | k < n :: !Reaches(step, sources, v, k)
  }

  lemma {:induction false} ShortestExists<T(!new)>(step: (T, T) -> bool, sources: set<T>, v: T, n: nat)
    requires Reaches(step, sources, v, n)
    ensures exists k: nat | k <= n :: AtDistance(step, sources, v, k)
  {
    if j: nat :| j < n && Reaches(step, sources, v, j) {
      ShortestExists(step, sources, v, j);
    } else {
      assert AtDistance(step, sources, v, n);
    }
  }

  lemma DistanceUnique<T(!new)>(step: (T, T) -> bool, sources: set<T>, v: T, n: nat, m: nat)
    requires AtDistance(step, sources, v, n) && AtDistance(step, sources, v, m)
    ensures n == m
  {
  }

  /** The last step of a shortest walk leaves from a vertex one hop nearer. */
  lemma Predecessor<T(!new)>(step: (T, T) -> bool, sources: set<T>, v: T, n: nat) returns (w: T)
    requires n > 0 && AtDistance(step, sources, v, n)
    ensures AtDistance(step, sources, w, n - 1) && step(w, v)
  {
    w :| Reaches(step, sources, w, n - 1) && step(w, v);
    forall k: nat | k < n - 1
      ensures !Reaches(step, sources, w, k)
    {
      if Reaches(step, sources, w, k) {
        assert Reaches(step, sources, v, k + 1);
      }
    }
  }

  /** A walk seen from its first step. */
  lemma {:induction false} FirstStep<T(!new)>(step: (T, T) -> bool, s: T, v: T, n: nat) returns (w: T)
    requires n > 0 && Reaches(step, {s}, v, n)
    ensures step(s, w) && Reaches(step, {w}, v, n - 1)
  {
    var u :| Reaches(step, {s}, u, n - 1) && step(u, v);
    if n == 1 {
      w := v;
    } else {
      w := FirstStep(step, s, u, n - 1);
    }
  }

  /** A step from a vertex at distance n ends at distance at most n + 1. */
  lemma Successor<T(!new)>(step: (T, T) -> bool, sources: set<T>, w: T, v: T, n: nat)
    requires AtDistance(step, sources, w, n) && step(w, v)
    ensures exists k: nat | k <= n + 1 :: AtDistance(step, sources, v, k)
  {
    assert Reaches(step, sources, v, n + 1);
    ShortestExists(step, sources, v, n + 1);
  }

  /** Once a whole level of the search is empty, so is every later one. */
  lemma {:induction false} EmptyLevelEnds<T(!new)>(step: (T, T) -> bool, sources: set<T>, d: nat, n: nat)
    requires d <= n
    requires forall v :: !AtDistance(step, sources, v, d)
    ensures forall v :: !AtDistance(step, sources, v, n)
  {
    if d < n {
      EmptyLevelEnds(step, sources, d, n - 1);
      forall v
        ensures !AtDistance(step, sources, v, n)
      {
        if AtDistance(step, sources, v, n) {
          var w := Predecessor(step, sources, v, n);
        }
      }
    }
  }

  /** Reaches, spelled out: a walk is the list of the vertices it visits. */
  lemma {:induction false} ReachesIsWalk<T(!new)>(step: (T, T) -> bool, sources: set<T>, v: T, n: nat)
    ensures Reaches(step, sources, v, n) <==> exists p: seq<T> :: IsWalk(step, p, sources, v) && |p| == n + 1
  {
    if n == 0 {
      assert v in sources ==> IsWalk(step, [v], sources, v);
    } else {
      if Reaches(step, sources, v, n) {
        var w :| Reaches(step, sources, w, n - 1) && step(w, v);
        ReachesIsWalk(step, sources, w, n - 1);
        var p :| IsWalk(step, p, sources, w) && |p| == n;
        assert IsWalk(step, p + [v], sources, v);
      }
      if p: seq<T> :| IsWalk(step, p, sources, v) && |p| == n + 1 {
        var w := p[n - 1];
        assert IsWalk(step, p[..n], sources, w);
        ReachesIsWalk(step, sources, w, n - 1);
        assert step(w, v);
      }
    }
  }

  ghost predicate IsWalk<T(!new)>(step: (T, T) -> bool, p: seq<T>, sources: set<T>, v: T)
  {
    |p| > 0 && p[0] in sources && p[|p| - 1] == v &&
    forall i | 0 < i < |p| :: step(p[i - 1], p[i])
  }
}
