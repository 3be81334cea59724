/** The level-by-level invariant behind both breadth-first searches of the
    program: which vertices a search knows after a level, and during one. */
module LevelSearch {
  import opened Hops

  /** us lists exactly the vertices at distance d. */
  ghost predicate IsLevel<T(!new)>(step: (T, T) -> bool, s: T, us: seq<T>, d: nat)
  {
    forall v :: v in us <==> AtDistance(step, {s}, v, d)
  }

  /** After level d: the depth map holds exactly the vertices within d hops,
      each at its true distance. */
  ghost predicate Explored<T(!new)>(step: (T, T) -> bool, s: T, depthMap: map<T, nat>, d: nat)
  {
    && (forall v | v in depthMap :: depthMap[v] <= d && AtDistance(step, {s}, v, depthMap[v]))
    && (forall v, k: nat | k <= d && AtDistance(step, {s}, v, k) :: v in depthMap)
  }

  /** While level d + 1 is under way: next lists the vertices found so far at d + 1. */
  ghost predicate Exploring<T(!new)>(step: (T, T) -> bool, s: T, depthMap: map<T, nat>, next: seq<T>, d: nat)
  {
    && (forall v | v in depthMap :: depthMap[v] <= d + 1 && AtDistance(step, {s}, v, depthMap[v]))
    && (forall v, k: nat | k <= d && AtDistance(step, {s}, v, k) :: v in depthMap)
    && (forall v :: v in next <==> v in depthMap && depthMap[v] == d + 1)
  }

  /** A neighbour of a level-d vertex that is not in the map yet is at distance d + 1. */
  lemma Discover<T(!new)>(step: (T, T) -> bool, s: T, depthMap: map<T, nat>, next: seq<T>, d: nat, u: T, v: T)
    requires Exploring(step, s, depthMap, next, d)
    requires AtDistance(step, {s}, u, d) && step(u, v)
    requires v !in depthMap
    ensures AtDistance(step, {s}, v, d + 1)
    ensures Exploring(step, s, depthMap[v := d + 1], next + [v], d)
  {
    Successor(step, {s}, u, v, d);
    var k: nat :| k <= d + 1 && AtDistance(step, {s}, v, k);
    assert k == d + 1;
  }

  lemma LevelDone<T(!new)>(step: (T, T) -> bool, s: T, depthMap: map<T, nat>, current: seq<T>, next: seq<T>, d: nat)
    requires Exploring(step, s, depthMap, next, d)
    requires IsLevel(step, s, current, d)
    requires forall u, v | u in current && step(u, v) :: v in depthMap
    ensures Explored(step, s, depthMap, d + 1)
    ensures IsLevel(step, s, next, d + 1)
  {
    forall v | AtDistance(step, {s}, v, d + 1)
      ensures v in depthMap && depthMap[v] == d + 1
    {
      var u := Predecessor(step, {s}, v, d + 1);
    }
  }

  lemma NothingFurther<T(!new)>(step: (T, T) -> bool, s: T, depthMap: map<T, nat>, d: nat, m: nat)
    requires d <= m
    requires Explored(step, s, depthMap, d)
    requires IsLevel(step, s, [], d)
    ensures Explored(step, s, depthMap, m)
  {
    forall v, k: nat | k <= m && AtDistance(step, {s}, v, k)
      ensures v in depthMap
    {
      if k > d {
        EmptyLevelEnds(step, {s}, d, k);
      }
    }
  }

  lemma StartLevel<T(!new)>(step: (T, T) -> bool, s: T)
    ensures Explored(step, s, map[s := 0], 0)
    ensures IsLevel(step, s, [s], 0)
  {
    assert AtDistance(step, {s}, s, 0);
  }

  /** The depth map at the end: membership and depth say exactly what was asked for. */
  lemma ExploredExactly<T(!new)>(step: (T, T) -> bool, s: T, depthMap: map<T, nat>, m: nat, v: T, d: nat)
    requires Explored(step, s, depthMap, m)
    ensures (v in depthMap && depthMap[v] == d) <==> d <= m && AtDistance(step, {s}, v, d)
  {
    if v in depthMap && AtDistance(step, {s}, v, d) {
      DistanceUnique(step, {s}, v, depthMap[v], d);
    }
  }
}
