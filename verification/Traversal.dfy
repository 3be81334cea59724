/** Level-by-level breadth-first traversal of the crawl graph. */
module Traversal {
  import opened CrawlGraph
  import opened Hops
  import opened LevelSearch
  import opened Ordering

  datatype TraversalDirection = Inbound | Outbound | Both

  datatype TraversalNode = TraversalNode(url: Url, depth: nat)

  /** The edge e can be travelled from u to v in direction dir. */
  predicate Links(e: LinkEdge, dir: TraversalDirection, u: Url, v: Url)
  {
    match dir
    case Inbound => e.to == u && e.from == v
    case Outbound => e.from == u && e.to == v
    case Both => (e.from == u && e.to == v) || (e.to == u && e.from == v)
  }

  /** One hop in direction dir, read off the flat list of recorded edges. */
  ghost function Step(log: seq<LinkEdge>, dir: TraversalDirection): (Url, Url) -> bool
  {
    (u, v) => exists e :: e in log && Links(e, dir, u, v)
  }

  // ----- the order of the result: by depth, then by URL

  predicate Before(a: TraversalNode, b: TraversalNode)
  {
    a.depth < b.depth || (a.depth == b.depth && StringLess(a.url, b.url))
  }

  lemma BeforeIsStrictTotal()
    ensures StrictTotal(Before)
  {
    forall a, b
      ensures Before(a, b) || Before(b, a) || a == b
      ensures !(Before(a, b) && Before(b, a))
    {
      StringLessTotal(a.url, b.url);
    }
    forall a, b, c | Before(a, b) && Before(b, c)
      ensures Before(a, c)
    {
      if a.depth == b.depth == c.depth {
        StringLessTransitive(a.url, b.url, c.url);
      }
    }
  }

  method SortByDepthThenUrl(depthMap: map<Url, nat>) returns (nodes: seq<TraversalNode>)
    ensures Sorted(Before, nodes)
    ensures forall x :: x in nodes <==> x.url in depthMap && depthMap[x.url] == x.depth
  {
    BeforeIsStrictTotal();
    nodes := [];
    var left := depthMap.Keys;
    while left != {}
      invariant left <= depthMap.Keys
      invariant Sorted(Before, nodes)
      invariant forall x :: x in nodes <==> x.url in depthMap && x.url !in left && depthMap[x.url] == x.depth
      decreases left
    {
      var u :| u in left;
      InsertSorted(Before, nodes, TraversalNode(u, depthMap[u]));
      nodes := Insert(Before, nodes, TraversalNode(u, depthMap[u]));
      left := left - {u};
    }
  }

  // ----- neighbours

  /** The far end of an edge that the store returned for url. */
  function Neighbor(edge: LinkEdge, dir: TraversalDirection, url: Url): Url
  {
    match dir
    case Inbound => edge.from
    case Outbound => edge.to
    case Both => if edge.from == url then edge.to else edge.from
  }

  /** The edges the store returns for url. */
  method IncidentEdges(g: InMemoryCrawlGraph, url: Url, dir: TraversalDirection) returns (edges: seq<LinkEdge>)
    requires g.Valid()
    ensures forall e :: e in edges <==> e in g.log && Links(e, dir, url, Neighbor(e, dir, url))
  {
    forall e
      ensures e in EdgesFrom(g.log, url) <==> e in g.log && e.from == url
      ensures e in EdgesTo(g.log, url) <==> e in g.log && e.to == url
    {
      EdgesFromMembers(g.log, url, e);
      EdgesToMembers(g.log, url, e);
    }
    match dir {
      case Inbound => edges := g.GetLinksTo(url);
      case Outbound => edges := g.GetLinksFrom(url);
      case Both =>
        var leaving := g.GetLinksFrom(url);
        var entering := g.GetLinksTo(url);
        edges := leaving + entering;
    }
  }

  /** The vertices one hop from url, one per edge the store returns. */
  method Neighbors(g: InMemoryCrawlGraph, url: Url, dir: TraversalDirection) returns (out: seq<Url>)
    requires g.Valid()
    ensures forall i | 0 <= i < |out| :: Step(g.log, dir)(url, out[i])
    ensures forall v | Step(g.log, dir)(url, v) :: v in out
  {
    var edges := IncidentEdges(g, url, dir);
    out := [];
    for i := 0 to |edges|
      invariant |out| == i
      invariant forall j | 0 <= j < i :: out[j] == Neighbor(edges[j], dir, url)
    {
      out := out + [Neighbor(edges[i], dir, url)];
    }
    forall v | Step(g.log, dir)(url, v)
      ensures v in out
    {
      var e :| e in g.log && Links(e, dir, url, v);
      assert Neighbor(e, dir, url) == v && e in edges;
      var i :| 0 <= i < |edges| && edges[i] == e;
      assert out[i] == v;
    }
    forall i | 0 <= i < |out|
      ensures Step(g.log, dir)(url, out[i])
    {
      assert edges[i] in g.log && Links(edges[i], dir, url, out[i]);
    }
  }

  // ----- the search

  /** The loop over the neighbours of one frontier vertex. */
  method ExploreFrom(ghost step: (Url, Url) -> bool, ghost start: Url, ghost url: Url, neighbors: seq<Url>,
                     depthMap0: map<Url, nat>, next0: seq<Url>, d: nat)
    returns (depthMap: map<Url, nat>, next: seq<Url>)
    requires AtDistance(step, {start}, url, d)
    requires forall i | 0 <= i < |neighbors| :: step(url, neighbors[i])
    requires Exploring(step, start, depthMap0, next0, d)
    ensures Exploring(step, start, depthMap, next, d)
    ensures depthMap0.Keys <= depthMap.Keys
    ensures forall i | 0 <= i < |neighbors| :: neighbors[i] in depthMap
  {
    depthMap, next := depthMap0, next0;
    for i := 0 to |neighbors|
      invariant Exploring(step, start, depthMap, next, d)
      invariant depthMap0.Keys <= depthMap.Keys
      invariant forall j | 0 <= j < i :: neighbors[j] in depthMap
    {
      var v := neighbors[i];
      if v !in depthMap {
        Discover(step, start, depthMap, next, d, url, v);
        depthMap, next := depthMap[v := d + 1], next + [v];
      }
    }
  }

  /** The loop over one frontier, which ends the level. */
  method ExploreLevel(g: InMemoryCrawlGraph, dir: TraversalDirection, ghost step: (Url, Url) -> bool,
                      ghost start: Url, current: seq<Url>, depthMap0: map<Url, nat>, d: nat)
    returns (depthMap: map<Url, nat>, next: seq<Url>)
    requires g.Valid() && step == Step(g.log, dir)
    requires Explored(step, start, depthMap0, d)
    requires IsLevel(step, start, current, d)
    ensures Explored(step, start, depthMap, d + 1)
    ensures IsLevel(step, start, next, d + 1)
  {
    hide Step, Links;
    depthMap, next := depthMap0, [];
    for i := 0 to |current|
      invariant Exploring(step, start, depthMap, next, d)
      invariant forall j, v | 0 <= j < i && step(current[j], v) :: v in depthMap
    {
      assert current[i] in current;
      var neighbors := Neighbors(g, current[i], dir);
      depthMap, next := ExploreFrom(step, start, current[i], neighbors, depthMap, next, d);
    }
    LevelDone(step, start, depthMap, current, next, d);
  }

  /** The result does not depend on the order in which the depth map is iterated:
      any two sorted lists with these members are the same list. */
  lemma ResultIsDetermined(depthMap: map<Url, nat>, a: seq<TraversalNode>, b: seq<TraversalNode>)
    requires Sorted(Before, a) && Sorted(Before, b)
    requires forall x :: x in a <==> x.url in depthMap && depthMap[x.url] == x.depth
    requires forall x :: x in b <==> x.url in depthMap && depthMap[x.url] == x.depth
    ensures a == b
  {
    BeforeIsStrictTotal();
    SortedUnique(Before, a, b);
  }

  /** The whole search: exactly the URLs within maxDepth hops, each with its
      shortest hop count, by (depth, URL). */
  method TraverseWithDepth(g: InMemoryCrawlGraph, start: Url, maxDepth: nat, dir: TraversalDirection)
    returns (nodes: seq<TraversalNode>)
    requires g.Valid()
    ensures forall i, j | 0 <= i < j < |nodes| ::
              nodes[i].depth < nodes[j].depth || (nodes[i].depth == nodes[j].depth && StringLess(nodes[i].url, nodes[j].url))
    ensures forall v, d: nat ::
              TraversalNode(v, d) in nodes <==> d <= maxDepth && AtDistance(Step(g.log, dir), {start}, v, d)
  {
    assert AtDistance(Step(g.log, dir), {start}, start, 0);
    hide Explored, IsLevel, AtDistance, Step;
    ghost var step := Step(g.log, dir);
    var depthMap: map<Url, nat> := map[start := 0];
    var current := [start];
    StartLevel(step, start);
    var d := 0;
    while d < maxDepth
      invariant d <= maxDepth
      invariant Explored(step, start, depthMap, d)
      invariant IsLevel(step, start, current, d)
    {
      var next;
      depthMap, next := ExploreLevel(g, dir, step, start, current, depthMap, d);
      if next == [] {
        NothingFurther(step, start, depthMap, d + 1, maxDepth);
        break;
      }
      current, d := next, d + 1;
    }
    nodes := SortByDepthThenUrl(depthMap);
    forall v, k: nat
      ensures TraversalNode(v, k) in nodes <==> k <= maxDepth && AtDistance(step, {start}, v, k)
    {
      ExploredExactly(step, start, depthMap, maxDepth, v, k);
    }
  }
}
