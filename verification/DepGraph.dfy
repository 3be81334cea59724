/** The typed, weighted dependency graph and its k-hop neighbourhood. */
module DepGraph {
  import opened Hops
  import opened LevelSearch
  import opened Wrappers

  datatype GraphNode = PageNode(id: string) | KeywordNode(id: string) | CodeSymbolNode(id: string)

  datatype DepEdgeType = Hyperlink | Cooccurrence | Contains | References | ParentOf | Cites

  /** src and dst are node indices. */
  datatype GraphEdge = GraphEdge(src: nat, dst: nat, edgeType: DepEdgeType, weight: real)

  datatype Direction = Outgoing | Incoming

  /** The string under which a node is indexed. */
  function Key(node: GraphNode): string
  {
    match node
    case PageNode(id) => "page:" + id
    case KeywordNode(id) => "keyword:" + id
    case CodeSymbolNode(id) => "symbol:" + id
  }

  /** Different nodes have different keys. */
  lemma KeyInjective(a: GraphNode, b: GraphNode)
    requires Key(a) == Key(b)
    ensures a == b
  {
    assert Key(a)[0] == (if a.PageNode? then 'p' else if a.KeywordNode? then 'k' else 's');
    assert Key(b)[0] == (if b.PageNode? then 'p' else if b.KeywordNode? then 'k' else 's');
    var n := if a.PageNode? then 5 else if a.KeywordNode? then 8 else 7;
    assert Key(a)[n..] == a.id && Key(b)[n..] == b.id;
  }

  /** The far end of an edge seen in the given direction. */
  function Neighbor(e: GraphEdge, dir: Direction): nat
  {
    if dir.Outgoing? then e.dst else e.src
  }

  function NearEnd(e: GraphEdge, dir: Direction): nat
  {
    if dir.Outgoing? then e.src else e.dst
  }

  ghost function Step(edges: seq<GraphEdge>, dir: Direction): (nat, nat) -> bool
  {
    (u, v) => exists e :: e in edges && NearEnd(e, dir) == u && Neighbor(e, dir) == v
  }

  /** The indices of the edges incident to u in direction dir. The library
      fixes no order for them, so every listing is allowed. */
  ghost predicate Lists(edges: seq<GraphEdge>, dir: Direction, u: nat, listing: seq<nat>)
  {
    Distinct(listing) && forall i: nat :: i in listing <==> i < |edges| && NearEnd(edges[i], dir) == u
  }

  /** An order of iteration for every node. */
  ghost predicate ListsAll(edges: seq<GraphEdge>, dir: Direction, order: nat -> seq<nat>)
  {
    forall u: nat :: Lists(edges, dir, u, order(u))
  }

  class DependencyGraph {
    var nodes: seq<GraphNode>
    var edges: seq<GraphEdge>
    var nodeIndex: map<string, nat>

    /** The index and the node list are inverse to each other, and edges join existing nodes. */
    ghost predicate Valid()
      reads this
    {
      && (forall k | k in nodeIndex :: nodeIndex[k] < |nodes| && Key(nodes[nodeIndex[k]]) == k)
      && (forall i | 0 <= i < |nodes| :: Key(nodes[i]) in nodeIndex && nodeIndex[Key(nodes[i])] == i)
      && (forall e | e in edges :: e.src < |nodes| && e.dst < |nodes|)
    }

    constructor ()
      ensures Valid() && nodes == [] && edges == []
    {
      nodes, edges, nodeIndex := [], [], map[];
    }

    /** Nodes are shared: asking twice for a node gives the same index. */
    method GetOrCreateNode(node: GraphNode) returns (idx: nat)
      requires Valid()
      modifies this`nodes, this`nodeIndex
      ensures Valid() && idx < |nodes| && nodes[idx] == node
      ensures nodes == if node in old(nodes) then old(nodes) else old(nodes) + [node]
    {
      var key := Key(node);
      if key in nodeIndex {
        idx := nodeIndex[key];
        KeyInjective(nodes[idx], node);
        return;
      }
      assert node !in nodes;
      idx := |nodes|;
      nodes := nodes + [node];
      nodeIndex := nodeIndex[key := idx];
    }

    method AddEdge(from: GraphNode, to: GraphNode, edgeType: DepEdgeType, weight: real)
      requires Valid()
      modifies this
      ensures Valid()
      ensures old(nodes) <= nodes && from in nodes && to in nodes
      ensures forall n | n in nodes :: n in old(nodes) || n == from || n == to
      ensures |edges| == |old(edges)| + 1 && edges[..|old(edges)|] == old(edges)
      ensures var e := edges[|old(edges)|];
              e.src < |nodes| && e.dst < |nodes| && nodes[e.src] == from && nodes[e.dst] == to
              && e.edgeType == edgeType && e.weight == weight
    {
      var fromIdx := GetOrCreateNode(from);
      var toIdx := GetOrCreateNode(to);
      edges := edges + [GraphEdge(fromIdx, toIdx, edgeType, weight)];
    }

    /** No node is stored twice. */
    lemma NodesDistinct()
      requires Valid()
      ensures Distinct(nodes)
    {
      forall i, j | 0 <= i < j < |nodes|
        ensures nodes[i] != nodes[j]
      {
        assert nodeIndex[Key(nodes[i])] == i && nodeIndex[Key(nodes[j])] == j;
      }
    }

    // ----- k-hop neighbourhood

    /** The edge loop for one frontier node. depthMap is the visited set with
        the level at which each node was visited. */
    method VisitNeighbors(neighbors: seq<nat>, ghost step: (nat, nat) -> bool, ghost start: nat, ghost idx: nat,
                          ghost depthMap0: map<nat, nat>, visited0: set<nat>, next0: seq<nat>, ghost d: nat)
      returns (ghost depthMap: map<nat, nat>, visited: set<nat>, next: seq<nat>)
      requires forall k | 0 <= k < |neighbors| :: step(idx, neighbors[k])
      requires AtDistance(step, {start}, idx, d) && Exploring(step, start, depthMap0, next0, d)
      requires visited0 == depthMap0.Keys && Distinct(next0)
      ensures Exploring(step, start, depthMap, next, d)
      ensures visited == depthMap.Keys && depthMap0.Keys <= depthMap.Keys && Distinct(next)
      ensures forall k | 0 <= k < |neighbors| :: neighbors[k] in depthMap
    {
      hide Exploring, AtDistance, Key;
      depthMap, visited, next := depthMap0, visited0, next0;
      for j := 0 to |neighbors|
        invariant Exploring(step, start, depthMap, next, d)
        invariant visited == depthMap.Keys && depthMap0.Keys <= depthMap.Keys && Distinct(next)
        invariant forall k | 0 <= k < j :: neighbors[k] in depthMap
      {
        var v := neighbors[j];
        if v !in visited {
          NotYetNext(step, start, depthMap, next, d, v);
          Discover(step, start, depthMap, next, d, idx, v);
          depthMap := depthMap[v := d + 1];
          visited, next := visited + {v}, next + [v];
        }
      }
    }

    /** The far ends of the edges incident to idx, in the order listed. */
    method Neighbors(idx: nat, dir: Direction, order: nat -> seq<nat>) returns (out: seq<nat>)
      requires Valid() && ListsAll(edges, dir, order)
      ensures forall k | 0 <= k < |out| :: Step(edges, dir)(idx, out[k])
      ensures forall v | Step(edges, dir)(idx, v) :: v in out
      ensures forall k | 0 <= k < |out| :: out[k] < |nodes|
    {
      var listing := order(idx);
      assert Lists(edges, dir, idx, listing);
      out := [];
      for j := 0 to |listing|
        invariant |out| == j
        invariant forall k | 0 <= k < j :: listing[k] < |edges| && out[k] == Neighbor(edges[listing[k]], dir)
      {
        assert listing[j] in listing;
        out := out + [Neighbor(edges[listing[j]], dir)];
      }
      forall v | Step(edges, dir)(idx, v)
        ensures v in out
      {
        var e :| e in edges && NearEnd(e, dir) == idx && Neighbor(e, dir) == v;
        var i: nat :| i < |edges| && edges[i] == e;
        assert i in listing;
        var k :| 0 <= k < |listing| && listing[k] == i;
        assert out[k] == v;
      }
      forall k | 0 <= k < |out|
        ensures Step(edges, dir)(idx, out[k]) && out[k] < |nodes|
      {
        assert listing[k] in listing;
        assert edges[listing[k]] in edges;
      }
    }

    /** The loop over one level. */
    method VisitLevel(current: seq<nat>, dir: Direction, order: nat -> seq<nat>, ghost step: (nat, nat) -> bool,
                      ghost start: nat, ghost depthMap0: map<nat, nat>, visited0: set<nat>, ghost d: nat)
      returns (ghost depthMap: map<nat, nat>, visited: set<nat>, next: seq<nat>)
      requires Valid() && ListsAll(edges, dir, order) && step == Step(edges, dir)
      requires Explored(step, start, depthMap0, d) && IsLevel(step, start, current, d) && visited0 == depthMap0.Keys
      ensures Explored(step, start, depthMap, d + 1) && IsLevel(step, start, next, d + 1) && visited == depthMap.Keys
      ensures Distinct(next)
    {
      hide Step, Neighbor, NearEnd, Key, AtDistance, ListsAll;
      depthMap, visited, next := depthMap0, visited0, [];
      assert Exploring(step, start, depthMap, next, d);
      for i := 0 to |current|
        invariant Exploring(step, start, depthMap, next, d)
        invariant visited == depthMap.Keys && Distinct(next)
        invariant forall j, v | 0 <= j < i && step(current[j], v) :: v in depthMap
      {
        assert current[i] in current;
        var neighbors := Neighbors(current[i], dir, order);
        depthMap, visited, next := VisitNeighbors(neighbors, step, start, current[i], depthMap, visited, next, d);
      }
      LevelDone(step, start, depthMap, current, next, d);
    }

    method PushKeys(idxs: seq<nat>, result0: seq<string>, ghost found: seq<nat>) returns (result: seq<string>)
      requires Named(nodes, found, result0) && forall i | 0 <= i < |idxs| :: idxs[i] < |nodes|
      ensures Named(nodes, found + idxs, result)
    {
      hide Key;
      result := result0;
      for i := 0 to |idxs|
        invariant Named(nodes, found + idxs[..i], result)
      {
        result := result + [Key(nodes[idxs[i]])];
        assert found + idxs[..i + 1] == found + idxs[..i] + [idxs[i]];
      }
      assert idxs[..|idxs|] == idxs;
    }

    /** neighborhood: the keys of exactly the nodes one to k hops from the
        seed, each once, nearer ones first; nothing when the seed is unknown.
        found lists the same nodes by index. */
    method Neighborhood(seed: string, k: nat, dir: Direction, order: nat -> seq<nat>)
      returns (result: seq<string>, ghost found: seq<nat>)
      requires Valid() && ListsAll(edges, dir, order)
      ensures seed !in nodeIndex ==> result == []
      ensures Named(nodes, found, result)
      ensures seed in nodeIndex ==> Nearest(Step(edges, dir), nodeIndex[seed], found, k)
    {
      if seed !in nodeIndex {
        return [], [];
      }
      var startIdx := nodeIndex[seed];
      ghost var step := Step(edges, dir);
      result, found := [], [];
      hide Step, AtDistance, Explored, IsLevel, ListsAll, Nearest, Key, Named, Neighbor, NearEnd;
      assert Named(nodes, [], []) by { NamedNone(nodes); }
      ghost var depthMap: map<nat, nat> := map[startIdx := 0];
      var visited, current := {startIdx}, [startIdx];
      StartLevel(step, startIdx);
      NearestStart(step, startIdx);
      var d := 0;
      while d < k
        invariant d <= k && visited == depthMap.Keys
        invariant Explored(step, startIdx, depthMap, d) && IsLevel(step, startIdx, current, d)
        invariant Nearest(step, startIdx, found, d)
        invariant Named(nodes, found, result)
      {
        var next;
        depthMap, visited, next := VisitLevel(current, dir, order, step, startIdx, depthMap, visited, d);
        if next == [] {
          NearestStops(step, startIdx, found, d, k);
          return;
        }
        NextAreNodes(startIdx, next, dir, d);
        NearestGrows(step, startIdx, found, next, d);
        result := PushKeys(next, result, found);
        found := found + next;
        current, d := next, d + 1;
      }
    }

    lemma NextAreNodes(start: nat, next: seq<nat>, dir: Direction, d: nat)
      requires Valid() && IsLevel(Step(edges, dir), start, next, d + 1)
      ensures forall i | 0 <= i < |next| :: next[i] < |nodes|
    {
      forall i | 0 <= i < |next|
        ensures next[i] < |nodes|
      {
        assert next[i] in next;
        assert AtDistance(Step(edges, dir), {start}, next[i], d + 1);
        var w := Predecessor(Step(edges, dir), {start}, next[i], d + 1);
        var e :| e in edges && NearEnd(e, dir) == w && Neighbor(e, dir) == next[i];
        assert e.src < |nodes| && e.dst < |nodes|;
        assert Neighbor(e, dir) < |nodes|;
      }
    }
  }

  lemma NotYetNext(step: (nat, nat) -> bool, start: nat, depthMap: map<nat, nat>, next: seq<nat>, d: nat, v: nat)
    requires Exploring(step, start, depthMap, next, d) && v !in depthMap
    ensures v !in next
  {
  }

  /** result holds the keys of the nodes whose indices found lists. */
  ghost predicate Named(nodes: seq<GraphNode>, found: seq<nat>, result: seq<string>)
  {
    |found| == |result| && forall i | 0 <= i < |found| :: found[i] < |nodes| && Key(nodes[found[i]]) == result[i]
  }

  lemma NamedNone(nodes: seq<GraphNode>)
    ensures Named(nodes, [], [])
  {
  }

  /** found lists the vertices at distance one to k, each once, by increasing distance. */
  ghost predicate Nearest(step: (nat, nat) -> bool, start: nat, found: seq<nat>, k: nat)
  {
    && Distinct(found)
    && (forall v :: v in found <==> exists n: nat :: 1 <= n <= k && AtDistance(step, {start}, v, n))
    && (forall i, j, n: nat, m: nat | 0 <= i < j < |found| && AtDistance(step, {start}, found[i], n)
          && AtDistance(step, {start}, found[j], m) :: n <= m)
  }

  lemma NearestStart(step: (nat, nat) -> bool, start: nat)
    ensures Nearest(step, start, [], 0)
  {
  }

  lemma NearestStops(step: (nat, nat) -> bool, start: nat, found: seq<nat>, d: nat, k: nat)
    requires d <= k && Nearest(step, start, found, d) && IsLevel(step, start, [], d + 1)
    ensures Nearest(step, start, found, k)
  {
    forall v, n: nat | n > d
      ensures !AtDistance(step, {start}, v, n)
    {
      EmptyLevelEnds(step, {start}, d + 1, n);
    }
    hide AtDistance;
    forall v
      ensures v in found <==> exists n: nat :: 1 <= n <= k && AtDistance(step, {start}, v, n)
    {
      if v in found {
        var n: nat :| 1 <= n <= d && AtDistance(step, {start}, v, n);
      }
      if n: nat :| 1 <= n <= k && AtDistance(step, {start}, v, n) {
        assert n <= d;
      }
    }
  }

  lemma NearestGrows(step: (nat, nat) -> bool, start: nat, found: seq<nat>, next: seq<nat>, d: nat)
    requires Nearest(step, start, found, d) && IsLevel(step, start, next, d + 1) && Distinct(next)
    ensures Nearest(step, start, found + next, d + 1)
  {
    forall v, n: nat, m: nat | AtDistance(step, {start}, v, n) && AtDistance(step, {start}, v, m)
      ensures n == m
    {
      DistanceUnique(step, {start}, v, n, m);
    }
    hide AtDistance;
    var all := found + next;
    forall v
      ensures v in all <==> exists n: nat :: 1 <= n <= d + 1 && AtDistance(step, {start}, v, n)
    {
      if v in next {
        assert AtDistance(step, {start}, v, d + 1);
      }
    }
    forall i | 0 <= i < |found|
      ensures exists n: nat :: 1 <= n <= d && AtDistance(step, {start}, found[i], n)
    {
      assert found[i] in found;
    }
    forall i | 0 <= i < |next|
      ensures AtDistance(step, {start}, next[i], d + 1)
    {
      assert next[i] in next;
    }
  }
}
