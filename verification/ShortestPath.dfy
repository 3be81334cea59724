/** shortest_path: walking back over a distance map. The map comes from the
    graph library's Dijkstra search, of which only a certificate is used. */
module ShortestPath {
  import opened DepGraph
  import opened Hops
  import opened Wrappers

  type Dist = map<nat, real>

  // ----- weighted paths

  /** via lists edge indices leading from s to v. */
  ghost predicate IsPath(edges: seq<GraphEdge>, via: seq<nat>, s: nat, v: nat)
  {
    if via == [] then s == v
    else
      var i := via[|via| - 1];
      i < |edges| && edges[i].dst == v && IsPath(edges, via[..|via| - 1], s, edges[i].src)
  }

  function Length(edges: seq<GraphEdge>, via: seq<nat>): real
  {
    if via == [] then 0.0
    else
      var i := via[|via| - 1];
      Length(edges, via[..|via| - 1]) + if i < |edges| then edges[i].weight else 0.0
  }

  /** The nodes along a path, from s on. */
  function Along(edges: seq<GraphEdge>, via: seq<nat>, s: nat): seq<nat>
  {
    if via == [] then [s]
    else
      var i := via[|via| - 1];
      Along(edges, via[..|via| - 1], s) + [if i < |edges| then edges[i].dst else s]
  }

  ghost predicate Positive(edges: seq<GraphEdge>)
  {
    forall e | e in edges :: e.weight > 0.0
  }

  /** Edge i is tight at v: its source's distance plus its weight is v's distance. */
  ghost predicate TightInto(edges: seq<GraphEdge>, dist: Dist, i: nat, v: nat)
  {
    i < |edges| && edges[i].dst == v && edges[i].src in dist && v in dist && dist[edges[i].src] + edges[i].weight == dist[v]
  }

  /** What Dijkstra's search guarantees of its distances when it stops at the
      target: the source is at zero, every other entry was set over some edge,
      and the edges of every settled node have been relaxed. Nodes are settled
      when nearer than the target, or always when the target was not found. */
  ghost predicate Certificate(edges: seq<GraphEdge>, dist: Dist, source: nat, target: nat)
  {
    && source in dist && dist[source] == 0.0
    && (forall v | v in dist :: dist[v] >= 0.0)
    && (forall v | v in dist && v != source :: exists i :: TightInto(edges, dist, i, v))
    && (forall i | 0 <= i < |edges| && edges[i].src in dist && (target in dist ==> dist[edges[i].src] < dist[target]) ::
          edges[i].dst in dist && dist[edges[i].dst] <= dist[edges[i].src] + edges[i].weight)
  }

  /** No path is shorter than the distance of the target, and none exists when the target has no distance. */
  lemma {:induction false} NoShorterPath(edges: seq<GraphEdge>, dist: Dist, source: nat, target: nat, via: seq<nat>, v: nat)
    requires Positive(edges) && Certificate(edges, dist, source, target) && IsPath(edges, via, source, v)
    ensures (v in dist && dist[v] <= Length(edges, via)) || (target in dist && dist[target] <= Length(edges, via))
    decreases |via|
  {
    if via != [] {
      var i := via[|via| - 1];
      NoShorterPath(edges, dist, source, target, via[..|via| - 1], edges[i].src);
      assert edges[i] in edges;
    }
  }

  // ----- the walk back

  /** What the scan over the incoming edges of a node finds first. */
  datatype Scan = TightEdge(index: nat) | Missing | NoTightEdge

  /** The loop over incoming edges: indexing the map with an absent source panics. */
  function ScanIncoming(edges: seq<GraphEdge>, dist: Dist, v: nat, listing: seq<nat>): Scan
    requires v in dist
  {
    if listing == [] then NoTightEdge
    else if listing[0] >= |edges| then ScanIncoming(edges, dist, v, listing[1..])
    else
      var e := edges[listing[0]];
      if e.src !in dist then Missing
      else if dist[e.src] + e.weight == dist[v] then TightEdge(listing[0])
      else ScanIncoming(edges, dist, v, listing[1..])
  }

  lemma {:induction false} ScanFinds(edges: seq<GraphEdge>, dist: Dist, v: nat, listing: seq<nat>)
    requires v in dist && forall i | i in listing :: i < |edges| && edges[i].dst == v
    ensures match ScanIncoming(edges, dist, v, listing)
            case TightEdge(i) => i in listing && TightInto(edges, dist, i, v)
            case Missing => exists i :: i in listing && edges[i].src !in dist
            case NoTightEdge => forall i | i in listing :: !TightInto(edges, dist, i, v)
  {
    if listing != [] {
      assert listing == [listing[0]] + listing[1..];
      ScanFinds(edges, dist, v, listing[1..]);
    }
  }

  /** The nodes nearer than v: the walk back can only go there. */
  function Nearer(dist: Dist, v: nat): set<nat>
    requires v in dist
  {
    set u | u in dist && dist[u] < dist[v]
  }

  lemma TightIsNearer(edges: seq<GraphEdge>, dist: Dist, i: nat, v: nat)
    requires Positive(edges) && TightInto(edges, dist, i, v)
    ensures |Nearer(dist, edges[i].src)| < |Nearer(dist, v)|
  {
    var u := edges[i].src;
    assert edges[i] in edges;
    assert Nearer(dist, u) < Nearer(dist, v) by {
      assert u in Nearer(dist, v) && u !in Nearer(dist, u);
    }
    SubsetSmaller(Nearer(dist, u), Nearer(dist, v));
  }

  lemma SubsetSmaller(a: set<nat>, b: set<nat>)
    requires a < b
    ensures |a| < |b|
  {
    var x :| x in b && x !in a;
    assert a <= b - {x};
    SubsetSize(a, b - {x});
  }

  /** The edges walked from v back to the source, last one first. */
  datatype Back = Walked(via: seq<nat>) | Panic | Stuck

  ghost function WalkBack(edges: seq<GraphEdge>, dist: Dist, source: nat, v: nat, order: nat -> seq<nat>): Back
    requires Positive(edges) && v in dist
    requires forall u: nat :: forall i | i in order(u) :: i < |edges| && edges[i].dst == u
    decreases |Nearer(dist, v)|
  {
    if v == source then Walked([])
    else
      ScanFinds(edges, dist, v, order(v));
      match ScanIncoming(edges, dist, v, order(v))
      case Missing => Panic
      case NoTightEdge => Stuck
      case TightEdge(i) =>
        TightIsNearer(edges, dist, i, v);
        match WalkBack(edges, dist, source, edges[i].src, order)
        case Walked(via) => Walked(via + [i])
        case Panic => Panic
        case Stuck => Stuck
  }

  /** A completed walk is a path of exactly the target's distance. */
  lemma {:induction false} WalkedIsPath(edges: seq<GraphEdge>, dist: Dist, source: nat, v: nat, order: nat -> seq<nat>)
    requires Positive(edges) && v in dist && source in dist && dist[source] == 0.0
    requires ListsAll(edges, Incoming, order)
    ensures var b := WalkBackIn(edges, dist, source, v, order);
            b.Walked? ==> IsPath(edges, b.via, source, v) && Length(edges, b.via) == dist[v]
    decreases |Nearer(dist, v)|
  {
    ListingsPoint(edges, order);
    if v != source {
      ScanFinds(edges, dist, v, order(v));
      var scan := ScanIncoming(edges, dist, v, order(v));
      if scan.TightEdge? {
        TightIsNearer(edges, dist, scan.index, v);
        WalkedIsPath(edges, dist, source, edges[scan.index].src, order);
        var rest := WalkBackIn(edges, dist, source, edges[scan.index].src, order);
        if rest.Walked? {
          assert (rest.via + [scan.index])[..|rest.via|] == rest.via;
        }
      }
    }
  }

  lemma ListingsPoint(edges: seq<GraphEdge>, order: nat -> seq<nat>)
    requires ListsAll(edges, Incoming, order)
    ensures forall u: nat :: forall i | i in order(u) :: i < |edges| && edges[i].dst == u
  {
    forall u: nat
      ensures forall i | i in order(u) :: i < |edges| && edges[i].dst == u
    {
      assert Lists(edges, Incoming, u, order(u));
    }
  }

  ghost function WalkBackIn(edges: seq<GraphEdge>, dist: Dist, source: nat, v: nat, order: nat -> seq<nat>): Back
    requires Positive(edges) && v in dist && ListsAll(edges, Incoming, order)
  {
    ListingsPoint(edges, order);
    WalkBack(edges, dist, source, v, order)
  }

  // ----- when the walk back panics

  /** One hop of the walk back: over a tight edge, and never on from the source. */
  ghost function BackStep(edges: seq<GraphEdge>, dist: Dist, source: nat): (nat, nat) -> bool
  {
    (v: nat, u: nat) => v != source && exists i: nat :: TightInto(edges, dist, i, v) && edges[i].src == u
  }

  /** Every node with an edge into v has a distance. */
  ghost predicate SourcesKnown(edges: seq<GraphEdge>, dist: Dist, v: nat)
  {
    forall i | 0 <= i < |edges| && edges[i].dst == v :: edges[i].src in dist
  }

  /** Every node on a shortest path to the target, the source aside, has
      incoming edges from nodes with a distance only. */
  ghost predicate Safe(edges: seq<GraphEdge>, dist: Dist, source: nat, target: nat)
  {
    forall v, n: nat | v != source && Reaches(BackStep(edges, dist, source), {target}, v, n) :: SourcesKnown(edges, dist, v)
  }

  lemma {:induction false} SafeNeverPanics(edges: seq<GraphEdge>, dist: Dist, source: nat, target: nat, v: nat, n: nat,
                                           order: nat -> seq<nat>)
    requires Positive(edges) && v in dist && ListsAll(edges, Incoming, order)
    requires Safe(edges, dist, source, target)
    requires Reaches(BackStep(edges, dist, source), {target}, v, n)
    ensures !WalkBackIn(edges, dist, source, v, order).Panic?
    decreases |Nearer(dist, v)|
  {
    ListingsPoint(edges, order);
    if v != source {
      ScanFinds(edges, dist, v, order(v));
      assert SourcesKnown(edges, dist, v);
      var scan := ScanIncoming(edges, dist, v, order(v));
      if scan.TightEdge? {
        TightIsNearer(edges, dist, scan.index, v);
        var u := edges[scan.index].src;
        assert BackStep(edges, dist, source)(v, u);
        assert Reaches(BackStep(edges, dist, source), {target}, u, n + 1);
        SafeNeverPanics(edges, dist, source, target, u, n + 1, order);
      }
    }
  }

  /** Under the certificate a node other than the source always has a tight edge to follow. */
  lemma {:induction false} NeverStuck(edges: seq<GraphEdge>, dist: Dist, source: nat, target: nat, v: nat, order: nat -> seq<nat>)
    requires Positive(edges) && Certificate(edges, dist, source, target) && v in dist && ListsAll(edges, Incoming, order)
    ensures !WalkBackIn(edges, dist, source, v, order).Stuck?
    decreases |Nearer(dist, v)|
  {
    ListingsPoint(edges, order);
    if v != source {
      ScanFinds(edges, dist, v, order(v));
      var i :| TightInto(edges, dist, i, v);
      assert Lists(edges, Incoming, v, order(v)) && i in order(v);
      var scan := ScanIncoming(edges, dist, v, order(v));
      if scan.TightEdge? {
        TightIsNearer(edges, dist, scan.index, v);
        NeverStuck(edges, dist, source, target, edges[scan.index].src, order);
      }
    }
  }

  // ----- an order that panics, whenever the graph is not safe

  /** The incoming edges of v by index. */
  function InEdges(edges: seq<GraphEdge>, v: nat, n: nat): seq<nat>
    requires n <= |edges|
  {
    if n == 0 then []
    else InEdges(edges, v, n - 1) + if edges[n - 1].dst == v then [n - 1] else []
  }

  lemma {:induction false} InEdgesList(edges: seq<GraphEdge>, v: nat, n: nat)
    requires n <= |edges|
    ensures Distinct(InEdges(edges, v, n))
    ensures forall i: nat :: i in InEdges(edges, v, n) <==> i < n && edges[i].dst == v
  {
    if n > 0 {
      InEdgesList(edges, v, n - 1);
    }
  }

  function Without(l: seq<nat>, i: nat): seq<nat>
  {
    if l == [] then [] else (if l[0] == i then [] else [l[0]]) + Without(l[1..], i)
  }

  lemma {:induction false} WithoutKeeps(l: seq<nat>, i: nat)
    requires Distinct(l)
    ensures Distinct(Without(l, i))
    ensures forall j :: j in Without(l, i) <==> j in l && j != i
  {
    if l != [] {
      var rest := l[1..];
      assert l == [l[0]] + rest;
      assert forall j | 0 <= j < |rest| :: rest[j] == l[j + 1];
      assert Distinct(rest);
      WithoutKeeps(rest, i);
      assert l[0] !in rest;
      if l[0] == i {
        assert Without(l, i) == Without(rest, i);
      }
    }
  }

  /** The order that agrees with order everywhere but at v, where edge i comes first. */
  ghost function First(edges: seq<GraphEdge>, order: nat -> seq<nat>, v: nat, i: nat): nat -> seq<nat>
  {
    u => if u == v then [i] + Without(order(u), i) else order(u)
  }

  lemma FirstLists(edges: seq<GraphEdge>, order: nat -> seq<nat>, v: nat, i: nat)
    requires ListsAll(edges, Incoming, order) && i < |edges| && edges[i].dst == v
    ensures ListsAll(edges, Incoming, First(edges, order, v, i))
  {
    var o := First(edges, order, v, i);
    forall u: nat
      ensures Lists(edges, Incoming, u, o(u))
    {
      assert Lists(edges, Incoming, u, order(u));
      if u == v {
        WithoutKeeps(order(v), i);
      }
    }
  }

  lemma ByIndex(edges: seq<GraphEdge>) returns (order: nat -> seq<nat>)
    ensures ListsAll(edges, Incoming, order)
  {
    order := u => InEdges(edges, u, |edges|);
    forall u: nat
      ensures Lists(edges, Incoming, u, order(u))
    {
      InEdgesList(edges, u, |edges|);
    }
  }

  /** The walk back from a node is not affected by the order at nodes that are not nearer. */
  lemma {:induction false} WalkLocal(edges: seq<GraphEdge>, dist: Dist, source: nat, v: nat, bound: real,
                                     a: nat -> seq<nat>, b: nat -> seq<nat>)
    requires Positive(edges) && v in dist && dist[v] < bound
    requires ListsAll(edges, Incoming, a) && ListsAll(edges, Incoming, b)
    requires forall u | u in dist && dist[u] < bound :: a(u) == b(u)
    ensures WalkBackIn(edges, dist, source, v, a) == WalkBackIn(edges, dist, source, v, b)
    decreases |Nearer(dist, v)|
  {
    ListingsPoint(edges, a);
    ListingsPoint(edges, b);
    if v != source {
      ScanFinds(edges, dist, v, a(v));
      var scan := ScanIncoming(edges, dist, v, a(v));
      if scan.TightEdge? {
        TightIsNearer(edges, dist, scan.index, v);
        assert edges[scan.index] in edges;
        WalkLocal(edges, dist, source, edges[scan.index].src, bound, a, b);
      }
    }
  }

  /** From v the walk can be led, over tight edges, to a node with an unknown source. */
  lemma {:induction false} PanicOrder(edges: seq<GraphEdge>, dist: Dist, source: nat, v: nat, bad: nat, n: nat)
    returns (order: nat -> seq<nat>)
    requires Positive(edges) && v in dist
    requires Reaches(BackStep(edges, dist, source), {v}, bad, n)
    requires bad != source && !SourcesKnown(edges, dist, bad)
    ensures ListsAll(edges, Incoming, order) && WalkBackIn(edges, dist, source, v, order).Panic?
    decreases n
  {
    if n == 0 {
      var i: nat :| i < |edges| && edges[i].dst == v && edges[i].src !in dist;
      var o := ByIndex(edges);
      order := First(edges, o, v, i);
      FirstLists(edges, o, v, i);
      ListingsPoint(edges, order);
      assert order(v)[0] == i;
    } else {
      var w := FirstStep(BackStep(edges, dist, source), v, bad, n);
      var i: nat :| TightInto(edges, dist, i, v) && edges[i].src == w;
      var o := PanicOrder(edges, dist, source, w, bad, n - 1);
      order := First(edges, o, v, i);
      FirstLists(edges, o, v, i);
      PanicHere(edges, dist, source, v, i, o);
    }
  }

  lemma PanicHere(edges: seq<GraphEdge>, dist: Dist, source: nat, v: nat, i: nat, o: nat -> seq<nat>)
    requires Positive(edges) && v in dist && v != source && TightInto(edges, dist, i, v)
    requires ListsAll(edges, Incoming, o) && WalkBackIn(edges, dist, source, edges[i].src, o).Panic?
    requires ListsAll(edges, Incoming, First(edges, o, v, i))
    ensures WalkBackIn(edges, dist, source, v, First(edges, o, v, i)).Panic?
  {
    var order := First(edges, o, v, i);
    ListingsPoint(edges, order);
    assert order(v)[0] == i;
    assert edges[i] in edges;
    assert dist[edges[i].src] < dist[v];
    WalkLocal(edges, dist, source, edges[i].src, dist[v], o, order);
    TightIsNearer(edges, dist, i, v);
  }

  /** The walk back panics under no order of the incoming edges if and only if
      every node on a shortest path has only sources with a known distance. A
      single edge from a node the source cannot reach into such a node is
      enough for a panic. */
  lemma NeverPanicsIff(edges: seq<GraphEdge>, dist: Dist, source: nat, target: nat)
    requires Positive(edges) && target in dist
    ensures (forall order: nat -> seq<nat> | ListsAll(edges, Incoming, order) ::
               !WalkBackIn(edges, dist, source, target, order).Panic?)
       <==> Safe(edges, dist, source, target)
  {
    if Safe(edges, dist, source, target) {
      forall order: nat -> seq<nat> | ListsAll(edges, Incoming, order)
        ensures !WalkBackIn(edges, dist, source, target, order).Panic?
      {
        SafeNeverPanics(edges, dist, source, target, target, 0, order);
      }
    } else {
      var bad, n: nat :| bad != source && Reaches(BackStep(edges, dist, source), {target}, bad, n) && !SourcesKnown(edges, dist, bad);
      var order := PanicOrder(edges, dist, source, target, bad, n);
    }
  }

  // ----- the method

  datatype PathResult = Found(path: seq<string>) | NoPath | UnknownSource | UnknownTarget | Panicked

  function KeysOf(nodes: seq<GraphNode>, idxs: seq<nat>): seq<string>
    requires forall i | 0 <= i < |idxs| :: idxs[i] < |nodes|
  {
    seq(|idxs|, i requires 0 <= i < |idxs| => Key(nodes[idxs[i]]))
  }

  /** The nodes of via in walking order: far ends, last edge first, without the node it starts from. */
  function FarEnds(edges: seq<GraphEdge>, via: seq<nat>): seq<nat>
  {
    seq(|via|, k requires 0 <= k < |via| =>
      var i := via[|via| - 1 - k]; if i < |edges| then edges[i].dst else 0)
  }

  function Reversed<T>(s: seq<T>): seq<T>
  {
    seq(|s|, i requires 0 <= i < |s| => s[|s| - 1 - i])
  }

  lemma {:induction false} PathPrepend(edges: seq<GraphEdge>, i: nat, via: seq<nat>, v: nat)
    requires i < |edges| && IsPath(edges, via, edges[i].dst, v)
    ensures IsPath(edges, [i] + via, edges[i].src, v)
    ensures Length(edges, [i] + via) == edges[i].weight + Length(edges, via)
  {
    if via == [] {
      assert [i] + via == [i] && [i][..0] == [];
    } else {
      var n := |via| - 1;
      PathPrepend(edges, i, via[..n], edges[via[n]].src);
      assert ([i] + via)[..n + 1] == [i] + via[..n];
    }
  }

  /** A path visits its source and then the far ends of its edges in order. */
  lemma {:induction false} AlongIsFarEnds(edges: seq<GraphEdge>, via: seq<nat>, s: nat, v: nat)
    requires IsPath(edges, via, s, v)
    ensures Along(edges, via, s) == [s] + Reversed(FarEnds(edges, via))
  {
    if via != [] {
      var n := |via| - 1;
      AlongIsFarEnds(edges, via[..n], s, edges[via[n]].src);
      assert FarEnds(edges, via) == [edges[via[n]].dst] + FarEnds(edges, via[..n]);
      assert Reversed(FarEnds(edges, via)) == Reversed(FarEnds(edges, via[..n])) + [edges[via[n]].dst];
    }
  }

  /** The scan over the incoming edges of v, in the order listed. */
  method ScanLoop(edges: seq<GraphEdge>, dist: Dist, v: nat, listing: seq<nat>) returns (scan: Scan)
    requires v in dist && forall i | i in listing :: i < |edges|
    ensures scan == ScanIncoming(edges, dist, v, listing)
  {
    var j := 0;
    while j < |listing|
      invariant j <= |listing|
      invariant ScanIncoming(edges, dist, v, listing) == ScanIncoming(edges, dist, v, listing[j..])
    {
      assert listing[j] in listing;
      assert listing[j..][1..] == listing[j + 1..];
      var e := edges[listing[j]];
      if e.src !in dist {
        return Missing;
      }
      if dist[e.src] + e.weight == dist[v] {
        return TightEdge(listing[j]);
      }
      j := j + 1;
    }
    return NoTightEdge;
  }

  /** via is the walked part, from current to the target, and path holds the keys pushed for it. */
  ghost predicate WalkedSoFar(nodes: seq<GraphNode>, edges: seq<GraphEdge>, dist: Dist, current: nat, target: nat,
                              via: seq<nat>, path: seq<string>)
  {
    && current in dist && target in dist && current < |nodes|
    && (forall k | 0 <= k < |via| :: FarEnds(edges, via)[k] < |nodes|)
    && path == KeysOf(nodes, FarEnds(edges, via))
    && IsPath(edges, via, current, target) && Length(edges, via) + dist[current] == dist[target]
  }

  lemma WalkOneMore(nodes: seq<GraphNode>, edges: seq<GraphEdge>, dist: Dist, current: nat, target: nat,
                    via: seq<nat>, path: seq<string>, i: nat)
    requires WalkedSoFar(nodes, edges, dist, current, target, via, path)
    requires TightInto(edges, dist, i, current) && edges[i].src < |nodes|
    ensures WalkedSoFar(nodes, edges, dist, edges[i].src, target, [i] + via, path + [Key(nodes[current])])
  {
    hide Key;
    PathPrepend(edges, i, via, target);
    assert FarEnds(edges, [i] + via) == FarEnds(edges, via) + [current];
  }

  /** One turn of the walk: the scan decides between panic and one tight edge. */
  lemma WalkTurn(edges: seq<GraphEdge>, dist: Dist, source: nat, target: nat, current: nat, order: nat -> seq<nat>)
    requires Positive(edges) && ListsAll(edges, Incoming, order) && Certificate(edges, dist, source, target)
    requires current in dist && current != source
    ensures forall i | i in order(current) :: i < |edges|
    ensures match ScanIncoming(edges, dist, current, order(current))
            case NoTightEdge => false
            case Missing => WalkBackIn(edges, dist, source, current, order).Panic?
            case TightEdge(i) =>
              && TightInto(edges, dist, i, current) && edges[i] in edges
              && |Nearer(dist, edges[i].src)| < |Nearer(dist, current)|
              && (WalkBackIn(edges, dist, source, edges[i].src, order).Panic?
                  <==> WalkBackIn(edges, dist, source, current, order).Panic?)
  {
    ListingsPoint(edges, order);
    NeverStuck(edges, dist, source, target, current, order);
    ScanFinds(edges, dist, current, order(current));
    var scan := ScanIncoming(edges, dist, current, order(current));
    if scan.TightEdge? {
      TightIsNearer(edges, dist, scan.index, current);
    }
  }

  /** The loop that walks back from the target; path collects keys, target first. */
  method WalkLoop(g: DependencyGraph, dist: Dist, source: nat, target: nat, order: nat -> seq<nat>)
    returns (path: seq<string>, panicked: bool, ghost via: seq<nat>)
    requires g.Valid() && Positive(g.edges) && ListsAll(g.edges, Incoming, order)
    requires source < |g.nodes| && target < |g.nodes| && target in dist && Certificate(g.edges, dist, source, target)
    ensures panicked == WalkBackIn(g.edges, dist, source, target, order).Panic?
    ensures !panicked ==> WalkedSoFar(g.nodes, g.edges, dist, source, target, via, path)
  {
    hide Key, Certificate, TightInto, Nearer, ListsAll, Positive, ScanIncoming, WalkBackIn;
    var current := target;
    path, panicked, via := [], false, [];
    while current != source
      invariant WalkedSoFar(g.nodes, g.edges, dist, current, target, via, path)
      invariant WalkBackIn(g.edges, dist, source, current, order).Panic?
            <==> WalkBackIn(g.edges, dist, source, target, order).Panic?
      decreases |Nearer(dist, current)|
    {
      WalkTurn(g.edges, dist, source, target, current, order);
      ghost var path0 := path;
      path := path + [Key(g.nodes[current])];
      var scan := ScanLoop(g.edges, dist, current, order(current));
      match scan {
        case Missing =>
          return path, true, via;
        case NoTightEdge =>
          assert false;
        case TightEdge(i) =>
          EdgeAt(g.edges, dist, i, current);
          WalkOneMore(g.nodes, g.edges, dist, current, target, via, path0, i);
          via := [i] + via;
          current := g.edges[i].src;
      }
    }
    NotPanicAtSource(g.edges, dist, source, order);
  }

  lemma EdgeAt(edges: seq<GraphEdge>, dist: Dist, i: nat, v: nat)
    requires TightInto(edges, dist, i, v)
    ensures i < |edges| && edges[i].src in dist
  {
  }

  lemma NotPanicAtSource(edges: seq<GraphEdge>, dist: Dist, source: nat, order: nat -> seq<nat>)
    requires Positive(edges) && source in dist && ListsAll(edges, Incoming, order)
    ensures !WalkBackIn(edges, dist, source, source, order).Panic?
  {
  }

  lemma KeysAlong(g: DependencyGraph, via: seq<nat>, source: nat, target: nat)
    requires source < |g.nodes| && IsPath(g.edges, via, source, target)
    requires forall k | 0 <= k < |via| :: FarEnds(g.edges, via)[k] < |g.nodes|
    ensures forall k | 0 <= k < |Along(g.edges, via, source)| :: Along(g.edges, via, source)[k] < |g.nodes|
    ensures Reversed(KeysOf(g.nodes, FarEnds(g.edges, via)) + [Key(g.nodes[source])])
         == KeysOf(g.nodes, Along(g.edges, via, source))
  {
    hide Key;
    AlongIsFarEnds(g.edges, via, source, target);
    var ends := FarEnds(g.edges, via);
    var along := [source] + Reversed(ends);
    assert along == Along(g.edges, via, source);
    forall k | 0 <= k < |along|
      ensures along[k] < |g.nodes|
    {
    }
  }

  /** via is a shortest path from source to target and r lists its nodes' keys. */
  ghost predicate IsShortest(g: DependencyGraph, source: nat, target: nat, via: seq<nat>, path: seq<string>)
    reads g
  {
    && IsPath(g.edges, via, source, target)
    && (forall other | IsPath(g.edges, other, source, target) :: Length(g.edges, via) <= Length(g.edges, other))
    && (forall k | 0 <= k < |Along(g.edges, via, source)| :: Along(g.edges, via, source)[k] < |g.nodes|)
    && path == KeysOf(g.nodes, Along(g.edges, via, source))
  }

  /** shortest_path: for positive weights and a certified distance map the
      result is a real path from source to target of minimal weight, or the
      report that there is none; unless the walk back meets an edge from a node
      without a distance, which panics. */
  method ShortestPath(g: DependencyGraph, from: string, to: string, dist: Dist, order: nat -> seq<nat>)
    returns (r: PathResult, ghost via: seq<nat>)
    requires g.Valid() && Positive(g.edges) && ListsAll(g.edges, Incoming, order)
    requires from in g.nodeIndex && to in g.nodeIndex ==> Certificate(g.edges, dist, g.nodeIndex[from], g.nodeIndex[to])
    ensures r.UnknownSource? <==> from !in g.nodeIndex
    ensures r.UnknownTarget? <==> from in g.nodeIndex && to !in g.nodeIndex
    ensures r.Found? ==> IsShortest(g, g.nodeIndex[from], g.nodeIndex[to], via, r.path)
    ensures r.Found? ==> g.nodeIndex[to] in dist && Length(g.edges, via) == dist[g.nodeIndex[to]]
    ensures r.NoPath? ==> forall other :: !IsPath(g.edges, other, g.nodeIndex[from], g.nodeIndex[to])
    ensures r.Panicked? ==> !Safe(g.edges, dist, g.nodeIndex[from], g.nodeIndex[to])
  {
    via := [];
    if from !in g.nodeIndex {
      return UnknownSource, via;
    }
    if to !in g.nodeIndex {
      return UnknownTarget, via;
    }
    var source, target := g.nodeIndex[from], g.nodeIndex[to];
    forall other | IsPath(g.edges, other, source, target)
      ensures target in dist && dist[target] <= Length(g.edges, other)
    {
      NoShorterPath(g.edges, dist, source, target, other, target);
    }
    if target !in dist {
      return NoPath, via;
    }
    var path, panicked;
    path, panicked, via := WalkLoop(g, dist, source, target, order);
    if panicked {
      NeverPanicsIff(g.edges, dist, source, target);
      return Panicked, via;
    }
    KeysAlong(g, via, source, target);
    path := path + [Key(g.nodes[source])];
    r := Found(Reversed(path));
  }

  // ----- a graph that panics

  /** a to b with weight one, and x to b with weight one: a shortest path from
      a to b exists, but x cannot be reached, and listing x's edge first panics. */
  lemma UnreachableNeighborPanics(order: nat -> seq<nat>)
    requires var edges := [GraphEdge(0, 1, Hyperlink, 1.0), GraphEdge(2, 1, Hyperlink, 1.0)];
             ListsAll(edges, Incoming, order) && order(1) == [1, 0]
    ensures var edges := [GraphEdge(0, 1, Hyperlink, 1.0), GraphEdge(2, 1, Hyperlink, 1.0)];
            var dist := map[0 := 0.0, 1 := 1.0];
            && Positive(edges) && Certificate(edges, dist, 0, 1) && IsPath(edges, [0], 0, 1)
            && WalkBackIn(edges, dist, 0, 1, order).Panic?
  {
    var edges := [GraphEdge(0, 1, Hyperlink, 1.0), GraphEdge(2, 1, Hyperlink, 1.0)];
    var dist: Dist := map[0 := 0.0, 1 := 1.0];
    ListingsPoint(edges, order);
    assert TightInto(edges, dist, 0, 1);
    assert [0][..0] == [];
  }
}
