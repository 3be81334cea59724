/** compute_pagerank_incremental: re-ranks only the URLs found by walking
    incoming edges backwards from the changed URLs. */
module PageRankIncremental {
  import opened CrawlGraph
  import opened Hops
  import opened PageRankTheory
  import opened PageRank
  import opened RankEquation
  import opened RankLoops
  import opened Sums
  import opened Wrappers
  import Traversal

  // ----- the affected set: a queue-driven breadth-first search

  datatype Item = Item(url: Url, depth: nat)

  ghost function Queued(queue: seq<Item>): set<Url>
  {
    set i | 0 <= i < |queue| :: queue[i].url
  }

  /** What the queue loop keeps. Every URL in the map carries its true
      distance; the queue is ordered by distance and spans at most two
      consecutive ones; whoever is neither queued nor being expanded and is not
      at the depth limit has all its predecessors in the map. */
  ghost predicate Searching(step: (Url, Url) -> bool, sources: set<Url>, affected: map<Url, nat>, queue: seq<Item>,
                            limit: nat, busy: set<Url>)
  {
    && sources <= affected.Keys
    && (forall v | v in affected :: affected[v] <= limit && AtDistance(step, sources, v, affected[v]))
    && (forall i | 0 <= i < |queue| :: queue[i].url in affected && affected[queue[i].url] == queue[i].depth)
    && (forall i, j | 0 <= i < j < |queue| :: queue[i].depth <= queue[j].depth <= queue[i].depth + 1)
    && (forall u, v | u in affected && u !in Queued(queue) && u !in busy && affected[u] < limit && step(u, v) :: v in affected)
  }

  /** As long as nothing nearer than d is waiting, everything within distance d is in the map. */
  lemma {:induction false} CompleteUpTo(step: (Url, Url) -> bool, sources: set<Url>, affected: map<Url, nat>,
                                        queue: seq<Item>, limit: nat, d: nat, v: Url, k: nat)
    requires Searching(step, sources, affected, queue, limit, {})
    requires d <= limit && forall i | 0 <= i < |queue| :: queue[i].depth >= d
    requires k <= d && AtDistance(step, sources, v, k)
    ensures v in affected && affected[v] == k
    decreases k
  {
    if k > 0 {
      var w := Predecessor(step, sources, v, k);
      CompleteUpTo(step, sources, affected, queue, limit, d, w, k - 1);
      assert w !in Queued(queue);
    }
  }

  lemma PopFront(step: (Url, Url) -> bool, sources: set<Url>, affected: map<Url, nat>, queue: seq<Item>, limit: nat)
    requires queue != [] && Searching(step, sources, affected, queue, limit, {})
    ensures Searching(step, sources, affected, queue[1..], limit, {queue[0].url})
    ensures forall v, k: nat | k <= queue[0].depth && AtDistance(step, sources, v, k) :: v in affected
    ensures forall i | 0 <= i < |queue[1..]| :: queue[0].depth <= queue[1..][i].depth <= queue[0].depth + 1
  {
    var d := queue[0].depth;
    forall v, k: nat | k <= d && AtDistance(step, sources, v, k)
      ensures v in affected
    {
      CompleteUpTo(step, sources, affected, queue, limit, d, v, k);
    }
    forall u
      ensures u in Queued(queue) ==> u in Queued(queue[1..]) || u == queue[0].url
    {
      if u in Queued(queue) {
        var i :| 0 <= i < |queue| && queue[i].url == u;
        if i > 0 {
          assert queue[1..][i - 1].url == u;
        }
      }
    }
  }

  lemma PushBack(step: (Url, Url) -> bool, sources: set<Url>, affected: map<Url, nat>, queue: seq<Item>, limit: nat,
                 u: Url, d: nat, v: Url)
    requires Searching(step, sources, affected, queue, limit, {u})
    requires forall w, k: nat | k <= d && AtDistance(step, sources, w, k) :: w in affected
    requires forall i | 0 <= i < |queue| :: d <= queue[i].depth <= d + 1
    requires u in affected && affected[u] == d < limit && step(u, v) && v !in affected
    ensures Searching(step, sources, affected[v := d + 1], queue + [Item(v, d + 1)], limit, {u})
  {
    hide Queued;
    NewDistance(step, sources, affected, u, d, v);
    hide AtDistance;
    QueuedGrows(queue, Item(v, d + 1));
  }

  lemma NewDistance(step: (Url, Url) -> bool, sources: set<Url>, affected: map<Url, nat>, u: Url, d: nat, v: Url)
    requires forall w, k: nat | k <= d && AtDistance(step, sources, w, k) :: w in affected
    requires AtDistance(step, sources, u, d) && step(u, v) && v !in affected
    ensures AtDistance(step, sources, v, d + 1)
  {
    Successor(step, sources, u, v, d);
    var k: nat :| k <= d + 1 && AtDistance(step, sources, v, k);
    assert k == d + 1;
  }

  lemma {:induction false} SourcesMembers(edges: seq<LinkEdge>, u: Url, v: Url)
    ensures v in Sources(edges, u) <==> exists e :: e in edges && e.to == u && e.from == v
  {
    if edges != [] {
      var r, last := edges[..|edges| - 1], edges[|edges| - 1];
      assert edges == r + [last];
      SourcesMembers(r, u, v);
    }
  }

  lemma SourcesAreSteps(edges: seq<LinkEdge>, log: seq<LinkEdge>, u: Url, v: Url)
    requires forall e :: e in edges <==> e in log
    ensures v in Sources(edges, u) <==> Traversal.Step(log, Traversal.Inbound)(u, v)
  {
    SourcesMembers(edges, u, v);
    hide Sources;
    if e :| e in edges && e.to == u && e.from == v {
      assert Traversal.Links(e, Traversal.Inbound, u, v);
    }
    if Traversal.Step(log, Traversal.Inbound)(u, v) {
      var e :| e in log && Traversal.Links(e, Traversal.Inbound, u, v);
    }
  }

  /** The URLs from which a changed URL can be reached in at most limit hops, each at its hop count. */
  ghost predicate IsAffected(edges: seq<LinkEdge>, changed: seq<Url>, limit: nat, affected: map<Url, nat>)
  {
    forall v, k: nat :: (v in affected && affected[v] == k) <==>
      k <= limit && AtDistance(Traversal.Step(edges, Traversal.Inbound), Members(changed), v, k)
  }

  /** Every URL a search over these edges can meet. */
  ghost function Universe(edges: seq<LinkEdge>, changed: seq<Url>): set<Url>
  {
    Members(changed) + set e | e in edges :: e.from
  }

  method SeedQueue(changed: seq<Url>, ghost step: (Url, Url) -> bool, limit: nat)
    returns (affected: map<Url, nat>, queue: seq<Item>)
    ensures Searching(step, Members(changed), affected, queue, limit, {})
    ensures affected.Keys == Members(changed)
  {
    affected, queue := map[], [];
    for i := 0 to |changed|
      invariant forall v :: v in affected <==> v in changed[..i]
      invariant forall v | v in affected :: affected[v] == 0 && v in changed
      invariant forall j | 0 <= j < |queue| :: queue[j].url in affected && queue[j].depth == 0
      invariant forall v | v in affected :: v in Queued(queue)
    {
      if changed[i] !in affected {
        QueuedGrows(queue, Item(changed[i], 0));
        affected := affected[changed[i] := 0];
        queue := queue + [Item(changed[i], 0)];
      }
      assert changed[..i + 1] == changed[..i] + [changed[i]];
    }
    assert changed[..|changed|] == changed;
  }

  lemma QueuedGrows(queue: seq<Item>, x: Item)
    ensures Queued(queue + [x]) == Queued(queue) + {x.url}
  {
    var queue' := queue + [x];
    forall w
      ensures w in Queued(queue) + {x.url} ==> w in Queued(queue')
    {
      if w in Queued(queue) {
        var i :| 0 <= i < |queue| && queue[i].url == w;
        assert queue'[i].url == w;
      }
      assert queue'[|queue|].url == x.url;
    }
  }

  /** Expanding the URL just taken from the front of the queue. */
  method Expand(url: Url, depth: nat, inNodes: seq<Url>, affected0: map<Url, nat>, queue0: seq<Item>,
                ghost step: (Url, Url) -> bool, ghost sources: set<Url>, limit: nat, ghost universe: set<Url>)
    returns (affected: map<Url, nat>, queue: seq<Item>)
    requires Searching(step, sources, affected0, queue0, limit, {url})
    requires forall v, k: nat | k <= depth && AtDistance(step, sources, v, k) :: v in affected0
    requires forall i | 0 <= i < |queue0| :: depth <= queue0[i].depth <= depth + 1
    requires url in affected0 && affected0[url] == depth < limit
    requires forall v :: v in inNodes <==> step(url, v)
    requires affected0.Keys <= universe && forall v | v in inNodes :: v in universe
    ensures Searching(step, sources, affected, queue, limit, {})
    ensures affected0.Keys <= affected.Keys <= universe
    ensures affected.Keys == affected0.Keys ==> queue == queue0
  {
    hide AtDistance, Searching;
    affected, queue := affected0, queue0;
    for i := 0 to |inNodes|
      invariant Searching(step, sources, affected, queue, limit, {url})
      invariant affected0.Keys <= affected.Keys <= universe
      invariant affected.Keys == affected0.Keys ==> queue == queue0
      invariant forall j | 0 <= j < |queue| :: depth <= queue[j].depth <= depth + 1
      invariant url in affected && affected[url] == depth
      invariant forall j | 0 <= j < i :: inNodes[j] in affected
    {
      var v := inNodes[i];
      if v !in affected {
        PushBack(step, sources, affected, queue, limit, url, depth, v);
        affected := affected[v := depth + 1];
        queue := queue + [Item(v, depth + 1)];
      }
    }
    Expanded(step, sources, affected, queue, limit, url, inNodes);
  }

  lemma Expanded(step: (Url, Url) -> bool, sources: set<Url>, affected: map<Url, nat>, queue: seq<Item>, limit: nat,
                 url: Url, inNodes: seq<Url>)
    requires Searching(step, sources, affected, queue, limit, {url})
    requires forall v | step(url, v) :: v in inNodes
    requires forall i | 0 <= i < |inNodes| :: inNodes[i] in affected
    ensures Searching(step, sources, affected, queue, limit, {})
  {
    hide AtDistance, Queued;
  }

  /** The whole search; its result is the affected set and nothing else. */
  method AffectedUrls(edges: seq<LinkEdge>, incoming: map<Url, seq<Url>>, changed: seq<Url>, limit: nat,
                      ghost log: seq<LinkEdge>) returns (affected: map<Url, nat>)
    requires forall u :: ListIn(incoming, u) == Sources(edges, u)
    requires forall e :: e in edges <==> e in log
    ensures IsAffected(log, changed, limit, affected)
  {
    hide Traversal.Step, Traversal.Links, AtDistance, Queued;
    ghost var step := Traversal.Step(log, Traversal.Inbound);
    ghost var universe := Universe(log, changed);
    ghost var sources := Members(changed);
    var queue;
    affected, queue := SeedQueue(changed, step, limit);
    while queue != []
      invariant Searching(step, sources, affected, queue, limit, {})
      invariant affected.Keys <= universe
      decreases universe - affected.Keys, |queue|
    {
      var item := queue[0];
      PopFront(step, sources, affected, queue, limit);
      queue := queue[1..];
      if item.depth < limit {
        var inNodes := ListIn(incoming, item.url);
        SourcesWithin(edges, log, changed, item.url, inNodes);
        affected, queue := Expand(item.url, item.depth, inNodes, affected, queue, step, sources, limit, universe);
      }
    }
    AllFound(step, sources, affected, limit);
  }

  lemma SourcesWithin(edges: seq<LinkEdge>, log: seq<LinkEdge>, changed: seq<Url>, u: Url, inNodes: seq<Url>)
    requires inNodes == Sources(edges, u)
    requires forall e :: e in edges <==> e in log
    ensures forall v :: v in inNodes <==> Traversal.Step(log, Traversal.Inbound)(u, v)
    ensures forall v | v in inNodes :: v in Universe(log, changed)
  {
    forall v
      ensures v in inNodes <==> Traversal.Step(log, Traversal.Inbound)(u, v)
    {
      SourcesAreSteps(edges, log, u, v);
    }
  }

  lemma AllFound(step: (Url, Url) -> bool, sources: set<Url>, affected: map<Url, nat>, limit: nat)
    requires Searching(step, sources, affected, [], limit, {})
    ensures forall v, k: nat :: (v in affected && affected[v] == k) <==> k <= limit && AtDistance(step, sources, v, k)
  {
    forall v, k: nat | k <= limit && AtDistance(step, sources, v, k)
      ensures v in affected && affected[v] == k
    {
      CompleteUpTo(step, sources, affected, [], limit, limit, v, k);
    }
  }

  // ----- the computation

  /** The previous scores, with the base score for nodes that had none. */
  function Seeded(previous: Scores, keys: set<Url>, base: real): Scores
  {
    map u | u in previous.Keys + keys :: if u in previous then previous[u] else base
  }

  method Keys(m: map<Url, nat>) returns (keys: seq<Url>)
    ensures Members(keys) == m.Keys
  {
    keys := [];
    var left := m.Keys;
    while left != {}
      invariant left <= m.Keys && Members(keys) == m.Keys - left
      decreases left
    {
      var u :| u in left;
      assert Members(keys + [u]) == Members(keys) + {u};
      keys, left := keys + [u], left - {u};
    }
  }

  /** compute_pagerank_incremental: only the affected URLs are re-ranked, by
      the same rounds as in the full computation. */
  method ComputePagerankIncremental(g: InMemoryCrawlGraph, previous: Scores, changed: seq<Url>, iterations: nat,
                                    damping: real, limit: nat) returns (scores: Scores, ghost affected: map<Url, nat>)
    requires g.Valid()
    ensures g.urls == map[] ==> scores == map[]
    ensures IsAffected(g.log, changed, limit, affected)
    ensures g.urls != map[] ==>
              var base := Base(g.urls.Keys, damping);
              var rounds := if iterations == 0 then 1 else iterations;
              scores == Iterate(affected.Keys, g.log, damping, base, Seeded(previous, g.urls.Keys, base), rounds)
  {
    hide Base, IsAffected, Indexes, Inflow, Seeded, Members;
    var records := g.GetUrls();
    var nodes := Names(records);
    var edges := g.GetAllLinks();
    var outDegree, incoming := IndexEdges(edges);
    IncomingLists(edges, outDegree, incoming);
    SameMembers(edges, g.log);
    var found := AffectedUrls(edges, incoming, changed, limit, g.log);
    affected := found;
    if |nodes| == 0 {
      NoNodes(nodes, g.urls.Keys);
      return map[], found;
    }
    SizesAgree(nodes, g.urls.Keys, damping);
    var base := (1.0 - damping) / |nodes| as real;
    var start := Seeded(previous, g.urls.Keys, base);
    var active := Keys(found);
    scores := Rounds(active, edges, outDegree, incoming, damping, base, start, iterations);
    IteratePermute(found.Keys, edges, g.log, damping, base, start, if iterations == 0 then 1 else iterations);
  }

  lemma IncomingLists(edges: seq<LinkEdge>, outDegree: map<Url, nat>, incoming: map<Url, seq<Url>>)
    requires Indexes(edges, outDegree, incoming)
    ensures forall u :: ListIn(incoming, u) == Sources(edges, u)
  {
  }

  lemma NoNodes(nodes: seq<Url>, keys: set<Url>)
    requires Enumerates(nodes, keys) && nodes == []
    ensures keys == {}
  {
    assert forall u :: u in keys ==> u in nodes;
  }

  lemma SameMembers(a: seq<LinkEdge>, b: seq<LinkEdge>)
    requires multiset(a) == multiset(b)
    ensures forall e :: e in a <==> e in b
  {
    assert forall e :: e in a <==> e in multiset(a);
    assert forall e :: e in b <==> e in multiset(b);
  }

  // ----- what the incremental form keeps

  /** No URL outside the affected set changes its score. */
  lemma {:induction false} OutsideUnchanged(active: set<Url>, edges: seq<LinkEdge>, damping: real, base: real, start: Scores,
                                            rounds: nat, u: Url)
    requires u !in active
    ensures Get(Iterate(active, edges, damping, base, start, rounds))(u) == Get(start)(u)
  {
    if rounds > 0 {
      OutsideUnchanged(active, edges, damping, base, start, rounds - 1, u);
      RoundAt(active, edges, damping, base, Iterate(active, edges, damping, base, start, rounds - 1), u);
    }
  }

  /** Scores that already satisfy the rank equation at every affected URL are left exactly as they are. */
  lemma ConsistentUnchanged(active: set<Url>, edges: seq<LinkEdge>, damping: real, base: real, start: Scores, rounds: nat)
    requires forall u | u in active :: u in start && start[u] == base + Inflow(edges, damping, Get(start), u)
    ensures Iterate(active, edges, damping, base, start, rounds) == start
  {
    assert Round(active, edges, damping, base, start) == start by {
      hide Inflow;
    }
    FixedPointStays(active, edges, damping, base, start, rounds);
  }

  // ----- when the incremental form finds the ranks of the graph

  /** No URL that is not a node feeds an affected node: one with an edge into it
      is not affected itself and has no score in what is handed in. */
  ghost predicate NoStrayFeed(keys: set<Url>, active: set<Url>, edges: seq<LinkEdge>, start: Scores)
  {
    forall e | e in edges && e.from !in keys && e.to in active * keys :: !Feeds(active, start, e.from)
  }

  /** The URL has a score in the incremental rounds. */
  predicate Feeds(active: set<Url>, start: Scores, v: Url)
  {
    v in active || Get(start)(v) != 0.0
  }

  /** The URLs with a score in any round. */
  function Scored(keys: set<Url>, active: set<Url>, start: Scores): set<Url>
  {
    keys + (active + start.Keys)
  }

  lemma OutsideOnly(keys: set<Url>, active: set<Url>, edges: seq<LinkEdge>, damping: real, start: Scores, x: Scores, r: Scores, u: Url)
    requires NoStrayFeed(keys, active, edges, start) && u in active * keys && r.Keys == keys
    requires forall v | v in keys :: Get(x)(v) == Get(r)(v)
    requires forall v | v !in keys + active :: Get(x)(v) == Get(start)(v)
    ensures Inflow(edges, damping, Get(x), u) == Inflow(edges, damping, Get(r), u)
  {
    hide Share;
    forall e | e in edges
      ensures Arrives(edges, damping, Get(x), u, e) == Arrives(edges, damping, Get(r), u, e)
    {
      if e.to == u {
        assert e.from !in keys ==> !Feeds(active, start, e.from);
        SameShare(edges, damping, Get(x), Get(r), e.from);
      }
    }
    SumEq(edges, e => Arrives(edges, damping, Get(x), u, e), e => Arrives(edges, damping, Get(r), u, e));
  }

  /** The ranks at the nodes, and the scores handed in elsewhere. */
  function Overlay(keys: set<Url>, all: set<Url>, r: Scores, start: Scores): Scores
  {
    map u | u in all :: if u in keys then Get(r)(u) else Get(start)(u)
  }

  /** The ranks, continued to the affected URLs that are not nodes, solve the incremental system. */
  lemma RanksContinue(all: seq<Url>, keys: set<Url>, active: set<Url>, edges: seq<LinkEdge>, damping: real, start: Scores, r: Scores)
    returns (x: Scores)
    requires keys != {} && Enumerates(all, Scored(keys, active, start)) && 0.0 <= damping < 1.0
    requires IsFixedPoint(keys, edges, damping, r)
    requires AgreeOutside(keys, active, start, r) && NoStrayFeed(keys, active, edges, start)
    ensures Solves(Scored(keys, active, start), active, edges, damping, Base(keys, damping), start, x)
    ensures forall u | u in keys :: Get(x)(u) == Get(r)(u)
  {
    hide Inflow, Base, IsFixedPoint, NoStrayFeed, Enumerates;
    var base, scored := Base(keys, damping), Scored(keys, active, start);
    var fixed := Overlay(keys, scored, r, start);
    x := SolutionExists(all, scored, active - keys, edges, damping, base, fixed);
    forall u | u in scored && u !in active - keys
      ensures Get(x)(u) == if u in keys then Get(r)(u) else Get(start)(u)
    {
      assert u in scored - (active - keys);
    }
    RanksAt(keys, edges, damping, r);
    forall u | u in active
      ensures Get(x)(u) == base + Inflow(edges, damping, Get(x), u)
    {
      if u in keys {
        OutsideOnly(keys, active, edges, damping, start, x, r, u);
      } else {
        assert u in active - keys;
      }
    }
    assert AgreeOutside(scored, active, start, x);
  }

  lemma RanksAt(keys: set<Url>, edges: seq<LinkEdge>, damping: real, r: Scores)
    requires keys != {} && IsFixedPoint(keys, edges, damping, r)
    ensures r.Keys == keys && forall u | u in keys :: Get(r)(u) == Base(keys, damping) + Inflow(edges, damping, Get(r), u)
  {
    FixedPointSolves(keys, edges, damping, r, r);
  }

  /** Convergence on a list of URLs is convergence on a part of it. */
  lemma ConvergesOnPart(nodes: seq<Url>, extra: seq<Url>, active: set<Url>, edges: seq<LinkEdge>, damping: real, base: real,
                        start: Scores, x: Scores, r: Scores)
    requires Converges(nodes + extra, active, edges, damping, base, start, x)
    requires forall u | u in nodes :: Get(x)(u) == Get(r)(u)
    ensures Converges(nodes, active, edges, damping, base, start, r)
  {
    hide Iterate, Get, Gap, WithinFrom;
    forall eps: real | eps > 0.0
      ensures Settles(nodes, active, edges, damping, base, start, r, eps)
    {
      assert Settles(nodes + extra, active, edges, damping, base, start, x, eps);
      var k0: nat :| WithinFrom(nodes + extra, active, edges, damping, base, start, x, eps, k0);
      WithinOnPart(nodes, extra, active, edges, damping, base, start, x, r, eps, k0);
    }
  }

  lemma WithinOnPart(nodes: seq<Url>, extra: seq<Url>, active: set<Url>, edges: seq<LinkEdge>, damping: real, base: real,
                     start: Scores, x: Scores, r: Scores, eps: real, k0: nat)
    requires WithinFrom(nodes + extra, active, edges, damping, base, start, x, eps, k0)
    requires forall u | u in nodes :: Get(x)(u) == Get(r)(u)
    ensures WithinFrom(nodes, active, edges, damping, base, start, r, eps, k0)
  {
    hide Iterate, Get, Gap;
    forall k: nat | k >= k0
      ensures Gap(nodes, Iterate(active, edges, damping, base, start, k), r) < eps
    {
      GapOnPart(nodes, extra, Iterate(active, edges, damping, base, start, k), x, r);
    }
  }

  lemma GapOnPart(nodes: seq<Url>, extra: seq<Url>, s: Scores, x: Scores, r: Scores)
    requires forall u | u in nodes :: Get(x)(u) == Get(r)(u)
    ensures Gap(nodes, s, r) <= Gap(nodes + extra, s, x)
  {
    hide Get;
    forall u | u in nodes
      ensures Distance(s, r)(u) == Distance(s, x)(u)
    {
      DistanceAt(s, r, u);
      DistanceAt(s, x, u);
    }
    SumEq(nodes, Distance(s, r), Distance(s, x));
    SumAppend(nodes, extra, Distance(s, x));
    GapNonNegative(extra, s, x);
  }

  lemma Extend(nodes: seq<Url>, keys: set<Url>, more: set<Url>) returns (extra: seq<Url>)
    requires Enumerates(nodes, keys)
    ensures Enumerates(nodes + extra, keys + more)
  {
    extra := Enumeration(more - keys);
    var all := nodes + extra;
    forall i, j | 0 <= i < j < |all|
      ensures all[i] != all[j]
    {
      assert all[i] in nodes || all[i] in extra;
      if i < |nodes| <= j {
        assert all[i] in keys && all[j] in extra;
      }
    }
    assert forall u :: u in all <==> u in nodes || u in extra;
  }

  /** Scores that are right outside the affected set recover, unless a stray URL feeds in. */
  lemma RecoversWhenRightOutside(nodes: seq<Url>, keys: set<Url>, active: set<Url>, edges: seq<LinkEdge>, damping: real, start: Scores)
    requires keys != {} && Enumerates(nodes, keys) && 0.0 <= damping < 1.0
    requires AgreeOutside(keys, active, start, Ranks(keys, edges, damping)) && NoStrayFeed(keys, active, edges, start)
    ensures Converges(nodes, active, edges, damping, Base(keys, damping), start, Ranks(keys, edges, damping))
  {
    hide Base, Converges, Solves, IsFixedPoint, NoStrayFeed;
    var r, base := Ranks(keys, edges, damping), Base(keys, damping);
    var extra := Extend(nodes, keys, active + start.Keys);
    var x := RanksContinue(nodes + extra, keys, active, edges, damping, start, r);
    ConvergesToSolution(nodes + extra, Scored(keys, active, start), active, edges, damping, base, start, x);
    ConvergesOnPart(nodes, extra, active, edges, damping, base, start, x, r);
  }

  /** If the scores converge to the ranks, the solution of the incremental system is the ranks on the nodes. */
  lemma SolutionIsRanks(nodes: seq<Url>, keys: set<Url>, active: set<Url>, edges: seq<LinkEdge>, damping: real, start: Scores)
    returns (x: Scores)
    requires keys != {} && Enumerates(nodes, keys) && 0.0 <= damping < 1.0
    requires Converges(nodes, active, edges, damping, Base(keys, damping), start, Ranks(keys, edges, damping))
    ensures Solves(Scored(keys, active, start), active, edges, damping, Base(keys, damping), start, x)
    ensures forall u | u in keys :: Get(x)(u) == Get(Ranks(keys, edges, damping))(u)
  {
    hide Base, Converges, Solves, IsFixedPoint, Get;
    var r, base := Ranks(keys, edges, damping), Base(keys, damping);
    var scored := Scored(keys, active, start);
    var extra := Extend(nodes, keys, active + start.Keys);
    x := SolutionExists(nodes + extra, scored, active, edges, damping, base, start);
    ConvergesToSolution(nodes + extra, scored, active, edges, damping, base, start, x);
    forall u | u in keys
      ensures Get(x)(u) == Get(r)(u)
    {
      LimitsAgree(nodes + extra, nodes, active, edges, damping, base, start, x, r, u);
    }
  }

  /** No score of a URL that is not a node is negative. */
  ghost predicate StraysNonNegative(keys: set<Url>, start: Scores)
  {
    forall v | v in start && v !in keys :: start[v] >= 0.0
  }

  /** The ranks are positive. */
  lemma RanksPositive(keys: set<Url>, edges: seq<LinkEdge>, damping: real, r: Scores)
    requires keys != {} && 0.0 <= damping < 1.0 && IsFixedPoint(keys, edges, damping, r)
    ensures forall v :: Get(r)(v) >= 0.0
    ensures forall v | v in keys :: Get(r)(v) >= Base(keys, damping) > 0.0
  {
    hide Inflow, Base, IsFixedPoint, Responds;
    var nodes := Enumeration(keys);
    var base := Base(keys, damping);
    BasePositive(keys, damping);
    RanksAt(keys, edges, damping, r);
    RanksRespondToBase(keys, edges, damping, r);
    ResponseNonNegative(nodes, keys, edges, damping, u => base, Get(r));
    forall v | v in keys
      ensures Get(r)(v) >= base
    {
      InflowNonNegative(edges, damping, Get(r), v);
    }
  }

  lemma RanksRespondToBase(keys: set<Url>, edges: seq<LinkEdge>, damping: real, r: Scores)
    requires keys != {} && IsFixedPoint(keys, edges, damping, r)
    ensures var base := Base(keys, damping); Responds(keys, edges, damping, u => base, Get(r))
  {
    RanksAt(keys, edges, damping, r);
  }

  /** A URL that is not a node and has a score at all has a positive one in the incremental system. */
  lemma StrayPositive(keys: set<Url>, active: set<Url>, edges: seq<LinkEdge>, damping: real, start: Scores, r: Scores, x: Scores, w: Url)
    requires keys != {} && 0.0 <= damping < 1.0 && IsFixedPoint(keys, edges, damping, r) && StraysNonNegative(keys, start)
    requires Solves(Scored(keys, active, start), active, edges, damping, Base(keys, damping), start, x)
    requires forall u | u in keys :: Get(x)(u) == Get(r)(u)
    requires w !in keys && Feeds(active, start, w)
    ensures Get(x)(w) > 0.0 && forall v :: Get(x)(v) >= 0.0
  {
    hide Inflow, Base, IsFixedPoint;
    var stray := active - keys;
    var nodes := Enumeration(stray);
    var base := Base(keys, damping);
    BasePositive(keys, damping);
    RanksPositive(keys, edges, damping, r);
    var z: Url -> real := v => if v in stray then Get(x)(v) else 0.0;
    var fixed: Url -> real := v => if v in stray then 0.0 else Get(x)(v);
    var inflow: Url -> real := u => base + Inflow(edges, damping, fixed, u);
    forall v
      ensures fixed(v) >= 0.0
    {
      FixedScore(keys, active, start, x, v);
    }
    StrayResponds(keys, active, edges, damping, start, x, z, fixed, inflow);
    forall u
      ensures inflow(u) > 0.0
    {
      InflowNonNegative(edges, damping, fixed, u);
    }
    ResponseNonNegative(nodes, stray, edges, damping, inflow, z);
    InflowNonNegative(edges, damping, z, w);
    FixedScore(keys, active, start, x, w);
    forall v
      ensures Get(x)(v) >= 0.0
    {
      assert v in stray ==> z(v) == Get(x)(v);
      assert v !in stray ==> fixed(v) == Get(x)(v);
    }
    assert w in stray ==> z(w) == inflow(w) + Inflow(edges, damping, z, w);
  }

  /** A URL that is neither a node nor affected keeps the score handed in. */
  lemma FixedScore(keys: set<Url>, active: set<Url>, start: Scores, x: Scores, v: Url)
    requires x.Keys == Scored(keys, active, start) && AgreeOutside(Scored(keys, active, start), active, start, x)
    ensures v !in keys + active ==> Get(x)(v) == Get(start)(v)
  {
    if v in start && v !in keys + active {
      assert v in Scored(keys, active, start) - active;
    }
  }

  lemma StrayResponds(keys: set<Url>, active: set<Url>, edges: seq<LinkEdge>, damping: real, start: Scores, x: Scores,
                      z: Url -> real, fixed: Url -> real, inflow: Url -> real)
    requires keys != {}
    requires Solves(Scored(keys, active, start), active, edges, damping, Base(keys, damping), start, x)
    requires forall v :: z(v) == if v in active - keys then Get(x)(v) else 0.0
    requires forall v :: fixed(v) == if v in active - keys then 0.0 else Get(x)(v)
    requires forall u :: inflow(u) == Base(keys, damping) + Inflow(edges, damping, fixed, u)
    ensures Responds(active - keys, edges, damping, inflow, z)
  {
    hide Inflow, Base;
    forall u | u in active - keys
      ensures z(u) == inflow(u) + Inflow(edges, damping, z, u)
    {
      forall v
        ensures Get(x)(v) == 1.0 * fixed(v) + 1.0 * z(v)
      {
      }
      InflowLinear(edges, damping, 1.0, fixed, 1.0, z, Get(x), u);
    }
  }

  /** A stray URL that feeds an affected node lifts it above its rank. */
  lemma StrayFeedLifts(keys: set<Url>, active: set<Url>, edges: seq<LinkEdge>, damping: real, start: Scores, r: Scores, x: Scores,
                       e: LinkEdge)
    requires keys != {} && 0.0 < damping < 1.0 && IsFixedPoint(keys, edges, damping, r) && StraysNonNegative(keys, start)
    requires Solves(Scored(keys, active, start), active, edges, damping, Base(keys, damping), start, x)
    requires e in edges && e.from !in keys && e.to in active * keys && Feeds(active, start, e.from)
    ensures exists u :: u in keys && Get(x)(u) != Get(r)(u)
  {
    hide Inflow, Base, IsFixedPoint;
    if forall u | u in keys :: Get(x)(u) == Get(r)(u) {
      RanksAt(keys, edges, damping, r);
      StrayPositive(keys, active, edges, damping, start, r, x, e.from);
      var z: Url -> real := v => Get(x)(v) - Get(r)(v);
      forall v
        ensures z(v) >= 0.0
      {
      }
      InflowLinear(edges, damping, 1.0, Get(x), -1.0, Get(r), z, e.to);
      EdgeBrings(edges, damping, z, e);
      assert false;
    }
  }

  /** For any affected set and any scores handed in, URLs that are no nodes
      included: the incremental scores converge to the ranks of the graph if and
      only if the scores handed in are already right at every node outside the set
      and no URL that is not a node feeds an affected node. */
  lemma ConvergesIffRightOutside(nodes: seq<Url>, keys: set<Url>, active: set<Url>, edges: seq<LinkEdge>, damping: real, start: Scores)
    requires keys != {} && Enumerates(nodes, keys) && StraysNonNegative(keys, start) && 0.0 < damping < 1.0
    ensures Converges(nodes, active, edges, damping, Base(keys, damping), start, Ranks(keys, edges, damping))
       <==> AgreeOutside(keys, active, start, Ranks(keys, edges, damping)) && NoStrayFeed(keys, active, edges, start)
  {
    hide Base, Converges, IsFixedPoint, Enumerates, Get, Feeds;
    var r := Ranks(keys, edges, damping);
    if Converges(nodes, active, edges, damping, Base(keys, damping), start, r) {
      var x := SolutionIsRanks(nodes, keys, active, edges, damping, start);
      forall u | u in keys - active
        ensures Get(start)(u) == Get(r)(u)
      {
        assert u in Scored(keys, active, start) - active;
      }
      forall e | e in edges && e.from !in keys && e.to in active * keys
        ensures !Feeds(active, start, e.from)
      {
        if Feeds(active, start, e.from) {
          StrayFeedLifts(keys, active, edges, damping, start, r, x, e);
        }
      }
    }
    if AgreeOutside(keys, active, start, r) && NoStrayFeed(keys, active, edges, start) {
      RecoversWhenRightOutside(nodes, keys, active, edges, damping, start);
    }
  }

  // ----- the same in terms of what is handed in

  /** The scores handed in for the nodes. */
  function OnNodes(keys: set<Url>, start: Scores): Scores
  {
    map u | u in keys :: Get(start)(u)
  }

  /** By how much the scores handed in miss the rank equation at a node. */
  function Residual(keys: set<Url>, edges: seq<LinkEdge>, damping: real, start: Scores): Url -> real
    requires keys != {}
  {
    var base := Base(keys, damping);
    u => if u in keys then base + Inflow(edges, damping, Get(start), u) - Get(start)(u) else 0.0
  }

  /** The nodes at which they miss it. */
  ghost function Disturbed(keys: set<Url>, edges: seq<LinkEdge>, damping: real, start: Scores): set<Url>
    requires keys != {}
  {
    set u | u in keys && Residual(keys, edges, damping, start)(u) != 0.0
  }

  /** Every node downstream of the sources is in the set. */
  ghost predicate Encloses(keys: set<Url>, active: set<Url>, edges: seq<LinkEdge>, sources: set<Url>)
  {
    forall v | v in keys && Downstream(keys, edges, sources, v) :: v in active
  }

  /** How far the scores handed in are from the ranks, node by node. */
  function Error(keys: set<Url>, r: Scores, start: Scores): Url -> real
  {
    v => Get(r)(v) - Get(start)(v)
  }

  /** The error is the response to the residual. */
  lemma ErrorResponds(keys: set<Url>, edges: seq<LinkEdge>, damping: real, start: Scores, r: Scores)
    requires keys != {} && start.Keys == keys && IsFixedPoint(keys, edges, damping, r)
    ensures Responds(keys, edges, damping, Residual(keys, edges, damping, start), Error(keys, r, start))
  {
    hide Inflow, Base, IsFixedPoint;
    RanksAt(keys, edges, damping, r);
    forall u | u in keys
      ensures Error(keys, r, start)(u) == Residual(keys, edges, damping, start)(u) + Inflow(edges, damping, Error(keys, r, start), u)
    {
      InflowLinear(edges, damping, 1.0, Get(r), -1.0, Get(start), Error(keys, r, start), u);
    }
  }

  /** Whatever changed: if every node downstream of a node at which the scores
      handed in miss the rank equation is affected, they are right outside. */
  lemma RightOutsideWhenEnclosed(keys: set<Url>, active: set<Url>, edges: seq<LinkEdge>, damping: real, start: Scores, r: Scores,
                                 sources: set<Url>)
    requires keys != {} && start.Keys == keys && 0.0 <= damping < 1.0 && IsFixedPoint(keys, edges, damping, r)
    requires Disturbed(keys, edges, damping, start) <= sources && Encloses(keys, active, edges, sources)
    ensures AgreeOutside(keys, active, start, r)
  {
    hide Residual, Responds, Downstream, IsFixedPoint, Base;
    var nodes := Enumeration(keys);
    ErrorResponds(keys, edges, damping, start, r);
    forall u | u in keys && u !in sources
      ensures Residual(keys, edges, damping, start)(u) == 0.0
    {
      assert u !in Disturbed(keys, edges, damping, start);
    }
    ResponseStaysDownstream(nodes, keys, edges, damping, Residual(keys, edges, damping, start), Error(keys, r, start), sources);
    forall u | u in keys - active
      ensures Get(start)(u) == Get(r)(u)
    {
      assert Error(keys, r, start)(u) == 0.0;
    }
  }

  /** So the incremental computation converges to the ranks. */
  lemma RecoversWhenEnclosed(nodes: seq<Url>, keys: set<Url>, active: set<Url>, edges: seq<LinkEdge>, damping: real, start: Scores,
                             sources: set<Url>)
    requires keys != {} && Enumerates(nodes, keys) && 0.0 <= damping < 1.0
    requires Disturbed(keys, edges, damping, OnNodes(keys, start)) <= sources && Encloses(keys, active, edges, sources)
    requires NoStrayFeed(keys, active, edges, start)
    ensures Converges(nodes, active, edges, damping, Base(keys, damping), start, Ranks(keys, edges, damping))
  {
    hide Base, Converges, IsFixedPoint, NoStrayFeed, Encloses, AgreeOutside, Disturbed;
    RightOutsideWhenEnclosed(keys, active, edges, damping, OnNodes(keys, start), Ranks(keys, edges, damping), sources);
    OutsideOnNodes(keys, active, start, Ranks(keys, edges, damping));
    RecoversWhenRightOutside(nodes, keys, active, edges, damping, start);
  }

  lemma OutsideOnNodes(keys: set<Url>, active: set<Url>, start: Scores, r: Scores)
    ensures AgreeOutside(keys, active, OnNodes(keys, start), r) <==> AgreeOutside(keys, active, start, r)
  {
    forall u | u in keys
      ensures Get(OnNodes(keys, start))(u) == Get(start)(u)
    {
    }
  }

  /** The scores handed in miss the rank equation on one side only. */
  ghost predicate OneSided(keys: set<Url>, edges: seq<LinkEdge>, damping: real, start: Scores)
    requires keys != {}
  {
    || (forall u | u in keys :: Residual(keys, edges, damping, start)(u) >= 0.0)
    || (forall u | u in keys :: Residual(keys, edges, damping, start)(u) <= 0.0)
  }

  /** Missing it on one side, no two errors cancel: every node downstream is wrong. */
  lemma WrongDownstream(keys: set<Url>, edges: seq<LinkEdge>, damping: real, start: Scores, r: Scores, v: Url)
    requires keys != {} && start.Keys == keys && 0.0 < damping < 1.0 && IsFixedPoint(keys, edges, damping, r)
    requires OneSided(keys, edges, damping, start) && Downstream(keys, edges, Disturbed(keys, edges, damping, start), v)
    ensures v in keys && Get(start)(v) != Get(r)(v)
  {
    hide IsFixedPoint, Base, Inflow, Residual, Get, Forward;
    var nodes := Enumeration(keys);
    var c, x := Residual(keys, edges, damping, start), Error(keys, r, start);
    var n: nat :| Reaches(Forward(keys, edges), Disturbed(keys, edges, damping, start), v, n);
    ErrorResponds(keys, edges, damping, start, r);
    if forall u | u in keys :: c(u) >= 0.0 {
      ResponseNonNegative(nodes, keys, edges, damping, c, x);
      ResponsePositive(keys, edges, damping, c, x, Disturbed(keys, edges, damping, start), v, n);
    } else {
      var c', x': Url -> real := u => -c(u), u => -x(u);
      MirrorResponds(keys, edges, damping, c, x, c', x');
      ResponseNonNegative(nodes, keys, edges, damping, c', x');
      ResponsePositive(keys, edges, damping, c', x', Disturbed(keys, edges, damping, start), v, n);
    }
  }

  lemma MirrorResponds(keys: set<Url>, edges: seq<LinkEdge>, damping: real, c: Url -> real, x: Url -> real, c': Url -> real,
                       x': Url -> real)
    requires Responds(keys, edges, damping, c, x)
    requires forall u :: c'(u) == -c(u) && x'(u) == -x(u)
    ensures Responds(keys, edges, damping, c', x')
  {
    hide Inflow;
    forall u | u in keys
      ensures x'(u) == c'(u) + Inflow(edges, damping, x', u)
    {
      InflowLinear(edges, damping, -1.0, x, 0.0, x, x', u);
    }
  }

  /** When the scores handed in miss the rank equation on one side only, the
      incremental computation converges to the ranks of the graph if and only if
      every node downstream of a node at which they miss it is affected and no URL
      that is not a node feeds an affected node. One round over the nodes and a
      walk along the edges check it before the call. */
  lemma ConvergesIff(nodes: seq<Url>, keys: set<Url>, active: set<Url>, edges: seq<LinkEdge>, damping: real, start: Scores)
    requires keys != {} && Enumerates(nodes, keys) && StraysNonNegative(keys, start) && 0.0 < damping < 1.0
    requires OneSided(keys, edges, damping, OnNodes(keys, start))
    ensures Converges(nodes, active, edges, damping, Base(keys, damping), start, Ranks(keys, edges, damping))
       <==> && Encloses(keys, active, edges, Disturbed(keys, edges, damping, OnNodes(keys, start)))
            && NoStrayFeed(keys, active, edges, start)
  {
    hide Base, Converges, IsFixedPoint, NoStrayFeed, OneSided, Disturbed, Downstream, StraysNonNegative;
    var r, known := Ranks(keys, edges, damping), OnNodes(keys, start);
    ConvergesIffRightOutside(nodes, keys, active, edges, damping, start);
    OutsideOnNodes(keys, active, start, r);
    if AgreeOutside(keys, active, known, r) {
      forall v | v in keys && Downstream(keys, edges, Disturbed(keys, edges, damping, known), v)
        ensures v in active
      {
        WrongDownstream(keys, edges, damping, known, r, v);
      }
    }
    if Encloses(keys, active, edges, Disturbed(keys, edges, damping, known)) {
      RightOutsideWhenEnclosed(keys, active, edges, damping, known, r, Disturbed(keys, edges, damping, known));
    }
  }

  // ----- the documented use: new edges in an existing graph

  /** The nodes that new edges lead to from nodes. */
  function Targets(keys: set<Url>, added: seq<LinkEdge>): set<Url>
  {
    set e | e in added && e.from in keys && e.to in keys :: e.to
  }

  /** The new edges leave URLs that had no edges. */
  predicate FromDangling(former: seq<LinkEdge>, added: seq<LinkEdge>)
  {
    forall e, d | e in added && d in former :: d.from != e.from
  }

  lemma {:induction false} OutDegreeAppend(a: seq<LinkEdge>, b: seq<LinkEdge>, u: Url)
    ensures OutDegree(a + b, u) == OutDegree(a, u) + OutDegree(b, u)
  {
    if b == [] {
      assert a + b == a;
    } else {
      OutDegreeAppend(a, b[..|b| - 1], u);
      assert (a + b)[..|a + b| - 1] == a + b[..|b| - 1];
    }
  }

  /** The old edges bring what they brought before. */
  lemma OldInflow(former: seq<LinkEdge>, added: seq<LinkEdge>, damping: real, x: Url -> real, u: Url)
    requires FromDangling(former, added)
    ensures Inflow(former + added, damping, x, u) == Inflow(former, damping, x, u) + InflowOver(added, former + added, damping, x, u)
  {
    forall e | e in former
      ensures Arrives(former + added, damping, x, u, e) == Arrives(former, damping, x, u, e)
    {
      OutDegreeAppend(former, added, e.from);
      NoEdges(added, e.from);
    }
    SumAppend(former, added, e => Arrives(former + added, damping, x, u, e));
    SumEq(former, e => Arrives(former + added, damping, x, u, e), e => Arrives(former, damping, x, u, e));
  }

  /** The new ones bring something to their targets and nothing elsewhere. */
  lemma NewInflow(keys: set<Url>, former: seq<LinkEdge>, added: seq<LinkEdge>, damping: real, x: Url -> real, u: Url)
    requires 0.0 < damping && u in keys && (forall v | v in keys :: x(v) > 0.0) && forall v | v !in keys :: x(v) == 0.0
    ensures InflowOver(added, former + added, damping, x, u) >= 0.0
    ensures InflowOver(added, former + added, damping, x, u) > 0.0 <==> u in Targets(keys, added)
  {
    var edges := former + added;
    forall e: LinkEdge
      ensures Arrives(edges, damping, x, u, e) >= 0.0
      ensures Arrives(edges, damping, x, u, e) > 0.0 <==> e.to == u && e.from in keys
    {
      ShareNonNegative(edges, damping, x, e.from);
      if e.from in keys {
        SharePositive(edges, damping, x, e.from);
      } else {
        ShareZero(edges, damping, x, e.from);
      }
    }
    SumConst(added, 0.0, e => 0.0);
    if u in Targets(keys, added) {
      var e :| e in added && e.from in keys && e.to in keys && e.to == u;
      SumLt(added, e => 0.0, e => Arrives(edges, damping, x, u, e), e);
    } else {
      SumLe(added, e => 0.0, e => Arrives(edges, damping, x, u, e));
      SumLe(added, e => Arrives(edges, damping, x, u, e), e => 0.0);
    }
  }

  lemma ShareZero(edges: seq<LinkEdge>, damping: real, x: Url -> real, v: Url)
    requires x(v) == 0.0
    ensures Share(edges, damping, x, v) == 0.0
  {
    hide Portion;
    PortionOfNothing(damping, Fanout(edges, v));
  }

  /** The old ranks miss the new rank equation from below, exactly at the targets. */
  lemma AddedResidual(keys: set<Url>, former: seq<LinkEdge>, added: seq<LinkEdge>, damping: real, start: Scores)
    requires keys != {} && 0.0 < damping < 1.0 && FromDangling(former, added) && IsFixedPoint(keys, former, damping, start)
    ensures OneSided(keys, former + added, damping, start)
    ensures Disturbed(keys, former + added, damping, start) == Targets(keys, added)
  {
    hide Inflow, InflowOver, Base, IsFixedPoint;
    RanksAt(keys, former, damping, start);
    RanksPositive(keys, former, damping, start);
    forall u | u in keys
      ensures Residual(keys, former + added, damping, start)(u) >= 0.0
      ensures Residual(keys, former + added, damping, start)(u) != 0.0 <==> u in Targets(keys, added)
    {
      OldInflow(former, added, damping, Get(start), u);
      NewInflow(keys, former, added, damping, Get(start), u);
    }
  }

  /** Edges are added to a graph whose ranks are at hand, from nodes that had
      none: the incremental computation converges to the new ranks if and only if
      every node downstream of the new edges' targets is affected and no URL that
      is not a node feeds an affected node. */
  lemma AddedEdgesConvergeIff(nodes: seq<Url>, keys: set<Url>, active: set<Url>, former: seq<LinkEdge>, added: seq<LinkEdge>,
                              damping: real, start: Scores)
    requires keys != {} && Enumerates(nodes, keys) && StraysNonNegative(keys, start) && 0.0 < damping < 1.0
    requires FromDangling(former, added) && IsFixedPoint(keys, former, damping, OnNodes(keys, start))
    ensures Converges(nodes, active, former + added, damping, Base(keys, damping), start, Ranks(keys, former + added, damping))
       <==> Encloses(keys, active, former + added, Targets(keys, added)) && NoStrayFeed(keys, active, former + added, start)
  {
    hide Base, Converges, NoStrayFeed, OneSided, Disturbed, Encloses, Round, StraysNonNegative;
    AddedResidual(keys, former, added, damping, OnNodes(keys, start));
    ConvergesIff(nodes, keys, active, former + added, damping, start);
  }

  /** The nodes that an edge leads to, old or new, from a node that new edges leave. */
  function Touched(keys: set<Url>, former: seq<LinkEdge>, added: seq<LinkEdge>): set<Url>
  {
    set e, d | e in former + added && d in added && d.from == e.from && e.from in keys && e.to in keys :: e.to
  }

  /** Only such nodes receive anything else than before. */
  lemma UntouchedInflow(keys: set<Url>, former: seq<LinkEdge>, added: seq<LinkEdge>, damping: real, x: Url -> real, u: Url)
    requires u in keys && u !in Touched(keys, former, added) && forall v | v !in keys :: x(v) == 0.0
    ensures Inflow(former + added, damping, x, u) == Inflow(former, damping, x, u)
  {
    var edges := former + added;
    forall e | e in edges
      ensures e in added ==> Arrives(edges, damping, x, u, e) == 0.0
      ensures Arrives(edges, damping, x, u, e) == Arrives(former, damping, x, u, e)
    {
      if e.to == u {
        if e.from !in keys {
          ShareZero(edges, damping, x, e.from);
          ShareZero(former, damping, x, e.from);
        } else {
          assert forall d | d in added :: d.from != e.from;
          OutDegreeAppend(former, added, e.from);
          NoEdges(added, e.from);
        }
      }
    }
    SumAppend(former, added, e => Arrives(edges, damping, x, u, e));
    SumEq(former, e => Arrives(edges, damping, x, u, e), e => Arrives(former, damping, x, u, e));
    SumEq(added, e => Arrives(edges, damping, x, u, e), e => 0.0);
    SumConst(added, 0.0, e => 0.0);
  }

  /** Edges are added to a graph whose ranks are at hand, from any nodes: the
      incremental computation converges to the new ranks when every node
      downstream of what the edges' sources link to is affected and no URL that is
      not a node feeds an affected node. */
  lemma AddedEdgesRecover(nodes: seq<Url>, keys: set<Url>, active: set<Url>, former: seq<LinkEdge>, added: seq<LinkEdge>,
                          damping: real, start: Scores)
    requires keys != {} && Enumerates(nodes, keys) && 0.0 <= damping < 1.0
    requires IsFixedPoint(keys, former, damping, OnNodes(keys, start))
    requires Encloses(keys, active, former + added, Touched(keys, former, added))
    requires NoStrayFeed(keys, active, former + added, start)
    ensures Converges(nodes, active, former + added, damping, Base(keys, damping), start, Ranks(keys, former + added, damping))
  {
    hide Base, Converges, NoStrayFeed, Encloses, Round, Inflow, Touched, IsFixedPoint;
    var known := OnNodes(keys, start);
    RanksAt(keys, former, damping, known);
    forall u | u in Disturbed(keys, former + added, damping, known)
      ensures u in Touched(keys, former, added)
    {
      if u !in Touched(keys, former, added) {
        UntouchedInflow(keys, former, added, damping, Get(known), u);
      }
    }
    RecoversWhenEnclosed(nodes, keys, active, former + added, damping, start, Touched(keys, former, added));
  }

  // ----- a URL that is no node

  const XB := LinkEdge("x", "b", None, Hyperlink, 1.0)

  /** A single node b and an edge to it from x, which was never recorded as a
      node. With any depth the walk reports x as affected; x gets a score and
      feeds it to b, which ends at three quarters instead of one half. */
  lemma UnknownSourceDrifts(limit: nat, rounds: nat, affected: map<Url, nat>)
    requires limit > 0 && rounds >= 2 && IsAffected([XB], ["b"], limit, affected)
    ensures Get(Iterate(affected.Keys, [XB], 0.5, Base({"b"}, 0.5), map["b" := 0.5], rounds))("b") == 0.75
    ensures Get(Iterate(affected.Keys, [XB], 0.5, Base({"b"}, 0.5), map["b" := 0.5], rounds))("x") == 0.5
    ensures IsFixedPoint({"b"}, [XB], 0.5, map["b" := 0.5])
  {
    hide Inflow, AtDistance, IsAffected;
    XIsAffected(limit, affected);
    var base := Base({"b"}, 0.5);
    assert base == 0.5 by { assert |{"b"}| == 1; }
    hide Base;
    var before := Iterate(affected.Keys, [XB], 0.5, base, map["b" := 0.5], rounds - 2);
    var last := Iterate(affected.Keys, [XB], 0.5, base, map["b" := 0.5], rounds - 1);
    LoneInflow(Get(before), "x");
    LoneInflow(Get(last), "b");
    LoneInflow(Get(last), "x");
    RoundAt(affected.Keys, [XB], 0.5, base, before, "x");
    RoundAt(affected.Keys, [XB], 0.5, base, last, "x");
    RoundAt(affected.Keys, [XB], 0.5, base, last, "b");
    LoneInflow(Get(map["b" := 0.5]), "b");
    assert Round({"b"}, [XB], 0.5, base, map["b" := 0.5]) == map["b" := 0.5];
  }

  /** The result of such a call handed in again, now with nothing but b affected:
      x is not reached, but its score is still there and still feeds b. */
  lemma ResultFedBackDrifts(rounds: nat, affected: map<Url, nat>)
    requires IsAffected([XB], ["b"], 0, affected)
    ensures var start := map["b" := 0.75, "x" := 0.5];
            && Iterate(affected.Keys, [XB], 0.5, Base({"b"}, 0.5), start, rounds) == start
            && !NoStrayFeed({"b"}, affected.Keys, [XB], start)
  {
    hide Inflow, AtDistance;
    var start: Scores := map["b" := 0.75, "x" := 0.5];
    assert "x"[0] != "b"[0];
    OnlyBAffected(affected);
    assert Base({"b"}, 0.5) == 0.5 by { assert |{"b"}| == 1; }
    LoneInflow(Get(start), "b");
    ConsistentUnchanged(affected.Keys, [XB], 0.5, Base({"b"}, 0.5), start, rounds);
    assert XB in [XB] && XB.to in affected.Keys * {"b"};
  }

  lemma AffectedWithin(edges: seq<LinkEdge>, changed: seq<Url>, limit: nat, affected: map<Url, nat>, v: Url, k: nat)
    requires IsAffected(edges, changed, limit, affected) && v in affected && affected[v] == k
    ensures AtDistance(Traversal.Step(edges, Traversal.Inbound), Members(changed), v, k)
    ensures k <= limit
  {
    hide AtDistance, Members;
  }

  lemma OnlyBAffected(affected: map<Url, nat>)
    requires IsAffected([XB], ["b"], 0, affected)
    ensures affected.Keys == {"b"}
  {
    var step, sources := Traversal.Step([XB], Traversal.Inbound), Members(["b"]);
    forall v
      ensures v in affected <==> v == "b"
    {
      assert AtDistance(step, sources, v, 0) <==> v in sources;
      if v in affected {
        AffectedWithin([XB], ["b"], 0, affected, v, affected[v]);
      }
    }
  }

  lemma LoneInflow(x: Url -> real, u: Url)
    ensures Inflow([XB], 0.5, x, u) == if u == "b" then 0.5 * x("x") else 0.0
  {
    assert "x"[0] != "b"[0];
    assert [] + [XB] == [XB];
    OneMoreEdge([], XB, "x");
    Snoc([], XB, [XB], x, u);
  }

  lemma XIsAffected(limit: nat, affected: map<Url, nat>)
    requires limit > 0 && IsAffected([XB], ["b"], limit, affected)
    ensures "b" in affected && "x" in affected
  {
    var step, sources := Traversal.Step([XB], Traversal.Inbound), Members(["b"]);
    assert "x"[0] != "b"[0];
    assert "b" in sources;
    assert AtDistance(step, sources, "b", 0);
    assert Traversal.Links(XB, Traversal.Inbound, "b", "x") && XB in [XB];
    assert step("b", "x");
    assert Reaches(step, sources, "x", 1);
    assert AtDistance(step, sources, "x", 1);
  }

  // ----- a graph on which it does not

  const NODES: set<Url> := {"a", "b", "c"}
  const BC := LinkEdge("b", "c", None, Hyperlink, 1.0)
  const AB := LinkEdge("a", "b", None, Hyperlink, 1.0)

  /** The exact scores before and after the edge from a to b is recorded, with damping one half. */
  const BEFORE: Scores := map["a" := 1.0 / 6.0, "b" := 1.0 / 6.0, "c" := 1.0 / 4.0]
  const AFTER: Scores := map["a" := 1.0 / 6.0, "b" := 1.0 / 4.0, "c" := 7.0 / 24.0]

  lemma Degrees()
    ensures OutDegree([BC], "b") == OutDegree([BC, AB], "b") == OutDegree([BC, AB], "a") == 1
    ensures "a"[0] == 'a' && "b"[0] == 'b' && "c"[0] == 'c'
  {
    assert [] + [BC] == [BC] && [BC] + [AB] == [BC, AB];
    assert "a"[0] != "b"[0];
    OneMoreEdge([], BC, "b");
    OneMoreEdge([], BC, "a");
    OneMoreEdge([BC], AB, "b");
    OneMoreEdge([BC], AB, "a");
  }

  lemma Snoc(es: seq<LinkEdge>, e: LinkEdge, edges: seq<LinkEdge>, x: Url -> real, u: Url)
    ensures InflowOver(es + [e], edges, 0.5, x, u) == InflowOver(es, edges, 0.5, x, u) + Arrives(edges, 0.5, x, u, e)
  {
    assert (es + [e])[..|es|] == es;
  }

  lemma SmallInflow(x: Url -> real, u: Url)
    ensures Inflow([BC], 0.5, x, u) == if u == "c" then 0.5 * x("b") else 0.0
    ensures Inflow([BC, AB], 0.5, x, u) == if u == "c" then 0.5 * x("b") else if u == "b" then 0.5 * x("a") else 0.0
  {
    Degrees();
    hide OutDegree;
    assert [] + [BC] == [BC] && [BC] + [AB] == [BC, AB];
    Snoc([], BC, [BC], x, u);
    Snoc([], BC, [BC, AB], x, u);
    Snoc([BC], AB, [BC, AB], x, u);
  }

  lemma ExactInflows()
    ensures NODES != {} && Base(NODES, 0.5) == 1.0 / 6.0
    ensures forall u :: u in NODES ==> u == "a" || u == "b" || u == "c"
    ensures forall u :: Inflow([BC], 0.5, Get(BEFORE), u) == if u == "c" then 1.0 / 12.0 else 0.0
    ensures forall u :: Inflow([BC, AB], 0.5, Get(AFTER), u) == if u == "c" then 1.0 / 8.0 else if u == "b" then 1.0 / 12.0 else 0.0
  {
    assert "a" in NODES;
    assert |NODES| == 3;
    hide Inflow;
    forall u
      ensures Inflow([BC], 0.5, Get(BEFORE), u) == if u == "c" then 1.0 / 12.0 else 0.0
      ensures Inflow([BC, AB], 0.5, Get(AFTER), u) == if u == "c" then 1.0 / 8.0 else if u == "b" then 1.0 / 12.0 else 0.0
    {
      SmallInflow(Get(BEFORE), u);
      SmallInflow(Get(AFTER), u);
    }
  }

  lemma ExactScores()
    ensures NODES != {}
    ensures IsFixedPoint(NODES, [BC], 0.5, BEFORE)
    ensures IsFixedPoint(NODES, [BC, AB], 0.5, AFTER)
  {
    ExactInflows();
    Degrees();
    hide Inflow, Base, OutDegree;
    assert Round(NODES, [BC], 0.5, Base(NODES, 0.5), BEFORE) == BEFORE;
    assert Round(NODES, [BC, AB], 0.5, Base(NODES, 0.5), AFTER) == AFTER;
  }

  /** After recording the edge from a to b and reporting b as changed, no
      propagation depth and no number of rounds corrects b's successor c: the
      walk follows incoming edges, so c is never among the affected URLs. */
  lemma SuccessorNeverCorrected(limit: nat, rounds: nat, affected: map<Url, nat>)
    requires IsAffected([BC, AB], ["b"], limit, affected)
    ensures NODES != {} && IsFixedPoint(NODES, [BC], 0.5, BEFORE) && IsFixedPoint(NODES, [BC, AB], 0.5, AFTER)
    ensures Get(Iterate(affected.Keys, [BC, AB], 0.5, Base(NODES, 0.5), Seeded(BEFORE, NODES, Base(NODES, 0.5)), rounds))("c")
         == BEFORE["c"] != AFTER["c"]
  {
    hide Inflow, Base, AtDistance, IsAffected, Iterate, IsFixedPoint;
    ExactScores();
    NotAffected(limit, affected);
    OutsideUnchanged(affected.Keys, [BC, AB], 0.5, Base(NODES, 0.5), Seeded(BEFORE, NODES, Base(NODES, 0.5)), rounds, "c");
    assert "c" in BEFORE && BEFORE["c"] == 1.0 / 4.0;
    assert "c" in AFTER && AFTER["c"] == 7.0 / 24.0;
  }

  lemma NotAffected(limit: nat, affected: map<Url, nat>)
    requires IsAffected([BC, AB], ["b"], limit, affected)
    ensures "c" !in affected
  {
    if "c" in affected {
      NotReached(affected["c"]);
    }
  }

  lemma NotReached(k: nat)
    ensures !AtDistance(Traversal.Step([BC, AB], Traversal.Inbound), Members(["b"]), "c", k)
  {
    var step := Traversal.Step([BC, AB], Traversal.Inbound);
    Degrees();
    if AtDistance(step, Members(["b"]), "c", k) {
      if k > 0 {
        var w := Predecessor(step, Members(["b"]), "c", k);
      }
    }
  }

  // ----- errors on both sides can cancel

  const AC := LinkEdge("a", "c", None, Hyperlink, 1.0)

  const EVEN: Scores := map["a" := 1.0 / 6.0, "b" := 1.0 / 6.0, "c" := 1.0 / 3.0]
  const TILTED: Scores := map["a" := 1.0 / 4.0, "b" := 1.0 / 12.0, "c" := 1.0 / 3.0]

  lemma PairInflow(x: Url -> real, u: Url)
    ensures Inflow([BC, AC], 0.5, x, u) == if u == "c" then 0.5 * x("b") + 0.5 * x("a") else 0.0
  {
    Degrees();
    assert [] + [BC] == [BC] && [BC] + [AC] == [BC, AC];
    OneMoreEdge([BC], AC, "b");
    OneMoreEdge([BC], AC, "a");
    OneMoreEdge([], BC, "a");
    hide OutDegree;
    Snoc([], BC, [BC, AC], x, u);
    Snoc([BC], AC, [BC, AC], x, u);
  }

  /** In both vectors c gets the same, so what is right for one is right for the other at c. */
  lemma PairScores()
    ensures NODES != {} && Base(NODES, 0.5) == 1.0 / 6.0
    ensures forall u | u in NODES :: u == "a" || u == "b" || u == "c"
    ensures forall u | u in NODES :: Inflow([BC, AC], 0.5, Get(EVEN), u) == if u == "c" then 1.0 / 6.0 else 0.0
    ensures forall u | u in NODES :: Inflow([BC, AC], 0.5, Get(TILTED), u) == if u == "c" then 1.0 / 6.0 else 0.0
  {
    assert "a" in NODES && |NODES| == 3;
    hide Inflow;
    forall u | u in NODES
      ensures Inflow([BC, AC], 0.5, Get(EVEN), u) == if u == "c" then 1.0 / 6.0 else 0.0
      ensures Inflow([BC, AC], 0.5, Get(TILTED), u) == if u == "c" then 1.0 / 6.0 else 0.0
    {
      PairInflow(Get(EVEN), u);
      PairInflow(Get(TILTED), u);
    }
  }

  lemma EvenIsRanks()
    ensures NODES != {} && Ranks(NODES, [BC, AC], 0.5) == EVEN
  {
    PairScores();
    Degrees();
    hide Base, Inflow;
    assert Round(NODES, [BC, AC], 0.5, Base(NODES, 0.5), EVEN) == EVEN;
    RanksUnique(NODES, [BC, AC], 0.5, EVEN);
  }

  lemma TiltedResidual()
    ensures NODES != {}
    ensures Residual(NODES, [BC, AC], 0.5, TILTED)("a") == -1.0 / 12.0
    ensures Residual(NODES, [BC, AC], 0.5, TILTED)("b") == 1.0 / 12.0
  {
    PairScores();
    Degrees();
    hide Base, Inflow;
  }

  /** Without one-sidedness the walk is enough but not needed: a is too high by
      what b is too low, c is downstream of both and not affected, and still the
      incremental computation converges to the ranks. */
  lemma ErrorsCanCancel(nodes: seq<Url>)
    requires Enumerates(nodes, NODES)
    ensures NODES != {} && !OneSided(NODES, [BC, AC], 0.5, TILTED)
    ensures !Encloses(NODES, {"a", "b"}, [BC, AC], Disturbed(NODES, [BC, AC], 0.5, TILTED))
    ensures Converges(nodes, {"a", "b"}, [BC, AC], 0.5, Base(NODES, 0.5), TILTED, Ranks(NODES, [BC, AC], 0.5))
  {
    TiltedResidual();
    EvenIsRanks();
    Degrees();
    hide Base, Inflow, Converges, Residual, Downstream, Ranks, OutDegree;
    var disturbed := Disturbed(NODES, [BC, AC], 0.5, TILTED);
    SourceIsDownstream(NODES, [BC, AC], disturbed, "b");
    DownstreamNext(NODES, [BC, AC], disturbed, BC);
    assert AgreeOutside(NODES, {"a", "b"}, TILTED, EVEN);
    RecoversWhenRightOutside(nodes, NODES, {"a", "b"}, [BC, AC], 0.5, TILTED);
  }
}
