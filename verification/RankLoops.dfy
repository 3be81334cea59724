/** The loops shared by the full and the incremental PageRank computation:
    indexing the edge list and re-ranking a set of active URLs. */
module RankLoops {
  import opened CrawlGraph
  import opened PageRankTheory
  import opened Sums

  /** The sources of the edges entering u, in edge order. */
  function Sources(edges: seq<LinkEdge>, u: Url): seq<Url>
  {
    if edges == [] then [] else
      var last := edges[|edges| - 1];
      Sources(edges[..|edges| - 1], u) + if last.to == u then [last.from] else []
  }

  /** Summing over the incoming list is summing over the edge list. */
  lemma {:induction false} SourcesSum(es: seq<LinkEdge>, edges: seq<LinkEdge>, damping: real, x: Url -> real, u: Url)
    ensures Sum(Sources(es, u), v => Share(edges, damping, x, v)) == InflowOver(es, edges, damping, x, u)
  {
    if es != [] {
      SourcesSum(es[..|es| - 1], edges, damping, x, u);
      var last := es[|es| - 1];
      if last.to == u {
        SumAppend(Sources(es[..|es| - 1], u), [last.from], v => Share(edges, damping, x, v));
      } else {
        assert Sources(es, u) == Sources(es[..|es| - 1], u);
      }
    }
  }

  lemma {:induction false} SourcesEmpty(edges: seq<LinkEdge>, u: Url)
    ensures Sources(edges, u) == [] <==> forall e | e in edges :: e.to != u
  {
    if edges != [] {
      SourcesEmpty(edges[..|edges| - 1], u);
      assert edges == edges[..|edges| - 1] + [edges[|edges| - 1]];
    }
  }

  function DegreeIn(outDegree: map<Url, nat>, u: Url): nat
  {
    if u in outDegree then outDegree[u] else 0
  }

  function ListIn(incoming: map<Url, seq<Url>>, u: Url): seq<Url>
  {
    if u in incoming then incoming[u] else []
  }

  /** The two indexes say what the edge list says. */
  ghost predicate Indexes(edges: seq<LinkEdge>, outDegree: map<Url, nat>, incoming: map<Url, seq<Url>>)
  {
    && (forall u :: DegreeIn(outDegree, u) == OutDegree(edges, u))
    && (forall u :: ListIn(incoming, u) == Sources(edges, u))
    && (forall u :: u in incoming ==> incoming[u] != [])
  }

  lemma OneMoreEdge(edges: seq<LinkEdge>, e: LinkEdge, u: Url)
    ensures OutDegree(edges + [e], u) == OutDegree(edges, u) + if e.from == u then 1 else 0
    ensures Sources(edges + [e], u) == Sources(edges, u) + if e.to == u then [e.from] else []
  {
    assert (edges + [e])[..|edges|] == edges;
  }

  lemma IndexOneMore(edges: seq<LinkEdge>, e: LinkEdge, outDegree: map<Url, nat>, incoming: map<Url, seq<Url>>)
    requires Indexes(edges, outDegree, incoming)
    ensures Indexes(edges + [e], outDegree[e.from := DegreeIn(outDegree, e.from) + 1],
                    incoming[e.to := ListIn(incoming, e.to) + [e.from]])
  {
    hide OutDegree, Sources;
    forall u
      ensures OutDegree(edges + [e], u) == OutDegree(edges, u) + if e.from == u then 1 else 0
      ensures Sources(edges + [e], u) == Sources(edges, u) + if e.to == u then [e.from] else []
    {
      OneMoreEdge(edges, e, u);
    }
  }

  method IndexEdges(edges: seq<LinkEdge>) returns (outDegree: map<Url, nat>, incoming: map<Url, seq<Url>>)
    ensures Indexes(edges, outDegree, incoming)
  {
    outDegree, incoming := map[], map[];
    assert edges[..0] == [];
    for i := 0 to |edges|
      invariant Indexes(edges[..i], outDegree, incoming)
    {
      var e := edges[i];
      IndexOneMore(edges[..i], e, outDegree, incoming);
      assert edges[..i + 1] == edges[..i] + [e];
      outDegree := outDegree[e.from := DegreeIn(outDegree, e.from) + 1];
      incoming := incoming[e.to := ListIn(incoming, e.to) + [e.from]];
    }
    assert edges[..|edges|] == edges;
  }

  lemma OneShare(edges: seq<LinkEdge>, outDegree: map<Url, nat>, damping: real, scores: Scores, v: Url)
    requires DegreeIn(outDegree, v) == OutDegree(edges, v)
    ensures Share(edges, damping, Get(scores), v)
         == if v in scores then
              Portion(damping, scores[v], if v in outDegree && outDegree[v] > 1 then outDegree[v] else 1)
            else 0.0
  {
    hide Portion;
    PortionOfNothing(damping, Fanout(edges, v));
  }

  /** The new rank of one URL, from the old scores. */
  method RankOf(url: Url, edges: seq<LinkEdge>, outDegree: map<Url, nat>, incoming: map<Url, seq<Url>>,
                damping: real, base: real, scores: Scores) returns (rank: real)
    requires Indexes(edges, outDegree, incoming)
    ensures rank == base + Inflow(edges, damping, Get(scores), url)
  {
    ghost var share := v => Share(edges, damping, Get(scores), v);
    rank := base;
    var inNodes := ListIn(incoming, url);
    for i := 0 to |inNodes|
      invariant rank == base + Sum(inNodes[..i], share)
    {
      var v := inNodes[i];
      OneShare(edges, outDegree, damping, scores, v);
      if v in scores {
        var outDeg := if v in outDegree && outDegree[v] > 1 then outDegree[v] else 1;
        rank := rank + Portion(damping, scores[v], outDeg);
      }
      assert inNodes[..i + 1] == inNodes[..i] + [v];
      SumAppend(inNodes[..i], [v], share);
    }
    assert inNodes[..|inNodes|] == inNodes;
    SourcesSum(edges, edges, damping, Get(scores), url);
    SumEq(inNodes, share, v => Share(edges, damping, Get(scores), v));
  }

  function Members(s: seq<Url>): set<Url>
  {
    set u | u in s
  }

  /** One round: the scores of the active URLs, all computed from the old scores. */
  method ReRank(active: seq<Url>, edges: seq<LinkEdge>, outDegree: map<Url, nat>, incoming: map<Url, seq<Url>>,
                damping: real, base: real, scores: Scores) returns (newScores: Scores)
    requires Indexes(edges, outDegree, incoming)
    ensures newScores.Keys == Members(active)
    ensures forall u | u in active :: newScores[u] == base + Inflow(edges, damping, Get(scores), u)
  {
    hide Inflow, Indexes;
    newScores := map[];
    for i := 0 to |active|
      invariant forall u :: u in newScores <==> u in active[..i]
      invariant forall u | u in newScores :: newScores[u] == base + Inflow(edges, damping, Get(scores), u)
    {
      var rank := RankOf(active[i], edges, outDegree, incoming, damping, base, scores);
      newScores := newScores[active[i] := rank];
      assert active[..i + 1] == active[..i] + [active[i]];
    }
    assert active[..|active|] == active;
  }

  lemma MergeIsRound(active: seq<Url>, edges: seq<LinkEdge>, damping: real, base: real, scores: Scores, newScores: Scores)
    requires newScores.Keys == Members(active)
    requires forall u | u in active :: newScores[u] == base + Inflow(edges, damping, Get(scores), u)
    ensures scores + newScores == Round(Members(active), edges, damping, base, scores)
  {
    hide Inflow;
  }

  /** Synchronous rounds over the active URLs: each round reads only the scores of
      the round before. As many rounds are run as asked for, and one for none. */
  method Rounds(active: seq<Url>, edges: seq<LinkEdge>, outDegree: map<Url, nat>, incoming: map<Url, seq<Url>>,
                damping: real, base: real, start: Scores, iterations: nat) returns (scores: Scores)
    requires Indexes(edges, outDegree, incoming)
    ensures iterations > 0 ==> scores == Iterate(Members(active), edges, damping, base, start, iterations)
    ensures iterations == 0 ==> scores == Iterate(Members(active), edges, damping, base, start, 1)
  {
    hide Inflow, Indexes, Round, Members;
    scores := start;
    var rounds := if iterations > 1 then iterations else 1;
    for t := 0 to rounds
      invariant scores == Iterate(Members(active), edges, damping, base, start, t)
    {
      var newScores := ReRank(active, edges, outDegree, incoming, damping, base, scores);
      MergeIsRound(active, edges, damping, base, scores, newScores);
      scores := scores + newScores;
    }
  }
}
