/** PageRank as a synchronous iteration over the whole graph, and what that
    iteration promises for every graph: duplicate edges, dangling nodes and
    edges whose endpoints were never recorded as nodes. */
module PageRankTheory {
  import opened CrawlGraph
  import opened Sums
  import opened Wrappers

  type Scores = map<Url, real>

  function Get(scores: Scores): Url -> real
  {
    u => if u in scores then scores[u] else 0.0
  }

  /** Number of recorded edges leaving u, duplicates included. */
  function OutDegree(edges: seq<LinkEdge>, u: Url): nat
  {
    if edges == [] then 0 else
      OutDegree(edges[..|edges| - 1], u) + if edges[|edges| - 1].from == u then 1 else 0
  }

  /** The number of shares v's score is split into, floored at one. */
  function Fanout(edges: seq<LinkEdge>, v: Url): (n: nat)
    ensures n > 0
  {
    if OutDegree(edges, v) == 0 then 1 else OutDegree(edges, v)
  }

  /** One of k equal parts of the damped score. */
  function Portion(damping: real, score: real, k: nat): real
    requires k > 0
  {
    damping * score / k as real
  }

  lemma PortionSign(d: real, a: real, k: nat)
    requires d >= 0.0 && a >= 0.0 && k > 0
    ensures Portion(d, a, k) >= 0.0
    ensures d > 0.0 && a > 0.0 ==> Portion(d, a, k) > 0.0
  {
    ProductNonNegative(d, a);
    QuotientSign(d * a, k as real);
  }

  lemma QuotientSign(x: real, k: real)
    requires x >= 0.0 && k > 0.0
    ensures x / k >= 0.0 && (x > 0.0 ==> x / k > 0.0)
  {
  }

  lemma PortionOfNothing(d: real, k: nat)
    requires k > 0
    ensures Portion(d, 0.0, k) == 0.0
  {
  }

  /** The parts add up to the damped score. */
  lemma PortionsAdd(d: real, a: real, k: nat)
    requires k > 0
    ensures k as real * Portion(d, a, k) == d * a
  {
    var y := d * a;
    assert k as real * (y / k as real) == y;
  }

  lemma PortionDifference(d: real, a: real, b: real, k: nat)
    requires d >= 0.0 && k > 0
    ensures Abs(Portion(d, a, k) - Portion(d, b, k)) == Portion(d, Abs(a - b), k)
  {
    ScaledDifference(d, a, b, k as real);
  }

  /** What v passes along each of its outgoing edges. */
  function Share(edges: seq<LinkEdge>, damping: real, x: Url -> real, v: Url): real
  {
    Portion(damping, x(v), Fanout(edges, v))
  }

  /** What u receives over the edge e. */
  function Arrives(edges: seq<LinkEdge>, damping: real, x: Url -> real, u: Url, e: LinkEdge): real
  {
    if e.to == u then Share(edges, damping, x, e.from) else 0.0
  }

  /** What u receives over its incoming edges. */
  function Inflow(edges: seq<LinkEdge>, damping: real, x: Url -> real, u: Url): real
  {
    InflowOver(edges, edges, damping, x, u)
  }

  /** The part of it that comes over the edges listed in es. */
  function InflowOver(es: seq<LinkEdge>, edges: seq<LinkEdge>, damping: real, x: Url -> real, u: Url): real
  {
    Sum(es, e => Arrives(edges, damping, x, u, e))
  }

  /** One synchronous round: the active keys are re-ranked from the old scores. */
  function Round(active: set<Url>, edges: seq<LinkEdge>, damping: real, base: real, scores: Scores): Scores
  {
    map u | u in scores.Keys + active :: if u in active then base + Inflow(edges, damping, Get(scores), u) else scores[u]
  }

  function Iterate(active: set<Url>, edges: seq<LinkEdge>, damping: real, base: real, start: Scores, rounds: nat): (r: Scores)
    ensures r.Keys == if rounds == 0 then start.Keys else start.Keys + active
  {
    if rounds == 0 then start
    else Round(active, edges, damping, base, Iterate(active, edges, damping, base, start, rounds - 1))
  }

  /** The score every node starts from. */
  function Base(nodes: set<Url>, damping: real): real
    requires nodes != {}
  {
    (1.0 - damping) / |nodes| as real
  }

  function BaseScores(nodes: set<Url>, damping: real): Scores
    requires nodes != {}
  {
    map u | u in nodes :: Base(nodes, damping)
  }

  /** The dense iteration: every node is re-ranked in every round. */
  function Dense(nodes: set<Url>, edges: seq<LinkEdge>, damping: real, rounds: nat): (r: Scores)
    requires nodes != {}
    ensures r.Keys == nodes
  {
    Iterate(nodes, edges, damping, Base(nodes, damping), BaseScores(nodes, damping), rounds)
  }

  function Power(x: real, n: nat): real
  {
    if n == 0 then 1.0 else x * Power(x, n - 1)
  }

  /** Total score over a list of nodes. */
  function Total(nodes: seq<Url>, scores: Scores): real
  {
    Sum(nodes, Get(scores))
  }

  /** How far apart two score vectors are, summed over a list of nodes. */
  function Gap(nodes: seq<Url>, a: Scores, b: Scores): real
  {
    Sum(nodes, Distance(a, b))
  }

  /** Product, named so that proofs can treat it as a symbol. */
  function Times(x: real, y: real): real
  {
    x * y
  }

  /** The vectors a', b' are closer to each other than a, b by the given factor. */
  ghost predicate CloserBy(nodes: seq<Url>, factor: real, a: Scores, b: Scores, a': Scores, b': Scores)
  {
    Gap(nodes, a', b') <= Times(factor, Gap(nodes, a, b))
  }

  /** The two vectors give the same score to every key that is not active. */
  ghost predicate AgreeOutside(keys: set<Url>, active: set<Url>, a: Scores, b: Scores)
  {
    forall u | u in keys - active :: Get(a)(u) == Get(b)(u)
  }

  ghost predicate Enumerates(nodes: seq<Url>, keys: set<Url>)
  {
    Distinct(nodes) && forall u :: u in nodes <==> u in keys
  }

  // ----- rank does not depend on the order in which the edges are listed

  lemma {:induction false} OutDegreeIsSum(edges: seq<LinkEdge>, u: Url, c: real, h: LinkEdge -> real)
    requires forall e | e in edges :: h(e) == if e.from == u then c else 0.0
    ensures Sum(edges, h) == OutDegree(edges, u) as real * c
  {
    if edges != [] {
      assert edges[|edges| - 1] in edges;
      OutDegreeIsSum(edges[..|edges| - 1], u, c, h);
    }
  }

  lemma OutDegreePermute(a: seq<LinkEdge>, b: seq<LinkEdge>, u: Url)
    requires multiset(a) == multiset(b)
    ensures OutDegree(a, u) == OutDegree(b, u)
  {
    var one := (e: LinkEdge) => if e.from == u then 1.0 else 0.0;
    OutDegreeCounts(a, u, one);
    OutDegreeCounts(b, u, one);
    hide OutDegree, Sum;
    SumPermute(a, b, one);
  }

  lemma OutDegreeCounts(edges: seq<LinkEdge>, u: Url, one: LinkEdge -> real)
    requires forall e | e in edges :: one(e) == if e.from == u then 1.0 else 0.0
    ensures Sum(edges, one) == OutDegree(edges, u) as real
  {
    OutDegreeIsSum(edges, u, 1.0, one);
  }

  lemma InflowPermute(a: seq<LinkEdge>, b: seq<LinkEdge>, damping: real, x: Url -> real, u: Url)
    requires multiset(a) == multiset(b)
    ensures Inflow(a, damping, x, u) == Inflow(b, damping, x, u)
  {
    forall e: LinkEdge
      ensures Arrives(a, damping, x, u, e) == Arrives(b, damping, x, u, e)
    {
      OutDegreePermute(a, b, e.from);
    }
    SumPermute(a, b, e => Arrives(a, damping, x, u, e));
    SumEq(b, e => Arrives(a, damping, x, u, e), e => Arrives(b, damping, x, u, e));
  }

  lemma RoundPermute(active: set<Url>, a: seq<LinkEdge>, b: seq<LinkEdge>, damping: real, base: real, scores: Scores)
    requires multiset(a) == multiset(b)
    ensures Round(active, a, damping, base, scores) == Round(active, b, damping, base, scores)
  {
    hide Inflow;
    forall u | u in active
      ensures Inflow(a, damping, Get(scores), u) == Inflow(b, damping, Get(scores), u)
    {
      InflowPermute(a, b, damping, Get(scores), u);
    }
  }

  /** Only the multiset of edges matters, so the order in which an edge index is read does not. */
  lemma {:induction false} IteratePermute(active: set<Url>, a: seq<LinkEdge>, b: seq<LinkEdge>, damping: real, base: real,
                                          start: Scores, rounds: nat)
    requires multiset(a) == multiset(b)
    ensures Iterate(active, a, damping, base, start, rounds) == Iterate(active, b, damping, base, start, rounds)
  {
    hide Round;
    if rounds > 0 {
      IteratePermute(active, a, b, damping, base, start, rounds - 1);
      RoundPermute(active, a, b, damping, base, Iterate(active, a, damping, base, start, rounds - 1));
    }
  }

  // ----- double counting: a round hands on at most the damped total

  lemma ShareNonNegative(edges: seq<LinkEdge>, damping: real, x: Url -> real, v: Url)
    requires damping >= 0.0 && x(v) >= 0.0
    ensures Share(edges, damping, x, v) >= 0.0
  {
    PortionSign(damping, x(v), Fanout(edges, v));
  }

  /** Everything v sends out, over all its edges: its damped score, or nothing. */
  lemma SentBy(edges: seq<LinkEdge>, damping: real, x: Url -> real, v: Url)
    ensures OutDegree(edges, v) as real * Share(edges, damping, x, v)
         == if OutDegree(edges, v) == 0 then 0.0 else damping * x(v)
  {
    hide Portion;
    PortionsAdd(damping, x(v), Fanout(edges, v));
  }

  /** What v sends to a node over the edge e. */
  function Delivers(keys: set<Url>, edges: seq<LinkEdge>, damping: real, x: Url -> real, v: Url, e: LinkEdge): real
  {
    if e.from == v && e.to in keys then Share(edges, damping, x, v) else 0.0
  }

  /** What v sends to nodes over the edges listed in es. */
  function OutflowOver(es: seq<LinkEdge>, keys: set<Url>, edges: seq<LinkEdge>, damping: real, x: Url -> real, v: Url): real
  {
    Sum(es, e => Delivers(keys, edges, damping, x, v, e))
  }

  /** The part of v's damped score that reaches no node. */
  function Leak(keys: set<Url>, edges: seq<LinkEdge>, damping: real, x: Url -> real, v: Url): real
  {
    damping * x(v) - OutflowOver(edges, keys, edges, damping, x, v)
  }

  /** One edge, seen from its receiver or from its sender. */
  lemma OneEdge(nodes: seq<Url>, keys: set<Url>, edges: seq<LinkEdge>, damping: real, x: Url -> real, e: LinkEdge)
    requires Enumerates(nodes, keys)
    requires forall v | v !in keys :: x(v) == 0.0
    ensures Sum(nodes, u => Arrives(edges, damping, x, u, e)) == Sum(nodes, v => Delivers(keys, edges, damping, x, v, e))
  {
    var c := Share(edges, damping, x, e.from);
    SumPick(nodes, e.to, c, u => Arrives(edges, damping, x, u, e));
    SumPick(nodes, e.from, if e.to in keys then c else 0.0, v => Delivers(keys, edges, damping, x, v, e));
  }

  /** Counting the shares by receiver or by sender gives the same total. */
  lemma {:induction false} ReceivedIsSent(nodes: seq<Url>, keys: set<Url>, es: seq<LinkEdge>, edges: seq<LinkEdge>,
                                          damping: real, x: Url -> real)
    requires Enumerates(nodes, keys)
    requires forall v | v !in keys :: x(v) == 0.0
    ensures Sum(nodes, u => InflowOver(es, edges, damping, x, u))
         == Sum(nodes, v => OutflowOver(es, keys, edges, damping, x, v))
  {
    if es == [] {
      SumEq(nodes, u => InflowOver(es, edges, damping, x, u), v => OutflowOver(es, keys, edges, damping, x, v));
    } else {
      var r, e := es[..|es| - 1], es[|es| - 1];
      ReceivedIsSent(nodes, keys, r, edges, damping, x);
      OneEdge(nodes, keys, edges, damping, x, e);
      SumAdd(nodes, u => InflowOver(r, edges, damping, x, u), u => Arrives(edges, damping, x, u, e),
             u => InflowOver(es, edges, damping, x, u));
      SumAdd(nodes, v => OutflowOver(r, keys, edges, damping, x, v), v => Delivers(keys, edges, damping, x, v, e),
             v => OutflowOver(es, keys, edges, damping, x, v));
    }
  }

  lemma ReceivedTotal(nodes: seq<Url>, keys: set<Url>, edges: seq<LinkEdge>, damping: real, x: Url -> real)
    requires Enumerates(nodes, keys)
    requires forall v | v !in keys :: x(v) == 0.0
    ensures Sum(nodes, u => Inflow(edges, damping, x, u)) == Sum(nodes, v => OutflowOver(edges, keys, edges, damping, x, v))
  {
    hide OutflowOver, InflowOver, Enumerates;
    ReceivedIsSent(nodes, keys, edges, edges, damping, x);
    SumEq(nodes, u => Inflow(edges, damping, x, u), u => InflowOver(edges, edges, damping, x, u));
  }

  /** Conservation: what all nodes receive plus what leaks is the damped total. */
  lemma Conservation(nodes: seq<Url>, keys: set<Url>, edges: seq<LinkEdge>, damping: real, x: Url -> real)
    requires Enumerates(nodes, keys)
    requires forall v | v !in keys :: x(v) == 0.0
    ensures Sum(nodes, u => Inflow(edges, damping, x, u)) + Sum(nodes, v => Leak(keys, edges, damping, x, v))
         == damping * Sum(nodes, x)
  {
    hide Inflow, OutflowOver, Enumerates, Sum;
    ReceivedTotal(nodes, keys, edges, damping, x);
    SumScale(nodes, damping, x, v => damping * x(v));
    SumAdd(nodes, v => OutflowOver(edges, keys, edges, damping, x, v), v => Leak(keys, edges, damping, x, v),
           v => damping * x(v));
  }

  lemma LeakNonNegative(keys: set<Url>, edges: seq<LinkEdge>, damping: real, x: Url -> real, v: Url)
    requires damping >= 0.0 && x(v) >= 0.0
    ensures Leak(keys, edges, damping, x, v) >= 0.0
  {
    var c := Share(edges, damping, x, v);
    var all := (e: LinkEdge) => if e.from == v then c else 0.0;
    ShareNonNegative(edges, damping, x, v);
    SumLe(edges, e => Delivers(keys, edges, damping, x, v, e), all);
    OutDegreeIsSum(edges, v, c, all);
    SentBy(edges, damping, x, v);
  }

  /** v passes its whole damped score on to nodes: it has an outgoing edge and none of them leads outside. */
  ghost predicate Tight(keys: set<Url>, edges: seq<LinkEdge>, v: Url)
  {
    (exists e :: e in edges && e.from == v) && forall e | e in edges && e.from == v :: e.to in keys
  }

  lemma LeakExactly(keys: set<Url>, edges: seq<LinkEdge>, damping: real, x: Url -> real, v: Url)
    requires damping > 0.0 && x(v) > 0.0
    ensures Leak(keys, edges, damping, x, v) == 0.0 <==> Tight(keys, edges, v)
  {
    NoEdges(edges, v);
    if OutDegree(edges, v) == 0 {
      SumConst(edges, 0.0, e => Delivers(keys, edges, damping, x, v, e));
    } else if e :| e in edges && e.from == v && e.to !in keys {
      LeaksOver(keys, edges, damping, x, v, e);
    } else {
      OutDegreeIsSum(edges, v, Share(edges, damping, x, v), e => Delivers(keys, edges, damping, x, v, e));
      SentBy(edges, damping, x, v);
    }
  }

  lemma LeaksOver(keys: set<Url>, edges: seq<LinkEdge>, damping: real, x: Url -> real, v: Url, e: LinkEdge)
    requires damping > 0.0 && x(v) > 0.0
    requires e in edges && e.from == v && e.to !in keys
    ensures Leak(keys, edges, damping, x, v) > 0.0
  {
    var c := Share(edges, damping, x, v);
    var all := (e: LinkEdge) => if e.from == v then c else 0.0;
    SharePositive(edges, damping, x, v);
    SumLt(edges, e => Delivers(keys, edges, damping, x, v, e), all, e);
    OutDegreeIsSum(edges, v, c, all);
    SentBy(edges, damping, x, v);
    NoEdges(edges, v);
  }

  lemma SharePositive(edges: seq<LinkEdge>, damping: real, x: Url -> real, v: Url)
    requires damping > 0.0 && x(v) > 0.0
    ensures Share(edges, damping, x, v) > 0.0
  {
    PortionSign(damping, x(v), Fanout(edges, v));
  }

  lemma {:induction false} NoEdges(edges: seq<LinkEdge>, v: Url)
    ensures OutDegree(edges, v) == 0 <==> forall e | e in edges :: e.from != v
  {
    if edges != [] {
      NoEdges(edges[..|edges| - 1], v);
      assert edges == edges[..|edges| - 1] + [edges[|edges| - 1]];
    }
  }

  // ----- one round contracts distances

  lemma InflowDifference(edges: seq<LinkEdge>, damping: real, s: Url -> real, t: Url -> real, x: Url -> real, u: Url)
    requires damping >= 0.0
    requires forall v :: x(v) == Abs(s(v) - t(v))
    ensures Abs(Inflow(edges, damping, s, u) - Inflow(edges, damping, t, u)) <= Inflow(edges, damping, x, u)
  {
    var diff := e => Arrives(edges, damping, s, u, e) - Arrives(edges, damping, t, u, e);
    SumAdd(edges, diff, e => Arrives(edges, damping, t, u, e), e => Arrives(edges, damping, s, u, e));
    forall e: LinkEdge
      ensures Abs(diff(e)) <= Arrives(edges, damping, x, u, e)
    {
      ShareDifference(edges, damping, s, t, x, e.from);
    }
    SumAbs(edges, diff, e => Arrives(edges, damping, x, u, e));
  }

  lemma ShareDifference(edges: seq<LinkEdge>, damping: real, s: Url -> real, t: Url -> real, x: Url -> real, v: Url)
    requires damping >= 0.0
    requires x(v) == Abs(s(v) - t(v))
    ensures Abs(Share(edges, damping, s, v) - Share(edges, damping, t, v)) <= Share(edges, damping, x, v)
  {
    hide Portion;
    PortionDifference(damping, s(v), t(v), Fanout(edges, v));
  }

  lemma ScaledDifference(c: real, a: real, b: real, k: real)
    requires c >= 0.0 && k > 0.0
    ensures Abs(c * a / k - c * b / k) == c * Abs(a - b) / k
  {
    assert c * a / k - c * b / k == (c * a - c * b) / k;
    assert c * a - c * b == c * (a - b);
    assert Abs(c * (a - b)) == c * Abs(a - b);
  }

  function Distance(s: Scores, t: Scores): Url -> real
  {
    u => Abs(Get(s)(u) - Get(t)(u))
  }

  lemma DistanceAt(s: Scores, t: Scores, v: Url)
    ensures Distance(s, t)(v) == Abs(Get(s)(v) - Get(t)(v))
    ensures v !in s.Keys + t.Keys ==> Distance(s, t)(v) == 0.0
  {
  }

  /** All nodes together receive at most the damped total. */
  lemma ReceivedAtMost(nodes: seq<Url>, keys: set<Url>, edges: seq<LinkEdge>, damping: real, x: Url -> real)
    requires damping >= 0.0
    requires Enumerates(nodes, keys)
    requires forall v :: x(v) >= 0.0 && (v !in keys ==> x(v) == 0.0)
    ensures Sum(nodes, u => Inflow(edges, damping, x, u)) <= damping * Sum(nodes, x)
  {
    Conservation(nodes, keys, edges, damping, x);
    forall v
      ensures Leak(keys, edges, damping, x, v) >= 0.0
    {
      LeakNonNegative(keys, edges, damping, x, v);
    }
    SumNonNegative(nodes, v => Leak(keys, edges, damping, x, v));
  }

  lemma DistanceOutside(keys: set<Url>, s: Scores, t: Scores)
    requires s.Keys <= keys && t.Keys <= keys
    ensures forall v :: Distance(s, t)(v) >= 0.0 && (v !in keys ==> Distance(s, t)(v) == 0.0)
  {
    forall v
      ensures Distance(s, t)(v) >= 0.0 && (v !in keys ==> Distance(s, t)(v) == 0.0)
    {
      DistanceAt(s, t, v);
    }
  }

  lemma RoundAt(active: set<Url>, edges: seq<LinkEdge>, damping: real, base: real, scores: Scores, u: Url)
    ensures Get(Round(active, edges, damping, base, scores))(u)
         == if u in active then base + Inflow(edges, damping, Get(scores), u) else Get(scores)(u)
  {
    hide Inflow;
  }

  lemma RoundMoves(keys: set<Url>, active: set<Url>, edges: seq<LinkEdge>, damping: real, base: real,
                   s: Scores, t: Scores, u: Url)
    requires damping >= 0.0 && u in keys
    requires AgreeOutside(keys, active, s, t)
    ensures Distance(Round(active, edges, damping, base, s), Round(active, edges, damping, base, t))(u)
         <= Inflow(edges, damping, Distance(s, t), u)
  {
    hide Inflow, Round;
    RoundAt(active, edges, damping, base, s, u);
    RoundAt(active, edges, damping, base, t, u);
    DistanceAt(Round(active, edges, damping, base, s), Round(active, edges, damping, base, t), u);
    if u in active {
      InflowDifference(edges, damping, Get(s), Get(t), Distance(s, t), u);
    } else {
      InflowNonNegative(edges, damping, Distance(s, t), u);
    }
  }

  /** One round brings two score vectors closer by the damping factor, in total absolute difference. */
  lemma RoundContracts(nodes: seq<Url>, keys: set<Url>, active: set<Url>, edges: seq<LinkEdge>, damping: real, base: real,
                       s: Scores, t: Scores)
    requires damping >= 0.0
    requires Enumerates(nodes, keys) && s.Keys <= keys && t.Keys <= keys
    requires AgreeOutside(keys, active, s, t)
    ensures CloserBy(nodes, damping, s, t, Round(active, edges, damping, base, s), Round(active, edges, damping, base, t))
  {
    hide Inflow, Round, Distance, AgreeOutside, Sum;
    var s', t' := Round(active, edges, damping, base, s), Round(active, edges, damping, base, t);
    forall u | u in nodes
      ensures Distance(s', t')(u) <= Inflow(edges, damping, Distance(s, t), u)
    {
      RoundMoves(keys, active, edges, damping, base, s, t, u);
    }
    SumLe(nodes, Distance(s', t'), u => Inflow(edges, damping, Distance(s, t), u));
    DistanceOutside(keys, s, t);
    ReceivedAtMost(nodes, keys, edges, damping, Distance(s, t));
  }

  lemma SumNonNegative(nodes: seq<Url>, f: Url -> real)
    requires forall u | u in nodes :: f(u) >= 0.0
    ensures Sum(nodes, f) >= 0.0
  {
    SumConst(nodes, 0.0, u => 0.0);
    SumLe(nodes, u => 0.0, f);
  }

  lemma InflowNonNegative(edges: seq<LinkEdge>, damping: real, x: Url -> real, u: Url)
    requires damping >= 0.0 && forall v :: x(v) >= 0.0
    ensures Inflow(edges, damping, x, u) >= 0.0
  {
    forall e: LinkEdge
      ensures Arrives(edges, damping, x, u, e) >= 0.0
    {
      ShareNonNegative(edges, damping, x, e.from);
    }
    SumConst(edges, 0.0, e => 0.0);
    SumLe(edges, e => 0.0, e => Arrives(edges, damping, x, u, e));
  }
}
