/** The rank equation as a linear system: it has exactly one solution, every
    iteration settles at it, and a change of the system moves its solution
    exactly downstream of where the change is. */
module RankEquation {
  import opened CrawlGraph
  import opened Hops
  import opened PageRank
  import opened PageRankTheory
  import opened Sums
  import opened Wrappers

  lemma Enumeration(keys: set<Url>) returns (nodes: seq<Url>)
    ensures Enumerates(nodes, keys)
  {
    nodes := [];
    var left := keys;
    while left != {}
      invariant left <= keys && Enumerates(nodes, keys - left)
      decreases left
    {
      var u :| u in left;
      nodes, left := nodes + [u], left - {u};
    }
  }

  // ----- inflow is linear

  lemma ShareLinear(edges: seq<LinkEdge>, damping: real, a: real, x: Url -> real, b: real, y: Url -> real, z: Url -> real, v: Url)
    requires z(v) == a * x(v) + b * y(v)
    ensures Share(edges, damping, z, v) == a * Share(edges, damping, x, v) + b * Share(edges, damping, y, v)
  {
    hide Portion;
    PortionLinear(damping, a, x(v), b, y(v), z(v), Fanout(edges, v));
  }

  lemma SameShare(edges: seq<LinkEdge>, damping: real, x: Url -> real, y: Url -> real, v: Url)
    requires x(v) == y(v)
    ensures Share(edges, damping, x, v) == Share(edges, damping, y, v)
  {
    hide Portion;
  }

  lemma PortionLinear(d: real, a: real, x: real, b: real, y: real, z: real, k: nat)
    requires k > 0 && z == a * x + b * y
    ensures Portion(d, z, k) == a * Portion(d, x, k) + b * Portion(d, y, k)
  {
    QuotientLinear(d, a, x, b, y, k as real);
  }

  lemma QuotientLinear(d: real, a: real, x: real, b: real, y: real, k: real)
    requires k > 0.0
    ensures d * (a * x + b * y) / k == a * (d * x / k) + b * (d * y / k)
  {
    var p, q := d * x / k, d * y / k;
    assert p * k == d * x && q * k == d * y;
    assert d * (a * x + b * y) == a * (d * x) + b * (d * y);
    assert a * (p * k) + b * (q * k) == (a * p + b * q) * k;
    DivideOut(a * p + b * q, k);
  }

  lemma DivideOut(r: real, k: real)
    requires k > 0.0
    ensures r * k / k == r
  {
  }

  lemma InflowLinear(edges: seq<LinkEdge>, damping: real, a: real, x: Url -> real, b: real, y: Url -> real, z: Url -> real, u: Url)
    requires forall v :: z(v) == a * x(v) + b * y(v)
    ensures Inflow(edges, damping, z, u) == a * Inflow(edges, damping, x, u) + b * Inflow(edges, damping, y, u)
  {
    hide Share;
    var ax := (e: LinkEdge) => a * Arrives(edges, damping, x, u, e);
    var yb := (e: LinkEdge) => b * Arrives(edges, damping, y, u, e);
    forall e: LinkEdge
      ensures Arrives(edges, damping, z, u, e) == ax(e) + yb(e)
    {
      ShareLinear(edges, damping, a, x, b, y, z, e.from);
    }
    SumScale(edges, a, e => Arrives(edges, damping, x, u, e), ax);
    SumScale(edges, b, e => Arrives(edges, damping, y, u, e), yb);
    SumAdd(edges, ax, yb, e => Arrives(edges, damping, z, u, e));
  }

  // ----- mass that feeds only itself is none

  lemma AtMostSum(nodes: seq<Url>, y: Url -> real, u: Url)
    requires Distinct(nodes) && u in nodes && forall v :: y(v) >= 0.0
    ensures y(u) <= Sum(nodes, y)
  {
    var only := v => if v == u then y(u) else 0.0;
    SumPick(nodes, u, y(u), only);
    SumLe(nodes, only, y);
  }

  lemma Vanishes(nodes: seq<Url>, keys: set<Url>, edges: seq<LinkEdge>, damping: real, y: Url -> real)
    requires 0.0 <= damping < 1.0 && Enumerates(nodes, keys)
    requires forall v :: y(v) >= 0.0 && (v !in keys ==> y(v) == 0.0)
    requires forall u | u in keys :: y(u) <= Inflow(edges, damping, y, u)
    ensures forall u :: y(u) == 0.0
  {
    hide Inflow, Sum;
    SumLe(nodes, y, u => Inflow(edges, damping, y, u));
    ReceivedAtMost(nodes, keys, edges, damping, y);
    ShrinksToZero(damping, Sum(nodes, y));
    forall u
      ensures y(u) == 0.0
    {
      if u in keys {
        AtMostSum(nodes, y, u);
      }
    }
  }

  // ----- the response of the scores to a change

  /** x is zero outside the nodes and, at each node, c plus what flows in. */
  ghost predicate Responds(keys: set<Url>, edges: seq<LinkEdge>, damping: real, c: Url -> real, x: Url -> real)
  {
    && (forall v | v !in keys :: x(v) == 0.0)
    && (forall u | u in keys :: x(u) == c(u) + Inflow(edges, damping, x, u))
  }

  /** An edge between nodes, in its own direction. */
  ghost function Forward(keys: set<Url>, edges: seq<LinkEdge>): (Url, Url) -> bool
  {
    (u, v) => u in keys && v in keys && exists e :: e in edges && e.from == u && e.to == v
  }

  /** v is one of the sources or can be reached from one by edges between nodes. */
  ghost predicate Downstream(keys: set<Url>, edges: seq<LinkEdge>, sources: set<Url>, v: Url)
  {
    exists n: nat :: Reaches(Forward(keys, edges), sources, v, n)
  }

  lemma ResponseNonNegative(nodes: seq<Url>, keys: set<Url>, edges: seq<LinkEdge>, damping: real, c: Url -> real, x: Url -> real)
    requires 0.0 <= damping < 1.0 && Enumerates(nodes, keys) && Responds(keys, edges, damping, c, x)
    requires forall u | u in keys :: c(u) >= 0.0
    ensures forall v :: x(v) >= 0.0
  {
    hide Inflow;
    var below: Url -> real := v => if x(v) < 0.0 then -x(v) else 0.0;
    var minus: Url -> real := v => -x(v);
    forall u | u in keys
      ensures below(u) <= Inflow(edges, damping, below, u)
    {
      InflowNonNegative(edges, damping, below, u);
      InflowLinear(edges, damping, -1.0, x, 0.0, x, minus, u);
      InflowMonotone(edges, damping, minus, below, u);
    }
    Vanishes(nodes, keys, edges, damping, below);
    forall v
      ensures x(v) >= 0.0
    {
      assert below(v) == 0.0;
    }
  }

  lemma EdgeBrings(edges: seq<LinkEdge>, damping: real, x: Url -> real, e: LinkEdge)
    requires damping > 0.0 && e in edges && x(e.from) > 0.0 && forall v :: x(v) >= 0.0
    ensures Inflow(edges, damping, x, e.to) > 0.0
  {
    forall d: LinkEdge
      ensures Arrives(edges, damping, x, e.to, d) >= 0.0
    {
      ShareNonNegative(edges, damping, x, d.from);
    }
    SharePositive(edges, damping, x, e.from);
    SumConst(edges, 0.0, d => 0.0);
    SumLt(edges, d => 0.0, d => Arrives(edges, damping, x, e.to, d), e);
  }

  /** Everything downstream of a positive change responds. */
  lemma {:induction false} ResponsePositive(keys: set<Url>, edges: seq<LinkEdge>, damping: real, c: Url -> real, x: Url -> real,
                                            sources: set<Url>, v: Url, n: nat)
    requires 0.0 < damping < 1.0 && Responds(keys, edges, damping, c, x)
    requires (forall u | u in keys :: c(u) >= 0.0) && forall u :: x(u) >= 0.0
    requires sources <= keys && forall u | u in sources :: c(u) > 0.0
    requires Reaches(Forward(keys, edges), sources, v, n)
    ensures v in keys && x(v) > 0.0
    decreases n
  {
    if n == 0 {
      InflowNonNegative(edges, damping, x, v);
    } else {
      var w :| Reaches(Forward(keys, edges), sources, w, n - 1) && Forward(keys, edges)(w, v);
      ResponsePositive(keys, edges, damping, c, x, sources, w, n - 1);
      var e :| e in edges && e.from == w && e.to == v;
      EdgeBrings(edges, damping, x, e);
    }
  }

  lemma DownstreamNext(keys: set<Url>, edges: seq<LinkEdge>, sources: set<Url>, e: LinkEdge)
    requires Downstream(keys, edges, sources, e.from) && e in edges && e.from in keys && e.to in keys
    ensures Downstream(keys, edges, sources, e.to)
  {
    var n: nat :| Reaches(Forward(keys, edges), sources, e.from, n);
    assert Forward(keys, edges)(e.from, e.to);
    assert Reaches(Forward(keys, edges), sources, e.to, n + 1);
  }

  /** Nothing else does: off the downstream of the change the response is zero. */
  lemma ResponseStaysDownstream(nodes: seq<Url>, keys: set<Url>, edges: seq<LinkEdge>, damping: real, c: Url -> real,
                                x: Url -> real, sources: set<Url>)
    requires 0.0 <= damping < 1.0 && Enumerates(nodes, keys) && Responds(keys, edges, damping, c, x)
    requires forall u | u in keys && u !in sources :: c(u) == 0.0
    ensures forall v | !Downstream(keys, edges, sources, v) :: x(v) == 0.0
  {
    hide Inflow, Downstream;
    var size: Url -> real := v => Abs(x(v));
    var off: Url -> real := v => if Downstream(keys, edges, sources, v) then 0.0 else size(v);
    var zero: Url -> real := v => 0.0;
    forall u | u in keys
      ensures off(u) <= Inflow(edges, damping, off, u)
    {
      InflowNonNegative(edges, damping, off, u);
      if !Downstream(keys, edges, sources, u) {
        assert u !in sources by {
          if u in sources { SourceIsDownstream(keys, edges, sources, u); }
        }
        InflowDifference(edges, damping, x, zero, size, u);
        InflowLinear(edges, damping, 0.0, x, 0.0, x, zero, u);
        OffInflow(keys, edges, damping, size, off, sources, u);
      }
    }
    Vanishes(nodes, keys, edges, damping, off);
    forall v | !Downstream(keys, edges, sources, v)
      ensures x(v) == 0.0
    {
      assert off(v) == 0.0;
    }
  }

  lemma SourceIsDownstream(keys: set<Url>, edges: seq<LinkEdge>, sources: set<Url>, u: Url)
    requires u in sources
    ensures Downstream(keys, edges, sources, u)
  {
    assert Reaches(Forward(keys, edges), sources, u, 0);
  }

  /** A node off the downstream receives from such nodes only. */
  lemma OffInflow(keys: set<Url>, edges: seq<LinkEdge>, damping: real, size: Url -> real, off: Url -> real, sources: set<Url>, u: Url)
    requires u in keys && !Downstream(keys, edges, sources, u)
    requires forall v | v !in keys :: size(v) == 0.0
    requires forall v :: off(v) == if Downstream(keys, edges, sources, v) then 0.0 else size(v)
    ensures Inflow(edges, damping, size, u) == Inflow(edges, damping, off, u)
  {
    hide Downstream, Share;
    forall e | e in edges
      ensures Arrives(edges, damping, size, u, e) == Arrives(edges, damping, off, u, e)
    {
      if e.to == u {
        if e.from in keys && Downstream(keys, edges, sources, e.from) {
          DownstreamNext(keys, edges, sources, e);
        }
        assert size(e.from) == off(e.from);
        SameShare(edges, damping, size, off, e.from);
      }
    }
    SumEq(edges, e => Arrives(edges, damping, size, u, e), e => Arrives(edges, damping, off, u, e));
  }

  // ----- a solution exists

  /** x satisfies the rank equation at the active nodes and is start elsewhere. */
  ghost predicate Solves(keys: set<Url>, active: set<Url>, edges: seq<LinkEdge>, damping: real, base: real, start: Scores, x: Scores)
  {
    && x.Keys == keys && AgreeOutside(keys, active, start, x)
    && forall u | u in active :: Get(x)(u) == base + Inflow(edges, damping, Get(x), u)
  }

  lemma SolvedStays(keys: set<Url>, active: set<Url>, edges: seq<LinkEdge>, damping: real, base: real, start: Scores, x: Scores)
    requires active <= keys && Solves(keys, active, edges, damping, base, start, x)
    ensures Round(active, edges, damping, base, x) == x
  {
    hide Inflow;
    forall u | u in active
      ensures x[u] == base + Inflow(edges, damping, Get(x), u)
    {
      assert Get(x)(u) == x[u];
    }
  }

  /** Two solutions for one start are the same. */
  lemma SolutionUnique(nodes: seq<Url>, keys: set<Url>, active: set<Url>, edges: seq<LinkEdge>, damping: real, base: real,
                       start: Scores, x: Scores, y: Scores)
    requires 0.0 <= damping < 1.0 && Enumerates(nodes, keys) && active <= keys
    requires Solves(keys, active, edges, damping, base, start, x) && Solves(keys, active, edges, damping, base, start, y)
    ensures x == y
  {
    SolvedStays(keys, active, edges, damping, base, start, x);
    SolvedStays(keys, active, edges, damping, base, start, y);
    RoundContracts(nodes, keys, active, edges, damping, base, x, y);
    NoGap(nodes, damping, x, y);
    forall u | u in keys
      ensures x[u] == y[u]
    {
      GapCovers(nodes, x, y, u);
      hide Gap;
      assert Get(x)(u) == x[u] && Get(y)(u) == y[u];
    }
  }

  lemma NoGap(nodes: seq<Url>, damping: real, x: Scores, y: Scores)
    requires 0.0 <= damping < 1.0 && CloserBy(nodes, damping, x, y, x, y)
    ensures Gap(nodes, x, y) == 0.0
  {
    hide Gap, Times;
    GapNonNegative(nodes, x, y);
    ShrinksToZero(damping, Gap(nodes, x, y));
  }

  /** Of the solutions without the equation at v, indexed by the score y they
      give to v, one satisfies that equation too. */
  lemma {:induction false} SolutionExists(nodes: seq<Url>, keys: set<Url>, active: set<Url>, edges: seq<LinkEdge>, damping: real,
                                          base: real, start: Scores)
    returns (x: Scores)
    requires 0.0 <= damping < 1.0 && Enumerates(nodes, keys) && active <= keys
    ensures Solves(keys, active, edges, damping, base, start, x)
    decreases active
  {
    hide Inflow, Enumerates, Pinned, Mix, Line;
    if active == {} {
      x := map u | u in keys :: Get(start)(u);
    } else {
      var v :| v in active;
      var rest := active - {v};
      var x0 := SolutionExists(nodes, keys, rest, edges, damping, base, Pinned(start, v, 0.0));
      var x1 := SolutionExists(nodes, keys, rest, edges, damping, base, Pinned(start, v, 1.0));
      var i0, i1 := Inflow(edges, damping, Get(x0), v), Inflow(edges, damping, Get(x1), v);
      SlopeBelowOne(nodes, keys, active, v, edges, damping, base, start, x0, x1);
      var y := Crossing(base + i0, base + i1);
      x := Mix(keys, x0, x1, y);
      MixSolves(keys, active, v, edges, damping, base, start, x0, x1, y);
    }
  }

  /** The point on the line from a to b. */
  function Line(a: real, b: real, y: real): real
  {
    (1.0 - y) * a + y * b
  }

  /** Where a line less steep than one meets the diagonal. */
  ghost function Crossing(a: real, b: real): (y: real)
    requires b - a < 1.0
    ensures y == Line(a, b, y)
  {
    var y := a / (1.0 - (b - a));
    assert y * (1.0 - (b - a)) == a;
    y
  }

  /** The vector on the line through x0 and x1. */
  function Mix(keys: set<Url>, x0: Scores, x1: Scores, y: real): Scores
  {
    map u | u in keys :: Line(Get(x0)(u), Get(x1)(u), y)
  }

  lemma MixAt(keys: set<Url>, x0: Scores, x1: Scores, y: real, u: Url)
    requires x0.Keys == keys && x1.Keys == keys
    ensures Get(Mix(keys, x0, x1, y))(u) == Line(Get(x0)(u), Get(x1)(u), y)
  {
    LineBetween(0.0, y);
  }

  /** A line between equal points is constant, and shifts with its ends. */
  lemma LineBetween(a: real, y: real)
    ensures Line(a, a, y) == a && Line(0.0, 1.0, y) == y
  {
  }

  lemma LineShifts(c: real, a: real, b: real, y: real)
    ensures Line(c + a, c + b, y) == c + Line(a, b, y)
  {
  }

  lemma InflowMix(keys: set<Url>, edges: seq<LinkEdge>, damping: real, x0: Scores, x1: Scores, y: real, u: Url)
    requires x0.Keys == keys && x1.Keys == keys
    ensures Inflow(edges, damping, Get(Mix(keys, x0, x1, y)), u)
         == Line(Inflow(edges, damping, Get(x0), u), Inflow(edges, damping, Get(x1), u), y)
  {
    hide Inflow, Mix;
    forall v
      ensures Get(Mix(keys, x0, x1, y))(v) == (1.0 - y) * Get(x0)(v) + y * Get(x1)(v)
    {
      MixAt(keys, x0, x1, y, v);
    }
    InflowLinear(edges, damping, 1.0 - y, Get(x0), y, Get(x1), Get(Mix(keys, x0, x1, y)), u);
  }

  /** start with the score of v set to a. */
  function Pinned(start: Scores, v: Url, a: real): Scores
  {
    start[v := a]
  }

  lemma PinnedOutside(keys: set<Url>, active: set<Url>, v: Url, start: Scores, a: real, x: Scores)
    requires v in active && active <= keys && AgreeOutside(keys, active - {v}, Pinned(start, v, a), x)
    ensures AgreeOutside(keys, active, start, x) && Get(x)(v) == a
  {
    assert v in keys - (active - {v});
    forall u | u in keys - active
      ensures Get(start)(u) == Get(x)(u)
    {
      assert u in keys - (active - {v});
    }
  }

  lemma MixSolves(keys: set<Url>, active: set<Url>, v: Url, edges: seq<LinkEdge>, damping: real, base: real, start: Scores,
                  x0: Scores, x1: Scores, y: real)
    requires v in active && active <= keys
    requires Solves(keys, active - {v}, edges, damping, base, Pinned(start, v, 0.0), x0)
    requires Solves(keys, active - {v}, edges, damping, base, Pinned(start, v, 1.0), x1)
    requires y == Line(base + Inflow(edges, damping, Get(x0), v), base + Inflow(edges, damping, Get(x1), v), y)
    ensures Solves(keys, active, edges, damping, base, start, Mix(keys, x0, x1, y))
  {
    hide Inflow, Line, Get, Pinned;
    var x := Mix(keys, x0, x1, y);
    PinnedOutside(keys, active, v, start, 0.0, x0);
    PinnedOutside(keys, active, v, start, 1.0, x1);
    forall u | u in keys - active
      ensures Get(start)(u) == Get(x)(u)
    {
      MixAt(keys, x0, x1, y, u);
      LineBetween(Get(start)(u), y);
    }
    forall u | u in active
      ensures Get(x)(u) == base + Inflow(edges, damping, Get(x), u)
    {
      MixAt(keys, x0, x1, y, u);
      InflowMix(keys, edges, damping, x0, x1, y, u);
      LineShifts(base, Inflow(edges, damping, Get(x0), u), Inflow(edges, damping, Get(x1), u), y);
      if u == v {
        LineBetween(0.0, y);
      } else {
        assert u in active - {v};
      }
    }
  }

  /** Where a round moves the two solutions apart: at v only. */
  lemma SlopeAt(keys: set<Url>, active: set<Url>, v: Url, edges: seq<LinkEdge>, damping: real, base: real, start: Scores,
                x0: Scores, x1: Scores, u: Url)
    requires u in keys && v in active && active <= keys && Get(x0)(v) == 0.0 && Get(x1)(v) == 1.0
    requires Solves(keys, active - {v}, edges, damping, base, Pinned(start, v, 0.0), x0)
    requires Solves(keys, active - {v}, edges, damping, base, Pinned(start, v, 1.0), x1)
    ensures Distance(Round(active, edges, damping, base, x1), Round(active, edges, damping, base, x0))(u)
         == Distance(x1, x0)(u)
            + if u == v then Abs(Inflow(edges, damping, Get(x1), v) - Inflow(edges, damping, Get(x0), v)) - 1.0 else 0.0
  {
    hide Inflow, Round;
    RoundAt(active, edges, damping, base, x0, u);
    RoundAt(active, edges, damping, base, x1, u);
    DistanceAt(Round(active, edges, damping, base, x1), Round(active, edges, damping, base, x0), u);
    DistanceAt(x1, x0, u);
    if u in active && u != v {
      assert u in active - {v};
    }
  }

  /** One unit more for v brings back at most the damping factor. */
  lemma SlopeBelowOne(nodes: seq<Url>, keys: set<Url>, active: set<Url>, v: Url, edges: seq<LinkEdge>, damping: real, base: real,
                      start: Scores, x0: Scores, x1: Scores)
    requires 0.0 <= damping < 1.0 && Enumerates(nodes, keys) && v in active && active <= keys
    requires Solves(keys, active - {v}, edges, damping, base, Pinned(start, v, 0.0), x0)
    requires Solves(keys, active - {v}, edges, damping, base, Pinned(start, v, 1.0), x1)
    ensures Inflow(edges, damping, Get(x1), v) - Inflow(edges, damping, Get(x0), v) < 1.0
  {
    PinnedOutside(keys, active, v, start, 0.0, x0);
    PinnedOutside(keys, active, v, start, 1.0, x1);
    hide Inflow, Round, Solves, Distance;
    var r0, r1 := Round(active, edges, damping, base, x0), Round(active, edges, damping, base, x1);
    var slope := Inflow(edges, damping, Get(x1), v) - Inflow(edges, damping, Get(x0), v);
    RoundContracts(nodes, keys, active, edges, damping, base, x1, x0);
    var change: Url -> real := u => if u == v then Abs(slope) - 1.0 else 0.0;
    forall u | u in nodes
      ensures Distance(r1, r0)(u) == Distance(x1, x0)(u) + change(u)
    {
      SlopeAt(keys, active, v, edges, damping, base, start, x0, x1, u);
    }
    SumPick(nodes, v, Abs(slope) - 1.0, change);
    SumAdd(nodes, Distance(x1, x0), change, Distance(r1, r0));
    GapCovers(nodes, x1, x0, v);
    SlopeArithmetic(damping, Gap(nodes, x1, x0), Abs(slope));
  }

  lemma SlopeArithmetic(d: real, g: real, a: real)
    requires 0.0 <= d < 1.0 && g >= 1.0 && g + (a - 1.0) <= Times(d, g)
    ensures a < 1.0
  {
    assert (1.0 - d) * g > 0.0;
  }

  /** The scores that PageRank stands for: the solution of the rank equation. */
  ghost function Ranks(keys: set<Url>, edges: seq<LinkEdge>, damping: real): (r: Scores)
    requires keys != {} && 0.0 <= damping < 1.0
    ensures IsFixedPoint(keys, edges, damping, r)
  {
    RanksExist(keys, edges, damping);
    var r :| IsFixedPoint(keys, edges, damping, r);
    r
  }

  /** The rank equation has a solution, for every graph. */
  lemma RanksExist(keys: set<Url>, edges: seq<LinkEdge>, damping: real)
    requires keys != {} && 0.0 <= damping < 1.0
    ensures exists r :: IsFixedPoint(keys, edges, damping, r)
  {
    hide Base;
    var nodes := Enumeration(keys);
    var base := Base(keys, damping);
    var r := SolutionExists(nodes, keys, keys, edges, damping, base, map[]);
    SolvedStays(keys, keys, edges, damping, base, map[], r);
    assert IsFixedPoint(keys, edges, damping, r);
  }

  /** And only one. */
  lemma RanksUnique(keys: set<Url>, edges: seq<LinkEdge>, damping: real, s: Scores)
    requires keys != {} && 0.0 <= damping < 1.0 && IsFixedPoint(keys, edges, damping, s)
    ensures s == Ranks(keys, edges, damping)
  {
    var nodes := Enumeration(keys);
    FixedPointUnique(nodes, keys, edges, damping, s, Ranks(keys, edges, damping));
  }

  // ----- convergence

  /** Bernoulli's inequality, for the reciprocal of the damping factor. */
  lemma {:induction false} Bernoulli(d: real, r: real, k: nat)
    requires 0.0 < d < 1.0 && r > 0.0 && d * (1.0 + r) == 1.0
    ensures 0.0 < Power(d, k) && Power(d, k) * (1.0 + k as real * r) <= 1.0
  {
    if k > 0 {
      Bernoulli(d, r, k - 1);
      BernoulliStep(d, r, (k - 1) as real, Power(d, k - 1));
    }
  }

  lemma BernoulliStep(d: real, r: real, k: real, p: real)
    requires 0.0 < d && r > 0.0 && d * (1.0 + r) == 1.0 && k >= 0.0
    requires p > 0.0 && p * (1.0 + k * r) <= 1.0
    ensures 0.0 < d * p && d * p * (1.0 + (k + 1.0) * r) <= 1.0
  {
    var a := 1.0 + k * r;
    var b := 1.0 + (k + 1.0) * r;
    assert b <= a * (1.0 + r) by {
      assert a * (1.0 + r) == b + k * r * r;
      assert k * r * r >= 0.0;
    }
    var m := d * p;
    assert m * b <= m * (a * (1.0 + r));
    assert m * (a * (1.0 + r)) == p * a * (d * (1.0 + r));
  }

  /** Powers of the damping factor get below any bound. */
  lemma PowerSmall(d: real, c: real, eps: real) returns (k: nat)
    requires 0.0 <= d < 1.0 && c >= 0.0 && eps > 0.0
    ensures Times(Power(d, k), c) < eps
  {
    if d == 0.0 {
      k := 1;
      assert Power(d, 1) == 0.0;
    } else {
      var r := 1.0 / d - 1.0;
      assert d * (1.0 + r) == 1.0;
      assert r > 0.0 by { assert 1.0 / d > 1.0; }
      k := (c / (eps * r)).Floor + 1;
      Bernoulli(d, r, k);
      Dominates(c, eps, r, k as real, Power(d, k));
    }
  }

  lemma Dominates(c: real, eps: real, r: real, k: real, p: real)
    requires c >= 0.0 && eps > 0.0 && r > 0.0 && k > c / (eps * r)
    requires p > 0.0 && p * (1.0 + k * r) <= 1.0
    ensures p * c < eps
  {
    var e := eps * r;
    assert k * e > c by { assert c / e * e == c; }
    assert p * c < p * (k * e);
    assert p * (k * e) == eps * (p * (k * r));
    assert p * (k * r) == p * (1.0 + k * r) - p;
    assert eps * (p * (k * r)) <= eps * 1.0;
  }

  lemma {:induction false} PowersFall(d: real, k: nat, m: nat)
    requires 0.0 <= d < 1.0 && k <= m
    ensures Power(d, m) <= Power(d, k)
    decreases m
  {
    if k < m {
      PowersFall(d, k, m - 1);
      PowerFalls(d, m - 1);
    }
  }

  lemma PowerFalls(d: real, m: nat)
    requires 0.0 <= d < 1.0
    ensures Power(d, m + 1) <= Power(d, m)
  {
    PowerTimes(d, m);
    PowerNonNegative(d, m);
    hide Power, Times;
    FactorFalls(d, Power(d, m));
  }

  lemma PowerTimes(d: real, m: nat)
    ensures Power(d, m + 1) == Times(d, Power(d, m))
  {
  }

  lemma FactorFalls(d: real, p: real)
    requires 0.0 <= d < 1.0 && p >= 0.0
    ensures Times(d, p) <= p
  {
    ProductNonNegative(1.0 - d, p);
  }

  /** From round k0 on the scores stay within eps of the limit, in total absolute difference. */
  ghost predicate WithinFrom(nodes: seq<Url>, active: set<Url>, edges: seq<LinkEdge>, damping: real, base: real, start: Scores,
                             limit: Scores, eps: real, k0: nat)
  {
    forall k: nat | k >= k0 :: Gap(nodes, Iterate(active, edges, damping, base, start, k), limit) < eps
  }

  /** The rounds bring the scores as close to the limit as one likes, and they stay there. */
  ghost predicate Converges(nodes: seq<Url>, active: set<Url>, edges: seq<LinkEdge>, damping: real, base: real, start: Scores,
                            limit: Scores)
  {
    forall eps: real | eps > 0.0 :: Settles(nodes, active, edges, damping, base, start, limit, eps)
  }

  ghost predicate Settles(nodes: seq<Url>, active: set<Url>, edges: seq<LinkEdge>, damping: real, base: real, start: Scores,
                          limit: Scores, eps: real)
  {
    exists k0: nat :: WithinFrom(nodes, active, edges, damping, base, start, limit, eps, k0)
  }

  /** The iteration over any set of active nodes converges to the solution for its start. */
  lemma ConvergesToSolution(nodes: seq<Url>, keys: set<Url>, active: set<Url>, edges: seq<LinkEdge>, damping: real, base: real,
                            start: Scores, x: Scores)
    requires 0.0 <= damping < 1.0 && Enumerates(nodes, keys) && active <= keys && start.Keys <= keys
    requires Solves(keys, active, edges, damping, base, start, x)
    ensures Converges(nodes, active, edges, damping, base, start, x)
  {
    hide WithinFrom, Round, Solves, Enumerates, Iterate, Times, Power, Gap, AgreeOutside;
    SolvedStays(keys, active, edges, damping, base, start, x);
    SolvedAgrees(keys, active, edges, damping, base, start, x);
    GapNonNegative(nodes, start, x);
    forall eps: real | eps > 0.0
      ensures Settles(nodes, active, edges, damping, base, start, x, eps)
    {
      var k0 := PowerSmall(damping, Gap(nodes, start, x), eps);
      WithinByPower(nodes, keys, active, edges, damping, base, start, x, eps, k0);
    }
  }

  lemma SolvedAgrees(keys: set<Url>, active: set<Url>, edges: seq<LinkEdge>, damping: real, base: real, start: Scores, x: Scores)
    requires Solves(keys, active, edges, damping, base, start, x)
    ensures x.Keys == keys && AgreeOutside(keys, active, start, x)
  {
  }

  lemma WithinByPower(nodes: seq<Url>, keys: set<Url>, active: set<Url>, edges: seq<LinkEdge>, damping: real, base: real,
                      start: Scores, x: Scores, eps: real, k0: nat)
    requires 0.0 <= damping < 1.0 && Enumerates(nodes, keys) && active <= keys && start.Keys <= keys && x.Keys <= keys
    requires AgreeOutside(keys, active, start, x) && Round(active, edges, damping, base, x) == x
    requires Times(Power(damping, k0), Gap(nodes, start, x)) < eps
    ensures WithinFrom(nodes, active, edges, damping, base, start, x, eps, k0)
  {
    hide Round, Enumerates, Iterate, Times, Power, Gap, AgreeOutside;
    GapNonNegative(nodes, start, x);
    forall k: nat | k >= k0
      ensures Gap(nodes, Iterate(active, edges, damping, base, start, k), x) < eps
    {
      FixedPointStays(active, edges, damping, base, x, k);
      IterateContracts(nodes, keys, active, edges, damping, base, start, x, k);
      PowersFall(damping, k0, k);
      TimesMonotone(Power(damping, k), Power(damping, k0), Gap(nodes, start, x));
    }
  }

  lemma TimesMonotone(p: real, q: real, g: real)
    requires p <= q && g >= 0.0
    ensures Times(p, g) <= Times(q, g)
  {
  }

  /** A node's score has at most one limit. */
  lemma LimitsAgree(nodes: seq<Url>, more: seq<Url>, active: set<Url>, edges: seq<LinkEdge>, damping: real, base: real,
                    start: Scores, x: Scores, y: Scores, u: Url)
    requires Converges(nodes, active, edges, damping, base, start, x) && Converges(more, active, edges, damping, base, start, y)
    requires Distinct(nodes) && Distinct(more) && u in nodes && u in more
    ensures Get(x)(u) == Get(y)(u)
  {
    hide Gap, Iterate, Get;
    var d := Abs(Get(x)(u) - Get(y)(u));
    if d > 0.0 {
      var half := d / 2.0;
      assert Settles(nodes, active, edges, damping, base, start, x, half) && Settles(more, active, edges, damping, base, start, y, half);
      var i: nat :| WithinFrom(nodes, active, edges, damping, base, start, x, half, i);
      var j: nat :| WithinFrom(more, active, edges, damping, base, start, y, half, j);
      var k := i + j;
      var r := Iterate(active, edges, damping, base, start, k);
      assert Gap(nodes, r, x) < half && Gap(more, r, y) < half;
      GapCovers(nodes, r, x, u);
      GapCovers(more, r, y, u);
      assert false;
    }
  }

  /** PageRank from any start converges to the ranks: initialising every node to
      the base instead of 1/n does not change the limit, which exists. */
  lemma RankConverges(nodes: seq<Url>, keys: set<Url>, edges: seq<LinkEdge>, damping: real, start: Scores)
    requires keys != {} && 0.0 <= damping < 1.0 && Enumerates(nodes, keys) && start.Keys == keys
    ensures Converges(nodes, keys, edges, damping, Base(keys, damping), start, Ranks(keys, edges, damping))
  {
    hide Converges, Base, Enumerates;
    var r := Ranks(keys, edges, damping);
    FixedPointSolves(keys, edges, damping, start, r);
    ConvergesToSolution(nodes, keys, keys, edges, damping, Base(keys, damping), start, r);
  }

  lemma FixedPointSolves(keys: set<Url>, edges: seq<LinkEdge>, damping: real, start: Scores, r: Scores)
    requires keys != {} && IsFixedPoint(keys, edges, damping, r)
    ensures Solves(keys, keys, edges, damping, Base(keys, damping), start, r)
  {
    hide Inflow, Base, Round;
    forall u | u in keys
      ensures Get(r)(u) == Base(keys, damping) + Inflow(edges, damping, Get(r), u)
    {
      RoundAt(keys, edges, damping, Base(keys, damping), r, u);
    }
  }

  /** The scores that compute_pagerank returns after more and more rounds converge to the ranks. */
  lemma DenseConverges(nodes: seq<Url>, keys: set<Url>, edges: seq<LinkEdge>, damping: real, eps: real) returns (k0: nat)
    requires keys != {} && 0.0 <= damping < 1.0 && Enumerates(nodes, keys) && eps > 0.0
    ensures forall k: nat | k >= k0 :: Gap(nodes, Dense(keys, edges, damping, k), Ranks(keys, edges, damping)) < eps
  {
    hide Base, Gap, Iterate;
    RankConverges(nodes, keys, edges, damping, BaseScores(keys, damping));
    assert Settles(nodes, keys, edges, damping, Base(keys, damping), BaseScores(keys, damping), Ranks(keys, edges, damping), eps);
    k0 :| WithinFrom(nodes, keys, edges, damping, Base(keys, damping), BaseScores(keys, damping), Ranks(keys, edges, damping), eps, k0);
    forall k: nat | k >= k0
      ensures Gap(nodes, Dense(keys, edges, damping, k), Ranks(keys, edges, damping)) < eps
    {
    }
  }
}
