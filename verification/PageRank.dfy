/** compute_pagerank: the sparse loop, and the guarantees of its result. */
module PageRank {
  import opened CrawlGraph
  import opened PageRankTheory
  import opened RankLoops
  import opened Sums
  import opened Wrappers

  // ----- the sparse loop ranks only the nodes that have an incoming edge

  ghost function WithIncoming(keys: set<Url>, edges: seq<LinkEdge>): set<Url>
  {
    set u | u in keys && exists e :: e in edges && e.to == u
  }

  lemma NoInflow(edges: seq<LinkEdge>, damping: real, x: Url -> real, u: Url)
    requires forall e | e in edges :: e.to != u
    ensures Inflow(edges, damping, x, u) == 0.0
  {
    SumConst(edges, 0.0, e => Arrives(edges, damping, x, u, e));
  }

  lemma SparseRound(keys: set<Url>, edges: seq<LinkEdge>, damping: real, base: real, scores: Scores)
    requires scores.Keys == keys
    requires forall u | u in keys - WithIncoming(keys, edges) :: scores[u] == base
    ensures Round(WithIncoming(keys, edges), edges, damping, base, scores) == Round(keys, edges, damping, base, scores)
    ensures forall u | u in keys - WithIncoming(keys, edges) :: Round(keys, edges, damping, base, scores)[u] == base
  {
    forall u | u in keys - WithIncoming(keys, edges)
      ensures Inflow(edges, damping, Get(scores), u) == 0.0
    {
      NoInflow(edges, damping, Get(scores), u);
    }
    hide Inflow, WithIncoming;
    assert WithIncoming(keys, edges) <= keys by { SparseWithin(keys, edges); }
  }

  lemma SparseWithin(keys: set<Url>, edges: seq<LinkEdge>)
    ensures WithIncoming(keys, edges) <= keys
  {
  }

  /** Skipping the nodes without incoming edges changes nothing, in any number of rounds. */
  lemma {:induction false} SparseIsDense(keys: set<Url>, edges: seq<LinkEdge>, damping: real, rounds: nat)
    requires keys != {}
    ensures Iterate(WithIncoming(keys, edges), edges, damping, Base(keys, damping), BaseScores(keys, damping), rounds)
         == Dense(keys, edges, damping, rounds)
    ensures forall u | u in keys - WithIncoming(keys, edges) ::
              Dense(keys, edges, damping, rounds)[u] == Base(keys, damping)
  {
    hide Inflow, WithIncoming, Base, Round;
    if rounds > 0 {
      SparseIsDense(keys, edges, damping, rounds - 1);
      SparseRound(keys, edges, damping, Base(keys, damping), Dense(keys, edges, damping, rounds - 1));
    }
  }

  // ----- bounds

  lemma {:induction false} PowerPositive(x: real, n: nat)
    requires x > 0.0
    ensures Power(x, n) > 0.0
  {
    if n > 0 { PowerPositive(x, n - 1); }
  }

  lemma {:induction false} PowerNonNegative(x: real, n: nat)
    requires x >= 0.0
    ensures Power(x, n) >= 0.0
  {
    if n > 0 { PowerNonNegative(x, n - 1); }
  }

  lemma {:induction false} CountDistinct(nodes: seq<Url>, keys: set<Url>)
    requires Enumerates(nodes, keys)
    ensures |nodes| == |keys|
  {
    if nodes == [] {
      assert keys == {};
    } else {
      var u := nodes[|nodes| - 1];
      var r := nodes[..|nodes| - 1];
      assert nodes == r + [u];
      forall v
        ensures v in r <==> v in keys - {u}
      {
        assert v in nodes <==> v in r || v == u;
      }
      CountDistinct(r, keys - {u});
    }
  }

  lemma BaseTotal(nodes: seq<Url>, keys: set<Url>, damping: real)
    requires keys != {} && Enumerates(nodes, keys)
    ensures Total(nodes, BaseScores(keys, damping)) == 1.0 - damping
  {
    CountDistinct(nodes, keys);
    SumConst(nodes, Base(keys, damping), Get(BaseScores(keys, damping)));
  }

  lemma BasePositive(keys: set<Url>, damping: real)
    requires keys != {} && damping < 1.0
    ensures Base(keys, damping) > 0.0
  {
    assert |keys| > 0;
  }

  lemma DenseFirst(keys: set<Url>, edges: seq<LinkEdge>, damping: real, u: Url)
    requires keys != {}
    ensures Get(Dense(keys, edges, damping, 0))(u) == if u in keys then Base(keys, damping) else 0.0
  {
  }

  lemma DenseNext(keys: set<Url>, edges: seq<LinkEdge>, damping: real, rounds: nat)
    requires keys != {}
    ensures Dense(keys, edges, damping, rounds + 1)
         == Round(keys, edges, damping, Base(keys, damping), Dense(keys, edges, damping, rounds))
  {
  }

  lemma DenseKeys(keys: set<Url>, edges: seq<LinkEdge>, damping: real, rounds: nat, u: Url)
    requires keys != {} && u !in keys
    ensures Get(Dense(keys, edges, damping, rounds))(u) == 0.0
  {
  }

  /** Every score stays at or above the base. */
  lemma {:induction false} Floor(keys: set<Url>, edges: seq<LinkEdge>, damping: real, rounds: nat, u: Url)
    requires keys != {} && 0.0 <= damping < 1.0
    ensures Base(keys, damping) > 0.0
    ensures Get(Dense(keys, edges, damping, rounds))(u) >= if u in keys then Base(keys, damping) else 0.0
  {
    hide Inflow, Base, Round, Get, Dense;
    BasePositive(keys, damping);
    DenseFirst(keys, edges, damping, u);
    if rounds > 0 {
      var before := Dense(keys, edges, damping, rounds - 1);
      DenseNext(keys, edges, damping, rounds - 1);
      forall v
        ensures Get(before)(v) >= 0.0
      {
        Floor(keys, edges, damping, rounds - 1, v);
      }
      InflowNonNegative(edges, damping, Get(before), u);
      RoundAt(keys, edges, damping, Base(keys, damping), before, u);
      if u !in keys {
        DenseKeys(keys, edges, damping, rounds, u);
      }
    }
  }

  lemma RoundSplit(keys: set<Url>, edges: seq<LinkEdge>, damping: real, scores: Scores, u: Url)
    requires keys != {} && u in keys
    ensures Get(Round(keys, edges, damping, Base(keys, damping), scores))(u)
         == Get(BaseScores(keys, damping))(u) + Inflow(edges, damping, Get(scores), u)
  {
    hide Inflow, Base, Round;
    RoundAt(keys, edges, damping, Base(keys, damping), scores, u);
  }

  /** The exact balance of one round: fresh mass, damped old mass, minus what leaks. */
  lemma RoundBalance(nodes: seq<Url>, keys: set<Url>, edges: seq<LinkEdge>, damping: real, scores: Scores)
    requires keys != {} && Enumerates(nodes, keys) && scores.Keys == keys
    ensures Total(nodes, Round(keys, edges, damping, Base(keys, damping), scores))
         == 1.0 - damping + damping * Total(nodes, scores)
            - Sum(nodes, v => Leak(keys, edges, damping, Get(scores), v))
  {
    hide Inflow, Leak, Base, Round, Sum, BaseScores;
    var after := Round(keys, edges, damping, Base(keys, damping), scores);
    forall u | u in nodes
      ensures Get(after)(u) == Get(BaseScores(keys, damping))(u) + Inflow(edges, damping, Get(scores), u)
    {
      RoundSplit(keys, edges, damping, scores, u);
    }
    SumAdd(nodes, Get(BaseScores(keys, damping)), u => Inflow(edges, damping, Get(scores), u), Get(after));
    BaseTotal(nodes, keys, damping);
    Conservation(nodes, keys, edges, damping, Get(scores));
  }

  /** What node v loses in the round after the given number of rounds. */
  function DenseLeak(keys: set<Url>, edges: seq<LinkEdge>, damping: real, rounds: nat, v: Url): real
    requires keys != {}
  {
    Leak(keys, edges, damping, Get(Dense(keys, edges, damping, rounds)), v)
  }

  /** The loss of that round, over all nodes. */
  function Leaked(nodes: seq<Url>, keys: set<Url>, edges: seq<LinkEdge>, damping: real, rounds: nat): real
    requires keys != {}
  {
    Sum(nodes, v => DenseLeak(keys, edges, damping, rounds, v))
  }

  lemma DenseLeakAt(keys: set<Url>, edges: seq<LinkEdge>, damping: real, rounds: nat, v: Url)
    requires keys != {} && 0.0 <= damping < 1.0
    ensures DenseLeak(keys, edges, damping, rounds, v) >= 0.0
    ensures damping > 0.0 && v in keys ==> (DenseLeak(keys, edges, damping, rounds, v) == 0.0 <==> Tight(keys, edges, v))
  {
    var x := Get(Dense(keys, edges, damping, rounds));
    Floor(keys, edges, damping, rounds, v);
    hide Leak, Dense, Tight, Base;
    LeakNonNegative(keys, edges, damping, x, v);
    if damping > 0.0 && v in keys {
      LeakExactly(keys, edges, damping, x, v);
    }
  }

  lemma LeaksNonNegative(nodes: seq<Url>, keys: set<Url>, edges: seq<LinkEdge>, damping: real, rounds: nat)
    requires keys != {} && 0.0 <= damping < 1.0
    ensures Leaked(nodes, keys, edges, damping, rounds) >= 0.0
  {
    hide DenseLeak;
    forall v
      ensures DenseLeak(keys, edges, damping, rounds, v) >= 0.0
    {
      DenseLeakAt(keys, edges, damping, rounds, v);
    }
    SumNonNegative(nodes, v => DenseLeak(keys, edges, damping, rounds, v));
  }

  lemma DenseBalance(nodes: seq<Url>, keys: set<Url>, edges: seq<LinkEdge>, damping: real, rounds: nat)
    requires keys != {} && Enumerates(nodes, keys)
    ensures Total(nodes, Dense(keys, edges, damping, rounds + 1))
         == 1.0 - damping + damping * Total(nodes, Dense(keys, edges, damping, rounds))
            - Leaked(nodes, keys, edges, damping, rounds)
  {
    hide Leak, Round, Total, Base, BaseScores;
    var before := Dense(keys, edges, damping, rounds);
    RoundBalance(nodes, keys, edges, damping, before);
    SumEq(nodes, v => Leak(keys, edges, damping, Get(before), v), v => DenseLeak(keys, edges, damping, rounds, v));
  }

  lemma DenseStart(nodes: seq<Url>, keys: set<Url>, edges: seq<LinkEdge>, damping: real)
    requires keys != {} && Enumerates(nodes, keys)
    ensures Total(nodes, Dense(keys, edges, damping, 0)) == 1.0 - damping
    ensures Power(damping, 0) == 1.0
  {
    hide Total, Round;
    BaseTotal(nodes, keys, damping);
  }

  /** Total score after any number of rounds; it never reaches one. */
  lemma {:induction false} TotalBound(nodes: seq<Url>, keys: set<Url>, edges: seq<LinkEdge>, damping: real, rounds: nat)
    requires keys != {} && Enumerates(nodes, keys) && 0.0 <= damping < 1.0
    ensures Total(nodes, Dense(keys, edges, damping, rounds)) <= 1.0 - Power(damping, rounds + 1)
  {
    hide *;
    PowerStep(damping, rounds);
    if rounds == 0 {
      DenseStart(nodes, keys, edges, damping);
    } else {
      TotalBound(nodes, keys, edges, damping, rounds - 1);
      DenseBalance(nodes, keys, edges, damping, rounds - 1);
      LeaksNonNegative(nodes, keys, edges, damping, rounds - 1);
      BelowOneStep(damping, Total(nodes, Dense(keys, edges, damping, rounds - 1)), Power(damping, rounds),
                   Leaked(nodes, keys, edges, damping, rounds - 1), Total(nodes, Dense(keys, edges, damping, rounds)),
                   Power(damping, rounds + 1));
    }
  }

  lemma PowerStep(x: real, n: nat)
    ensures Power(x, n + 1) == x * Power(x, n)
  {
  }

  lemma BelowOneStep(d: real, total: real, p: real, leaked: real, next: real, q: real)
    requires 0.0 <= d && total <= 1.0 - p && leaked >= 0.0
    requires next == 1.0 - d + d * total - leaked && q == d * p
    ensures next <= 1.0 - q
  {
    var slack := 1.0 - p - total;
    assert d * slack >= 0.0;
    assert d * slack == d - d * p - d * total;
  }

  /** Every score lies between the base and one, and all scores together stay below one. */
  lemma ScoresBounded(keys: set<Url>, nodes: seq<Url>, edges: seq<LinkEdge>, damping: real, rounds: nat, u: Url)
    requires u in keys && Enumerates(nodes, keys) && 0.0 <= damping < 1.0
    ensures 0.0 < Base(keys, damping) <= Dense(keys, edges, damping, rounds)[u] <= 1.0
    ensures Total(nodes, Dense(keys, edges, damping, rounds)) <= 1.0 - Power(damping, rounds + 1) <= 1.0
  {
    var scores := Dense(keys, edges, damping, rounds);
    forall v
      ensures Get(scores)(v) >= if v in keys then Base(keys, damping) else 0.0
      ensures Base(keys, damping) > 0.0
    {
      Floor(keys, edges, damping, rounds, v);
    }
    TotalBound(nodes, keys, edges, damping, rounds);
    PowerNonNegative(damping, rounds + 1);
    hide *;
    OneTerm(nodes, scores, u);
  }

  lemma OneTerm(nodes: seq<Url>, scores: Scores, u: Url)
    requires Distinct(nodes) && u in nodes
    requires forall v :: Get(scores)(v) >= 0.0
    ensures Get(scores)(u) <= Total(nodes, scores)
  {
    var only := v => if v == u then Get(scores)(u) else 0.0;
    SumPick(nodes, u, Get(scores)(u), only);
    SumLe(nodes, only, Get(scores));
  }

  /** The bound is met exactly when the graph loses no mass: every node has an
      outgoing edge, and no edge leaving a node ends outside the node set. */
  lemma TotalExactlyWhenTight(nodes: seq<Url>, keys: set<Url>, edges: seq<LinkEdge>, damping: real, rounds: nat)
    requires keys != {} && Enumerates(nodes, keys) && 0.0 < damping < 1.0 && rounds > 0
    ensures Total(nodes, Dense(keys, edges, damping, rounds)) == 1.0 - Power(damping, rounds + 1)
       <==> forall v | v in keys :: Tight(keys, edges, v)
  {
    hide Tight, Total, Dense;
    if forall v | v in keys :: Tight(keys, edges, v) {
      TotalWhenTight(nodes, keys, edges, damping, rounds);
    } else {
      var v :| v in keys && !Tight(keys, edges, v);
      TotalWhenLeaking(nodes, keys, edges, damping, rounds, v);
    }
  }

  lemma TotalWhenLeaking(nodes: seq<Url>, keys: set<Url>, edges: seq<LinkEdge>, damping: real, rounds: nat, v: Url)
    requires Enumerates(nodes, keys) && 0.0 < damping < 1.0 && rounds > 0
    requires v in keys && !Tight(keys, edges, v)
    ensures Total(nodes, Dense(keys, edges, damping, rounds)) < 1.0 - Power(damping, rounds + 1)
  {
    hide *;
    LeakedPositive(nodes, keys, edges, damping, rounds - 1, v);
    TotalBound(nodes, keys, edges, damping, rounds - 1);
    DenseBalance(nodes, keys, edges, damping, rounds - 1);
    PowerStep(damping, rounds);
    BelowOneStrictly(damping, Total(nodes, Dense(keys, edges, damping, rounds - 1)), Power(damping, rounds),
                     Leaked(nodes, keys, edges, damping, rounds - 1), Total(nodes, Dense(keys, edges, damping, rounds)),
                     Power(damping, rounds + 1));
  }

  lemma BelowOneStrictly(d: real, total: real, p: real, leaked: real, next: real, q: real)
    requires 0.0 <= d && total <= 1.0 - p && leaked > 0.0
    requires next == 1.0 - d + d * total - leaked && q == d * p
    ensures next < 1.0 - q
  {
    BelowOneStep(d, total, p, 0.0, next + leaked, q);
  }

  lemma {:induction false} TotalWhenTight(nodes: seq<Url>, keys: set<Url>, edges: seq<LinkEdge>, damping: real, rounds: nat)
    requires keys != {} && Enumerates(nodes, keys) && 0.0 < damping < 1.0
    requires forall v | v in keys :: Tight(keys, edges, v)
    ensures Total(nodes, Dense(keys, edges, damping, rounds)) == 1.0 - Power(damping, rounds + 1)
  {
    hide *;
    PowerStep(damping, rounds);
    if rounds == 0 {
      DenseStart(nodes, keys, edges, damping);
    } else {
      TotalWhenTight(nodes, keys, edges, damping, rounds - 1);
      LeakedZero(nodes, keys, edges, damping, rounds - 1);
      DenseBalance(nodes, keys, edges, damping, rounds - 1);
      AtOneStep(damping, Total(nodes, Dense(keys, edges, damping, rounds - 1)), Power(damping, rounds));
    }
  }

  lemma AtOneStep(d: real, total: real, p: real)
    requires total == 1.0 - p
    ensures d * total == d - d * p
  {
  }

  lemma LeakedZero(nodes: seq<Url>, keys: set<Url>, edges: seq<LinkEdge>, damping: real, rounds: nat)
    requires keys != {} && Enumerates(nodes, keys) && 0.0 < damping < 1.0
    requires forall v | v in keys :: Tight(keys, edges, v)
    ensures Leaked(nodes, keys, edges, damping, rounds) == 0.0
  {
    hide DenseLeak, Tight;
    forall v | v in nodes
      ensures DenseLeak(keys, edges, damping, rounds, v) == 0.0
    {
      DenseLeakAt(keys, edges, damping, rounds, v);
    }
    SumConst(nodes, 0.0, v => DenseLeak(keys, edges, damping, rounds, v));
  }

  lemma LeakedPositive(nodes: seq<Url>, keys: set<Url>, edges: seq<LinkEdge>, damping: real, rounds: nat, v: Url)
    requires keys != {} && Enumerates(nodes, keys) && 0.0 < damping < 1.0
    requires v in keys && !Tight(keys, edges, v)
    ensures Leaked(nodes, keys, edges, damping, rounds) > 0.0
  {
    hide DenseLeak, Tight;
    forall u
      ensures DenseLeak(keys, edges, damping, rounds, u) >= 0.0
    {
      DenseLeakAt(keys, edges, damping, rounds, u);
    }
    DenseLeakAt(keys, edges, damping, rounds, v);
    SumConst(nodes, 0.0, u => 0.0);
    SumLt(nodes, u => 0.0, u => DenseLeak(keys, edges, damping, rounds, u), v);
  }

  // ----- convergence

  /** Scores never decrease from round to round. */
  lemma {:induction false} Monotone(keys: set<Url>, edges: seq<LinkEdge>, damping: real, rounds: nat, u: Url)
    requires keys != {} && 0.0 <= damping < 1.0
    ensures Get(Dense(keys, edges, damping, rounds))(u) <= Get(Dense(keys, edges, damping, rounds + 1))(u)
  {
    hide Inflow, Base, Round, Get, Dense;
    if rounds == 0 {
      DenseFirst(keys, edges, damping, u);
      Floor(keys, edges, damping, 1, u);
    } else {
      var r, s := Dense(keys, edges, damping, rounds - 1), Dense(keys, edges, damping, rounds);
      forall v
        ensures Get(r)(v) <= Get(s)(v)
      {
        Monotone(keys, edges, damping, rounds - 1, v);
      }
      DenseNext(keys, edges, damping, rounds - 1);
      DenseNext(keys, edges, damping, rounds);
      RoundAt(keys, edges, damping, Base(keys, damping), r, u);
      RoundAt(keys, edges, damping, Base(keys, damping), s, u);
      InflowMonotone(edges, damping, Get(r), Get(s), u);
    }
  }

  lemma InflowMonotone(edges: seq<LinkEdge>, damping: real, x: Url -> real, y: Url -> real, u: Url)
    requires damping >= 0.0 && forall v :: x(v) <= y(v)
    ensures Inflow(edges, damping, x, u) <= Inflow(edges, damping, y, u)
  {
    hide Share;
    forall e: LinkEdge
      ensures Arrives(edges, damping, x, u, e) <= Arrives(edges, damping, y, u, e)
    {
      ShareMonotone(edges, damping, x, y, e.from);
    }
    SumLe(edges, e => Arrives(edges, damping, x, u, e), e => Arrives(edges, damping, y, u, e));
  }

  lemma ShareMonotone(edges: seq<LinkEdge>, damping: real, x: Url -> real, y: Url -> real, v: Url)
    requires damping >= 0.0 && x(v) <= y(v)
    ensures Share(edges, damping, x, v) <= Share(edges, damping, y, v)
  {
    hide Portion;
    PortionMonotone(damping, x(v), y(v), Fanout(edges, v));
  }

  lemma PortionMonotone(d: real, a: real, b: real, k: nat)
    requires d >= 0.0 && a <= b && k > 0
    ensures Portion(d, a, k) <= Portion(d, b, k)
  {
    ProductNonNegative(d, b - a);
    assert d * (b - a) == d * b - d * a;
    QuotientOrder(d * a, d * b, k as real);
  }

  lemma QuotientOrder(x: real, y: real, k: real)
    requires x <= y && k > 0.0
    ensures x / k <= y / k
  {
  }

  /** Two runs of the same update approach each other geometrically, whatever scores they start from. */
  lemma {:induction false} IterateContracts(nodes: seq<Url>, keys: set<Url>, active: set<Url>, edges: seq<LinkEdge>,
                                            damping: real, base: real, s: Scores, t: Scores, rounds: nat)
    requires damping >= 0.0
    requires Enumerates(nodes, keys) && active <= keys && s.Keys <= keys && t.Keys <= keys
    requires AgreeOutside(keys, active, s, t)
    ensures CloserBy(nodes, Power(damping, rounds), s, t, Iterate(active, edges, damping, base, s, rounds),
                     Iterate(active, edges, damping, base, t, rounds))
    ensures AgreeOutside(keys, active, Iterate(active, edges, damping, base, s, rounds),
                         Iterate(active, edges, damping, base, t, rounds))
  {
    hide *;
    IterateStart(active, edges, damping, base, s);
    IterateStart(active, edges, damping, base, t);
    if rounds == 0 {
      CloserAtStart(nodes, damping, s, t);
    } else {
      var s', t' := Iterate(active, edges, damping, base, s, rounds - 1), Iterate(active, edges, damping, base, t, rounds - 1);
      IterateContracts(nodes, keys, active, edges, damping, base, s, t, rounds - 1);
      IterateStep(active, edges, damping, base, s, rounds - 1);
      IterateStep(active, edges, damping, base, t, rounds - 1);
      RoundContracts(nodes, keys, active, edges, damping, base, s', t');
      RoundAgrees(keys, active, edges, damping, base, s', t');
      CloserTwice(nodes, damping, rounds - 1, s, t, s', t', Round(active, edges, damping, base, s'),
                  Round(active, edges, damping, base, t'));
    }
  }

  lemma CloserAtStart(nodes: seq<Url>, d: real, s: Scores, t: Scores)
    ensures CloserBy(nodes, Power(d, 0), s, t, s, t)
  {
    hide Gap;
  }

  lemma CloserTwice(nodes: seq<Url>, d: real, n: nat, s: Scores, t: Scores, s': Scores, t': Scores, s'': Scores, t'': Scores)
    requires d >= 0.0
    requires CloserBy(nodes, Power(d, n), s, t, s', t') && CloserBy(nodes, d, s', t', s'', t'')
    ensures CloserBy(nodes, Power(d, n + 1), s, t, s'', t'')
  {
    hide Gap, Power, Times;
    TimesPower(d, n, Gap(nodes, s, t), Gap(nodes, s', t'), Gap(nodes, s'', t''));
  }

  lemma IterateStart(active: set<Url>, edges: seq<LinkEdge>, damping: real, base: real, s: Scores)
    ensures Iterate(active, edges, damping, base, s, 0) == s
  {
  }

  lemma IterateStep(active: set<Url>, edges: seq<LinkEdge>, damping: real, base: real, s: Scores, rounds: nat)
    ensures Iterate(active, edges, damping, base, s, rounds + 1)
         == Round(active, edges, damping, base, Iterate(active, edges, damping, base, s, rounds))
  {
  }

  lemma RoundAgrees(keys: set<Url>, active: set<Url>, edges: seq<LinkEdge>, damping: real, base: real, s: Scores, t: Scores)
    requires AgreeOutside(keys, active, s, t)
    ensures AgreeOutside(keys, active, Round(active, edges, damping, base, s), Round(active, edges, damping, base, t))
  {
    forall u | u in keys - active
      ensures Get(Round(active, edges, damping, base, s))(u) == Get(Round(active, edges, damping, base, t))(u)
    {
      RoundAt(active, edges, damping, base, s, u);
      RoundAt(active, edges, damping, base, t, u);
    }
  }

  lemma TimesPower(d: real, n: nat, g: real, h: real, next: real)
    requires d >= 0.0 && h <= Times(Power(d, n), g) && next <= Times(d, h)
    ensures next <= Times(Power(d, n + 1), g)
  {
    var p := Power(d, n);
    assert d * (p * g - h) >= 0.0;
    assert d * (p * g - h) == d * p * g - d * h;
  }

  /** The base vector is what one round makes of the zero vector. */
  lemma {:induction false} ZeroStart(keys: set<Url>, edges: seq<LinkEdge>, damping: real, zero: Scores, rounds: nat)
    requires keys != {} && zero.Keys == keys && forall u | u in keys :: zero[u] == 0.0
    ensures Iterate(keys, edges, damping, Base(keys, damping), zero, rounds + 1) == Dense(keys, edges, damping, rounds)
  {
    if rounds == 0 {
      forall u
        ensures Inflow(edges, damping, Get(zero), u) == 0.0
      {
        forall e: LinkEdge
          ensures Arrives(edges, damping, Get(zero), u, e) == 0.0
        {
          assert Get(zero)(e.from) == 0.0;
        }
        SumConst(edges, 0.0, e => Arrives(edges, damping, Get(zero), u, e));
      }
      hide Inflow, Base;
      assert Round(keys, edges, damping, Base(keys, damping), zero) == BaseScores(keys, damping);
    } else {
      ZeroStart(keys, edges, damping, zero, rounds - 1);
    }
  }

  lemma GapToZero(nodes: seq<Url>, keys: set<Url>, damping: real, zero: Scores)
    requires keys != {} && Enumerates(nodes, keys) && damping < 1.0
    requires zero.Keys == keys && forall u | u in keys :: zero[u] == 0.0
    ensures Gap(nodes, BaseScores(keys, damping), zero) == 1.0 - damping
  {
    BasePositive(keys, damping);
    BaseTotal(nodes, keys, damping);
    SumEq(nodes, Distance(BaseScores(keys, damping), zero), Get(BaseScores(keys, damping)));
  }

  lemma NothingOutside(keys: set<Url>, s: Scores, t: Scores)
    ensures AgreeOutside(keys, keys, s, t)
  {
  }

  /** Geometric convergence: round t + 1 moves the scores by at most damping^(t+1) * (1 - damping) in total. */
  lemma GeometricConvergence(nodes: seq<Url>, keys: set<Url>, edges: seq<LinkEdge>, damping: real, rounds: nat)
    requires keys != {} && Enumerates(nodes, keys) && 0.0 <= damping < 1.0
    ensures Gap(nodes, Dense(keys, edges, damping, rounds + 1), Dense(keys, edges, damping, rounds))
         <= Power(damping, rounds + 1) * (1.0 - damping)
  {
    hide Gap, Dense, BaseScores, Power, Times, Enumerates;
    var zero: Scores := map u | u in keys :: 0.0;
    GapToZero(nodes, keys, damping, zero);
    CloserThanStart(nodes, keys, edges, damping, zero, rounds);
    SameFactor(Gap(nodes, Dense(keys, edges, damping, rounds + 1), Dense(keys, edges, damping, rounds)),
               Power(damping, rounds + 1), Gap(nodes, BaseScores(keys, damping), zero), 1.0 - damping);
  }

  lemma SameFactor(x: real, p: real, g: real, h: real)
    requires x <= Times(p, g) && g == h
    ensures x <= p * h
  {
  }

  lemma CloserThanStart(nodes: seq<Url>, keys: set<Url>, edges: seq<LinkEdge>, damping: real, zero: Scores, rounds: nat)
    requires keys != {} && Enumerates(nodes, keys) && damping >= 0.0
    requires zero.Keys == keys && forall u | u in keys :: zero[u] == 0.0
    ensures CloserBy(nodes, Power(damping, rounds + 1), BaseScores(keys, damping), zero,
                     Dense(keys, edges, damping, rounds + 1), Dense(keys, edges, damping, rounds))
  {
    var base, start := Base(keys, damping), BaseScores(keys, damping);
    ZeroStart(keys, edges, damping, zero, rounds);
    hide CloserBy, Iterate, Base, Power, Enumerates;
    NothingOutside(keys, start, zero);
    IterateContracts(nodes, keys, keys, edges, damping, base, start, zero, rounds + 1);
  }

  /** The rank equation: one more round would change nothing. */
  ghost predicate IsFixedPoint(keys: set<Url>, edges: seq<LinkEdge>, damping: real, s: Scores)
    requires keys != {}
  {
    s.Keys == keys && Round(keys, edges, damping, Base(keys, damping), s) == s
  }

  /** There is at most one solution of the rank equation, and the iteration
      approaches it geometrically from every starting vector: initialising
      every node to the base instead of 1/n does not change the limit. */
  lemma LimitIndependentOfStart(nodes: seq<Url>, keys: set<Url>, edges: seq<LinkEdge>, damping: real,
                                start: Scores, limit: Scores, rounds: nat)
    requires keys != {} && Enumerates(nodes, keys) && 0.0 <= damping < 1.0
    requires start.Keys == keys && IsFixedPoint(keys, edges, damping, limit)
    ensures CloserBy(nodes, Power(damping, rounds), start, limit,
                     Iterate(keys, edges, damping, Base(keys, damping), start, rounds), limit)
    ensures IsFixedPoint(keys, edges, damping, start) ==> start == limit
  {
    FixedPointStays(keys, edges, damping, Base(keys, damping), limit, rounds);
    IterateContracts(nodes, keys, keys, edges, damping, Base(keys, damping), start, limit, rounds);
    if IsFixedPoint(keys, edges, damping, start) {
      FixedPointUnique(nodes, keys, edges, damping, start, limit);
    }
  }

  lemma {:induction false} FixedPointStays(active: set<Url>, edges: seq<LinkEdge>, damping: real, base: real, s: Scores,
                                           rounds: nat)
    requires Round(active, edges, damping, base, s) == s
    ensures Iterate(active, edges, damping, base, s, rounds) == s
  {
    if rounds > 0 {
      FixedPointStays(active, edges, damping, base, s, rounds - 1);
    }
  }

  lemma FixedPointUnique(nodes: seq<Url>, keys: set<Url>, edges: seq<LinkEdge>, damping: real, s: Scores, t: Scores)
    requires keys != {} && Enumerates(nodes, keys) && 0.0 <= damping < 1.0
    requires IsFixedPoint(keys, edges, damping, s) && IsFixedPoint(keys, edges, damping, t)
    ensures s == t
  {
    GapNonNegative(nodes, s, t);
    FixedPointGap(nodes, keys, edges, damping, s, t);
    forall u | u in keys
      ensures s[u] == t[u]
    {
      GapCovers(nodes, s, t, u);
      hide Gap;
      assert Get(s)(u) == s[u] && Get(t)(u) == t[u];
    }
  }

  lemma FixedPointGap(nodes: seq<Url>, keys: set<Url>, edges: seq<LinkEdge>, damping: real, s: Scores, t: Scores)
    requires keys != {} && Enumerates(nodes, keys) && 0.0 <= damping < 1.0
    requires IsFixedPoint(keys, edges, damping, s) && IsFixedPoint(keys, edges, damping, t)
    ensures Gap(nodes, s, t) <= 0.0
  {
    hide Gap, Times, Enumerates;
    FixedPointCloser(nodes, keys, edges, damping, s, t);
    ShrinksToZero(damping, Gap(nodes, s, t));
  }

  lemma FixedPointCloser(nodes: seq<Url>, keys: set<Url>, edges: seq<LinkEdge>, damping: real, s: Scores, t: Scores)
    requires keys != {} && Enumerates(nodes, keys) && 0.0 <= damping
    requires IsFixedPoint(keys, edges, damping, s) && IsFixedPoint(keys, edges, damping, t)
    ensures CloserBy(nodes, damping, s, t, s, t)
  {
    hide CloserBy, Round, Base, Enumerates;
    NothingOutside(keys, s, t);
    RoundContracts(nodes, keys, keys, edges, damping, Base(keys, damping), s, t);
  }

  lemma ShrinksToZero(d: real, g: real)
    requires d < 1.0 && g <= Times(d, g)
    ensures g <= 0.0
  {
    if g > 0.0 {
      var c := 1.0 - d;
      assert c * g > 0.0;
      assert c * g == g - d * g;
    }
  }

  lemma GapNonNegative(nodes: seq<Url>, s: Scores, t: Scores)
    ensures Gap(nodes, s, t) >= 0.0
  {
    forall u
      ensures Distance(s, t)(u) >= 0.0
    {
      DistanceAt(s, t, u);
    }
    SumNonNegative(nodes, Distance(s, t));
  }

  lemma GapCovers(nodes: seq<Url>, s: Scores, t: Scores, u: Url)
    requires Distinct(nodes) && u in nodes
    ensures Abs(Get(s)(u) - Get(t)(u)) <= Gap(nodes, s, t)
  {
    var only := v => if v == u then Distance(s, t)(u) else 0.0;
    forall v
      ensures Distance(s, t)(v) == Abs(Get(s)(v) - Get(t)(v))
    {
      DistanceAt(s, t, v);
    }
    SumPick(nodes, u, Distance(s, t)(u), only);
    SumLe(nodes, only, Distance(s, t));
  }

  // ----- the computation

  lemma SizesAgree(nodes: seq<Url>, keys: set<Url>, damping: real)
    requires Enumerates(nodes, keys) && nodes != []
    ensures keys != {} && Base(keys, damping) == (1.0 - damping) / |nodes| as real
  {
    assert nodes[0] in nodes;
    CountDistinct(nodes, keys);
  }

  lemma ActiveIsWithIncoming(keys: set<Url>, edges: seq<LinkEdge>, outDegree: map<Url, nat>,
                             incoming: map<Url, seq<Url>>, active: set<Url>)
    requires Indexes(edges, outDegree, incoming)
    requires forall u :: u in active <==> u in keys && u in incoming
    ensures active == WithIncoming(keys, edges)
  {
    forall u
      ensures u in incoming <==> exists e :: e in edges && e.to == u
    {
      assert ListIn(incoming, u) == Sources(edges, u);
      SourcesEmpty(edges, u);
    }
  }

  /** compute_pagerank: the nodes that have incoming edges are iterated, and
      the result is the dense iteration over the recorded graph. */
  method ComputePagerank(g: InMemoryCrawlGraph, iterations: nat, damping: real) returns (scores: Scores)
    requires g.Valid()
    ensures g.urls == map[] ==> scores == map[]
    ensures g.urls != map[] && iterations > 0 ==> scores == Dense(g.urls.Keys, g.log, damping, iterations)
    ensures g.urls != map[] && iterations == 0 ==> scores == Dense(g.urls.Keys, g.log, damping, 1)
  {
    var records := g.GetUrls();
    var edges := g.GetAllLinks();
    scores := SparseRounds(Names(records), edges, iterations, damping, g.urls.Keys);
    if g.urls != map[] {
      hide Base, BaseScores;
      IteratePermute(g.urls.Keys, edges, g.log, damping, Base(g.urls.Keys, damping), BaseScores(g.urls.Keys, damping),
                     if iterations > 0 then iterations else 1);
    }
  }

  method SparseRounds(nodes: seq<Url>, edges: seq<LinkEdge>, iterations: nat, damping: real, ghost keys: set<Url>)
    returns (scores: Scores)
    requires Enumerates(nodes, keys)
    ensures keys == {} ==> scores == map[]
    ensures keys != {} && iterations > 0 ==> scores == Dense(keys, edges, damping, iterations)
    ensures keys != {} && iterations == 0 ==> scores == Dense(keys, edges, damping, 1)
  {
    if |nodes| == 0 {
      return map[];
    }
    SizesAgree(nodes, keys, damping);
    var outDegree, incoming := IndexEdges(edges);
    var base := (1.0 - damping) / |nodes| as real;
    var start: Scores := map u | u in nodes :: base;
    var active := ActiveNodes(nodes, incoming);
    hide Indexes, Inflow, WithIncoming;
    assert start == BaseScores(keys, damping);
    ActiveIsWithIncoming(keys, edges, outDegree, incoming, Members(active));
    scores := Rounds(active, edges, outDegree, incoming, damping, base, start, iterations);
    SparseIsDense(keys, edges, damping, if iterations > 0 then iterations else 1);
  }

  method ActiveNodes(nodes: seq<Url>, incoming: map<Url, seq<Url>>) returns (active: seq<Url>)
    ensures forall u :: u in active <==> u in nodes && u in incoming
  {
    active := [];
    for i := 0 to |nodes|
      invariant forall u :: u in active <==> u in nodes[..i] && u in incoming
    {
      if nodes[i] in incoming {
        active := active + [nodes[i]];
      }
      assert nodes[..i + 1] == nodes[..i] + [nodes[i]];
    }
    assert nodes[..|nodes|] == nodes;
  }
}
