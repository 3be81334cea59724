/** Reciprocal rank fusion of several ranked lists. */
module RankFusion {
  import opened Wrappers
  import opened Sums

  /** What a document gets for standing at this rank, counted from 0. */
  function Contribution(k: real, rank: nat): real
    requires k > -1.0
  {
    1.0 / (k + rank as real + 1.0)
  }

  lemma ContributionPositive(k: real, rank: nat)
    requires k > -1.0
    ensures Contribution(k, rank) > 0.0
  {
    InversePositive(k + rank as real + 1.0);
  }

  lemma InversePositive(x: real)
    requires x > 0.0
    ensures 1.0 / x > 0.0
  {
    var u := 1.0 / x;
    assert u * x == 1.0;
    NotPositive(u, x);
  }

  lemma NotPositive(u: real, x: real)
    requires x > 0.0
    ensures u <= 0.0 ==> u * x <= 0.0
  {
  }

  /** A better rank gives no less. */
  lemma ContributionFalls(k: real, r: nat, s: nat)
    requires k > -1.0 && r <= s
    ensures Contribution(k, s) <= Contribution(k, r)
  {
    var x, y := k + r as real + 1.0, k + s as real + 1.0;
    InverseOrder(x, y);
  }

  lemma InverseOrder(x: real, y: real)
    requires 0.0 < x <= y
    ensures 1.0 / y <= 1.0 / x
  {
    var u, v := 1.0 / x, 1.0 / y;
    assert u * x == 1.0 && v * y == 1.0;
    if v > u {
      GreaterProduct(u, v, x, y);
    }
  }

  lemma GreaterProduct(u: real, v: real, x: real, y: real)
    requires 0.0 < x <= y && 0.0 < u < v
    ensures v * y > u * x
  {
    var p, q := (v - u) * x, v * (y - x);
    assert p > 0.0 && q >= 0.0;
    assert v * y - u * x == p + q;
  }

  /** What d gets from the first n ranks of one list. */
  function ListScore(list: seq<string>, k: real, d: string, n: nat): real
    requires k > -1.0 && n <= |list|
  {
    if n == 0 then 0.0
    else ListScore(list, k, d, n - 1) + if list[n - 1] == d then Contribution(k, n - 1) else 0.0
  }

  /** What d gets from all lists: the definition of the fused score. */
  function Score(lists: seq<seq<string>>, k: real, d: string): real
    requires k > -1.0
  {
    if lists == [] then 0.0
    else
      var last := lists[|lists| - 1];
      Score(lists[..|lists| - 1], k, d) + ListScore(last, k, d, |last|)
  }

  ghost predicate Appears(lists: seq<seq<string>>, d: string)
  {
    exists i | 0 <= i < |lists| :: d in lists[i]
  }

  lemma {:induction false} ListScoreSign(list: seq<string>, k: real, d: string, n: nat)
    requires k > -1.0 && n <= |list|
    ensures ListScore(list, k, d, n) >= 0.0
    ensures ListScore(list, k, d, n) > 0.0 <==> d in list[..n]
  {
    if n > 0 {
      ListScoreSign(list, k, d, n - 1);
      ContributionPositive(k, n - 1);
      assert list[..n] == list[..n - 1] + [list[n - 1]];
    }
  }

  /** Exactly the documents that appear somewhere have a positive score. */
  lemma {:induction false} ScoreSign(lists: seq<seq<string>>, k: real, d: string)
    requires k > -1.0
    ensures Score(lists, k, d) >= 0.0
    ensures Score(lists, k, d) > 0.0 <==> Appears(lists, d)
  {
    if lists != [] {
      var n := |lists| - 1;
      ScoreSign(lists[..n], k, d);
      ListScoreSign(lists[n], k, d, |lists[n]|);
      assert lists[n][..|lists[n]|] == lists[n];
      if Appears(lists[..n], d) {
        var i :| 0 <= i < n && d in lists[..n][i];
        assert d in lists[i];
      }
      if Appears(lists, d) && d !in lists[n] {
        var i :| 0 <= i < |lists| && d in lists[i];
        assert d in lists[..n][i];
      }
    }
  }

  /** The accumulator: d has an entry exactly when it has got something, and then just that. */
  ghost predicate Holds(fused: map<string, real>, d: string, total: real)
  {
    total >= 0.0 && (d in fused <==> total > 0.0) && (d in fused ==> fused[d] == total)
  }

  /** The accumulator after the first i lists and n ranks of the next one. */
  ghost predicate HoldsAll(fused: map<string, real>, lists: seq<seq<string>>, k: real, i: nat, n: nat)
    requires k > -1.0 && i <= |lists| && (if i < |lists| then n <= |lists[i]| else n == 0)
  {
    forall d :: Holds(fused, d, Score(lists[..i], k, d) + if i < |lists| then ListScore(lists[i], k, d, n) else 0.0)
  }

  lemma HoldsNothing(lists: seq<seq<string>>, k: real)
    requires k > -1.0
    ensures HoldsAll(map[], lists, k, 0, 0)
  {
  }

  /** Adding the contribution of one position. */
  function AddAt(fused: map<string, real>, doc: string, contribution: real): map<string, real>
  {
    fused[doc := (if doc in fused then fused[doc] else 0.0) + contribution]
  }

  lemma NextRank(fused: map<string, real>, lists: seq<seq<string>>, k: real, i: nat, n: nat)
    requires k > -1.0 && i < |lists| && n < |lists[i]| && HoldsAll(fused, lists, k, i, n)
    ensures HoldsAll(AddAt(fused, lists[i][n], Contribution(k, n)), lists, k, i, n + 1)
  {
    hide Score, Contribution;
    ContributionPositive(k, n);
    forall d
      ensures Holds(AddAt(fused, lists[i][n], Contribution(k, n)), d, Score(lists[..i], k, d) + ListScore(lists[i], k, d, n + 1))
    {
      assert Holds(fused, d, Score(lists[..i], k, d) + ListScore(lists[i], k, d, n));
    }
  }

  lemma NextList(fused: map<string, real>, lists: seq<seq<string>>, k: real, i: nat)
    requires k > -1.0 && i < |lists| && HoldsAll(fused, lists, k, i, |lists[i]|)
    ensures HoldsAll(fused, lists, k, i + 1, 0)
  {
    var front := lists[..i + 1];
    assert front[..i] == lists[..i];
    forall d
      ensures Holds(fused, d, Score(front, k, d))
    {
      assert Holds(fused, d, Score(lists[..i], k, d) + ListScore(lists[i], k, d, |lists[i]|));
    }
  }

  lemma AllHeld(fused: map<string, real>, lists: seq<seq<string>>, k: real)
    requires k > -1.0 && HoldsAll(fused, lists, k, |lists|, 0)
    ensures forall d :: d in fused <==> Appears(lists, d)
    ensures forall d | d in fused :: fused[d] == Score(lists, k, d)
  {
    forall d
      ensures Holds(fused, d, Score(lists, k, d))
    {
      assert lists[..|lists|] == lists;
      assert Holds(fused, d, Score(lists[..|lists|], k, d) + 0.0);
    }
    forall d
      ensures Score(lists, k, d) > 0.0 <==> Appears(lists, d)
    {
      ScoreSign(lists, k, d);
    }
  }

  method RrfKeywordScores(lists: seq<seq<string>>, k: real) returns (fused: map<string, real>)
    requires k > -1.0
    ensures forall d :: d in fused <==> Appears(lists, d)
    ensures forall d | d in fused :: fused[d] == Score(lists, k, d)
  {
    hide HoldsAll, Score, ListScore, Appears;
    fused := map[];
    HoldsNothing(lists, k);
    for i := 0 to |lists|
      invariant HoldsAll(fused, lists, k, i, 0)
    {
      for rank := 0 to |lists[i]|
        invariant HoldsAll(fused, lists, k, i, rank)
      {
        NextRank(fused, lists, k, i, rank);
        fused := AddAt(fused, lists[i][rank], Contribution(k, rank));
      }
      NextList(fused, lists, k, i);
    }
    AllHeld(fused, lists, k);
  }

  // ----- conservation

  /** What one list hands out. */
  function ListMass(n: nat, k: real): real
    requires k > -1.0
  {
    if n == 0 then 0.0 else ListMass(n - 1, k) + Contribution(k, n - 1)
  }

  function Mass(lists: seq<seq<string>>, k: real): real
    requires k > -1.0
  {
    if lists == [] then 0.0 else Mass(lists[..|lists| - 1], k) + ListMass(|lists[|lists| - 1]|, k)
  }

  lemma {:induction false} ListConserves(list: seq<string>, k: real, n: nat, docs: seq<string>)
    requires k > -1.0 && n <= |list| && Distinct(docs)
    requires forall r | 0 <= r < n :: list[r] in docs
    ensures Sum(docs, d => ListScore(list, k, d, n)) == ListMass(n, k)
  {
    var now := d => ListScore(list, k, d, n);
    if n == 0 {
      SumConst(docs, 0.0, now);
    } else {
      var before := d => ListScore(list, k, d, n - 1);
      var c := Contribution(k, n - 1);
      var step := d => if d == list[n - 1] then c else 0.0;
      ListConserves(list, k, n - 1, docs);
      SumPick(docs, list[n - 1], c, step);
      SumAdd(docs, before, step, now);
    }
  }

  /** The scores of all documents together are what the positions hand out:
      no contribution is lost and none is counted twice. docs lists the keys of
      the result in any order. */
  lemma {:induction false} MassConserved(lists: seq<seq<string>>, k: real, docs: seq<string>)
    requires k > -1.0 && Distinct(docs)
    requires forall d | Appears(lists, d) :: d in docs
    ensures Sum(docs, d => Score(lists, k, d)) == Mass(lists, k)
  {
    var now := d => Score(lists, k, d);
    if lists == [] {
      SumConst(docs, 0.0, now);
    } else {
      var n := |lists| - 1;
      var last := lists[n];
      forall d | Appears(lists[..n], d)
        ensures d in docs
      {
        var i :| 0 <= i < n && d in lists[..n][i];
        assert d in lists[i];
      }
      MassConserved(lists[..n], k, docs);
      forall r | 0 <= r < |last|
        ensures last[r] in docs
      {
        assert last[r] in lists[n];
      }
      ListConserves(last, k, |last|, docs);
      SumAdd(docs, d => Score(lists[..n], k, d), d => ListScore(last, k, d, |last|), now);
    }
  }

  // ----- agreement beats a single list

  /** In a duplicate-free list a document gets what its one rank gives. */
  lemma {:induction false} ListScoreAt(list: seq<string>, k: real, d: string, n: nat, r: nat)
    requires k > -1.0 && n <= |list| && Distinct(list) && r < |list| && list[r] == d
    ensures ListScore(list, k, d, n) == if r < n then Contribution(k, r) else 0.0
  {
    if n > 0 {
      ListScoreAt(list, k, d, n - 1, r);
    }
  }

  lemma {:induction false} ScoreAtLeast(lists: seq<seq<string>>, k: real, d: string, i: nat)
    requires k > -1.0 && i < |lists|
    ensures ListScore(lists[i], k, d, |lists[i]|) <= Score(lists, k, d)
  {
    var n := |lists| - 1;
    ListScoreSign(lists[n], k, d, |lists[n]|);
    ScoreSign(lists[..n], k, d);
    if i < n {
      ScoreAtLeast(lists[..n], k, d, i);
    }
  }

  lemma {:induction false} ScoreOfTwo(lists: seq<seq<string>>, k: real, d: string, i: nat, j: nat)
    requires k > -1.0 && i < j < |lists|
    ensures ListScore(lists[i], k, d, |lists[i]|) + ListScore(lists[j], k, d, |lists[j]|) <= Score(lists, k, d)
  {
    var n := |lists| - 1;
    ListScoreSign(lists[n], k, d, |lists[n]|);
    if j < n {
      ScoreOfTwo(lists[..n], k, d, i, j);
    } else {
      ScoreAtLeast(lists[..n], k, d, i);
    }
  }

  lemma {:induction false} ScoreOfOne(lists: seq<seq<string>>, k: real, d: string, i: nat)
    requires k > -1.0 && i < |lists|
    requires forall j | 0 <= j < |lists| && j != i :: d !in lists[j]
    ensures Score(lists, k, d) == ListScore(lists[i], k, d, |lists[i]|)
  {
    var n := |lists| - 1;
    ListScoreSign(lists[n], k, d, |lists[n]|);
    assert lists[n][..|lists[n]|] == lists[n];
    if i < n {
      ScoreOfOne(lists[..n], k, d, i);
    } else {
      ScoreSign(lists[..n], k, d);
      assert forall j | 0 <= j < n :: lists[..n][j] == lists[j];
      assert !Appears(lists[..n], d);
    }
  }

  /** d stands at a rank of at most limit in two of the lists. */
  ghost predicate InTwo(lists: seq<seq<string>>, d: string, limit: nat)
  {
    exists i, j, r, s ::
      0 <= i < j < |lists| && 0 <= r < |lists[i]| && 0 <= s < |lists[j]| && r <= limit && s <= limit && lists[i][r] == d && lists[j][s] == d
  }

  /** d stands in exactly one of the lists. */
  ghost predicate InOne(lists: seq<seq<string>>, d: string)
  {
    exists i | 0 <= i < |lists| :: d in lists[i] && forall j | 0 <= j < |lists| && j != i :: d !in lists[j]
  }

  ghost predicate DuplicateFree(lists: seq<seq<string>>)
  {
    forall i | 0 <= i < |lists| :: Distinct(lists[i])
  }

  lemma AtMostFirst(list: seq<string>, k: real, d: string)
    requires k > -1.0 && Distinct(list) && d in list
    ensures ListScore(list, k, d, |list|) <= Contribution(k, 0)
  {
    var r :| 0 <= r < |list| && list[r] == d;
    ListScoreAt(list, k, d, |list|, r);
    ContributionFalls(k, 0, r);
  }

  lemma TwoAtLeast(lists: seq<seq<string>>, k: real, d: string, limit: nat)
    requires k > -1.0 && DuplicateFree(lists) && InTwo(lists, d, limit)
    ensures Score(lists, k, d) >= 2.0 * Contribution(k, limit)
  {
    var i, j, r, s :| && 0 <= i < j < |lists| && 0 <= r < |lists[i]| && 0 <= s < |lists[j]|
                      && r <= limit && s <= limit && lists[i][r] == d && lists[j][s] == d;
    ScoreOfTwo(lists, k, d, i, j);
    ListScoreAt(lists[i], k, d, |lists[i]|, r);
    ListScoreAt(lists[j], k, d, |lists[j]|, s);
    ContributionFalls(k, r, limit);
    ContributionFalls(k, s, limit);
  }

  /** Twice the contribution at a rank against one at the top. */
  lemma TwiceAgainstTop(k: real, limit: nat)
    requires k > -1.0
    ensures 2.0 * Contribution(k, limit) > Contribution(k, 0) <==> limit as real < k + 1.0
  {
    var x, y := k + 1.0, k + limit as real + 1.0;
    var u, v := Contribution(k, 0), Contribution(k, limit);
    assert u * x == 1.0 && v * y == 1.0;
    ScaleOrder(u, v, x, y);
  }

  lemma ScaleOrder(u: real, v: real, x: real, y: real)
    requires x > 0.0 && y > 0.0 && u > 0.0 && v > 0.0 && u * x == 1.0 && v * y == 1.0
    ensures 2.0 * v > u <==> y < 2.0 * x
  {
    ScaledBy(u, v, x, y);
    ScaledBy(v, u, y, x);
  }

  lemma ScaledBy(u: real, v: real, x: real, y: real)
    requires x > 0.0 && y > 0.0 && u * x == 1.0 && v * y == 1.0
    ensures (2.0 * v - u) * (x * y) == 2.0 * x - y
  {
    assert v * (x * y) == x * (v * y);
    assert u * (x * y) == y * (u * x);
  }

  /** A document that two rankings agree on, at ranks within limit, beats every
      document of a single ranking: on all duplicate-free lists exactly when
      limit is below k + 1. For k = 60 that is rank 60, counting from 0. */
  lemma AgreementWinsIff(k: real, limit: nat)
    requires k > -1.0
    ensures (forall lists, a, b | DuplicateFree(lists) && InTwo(lists, a, limit) && InOne(lists, b) ::
               Score(lists, k, a) > Score(lists, k, b))
            <==> limit as real < k + 1.0
  {
    TwiceAgainstTop(k, limit);
    if limit as real < k + 1.0 {
      forall lists, a, b | DuplicateFree(lists) && InTwo(lists, a, limit) && InOne(lists, b)
        ensures Score(lists, k, a) > Score(lists, k, b)
      {
        TwoAtLeast(lists, k, a, limit);
        var i :| 0 <= i < |lists| && b in lists[i] && forall j | 0 <= j < |lists| && j != i :: b !in lists[j];
        ScoreOfOne(lists, k, b, i);
        AtMostFirst(lists[i], k, b);
      }
    } else {
      Tie(k, limit);
    }
  }

  /** A list with top first, fillers after it and "a" at rank limit. */
  function Ranking(top: string, limit: nat): (list: seq<string>)
    requires limit > 0
    ensures |list| == limit + 1 && list[0] == top && list[limit] == "a"
  {
    [top] + seq(limit - 1, i requires 0 <= i => Filler(i)) + ["a"]
  }

  function Filler(i: nat): (s: string)
    ensures |s| == i + 2
  {
    seq(i + 2, _ => 'f')
  }

  lemma RankingDistinct(top: string, limit: nat)
    requires limit > 0 && |top| == 1 && top != "a"
    ensures Distinct(Ranking(top, limit))
  {
    var list := Ranking(top, limit);
    assert forall i | 1 <= i < limit :: list[i] == Filler(i - 1);
  }

  /** From rank k + 1 on, two votes are worth no more than one top vote. */
  lemma Tie(k: real, limit: nat)
    requires k > -1.0 && limit as real >= k + 1.0
    ensures exists lists, a, b :: DuplicateFree(lists) && InTwo(lists, a, limit) && InOne(lists, b)
                                  && Score(lists, k, a) <= Score(lists, k, b)
  {
    var lists := [Ranking("b", limit), Ranking("c", limit)];
    RankingDistinct("b", limit);
    RankingDistinct("c", limit);
    assert DuplicateFree(lists);
    assert InTwo(lists, "a", limit) by {
      assert lists[0][limit] == "a" && lists[1][limit] == "a";
    }
    assert "b" !in lists[1] by {
      assert forall i | 1 <= i < limit :: lists[1][i] == Filler(i - 1);
    }
    assert lists[0][0] == "b";
    assert InOne(lists, "b");
    TwiceAgainstTop(k, limit);
    ListScoreAt(lists[0], k, "a", |lists[0]|, limit);
    ListScoreAt(lists[1], k, "a", |lists[1]|, limit);
    assert Score(lists, k, "a") == 2.0 * Contribution(k, limit) by { ScoreOfPair(lists, k, "a"); }
    ScoreOfOne(lists, k, "b", 0);
    ListScoreAt(lists[0], k, "b", |lists[0]|, 0);
  }

  lemma ScoreOfPair(lists: seq<seq<string>>, k: real, d: string)
    requires k > -1.0 && |lists| == 2
    ensures Score(lists, k, d) == ListScore(lists[0], k, d, |lists[0]|) + ListScore(lists[1], k, d, |lists[1]|)
  {
    assert lists[..1][..0] == [];
    assert Score(lists[..1], k, d) == 0.0 + ListScore(lists[0], k, d, |lists[0]|);
  }
}
