/** Finite sums of reals over a list, and the rearrangements the rank and
    fusion proofs rest on. */
module Sums {
  import opened Wrappers

  function Sum<T>(s: seq<T>, f: T -> real): real
  {
    if s == [] then 0.0 else Sum(s[..|s| - 1], f) + f(s[|s| - 1])
  }

  function Abs(x: real): real
  {
    if x < 0.0 then -x else x
  }

  lemma ProductNonNegative(x: real, y: real)
    requires x >= 0.0 && y >= 0.0
    ensures x * y >= 0.0
  {
  }

  lemma {:induction false} SumLe<T>(s: seq<T>, f: T -> real, g: T -> real)
    requires forall x | x in s :: f(x) <= g(x)
    ensures Sum(s, f) <= Sum(s, g)
  {
    if s != [] {
      assert s[|s| - 1] in s;
      SumLe(s[..|s| - 1], f, g);
    }
  }

  lemma SumEq<T>(s: seq<T>, f: T -> real, g: T -> real)
    requires forall x | x in s :: f(x) == g(x)
    ensures Sum(s, f) == Sum(s, g)
  {
    SumLe(s, f, g);
    SumLe(s, g, f);
  }

  /** One strictly smaller term makes the whole sum strictly smaller. */
  lemma {:induction false} SumLt<T>(s: seq<T>, f: T -> real, g: T -> real, y: T)
    requires forall x | x in s :: f(x) <= g(x)
    requires y in s && f(y) < g(y)
    ensures Sum(s, f) < Sum(s, g)
  {
    var last := s[|s| - 1];
    assert s == s[..|s| - 1] + [last];
    assert last in s;
    if y in s[..|s| - 1] {
      SumLt(s[..|s| - 1], f, g, y);
    } else {
      SumLe(s[..|s| - 1], f, g);
    }
  }

  lemma {:induction false} SumAdd<T>(s: seq<T>, f: T -> real, g: T -> real, h: T -> real)
    requires forall x | x in s :: h(x) == f(x) + g(x)
    ensures Sum(s, h) == Sum(s, f) + Sum(s, g)
  {
    if s != [] {
      assert s[|s| - 1] in s;
      SumAdd(s[..|s| - 1], f, g, h);
    }
  }

  lemma {:induction false} SumScale<T>(s: seq<T>, c: real, f: T -> real, h: T -> real)
    requires forall x | x in s :: h(x) == c * f(x)
    ensures Sum(s, h) == c * Sum(s, f)
  {
    if s != [] {
      assert s[|s| - 1] in s;
      SumScale(s[..|s| - 1], c, f, h);
    }
  }

  lemma {:induction false} SumConst<T>(s: seq<T>, c: real, h: T -> real)
    requires forall x | x in s :: h(x) == c
    ensures Sum(s, h) == |s| as real * c
  {
    if s != [] {
      assert s[|s| - 1] in s;
      SumConst(s[..|s| - 1], c, h);
    }
  }

  /** The triangle inequality. */
  lemma {:induction false} SumAbs<T>(s: seq<T>, f: T -> real, h: T -> real)
    requires forall x | x in s :: Abs(f(x)) <= h(x)
    ensures Abs(Sum(s, f)) <= Sum(s, h)
  {
    if s != [] {
      assert s[|s| - 1] in s;
      SumAbs(s[..|s| - 1], f, h);
    }
  }

  lemma {:induction false} SumAppend<T>(s: seq<T>, t: seq<T>, f: T -> real)
    ensures Sum(s + t, f) == Sum(s, f) + Sum(t, f)
  {
    if t == [] {
      assert s + t == s;
    } else {
      SumAppend(s, t[..|t| - 1], f);
      assert (s + t)[..|s + t| - 1] == s + t[..|t| - 1];
    }
  }

  /** Taking one term out of a list. */
  lemma SumMiddle<T>(a: seq<T>, x: T, b: seq<T>, f: T -> real)
    ensures Sum(a + [x] + b, f) == Sum(a + b, f) + f(x)
  {
    SumAppend(a, b, f);
    SumAppend(a + [x], b, f);
    SumAppend(a, [x], f);
  }

  lemma SameWithout<T>(r: seq<T>, a: seq<T>, x: T, b: seq<T>)
    requires multiset(r + [x]) == multiset(a + [x] + b)
    ensures multiset(r) == multiset(a + b)
  {
    assert multiset(r) == multiset(r + [x]) - multiset{x};
    assert multiset(a + b) == multiset(a + [x] + b) - multiset{x};
  }

  /** A sum does not depend on the order of its terms. */
  lemma {:induction false} SumPermute<T>(s: seq<T>, t: seq<T>, f: T -> real)
    requires multiset(s) == multiset(t)
    ensures Sum(s, f) == Sum(t, f)
  {
    if s == [] {
      assert t == [] by { assert |multiset(t)| == |t|; }
    } else {
      var r, x := s[..|s| - 1], s[|s| - 1];
      assert s == r + [x];
      assert x in multiset(t);
      var i :| 0 <= i < |t| && t[i] == x;
      var a, b := t[..i], t[i + 1..];
      assert t == a + [x] + b;
      SumMiddle(a, x, b, f);
      SameWithout(r, a, x, b);
      SumPermute(r, a + b, f);
    }
  }

  /** In a duplicate-free list at most one term is picked out. */
  lemma {:induction false} SumPick<T>(s: seq<T>, u: T, c: real, h: T -> real)
    requires Distinct(s)
    requires forall x | x in s :: h(x) == if x == u then c else 0.0
    ensures Sum(s, h) == if u in s then c else 0.0
  {
    if s != [] {
      var r, a := s[..|s| - 1], s[|s| - 1];
      assert s == r + [a];
      assert a in s;
      SumPick(r, u, c, h);
    }
  }
}
