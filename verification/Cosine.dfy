/** Cosine similarity as the vector search computes it: the dot product over the
    common prefix, divided by whole norms with a floor. */
module Cosine {
  import opened Sums

  /** The floor under a norm. */
  const MIN_NORM: real := 0.00000001

  function Dot(a: seq<real>, b: seq<real>, n: nat): real
    requires n <= |a| && n <= |b|
  {
    if n == 0 then 0.0 else Dot(a, b, n - 1) + a[n - 1] * b[n - 1]
  }

  function SquareSum(v: seq<real>, n: nat): real
    requires n <= |v|
  {
    Dot(v, v, n)
  }

  /** sqrt is the square root on non-negative numbers. */
  ghost predicate IsSqrt(sqrt: real -> real)
  {
    forall x | x >= 0.0 :: sqrt(x) >= 0.0 && sqrt(x) * sqrt(x) == x
  }

  function Norm(v: seq<real>, sqrt: real -> real): real
  {
    sqrt(SquareSum(v, |v|))
  }

  function Floored(norm: real): (r: real)
    ensures r >= norm && r >= MIN_NORM && (r == norm || r == MIN_NORM)
  {
    if norm >= MIN_NORM then norm else MIN_NORM
  }

  /** aNorm is the query's norm, floored once for the whole search. */
  function Cosine(a: seq<real>, b: seq<real>, aNorm: real, sqrt: real -> real): real
    requires aNorm >= MIN_NORM
  {
    var minLen := if |a| < |b| then |a| else |b|;
    var bNorm := Floored(Norm(b, sqrt));
    Ratio(Dot(a, b, minLen), aNorm, bNorm)
  }

  function Ratio(d: real, x: real, y: real): real
    requires x > 0.0 && y > 0.0
  {
    Positive(x, y);
    d / (x * y)
  }

  lemma Positive(x: real, y: real)
    requires x > 0.0 && y > 0.0
    ensures x * y > 0.0
  {
  }

  // ----- Cauchy-Schwarz

  lemma SquareNonNegative(x: real)
    ensures x * x >= 0.0
  {
  }

  lemma ProductMonotone(x: real, y: real, u: real, v: real)
    requires 0.0 <= x <= u && 0.0 <= y <= v
    ensures x * y <= u * v
  {
    assert (u - x) * v >= 0.0;
    assert x * (v - y) >= 0.0;
  }

  /** Comparing squares compares absolute values. */
  lemma RootOrder(x: real, y: real)
    requires x >= 0.0 && y * y <= x * x
    ensures -x <= y <= x
  {
    if y > x {
      Positive(y - x, y + x);
    } else if y < -x {
      Positive(x - y, -x - y);
    }
  }

  /** One step: if d * d <= p * q, then 2dxy <= p * y * y + q * x * x. */
  lemma CrossTerm(d: real, p: real, q: real, x: real, y: real)
    requires p >= 0.0 && q >= 0.0 && d * d <= p * q
    ensures 2.0 * (d * (x * y)) <= p * (y * y) + q * (x * x)
  {
    var s, t, z := p * (y * y), q * (x * x), x * y;
    SquareNonNegative(y);
    SquareNonNegative(x);
    ProductNonNegative(p, y * y);
    ProductNonNegative(q, x * x);
    FourProduct(s, t);
    ScaledSquare(d, p, q, z);
    assert s * t == (p * q) * (z * z) by { Regroup(p, q, x, y); }
    assert (2.0 * (d * z)) * (2.0 * (d * z)) == 4.0 * ((d * d) * (z * z)) by { SquareOfProduct(d, z); }
    RootOrder(s + t, 2.0 * (d * z));
  }

  lemma FourProduct(s: real, t: real)
    ensures 4.0 * (s * t) <= (s + t) * (s + t)
  {
    SquareNonNegative(s - t);
  }

  lemma ScaledSquare(d: real, p: real, q: real, z: real)
    requires d * d <= p * q
    ensures (d * d) * (z * z) <= (p * q) * (z * z)
  {
    SquareNonNegative(z);
    ProductNonNegative(p * q - d * d, z * z);
  }

  lemma Regroup(p: real, q: real, x: real, y: real)
    ensures (p * (y * y)) * (q * (x * x)) == (p * q) * ((x * y) * (x * y))
  {
  }

  lemma SquareOfProduct(d: real, z: real)
    ensures (2.0 * (d * z)) * (2.0 * (d * z)) == 4.0 * ((d * d) * (z * z))
  {
  }

  lemma {:induction false} SquareSumGrows(v: seq<real>, n: nat, m: nat)
    requires n <= m <= |v|
    ensures 0.0 <= SquareSum(v, n) <= SquareSum(v, m)
  {
    if n < m {
      SquareSumGrows(v, n, m - 1);
      SquareNonNegative(v[m - 1]);
    } else if n > 0 {
      SquareSumGrows(v, n - 1, n - 1);
      SquareNonNegative(v[n - 1]);
    }
  }

  lemma {:induction false} CauchySchwarz(a: seq<real>, b: seq<real>, n: nat)
    requires n <= |a| && n <= |b|
    ensures Dot(a, b, n) * Dot(a, b, n) <= SquareSum(a, n) * SquareSum(b, n)
  {
    if n > 0 {
      CauchySchwarz(a, b, n - 1);
      SquareSumGrows(a, n - 1, n - 1);
      SquareSumGrows(b, n - 1, n - 1);
      StepCauchy(Dot(a, b, n - 1), SquareSum(a, n - 1), SquareSum(b, n - 1), a[n - 1], b[n - 1]);
    }
  }

  lemma StepCauchy(d: real, p: real, q: real, x: real, y: real)
    requires p >= 0.0 && q >= 0.0 && d * d <= p * q
    ensures (d + x * y) * (d + x * y) <= (p + x * x) * (q + y * y)
  {
    CrossTerm(d, p, q, x, y);
    assert (d + x * y) * (d + x * y) == d * d + 2.0 * (d * (x * y)) + (x * y) * (x * y);
    assert (p + x * x) * (q + y * y) == p * q + (p * (y * y) + q * (x * x)) + (x * x) * (y * y);
    assert (x * y) * (x * y) == (x * x) * (y * y);
  }

  // ----- the bounds

  lemma NormSquared(v: seq<real>, sqrt: real -> real)
    requires IsSqrt(sqrt)
    ensures Norm(v, sqrt) >= 0.0 && Norm(v, sqrt) * Norm(v, sqrt) == SquareSum(v, |v|)
  {
    SquareSumGrows(v, |v|, |v|);
  }

  lemma FlooredSquare(norm: real)
    requires norm >= 0.0
    ensures norm * norm <= Floored(norm) * Floored(norm)
  {
    ProductMonotone(norm, norm, Floored(norm), Floored(norm));
  }

  lemma Above(r: real, p: real)
    requires p > 0.0
    ensures r > 1.0 ==> r * p > p
    ensures r < -1.0 ==> r * p < -p
  {
    if r > 1.0 {
      Positive(r - 1.0, p);
    } else if r < -1.0 {
      Positive(-1.0 - r, p);
    }
  }

  lemma QuotientBound(d: real, p: real)
    requires p > 0.0 && -p <= d <= p
    ensures -1.0 <= d / p <= 1.0
  {
    Above(d / p, p);
    assert d / p * p == d;
  }

  lemma SquareProduct(x: real, y: real)
    ensures (x * x) * (y * y) == (x * y) * (x * y)
  {
  }

  /** The similarity is always between -1 and 1, for vectors of any lengths,
      even different ones, zero vectors included. */
  lemma CosineInRange(a: seq<real>, b: seq<real>, sqrt: real -> real)
    requires IsSqrt(sqrt)
    ensures -1.0 <= Cosine(a, b, Floored(Norm(a, sqrt)), sqrt) <= 1.0
  {
    hide Dot, IsSqrt, Floored, Norm, SquareSum, Ratio;
    var n := if |a| < |b| then |a| else |b|;
    var x, y := Floored(Norm(a, sqrt)), Floored(Norm(b, sqrt));
    NormSquared(a, sqrt);
    NormSquared(b, sqrt);
    FlooredSquare(Norm(a, sqrt));
    FlooredSquare(Norm(b, sqrt));
    CauchySchwarz(a, b, n);
    SquareSumGrows(a, n, |a|);
    SquareSumGrows(b, n, |b|);
    Positive(x, y);
    WithinProduct(Dot(a, b, n), SquareSum(a, n), SquareSum(b, n), x, y);
    RatioBound(Dot(a, b, n), x, y);
  }

  lemma RatioBound(d: real, x: real, y: real)
    requires x > 0.0 && y > 0.0 && -(x * y) <= d <= x * y
    ensures -1.0 <= Ratio(d, x, y) <= 1.0
  {
    Positive(x, y);
    QuotientBound(d, x * y);
  }

  lemma RatioOne(d: real, x: real, y: real)
    requires x > 0.0 && y > 0.0
    ensures Ratio(d, x, y) == 1.0 <==> d == x * y
  {
    Positive(x, y);
    OneIffEqual(d, x * y);
  }

  lemma RatioSymmetric(d: real, x: real, y: real)
    requires x > 0.0 && y > 0.0
    ensures Ratio(d, x, y) == Ratio(d, y, x)
  {
  }

  lemma WithinProduct(d: real, p: real, q: real, x: real, y: real)
    requires 0.0 <= p <= x * x && 0.0 <= q <= y * y && d * d <= p * q && x * y >= 0.0
    ensures -(x * y) <= d <= x * y
  {
    ProductMonotone(p, q, x * x, y * y);
    SquareProduct(x, y);
    RootOrder(x * y, d);
  }

  lemma {:induction false} DotSymmetric(a: seq<real>, b: seq<real>, n: nat)
    requires n <= |a| && n <= |b|
    ensures Dot(a, b, n) == Dot(b, a, n)
  {
    if n > 0 {
      DotSymmetric(a, b, n - 1);
    }
  }

  /** It does not matter which of two vectors is the query. */
  lemma CosineSymmetric(a: seq<real>, b: seq<real>, sqrt: real -> real)
    ensures Cosine(a, b, Floored(Norm(a, sqrt)), sqrt) == Cosine(b, a, Floored(Norm(b, sqrt)), sqrt)
  {
    hide Dot, Floored, Norm, Ratio;
    var n := if |a| < |b| then |a| else |b|;
    DotSymmetric(a, b, n);
    RatioSymmetric(Dot(a, b, n), Floored(Norm(a, sqrt)), Floored(Norm(b, sqrt)));
  }

  function Negated(v: seq<real>): seq<real>
  {
    seq(|v|, i requires 0 <= i < |v| => -v[i])
  }

  lemma {:induction false} DotNegated(a: seq<real>, b: seq<real>, n: nat)
    requires n <= |a| && n <= |b|
    ensures Dot(a, Negated(b), n) == -Dot(a, b, n)
  {
    if n > 0 {
      DotNegated(a, b, n - 1);
      assert a[n - 1] * -b[n - 1] == -(a[n - 1] * b[n - 1]);
    }
  }

  lemma NormNegated(v: seq<real>, sqrt: real -> real)
    ensures Norm(Negated(v), sqrt) == Norm(v, sqrt)
  {
    DotNegated(Negated(v), v, |v|);
    DotSymmetric(Negated(v), v, |v|);
    DotNegated(v, v, |v|);
  }

  lemma RatioNegated(d: real, x: real, y: real)
    requires x > 0.0 && y > 0.0
    ensures Ratio(-d, x, y) == -Ratio(d, x, y)
  {
    Positive(x, y);
    QuotientNegated(d, x * y);
  }

  lemma QuotientNegated(d: real, p: real)
    requires p > 0.0
    ensures (-d) / p == -(d / p)
  {
    assert d / p * p == d;
    assert (-(d / p)) * p == -d;
  }

  /** The opposite vector is as dissimilar as the vector is similar. */
  lemma CosineNegated(a: seq<real>, b: seq<real>, sqrt: real -> real)
    ensures Cosine(a, Negated(b), Floored(Norm(a, sqrt)), sqrt) == -Cosine(a, b, Floored(Norm(a, sqrt)), sqrt)
  {
    hide Dot, Floored, Norm, Ratio;
    var n := if |a| < |b| then |a| else |b|;
    DotNegated(a, b, n);
    NormNegated(b, sqrt);
    RatioNegated(Dot(a, b, n), Floored(Norm(a, sqrt)), Floored(Norm(b, sqrt)));
  }

  /** A vector is fully similar to itself exactly when its norm is not below the floor. */
  lemma CosineSelf(a: seq<real>, sqrt: real -> real)
    requires IsSqrt(sqrt)
    ensures Cosine(a, a, Floored(Norm(a, sqrt)), sqrt) == 1.0 <==> Norm(a, sqrt) >= MIN_NORM
  {
    hide Dot, IsSqrt, Ratio;
    var norm, x := Norm(a, sqrt), Floored(Norm(a, sqrt));
    NormSquared(a, sqrt);
    RatioOne(Dot(a, a, |a|), x, x);
    if norm < MIN_NORM {
      SmallerSquare(norm, x);
    }
  }

  /** So a vector with a coordinate of at least the floor is. */
  lemma CosineSelfIsOne(a: seq<real>, sqrt: real -> real, k: nat)
    requires IsSqrt(sqrt) && k < |a| && (a[k] >= MIN_NORM || a[k] <= -MIN_NORM)
    ensures Cosine(a, a, Floored(Norm(a, sqrt)), sqrt) == 1.0
  {
    hide Cosine, IsSqrt;
    CosineSelf(a, sqrt);
    NormSquared(a, sqrt);
    SquareSumCovers(a, k);
    LargeSquare(a[k], MIN_NORM);
    RootOrder(Norm(a, sqrt), MIN_NORM);
  }

  lemma LargeSquare(x: real, m: real)
    requires m >= 0.0 && (x >= m || x <= -m)
    ensures m * m <= x * x
  {
    var size := if x >= 0.0 then x else -x;
    ProductMonotone(m, m, size, size);
    assert size * size == x * x;
  }

  lemma SquareSumCovers(v: seq<real>, k: nat)
    requires k < |v|
    ensures SquareSum(v, |v|) >= v[k] * v[k]
  {
    SquareSumGrows(v, k, k);
    SquareSumGrows(v, k + 1, |v|);
    assert Dot(v, v, k + 1) == Dot(v, v, k) + v[k] * v[k];
  }

  lemma OneIffEqual(d: real, p: real)
    requires p > 0.0
    ensures d / p == 1.0 <==> d == p
  {
    assert d / p * p == d;
  }

  lemma SmallerSquare(x: real, y: real)
    requires 0.0 <= x < y
    ensures x * x < y * y
  {
    Positive(y - x, y + x);
  }
}
