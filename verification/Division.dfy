/** Quotients and remainders of natural numbers. */
module Division {
  lemma DivMod(q: nat, o: nat, size: nat)
    requires o < size
    ensures (q * size + o) / size == q && (q * size + o) % size == o
  {
    var x := q * size + o;
    assert x == (x / size) * size + x % size;
    QuotientUnique(q, o, x / size, x % size, size);
  }

  lemma QuotientUnique(q: int, o: int, p: int, r: int, size: int)
    requires 0 <= o < size && 0 <= r < size && q * size + o == p * size + r
    ensures q == p && o == r
  {
    assert (q - p) * size == r - o;
    NoSmallMultiple(q - p, size);
  }

  lemma NoSmallMultiple(d: int, size: int)
    requires size > 0 && -size < d * size < size
    ensures d == 0
  {
    if d >= 1 {
      Multiples(d, size);
    } else if d <= -1 {
      Multiples(-d, size);
    }
  }

  lemma Multiples(d: int, size: int)
    requires size > 0
    ensures d >= 1 ==> d * size >= size
    ensures (-d) * size == -(d * size)
  {
  }

  lemma QuotientNonNegative(x: nat, size: nat)
    requires size > 0
    ensures x / size >= 0
  {
  }

  lemma Split(x: nat, n: nat)
    requires n > 0
    ensures x == (x / n) * n + x % n && x / n >= 0
  {
  }

  /** One whole n more. */
  lemma AddWhole(x: nat, n: nat)
    requires n > 0
    ensures (x + n) / n == x / n + 1 && (x + n) % n == x % n
  {
    Split(x, n);
    var q, r := x / n, x % n;
    assert x + n == (q + 1) * n + r;
    DivMod(q + 1, r, n);
  }

  /** One more: the remainder counts on or starts again. */
  lemma AddOne(x: nat, n: nat)
    requires n > 0
    ensures (x + 1) % n == if x % n + 1 == n then 0 else x % n + 1
  {
    Split(x, n);
    var q, r := x / n, x % n;
    if r + 1 == n {
      assert x + 1 == (q + 1) * n + 0;
      DivMod(q + 1, 0, n);
    } else {
      assert x + 1 == q * n + (r + 1);
      DivMod(q, r + 1, n);
    }
  }
}
