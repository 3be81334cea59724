/** Sorting by a strict total order. A sorted list is determined by its members,
    so the order in which a hash table is iterated does not show in it. */
module Ordering {
  /** The order of strings by Unicode scalar value, which is the order of their UTF-8 bytes. */
  predicate StringLess(a: string, b: string)
  {
    |b| > 0 && (|a| == 0 || a[0] < b[0] || (a[0] == b[0] && StringLess(a[1..], b[1..])))
  }

  lemma {:induction false} StringLessTotal(a: string, b: string)
    ensures StringLess(a, b) || StringLess(b, a) || a == b
    ensures !(StringLess(a, b) && StringLess(b, a))
  {
    if |a| > 0 && |b| > 0 && a[0] == b[0] {
      StringLessTotal(a[1..], b[1..]);
      assert a == [a[0]] + a[1..] && b == [b[0]] + b[1..];
    }
  }

  lemma {:induction false} StringLessTransitive(a: string, b: string, c: string)
    requires StringLess(a, b) && StringLess(b, c)
    ensures StringLess(a, c)
  {
    if |a| > 0 && a[0] == b[0] == c[0] {
      StringLessTransitive(a[1..], b[1..], c[1..]);
    }
  }

  /** One string comes before another exactly when it is a beginning of it, or is
      smaller at the first place where they differ. */
  lemma {:induction false} StringLessIff(a: string, b: string)
    ensures StringLess(a, b) <==> exists k: nat :: DiffersAt(a, b, k)
  {
    if |a| > 0 && |b| > 0 {
      StringLessIff(a[1..], b[1..]);
      if k: nat :| a[0] == b[0] && DiffersAt(a[1..], b[1..], k) {
        assert a[..k + 1] == [a[0]] + a[1..][..k] && b[..k + 1] == [b[0]] + b[1..][..k];
        assert DiffersAt(a, b, k + 1);
      }
      if k: nat :| DiffersAt(a, b, k) && k > 0 {
        assert a[0] == a[..k][0] && b[0] == b[..k][0];
        assert a[1..][..k - 1] == a[..k][1..] && b[1..][..k - 1] == b[..k][1..];
        assert DiffersAt(a[1..], b[1..], k - 1);
      }
    }
    if StringLess(a, b) && (|a| == 0 || a[0] < b[0]) {
      assert DiffersAt(a, b, 0);
    }
  }

  /** The strings agree in front of place k, and there a ends or is smaller. */
  ghost predicate DiffersAt(a: string, b: string, k: nat)
  {
    k <= |a| && k < |b| && a[..k] == b[..k] && (k == |a| || a[k] < b[k])
  }

  ghost predicate StrictTotal<T(!new)>(before: (T, T) -> bool)
  {
    && (forall a, b :: before(a, b) || before(b, a) || a == b)
    && (forall a, b :: !(before(a, b) && before(b, a)))
    && (forall a, b, c :: before(a, b) && before(b, c) ==> before(a, c))
  }

  ghost predicate Sorted<T>(before: (T, T) -> bool, s: seq<T>)
  {
    forall i, j | 0 <= i < j < |s| :: before(s[i], s[j])
  }

  lemma SortedNoDuplicates<T(!new)>(before: (T, T) -> bool, s: seq<T>)
    requires StrictTotal(before) && Sorted(before, s)
    ensures forall i, j | 0 <= i < j < |s| :: s[i] != s[j]
  {
  }

  lemma {:induction false} SortedUnique<T(!new)>(before: (T, T) -> bool, s: seq<T>, t: seq<T>)
    requires StrictTotal(before) && Sorted(before, s) && Sorted(before, t)
    requires forall x :: x in s <==> x in t
    ensures s == t
  {
    HasMember(s);
    HasMember(t);
    if s != [] && t != [] {
      assert s[0] in t && t[0] in s by { assert s[0] in s; assert t != [] ==> t[0] in t; }
      assert s[0] == t[0];
      assert s == [s[0]] + s[1..] && t == [t[0]] + t[1..];
      SortedNoDuplicates(before, s);
      SortedNoDuplicates(before, t);
      forall x
        ensures x in s[1..] <==> x in t[1..]
      {
        assert x in s <==> x == s[0] || x in s[1..];
        assert x in t <==> x == t[0] || x in t[1..];
      }
      SortedUnique(before, s[1..], t[1..]);
    }
  }

  lemma HasMember<T>(s: seq<T>)
    ensures s == [] <==> forall x :: x !in s
  {
    if s != [] {
      assert s[0] in s;
    }
  }

  /** Insertion into a sorted list; stands for the library sort. */
  function Insert<T(!new)>(before: (T, T) -> bool, s: seq<T>, x: T): (r: seq<T>)
    ensures |r| == |s| + 1
    ensures forall y :: y in r <==> y in s || y == x
  {
    if s == [] then [x]
    else if before(x, s[0]) then [x] + s
    else [s[0]] + Insert(before, s[1..], x)
  }

  lemma {:induction false} InsertSorted<T(!new)>(before: (T, T) -> bool, s: seq<T>, x: T)
    requires StrictTotal(before) && Sorted(before, s) && x !in s
    ensures Sorted(before, Insert(before, s, x))
  {
    if s != [] && !before(x, s[0]) {
      InsertSorted(before, s[1..], x);
      var r := Insert(before, s[1..], x);
      forall j | 0 <= j < |r|
        ensures before(s[0], r[j])
      {
        assert r[j] in r;
        if r[j] != x {
          var i :| 0 <= i < |s[1..]| && s[1..][i] == r[j];
          assert s[i + 1] == r[j];
        }
      }
    }
  }
}
