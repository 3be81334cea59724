/** Counting a keyword in a text: the greedy scan from the left finds as many
    occurrences as can be chosen without overlap. */
module Occurrences {
  import opened Wrappers

  /** alnum and lower stand for the Unicode tables: which characters are
      alphanumeric, and the lower case of each. */
  function Normalise(s: string, alnum: char -> bool, lower: char -> string): string
  {
    if s == "" then ""
    else (if alnum(s[0]) then lower(s[0]) else "") + Normalise(s[1..], alnum, lower)
  }

  lemma {:induction false} NormaliseConcat(a: string, b: string, alnum: char -> bool, lower: char -> string)
    ensures Normalise(a + b, alnum, lower) == Normalise(a, alnum, lower) + Normalise(b, alnum, lower)
  {
    if a == "" {
      assert a + b == b;
    } else {
      NormaliseConcat(a[1..], b, alnum, lower);
      assert (a + b)[1..] == a[1..] + b;
    }
  }

  lemma NormaliseFirst(s: string, alnum: char -> bool, lower: char -> string)
    requires s != ""
    ensures Normalise(s, alnum, lower) == (if alnum(s[0]) then lower(s[0]) else "") + Normalise(s[1..], alnum, lower)
  {
  }

  /** Each alphanumeric character contributes its lower case in its place, and no other character does. */
  lemma NormaliseAt(s: string, i: nat, alnum: char -> bool, lower: char -> string)
    requires i < |s|
    ensures Normalise(s, alnum, lower)
         == Normalise(s[..i], alnum, lower) + ((if alnum(s[i]) then lower(s[i]) else "") + Normalise(s[i + 1..], alnum, lower))
  {
    hide *;
    assert s == s[..i] + s[i..];
    NormaliseConcat(s[..i], s[i..], alnum, lower);
    NormaliseFirst(s[i..], alnum, lower);
    assert s[i..][1..] == s[i + 1..];
  }

  /** Case does not matter: strings that agree place by place in what is
      alphanumeric and in its lower case have one normal form. */
  lemma {:induction false} CaseVanishes(a: string, b: string, alnum: char -> bool, lower: char -> string)
    requires |a| == |b| && forall i | 0 <= i < |a| :: alnum(a[i]) == alnum(b[i]) && (alnum(a[i]) ==> lower(a[i]) == lower(b[i]))
    ensures Normalise(a, alnum, lower) == Normalise(b, alnum, lower)
  {
    if a != "" {
      CaseVanishes(a[1..], b[1..], alnum, lower);
    }
  }

  /** Punctuation inside a word does not matter: CVE-2024-3094 is cve20243094. */
  lemma {:induction false} SeparatorsVanish(a: string, sep: string, b: string, alnum: char -> bool, lower: char -> string)
    requires forall k | 0 <= k < |sep| :: !alnum(sep[k])
    ensures Normalise(a + sep + b, alnum, lower) == Normalise(a + b, alnum, lower)
    decreases |sep|
  {
    if sep == "" {
      assert a + sep + b == a + b;
    } else {
      SeparatorsVanish(a, sep[1..], b, alnum, lower);
      assert a + sep + b == a + (sep[..1] + (sep[1..] + b));
      assert a + sep[1..] + b == a + (sep[1..] + b);
      NormaliseConcat(a, sep[..1] + (sep[1..] + b), alnum, lower);
      NormaliseConcat(sep[..1], sep[1..] + b, alnum, lower);
      NormaliseConcat(a, sep[1..] + b, alnum, lower);
      assert sep[..1][1..] == "" && Normalise(sep[..1], alnum, lower) == "";
    }
  }

  predicate OccursAt(hay: string, needle: string, i: nat)
  {
    i + |needle| <= |hay| && hay[i..i + |needle|] == needle
  }

  /** The first occurrence from start on. */
  function FindFrom(hay: string, needle: string, start: nat): (pos: Option<nat>)
    requires start <= |hay|
    ensures pos.Some? ==> start <= pos.value && OccursAt(hay, needle, pos.value)
    ensures forall i | start <= i && OccursAt(hay, needle, i) :: pos.Some? && pos.value <= i
    decreases |hay| - start
  {
    if OccursAt(hay, needle, start) then Some(start)
    else if start == |hay| then None
    else FindFrom(hay, needle, start + 1)
  }

  /** Places where the needle occurs, no two of them overlapping. */
  ghost predicate DisjointOccurrences(places: set<nat>, hay: string, needle: string)
  {
    && (forall p | p in places :: OccursAt(hay, needle, p))
    && (forall p, q | p in places && q in places && p < q :: p + |needle| <= q)
  }

  ghost function Before(places: set<nat>, end: nat): set<nat>
  {
    set p | p in places && p < end
  }

  /** No choice of disjoint places has more than count of them before start. */
  ghost predicate Bounded(hay: string, needle: string, start: nat, count: nat)
  {
    forall places: set<nat> | DisjointOccurrences(places, hay, needle) :: |Before(places, start)| <= count
  }

  lemma BoundedAtStart(hay: string, needle: string)
    ensures Bounded(hay, needle, 0, 0)
  {
    forall places: set<nat> | DisjointOccurrences(places, hay, needle)
      ensures |Before(places, 0)| <= 0
    {
      assert Before(places, 0) == {};
    }
  }

  /** Between start and the end of the first occurrence only one place can be chosen. */
  lemma OneMore(hay: string, needle: string, start: nat, count: nat, pos: nat)
    requires Bounded(hay, needle, start, count) && start <= |hay| && FindFrom(hay, needle, start) == Some(pos)
    ensures Bounded(hay, needle, pos + |needle|, count + 1)
  {
    forall places: set<nat> | DisjointOccurrences(places, hay, needle)
      ensures |Before(places, pos + |needle|)| <= count + 1
    {
      hide FindFrom, Before, DisjointOccurrences, OccursAt;
      var early, late := Before(places, start), Before(places, pos + |needle|);
      if q :| q in late && q !in early {
        OnlyOne(places, hay, needle, start, pos, q);
      } else {
        SubsetSize(late, early);
      }
      assert |early| <= count;
    }
  }

  lemma OnlyOne(places: set<nat>, hay: string, needle: string, start: nat, pos: nat, q: nat)
    requires DisjointOccurrences(places, hay, needle) && start <= |hay| && FindFrom(hay, needle, start) == Some(pos)
    requires q in Before(places, pos + |needle|) && q !in Before(places, start)
    ensures |Before(places, pos + |needle|)| <= |Before(places, start)| + 1
  {
    var late, bound := Before(places, pos + |needle|), Before(places, start) + {q};
    forall p | p in late
      ensures p in bound
    {
      assert OccursAt(hay, needle, p) && OccursAt(hay, needle, q);
    }
    SubsetSize(late, bound);
  }

  lemma BoundedAtEnd(hay: string, needle: string, start: nat, count: nat)
    requires Bounded(hay, needle, start, count) && start <= |hay| && FindFrom(hay, needle, start).None?
    ensures forall places: set<nat> | DisjointOccurrences(places, hay, needle) :: |places| <= count
  {
    forall places: set<nat> | DisjointOccurrences(places, hay, needle)
      ensures |places| <= count
    {
      forall p | p in places
        ensures p < start
      {
        assert OccursAt(hay, needle, p);
      }
      assert Before(places, start) == places;
    }
  }

  /** count is the largest number of occurrences that can be chosen without overlap. */
  ghost predicate IsMaximum(count: nat, hay: string, needle: string)
  {
    && (exists places: set<nat> :: DisjointOccurrences(places, hay, needle) && |places| == count)
    && (forall places: set<nat> | DisjointOccurrences(places, hay, needle) :: |places| <= count)
  }

  /** The scan: each occurrence found is counted and the search goes on behind it. */
  method Scan(hay: string, needle: string) returns (count: nat)
    requires needle != ""
    ensures IsMaximum(count, hay, needle)
  {
    hide Bounded, FindFrom, Chosen, IsMaximum, DisjointOccurrences;
    count := 0;
    var start := 0;
    ghost var places: set<nat> := {};
    BoundedAtStart(hay, needle);
    NothingChosen(hay, needle);
    var pos := FindFrom(hay, needle, start);
    while pos.Some?
      invariant start <= |hay| && pos == FindFrom(hay, needle, start)
      invariant Bounded(hay, needle, start, count)
      invariant Chosen(places, hay, needle, start, count)
      decreases |hay| - start
    {
      OneMore(hay, needle, start, count, pos.value);
      ChooseOneMore(places, hay, needle, start, count, pos.value);
      places := places + {pos.value};
      count := count + 1;
      start := pos.value + |needle|;
      pos := FindFrom(hay, needle, start);
    }
    AllFound(places, hay, needle, start, count);
  }

  lemma NothingChosen(hay: string, needle: string)
    ensures Chosen({}, hay, needle, 0, 0)
  {
  }

  lemma AllFound(places: set<nat>, hay: string, needle: string, start: nat, count: nat)
    requires Bounded(hay, needle, start, count) && Chosen(places, hay, needle, start, count)
    requires start <= |hay| && FindFrom(hay, needle, start).None?
    ensures IsMaximum(count, hay, needle)
  {
    BoundedAtEnd(hay, needle, start, count);
  }

  /** The occurrences counted so far, all ending by start. */
  ghost predicate Chosen(places: set<nat>, hay: string, needle: string, start: nat, count: nat)
  {
    DisjointOccurrences(places, hay, needle) && |places| == count && forall p | p in places :: p + |needle| <= start
  }

  lemma ChooseOneMore(places: set<nat>, hay: string, needle: string, start: nat, count: nat, pos: nat)
    requires Chosen(places, hay, needle, start, count) && start <= pos && OccursAt(hay, needle, pos) && needle != ""
    ensures Chosen(places + {pos}, hay, needle, pos + |needle|, count + 1)
  {
    assert pos !in places;
  }

  /** The largest number of disjoint occurrences of the normalised needle in the
      normalised haystack, and 0 for a needle that normalises to nothing. */
  method CountOccurrences(haystack: string, needle: string, alnum: char -> bool, lower: char -> string) returns (count: nat)
    ensures var n, h := Normalise(needle, alnum, lower), Normalise(haystack, alnum, lower);
            if n == "" then count == 0 else IsMaximum(count, h, n)
  {
    var needleNorm := Normalise(needle, alnum, lower);
    if needleNorm == "" {
      return 0;
    }
    count := Scan(Normalise(haystack, alnum, lower), needleNorm);
  }

  /** The count is positive exactly when the normalised haystack contains the
      normalised needle. */
  lemma PositiveIffContained(hay: string, needle: string, count: nat)
    requires needle != "" && IsMaximum(count, hay, needle)
    ensures count > 0 <==> exists i: nat :: OccursAt(hay, needle, i)
  {
    var places: set<nat> :| DisjointOccurrences(places, hay, needle) && |places| == count;
    if count > 0 {
      var p :| p in places;
      assert OccursAt(hay, needle, p);
    }
    if i: nat :| OccursAt(hay, needle, i) {
      assert DisjointOccurrences({i}, hay, needle);
    }
  }

  // ----- the example of a vulnerability's number

  predicate AsciiAlnum(c: char)
  {
    '0' <= c <= '9' || 'A' <= c <= 'Z' || 'a' <= c <= 'z'
  }

  function AsciiLower(c: char): string
  {
    if 'A' <= c <= 'Z' then [(c as int + 32) as char] else [c]
  }

  /** A string that is not empty occurs once in itself. */
  lemma OccursOnceInItself(s: string, count: nat)
    requires s != "" && IsMaximum(count, s, s)
    ensures count == 1
  {
    assert OccursAt(s, s, 0);
    assert DisjointOccurrences({0}, s, s);
    var places: set<nat> :| DisjointOccurrences(places, s, s) && |places| == count;
    forall p | p in places
      ensures p == 0
    {
      assert OccursAt(s, s, p);
    }
    SubsetSize(places, {0});
  }

  lemma NumberNormalises()
    ensures Normalise("CVE-2024-3094", AsciiAlnum, AsciiLower) == "cve20243094"
    ensures Normalise("cve20243094", AsciiAlnum, AsciiLower) == "cve20243094"
  {
    hide Normalise;
    DigitsStay("20243094");
    LettersFold();
    SeparatorsVanish("CVE", "-", "2024-3094", AsciiAlnum, AsciiLower);
    SeparatorsVanish("CVE2024", "-", "3094", AsciiAlnum, AsciiLower);
    NormaliseConcat("CVE", "20243094", AsciiAlnum, AsciiLower);
    NormaliseConcat("cve", "20243094", AsciiAlnum, AsciiLower);
    assert "CVE" + "-" + "2024-3094" == "CVE-2024-3094" && "CVE" + "2024-3094" == "CVE2024" + "-" + "3094";
    assert "CVE2024" + "3094" == "CVE" + "20243094" && "cve" + "20243094" == "cve20243094";
  }

  lemma {:induction false} DigitsStay(s: string)
    requires forall i | 0 <= i < |s| :: '0' <= s[i] <= '9'
    ensures Normalise(s, AsciiAlnum, AsciiLower) == s
  {
    if s != "" {
      DigitsStay(s[1..]);
      assert [s[0]] + s[1..] == s;
    }
  }

  lemma LettersFold()
    ensures Normalise("CVE", AsciiAlnum, AsciiLower) == "cve" == Normalise("cve", AsciiAlnum, AsciiLower)
  {
    assert "CVE"[1..] == "VE" && "VE"[1..] == "E" && "E"[1..] == "";
    assert "cve"[1..] == "ve" && "ve"[1..] == "e" && "e"[1..] == "";
    assert Normalise("E", AsciiAlnum, AsciiLower) == "e" == Normalise("e", AsciiAlnum, AsciiLower);
    assert Normalise("VE", AsciiAlnum, AsciiLower) == "ve" == Normalise("ve", AsciiAlnum, AsciiLower);
  }

  /** The keyword cve20243094 occurs once in the title CVE-2024-3094. */
  method NumberIsFound() returns (count: nat)
    ensures count == 1
  {
    NumberNormalises();
    count := CountOccurrences("CVE-2024-3094", "cve20243094", AsciiAlnum, AsciiLower);
    OccursOnceInItself("cve20243094", count);
  }
}
