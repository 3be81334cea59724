/** Greedy word wrap by byte length: it keeps every word in order, and no other
    wrapping that obeys the same rule has fewer lines. */
module WordWrap {
  import SparseCodec

  type Words = seq<string>

  /** The characters with the Unicode property White_Space. */
  predicate IsWhitespace(c: char)
  {
    var n := c as int;
    || 0x09 <= n <= 0x0D || n == 0x20 || n == 0x85 || n == 0xA0 || n == 0x1680
    || 0x2000 <= n <= 0x200A || n == 0x2028 || n == 0x2029 || n == 0x202F || n == 0x205F || n == 0x3000
  }

  /** Tab, line feed, line tabulation, form feed, carriage return, space, next
      line, no-break space, ogham space mark, the eleven spaces from en quad to
      hair space, line and paragraph separator, narrow no-break space, medium
      mathematical space and ideographic space: 25 characters. */
  lemma WhitespaceIs()
    ensures forall n: nat | SparseCodec.IsScalar(n) :: IsWhitespace(n as char)
              <==> n in [0x9, 0xA, 0xB, 0xC, 0xD, 0x20, 0x85, 0xA0, 0x1680, 0x2000, 0x2001, 0x2002, 0x2003, 0x2004, 0x2005, 0x2006,
                         0x2007, 0x2008, 0x2009, 0x200A, 0x2028, 0x2029, 0x202F, 0x205F, 0x3000]
  {
  }

  /** The length of a string in UTF-8. */
  function ByteLen(s: string): nat
  {
    if s == "" then 0 else ByteLen(s[..|s| - 1]) + CharLen(s[|s| - 1])
  }

  function CharLen(c: char): nat
  {
    var n := c as int;
    if n < 0x80 then 1 else if n < 0x800 then 2 else if n < 0x10000 then 3 else 4
  }

  lemma {:induction false} ByteLenConcat(a: string, b: string)
    ensures ByteLen(a + b) == ByteLen(a) + ByteLen(b)
  {
    if b == "" {
      assert a + b == a;
    } else {
      ByteLenConcat(a, b[..|b| - 1]);
      assert (a + b)[..|a + b| - 1] == a + b[..|b| - 1];
    }
  }

  ghost function Scalars(s: string): (r: seq<int>)
    ensures forall k | 0 <= k < |r| :: SparseCodec.IsScalar(r[k])
  {
    seq(|s|, k requires 0 <= k < |s| => s[k] as int)
  }

  /** The length is the number of bytes of the string in UTF-8. */
  lemma {:induction false} ByteLenIsUtf8(s: string)
    ensures ByteLen(s) == |SparseCodec.Utf8Text(Scalars(s))|
  {
    if s != "" {
      ByteLenIsUtf8(s[1..]);
      ByteLenConcat(s[..1], s[1..]);
      assert s[..1] + s[1..] == s && s[..1][..0] == "";
      assert Scalars(s)[1..] == Scalars(s[1..]);
    }
  }

  /** The maximal runs of characters that are not white space; word holds the
      run that is being read. */
  function SplitFrom(word: string, text: string): Words
    decreases text
  {
    if text == "" then (if word == "" then [] else [word])
    else if IsWhitespace(text[0]) then (if word == "" then [] else [word]) + SplitFrom("", text[1..])
    else SplitFrom(word + [text[0]], text[1..])
  }

  function SplitWhitespace(text: string): Words
  {
    SplitFrom("", text)
  }

  predicate Solid(s: string)
  {
    forall k | 0 <= k < |s| :: !IsWhitespace(s[k])
  }

  ghost predicate AreWords(words: Words)
  {
    forall k | 0 <= k < |words| :: words[k] != "" && Solid(words[k])
  }

  lemma {:induction false} SplitGivesWords(word: string, text: string)
    requires Solid(word)
    ensures AreWords(SplitFrom(word, text))
    decreases text
  {
    if text != "" {
      if IsWhitespace(text[0]) {
        SplitGivesWords("", text[1..]);
      } else {
        SplitGivesWords(word + [text[0]], text[1..]);
      }
    }
  }

  /** Reading a run of non-blank characters only extends the current word. */
  lemma {:induction false} SplitRun(word: string, run: string, rest: string)
    requires Solid(run)
    ensures SplitFrom(word, run + rest) == SplitFrom(word + run, rest)
    decreases run
  {
    if run == "" {
      assert run + rest == rest && word + run == word;
    } else {
      assert (run + rest)[1..] == run[1..] + rest;
      SplitRun(word + [run[0]], run[1..], rest);
      assert word + [run[0]] + run[1..] == word + run;
    }
  }

  // ----- lines

  /** The words of a line with one space between them. */
  function Join(words: Words): string
  {
    if words == [] then ""
    else if |words| == 1 then words[0]
    else Join(words[..|words| - 1]) + " " + words[|words| - 1]
  }

  function LineLen(words: Words): nat
  {
    ByteLen(Join(words))
  }

  lemma AppendLen(words: Words, word: string)
    ensures words != [] ==> Join(words + [word]) == Join(words) + " " + word
    ensures words != [] ==> LineLen(words + [word]) == LineLen(words) + 1 + ByteLen(word)
  {
    if words != [] {
      assert (words + [word])[..|words|] == words;
      ByteLenConcat(Join(words), " ");
      ByteLenConcat(Join(words) + " ", word);
      assert ByteLen(" ") == ByteLen("") + 1;
    }
  }

  /** The end of a line is no longer than the line. */
  lemma {:induction false} SuffixLen(front: Words, back: Words)
    requires back != []
    ensures LineLen(back) <= LineLen(front + back)
    decreases |back|
  {
    var n := |back| - 1;
    if n == 0 {
      assert back == [back[0]];
      AppendLen(front, back[0]);
      if front == [] {
        assert front + back == back;
      }
    } else {
      SuffixLen(front, back[..n]);
      assert back == back[..n] + [back[n]];
      assert front + back == (front + back[..n]) + [back[n]];
      AppendLen(back[..n], back[n]);
      AppendLen(front + back[..n], back[n]);
    }
  }

  // ----- wrappings

  function Flatten(groups: seq<Words>): Words
  {
    if groups == [] then [] else Flatten(groups[..|groups| - 1]) + groups[|groups| - 1]
  }

  /** A line fits when it is within the width or holds a single word. */
  ghost predicate Fits(line: Words, width: nat)
  {
    line != [] && (|line| > 1 ==> LineLen(line) <= width)
  }

  ghost predicate IsWrapping(groups: seq<Words>, words: Words, width: nat)
  {
    Flatten(groups) == words && forall k | 0 <= k < |groups| :: Fits(groups[k], width)
  }

  /** What the loop builds: the last line takes the word if it still fits. */
  function Fill(words: Words, width: nat): (groups: seq<Words>)
    ensures groups == [] <==> words == []
  {
    if words == [] then []
    else
      var word := words[|words| - 1];
      var groups := Fill(words[..|words| - 1], width);
      if groups == [] then [[word]]
      else if LineLen(groups[|groups| - 1] + [word]) > width then groups + [[word]]
      else groups[..|groups| - 1] + [groups[|groups| - 1] + [word]]
  }

  lemma {:induction false} FillWraps(words: Words, width: nat)
    ensures IsWrapping(Fill(words, width), words, width)
  {
    if words != [] {
      var n := |words| - 1;
      FillWraps(words[..n], width);
      var before, after := Fill(words[..n], width), Fill(words, width);
      if |after| == |before| + 1 {
        assert after[..|after| - 1] == before;
      } else {
        assert after[..|after| - 1] == before[..|before| - 1];
      }
      assert words == words[..n] + [words[n]];
    }
  }

  lemma LastGroup(groups: seq<Words>, words: Words, width: nat)
    requires IsWrapping(groups, words, width) && words != []
    ensures groups != [] && |groups[|groups| - 1]| <= |words|
    ensures groups[|groups| - 1] == words[|words| - |groups[|groups| - 1]|..]
  {
  }

  /** A wrapping without its last word. */
  function DropLast(groups: seq<Words>): seq<Words>
    requires groups != [] && groups[|groups| - 1] != []
  {
    var last := groups[|groups| - 1];
    groups[..|groups| - 1] + (if |last| == 1 then [] else [last[..|last| - 1]])
  }

  lemma DropLastWraps(groups: seq<Words>, words: Words, width: nat)
    requires IsWrapping(groups, words, width) && words != []
    ensures groups != [] && groups[|groups| - 1] != [] && IsWrapping(DropLast(groups), words[..|words| - 1], width)
  {
    var last := groups[|groups| - 1];
    var dropped := DropLast(groups);
    if |last| == 1 {
      assert dropped == groups[..|groups| - 1];
    } else {
      assert dropped[..|dropped| - 1] == groups[..|groups| - 1];
      var short := last[..|last| - 1];
      assert last == short + [last[|last| - 1]];
      AppendLen(short, last[|last| - 1]);
      assert Fits(last, width) && Fits(short, width);
    }
    assert words[..|words| - 1] == Flatten(dropped);
  }

  /** No line could have taken the first word of the next. */
  ghost predicate Tight(groups: seq<Words>, width: nat)
  {
    forall k, l | 0 <= k < |groups| && l == k + 1 < |groups| && groups[l] != [] :: LineLen(groups[k] + [groups[l][0]]) > width
  }

  /** The greedy lines are the one wrapping that breaks only where the next word does not fit. */
  lemma {:induction false} FillIff(words: Words, width: nat, groups: seq<Words>)
    ensures groups == Fill(words, width) <==> IsWrapping(groups, words, width) && Tight(groups, width)
  {
    FillWraps(words, width);
    FillIsTight(words, width);
    if IsWrapping(groups, words, width) && Tight(groups, width) {
      TightIsFill(words, width, groups);
    }
  }

  lemma {:induction false} FillIsTight(words: Words, width: nat)
    ensures Tight(Fill(words, width), width)
  {
    if words != [] {
      var n := |words| - 1;
      var before, after := Fill(words[..n], width), Fill(words, width);
      FillIsTight(words[..n], width);
      FillWraps(words[..n], width);
      forall k, l | 0 <= k < |after| && l == k + 1 < |after| && after[l] != []
        ensures LineLen(after[k] + [after[l][0]]) > width
      {
        assert after[k] == before[k];
        if l < |before| {
          assert before[l] != [] && after[l][0] == before[l][0];
        }
      }
    }
  }

  lemma DropLastTight(groups: seq<Words>, width: nat)
    requires Tight(groups, width) && groups != [] && groups[|groups| - 1] != []
    ensures Tight(DropLast(groups), width)
  {
    hide LineLen;
    var before := DropLast(groups);
    forall k, l | 0 <= k < |before| && l == k + 1 < |before| && before[l] != []
      ensures LineLen(before[k] + [before[l][0]]) > width
    {
      assert before[k] == groups[k] && before[l][0] == groups[l][0];
    }
  }

  lemma {:induction false} TightIsFill(words: Words, width: nat, groups: seq<Words>)
    requires IsWrapping(groups, words, width) && Tight(groups, width)
    ensures groups == Fill(words, width)
  {
    hide LineLen, Flatten, Fill, Tight;
    if words == [] {
      NothingToWrap(groups, width);
    } else {
      var n := |words| - 1;
      DropLastWraps(groups, words, width);
      DropLastTight(groups, width);
      TightIsFill(words[..n], width, DropLast(groups));
      LastGroup(groups, words, width);
      FillsBack(groups, words, width);
    }
  }

  lemma NothingToWrap(groups: seq<Words>, width: nat)
    requires IsWrapping(groups, [], width)
    ensures groups == Fill([], width)
  {
    if groups != [] {
      LinesHaveWords(groups, [], width);
    }
  }

  lemma LinesHaveWords(groups: seq<Words>, words: Words, width: nat)
    requires IsWrapping(groups, words, width) && groups != []
    ensures words != []
  {
    assert Fits(groups[|groups| - 1], width);
  }

  /** Put back, the last word goes where it was. */
  lemma FillsBack(groups: seq<Words>, words: Words, width: nat)
    requires Tight(groups, width) && groups != [] && words != []
    requires var last := groups[|groups| - 1]; Fits(last, width) && last[|last| - 1] == words[|words| - 1]
    requires DropLast(groups) == Fill(words[..|words| - 1], width)
    ensures groups == Fill(words, width)
  {
    hide LineLen, Fill, Tight;
    var n := |words| - 1;
    var front, last := groups[..|groups| - 1], groups[|groups| - 1];
    assert groups == front + [last];
    if |last| == 1 {
      assert last == [words[n]];
      OpensLine(front, words, width);
    } else {
      var short := last[..|last| - 1];
      assert last == short + [words[n]];
      JoinsLine(front, short, words, width);
    }
  }

  lemma OpensLine(front: seq<Words>, words: Words, width: nat)
    requires words != [] && front == Fill(words[..|words| - 1], width)
    requires Tight(front + [[words[|words| - 1]]], width)
    ensures front + [[words[|words| - 1]]] == Fill(words, width)
  {
    hide LineLen, Fill, Tight;
    FillLast(words, width);
    if front != [] {
      TightAtEnd(front, words[|words| - 1], width);
    }
  }

  lemma JoinsLine(front: seq<Words>, short: Words, words: Words, width: nat)
    requires words != [] && front + [short] == Fill(words[..|words| - 1], width)
    requires LineLen(short + [words[|words| - 1]]) <= width
    ensures front + [short + [words[|words| - 1]]] == Fill(words, width)
  {
    hide LineLen, Fill;
    FillLast(words, width);
    assert (front + [short])[..|front|] == front;
  }

  lemma TightAtEnd(before: seq<Words>, word: string, width: nat)
    requires before != [] && Tight(before + [[word]], width)
    ensures LineLen(before[|before| - 1] + [word]) > width
  {
    hide LineLen;
    var groups := before + [[word]];
    assert groups[|before| - 1] == before[|before| - 1] && groups[|before|][0] == word;
  }

  lemma FillLast(words: Words, width: nat)
    requires words != []
    ensures var n := |words| - 1;
            var before := Fill(words[..n], width);
            Fill(words, width) == if before == [] then [[words[n]]]
              else if LineLen(before[|before| - 1] + [words[n]]) > width then before + [[words[n]]]
              else before[..|before| - 1] + [before[|before| - 1] + [words[n]]]
  {
  }

  /** Fill is ahead of other: it has fewer lines, or as many and a last line no longer. */
  ghost predicate Ahead(words: Words, width: nat, other: seq<Words>)
  {
    var best := Fill(words, width);
    || |best| < |other|
    || (|best| == |other| && (best != [] ==> |best[|best| - 1]| <= |other[|other| - 1]|))
  }

  /** The greedy choice stays ahead of every wrapping. */
  lemma {:induction false} StaysAhead(words: Words, width: nat, other: seq<Words>)
    requires IsWrapping(other, words, width)
    ensures Ahead(words, width, other)
  {
    if words != [] {
      var n := |words| - 1;
      DropLastWraps(other, words, width);
      StaysAhead(words[..n], width, DropLast(other));
      AheadStep(words, width, other);
    }
  }

  lemma AheadStep(words: Words, width: nat, other: seq<Words>)
    requires IsWrapping(other, words, width) && words != []
    requires other != [] && other[|other| - 1] != []
    requires Ahead(words[..|words| - 1], width, DropLast(other))
    ensures Ahead(words, width, other)
  {
    var n := |words| - 1;
    var best, last := Fill(words[..n], width), other[|other| - 1];
    LastGroup(other, words, width);
    if best != [] && |last| > 1 && |best| == |other| && LineLen(best[|best| - 1] + [words[n]]) > width {
      TooLong(words, width, best, last);
    }
  }

  /** If Fill has to open a line, the other wrapping's longer last line cannot fit either. */
  lemma TooLong(words: Words, width: nat, best: seq<Words>, last: Words)
    requires words != [] && best == Fill(words[..|words| - 1], width) && best != []
    requires 1 < |last| <= |words| && last == words[|words| - |last|..]
    requires LineLen(best[|best| - 1] + [words[|words| - 1]]) > width
    requires |best[|best| - 1]| < |last|
    ensures LineLen(last) > width
  {
    hide Fill, Join, ByteLen, LineLen, Flatten;
    var n := |words| - 1;
    var mine := best[|best| - 1];
    FillWraps(words[..n], width);
    LastGroup(best, words[..n], width);
    assert mine + [words[n]] == words[n - |mine|..];
    var cut := |last| - |mine| - 1;
    assert last == last[..cut] + (mine + [words[n]]);
    SuffixLen(last[..cut], mine + [words[n]]);
  }

  // ----- the method

  function Lines(groups: seq<Words>): (lines: seq<string>)
    ensures |lines| == |groups|
    ensures forall k | 0 <= k < |lines| :: lines[k] == Join(groups[k])
  {
    if groups == [] then [] else Lines(groups[..|groups| - 1]) + [Join(groups[|groups| - 1])]
  }

  /** One word more: the last line takes it or is closed. */
  lemma FillStep(words: Words, i: nat, width: nat, lines: seq<string>, current: string)
    requires 0 < i < |words| && lines + [current] == Lines(Fill(words[..i], width))
    ensures Lines(Fill(words[..i + 1], width)) ==
            if ByteLen(current) + ByteLen(words[i]) + 1 > width then lines + [current, words[i]]
            else lines + [current + " " + words[i]]
  {
    hide Join, LineLen, ByteLen;
    var before, after := Fill(words[..i], width), Fill(words[..i + 1], width);
    assert words[..i + 1][..i] == words[..i];
    var last := before[|before| - 1];
    LinesSplit(before);
    LinesSplit(after);
    assert current == Join(last);
    AppendLen(last, words[i]);
    JoinOne(words[i]);
    LastNotEmpty(words[..i], width);
    LineLenIsByteLen(last);
    if ByteLen(current) + ByteLen(words[i]) + 1 > width {
      assert after[..|after| - 1] == before;
    } else {
      assert after[..|after| - 1] == before[..|before| - 1];
    }
  }

  lemma LinesSplit(groups: seq<Words>)
    requires groups != []
    ensures Lines(groups) == Lines(groups[..|groups| - 1]) + [Join(groups[|groups| - 1])]
  {
  }

  lemma JoinOne(word: string)
    ensures Join([word]) == word
  {
  }

  lemma LineLenIsByteLen(words: Words)
    ensures LineLen(words) == ByteLen(Join(words))
  {
  }

  lemma LastNotEmpty(words: Words, width: nat)
    requires words != []
    ensures Fill(words, width)[|Fill(words, width)| - 1] != []
  {
    FillWraps(words, width);
  }

  lemma TextWords(text: string)
    ensures forall k | 0 <= k < |SplitWhitespace(text)| :: SplitWhitespace(text)[k] != ""
  {
    SplitGivesWords("", text);
  }

  lemma FirstWord(words: Words, width: nat)
    ensures words != [] ==> Lines(Fill(words[..1], width)) == [words[0]]
  {
    if words != [] {
      assert words[..1][..0] == [];
      JoinOne(words[0]);
    }
  }

  lemma FewestLines(words: Words, width: nat)
    ensures forall other | IsWrapping(other, words, width) :: |Lines(Fill(words, width))| <= |other|
  {
    forall other | IsWrapping(other, words, width)
      ensures |Lines(Fill(words, width))| <= |other|
    {
      StaysAhead(words, width, other);
    }
  }

  /** The lines are the words of the text in order; only a line with a single
      word can exceed the width; and no wrapping has fewer lines. */
  method Wrap(text: string, width: nat) returns (lines: seq<string>)
    ensures var words := SplitWhitespace(text);
            if words == [] then lines == [""] else lines == Lines(Fill(words, width))
    ensures var words := SplitWhitespace(text);
            words != [] ==> forall other | IsWrapping(other, words, width) :: |lines| <= |other|
  {
    hide *;
    var words := SplitWhitespace(text);
    TextWords(text);
    FewestLines(words, width);
    FirstWord(words, width);
    lines := [];
    var current := "";
    for i := 0 to |words|
      invariant i == 0 ==> lines == [] && current == ""
      invariant i > 0 ==> current != ""
      invariant i > 0 ==> lines + [current] == Lines(Fill(words[..i], width))
    {
      assert "" + words[i] == words[i];
      if i > 0 {
        FillStep(words, i, width, lines, current);
        assert lines + [current, words[i]] == lines + [current] + [words[i]];
      }
      if ByteLen(current) + ByteLen(words[i]) + 1 > width && current != "" {
        lines := lines + [current];
        current := "";
      }
      if current != "" {
        current := current + " ";
      }
      current := current + words[i];
    }
    assert words[..|words|] == words;
    if current != "" {
      lines := lines + [current];
    }
    if lines == [] {
      lines := [""];
    }
  }

  // ----- what the lines say

  /** Splitting a line gives back its words. */
  lemma {:induction false} JoinSplits(words: Words, rest: string)
    requires AreWords(words) && (rest == "" || IsWhitespace(rest[0]))
    ensures SplitWhitespace(Join(words) + rest) == words + SplitWhitespace(rest)
    decreases |words|
  {
    var n := |words| - 1;
    if n < 0 {
      assert Join(words) + rest == rest;
    } else {
      WordSplits(words[n], rest);
      if n == 0 {
        assert words == [words[0]];
      } else {
        var tail := " " + words[n] + rest;
        JoinSplits(words[..n], tail);
        assert Join(words) + rest == Join(words[..n]) + tail;
        assert tail[1..] == words[n] + rest;
        assert words == words[..n] + [words[n]];
      }
    }
  }

  lemma WordSplits(word: string, rest: string)
    requires word != "" && Solid(word) && (rest == "" || IsWhitespace(rest[0]))
    ensures SplitWhitespace(word + rest) == [word] + SplitWhitespace(rest)
  {
    SplitRun("", word, rest);
    assert "" + word == word;
  }

  ghost predicate Blank(s: string)
  {
    forall k | 0 <= k < |s| :: IsWhitespace(s[k])
  }

  lemma {:induction false} BlankSplits(gap: string, rest: string)
    requires Blank(gap)
    ensures SplitWhitespace(gap + rest) == SplitWhitespace(rest)
  {
    if gap == "" {
      assert gap + rest == rest;
    } else {
      assert (gap + rest)[1..] == gap[1..] + rest;
      BlankSplits(gap[1..], rest);
    }
  }

  /** Each word with what stands behind it. */
  ghost function Spread(words: Words, gaps: seq<string>): string
    requires |gaps| == |words|
  {
    if words == [] then "" else words[0] + (gaps[0] + Spread(words[1..], gaps[1..]))
  }

  /** However the words of a text are spaced, splitting it gives the words. */
  lemma {:induction false} AnySpacingSplits(lead: string, words: Words, gaps: seq<string>)
    requires AreWords(words) && |gaps| == |words| && Blank(lead)
    requires forall k | 0 <= k < |gaps| :: Blank(gaps[k]) && (k + 1 < |gaps| ==> gaps[k] != "")
    ensures SplitWhitespace(lead + Spread(words, gaps)) == words
    decreases |words|
  {
    BlankSplits(lead, Spread(words, gaps));
    if words != [] {
      var tail := Spread(words[1..], gaps[1..]);
      AnySpacingSplits(gaps[0], words[1..], gaps[1..]);
      assert gaps[0] == "" ==> |words| == 1;
      WordSplits(words[0], gaps[0] + tail);
    }
  }

  /** The lines as one text, one per row. */
  function Rows(lines: seq<string>): string
  {
    if lines == [] then "" else lines[0] + "\n" + Rows(lines[1..])
  }

  lemma NoRows()
    ensures Lines([]) == [] && SplitWhitespace("") == [] && Flatten([]) == []
  {
  }

  lemma NewlineSplits(text: string)
    ensures SplitWhitespace("\n" + text) == SplitWhitespace(text)
  {
    assert ("\n" + text)[1..] == text;
  }

  lemma {:induction false} RowsSplit(groups: seq<Words>)
    requires forall k | 0 <= k < |groups| :: AreWords(groups[k])
    ensures SplitWhitespace(Rows(Lines(groups))) == Flatten(groups)
  {
    hide SplitFrom, Join, Lines, AreWords, Flatten;
    if groups == [] {
      NoRows();
    } else {
      var tail := "\n" + Rows(Lines(groups[1..]));
      RowsSplit(groups[1..]);
      JoinSplits(groups[0], tail);
      NewlineSplits(Rows(Lines(groups[1..])));
      assert Lines(groups)[1..] == Lines(groups[1..]);
      assert Rows(Lines(groups)) == Join(groups[0]) + tail;
      FlattenFirst(groups);
    }
  }

  lemma {:induction false} FlattenFirst(groups: seq<Words>)
    requires groups != []
    ensures Flatten(groups) == groups[0] + Flatten(groups[1..])
  {
    var n := |groups| - 1;
    if n > 0 {
      FlattenFirst(groups[..n]);
      assert groups[..n][1..] == groups[1..][..n - 1];
    }
  }

  lemma {:induction false} GroupsAreWords(groups: seq<Words>)
    requires AreWords(Flatten(groups))
    ensures forall k | 0 <= k < |groups| :: AreWords(groups[k])
  {
    if groups != [] {
      var n := |groups| - 1;
      var front, last := Flatten(groups[..n]), groups[n];
      assert front == Flatten(groups)[..|front|];
      assert last == Flatten(groups)[|front|..];
      GroupsAreWords(groups[..n]);
    }
  }

  /** Wrapping loses nothing and is stable: the wrapped rows split into the
      very words of the text, so wrapping them again gives the same lines. */
  lemma WrapAgain(text: string, width: nat)
    ensures var words := SplitWhitespace(text);
            var rows := Rows(Lines(Fill(words, width)));
            SplitWhitespace(rows) == words && Fill(SplitWhitespace(rows), width) == Fill(words, width)
  {
    var words := SplitWhitespace(text);
    SplitGivesWords("", text);
    FillWraps(words, width);
    GroupsAreWords(Fill(words, width));
    RowsSplit(Fill(words, width));
  }
}
