/** The length-prefixed binary codec for sparse embeddings. */
module SparseCodec {
  import opened Wrappers

  type Byte = x: int | 0 <= x < 0x100
  type U32 = x: int | 0 <= x < 0x1_0000_0000

  /** A term as its UTF-8 bytes and a weight as the bits of its 32-bit float. */
  datatype Item = Item(term: seq<Byte>, weight: U32)

  datatype EncodeError = TooManyTerms | TermTooLong

  datatype DecodeError = TruncatedLength | TruncatedBody | NotUtf8 | TruncatedWeights

  // ----- little-endian 32-bit integers

  function ToLe(n: U32): (b: seq<Byte>)
    ensures |b| == 4
  {
    [n % 0x100, n / 0x100 % 0x100, n / 0x1_0000 % 0x100, n / 0x100_0000 % 0x100]
  }

  function FromLe(b: seq<Byte>): U32
    requires |b| == 4
  {
    var b0: int, b1: int, b2: int, b3: int := b[0], b[1], b[2], b[3];
    b0 + 0x100 * b1 + 0x1_0000 * b2 + 0x100_0000 * b3
  }

  lemma LeRoundTrip(n: U32)
    ensures FromLe(ToLe(n)) == n
  {
    Digits(n);
  }

  /** A number from its digits to base 256. */
  lemma Digits(n: int)
    requires 0 <= n < 0x1_0000_0000
    ensures n == n % 0x100 + 0x100 * (n / 0x100 % 0x100) + 0x1_0000 * (n / 0x1_0000 % 0x100) + 0x100_0000 * (n / 0x100_0000 % 0x100)
  {
    var q, r, t := n / 0x100, n / 0x1_0000, n / 0x100_0000;
    assert r == q / 0x100 && t == r / 0x100 && t < 0x100;
  }

  lemma LeBytes(b: seq<Byte>)
    requires |b| == 4
    ensures ToLe(FromLe(b)) == b
  {
    var n: int := FromLe(b);
    var b1: int, b2: int, b3: int := b[1], b[2], b[3];
    assert n / 0x100 == b1 + 0x100 * b2 + 0x1_0000 * b3;
    assert n / 0x1_0000 == b2 + 0x100 * b3;
    assert n / 0x100_0000 == b3;
  }

  // ----- UTF-8 well-formedness

  predicate Continues(s: seq<Byte>, i: nat, low: int, high: int)
  {
    i < |s| && low <= s[i] <= high
  }

  /** Length of the well-formed sequence at the start of s, zero when there is none. */
  function SequenceLength(s: seq<Byte>): (n: nat)
    ensures n <= |s|
  {
    if s == [] then 0
    else if s[0] <= 0x7F then 1
    else if 0xC2 <= s[0] <= 0xDF && Continues(s, 1, 0x80, 0xBF) then 2
    else if 0xE0 <= s[0] <= 0xEF
            && Continues(s, 1, if s[0] == 0xE0 then 0xA0 else 0x80, if s[0] == 0xED then 0x9F else 0xBF)
            && Continues(s, 2, 0x80, 0xBF) then 3
    else if 0xF0 <= s[0] <= 0xF4
            && Continues(s, 1, if s[0] == 0xF0 then 0x90 else 0x80, if s[0] == 0xF4 then 0x8F else 0xBF)
            && Continues(s, 2, 0x80, 0xBF) && Continues(s, 3, 0x80, 0xBF) then 4
    else 0
  }

  predicate ValidUtf8(s: seq<Byte>)
  {
    s == [] || (SequenceLength(s) > 0 && ValidUtf8(s[SequenceLength(s)..]))
  }

  /** A Unicode scalar value: a code point that is no surrogate. */
  ghost predicate IsScalar(c: int)
  {
    0 <= c <= 0x10FFFF && !(0xD800 <= c <= 0xDFFF)
  }

  /** Its UTF-8 encoding (table 3-6 of the Unicode standard). */
  ghost function Utf8(c: int): (b: seq<Byte>)
    requires IsScalar(c)
  {
    if c <= 0x7F then [c]
    else if c <= 0x7FF then [0xC0 + c / 0x40, 0x80 + c % 0x40]
    else if c <= 0xFFFF then [0xE0 + c / 0x1000, 0x80 + c / 0x40 % 0x40, 0x80 + c % 0x40]
    else [0xF0 + c / 0x4_0000, 0x80 + c / 0x1000 % 0x40, 0x80 + c / 0x40 % 0x40, 0x80 + c % 0x40]
  }

  /** The UTF-8 encoding of a text. */
  ghost function Utf8Text(text: seq<int>): seq<Byte>
    requires forall i | 0 <= i < |text| :: IsScalar(text[i])
  {
    if text == [] then [] else Utf8(text[0]) + Utf8Text(text[1..])
  }

  /** The encoding of a scalar value is taken for one sequence, whatever follows it. */
  lemma ScalarAccepted(c: int, rest: seq<Byte>)
    requires IsScalar(c)
    ensures SequenceLength(Utf8(c) + rest) == |Utf8(c)|
  {
    var s := Utf8(c) + rest;
    assert forall i | 0 <= i < |Utf8(c)| :: s[i] == Utf8(c)[i];
    if c > 0xFFFF {
      TopDigits(c, 0x4_0000);
    } else if c > 0x7FF {
      TopDigits(c, 0x1000);
    }
  }

  /** A number is its multiple and its remainder, in base 64 digits. */
  lemma TopDigits(c: int, unit: int)
    requires c >= 0 && (unit == 0x1000 || unit == 0x4_0000)
    ensures unit == 0x1000 ==> c == 0x1000 * (c / 0x1000) + 0x40 * (c / 0x40 % 0x40) + c % 0x40
    ensures unit == 0x4_0000 ==> c == 0x4_0000 * (c / 0x4_0000) + 0x1000 * (c / 0x1000 % 0x40) + 0x40 * (c / 0x40 % 0x40) + c % 0x40
  {
    assert c / 0x1000 == c / 0x40 / 0x40;
    assert c / 0x4_0000 == c / 0x1000 / 0x40;
  }

  /** A number from two digits, the lower one to base 64. */
  lemma FromDigits(high: int, low: int)
    requires high >= 0 && 0 <= low < 0x40
    ensures (0x40 * high + low) / 0x40 == high && (0x40 * high + low) % 0x40 == low
  {
  }

  lemma Shifted(c: int)
    requires c >= 0
    ensures c / 0x1000 == c / 0x40 / 0x40 && c / 0x4_0000 == c / 0x40 / 0x40 / 0x40
  {
  }

  lemma FromThree(a: int, b: int, d: int)
    requires a >= 0 && 0 <= b < 0x40 && 0 <= d < 0x40
    ensures var c := 0x40 * (0x40 * a + b) + d;
            c / 0x1000 == a && c / 0x40 % 0x40 == b && c % 0x40 == d
  {
    FromDigits(a, b);
    FromDigits(0x40 * a + b, d);
    Shifted(0x40 * (0x40 * a + b) + d);
  }

  lemma FromFour(a: int, b: int, d: int, e: int)
    requires a >= 0 && 0 <= b < 0x40 && 0 <= d < 0x40 && 0 <= e < 0x40
    ensures var c := 0x40 * (0x40 * (0x40 * a + b) + d) + e;
            c / 0x4_0000 == a && c / 0x1000 % 0x40 == b && c / 0x40 % 0x40 == d && c % 0x40 == e
  {
    FromDigits(a, b);
    FromDigits(0x40 * a + b, d);
    FromDigits(0x40 * (0x40 * a + b) + d, e);
    Shifted(0x40 * (0x40 * (0x40 * a + b) + d) + e);
  }

  /** What is taken for one sequence is the encoding of a scalar value. */
  lemma SequenceIsScalar(s: seq<Byte>) returns (c: int)
    requires SequenceLength(s) > 0
    ensures IsScalar(c) && s[..SequenceLength(s)] == Utf8(c)
  {
    var n := SequenceLength(s);
    if n == 1 {
      c := s[0];
    } else if n == 2 {
      c := TwoBytes(s);
    } else if n == 3 {
      c := ThreeBytes(s);
    } else {
      c := FourBytes(s);
    }
  }

  lemma TwoBytes(s: seq<Byte>) returns (c: int)
    requires SequenceLength(s) == 2
    ensures IsScalar(c) && s[..2] == Utf8(c)
  {
    var b0: int, b1: int := s[0], s[1];
    c := 0x40 * (b0 - 0xC0) + (b1 - 0x80);
    FromDigits(b0 - 0xC0, b1 - 0x80);
  }

  lemma ThreeBytes(s: seq<Byte>) returns (c: int)
    requires SequenceLength(s) == 3
    ensures IsScalar(c) && s[..3] == Utf8(c)
  {
    var b0: int, b1: int, b2: int := s[0], s[1], s[2];
    c := 0x40 * (0x40 * (b0 - 0xE0) + (b1 - 0x80)) + (b2 - 0x80);
    FromThree(b0 - 0xE0, b1 - 0x80, b2 - 0x80);
  }

  lemma FourBytes(s: seq<Byte>) returns (c: int)
    requires SequenceLength(s) == 4
    ensures IsScalar(c) && s[..4] == Utf8(c)
  {
    var b0: int, b1: int, b2: int, b3: int := s[0], s[1], s[2], s[3];
    c := 0x40 * (0x40 * (0x40 * (b0 - 0xF0) + (b1 - 0x80)) + (b2 - 0x80)) + (b3 - 0x80);
    FromFour(b0 - 0xF0, b1 - 0x80, b2 - 0x80, b3 - 0x80);
  }

  /** The encoding of every text is valid. */
  lemma {:induction false} TextIsValid(text: seq<int>)
    requires forall i | 0 <= i < |text| :: IsScalar(text[i])
    ensures ValidUtf8(Utf8Text(text))
  {
    hide SequenceLength;
    if text != [] {
      var first, rest := Utf8(text[0]), Utf8Text(text[1..]);
      ScalarAccepted(text[0], rest);
      TextIsValid(text[1..]);
      assert (first + rest)[|first|..] == rest;
    }
  }

  /** And nothing else is. */
  lemma {:induction false} ValidIsText(s: seq<Byte>) returns (text: seq<int>)
    requires ValidUtf8(s)
    ensures forall i | 0 <= i < |text| :: IsScalar(text[i])
    ensures s == Utf8Text(text)
    decreases |s|
  {
    hide SequenceLength, IsScalar, Utf8;
    if s == [] {
      text := [];
    } else {
      var n := SequenceLength(s);
      var c := SequenceIsScalar(s);
      var rest := ValidIsText(s[n..]);
      text := [c] + rest;
      assert text[1..] == rest && s == s[..n] + s[n..];
    }
  }

  // ----- the format

  /** A list of terms is a list of strings, and every length fits its 32-bit field. */
  ghost predicate Encodable(list: seq<Item>)
  {
    |list| < 0x1_0000_0000 && forall i | 0 <= i < |list| :: ValidUtf8(list[i].term) && |list[i].term| < 0x1_0000_0000
  }

  ghost function Chunk(item: Item): seq<Byte>
  {
    (if |item.term| < 0x1_0000_0000 then ToLe(|item.term|) else []) + item.term
  }

  ghost function Body(list: seq<Item>): seq<Byte>
  {
    if list == [] then [] else Body(list[..|list| - 1]) + Chunk(list[|list| - 1])
  }

  ghost function Weights(list: seq<Item>): seq<Byte>
  {
    if list == [] then [] else Weights(list[..|list| - 1]) + ToLe(list[|list| - 1].weight)
  }

  ghost function Terms(list: seq<Item>): seq<Byte>
    requires |list| < 0x1_0000_0000
  {
    ToLe(|list|) + Body(list)
  }

  /** The two blobs begin with the encoding of list. */
  ghost predicate Decodes(terms: seq<Byte>, weights: seq<Byte>, list: seq<Item>)
  {
    Encodable(list) && Terms(list) <= terms && Weights(list) <= weights
  }

  /** What the two blobs are read as: anything shorter than a header is the empty list. */
  ghost predicate ReadsAs(terms: seq<Byte>, weights: seq<Byte>, list: seq<Item>)
  {
    if |terms| < 4 then list == [] else Decodes(terms, weights, list)
  }

  lemma {:induction false} BodyPrefix(list: seq<Item>, k: nat)
    requires k <= |list|
    ensures Body(list[..k]) <= Body(list) && Weights(list[..k]) <= Weights(list)
    ensures |Weights(list)| == 4 * |list|
    ensures k < |list| ==> Body(list[..k]) + Chunk(list[k]) <= Body(list)
    ensures k < |list| ==> Weights(list[..k]) + ToLe(list[k].weight) <= Weights(list)
  {
    if k == |list| {
      assert list[..k] == list;
      if list != [] { BodyPrefix(list[..|list| - 1], 0); }
    } else {
      BodyPrefix(list[..|list| - 1], k);
      assert list[..|list| - 1][..k] == list[..k];
      if k < |list| - 1 {
        assert list[..|list| - 1][k] == list[k];
      } else {
        assert list[..k] == list[..|list| - 1];
      }
    }
  }

  lemma AppendItem(list: seq<Item>, item: Item)
    ensures Body(list + [item]) == Body(list) + Chunk(item)
    ensures Weights(list + [item]) == Weights(list) + ToLe(item.weight)
  {
    assert (list + [item])[..|list|] == list;
  }

  // ----- the prefix property: a blob has at most one reading

  lemma PrefixParts(x: seq<Byte>, y: seq<Byte>, blob: seq<Byte>)
    requires x + y <= blob
    ensures |x| + |y| <= |blob| && blob[..|x|] == x
    ensures blob[|x|..|x| + |y|] == y && y <= blob[|x|..]
  {
    var xy := x + y;
    assert xy == blob[..|xy|];
    assert x == xy[..|x|] && y == xy[|x|..];
  }

  lemma PrefixTrans(x: seq<Byte>, y: seq<Byte>, z: seq<Byte>)
    requires x <= y && y <= z
    ensures x <= z
  {
  }

  /** The first k terms of a list, seen in a blob that the list's encoding begins. */
  lemma ChunkAt(list: seq<Item>, blob: seq<Byte>, k: nat)
    requires k < |list| && Body(list) <= blob
    ensures Body(list[..k + 1]) == Body(list[..k]) + Chunk(list[k])
    ensures |Body(list[..k])| <= |blob| && Chunk(list[k]) <= blob[|Body(list[..k])|..]
  {
    hide Body, Chunk, Weights;
    BodyPrefix(list, k);
    PrefixTrans(Body(list[..k]) + Chunk(list[k]), Body(list), blob);
    PrefixParts(Body(list[..k]), Chunk(list[k]), blob);
    assert list[..k + 1] == list[..k] + [list[k]];
    AppendItem(list[..k], list[k]);
  }

  /** Two term lists that start the same blob have the same terms, as far as both go. */
  lemma {:induction false} SameTerms(a: seq<Item>, b: seq<Item>, blob: seq<Byte>, k: nat)
    requires Encodable(a) && Encodable(b) && k <= |a| && k <= |b|
    requires Body(a) <= blob && Body(b) <= blob
    ensures Body(a[..k]) == Body(b[..k])
    ensures forall i | 0 <= i < k :: a[i].term == b[i].term
  {
    hide Body, Chunk, ValidUtf8;
    if k == 0 {
      assert a[..0] == b[..0];
    } else {
      SameTerms(a, b, blob, k - 1);
      ChunkAt(a, blob, k - 1);
      ChunkAt(b, blob, k - 1);
      SameChunk(a[k - 1], b[k - 1], blob[|Body(a[..k - 1])|..]);
    }
  }

  lemma SameChunk(x: Item, y: Item, blob: seq<Byte>)
    requires |x.term| < 0x1_0000_0000 && |y.term| < 0x1_0000_0000
    requires Chunk(x) <= blob && Chunk(y) <= blob
    ensures x.term == y.term && Chunk(x) == Chunk(y)
  {
    ReadChunk(x, blob);
    ReadChunk(y, blob);
  }

  /** Reading a chunk: its length field and then that many bytes. */
  lemma ReadChunk(x: Item, blob: seq<Byte>)
    requires |x.term| < 0x1_0000_0000 && Chunk(x) <= blob
    ensures 4 + |x.term| <= |blob| && FromLe(blob[..4]) == |x.term| && blob[4..4 + |x.term|] == x.term
  {
    hide ToLe, FromLe;
    LeRoundTrip(|x.term|);
    PrefixParts(ToLe(|x.term|), x.term, blob);
  }

  lemma CountAgrees(terms: seq<Byte>, a: seq<Item>)
    requires |a| < 0x1_0000_0000 && Terms(a) <= terms
    ensures |terms| >= 4 && FromLe(terms[..4]) == |a| && Body(a) <= terms[4..]
  {
    hide ToLe, FromLe, Body;
    LeRoundTrip(|a|);
    PrefixParts(ToLe(|a|), Body(a), terms);
  }

  /** Reading the i-th weight. */
  lemma WeightAt(weights: seq<Byte>, a: seq<Item>, i: nat)
    requires Weights(a) <= weights && i < |a|
    ensures 4 * i + 4 <= |weights| && FromLe(weights[4 * i..4 * i + 4]) == a[i].weight
  {
    hide ToLe, FromLe, Weights, Body;
    BodyPrefix(a, i);
    BodyPrefix(a[..i], 0);
    LeRoundTrip(a[i].weight);
    PrefixTrans(Weights(a[..i]) + ToLe(a[i].weight), Weights(a), weights);
    PrefixParts(Weights(a[..i]), ToLe(a[i].weight), weights);
  }

  /** A pair of blobs decodes to at most one list. */
  lemma DecodesUnique(terms: seq<Byte>, weights: seq<Byte>, a: seq<Item>, b: seq<Item>)
    requires Decodes(terms, weights, a) && Decodes(terms, weights, b)
    ensures a == b
  {
    hide Body, Weights, Chunk, FromLe, ValidUtf8;
    CountAgrees(terms, a);
    CountAgrees(terms, b);
    SameTerms(a, b, terms[4..], |a|);
    forall i | 0 <= i < |a|
      ensures a[i] == b[i]
    {
      WeightAt(weights, a, i);
      WeightAt(weights, b, i);
    }
  }

  // ----- encode

  predicate Fits(list: seq<Item>)
  {
    |list| < 0x1_0000_0000 && forall i | 0 <= i < |list| :: |list[i].term| < 0x1_0000_0000
  }

  method EncodeSparse(list: seq<Item>) returns (r: Result<(seq<Byte>, seq<Byte>), EncodeError>)
    ensures r.Ok? <==> Fits(list)
    ensures r.Ok? ==> r.value.0 == Terms(list) && r.value.1 == Weights(list)
  {
    hide ToLe, Chunk;
    if |list| >= 0x1_0000_0000 {
      return Err(TooManyTerms);
    }
    var terms, weights := ToLe(|list|), [];
    for i := 0 to |list|
      invariant terms == ToLe(|list|) + Body(list[..i]) && weights == Weights(list[..i])
      invariant forall j | 0 <= j < i :: |list[j].term| < 0x1_0000_0000
    {
      var item := list[i];
      if |item.term| >= 0x1_0000_0000 {
        return Err(TermTooLong);
      }
      ChunkOf(item);
      AppendItem(list[..i], item);
      assert list[..i + 1] == list[..i] + [item];
      terms := terms + ToLe(|item.term|);
      terms := terms + item.term;
      weights := weights + ToLe(item.weight);
    }
    assert list[..|list|] == list;
    r := Ok((terms, weights));
  }

  lemma ChunkOf(item: Item)
    requires |item.term| < 0x1_0000_0000
    ensures Chunk(item) == ToLe(|item.term|) + item.term
  {
  }

  // ----- decode

  /** What the decode loop has established when cursor bytes of terms are read. */
  ghost predicate Reading(terms: seq<Byte>, weights: seq<Byte>, count: nat, out: seq<Item>, cursor: nat)
  {
    && |terms| >= 4 && count == FromLe(terms[..4]) && |out| <= count && Encodable(out)
    && 4 <= cursor <= |terms| && terms[4..cursor] == Body(out)
    && 4 * |out| <= |weights| && weights[..4 * |out|] == Weights(out)
  }

  /** One more item can be read: a length, that many bytes of UTF-8, and a weight. */
  ghost predicate Readable(terms: seq<Byte>, weights: seq<Byte>, cursor: nat, weightCursor: nat)
  {
    && cursor + 4 <= |terms| && weightCursor + 4 <= |weights|
    && var len := FromLe(terms[cursor..cursor + 4]);
       cursor + 4 + len <= |terms| && ValidUtf8(terms[cursor + 4..cursor + 4 + len])
  }

  /** If the blobs decode to list, the loop has read a prefix of it and can read the next item. */
  lemma NextItem(terms: seq<Byte>, weights: seq<Byte>, count: nat, out: seq<Item>, cursor: nat, list: seq<Item>)
    requires Reading(terms, weights, count, out, cursor) && |out| < count
    requires Decodes(terms, weights, list)
    ensures Readable(terms, weights, cursor, 4 * |out|)
  {
    hide Body, Weights, Chunk, FromLe, ValidUtf8;
    var n := |out|;
    CountAgrees(terms, list);
    BodyOfOut(terms, out, cursor);
    SameTerms(out, list, terms[4..], n);
    assert out[..n] == out;
    ChunkAt(list, terms[4..], n);
    assert terms[4..][|Body(out)|..] == terms[cursor..];
    ReadChunk(list[n], terms[cursor..]);
    var len := |list[n].term|;
    SliceOfDrop(terms, cursor, 0, 4);
    SliceOfDrop(terms, cursor, 4, 4 + len);
    WeightAt(weights, list, n);
  }

  lemma SliceOfDrop(s: seq<Byte>, c: nat, lo: nat, hi: nat)
    requires lo <= hi && c + hi <= |s|
    ensures s[c..][lo..hi] == s[c + lo..c + hi]
  {
  }

  lemma BodyOfOut(terms: seq<Byte>, out: seq<Item>, cursor: nat)
    requires 4 <= cursor <= |terms| && terms[4..cursor] == Body(out)
    ensures Body(out) <= terms[4..] && |Body(out)| == cursor - 4
  {
  }

  /** The loop reads one more item. */
  lemma ReadOneMore(terms: seq<Byte>, weights: seq<Byte>, count: nat, out: seq<Item>, cursor: nat, len: nat)
    requires Reading(terms, weights, count, out, cursor) && |out| < count
    requires cursor + 4 + len <= |terms| && FromLe(terms[cursor..cursor + 4]) == len
    requires ValidUtf8(terms[cursor + 4..cursor + 4 + len]) && 4 * |out| + 4 <= |weights|
    ensures var item := Item(terms[cursor + 4..cursor + 4 + len], FromLe(weights[4 * |out|..4 * |out| + 4]));
            Reading(terms, weights, count, out + [item], cursor + 4 + len)
  {
    hide Body, Weights, ToLe, FromLe, ValidUtf8;
    var item := Item(terms[cursor + 4..cursor + 4 + len], FromLe(weights[4 * |out|..4 * |out| + 4]));
    LeBytes(terms[cursor..cursor + 4]);
    LeBytes(weights[4 * |out|..4 * |out| + 4]);
    ChunkOf(item);
    AppendItem(out, item);
    assert terms[4..cursor + 4 + len] == terms[4..cursor] + (terms[cursor..cursor + 4] + terms[cursor + 4..cursor + 4 + len]);
    assert weights[..4 * |out| + 4] == weights[..4 * |out|] + weights[4 * |out|..4 * |out| + 4];
  }

  lemma AllRead(terms: seq<Byte>, weights: seq<Byte>, count: nat, out: seq<Item>, cursor: nat)
    requires Reading(terms, weights, count, out, cursor) && |out| == count
    ensures Decodes(terms, weights, out)
  {
    hide Body, Weights, ToLe, FromLe, ValidUtf8;
    LeBytes(terms[..4]);
    assert terms[..cursor] == terms[..4] + terms[4..cursor];
  }

  /** decode_sparse, completely: blobs shorter than a header read as the empty
      list; any others succeed with exactly the list whose encoding begins
      them, and fail when there is none. Every read is in bounds. */
  method DecodeSparse(terms: seq<Byte>, weights: seq<Byte>) returns (r: Result<seq<Item>, DecodeError>)
    ensures forall list :: r == Ok(list) <==> ReadsAs(terms, weights, list)
  {
    hide Body, Weights, ToLe, FromLe, ValidUtf8, Decodes, Reading;
    if |terms| < 4 {
      return Ok([]);
    }
    var count := FromLe(terms[..4]);
    var out: seq<Item>, cursor, weightCursor := [], 4, 0;
    NothingRead(terms, weights, count);
    for i := 0 to count
      invariant 4 <= cursor <= |terms| && weightCursor == 4 * i
      invariant Reading(terms, weights, count, out, cursor) && |out| == i
    {
      forall list | Decodes(terms, weights, list)
        ensures Readable(terms, weights, cursor, weightCursor)
      {
        NextItem(terms, weights, count, out, cursor, list);
      }
      if cursor + 4 > |terms| {
        return Err(TruncatedLength);
      }
      var len := FromLe(terms[cursor..cursor + 4]);
      var start := cursor + 4;
      if start + len > |terms| {
        return Err(TruncatedBody);
      }
      var term := terms[start..start + len];
      if !ValidUtf8(term) {
        return Err(NotUtf8);
      }
      if weightCursor + 4 > |weights| {
        return Err(TruncatedWeights);
      }
      var weight := FromLe(weights[weightCursor..weightCursor + 4]);
      ReadOneMore(terms, weights, count, out, cursor, len);
      cursor := start + len;
      weightCursor := weightCursor + 4;
      out := out + [Item(term, weight)];
    }
    AllRead(terms, weights, count, out, cursor);
    forall list | Decodes(terms, weights, list)
      ensures list == out
    {
      DecodesUnique(terms, weights, list, out);
    }
    r := Ok(out);
  }

  lemma NothingRead(terms: seq<Byte>, weights: seq<Byte>, count: nat)
    requires |terms| >= 4 && count == FromLe(terms[..4])
    ensures Reading(terms, weights, count, [], 4)
  {
  }

  // ----- what the format promises

  /** Decoding inverts encoding: the encoded blobs decode, and to nothing else than the list. */
  lemma RoundTrip(list: seq<Item>)
    requires Encodable(list)
    ensures |Terms(list)| >= 4
    ensures forall other :: Decodes(Terms(list), Weights(list), other) <==> other == list
  {
    hide Body, Weights, ToLe, ValidUtf8;
    forall other | Decodes(Terms(list), Weights(list), other)
      ensures other == list
    {
      DecodesUnique(Terms(list), Weights(list), other, list);
    }
  }

  /** Blobs that decode without trailing bytes are the encoding of what they decode to. */
  lemma ReEncodes(terms: seq<Byte>, weights: seq<Byte>, list: seq<Item>)
    requires Decodes(terms, weights, list)
    requires |terms| == |Terms(list)| && |weights| == |Weights(list)|
    ensures terms == Terms(list) && weights == Weights(list)
  {
  }

  /** No encoding of a term list properly begins another. */
  lemma TermsPrefixFree(a: seq<Item>, b: seq<Item>)
    requires Encodable(a) && Encodable(b) && Terms(b) <= Terms(a)
    ensures Terms(b) == Terms(a)
  {
    hide Body, Weights, ToLe, FromLe, ValidUtf8, Chunk;
    CountAgrees(Terms(a), a);
    CountAgrees(Terms(a), b);
    SameTerms(a, b, Terms(a)[4..], |a|);
    assert a[..|a|] == a && b[..|a|] == b;
  }

  /** A term blob cut short anywhere after its header is rejected, whatever the weights. */
  lemma CutTermsRejected(list: seq<Item>, n: nat, weights: seq<Byte>, other: seq<Item>)
    requires Encodable(list) && 4 <= n < |Terms(list)|
    ensures !Decodes(Terms(list)[..n], weights, other)
  {
    if Decodes(Terms(list)[..n], weights, other) {
      hide Terms, Weights, Encodable;
      PrefixTrans(Terms(other), Terms(list)[..n], Terms(list));
      TermsPrefixFree(list, other);
    }
  }

  /** So is a weight blob cut short anywhere. */
  lemma CutWeightsRejected(list: seq<Item>, n: nat, other: seq<Item>)
    requires Encodable(list) && n < |Weights(list)|
    ensures !Decodes(Terms(list), Weights(list)[..n], other)
  {
    hide Body, ToLe, FromLe, ValidUtf8;
    if Decodes(Terms(list), Weights(list)[..n], other) {
      CountAgrees(Terms(list), list);
      CountAgrees(Terms(list), other);
      BodyPrefix(list, 0);
      BodyPrefix(other, 0);
    }
  }

  /** A term blob cut inside its header is not rejected: it is never the
      encoding of any list, yet it reads as the empty one, whatever the weights. */
  lemma CutHeaderIsNoEncoding(list: seq<Item>, n: nat, weights: seq<Byte>)
    requires Encodable(list) && n < 4
    ensures n < |Terms(list)|
    ensures forall other | Encodable(other) :: Terms(list)[..n] != Terms(other)
    ensures forall other :: ReadsAs(Terms(list)[..n], weights, other) <==> other == []
  {
    forall other | Encodable(other)
      ensures |Terms(other)| >= 4
    {
    }
  }

  /** The one-item list of the term a: its term blob cut to two bytes, with its
      own weights, reads as no items at all. */
  lemma CutBlobReadsEmpty()
    ensures var list := [Item([0x61], 0)];
            Encodable(list) && Terms(list) == [1, 0, 0, 0, 1, 0, 0, 0, 0x61]
            && ReadsAs(Terms(list), Weights(list), list) && ReadsAs(Terms(list)[..2], Weights(list), [])
  {
    var list := [Item([0x61], 0)];
    assert ValidUtf8([0x61]) by { assert [0x61][1..] == []; }
    assert list[..0] == [] && Body(list) == Body([]) + Chunk(list[0]);
    assert ToLe(1) == [1, 0, 0, 0];
    RoundTrip(list);
  }

  // ----- when the counts of terms and weights disagree

  /** The list with its weights read from a blob. */
  ghost function Reweighted(list: seq<Item>, weights: seq<Byte>): (r: seq<Item>)
    requires |weights| >= 4 * |list|
    ensures |r| == |list| && forall i | 0 <= i < |list| :: r[i].term == list[i].term
  {
    if list == [] then []
    else
      var n := |list| - 1;
      Reweighted(list[..n], weights) + [Item(list[n].term, FromLe(weights[4 * n..4 * n + 4]))]
  }

  lemma {:induction false} ReweightedReads(list: seq<Item>, weights: seq<Byte>)
    requires |weights| >= 4 * |list|
    ensures Body(Reweighted(list, weights)) == Body(list)
    ensures Weights(Reweighted(list, weights)) == weights[..4 * |list|]
  {
    hide ToLe, FromLe;
    if list != [] {
      var n := |list| - 1;
      var other := Reweighted(list, weights);
      ReweightedReads(list[..n], weights);
      LeBytes(weights[4 * n..4 * n + 4]);
      assert other[..n] == Reweighted(list[..n], weights);
      assert Chunk(other[n]) == Chunk(list[n]);
      assert weights[..4 * n + 4] == weights[..4 * n] + weights[4 * n..4 * n + 4];
    }
  }

  /** The only disagreement of counts that is rejected is too few weights: the
      terms of a list are accepted with any weight blob of at least four bytes a
      term, its surplus unread, and with no shorter one. */
  lemma WeightsAcceptedIff(list: seq<Item>, weights: seq<Byte>)
    requires Encodable(list)
    ensures (exists other :: ReadsAs(Terms(list), weights, other)) <==> |weights| >= 4 * |list|
  {
    hide Body, ToLe, FromLe, ValidUtf8;
    if other :| ReadsAs(Terms(list), weights, other) {
      CountAgrees(Terms(list), list);
      CountAgrees(Terms(list), other);
      BodyPrefix(other, 0);
    }
    if |weights| >= 4 * |list| {
      ReweightedReads(list, weights);
      assert ReadsAs(Terms(list), weights, Reweighted(list, weights));
    }
  }

  /** No term and one weight: the counts disagree, and the blobs are accepted. */
  lemma SurplusWeightAccepted()
    ensures ReadsAs(Terms([]), [0, 0, 0x80, 0x3F], [])
  {
  }
}
