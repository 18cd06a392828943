/** The byte-bounded truncation of diffUtils.js. */
module Truncate {
  // Strings are sequences of UTF-16 code units; the product end * 0.9 of the source, rounded down, is (9 * end) / 10
  // for every length a string can have.

  import opened Text

  type Unit = u: int | 0 <= u < 0x10000

  type Text16 = seq<Unit>

  predicate High(u: Unit) { 0xD800 <= u < 0xDC00 }

  predicate Low(u: Unit) { 0xDC00 <= u < 0xE000 }

  predicate StartsPair(s: Text16) { |s| >= 2 && High(s[0]) && Low(s[1]) }

  /** Buffer.byteLength(s, 'utf8') */
  function Bytes(s: Text16): nat {
    if s == [] then 0
    else if StartsPair(s) then 4 + Bytes(s[2..])
    else (if s[0] < 0x80 then 1 else if s[0] < 0x800 then 2 else 3) + Bytes(s[1..])
  }

  // ---- The length is that of the UTF-8 encoding ----

  /** The code points of a text; a lone surrogate is replaced by U+FFFD. */
  function CodePoints(s: Text16): seq<int> {
    if s == [] then []
    else if StartsPair(s) then [0x10000 + (s[0] - 0xD800) * 0x400 + (s[1] - 0xDC00)] + CodePoints(s[2..])
    else [if High(s[0]) || Low(s[0]) then 0xFFFD else s[0]] + CodePoints(s[1..])
  }

  /** Section 3 of RFC 3629. */
  function Octets(codePoint: int): nat {
    if codePoint <= 0x7F then 1 else if codePoint <= 0x7FF then 2 else if codePoint <= 0xFFFF then 3 else 4
  }

  function AllOctets(codePoints: seq<int>): nat {
    if codePoints == [] then 0 else Octets(codePoints[0]) + AllOctets(codePoints[1..])
  }

  lemma {:induction false} BytesAreOctets(s: Text16)
    ensures Bytes(s) == AllOctets(CodePoints(s))
    ensures forall c | c in CodePoints(s) :: 0 <= c <= 0x10FFFF && !(0xD800 <= c < 0xE000)
  {
    if s != [] {
      var n := if StartsPair(s) then 2 else 1;
      BytesAreOctets(s[n..]);
      assert CodePoints(s)[1..] == CodePoints(s[n..]);
    }
  }

  // ---- Cutting a text ----

  /** The cut separates a surrogate pair. */
  predicate SplitsPair(a: Text16, b: Text16) {
    a != [] && b != [] && High(a[|a| - 1]) && Low(b[0])
  }

  /** Two texts are as long as their concatenation, unless the cut separates a surrogate pair: then they have 2 more. */
  lemma {:induction false} BytesOfCut(a: Text16, b: Text16)
    ensures Bytes(a) + Bytes(b) == Bytes(a + b) + (if SplitsPair(a, b) then 2 else 0)
  {
    var s := a + b;
    if a == [] {
      assert s == b;
    } else if |a| == 1 {
      assert s[0] == a[0] && s[1..] == b && a[1..] == [];
      if SplitsPair(a, b) {
        assert StartsPair(s) && s[2..] == b[1..] && !StartsPair(b);
      }
    } else if StartsPair(a) {
      assert StartsPair(s) && s[2..] == a[2..] + b;
      BytesOfCut(a[2..], b);
    } else {
      assert !StartsPair(s) && s[1..] == a[1..] + b;
      BytesOfCut(a[1..], b);
    }
  }

  lemma {:induction false} AtMostThreeEach(s: Text16)
    ensures Bytes(s) <= 3 * |s|
  {
    if s != [] { AtMostThreeEach(s[if StartsPair(s) then 2 else 1..]); }
  }

  // ---- truncateText ----

  datatype Truncated = Truncated(text: Text16, truncated: bool, omittedBytes: nat)

  /** The length at which the loop stops. */
  function Shrink(source: Text16, end: nat, maxBytes: nat): (e: nat)
    requires end <= |source|
    ensures e <= end && (e == 0 || Bytes(source[..e]) <= maxBytes)
  {
    if end == 0 || Bytes(source[..end]) <= maxBytes then end else Shrink(source, (9 * end) / 10, maxBytes)
  }

  /** The text is kept up to there, or up to nine tenths of a longer prefix that is too long. */
  ghost predicate StopsAt(source: Text16, first: nat, maxBytes: nat, e: nat) {
    || e == first
    || exists longer :: 0 < longer <= first && longer <= |source| && e == (9 * longer) / 10
                        && Bytes(source[..longer]) > maxBytes
  }

  lemma {:induction false} ShrinkStops(source: Text16, end: nat, maxBytes: nat)
    requires end <= |source|
    ensures StopsAt(source, end, maxBytes, Shrink(source, end, maxBytes))
    decreases end
  {
    hide Bytes;
    if end > 0 && Bytes(source[..end]) > maxBytes { ShrinkStops(source, (9 * end) / 10, maxBytes); }
  }

  /** What is kept of a text that is too long: at least this many code units. */
  function KeptAtLeast(maxBytes: nat): nat { (9 * (maxBytes / 3 + 1)) / 10 }

  lemma CutKeepsEnough(source: Text16, maxBytes: nat)
    requires Bytes(source) > maxBytes
    ensures |source| >= (9 * |source|) / 10 >= KeptAtLeast(maxBytes) && maxBytes >= KeptAtLeast(maxBytes)
  {
    AtMostThreeEach(source);
    hide Bytes;
  }

  method TruncateText(source: Text16, maxBytes: nat) returns (r: Truncated)
    ensures r.truncated <==> Bytes(source) > maxBytes
    ensures r.text <= source && Bytes(r.text) <= maxBytes
    ensures Bytes(r.text) + r.omittedBytes == Bytes(source)
    ensures !r.truncated ==> r.text == source
    ensures r.truncated ==> |r.text| >= KeptAtLeast(maxBytes)
    ensures r.truncated ==> |r.text| == Shrink(source, if |source| < maxBytes then |source| else maxBytes, maxBytes)
    ensures r.truncated ==> 10 * |r.text| + 9 >= 9 * (maxBytes / 3 + 1)
    ensures r.truncated ==> StopsAt(source, if |source| < maxBytes then |source| else maxBytes, maxBytes, |r.text|)
  {
    ShrinkStops(source, if |source| < maxBytes then |source| else maxBytes, maxBytes);
    if Bytes(source) <= maxBytes {
      return Truncated(source, false, 0);
    }
    CutKeepsEnough(source, maxBytes);
    assert 10 * KeptAtLeast(maxBytes) + 9 >= 9 * (maxBytes / 3 + 1);
    hide Bytes, KeptAtLeast, StopsAt;
    var end := if |source| < maxBytes then |source| else maxBytes;
    ghost var first := end;
    while end > 0 && Bytes(source[..end]) > maxBytes
      invariant 0 <= end <= |source|
      invariant end >= KeptAtLeast(maxBytes)
      invariant Shrink(source, end, maxBytes) == Shrink(source, first, maxBytes)
    {
      CutKeepsEnough(source[..end], maxBytes);
      end := (9 * end) / 10;
    }
    r := Truncated(source[..end], true, Bytes(source) - Bytes(source[..end]));
  }

  /** The reported omission is the length of what was cut off, and 2 less exactly when a surrogate pair was cut. */
  lemma OmittedIsTheRest(source: Text16, end: nat)
    requires end <= |source|
    ensures Bytes(source) - Bytes(source[..end]) ==
      Bytes(source[end..]) - (if SplitsPair(source[..end], source[end..]) then 2 else 0)
  {
    BytesOfCut(source[..end], source[end..]);
    assert source[..end] + source[end..] == source;
  }

  /** An emoji, cut to 3 bytes: half of it is kept, and the 3 bytes of the other half are reported as 1. */
  lemma EmojiIsCut()
    ensures var emoji: Text16 := [0xD83D, 0xDE00];
      && Bytes(emoji) == 4 && Shrink(emoji, 2, 3) == 1
      && SplitsPair(emoji[..1], emoji[1..])
      && Bytes(emoji[1..]) == 3 && Bytes(emoji) - Bytes(emoji[..1]) == 1
  {
    var emoji: Text16 := [0xD83D, 0xDE00];
    assert emoji[2..] == [] && emoji[..2] == emoji && emoji[..1] == [0xD83D] && emoji[1..] == [0xDE00];
    assert emoji[..1][1..] == [] && emoji[1..][1..] == [] && Bytes([]) == 0;
    assert Shrink(emoji, 1, 3) == 1;
  }

  // ---- Binary contents, files and diffs ----

  /** [\\x00-\\x08\\x0e-\\x1f] */
  predicate BinaryHint(u: Unit) { u <= 0x08 || 0x0E <= u <= 0x1F }

  predicate IsBinary(s: Text16) {
    0 in s || exists i :: 0 <= i < |s| && i < 8192 && BinaryHint(s[i])
  }

  method LooksBinary(s: Text16) returns (binary: bool)
    ensures binary <==> IsBinary(s)
    ensures binary <==> 0 in s || exists i :: 0 <= i < |s| && i < 8192 && (s[i] < 9 || 13 < s[i] < 32)
  {
    if 0 in s { return true; }
    var sample := s[..if |s| < 8192 then |s| else 8192];
    binary := exists i :: 0 <= i < |sample| && BinaryHint(sample[i]);
    assert forall i | 0 <= i < |sample| :: sample[i] == s[i];
  }

  /** The result of limitFileSide, and of limitDiffText with the diff as content. */
  datatype Limited = Limited(content: Text16, truncated: bool, binary: bool, omittedBytes: nat)

  method LimitFileSide(content: Text16, maxBytes: nat) returns (r: Limited)
    ensures r.binary <==> IsBinary(content)
    ensures r.truncated <==> r.binary || Bytes(content) > maxBytes
    ensures r.content <= content && Bytes(r.content) <= maxBytes
    ensures Bytes(r.content) + r.omittedBytes == Bytes(content)
    ensures (r.binary ==> r.content == []) && (!r.truncated ==> r.content == content)
    ensures r.truncated && !r.binary ==> |r.content| >= KeptAtLeast(maxBytes)
  {
    var binary := LooksBinary(content);
    if binary {
      return Limited([], true, true, Bytes(content));
    }
    var t := TruncateText(content, maxBytes);
    r := Limited(t.text, t.truncated, false, t.omittedBytes);
  }

  /** The code units of an ASCII text. */
  function Ascii(s: string): (t: Text16)
    ensures |t| == |s| && forall i | 0 <= i < |t| :: t[i] == (s[i] as int) % 0x80
  {
    if s == "" then [] else [(s[0] as int) % 0x80] + Ascii(s[1..])
  }

  lemma {:induction false} AsciiBytes(t: Text16)
    requires forall i | 0 <= i < |t| :: t[i] < 0x80
    ensures Bytes(t) == |t|
  {
    if t != [] { AsciiBytes(t[1..]); }
  }

  function Notice(omittedBytes: nat): Text16 {
    Ascii("\n\n[diff truncated: omitted " + Decimal(omittedBytes) + " bytes]\n")
  }

  /** A truncated diff is what is kept of it, followed by the notice. */
  method LimitDiffText(diff: Text16, maxBytes: nat) returns (r: Limited)
    ensures r.binary <==> IsBinary(diff)
    ensures r.truncated <==> r.binary || Bytes(diff) > maxBytes
    ensures r.binary ==> r.content == [] && r.omittedBytes == Bytes(diff)
    ensures !r.truncated ==> r.content == diff && r.omittedBytes == 0
    ensures r.truncated && !r.binary ==>
      exists kept :: kept <= diff && r.content == kept + Notice(r.omittedBytes) && |kept| >= KeptAtLeast(maxBytes)
                     && Bytes(kept) <= maxBytes && Bytes(kept) + r.omittedBytes == Bytes(diff)
    ensures Notice(r.omittedBytes) == Ascii("\n\n[diff truncated: omitted " + Decimal(r.omittedBytes) + " bytes]\n")
    ensures Bytes(r.content) <= maxBytes + (if r.truncated then |Notice(r.omittedBytes)| else 0)
  {
    var binary := LooksBinary(diff);
    if binary {
      return Limited([], true, true, Bytes(diff));
    }
    var t := TruncateText(diff, maxBytes);
    hide Bytes, Ascii, Decimal;
    r := Limited(if t.truncated then t.text + Notice(t.omittedBytes) else t.text, t.truncated, false, t.omittedBytes);
    if t.truncated {
      AsciiBytes(Notice(t.omittedBytes));
      BytesOfCut(t.text, Notice(t.omittedBytes));
    }
  }
}
