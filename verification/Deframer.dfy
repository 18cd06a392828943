/** The log-stream deframer of BlaxelExecAdapter.js. */
module Deframer {
  // It strips "stdout:"/"stderr:" prefixes and whole "[keepalive]" lines at frame boundaries and holds back text that a
  // chunk boundary may have cut in half.

  const STDOUT := "stdout:"
  const STDERR := "stderr:"
  const KEEPALIVE := "[keepalive]"

  predicate HasPrefix(rest: string) {
    STDOUT <= rest || STDERR <= rest
  }

  /** `rest` is too short to tell whether a marker follows. */
  predicate CutMarker(rest: string) {
    |rest| < 12 && (rest <= STDOUT || rest <= STDERR || rest <= KEEPALIVE)
  }

  /** At a frame boundary the deframer would treat `rest` as something other than plain text. */
  predicate Framing(rest: string) {
    HasPrefix(rest) || KEEPALIVE <= rest || CutMarker(rest)
  }

  function AfterNewline(s: string): (r: string)
    requires '\n' in s
    ensures |r| < |s| && r == s[|s| - |r|..]
  {
    if s[0] == '\n' then s[1..] else AfterNewline(s[1..])
  }

  /** What one pass over the text yields: bytes passed on, bytes held back, and where it stopped. */
  datatype Scanned = Scanned(out: string, pending: string, boundary: bool)

  /** The deframing relation: the reading of `data` from a frame boundary or from the middle of a line. */
  function Scan(data: string, atBoundary: bool): Scanned
    decreases |data|, atBoundary
  {
    if data == "" then Scanned("", "", atBoundary)
    else if atBoundary then
      if HasPrefix(data) then Scan(data[7..], false)
      else if KEEPALIVE <= data then
        if '\n' in data then Scan(AfterNewline(data), true) else Scanned("", data, true)
      else if CutMarker(data) then Scanned("", data, true)
      else Scan(data, false)
    else Prepend([data[0]], Scan(data[1..], data[0] == '\n'))
  }

  function Prepend(head: string, s: Scanned): Scanned {
    s.(out := head + s.out)
  }

  lemma PrependPrepend(a: string, b: string, s: Scanned)
    ensures Prepend(a, Prepend(b, s)) == Prepend(a + b, s)
  {
    assert a + (b + s.out) == a + b + s.out;
  }

  lemma ScanPlainChar(rest: string)
    requires rest != ""
    ensures Scan(rest, false) == Prepend([rest[0]], Scan(rest[1..], rest[0] == '\n'))
  {
  }

  lemma ScanFrameStart(rest: string)
    requires rest != ""
    ensures HasPrefix(rest) ==> |rest| >= 7 && Scan(rest, true) == Scan(rest[7..], false)
    ensures !HasPrefix(rest) && KEEPALIVE <= rest && '\n' in rest ==> Scan(rest, true) == Scan(AfterNewline(rest), true)
    ensures !HasPrefix(rest) && KEEPALIVE <= rest && '\n' !in rest ==> Scan(rest, true) == Scanned("", rest, true)
    ensures !HasPrefix(rest) && !(KEEPALIVE <= rest) && CutMarker(rest) ==> Scan(rest, true) == Scanned("", rest, true)
    ensures !Framing(rest) ==> Scan(rest, true) == Scan(rest, false)
  {
  }

  lemma Tail(data: string, i: nat, n: nat)
    requires i + n <= |data|
    ensures data[i..][n..] == data[i + n..]
  {
  }

  lemma ScanNothing(rest: string, atBoundary: bool)
    requires rest == ""
    ensures Scan(rest, atBoundary) == Scanned("", "", atBoundary)
  {
  }

  /** One turn of the loop in the middle of a line. */
  lemma PlainTurn(data: string, i: nat, out: string)
    requires i < |data|
    ensures Prepend(out, Scan(data[i..], false)) == Prepend(out + [data[i]], Scan(data[i + 1..], data[i] == '\n'))
  {
    Tail(data, i, 1);
    ScanPlainChar(data[i..]);
    PrependPrepend(out, [data[i]], Scan(data[i + 1..], data[i] == '\n'));
  }

  /** One turn of the loop at a frame boundary, when a frame prefix or a whole keepalive line follows. */
  lemma FrameTurn(data: string, i: nat)
    requires i < |data|
    ensures var rest := data[i..];
      && (HasPrefix(rest) ==> i + 7 <= |data| && Scan(rest, true) == Scan(data[i + 7..], false))
      && (!HasPrefix(rest) && KEEPALIVE <= rest && '\n' in rest ==>
            Scan(rest, true) == Scan(data[|data| - |AfterNewline(rest)|..], true))
  {
    hide Scan, HasPrefix, CutMarker, AfterNewline;
    var rest := data[i..];
    ScanFrameStart(rest);
    if HasPrefix(rest) {
      Tail(data, i, 7);
    } else if '\n' in rest {
      Tail(data, i, |rest| - |AfterNewline(rest)|);
    }
  }

  lemma NothingHeld(whole: Scanned, out: string, atBoundary: bool)
    requires whole == Prepend(out, Scanned("", "", atBoundary))
    ensures whole.out == out && whole.pending == ""
  {
    assert out + "" == out;
  }

  lemma NothingRead(data: string)
    ensures data[0..] == data && Scan(data, true) == Prepend("", Scan(data[0..], true))
  {
    assert "" + Scan(data, true).out == Scan(data, true).out;
    hide Scan;
  }

  lemma HeldTurn(whole: Scanned, out: string, rest: string)
    requires whole == Prepend(out, Scanned("", rest, true))
    ensures whole.out == out && whole.pending == rest
  {
    assert out + "" == out;
  }

  /** The closure made by createStreamDeframer; its only state is the text held back. */
  class StreamDeframer {
    var pending: string

    ghost predicate Valid()
      reads this
    {
      Held(pending)
    }

    constructor ()
      ensures Valid() && pending == ""
    {
      pending := "";
    }

    method Feed(text: string) returns (out: string)
      requires Valid()
      modifies this
      ensures Valid()
      ensures out == Scan(old(pending) + text, true).out
      ensures pending == Scan(old(pending) + text, true).pending
    {
      hide Scan, HasPrefix, CutMarker, AfterNewline, Held, Prepend, KEEPALIVE;
      var data := pending + text;
      pending := "";
      out := "";
      var i := 0;
      var atBoundary := true;
      ghost var whole := Scan(data, true);
      HeldAfterScan(data, true);
      NothingRead(data);
      while i < |data|
        invariant 0 <= i <= |data|
        invariant pending == ""
        invariant whole == Prepend(out, Scan(data[i..], atBoundary))
        decreases |data| - i, atBoundary
      {
        var rest := data[i..];
        if atBoundary {
          ScanFrameStart(rest);
          FrameTurn(data, i);
          if HasPrefix(rest) {
            i := i + 7;
            atBoundary := false;
          } else if KEEPALIVE <= rest {
            if '\n' !in rest {
              HeldTurn(whole, out, rest);
              pending := rest;
              return;
            }
            i := |data| - |AfterNewline(rest)|;
          } else if CutMarker(rest) {
            HeldTurn(whole, out, rest);
            pending := rest;
            return;
          } else {
            atBoundary := false;
          }
        } else {
          var ch := data[i];
          PlainTurn(data, i, out);
          out := out + [ch];
          i := i + 1;
          atBoundary := ch == '\n';
        }
      }
      ScanNothing(data[i..], atBoundary);
      NothingHeld(whole, out, atBoundary);
    }

    method Flush() returns (rest: string)
      requires Valid()
      modifies this
      ensures Valid() && pending == "" && rest == old(pending)
    {
      rest := pending;
      pending := "";
    }
  }

  // ---- What may be held back ----

  /** Nothing, a proper prefix of a marker, or a keepalive line whose newline has not arrived. */
  predicate Held(s: string) {
    || s == ""
    || (s < STDOUT || s < STDERR || s < KEEPALIVE)
    || (KEEPALIVE <= s && '\n' !in s)
  }

  lemma {:induction false} HeldAfterScan(data: string, atBoundary: bool)
    ensures Held(Scan(data, atBoundary).pending)
    ensures Scan(data, atBoundary).pending != "" ==> Scan(data, atBoundary).boundary
    decreases |data|, atBoundary
  {
    if data == "" {
    } else if atBoundary {
      if HasPrefix(data) {
        HeldAfterScan(data[7..], false);
      } else if KEEPALIVE <= data {
        if '\n' in data { HeldAfterScan(AfterNewline(data), true); }
      } else if !CutMarker(data) {
        HeldAfterScan(data, false);
      }
    } else {
      HeldAfterScan(data[1..], data[0] == '\n');
    }
  }

  /** Text already held back stays held back when nothing follows it. */
  lemma HeldIsStable(p: string)
    requires Held(p)
    ensures Scan(p, true) == Scanned("", p, true)
  {
    if p != "" && !(KEEPALIVE <= p) {
      assert |p| < 11 && CutMarker(p);
      assert !HasPrefix(p) by { assert |p| < 7 || p[0] == KEEPALIVE[0]; }
    } else if p != "" {
      assert p[0] == KEEPALIVE[0];
    }
  }

  // ---- Chunk boundaries ----

  /** Reading `a + b` goes on after `a` from the text held back and the boundary reached there. */
  predicate Resumes(a: string, b: string, atBoundary: bool) {
    var r := Scan(a, atBoundary);
    Scan(a + b, atBoundary) == Prepend(r.out, Scan(r.pending + b, r.boundary))
  }

  /** Reading can be resumed after any prefix. */
  lemma {:induction false} ScanAppend(a: string, b: string, atBoundary: bool)
    ensures Resumes(a, b, atBoundary)
    decreases |a|, atBoundary
  {
    if a == "" {
      assert a + b == b;
    } else if atBoundary {
      ScanAppendFrame(a, b);
    } else {
      assert (a + b)[1..] == a[1..] + b;
      ScanAppend(a[1..], b, a[0] == '\n');
      ScanPlainChar(a);
      ScanPlainChar(a + b);
      var r := Scan(a[1..], a[0] == '\n');
      PrependPrepend([a[0]], r.out, Scan(r.pending + b, r.boundary));
    }
  }

  lemma {:induction false} ScanAppendFrame(a: string, b: string)
    requires a != ""
    ensures Resumes(a, b, true)
    decreases |a|, true, 0
  {
    ScanFrameStart(a);
    if HasPrefix(a) {
      FrameStartAppend(a, b);
      assert (a + b)[7..] == a[7..] + b;
      ScanAppend(a[7..], b, false);
    } else if KEEPALIVE <= a && '\n' in a {
      FrameStartAppend(a, b);
      ScanFrameStart(a + b);
      AfterNewlineAppend(a, b);
      ScanAppend(AfterNewline(a), b, true);
    } else if Framing(a) {
      assert Scan(a, true) == Scanned("", a, true);
      assert "" + Scan(a + b, true).out == Scan(a + b, true).out;
    } else {
      NotFramingAppend(a, b);
      ScanFrameStart(a + b);
      ScanAppend(a, b, false);
    }
  }

  lemma FrameStartAppend(a: string, b: string)
    ensures HasPrefix(a) ==> HasPrefix(a + b)
    ensures KEEPALIVE <= a ==> KEEPALIVE <= a + b && !HasPrefix(a + b)
  {
    if KEEPALIVE <= a {
      assert (a + b)[0] == KEEPALIVE[0];
    }
  }

  lemma {:induction false} AfterNewlineAppend(a: string, b: string)
    requires '\n' in a
    ensures '\n' in a + b && AfterNewline(a + b) == AfterNewline(a) + b
  {
    assert (a + b)[1..] == a[1..] + b;
    if a[0] != '\n' { AfterNewlineAppend(a[1..], b); }
  }

  lemma NotFramingAppend(a: string, b: string)
    requires a != "" && !Framing(a)
    ensures !Framing(a + b)
  {
    if |a| >= 12 {
      assert forall p: string | |p| <= |a| && p <= a + b :: p == a[..|p|];
    } else {
      assert (a + b)[..|a|] == a;
    }
  }

  /** Whether the reading stops at a frame boundary, seen from the text alone. */
  lemma {:induction false} BoundaryAfter(x: string, atBoundary: bool)
    ensures Scan(x, atBoundary).boundary <==>
      (if x == "" then atBoundary else Scan(x, atBoundary).pending != "" || x[|x| - 1] == '\n')
    decreases |x|, atBoundary
  {
    HeldAfterScan(x, atBoundary);
    if x == "" {
    } else if atBoundary {
      if HasPrefix(x) {
        BoundaryAfter(x[7..], false);
      } else if KEEPALIVE <= x {
        if '\n' in x {
          BoundaryAfter(AfterNewline(x), true);
          if AfterNewline(x) == "" { LastIsNewline(x); }
        }
      } else if !CutMarker(x) {
        BoundaryAfter(x, false);
      }
    } else {
      BoundaryAfter(x[1..], x[0] == '\n');
    }
  }

  lemma {:induction false} LastIsNewline(s: string)
    requires '\n' in s && AfterNewline(s) == ""
    ensures s[|s| - 1] == '\n'
  {
    if s[0] != '\n' { LastIsNewline(s[1..]); }
  }

  /**
   * A cut between `before` and `after` is harmless: the text before it ends a line or leaves text held
   * back, or the text after it neither begins with a marker nor is the beginning of one.
   */
  predicate HarmlessCut(before: string, after: string) {
    || before == ""
    || before[|before| - 1] == '\n'
    || Scan(before, true).pending != ""
    || after == ""
    || !Framing(after)
  }

  /**
   * Feeding `a` and then `b` passes on and holds back the same text as feeding `a + b`,
   * exactly when the cut between them is harmless.
   */
  lemma CutTheorem(pending: string, a: string, b: string)
    requires Held(pending)
    ensures
      var first := Scan(pending + a, true);
      var second := Scan(first.pending + b, true);
      var whole := Scan(pending + (a + b), true);
      (first.out + second.out == whole.out && second.pending == whole.pending)
      <==> HarmlessCut(pending + a, b)
  {
    hide Scan, HarmlessCut, Held;
    assert pending + (a + b) == (pending + a) + b;
    CutAfter(pending + a, b);
  }

  lemma CutAfter(before: string, b: string)
    ensures
      var first := Scan(before, true);
      var second := Scan(first.pending + b, true);
      var whole := Scan(before + b, true);
      (first.out + second.out == whole.out && second.pending == whole.pending) <==> HarmlessCut(before, b)
  {
    ScanAppend(before, b, true);
    BoundaryAfter(before, true);
    var first := Scan(before, true);
    if !first.boundary {
      CutInsideLine(first.out, b);
      assert first.pending + b == b;
    }
  }

  /** A chunk that starts in the middle of a line is read the same as one that starts a line, unless it frames. */
  lemma CutInsideLine(out: string, b: string)
    ensures
      var asStart, asRest := Scan(b, true), Prepend(out, Scan(b, false));
      (out + asStart.out == asRest.out && asStart.pending == asRest.pending) <==> (b == "" || !Framing(b))
  {
    if b != "" && Framing(b) { FramingIsNotPlain(b); }
  }

  /** Framing text read as plain text yields strictly more output than read at a frame boundary. */
  lemma FramingIsNotPlain(b: string)
    requires b != "" && Framing(b)
    ensures |Scan(b, true).out| < |Scan(b, false).out|
  {
    if HasPrefix(b) {
      PlainUpTo(b[..7], b[7..]);
      assert b[..7] + b[7..] == b;
    } else if KEEPALIVE <= b && '\n' in b {
      PlainLine(b);
    } else {
      assert '\n' !in b;
      PlainUpTo(b, "");
      assert b + "" == b;
    }
  }

  lemma {:induction false} PlainUpTo(line: string, rest: string)
    requires '\n' !in line
    ensures Scan(line + rest, false) == Prepend(line, Scan(rest, false))
  {
    if line == "" {
      assert line + rest == rest;
    } else {
      assert (line + rest)[1..] == line[1..] + rest;
      PlainUpTo(line[1..], rest);
      assert [line[0]] + line[1..] == line;
    }
  }

  lemma {:induction false} PlainLine(b: string)
    requires '\n' in b
    ensures |Scan(AfterNewline(b), true).out| < |Scan(b, false).out|
  {
    if b[0] != '\n' { PlainLine(b[1..]); }
  }

  // ---- Any list of chunks ----

  function Concat(chunks: seq<string>): string {
    if chunks == [] then "" else Concat(chunks[..|chunks| - 1]) + chunks[|chunks| - 1]
  }

  /** All output of feeding the chunks one after another, and what is held back at the end. */
  function FeedAll(pending: string, chunks: seq<string>): Scanned {
    if chunks == [] then Scanned("", pending, true)
    else
      var before := FeedAll(pending, chunks[..|chunks| - 1]);
      Prepend(before.out, Scan(before.pending + chunks[|chunks| - 1], true))
  }

  predicate HarmlessCuts(pending: string, chunks: seq<string>) {
    forall i | 0 < i < |chunks| :: HarmlessCut(pending + Concat(chunks[..i]), chunks[i])
  }

  /** With harmless cuts only, how the stream is chunked does not show. */
  lemma {:induction false} ChunkingTheorem(pending: string, chunks: seq<string>)
    requires Held(pending) && HarmlessCuts(pending, chunks)
    ensures FeedAll(pending, chunks).out == Scan(pending + Concat(chunks), true).out
    ensures FeedAll(pending, chunks).pending == Scan(pending + Concat(chunks), true).pending
  {
    if chunks == [] {
      assert pending + Concat(chunks) == pending;
      HeldIsStable(pending);
    } else {
      var n := |chunks| - 1;
      var init := chunks[..n];
      forall i | 0 < i < n ensures HarmlessCut(pending + Concat(init[..i]), init[i]) {
        assert init[..i] == chunks[..i];
      }
      ChunkingTheorem(pending, init);
      if n == 0 {
        assert Concat(init) == "" && pending + "" == pending;
        HeldIsStable(pending);
        assert Concat(chunks) == chunks[0];
      } else {
        assert HarmlessCut(pending + Concat(init), chunks[n]);
        CutTheorem(pending, Concat(init), chunks[n]);
      }
    }
  }

  // ---- Exactly the lists whose chunking does not show ----

  /** Read from a frame boundary, something at the start of the text is cut out. */
  predicate CutsOut(data: string) {
    HasPrefix(data) || (KEEPALIVE <= data && '\n' in data)
  }

  function Without(text: string, held: string): string {
    if |held| <= |text| then text[..|text| - |held|] else text
  }

  /** The text before what is held back ends inside a line. */
  predicate InsideLine(text: string, held: string) {
    var read := Without(text, held);
    read != "" && read[|read| - 1] != '\n'
  }

  /** Every chunk is read, with the text held back before it, without cutting anything out of the inside of a line. */
  predicate NothingCutInside(pending: string, chunks: seq<string>) {
    forall i | 0 <= i < |chunks| ::
      var held := FeedAll(pending, chunks[..i]).pending;
      InsideLine(pending + Concat(chunks[..i]), held) ==> !CutsOut(held + chunks[i])
  }

  /** `p` is the end of `x`, and starts a line unless it is all of it. */
  predicate LineTail(x: string, p: string) {
    |p| <= |x| && x[|x| - |p|..] == p && (p != "" && |p| < |x| ==> x[|x| - |p| - 1] == '\n')
  }

  lemma TailOfTail(x: string, n: nat, p: string)
    requires 0 < n <= |x| && LineTail(x[n..], p) && (p == x[n..] != "" ==> x[n - 1] == '\n')
    ensures LineTail(x, p)
  {
    var k := |x| - |p|;
    TailSlice(x, n, k);
    if p != "" && n < k { CharOfTail(x, n, k - 1); }
  }

  lemma TailSlice(x: string, n: nat, k: nat)
    requires n <= k <= |x|
    ensures x[n..][k - n..] == x[k..]
  {
  }

  lemma CharOfTail(x: string, n: nat, k: nat)
    requires n <= k < |x|
    ensures x[n..][k - n] == x[k]
  {
  }

  /** What is held back starts a line, or is all of the text when that starts one. */
  lemma {:induction false} PendingStartsLine(x: string, atBoundary: bool)
    ensures var p := Scan(x, atBoundary).pending; LineTail(x, p) && (p == x != "" ==> atBoundary)
    decreases |x|, atBoundary
  {
    hide Scan, HasPrefix, CutMarker, LineTail;
    if x == "" {
      ScanNothing(x, atBoundary);
      EmptyTail(x);
    } else if atBoundary {
      PendingAtStart(x);
    } else {
      ScanPlainChar(x);
      PendingStartsLine(x[1..], x[0] == '\n');
      TailOfTail(x, 1, Scan(x[1..], x[0] == '\n').pending);
      TailIsShorter(x, Scan(x[1..], x[0] == '\n').pending, 1);
    }
  }

  lemma EmptyTail(x: string)
    ensures LineTail(x, "") && LineTail(x, x)
  {
  }

  lemma TailIsShorter(x: string, p: string, n: nat)
    requires 0 < n <= |x| && LineTail(x[n..], p)
    ensures |p| < |x|
  {
  }

  lemma {:induction false} PendingAtStart(x: string)
    requires x != ""
    ensures LineTail(x, Scan(x, true).pending)
    decreases |x|, true, 0
  {
    hide Scan, CutMarker, LineTail;
    ScanFrameStart(x);
    if HasPrefix(x) {
      PendingStartsLine(x[7..], false);
      TailOfTail(x, 7, Scan(x[7..], false).pending);
    } else if KEEPALIVE <= x && '\n' in x {
      var rest := AfterNewline(x);
      PendingStartsLine(rest, true);
      NewlineBefore(x);
      TailOfTail(x, |x| - |rest|, Scan(rest, true).pending);
    } else if Framing(x) {
      EmptyTail(x);
    } else {
      PendingStartsLine(x, false);
    }
  }

  lemma {:induction false} NewlineBefore(x: string)
    requires '\n' in x
    ensures x[|x| - |AfterNewline(x)| - 1] == '\n'
  {
    if x[0] != '\n' { NewlineBefore(x[1..]); }
  }

  /** Reading from a boundary and from inside a line come together again, at the latest at the end of the line. */
  lemma Realigns(d: string)
    ensures var start, inside := Scan(d, true), Scan(d, false);
      if d == "" || !Framing(d) || CutsOut(d) then
        && start.pending == inside.pending
        && (if CutsOut(d) then |start.out| < |inside.out| else start.out == inside.out)
      else
        start.out == "" && start.pending == d && inside.out == d && inside.pending == "" && '\n' !in d
  {
    if d == "" {
      assert !HasPrefix(d) && !(KEEPALIVE <= d);
    } else {
      ScanFrameStart(d);
      if CutsOut(d) {
        FramingIsNotPlain(d);
        RealignsAfterCut(d);
      } else if Framing(d) {
        FramingHasNoNewline(d);
        PlainUpTo(d, "");
        assert d + "" == d;
      }
      hide Scan, CutMarker;
    }
  }

  lemma RealignsAfterCut(d: string)
    requires CutsOut(d)
    ensures Scan(d, true).pending == Scan(d, false).pending
  {
    ScanFrameStart(d);
    if HasPrefix(d) {
      assert '\n' !in d[..7];
      PlainUpTo(d[..7], d[7..]);
      assert d[..7] + d[7..] == d;
    } else {
      SameAfterLine(d);
    }
    hide Scan;
  }

  lemma FramingHasNoNewline(d: string)
    requires Framing(d) && !CutsOut(d)
    ensures '\n' !in d
  {
  }

  lemma {:induction false} SameAfterLine(d: string)
    requires '\n' in d
    ensures Scan(d, false).pending == Scan(AfterNewline(d), true).pending
  {
    if d[0] != '\n' { SameAfterLine(d[1..]); }
  }

  /**
   * Feeding the chunks of a text beside reading it as a whole; `kept` says that nothing was cut out of a line. Inside
   * a line the whole reading has already passed on what the other holds back.
   */
  predicate Beside(text: string, whole: Scanned, fed: Scanned, kept: bool) {
    var p, inside := fed.pending, InsideLine(text, fed.pending);
    && |p| <= |text| && '\n' !in p && whole.boundary == !inside && whole.pending == (if inside then "" else p)
    && var seen := if inside then fed.out + p else fed.out;
      if kept then seen == whole.out else |seen| < |whole.out|
  }

  lemma HeldHasNoNewline(p: string)
    requires Held(p)
    ensures '\n' !in p
  {
  }

  lemma InsideOfTail(text: string, p: string)
    requires LineTail(text, p)
    ensures InsideLine(text, p) <==> text != "" && p == "" && text[|text| - 1] != '\n'
  {
    if p == "" { assert Without(text, p) == text; }
  }

  /** When both readings hold back the same text they agree on whether it starts a line. */
  lemma SameHeld(text: string, p: string)
    requires p == Scan(text, true).pending
    ensures |p| <= |text| && '\n' !in p && InsideLine(text, p) == !Scan(text, true).boundary
    ensures InsideLine(text, p) ==> p == ""
  {
    PendingStartsLine(text, true);
    HeldAfterScan(text, true);
    HeldHasNoNewline(p);
    BoundaryAfter(text, true);
    InsideOfTail(text, p);
    assert |p| <= |text|;
    hide Scan, LineTail, InsideLine, Held;
  }

  lemma Together(text: string, whole: Scanned, fed: Scanned, kept: bool)
    requires whole == Scan(text, true) && fed.pending == whole.pending
    requires if kept then fed.out == whole.out else |fed.out| < |whole.out|
    ensures Beside(text, whole, fed, kept)
  {
    SameHeld(text, fed.pending);
    hide Scan, InsideLine;
    assert fed.out + "" == fed.out;
  }

  lemma StillInside(text: string, whole: Scanned, fed: Scanned, kept: bool, c: string)
    requires Beside(text, whole, fed, kept) && InsideLine(text, fed.pending) && '\n' !in c
    ensures Beside(text + c, Scanned(whole.out + c, "", false), Scanned(fed.out, fed.pending + c, true), kept)
  {
    assert Without(text + c, fed.pending + c) == Without(text, fed.pending);
    assert fed.out + (fed.pending + c) == fed.out + fed.pending + c;
    assert InsideLine(text + c, fed.pending + c);
    hide InsideLine;
  }

  lemma PlainLineEnd(c: string)
    requires '\n' !in c
    ensures Scan(c, false) == Scanned(c, "", false)
  {
    PlainUpTo(c, "");
    assert c + "" == c;
  }

  lemma OneMoreChunk(text: string, fed: Scanned, kept: bool, c: string)
    requires Beside(text, Scan(text, true), fed, kept)
    ensures Beside(text + c, Scan(text + c, true), Prepend(fed.out, Scan(fed.pending + c, true)),
                   kept && !(InsideLine(text, fed.pending) && CutsOut(fed.pending + c)))
  {
    hide Scan, Framing, CutsOut, InsideLine;
    var whole, p := Scan(text, true), fed.pending;
    var d := p + c;
    ScanAppend(text, c, true);
    assert "" + c == c;
    if !InsideLine(text, p) {
      Together(text + c, Scan(text + c, true), Prepend(fed.out, Scan(d, true)), kept);
    } else {
      Realigns(d);
      PlainUpTo(p, c);
      assert Scan(text + c, true) == Prepend(whole.out, Scan(c, false));
      var inside := Scan(d, false);
      assert inside.out == p + Scan(c, false).out;
      assert fed.out + (p + Scan(c, false).out) == fed.out + p + Scan(c, false).out;
      if d == "" || !Framing(d) || CutsOut(d) {
        Together(text + c, Scan(text + c, true), Prepend(fed.out, Scan(d, true)), kept && !CutsOut(d));
      } else {
        PlainLineEnd(c);
        HeldAfterScan(d, true);
        assert fed.out + "" == fed.out && whole.out + c == Scan(text + c, true).out;
        StillInside(text, whole, fed, kept, c);
      }
    }
  }

  lemma NothingFed(pending: string)
    requires Held(pending)
    ensures Beside(pending + Concat([]), Scan(pending + Concat([]), true), FeedAll(pending, []),
                   NothingCutInside(pending, []))
  {
    HeldIsStable(pending);
    assert pending + Concat([]) == pending;
    Together(pending, Scan(pending, true), FeedAll(pending, []), true);
    hide Scan, Beside;
  }

  lemma {:induction false} FedBeside(pending: string, chunks: seq<string>)
    requires Held(pending)
    ensures var text := pending + Concat(chunks);
      Beside(text, Scan(text, true), FeedAll(pending, chunks), NothingCutInside(pending, chunks))
  {
    hide Scan, Beside, NothingCutInside, Held, CutsOut, InsideLine;
    if chunks == [] {
      NothingFed(pending);
    } else {
      var n := |chunks| - 1;
      var init := chunks[..n];
      FedBeside(pending, init);
      OneMoreChunk(pending + Concat(init), FeedAll(pending, init), NothingCutInside(pending, init), chunks[n]);
      LastChunk(pending, chunks);
      assert pending + Concat(chunks) == pending + Concat(init) + chunks[n];
    }
  }

  lemma LastChunk(pending: string, chunks: seq<string>)
    requires chunks != []
    ensures var init, last := chunks[..|chunks| - 1], chunks[|chunks| - 1];
      var held := FeedAll(pending, init).pending;
      NothingCutInside(pending, chunks) <==>
        NothingCutInside(pending, init) && !(InsideLine(pending + Concat(init), held) && CutsOut(held + last))
  {
    var init := chunks[..|chunks| - 1];
    assert forall i | 0 <= i <= |init| :: init[..i] == chunks[..i];
    hide FeedAll, Concat, InsideLine, CutsOut;
  }

  /**
   * How the stream is chunked does not show in the end exactly when no chunk, read after the text held back before
   * it, has something cut out of the inside of a line, and nothing is held back inside a line at the end.
   */
  lemma ChunkingExactly(pending: string, chunks: seq<string>)
    requires Held(pending)
    ensures var fed, text := FeedAll(pending, chunks), pending + Concat(chunks);
      var whole := Scan(text, true);
      (fed.out == whole.out && fed.pending == whole.pending) <==>
        NothingCutInside(pending, chunks) && (InsideLine(text, fed.pending) ==> fed.pending == "")
  {
    FedBeside(pending, chunks);
    hide Scan, FeedAll, NothingCutInside, InsideLine;
  }

  lemma FeedOneMore(chunks: seq<string>, last: string)
    ensures Concat(chunks + [last]) == Concat(chunks) + last
    ensures var before := FeedAll("", chunks);
      FeedAll("", chunks + [last]) == Prepend(before.out, Scan(before.pending + last, true))
  {
    assert (chunks + [last])[..|chunks|] == chunks;
    hide Scan;
  }

  lemma FeedFirst(first: string)
    ensures FeedAll("", [first]) == Scan(first, true)
  {
    FeedOneMore([], first);
    assert [] + [first] == [first] && "" + first == first && "" + Scan(first, true).out == Scan(first, true).out;
    hide Scan;
  }

  /** Text that is passed on as it is. */
  predicate Plain(s: string) { s != "" && !Framing(s) && '\n' !in s }

  lemma PlainText(text: string)
    requires Plain(text)
    ensures Scan(text, true) == Scanned(text, "", false)
  {
    ScanFrameStart(text);
    PlainLineEnd(text);
    hide Scan;
  }

  /** A cut before a marker inside a line always shows: the marker is lost. */
  lemma MarkerInsideLineIsLost(line: string, mark: string)
    requires Plain(line) && (mark == STDOUT || mark == STDERR)
    ensures Scan(line + mark, true).out == line + mark && FeedAll("", [line] + [mark]).out == line
  {
    hide Scan, FeedAll, Framing;
    NotFramingAppend(line, mark);
    PlainText(line);
    assert '\n' !in STDOUT && '\n' !in STDERR;
    PlainText(line + mark);
    FeedFirst(line);
    FeedOneMore([line], mark);
    assert "" + mark == mark && line + "" == line;
    MarkAlone(mark);
  }

  lemma MarkAlone(mark: string)
    requires mark == STDOUT || mark == STDERR
    ensures Scan(mark, true).out == ""
  {
    ScanFrameStart(mark);
    assert HasPrefix(mark) && mark[7..] == "";
    ScanNothing(mark[7..], false);
    hide Scan;
  }

  /** A harmful cut need not show in the end: what is held back inside a line is passed on when no marker follows. */
  lemma HarmfulCutNeedNotShow(line: string, part: string, rest: string)
    requires Plain(line) && part != "" && CutMarker(part) && !CutsOut(part) && Plain(part + rest)
    ensures !HarmlessCut(line, part)
    ensures var fed := FeedAll("", [line] + [part] + [rest]);
      fed.out == line + part + rest == Scan(line + part + rest, true).out && fed.pending == ""
  {
    hide Scan, FeedAll, HasPrefix, CutMarker;
    NotFramingAppend(line, part + rest);
    assert line + part + rest == line + (part + rest);
    PlainText(line);
    PlainText(part + rest);
    PlainText(line + (part + rest));
    FeedFirst(line);
    FeedOneMore([line], part);
    FeedOneMore([line] + [part], rest);
    ScanFrameStart(part);
    assert "" + part == part && line + "" == line;
  }

  /** For example. */
  lemma CutsThatShowOrNot()
    ensures FeedAll("", ["abc"] + ["stdout:"]).out == "abc" != Scan("abc" + "stdout:", true).out
    ensures !HarmlessCut("abc", "std")
    ensures FeedAll("", ["abc"] + ["std"] + ["x"]).out == Scan("abc" + "std" + "x", true).out
  {
    assert Plain("abc") && Plain("std" + "x") by { assert "abc"[0] == 'a' && ("std" + "x")[3] == 'x'; }
    assert CutMarker("std") && !CutsOut("std") by { assert "std" <= STDOUT; }
    hide Scan, FeedAll, Framing, CutMarker, CutsOut, HarmlessCut, Plain;
    MarkerInsideLineIsLost("abc", STDOUT);
    HarmfulCutNeedNotShow("abc", "std", "x");
  }
}
