/** What the deframer makes of the lines of its stream. */
module DeframerLines {
  import opened Deframer
  import opened Text

  // ---- Lines and what comes out of them ----

  /** One line of the stream: framed by the server, a keepalive, or one that none of the markers begins. */
  datatype Frame = Line(isStderr: bool, payload: string) | Keepalive(tail: string) | Bare(line: string)

  predicate Unmarked(line: string) {
    !("stdout:" <= line) && !("stderr:" <= line) && !("[keepalive]" <= line)
  }

  /** A line as it stands in the stream. */
  function EncodeFrame(frame: Frame): string {
    match frame
    case Line(isStderr, payload) => (if isStderr then "stderr:" else "stdout:") + (payload + "\n")
    case Keepalive(tail) => ("[keepalive]" + tail) + "\n"
    case Bare(line) => line + "\n"
  }

  function Encode(frames: seq<Frame>): string {
    if frames == [] then "" else EncodeFrame(frames[0]) + Encode(frames[1..])
  }

  function PayloadOf(frame: Frame): string {
    match frame
    case Line(_, payload) => payload + "\n"
    case Keepalive(_) => ""
    case Bare(line) => line + "\n"
  }

  function Payloads(frames: seq<Frame>): string {
    if frames == [] then "" else PayloadOf(frames[0]) + Payloads(frames[1..])
  }

  predicate OneLine(frame: Frame) {
    match frame
    case Line(_, payload) => '\n' !in payload
    case Keepalive(tail) => '\n' !in tail
    case Bare(line) => '\n' !in line && Unmarked(line)
  }

  /** Lines are read back as what comes out of them, whatever follows them in the stream. */
  lemma {:induction false} FramesThenRest(frames: seq<Frame>, rest: string)
    requires forall f | f in frames :: OneLine(f)
    ensures Scan(Encode(frames) + rest, true) == Prepend(Payloads(frames), Scan(rest, true))
  {
    hide Scan, EncodeFrame, PayloadOf, OneLine;
    if frames == [] {
      assert Encode(frames) + rest == rest;
      assert "" + Scan(rest, true).out == Scan(rest, true).out;
    } else {
      var tail := Encode(frames[1..]) + rest;
      assert Encode(frames) + rest == EncodeFrame(frames[0]) + tail;
      FramesThenRest(frames[1..], rest);
      FrameThenRest(frames[0], tail);
      PrependPrepend(PayloadOf(frames[0]), Payloads(frames[1..]), Scan(rest, true));
    }
  }

  lemma FrameThenRest(frame: Frame, tail: string)
    requires OneLine(frame)
    ensures Scan(EncodeFrame(frame) + tail, true) == Prepend(PayloadOf(frame), Scan(tail, true))
  {
    hide Scan;
    match frame
    case Line(isStderr, payload) =>
      var mark := if isStderr then "stderr:" else "stdout:";
      assert EncodeFrame(frame) + tail == mark + (payload + ("\n" + tail));
      PrefixedLine(mark, payload, tail);
    case Keepalive(t) =>
      assert EncodeFrame(frame) + tail == ("[keepalive]" + t) + ("\n" + tail);
      KeepaliveLine(t, tail);
    case Bare(line) =>
      assert EncodeFrame(frame) + tail == line + ("\n" + tail);
      BareLine(line, tail);
  }

  /** Only the marker the server wrote is removed: the payload is plain even if it begins with a marker. */
  lemma PrefixedLine(mark: string, payload: string, tail: string)
    requires mark == "stdout:" || mark == "stderr:"
    requires '\n' !in payload
    ensures Scan(mark + (payload + ("\n" + tail)), true) == Prepend(payload + "\n", Scan(tail, true))
  {
    var data := mark + (payload + ("\n" + tail));
    assert mark <= data && data[7..] == payload + ("\n" + tail);
    LineThenRest(payload, tail);
  }

  lemma LineThenRest(line: string, tail: string)
    requires '\n' !in line
    ensures Scan(line + ("\n" + tail), false) == Prepend(line + "\n", Scan(tail, true))
  {
    PlainUpTo(line, "\n" + tail);
    assert ("\n" + tail)[1..] == tail;
    PrependPrepend(line, "\n", Scan(tail, true));
  }

  lemma KeepaliveLine(t: string, tail: string)
    requires '\n' !in t
    ensures Scan(("[keepalive]" + t) + ("\n" + tail), true) == Scan(tail, true)
  {
    var data := ("[keepalive]" + t) + ("\n" + tail);
    assert "[keepalive]" <= data && data[0] == '[';
    assert !HasPrefix(data) by { assert STDOUT[0] == STDERR[0] == 's'; }
    AfterFirstNewline("[keepalive]" + t, tail);
  }

  lemma MarkBefore(mark: string, line: string, rest: string)
    requires '\n' !in mark && !(mark <= line)
    ensures !(mark <= line + ("\n" + rest)) && !(line + ("\n" + rest) <= mark)
  {
    var data := line + ("\n" + rest);
    assert data[|line|] == '\n';
    if |mark| <= |line| {
      assert data[..|mark|] == line[..|mark|];
    } else {
      assert mark[|line|] != data[|line|];
    }
  }

  lemma BareLine(line: string, tail: string)
    requires '\n' !in line && Unmarked(line)
    ensures Scan(line + ("\n" + tail), true) == Prepend(line + "\n", Scan(tail, true))
  {
    hide Scan;
    MarkBefore("stdout:", line, tail);
    MarkBefore("stderr:", line, tail);
    MarkBefore("[keepalive]", line, tail);
    ScanFrameStart(line + ("\n" + tail));
    LineThenRest(line, tail);
  }

  lemma {:induction false} AfterFirstNewline(line: string, rest: string)
    requires '\n' !in line
    ensures '\n' in line + ("\n" + rest) && AfterNewline(line + ("\n" + rest)) == rest
  {
    var s := line + ("\n" + rest);
    if line == "" {
      assert s[1..] == rest;
    } else {
      assert s[1..] == line[1..] + ("\n" + rest);
      AfterFirstNewline(line[1..], rest);
    }
  }

  // ---- What is read from any text ----

  function FrameOf(line: string): Frame {
    if "stdout:" <= line then Line(false, line[7..])
    else if "stderr:" <= line then Line(true, line[7..])
    else if "[keepalive]" <= line then Keepalive(line[11..])
    else Bare(line)
  }

  lemma FrameOfLine(line: string)
    requires '\n' !in line
    ensures OneLine(FrameOf(line)) && EncodeFrame(FrameOf(line)) == line + "\n"
  {
    if "stdout:" <= line {
      assert line == "stdout:" + line[7..];
    } else if "stderr:" <= line {
      assert line == "stderr:" + line[7..];
    } else if "[keepalive]" <= line {
      assert line == "[keepalive]" + line[11..];
    }
  }

  /** The lines but the last. */
  function FramesOf(lines: seq<string>): seq<Frame> {
    if |lines| <= 1 then [] else [FrameOf(lines[0])] + FramesOf(lines[1..])
  }

  lemma EncodeFirst(frame: Frame, more: seq<Frame>)
    requires OneLine(frame) && forall f | f in more :: OneLine(f)
    ensures Encode([frame] + more) == EncodeFrame(frame) + Encode(more)
    ensures forall f | f in [frame] + more :: OneLine(f)
  {
    hide OneLine, EncodeFrame;
    assert ([frame] + more)[1..] == more;
  }

  lemma {:induction false} LinesEncode(lines: seq<string>)
    requires lines != [] && forall l | l in lines :: '\n' !in l
    ensures forall f | f in FramesOf(lines) :: OneLine(f)
    ensures Encode(FramesOf(lines)) + lines[|lines| - 1] == Join(lines, '\n')
  {
    hide FrameOf, OneLine, EncodeFrame;
    if |lines| > 1 {
      assert lines[0] in lines;
      LinesEncode(lines[1..]);
      FrameOfLine(lines[0]);
      EncodeFirst(FrameOf(lines[0]), FramesOf(lines[1..]));
    }
  }

  /** Every text is a number of lines and a rest of a line. */
  lemma EveryTextIsLines(text: string)
    ensures var lines := Split(text, '\n'); var last := lines[|lines| - 1];
      (forall f | f in FramesOf(lines) :: OneLine(f)) && '\n' !in last && text == Encode(FramesOf(lines)) + last
  {
    hide OneLine, FramesOf, Encode, Split, Join;
    PartsHaveNoSep(text, '\n');
    JoinSplit(text, '\n');
    LinesEncode(Split(text, '\n'));
  }

  /** A text that a marker may still begin. */
  predicate MayBegin(last: string) {
    last < "stdout:" || last < "stderr:" || last < "[keepalive]"
  }

  /** What comes out of the rest of a line, and what is held back of it. */
  function LastOut(last: string): string {
    if "stdout:" <= last || "stderr:" <= last then last[7..]
    else if "[keepalive]" <= last || MayBegin(last) then ""
    else last
  }

  function LastHeld(last: string): string {
    if "[keepalive]" <= last || MayBegin(last) then last else ""
  }

  lemma LastLine(last: string)
    requires '\n' !in last
    ensures Scan(last, true).out == LastOut(last) && Scan(last, true).pending == LastHeld(last)
  {
    if last != "" {
      ScanFrameStart(last);
      MarksAreApart(last);
      if "stdout:" <= last || "stderr:" <= last {
        PlainLineEnd(last[7..]);
      } else {
        PlainLineEnd(last);
      }
    }
    hide Scan;
  }

  lemma MarksAreApart(last: string)
    requires last != ""
    ensures "stdout:" <= last || "stderr:" <= last ==> !("[keepalive]" <= last) && !MayBegin(last)
    ensures "[keepalive]" <= last ==> !HasPrefix(last) && !MayBegin(last)
    ensures MayBegin(last) || HasPrefix(last) || "[keepalive]" <= last <==> Framing(last)
  {
    assert "[keepalive]"[0] == '[' && "stdout:"[0] == "stderr:"[0] == 's';
    assert "stdout:"[2] == 'd' && "stderr:"[2] == 'd' && "stdout:"[3] == 'o' && "stderr:"[3] == 'e';
  }

  /**
   * What is read from any text, told by its lines alone: framed lines lose their first seven characters, keepalives
   * go, and all other lines, blank ones included, come out as they are; of the rest after the last newline likewise,
   * except that it is held back while it is a keepalive or a beginning of one of the three markers.
   */
  lemma ReadsLines(frames: seq<Frame>, last: string)
    requires (forall f | f in frames :: OneLine(f)) && '\n' !in last
    ensures var r := Scan(Encode(frames) + last, true);
      r.out == Payloads(frames) + LastOut(last) && r.pending == LastHeld(last)
  {
    FramesThenRest(frames, last);
    LastLine(last);
    hide Scan;
  }

  function Lines(lines: seq<string>): string {
    if lines == [] then "" else lines[0] + "\n" + Lines(lines[1..])
  }

  /**
   * Text none of whose lines begins with a marker passes byte for byte: complete lines come out unchanged, after a
   * framed line or not, and of an unfinished one nothing is lost.
   */
  lemma UnmarkedTextPasses(framed: seq<Frame>, lines: seq<string>, last: string)
    requires forall f | f in framed :: OneLine(f)
    requires (forall l | l in lines :: '\n' !in l && Unmarked(l)) && '\n' !in last && Unmarked(last)
    ensures var r := Scan(Encode(framed) + Lines(lines) + last, true);
      && r.out + r.pending == Payloads(framed) + Lines(lines) + last
      && (r.pending == "" || r.pending == last)
      && (last == "" ==> r.out == Payloads(framed) + Lines(lines) && r.pending == "")
  {
    var bare := BareLines(lines);
    LinesAreBare(lines);
    FramesThenRest(framed, Encode(bare) + last);
    ReadsLines(bare, last);
    LastUnmarked(last);
    hide Scan, Encode, Payloads, Lines, BareLines, OneLine, Unmarked, LastOut, LastHeld;
    Regroup(Encode(framed), Lines(lines), last);
    Regroup(Payloads(framed), Lines(lines), LastOut(last));
    Regroup(Payloads(framed) + Lines(lines), LastOut(last), LastHeld(last));
    assert Payloads(framed) + Lines(lines) + "" == Payloads(framed) + Lines(lines);
  }

  lemma Regroup(a: string, b: string, c: string)
    ensures a + b + c == a + (b + c)
  {
  }

  lemma LastUnmarked(last: string)
    requires Unmarked(last)
    ensures LastOut(last) + LastHeld(last) == last && (LastHeld(last) == "" || LastHeld(last) == last)
    ensures last == "" ==> LastOut(last) == "" == LastHeld(last)
  {
  }

  function BareLines(lines: seq<string>): seq<Frame> {
    if lines == [] then [] else [Bare(lines[0])] + BareLines(lines[1..])
  }

  lemma {:induction false} LinesAreBare(lines: seq<string>)
    requires forall l | l in lines :: '\n' !in l && Unmarked(l)
    ensures forall f | f in BareLines(lines) :: OneLine(f)
    ensures Encode(BareLines(lines)) == Lines(lines) == Payloads(BareLines(lines))
  {
    if lines != [] {
      LinesAreBare(lines[1..]);
      assert BareLines(lines)[1..] == BareLines(lines[1..]);
    }
  }

  /**
   * The round trip over a chunked stream: lines come out as their payloads, with nothing held back, if and only if
   * no chunk has something cut out of the inside of a line; so they do when they are cut harmlessly anywhere, even
   * inside a marker.
   */
  lemma RoundTrip(frames: seq<Frame>, chunks: seq<string>)
    requires forall f | f in frames :: OneLine(f)
    requires Concat(chunks) == Encode(frames)
    ensures FeedAll("", chunks).out == Payloads(frames) && FeedAll("", chunks).pending == "" <==>
      NothingCutInside("", chunks) && (InsideLine(Concat(chunks), FeedAll("", chunks).pending) ==>
                                       FeedAll("", chunks).pending == "")
    ensures HarmlessCuts("", chunks) ==>
      FeedAll("", chunks).out == Payloads(frames) && FeedAll("", chunks).pending == ""
  {
    ChunkingExactly("", chunks);
    if HarmlessCuts("", chunks) { ChunkingTheorem("", chunks); }
    assert "" + Concat(chunks) == Concat(chunks) == Encode(frames) + "";
    FramesThenRest(frames, "");
    ScanNothing("", true);
    hide Scan, FeedAll, NothingCutInside, InsideLine, HarmlessCuts;
  }
}
