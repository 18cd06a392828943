/**
 * The log parsers of LocalGitService.js, proved to undo the formats that are requested from git: the graph log with its
 * connector lines and decorations, and the short log with its subjects.
 */
module GraphLog {
  import opened Doubles
  import opened Text
  import opened Wrappers

  const NUL := '\0'

  datatype Ref = Ref(name: string, kind: string)

  datatype Commit = Commit(sha: string, message: string, author: string, email: string,
                           timestamp: Number, refs: seq<Ref>, graph: string)

  // ---- The parser ----

  function Field(data: seq<string>, i: nat): string {
    if i < |data| then data[i] else ""
  }

  /** Number(text) for plain decimal numerals, rounded to a double; None, not a number, for anything else. */
  function NumberOf(text: string): Option<Number> {
    var t := Trim(text);
    if AllDigits(t) then Some(ToNumber(ParseDecimal(t))) else None
  }

  /** Number(text) || 0 */
  function NumberOrZero(text: string): Number {
    var n := NumberOf(text);
    if n.Some? then n.value else Finite(0)
  }

  /** text.indexOf(" -> "), or -1. */
  function IndexOfArrow(text: string): (i: int)
    ensures -1 <= i <= |text| - 4 || i == -1
  {
    if |text| < 4 then -1
    else if " -> " <= text then 0
    else
      var i := IndexOfArrow(text[1..]);
      if i == -1 then -1 else i + 1
  }

  function ParseRef(raw: string): Ref {
    var trimmed := Trim(raw);
    var arrow := IndexOfArrow(trimmed);
    if arrow != -1 then Ref(Trim(trimmed[arrow + 4..]), Trim(trimmed[..arrow]))
    else if "tag: " <= trimmed && Trim(trimmed[5..]) != "" then Ref(Trim(trimmed[5..]), "tag")
    else Ref(trimmed, "ref")
  }

  function ParseEach(raws: seq<string>): seq<Ref> {
    if raws == [] then [] else [ParseRef(raws[0])] + ParseEach(raws[1..])
  }

  function ParseRefs(raw: string): seq<Ref> {
    if raw == "" then [] else ParseEach(Split(raw, ','))
  }

  /** Index of the first NUL. */
  function NulIndex(line: string): (i: nat)
    requires NUL in line
    ensures i < |line| && line[i] == NUL && NUL !in line[..i]
  {
    if line[0] == NUL then 0
    else
      var i := 1 + NulIndex(line[1..]);
      assert line[..i] == [line[0]] + line[1..][..i - 1];
      i
  }

  function ParseCommit(pending: seq<string>, line: string): Commit
    requires NUL in line
  {
    var at := NulIndex(line);
    var data := Split(line[at + 1..], NUL);
    Commit(data[0], Field(data, 1), Field(data, 3), Field(data, 4),
           NumberOrZero(Field(data, 2)), ParseRefs(Field(data, 5)),
           if pending == [] then line[..at] else Join(pending, '\n') + "\n" + line[..at])
  }

  /** Missing fields are empty, a time that is missing or no numeral is 0, and fields behind the sixth do not matter. */
  lemma FieldsRead(pending: seq<string>, graph: string, fields: seq<string>)
    requires NUL !in graph && fields != [] && forall f | f in fields :: NUL !in f
    ensures NUL in graph + [NUL] + Join(fields, NUL)
    ensures var c := ParseCommit(pending, graph + [NUL] + Join(fields, NUL));
      && c.sha == fields[0]
      && c.message == (if |fields| > 1 then fields[1] else "")
      && c.author == (if |fields| > 3 then fields[3] else "")
      && c.email == (if |fields| > 4 then fields[4] else "")
      && (|fields| <= 5 || fields[5] == "" ==> c.refs == [])
      && ((|fields| <= 2 || exists x :: x in Trim(fields[2]) && !IsDigit(x)) ==> c.timestamp == Finite(0))
      && c.graph == (if pending == [] then graph else Join(pending, '\n') + "\n" + graph)
  {
    var line := graph + [NUL] + Join(fields, NUL);
    NulIndexAfter(graph, Join(fields, NUL));
    assert line[|graph| + 1..] == Join(fields, NUL) && line[..|graph|] == graph;
    SplitJoin(fields, NUL);
    NoTime();
    hide Join, Split, ParseRefs, ToNumber, ParseDecimal;
  }

  lemma NoTime()
    ensures NumberOrZero("") == Finite(0)
  {
    ExactNumber(0);
    hide ToNumber;
    assert Trim("") == "" && ParseDecimal("") == 0;
  }

  function ParseLines(lines: seq<string>, pending: seq<string>): seq<Commit> {
    if lines == [] then []
    else if AllSpace(lines[0]) then ParseLines(lines[1..], [])
    else if NUL !in lines[0] then ParseLines(lines[1..], pending + [lines[0]])
    else [ParseCommit(pending, lines[0])] + ParseLines(lines[1..], [])
  }

  method ParseGraphLog(output: string) returns (commits: seq<Commit>)
    ensures commits == ParseLines(Split(output, '\n'), [])
  {
    var lines := Split(output, '\n');
    commits := [];
    var pendingGraphLines: seq<string> := [];
    for i := 0 to |lines|
      invariant ParseLines(lines, []) == commits + ParseLines(lines[i..], pendingGraphLines)
    {
      var line := lines[i];
      assert lines[i..][1..] == lines[i + 1..];
      if AllSpace(line) {
        pendingGraphLines := [];
        continue;
      }
      if NUL !in line {
        pendingGraphLines := pendingGraphLines + [line];
        continue;
      }
      commits := commits + [ParseCommit(pendingGraphLines, line)];
      pendingGraphLines := [];
    }
  }

  // ---- What git prints for --graph --format=%x00%H%x00%s%x00%ct%x00%an%x00%ae%x00%D%x00 ----

  datatype Decoration = Branch(name: string) | Tag(name: string) | Points(kind: string, name: string)

  datatype Entry = Entry(connectors: seq<string>, prefix: string, sha: string, subject: string, time: nat,
                         author: string, email: string, decorations: seq<Decoration>)

  function PrintDecoration(d: Decoration): string {
    match d
    case Branch(name) => name
    case Tag(name) => "tag: " + name
    case Points(kind, name) => kind + (" -> " + name)
  }

  /** The pieces between the commas: every one but the first has a blank in front. */
  function Pieces(ds: seq<Decoration>, blank: string): seq<string> {
    if ds == [] then [] else [blank + PrintDecoration(ds[0])] + Pieces(ds[1..], " ")
  }

  function PrintDecorations(ds: seq<Decoration>): string {
    Join(Pieces(ds, ""), ',')
  }

  function Fields(e: Entry): seq<string> {
    [e.sha, e.subject, Decimal(e.time), e.author, e.email, PrintDecorations(e.decorations), ""]
  }

  function PrintEntry(e: Entry): seq<string> {
    e.connectors + [e.prefix + [NUL] + Join(Fields(e), NUL)]
  }

  function PrintEntries(es: seq<Entry>): seq<string> {
    if es == [] then [] else PrintEntry(es[0]) + PrintEntries(es[1..])
  }

  // ---- What the parser is to return for it ----

  function RefOf(d: Decoration): Ref {
    match d
    case Branch(name) => Ref(name, "ref")
    case Tag(name) => Ref(name, "tag")
    case Points(kind, name) => Ref(name, kind)
  }

  function RefsOf(ds: seq<Decoration>): seq<Ref> {
    if ds == [] then [] else [RefOf(ds[0])] + RefsOf(ds[1..])
  }

  function CommitOf(e: Entry): Commit {
    Commit(e.sha, e.subject, e.author, e.email, ToNumber(e.time), RefsOf(e.decorations),
           Join(e.connectors + [e.prefix], '\n'))
  }

  function CommitsOf(es: seq<Entry>): (cs: seq<Commit>)
    ensures |cs| == |es| && forall i | 0 <= i < |es| :: cs[i] == CommitOf(es[i])
  {
    if es == [] then [] else [CommitOf(es[0])] + CommitsOf(es[1..])
  }

  predicate Clean(s: string) {
    NUL !in s && '\n' !in s
  }

  /** A ref name as git allows it, apart from the comma: visible ends and no blank inside. */
  predicate RefName(s: string) {
    s != "" && Clean(s) && ',' !in s && ' ' !in s && !IsSpace(s[0]) && !IsSpace(s[|s| - 1])
  }

  predicate CleanDecoration(d: Decoration) {
    RefName(d.name) && (d.Points? ==> RefName(d.kind))
  }

  predicate GraphLine(s: string) {
    Clean(s) && !AllSpace(s)
  }

  predicate CleanEntry(e: Entry) {
    && (forall c | c in e.connectors :: GraphLine(c))
    && Clean(e.prefix) && Clean(e.sha) && Clean(e.subject) && Clean(e.author) && Clean(e.email)
    && (forall d | d in e.decorations :: CleanDecoration(d))
  }

  // ---- Decorations ----

  lemma TrimVisible(s: string)
    requires s == "" || (!IsSpace(s[0]) && !IsSpace(s[|s| - 1]))
    ensures Trim(s) == s
  {
    TrimEndTrimmed(s);
  }

  /** The first arrow is the one after a kind that contains no blank. */
  lemma {:induction false} ArrowAfter(kind: string, rest: string)
    requires ' ' !in kind
    ensures IndexOfArrow(kind + (" -> " + rest)) == |kind|
  {
    var s := kind + (" -> " + rest);
    if kind == "" {
      assert " -> " <= s;
    } else {
      assert s[0] == kind[0] != ' ';
      assert s[1..] == kind[1..] + (" -> " + rest);
      ArrowAfter(kind[1..], rest);
    }
  }

  lemma {:induction false} NoArrow(s: string)
    requires forall i | 0 <= i < |s| - 3 :: s[i] == ' ' ==> s[i + 3] != ' '
    ensures IndexOfArrow(s) == -1
  {
    if |s| >= 4 {
      assert s[0] != " -> "[0] || s[3] != " -> "[3];
      forall i | 0 <= i < |s[1..]| - 3 ensures s[1..][i] == ' ' ==> s[1..][i + 3] != ' ' {
        assert s[1..][i] == s[i + 1] && s[1..][i + 3] == s[i + 4];
      }
      NoArrow(s[1..]);
    }
  }

  lemma TagName(name: string)
    requires RefName(name)
    ensures ParseRef("tag: " + name) == Ref(name, "tag")
  {
    var s := "tag: " + name;
    assert s[0] == 't' && s[|s| - 1] == name[|name| - 1];
    TrimVisible(s);
    forall i | 0 <= i < |s| - 3 ensures s[i] == ' ' ==> s[i + 3] != ' ' {
      if i >= 2 { assert s[i + 3] == name[i - 2]; }
    }
    NoArrow(s);
    assert s[5..] == name;
    TrimVisible(name);
  }

  lemma BranchName(name: string)
    requires RefName(name)
    ensures ParseRef(name) == Ref(name, "ref")
  {
    TrimVisible(name);
    NoArrow(name);
    assert |name| < 5 || name[4] != "tag: "[4];
  }

  lemma PointsName(kind: string, name: string)
    requires RefName(kind) && RefName(name)
    ensures ParseRef(kind + (" -> " + name)) == Ref(name, kind)
  {
    var s := kind + (" -> " + name);
    assert s[0] == kind[0] && s[|s| - 1] == name[|name| - 1];
    TrimVisible(s);
    ArrowAfter(kind, name);
    assert s[..|kind|] == kind && s[|kind| + 4..] == name;
    TrimVisible(kind);
    TrimVisible(name);
  }

  /** A printed decoration is read back as its name and kind, with or without a blank before it. */
  lemma DecorationRoundTrip(d: Decoration)
    requires CleanDecoration(d)
    ensures ParseRef(PrintDecoration(d)) == RefOf(d)
    ensures ParseRef(" " + PrintDecoration(d)) == RefOf(d)
  {
    hide ParseRef;
    match d
    case Branch(name) => BranchName(name); BlankBefore(name);
    case Tag(name) => TagName(name); BlankBefore("tag: " + name);
    case Points(kind, name) => PointsName(kind, name); BlankBefore(kind + (" -> " + name));
  }

  lemma BlankBefore(s: string)
    requires s != "" && !IsSpace(s[0]) && !IsSpace(s[|s| - 1])
    ensures ParseRef(" " + s) == ParseRef(s)
  {
    TrimEndTrimmed(s);
    TrimEndTrimmed(" " + s);
    assert (" " + s)[1..] == s;
  }

  lemma DecorationIsOnePiece(d: Decoration)
    requires CleanDecoration(d)
    ensures PrintDecoration(d) != "" && ',' !in PrintDecoration(d) && Clean(PrintDecoration(d))
  {
    match d
    case Branch(name) =>
    case Tag(name) =>
    case Points(kind, name) =>
  }

  lemma BlankIsClean(blank: string, s: string)
    requires (blank == "" || blank == " ") && s != "" && ',' !in s && Clean(s)
    ensures blank + s != "" && ',' !in blank + s && Clean(blank + s)
  {
  }

  lemma PieceRoundTrip(d: Decoration, blank: string)
    requires CleanDecoration(d) && (blank == "" || blank == " ")
    ensures ParseRef(blank + PrintDecoration(d)) == RefOf(d)
    ensures var p := blank + PrintDecoration(d); p != "" && ',' !in p && Clean(p)
  {
    DecorationIsOnePiece(d);
    BlankIsClean(blank, PrintDecoration(d));
    DecorationRoundTrip(d);
    assert "" + PrintDecoration(d) == PrintDecoration(d);
  }

  lemma {:induction false} PiecesRoundTrip(ds: seq<Decoration>, blank: string)
    requires (forall d | d in ds :: CleanDecoration(d)) && (blank == "" || blank == " ")
    ensures ParseEach(Pieces(ds, blank)) == RefsOf(ds)
    ensures forall p | p in Pieces(ds, blank) :: p != "" && ',' !in p && Clean(p)
  {
    if ds != [] {
      PieceRoundTrip(ds[0], blank);
      PiecesRoundTrip(ds[1..], " ");
    }
  }

  lemma RefsRoundTrip(ds: seq<Decoration>)
    requires forall d | d in ds :: CleanDecoration(d)
    ensures ParseRefs(PrintDecorations(ds)) == RefsOf(ds)
  {
    var pieces := Pieces(ds, "");
    PiecesRoundTrip(ds, "");
    if ds != [] {
      assert pieces[0] in pieces;
      SplitJoin(pieces, ',');
      assert Join(pieces, ',') != "";
    }
  }

  // ---- Commits ----

  lemma {:induction false} JoinIsClean(parts: seq<string>, c: char, sep: char)
    requires c != sep && forall p | p in parts :: c !in p
    ensures c !in Join(parts, sep)
  {
    if |parts| > 1 { JoinIsClean(parts[1..], c, sep); }
  }

  lemma DecorationsAreClean(ds: seq<Decoration>)
    requires forall d | d in ds :: CleanDecoration(d)
    ensures Clean(PrintDecorations(ds))
  {
    PiecesRoundTrip(ds, "");
    JoinIsClean(Pieces(ds, ""), NUL, ',');
    JoinIsClean(Pieces(ds, ""), '\n', ',');
  }

  lemma DigitsAreClean(s: string)
    requires AllDigits(s)
    ensures Clean(s) && forall i | 0 <= i < |s| :: !IsSpace(s[i])
  {
  }

  lemma NumberRoundTrip(n: nat)
    ensures NumberOf(Decimal(n)) == Some(ToNumber(n)) && NumberOrZero(Decimal(n)) == ToNumber(n)
  {
    DigitsAreClean(Decimal(n));
    TrimVisible(Decimal(n));
    ParsePrinted(n);
    hide ToNumber, Decimal, ParseDecimal;
  }

  lemma {:induction false} NulIndexAfter(prefix: string, rest: string)
    requires NUL !in prefix
    ensures NUL in prefix + [NUL] + rest && NulIndex(prefix + [NUL] + rest) == |prefix|
  {
    var s := prefix + [NUL] + rest;
    assert s[|prefix|] == NUL;
    var at := NulIndex(s);
    assert forall i | 0 <= i < |prefix| :: s[i] == prefix[i];
    assert forall i | 0 <= i < at :: s[i] in s[..at];
  }

  /** The fields printed for one commit come back, with the graph text collected before it. */
  lemma CommitRoundTrip(e: Entry)
    requires CleanEntry(e)
    ensures var line := e.prefix + [NUL] + Join(Fields(e), NUL);
      NUL in line && ParseCommit(e.connectors, line) == CommitOf(e)
  {
    var body := Join(Fields(e), NUL);
    var line := e.prefix + [NUL] + body;
    NulIndexAfter(e.prefix, body);
    assert line[..|e.prefix|] == e.prefix && line[|e.prefix| + 1..] == body;
    DigitsAreClean(Decimal(e.time));
    DecorationsAreClean(e.decorations);
    SplitJoin(Fields(e), NUL);
    NumberRoundTrip(e.time);
    hide ToNumber;
    RefsRoundTrip(e.decorations);
    if e.connectors == [] {
      assert e.connectors + [e.prefix] == [e.prefix];
    } else {
      JoinAppend(e.connectors, [e.prefix], '\n');
    }
  }

  lemma {:induction false} ConnectorsThenRest(cs: seq<string>, pending: seq<string>, rest: seq<string>)
    requires forall c | c in cs :: GraphLine(c)
    ensures ParseLines(cs + rest, pending) == ParseLines(rest, pending + cs)
  {
    if cs == [] {
      assert cs + rest == rest && pending + cs == pending;
    } else {
      assert GraphLine(cs[0]);
      assert (cs + rest)[1..] == cs[1..] + rest;
      ConnectorsThenRest(cs[1..], pending + [cs[0]], rest);
      assert pending + [cs[0]] + cs[1..] == pending + cs;
    }
  }

  lemma {:induction false} NoCommitLines(lines: seq<string>, pending: seq<string>)
    requires forall l | l in lines :: NUL !in l
    ensures ParseLines(lines, pending) == []
  {
    if lines != [] {
      NoCommitLines(lines[1..], if AllSpace(lines[0]) then [] else pending + [lines[0]]);
    }
  }

  lemma {:induction false} EntriesRoundTrip(es: seq<Entry>, rest: seq<string>)
    requires forall e | e in es :: CleanEntry(e)
    requires forall l | l in rest :: NUL !in l
    ensures ParseLines(PrintEntries(es) + rest, []) == CommitsOf(es)
  {
    hide CleanEntry, ParseLines, PrintEntry, CommitOf;
    if es == [] {
      assert PrintEntries(es) + rest == rest;
      NoCommitLines(rest, []);
    } else {
      assert CleanEntry(es[0]);
      EntryThenRest(es[0], PrintEntries(es[1..]) + rest);
      EntriesRoundTrip(es[1..], rest);
      assert PrintEntries(es) + rest == PrintEntry(es[0]) + (PrintEntries(es[1..]) + rest);
    }
  }

  lemma EntryThenRest(e: Entry, tail: seq<string>)
    requires CleanEntry(e)
    ensures ParseLines(PrintEntry(e) + tail, []) == [CommitOf(e)] + ParseLines(tail, [])
  {
    hide CommitOf, ParseCommit, Fields, Join, GraphLine, ParseLines;
    var line := e.prefix + [NUL] + Join(Fields(e), NUL);
    CommitRoundTrip(e);
    assert PrintEntry(e) + tail == e.connectors + ([line] + tail);
    ConnectorsThenRest(e.connectors, [], [line] + tail);
    assert [] + e.connectors == e.connectors;
    CommitLineFirst(line, tail, e.connectors);
  }

  lemma CommitLineFirst(line: string, tail: seq<string>, pending: seq<string>)
    requires NUL in line
    ensures ParseLines([line] + tail, pending) == [ParseCommit(pending, line)] + ParseLines(tail, [])
  {
    var i :| 0 <= i < |line| && line[i] == NUL;
    assert !IsSpace(line[i]);
    assert ([line] + tail)[1..] == tail;
    hide ParseCommit;
  }

  lemma EntryLinesAreOneLine(e: Entry)
    requires CleanEntry(e)
    ensures forall l | l in PrintEntry(e) :: '\n' !in l
  {
    DigitsAreClean(Decimal(e.time));
    DecorationsAreClean(e.decorations);
    JoinIsClean(Fields(e), '\n', NUL);
    forall c | c in e.connectors ensures '\n' !in c { assert GraphLine(c); }
  }

  lemma {:induction false} PrintedLinesAreOneLine(es: seq<Entry>)
    requires forall e | e in es :: CleanEntry(e)
    ensures forall l | l in PrintEntries(es) :: '\n' !in l
  {
    if es != [] {
      assert CleanEntry(es[0]);
      EntryLinesAreOneLine(es[0]);
      PrintedLinesAreOneLine(es[1..]);
    }
  }

  /**
   * Parsing what git prints for a list of commits, with any connector lines before each and any NUL-free lines after
   * the last, gives back exactly those commits, their graphs and their refs. Their times come back unchanged exactly
   * when doubles can hold them.
   */
  lemma GraphLogRoundTrip(es: seq<Entry>, trailing: seq<string>)
    requires forall e | e in es :: CleanEntry(e)
    requires forall l | l in trailing :: Clean(l)
    ensures var commits := ParseLines(Split(Join(PrintEntries(es) + trailing, '\n'), '\n'), []);
      && commits == CommitsOf(es)
      && ((forall i | 0 <= i < |es| :: commits[i].timestamp == Finite(es[i].time))
          <==> forall e | e in es :: Representable(e.time))
  {
    ParsesToCommits(es, trailing);
    TimesExactly(es);
    hide ParseLines, CommitOf, PrintEntries, CleanEntry, Representable;
  }

  lemma TimesExactly(es: seq<Entry>)
    ensures (forall i | 0 <= i < |es| :: CommitsOf(es)[i].timestamp == Finite(es[i].time))
            <==> forall e | e in es :: Representable(e.time)
  {
    forall i | 0 <= i < |es|
      ensures CommitsOf(es)[i].timestamp == Finite(es[i].time) <==> Representable(es[i].time)
    {
      ReadExactly(es[i].time);
      hide ToNumber, Representable;
    }
    hide CommitsOf, Representable;
  }

  /** Times below 2^53 are unchanged; 2^53 + 1 is not. */
  lemma LargeTimeIsRounded(e: Entry)
    requires CleanEntry(e)
    ensures var timestamp := ParseCommit(e.connectors, e.prefix + [NUL] + Join(Fields(e), NUL)).timestamp;
      && (e.time < SafeLimit() ==> timestamp == Finite(e.time))
      && (e.time == 9_007_199_254_740_993 ==> timestamp == Finite(9_007_199_254_740_992))
  {
    CommitRoundTrip(e);
    if e.time < SafeLimit() { ExactNumber(e.time); }
    FirstRounded();
    hide ToNumber, SafeLimit;
  }

  lemma ParsesToCommits(es: seq<Entry>, trailing: seq<string>)
    requires forall e | e in es :: CleanEntry(e)
    requires forall l | l in trailing :: Clean(l)
    ensures ParseLines(Split(Join(PrintEntries(es) + trailing, '\n'), '\n'), []) == CommitsOf(es)
  {
    var lines := PrintEntries(es) + trailing;
    EntriesRoundTrip(es, trailing);
    if es != [] { assert PrintEntry(es[0]) != []; }
    if lines == [] {
      assert Split(Join(lines, '\n'), '\n') == [""];
    } else {
      PrintedLinesAreOneLine(es);
      SplitJoin(lines, '\n');
    }
  }

  // ---- getLog: one line per commit, --format=%H %s %ct ----

  /** A timestamp that is not a number is None. */
  datatype LogRow = LogRow(sha: string, message: string, timestamp: Option<Number>)

  datatype Logged = Logged(sha: string, subject: string, time: nat)

  /** line.indexOf(' '), the length of the line when there is none. */
  function FirstBlank(line: string): (i: nat)
    ensures i <= |line| && (i < |line| ==> line[i] == ' ') && ' ' !in line[..i]
  {
    if line == "" || line[0] == ' ' then 0
    else
      var i := 1 + FirstBlank(line[1..]);
      assert line[..i] == [line[0]] + line[1..][..i - 1];
      i
  }

  /** line.lastIndexOf(' '), or -1. */
  function LastBlank(line: string): (i: int)
    ensures -1 <= i < |line| && (0 <= i ==> line[i] == ' ')
  {
    if line == "" then -1
    else if line[|line| - 1] == ' ' then |line| - 1
    else LastBlank(line[..|line| - 1])
  }

  /** s.slice(0, end), where a negative end counts from the back. */
  function SliceTo(s: string, end: int): string {
    if end < 0 then (if |s| + end < 0 then "" else s[..|s| + end])
    else if end <= |s| then s[..end] else s
  }

  function ParseRow(line: string): LogRow {
    var first := FirstBlank(line);
    // Without a blank, indexOf gives -1: the last character is cut off the sha and the rest is the whole line.
    var sha := if first == |line| then SliceTo(line, -1) else line[..first];
    var rest := if first == |line| then line else line[first + 1..];
    var last := LastBlank(rest);
    LogRow(sha, SliceTo(rest, last), NumberOf(rest[last + 1..]))
  }

  /** A row without a second blank, or without any: indexOf gives -1, and what is cut off is the last character. */
  lemma ShortRow(sha: string, rest: string)
    requires ' ' !in sha && ' ' !in rest
    ensures ParseRow(sha + [' '] + rest) == LogRow(sha, ButLast(rest), NumberOf(rest))
    ensures ParseRow(rest) == LogRow(ButLast(rest), ButLast(rest), NumberOf(rest))
  {
    FirstBlankAfter(sha, rest);
    NoBlankIn(rest);
    hide FirstBlank, LastBlank, NumberOf;
    var line := sha + [' '] + rest;
    assert line[..|sha|] == sha && line[|sha| + 1..] == rest && rest[0..] == rest;
  }

  function ButLast(s: string): string { if s == "" then "" else s[..|s| - 1] }

  lemma {:induction false} NoBlankIn(s: string)
    requires ' ' !in s
    ensures FirstBlank(s) == |s| && LastBlank(s) == -1
  {
    if s != "" {
      NoBlankIn(s[1..]);
      NoLastBlank(s);
    }
  }

  lemma {:induction false} NoLastBlank(s: string)
    requires ' ' !in s
    ensures LastBlank(s) == -1
  {
    if s != "" { NoLastBlank(s[..|s| - 1]); }
  }

  function ParseRows(lines: seq<string>): seq<LogRow> {
    if lines == [] then []
    else if lines[0] == "" then ParseRows(lines[1..])
    else [ParseRow(lines[0])] + ParseRows(lines[1..])
  }

  function ParseLog(stdout: string): seq<LogRow> {
    ParseRows(Split(Trim(stdout), '\n'))
  }

  function PrintRow(row: Logged): string {
    row.sha + [' '] + (row.subject + [' '] + Decimal(row.time))
  }

  function PrintRows(rows: seq<Logged>): seq<string> {
    if rows == [] then [] else [PrintRow(rows[0])] + PrintRows(rows[1..])
  }

  function RowOf(row: Logged): LogRow { LogRow(row.sha, row.subject, Some(ToNumber(row.time))) }

  function RowsOf(rows: seq<Logged>): (parsed: seq<LogRow>)
    ensures |parsed| == |rows| && forall i | 0 <= i < |rows| :: parsed[i] == RowOf(rows[i])
  {
    if rows == [] then [] else [RowOf(rows[0])] + RowsOf(rows[1..])
  }

  /** A hash without blanks, and a one-line subject that may hold any blanks. */
  predicate CleanRow(row: Logged) {
    row.sha != "" && (forall i | 0 <= i < |row.sha| :: !IsSpace(row.sha[i])) && '\n' !in row.subject
  }

  lemma FirstBlankAfter(head: string, rest: string)
    requires ' ' !in head
    ensures FirstBlank(head + [' '] + rest) == |head|
  {
    var s := head + [' '] + rest;
    assert forall i | 0 <= i < |head| :: s[i] == head[i];
    assert forall i | 0 <= i < FirstBlank(s) :: s[i] in s[..FirstBlank(s)];
    assert s[|head|] == ' ';
  }

  lemma {:induction false} LastBlankBefore(head: string, tail: string)
    requires ' ' !in tail
    ensures LastBlank(head + [' '] + tail) == |head|
  {
    var s := head + [' '] + tail;
    if tail != "" {
      assert s[..|s| - 1] == head + [' '] + tail[..|tail| - 1];
      LastBlankBefore(head, tail[..|tail| - 1]);
    }
  }

  lemma RowOfParts(sha: string, message: string, digits: string)
    requires ' ' !in sha && ' ' !in digits
    ensures ParseRow(sha + [' '] + (message + [' '] + digits)) == LogRow(sha, message, NumberOf(digits))
  {
    var rest := message + [' '] + digits;
    var line := sha + [' '] + rest;
    FirstBlankAfter(sha, rest);
    assert line[..|sha|] == sha && line[|sha| + 1..] == rest;
    LastBlankBefore(message, digits);
    assert rest[..|message|] == message && rest[|message| + 1..] == digits;
  }

  lemma RowRoundTrip(row: Logged)
    requires CleanRow(row)
    ensures ParseRow(PrintRow(row)) == RowOf(row)
  {
    var digits := Decimal(row.time);
    DigitsAreClean(digits);
    RowOfParts(row.sha, row.subject, digits);
    NumberRoundTrip(row.time);
    hide ToNumber, ParseRow;
  }

  lemma RowIsOneLine(row: Logged)
    requires CleanRow(row)
    ensures '\n' !in PrintRow(row) && PrintRow(row) != ""
    ensures PrintRow(row)[0] == row.sha[0] && IsDigit(PrintRow(row)[|PrintRow(row)| - 1])
  {
    var digits := Decimal(row.time);
    DigitsAreClean(digits);
    var line := PrintRow(row);
    assert line[|line| - 1] == digits[|digits| - 1];
  }

  lemma {:induction false} RowsRoundTrip(rows: seq<Logged>)
    requires forall r | r in rows :: CleanRow(r)
    ensures ParseRows(PrintRows(rows)) == RowsOf(rows)
    ensures forall l | l in PrintRows(rows) :: '\n' !in l
  {
    hide ParseRow, PrintRow, RowOf;
    if rows != [] {
      var line := PrintRow(rows[0]);
      RowRoundTrip(rows[0]);
      RowIsOneLine(rows[0]);
      RowsRoundTrip(rows[1..]);
      assert ([line] + PrintRows(rows[1..]))[1..] == PrintRows(rows[1..]);
    }
  }

  /** The printed log starts with a hash and ends with a digit. */
  lemma {:induction false} PrintedEnds(rows: seq<Logged>)
    requires rows != [] && forall r | r in rows :: CleanRow(r)
    ensures Join(PrintRows(rows), '\n') != ""
    ensures Join(PrintRows(rows), '\n')[0] == PrintRow(rows[0])[0]
    ensures var s := Join(PrintRows(rows), '\n'); IsDigit(s[|s| - 1])
  {
    var line := PrintRow(rows[0]);
    RowIsOneLine(rows[0]);
    assert PrintRows(rows) == [line] + PrintRows(rows[1..]);
    if |rows| > 1 {
      PrintedEnds(rows[1..]);
      var s := Join(PrintRows(rows[1..]), '\n');
      assert PrintRows(rows[1..]) != [];
      assert Join(PrintRows(rows), '\n') == line + ['\n'] + s;
      assert (line + ['\n'] + s)[|line| + |s|] == s[|s| - 1];
    } else {
      assert PrintRows(rows[1..]) == [];
    }
  }

  lemma VisibleEnds(s: string)
    requires s != "" && !IsSpace(s[0]) && IsDigit(s[|s| - 1])
    ensures Trim(s) == s && Trim(s + "\n") == s && Trim(s + "") == s
  {
    TrimEndAppend(s, "\n");
    TrimVisible(s);
    assert s + "" == s;
  }

  /**
   * Reading the printed log, with or without a newline at its end, gives back the same rows. Their times come back
   * unchanged exactly when doubles can hold them.
   */
  lemma LogRoundTrip(rows: seq<Logged>, newline: bool)
    requires forall r | r in rows :: CleanRow(r)
    ensures var parsed := ParseLog(Join(PrintRows(rows), '\n') + (if newline then "\n" else ""));
      && parsed == RowsOf(rows)
      && ((forall i | 0 <= i < |rows| :: parsed[i].timestamp == Some(Finite(rows[i].time)))
          <==> forall r | r in rows :: Representable(r.time))
  {
    ParsesToRows(rows, newline);
    forall i | 0 <= i < |rows|
      ensures RowsOf(rows)[i].timestamp == Some(Finite(rows[i].time)) <==> Representable(rows[i].time)
    {
      ReadExactly(rows[i].time);
      hide ToNumber, Representable;
    }
    hide RowsOf, Representable, ParseLog, CleanRow, PrintRows;
  }

  lemma ParsesToRows(rows: seq<Logged>, newline: bool)
    requires forall r | r in rows :: CleanRow(r)
    ensures ParseLog(Join(PrintRows(rows), '\n') + (if newline then "\n" else "")) == RowsOf(rows)
  {
    if rows == [] {
      assert Split("", '\n') == [""];
      assert ParseRows([]) == [];
    } else {
      PrintedEnds(rows);
      RowIsOneLine(rows[0]);
      VisibleEnds(Join(PrintRows(rows), '\n'));
      RowsRoundTrip(rows);
      assert PrintRows(rows) != [];
      SplitJoin(PrintRows(rows), '\n');
    }
  }
}
