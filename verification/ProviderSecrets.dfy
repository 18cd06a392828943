/** parseProvidersFromToml of readProviderSecrets.js: the reader of the file that the binding upsert rewrites. */
module ProviderSecrets {
  import opened Text
  import opened Wrappers

  const MARK := "[[providers]]"

  // ---- One line of a provider table ----

  datatype Value = Quoted(text: string) | Flag(on: bool)
  type Entry = map<string, Value>

  predicate IsWordChar(c: char) {
    'a' <= c <= 'z' || 'A' <= c <= 'Z' || '0' <= c <= '9' || c == '_'
  }

  /** Length of the longest prefix of word characters. */
  function WordLength(s: string): (n: nat)
    ensures n <= |s|
  {
    if s == "" || !IsWordChar(s[0]) then 0 else 1 + WordLength(s[1..])
  }

  /** The text up to the closing quote, where a backslash takes the next character with it. */
  function UpToQuote(s: string): Option<string> {
    if s == "" then None
    else if s[0] == '"' then Some("")
    else
      var step := if s[0] == '\\' then 2 else 1;
      if step == 2 && (|s| < 2 || s[1] == '\n' || s[1] == '\r' || s[1] as int in {0x2028, 0x2029}) then None
      else
        var rest := UpToQuote(s[step..]);
        if rest.None? then None else Some(s[..step] + rest.value)
  }

  /** value.replace(/\\"/g, '"') */
  function Unescape(s: string): string {
    if |s| < 2 then s
    else if s[0] == '\\' && s[1] == '"' then "\"" + Unescape(s[2..])
    else [s[0]] + Unescape(s[1..])
  }

  /** What follows the key and the equals sign, with the key. */
  function Assignment(line: string): Option<(string, string)> {
    var n := WordLength(line);
    var rest := TrimStart(line[n..]);
    if n == 0 || rest == "" || rest[0] != '=' then None else Some((line[..n], TrimStart(rest[1..])))
  }

  /** entry[key] = value; a string or a boolean is no prototype, so assigning it to __proto__ does nothing. */
  function Assign(entry: Entry, key: string, value: Value): Entry {
    if key == "__proto__" then entry else entry[key := value]
  }

  function WithLine(entry: Entry, line: string): Entry {
    var trimmed := Trim(line);
    if trimmed == "" || trimmed[0] == '#' then entry
    else
      match Assignment(trimmed)
      case None => entry
      case Some((key, rest)) =>
        if rest != "" && rest[0] == '"' && UpToQuote(rest[1..]).Some?
        then Assign(entry, key, Quoted(Unescape(UpToQuote(rest[1..]).value)))
        else if rest == "true" || rest == "false" then Assign(entry, key, Flag(rest == "true"))
        else entry
  }

  function WithLines(entry: Entry, lines: seq<string>): Entry
    decreases |lines|
  {
    if lines == [] then entry else WithLines(WithLine(entry, lines[0]), lines[1..])
  }

  /** entry.name is truthy. */
  predicate Named(entry: Entry) {
    "name" in entry && entry["name"] != Quoted("") && entry["name"] != Flag(false)
  }

  // ---- The whole text ----

  /** text.split(/\[\[providers\]\]/) */
  function SplitAtMark(text: string): (parts: seq<string>)
    ensures parts != []
  {
    if MARK <= text then [""] + SplitAtMark(text[13..])
    else if text == "" then [""]
    else
      var rest := SplitAtMark(text[1..]);
      [[text[0]] + rest[0]] + rest[1..]
  }

  /** The block up to the newline in front of the next line that starts with two brackets. */
  function Section(block: string): string {
    if block == "" || (|block| >= 3 && block[0] == '\n' && block[1] == '[' && block[2] == '[') then ""
    else [block[0]] + Section(block[1..])
  }

  function ParseBlock(block: string): Entry {
    WithLines(map[], Split(Section(block), '\n'))
  }

  function ParseBlocks(blocks: seq<string>): seq<Entry> {
    if blocks == [] then []
    else (if Named(ParseBlock(blocks[0])) then [ParseBlock(blocks[0])] else []) + ParseBlocks(blocks[1..])
  }

  function ParseProviders(text: string): seq<Entry> {
    ParseBlocks(SplitAtMark(text)[1..])
  }

  method ParseProvidersFromToml(text: string) returns (providers: seq<Entry>)
    ensures providers == ParseProviders(text)
  {
    hide SplitAtMark, WithLine, WithLines, Named, Section, Split, ParseBlocks;
    providers := [];
    var blocks := SplitAtMark(text)[1..];
    assert blocks[0..] == blocks;
    for b := 0 to |blocks|
      invariant ParseBlocks(blocks) == providers + ParseBlocks(blocks[b..])
    {
      var entry: Entry := map[];
      var lines := Split(Section(blocks[b]), '\n');
      assert lines[0..] == lines;
      for k := 0 to |lines|
        invariant WithLines(map[], lines) == WithLines(entry, lines[k..])
      {
        NextLine(entry, lines, k);
        entry := WithLine(entry, lines[k]);
      }
      assert lines[|lines|..] == [];
      NextBlock(blocks, b, entry);
      if Named(entry) {
        providers := providers + [entry];
      }
    }
    assert blocks[|blocks|..] == [];
    NoBlocks();
  }

  lemma NextLine(entry: Entry, lines: seq<string>, k: nat)
    requires k < |lines|
    ensures WithLines(entry, lines[k..]) == WithLines(WithLine(entry, lines[k]), lines[k + 1..])
  {
    assert lines[k..][1..] == lines[k + 1..];
  }

  lemma NextBlock(blocks: seq<string>, b: nat, entry: Entry)
    requires b < |blocks|
    requires WithLines(entry, []) == ParseBlock(blocks[b])
    ensures ParseBlocks(blocks[b..]) == (if Named(entry) then [entry] else []) + ParseBlocks(blocks[b + 1..])
  {
    assert blocks[b..][1..] == blocks[b + 1..];
  }

  lemma NoBlocks()
    ensures ParseBlocks([]) == []
  {
  }

  // ---- The same, line by line ----

  predicate Opens(line: string) {
    |line| >= 2 && line[0] == '[' && line[1] == '['
  }

  function Finished(current: Option<Entry>): seq<Entry> {
    if current.Some? && Named(current.value) then [current.value] else []
  }

  /** The table being read after the text of a line before its first mark. */
  function Continued(current: Option<Entry>, start: string): Option<Entry> {
    if current.None? || Opens(start) then None else Some(WithLine(current.value, start))
  }

  /** Each mark in a line ends the table being read and starts another, which reads the text up to the next mark. */
  function EndedByMarks(current: Option<Entry>, pieces: seq<string>): seq<Entry>
    decreases |pieces|
  {
    if pieces == [] then []
    else Finished(current) + EndedByMarks(Some(WithLine(map[], pieces[0])), pieces[1..])
  }

  function AfterMarks(current: Option<Entry>, pieces: seq<string>): Option<Entry> {
    if pieces == [] then current else Some(WithLine(map[], pieces[|pieces| - 1]))
  }

  /** The providers that end in a line with these pieces. */
  function EndedIn(current: Option<Entry>, pieces: seq<string>): seq<Entry>
    requires pieces != []
  {
    (if Opens(pieces[0]) then Finished(current) else []) + EndedByMarks(Continued(current, pieces[0]), pieces[1..])
  }

  /** The provider table being read after it. */
  function OpenAfter(current: Option<Entry>, pieces: seq<string>): Option<Entry>
    requires pieces != []
  {
    AfterMarks(Continued(current, pieces[0]), pieces[1..])
  }

  function Ended(current: Option<Entry>, line: string): seq<Entry> { EndedIn(current, SplitAtMark(line)) }

  function Next(current: Option<Entry>, line: string): Option<Entry> { OpenAfter(current, SplitAtMark(line)) }

  /** Reading the lines with the provider table, if any, that they continue. */
  function ProvidersFrom(lines: seq<string>, current: Option<Entry>): seq<Entry> {
    if lines == [] then Finished(current)
    else Ended(current, lines[0]) + ProvidersFrom(lines[1..], Next(current, lines[0]))
  }

  function UntilOpen(lines: seq<string>): seq<string> {
    if lines == [] || Opens(lines[0]) then [] else [lines[0]] + UntilOpen(lines[1..])
  }

  lemma {:induction false} SectionLines(block: string)
    ensures Split(Section(block), '\n') == [Split(block, '\n')[0]] + UntilOpen(Split(block, '\n')[1..])
  {
    if block == "" {
    } else {
      var rest := block[1..];
      var S := Split(rest, '\n');
      SectionLines(rest);
      assert block == [block[0]] + rest;
      SplitFirst(block[0], rest, '\n');
      if |block| >= 3 && block[0] == '\n' && block[1] == '[' && block[2] == '[' {
        FirstLineOpens(rest);
        assert ([""] + S)[1..] == S;
      } else {
        SplitFirst(block[0], Section(rest), '\n');
        if block[0] == '\n' {
          FirstLineIsPrefix(rest);
          assert ([""] + S)[1..] == S;
          assert S == [S[0]] + S[1..];
        } else {
          assert ([[block[0]] + S[0]] + S[1..])[1..] == S[1..];
        }
      }
    }
  }

  lemma FirstLineOpens(text: string)
    requires |text| >= 2 && text[0] == '[' && text[1] == '['
    ensures Opens(Split(text, '\n')[0])
  {
    assert text == ['['] + text[1..] && text[1..] == ['['] + text[2..];
    SplitFirst('[', text[1..], '\n');
    SplitFirst('[', text[2..], '\n');
  }

  lemma {:induction false} FirstLineIsPrefix(text: string)
    ensures Split(text, '\n')[0] <= text
  {
    if text != "" {
      FirstLineIsPrefix(text[1..]);
    }
  }

  /** The last piece goes on. */
  function Padded(pieces: seq<string>, more: string): seq<string>
    requires pieces != []
  {
    pieces[..|pieces| - 1] + [pieces[|pieces| - 1] + more]
  }

  lemma PaddedFirst(first: string, pieces: seq<string>, more: string)
    requires pieces != []
    ensures Padded([first] + pieces, more) == [first] + Padded(pieces, more)
  {
    var all := [first] + pieces;
    assert all[..|all| - 1] == [first] + pieces[..|pieces| - 1];
  }

  lemma PaddedLonger(c: char, pieces: seq<string>, more: string)
    requires pieces != []
    ensures var G := Padded(pieces, more);
      G != [] && Padded([[c] + pieces[0]] + pieces[1..], more) == [[c] + G[0]] + G[1..]
  {
    var longer := [[c] + pieces[0]] + pieces[1..];
    if |pieces| == 1 {
      assert [c] + (pieces[0] + more) == [c] + pieces[0] + more;
      assert longer[..0] == [] && pieces[..0] == [];
    } else {
      assert longer[..|longer| - 1] == [[c] + pieces[0]] + pieces[1..|pieces| - 1];
      assert pieces[..|pieces| - 1] == [pieces[0]] + pieces[1..|pieces| - 1];
    }
  }

  /** The pieces of a line, the last of which goes on with what follows the line break. */
  function Glued(pieces: seq<string>, rest: seq<string>): seq<string>
    requires pieces != [] && rest != []
  {
    Padded(pieces, "\n" + rest[0]) + rest[1..]
  }

  lemma GluedFirst(first: string, pieces: seq<string>, rest: seq<string>)
    requires pieces != [] && rest != []
    ensures Glued([first] + pieces, rest) == [first] + Glued(pieces, rest)
  {
    PaddedFirst(first, pieces, "\n" + rest[0]);
  }

  lemma GluedLonger(c: char, pieces: seq<string>, rest: seq<string>)
    requires pieces != [] && rest != []
    ensures var G := Glued(pieces, rest);
      G != [] && Glued([[c] + pieces[0]] + pieces[1..], rest) == [[c] + G[0]] + G[1..]
  {
    PaddedLonger(c, pieces, "\n" + rest[0]);
    hide Padded;
  }

  /** No mark lies across a line break. */
  lemma {:induction false} LineThenRest(line: string, rest: string)
    requires '\n' !in line
    ensures SplitAtMark(line + ("\n" + rest)) == Glued(SplitAtMark(line), SplitAtMark(rest))
    decreases |line|
  {
    hide Glued;
    var text := line + ("\n" + rest);
    NoMarkAcross(line, rest);
    if MARK <= line {
      assert text[13..] == line[13..] + ("\n" + rest);
      LineThenRest(line[13..], rest);
      GluedFirst("", SplitAtMark(line[13..]), SplitAtMark(rest));
    } else if line == "" {
      assert text[1..] == rest;
      BreakFirst(SplitAtMark(rest));
    } else {
      assert text[1..] == line[1..] + ("\n" + rest);
      LineThenRest(line[1..], rest);
      GluedLonger(line[0], SplitAtMark(line[1..]), SplitAtMark(rest));
    }
  }

  lemma NoMarkAcross(line: string, rest: string)
    requires '\n' !in line
    ensures MARK <= line + ("\n" + rest) <==> MARK <= line
  {
    var text := line + ("\n" + rest);
    assert |line| >= 13 || text[|line|] != MARK[|line|];
    assert |line| < 13 || text[..13] == line[..13];
  }

  lemma BreakFirst(rest: seq<string>)
    requires rest != []
    ensures Glued([""], rest) == [['\n'] + rest[0]] + rest[1..]
  {
    assert "" + ("\n" + rest[0]) == ['\n'] + rest[0];
  }

  /** The providers found from the blocks between marks, given the table they continue. */
  function FromBlocks(blocks: seq<string>, current: Option<Entry>): seq<Entry>
    requires blocks != []
  {
    Finished(if current.None? then None else Some(WithLines(current.value, UntilOpen(Split(blocks[0], '\n')))))
    + ParseBlocks(blocks[1..])
  }

  lemma OneLineBlock(piece: string)
    requires '\n' !in piece
    ensures ParseBlock(piece) == WithLine(map[], piece)
  {
    SectionLines(piece);
    SplitOne(piece, '\n');
    hide WithLine, Section;
    assert [piece][1..] == [] && UntilOpen([]) == [] && [piece] + [] == [piece];
    assert WithLines(WithLine(map[], piece), []) == WithLine(map[], piece);
  }

  lemma FirstLineBlock(piece: string, rest: string)
    requires '\n' !in piece
    ensures ParseBlock(piece + ("\n" + rest)) == WithLines(WithLine(map[], piece), UntilOpen(Split(rest, '\n')))
  {
    var block := piece + ("\n" + rest);
    SectionLines(block);
    LinesOfFirst(piece, rest);
    hide WithLine, Section;
    var L := Split(rest, '\n');
    assert ([piece] + L)[1..] == L && ([piece] + UntilOpen(L))[1..] == UntilOpen(L);
  }

  lemma LinesOfFirst(piece: string, rest: string)
    requires '\n' !in piece
    ensures Split(piece + ("\n" + rest), '\n') == [piece] + Split(rest, '\n')
  {
    assert piece + ("\n" + rest) == piece + ['\n'] + rest;
    SplitAppend(piece, rest, '\n');
    SplitOne(piece, '\n');
  }

  /** The text of a line before its first mark, when no mark follows. */
  lemma StartStep(start: string, S: seq<string>, current: Option<Entry>)
    requires S != [] && '\n' !in start
    ensures FromBlocks([start + ("\n" + S[0])] + S[1..], current)
      == (if Opens(start) then Finished(current) else []) + FromBlocks(S, Continued(current, start))
  {
    hide WithLine, Split;
    LinesOfFirst(start, S[0]);
    var L := Split(S[0], '\n');
    assert ([start] + L)[1..] == L;
    assert UntilOpen([start] + L) == if Opens(start) then [] else [start] + UntilOpen(L);
    assert ([start] + UntilOpen(L))[1..] == UntilOpen(L);
    assert ([start + ("\n" + S[0])] + S[1..])[1..] == S[1..];
  }

  /** And when one does. */
  lemma StartThenMark(start: string, blocks: seq<string>, current: Option<Entry>)
    requires '\n' !in start
    ensures FromBlocks([start] + blocks, current)
      == (if Opens(start) then Finished(current) else []) + Finished(Continued(current, start)) + ParseBlocks(blocks)
  {
    hide WithLine;
    SplitOne(start, '\n');
    assert ([start] + blocks)[1..] == blocks;
    assert [start][1..] == [] && UntilOpen([]) == [];
    assert UntilOpen([start]) == if Opens(start) then [] else [start];
    if current.Some? { assert WithLines(WithLine(current.value, start), []) == WithLine(current.value, start); }
  }

  /** The pieces of a line after its first mark. */
  lemma {:induction false} MarksStep(pieces: seq<string>, S: seq<string>)
    requires pieces != [] && S != [] && forall p | p in pieces :: '\n' !in p
    ensures ParseBlocks(Glued(pieces, S))
      == EndedByMarks(Some(WithLine(map[], pieces[0])), pieces[1..]) + FromBlocks(S, AfterMarks(None, pieces))
    decreases |pieces|
  {
    hide WithLine, Split;
    var first := pieces[0];
    assert first in pieces;
    if |pieces| == 1 {
      assert Glued(pieces, S) == [first + ("\n" + S[0])] + S[1..];
      assert Glued(pieces, S)[1..] == S[1..];
      FirstLineBlock(first, S[0]);
      assert pieces[1..] == [];
    } else {
      var rest := pieces[1..];
      assert pieces == [first] + rest;
      GluedFirst(first, rest, S);
      MarksStep(rest, S);
      OneLineBlock(first);
      hide Glued, FromBlocks, ParseBlock;
      assert ([first] + Glued(rest, S))[1..] == Glued(rest, S);
    }
  }

  lemma PiecesAreOneLine(line: string)
    requires '\n' !in line
    ensures forall p | p in SplitAtMark(line) :: '\n' !in p
    decreases |line|
  {
  }

  lemma FirstMark(current: Option<Entry>, pieces: seq<string>)
    requires pieces != []
    ensures EndedByMarks(current, pieces) ==
        Finished(current) + EndedByMarks(Some(WithLine(map[], pieces[0])), pieces[1..])
    ensures AfterMarks(current, pieces) == AfterMarks(None, pieces)
  {
    hide WithLine;
  }

  lemma Regroup<T>(a: seq<T>, b: seq<T>, c: seq<T>, d: seq<T>)
    ensures a + b + (c + d) == a + (b + c) + d
  {
  }

  /** One line: what ends in it, and the table it leaves open. */
  lemma LineStep(line: string, S: seq<string>, current: Option<Entry>)
    requires S != [] && '\n' !in line
    ensures FromBlocks(Glued(SplitAtMark(line), S), current)
      == Ended(current, line) + FromBlocks(S, Next(current, line))
  {
    PiecesAreOneLine(line);
    PiecesStep(SplitAtMark(line), S, current);
    hide SplitAtMark, FromBlocks, Glued, EndedIn, OpenAfter;
  }

  lemma PiecesStep(P: seq<string>, S: seq<string>, current: Option<Entry>)
    requires P != [] && S != [] && forall p | p in P :: '\n' !in p
    ensures FromBlocks(Glued(P, S), current)
      == EndedIn(current, P) + FromBlocks(S, OpenAfter(current, P))
  {
    hide FromBlocks, WithLine, ParseBlocks, Finished, Opens, Continued;
    assert P[0] in P;
    var after := Continued(current, P[0]);
    var ended := if Opens(P[0]) then Finished(current) else [];
    if |P| == 1 {
      StartStep(P[0], S, current);
      assert Glued(P, S) == [P[0] + ("\n" + S[0])] + S[1..] && P[1..] == [];
      assert ended + [] == ended;
    } else {
      var rest := P[1..];
      assert P == [P[0]] + rest;
      GluedFirst(P[0], rest, S);
      StartThenMark(P[0], Glued(rest, S), current);
      hide Glued, EndedByMarks, AfterMarks;
      MarksStep(rest, S);
      FirstMark(after, rest);
      Regroup(ended, Finished(after), EndedByMarks(Some(WithLine(map[], rest[0])), rest[1..]),
              FromBlocks(S, AfterMarks(None, rest)));
    }
  }

  lemma {:induction false} MarksEnd(pieces: seq<string>)
    requires pieces != [] && forall p | p in pieces :: '\n' !in p
    ensures ParseBlocks(pieces) ==
        EndedByMarks(Some(WithLine(map[], pieces[0])), pieces[1..]) + Finished(AfterMarks(None, pieces))
    decreases |pieces|
  {
    hide WithLine, ParseBlock, EndedByMarks, AfterMarks, Finished;
    assert pieces[0] in pieces;
    OneLineBlock(pieces[0]);
    var rest := pieces[1..];
    var first := Some(WithLine(map[], pieces[0]));
    FirstBlockOf(pieces);
    if rest == [] {
      NoMarks(first, pieces[0]);
      NoBlocks();
      assert pieces == [pieces[0]];
    } else {
      MarksEnd(rest);
      FirstMark(first, rest);
      LastMark(pieces);
      hide ParseBlocks;
      var ended := EndedByMarks(Some(WithLine(map[], rest[0])), rest[1..]);
      assert Finished(first) + (ended + Finished(AfterMarks(None, rest)))
          == Finished(first) + ended + Finished(AfterMarks(None, rest));
    }
  }

  lemma FirstBlockOf(blocks: seq<string>)
    requires blocks != []
    ensures ParseBlocks(blocks) == Finished(Some(ParseBlock(blocks[0]))) + ParseBlocks(blocks[1..])
  {
    hide ParseBlock;
  }

  lemma NoMarks(current: Option<Entry>, piece: string)
    ensures EndedByMarks(current, []) == [] && AfterMarks(None, [piece]) == Some(WithLine(map[], piece))
  {
  }

  lemma LastMark(pieces: seq<string>)
    requires |pieces| > 1
    ensures AfterMarks(None, pieces) == AfterMarks(None, pieces[1..])
  {
    hide WithLine;
  }

  lemma LastLine(line: string, current: Option<Entry>)
    requires '\n' !in line
    ensures ProvidersFrom([line], current) == FromBlocks(SplitAtMark(line), current)
  {
    PiecesAreOneLine(line);
    LastPieces(SplitAtMark(line), current);
    hide SplitAtMark, FromBlocks, EndedIn, OpenAfter;
    assert [line][1..] == [];
    assert ProvidersFrom([], Next(current, line)) == Finished(Next(current, line));
  }

  lemma LastPieces(P: seq<string>, current: Option<Entry>)
    requires P != [] && forall p | p in P :: '\n' !in p
    ensures FromBlocks(P, current) == EndedIn(current, P) + Finished(OpenAfter(current, P))
  {
    hide FromBlocks, WithLine, Finished, Opens, Continued, ParseBlock;
    assert P == [P[0]] + P[1..] && P[0] in P;
    var after := Continued(current, P[0]);
    var ended := if Opens(P[0]) then Finished(current) else [];
    var rest := P[1..];
    StartThenMark(P[0], rest, current);
    if rest == [] {
      assert ended + [] == ended && ParseBlocks([]) == [];
      assert ended + Finished(after) + [] == ended + Finished(after);
    } else {
      MarksEnd(rest);
      FirstMark(after, rest);
      hide EndedByMarks, AfterMarks, ParseBlocks;
      Regroup(ended, Finished(after), EndedByMarks(Some(WithLine(map[], rest[0])), rest[1..]),
              Finished(AfterMarks(None, rest)));
    }
  }

  /** Splitting at marks reads the text line by line. */
  lemma {:induction false} ByLines(lines: seq<string>, current: Option<Entry>)
    requires lines != [] && forall l | l in lines :: '\n' !in l
    ensures ProvidersFrom(lines, current) == FromBlocks(SplitAtMark(Join(lines, '\n')), current)
    decreases |lines|
  {
    hide SplitAtMark, FromBlocks, Ended, Next, Glued;
    var line := lines[0];
    assert line in lines;
    if |lines| == 1 {
      LastLine(line, current);
      assert lines == [line];
    } else {
      var rest := Join(lines[1..], '\n');
      assert Join(lines, '\n') == line + ("\n" + rest);
      LineThenRest(line, rest);
      LineStep(line, SplitAtMark(rest), current);
      ByLines(lines[1..], Next(current, line));
    }
  }

  /** The providers of any text, read by an independent line reader. */
  lemma ProvidersByLines(text: string)
    ensures ParseProviders(text) == ProvidersFrom(Split(text, '\n'), None)
  {
    hide SplitAtMark;
    PartsHaveNoSep(text, '\n');
    JoinSplit(text, '\n');
    ByLines(Split(text, '\n'), None);
    var S := SplitAtMark(text);
    assert [] + ParseBlocks(S[1..]) == ParseBlocks(S[1..]);
  }
}
