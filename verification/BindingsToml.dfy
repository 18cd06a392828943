/**
 * agentServiceToml.js: line-level reading and rewriting of the [[bindings]] tables of the gateway file, as functions.
 * The methods of AgentServiceToml run the loops of the source and are proved against them.
 */
module BindingsToml {
  import opened Text
  import opened Wrappers

  // ---- One line ----

  /** /^\[\[bindings\]\]\s*$/ */
  predicate IsBindingsHeader(line: string) {
    TrimEnd(line) == "[[bindings]]"
  }

  predicate IsLineTerminator(c: char) {
    c == '\n' || c == '\r' || c as int == 0x2028 || c as int == 0x2029
  }

  /** /^\[\[.*\]\]\s*$/, where the dot matches no line terminator. */
  predicate IsHeader(line: string) {
    var t := TrimEnd(line);
    && |t| >= 4 && t[0] == '[' && t[1] == '[' && t[|t| - 2] == ']' && t[|t| - 1] == ']'
    && forall i | 2 <= i < |t| - 2 :: !IsLineTerminator(t[i])
  }

  /** The group of /^key\s*=\s*"([^"]*)"\s*$/ in the line, if it matches. */
  function ValueIn(line: string, key: string): Option<string> {
    var t := TrimEnd(line);
    if !(key <= t) then None
    else
      var afterKey := TrimStart(t[|key|..]);
      if afterKey == "" || afterKey[0] != '=' then None
      else
        var quoted := TrimStart(afterKey[1..]);
        if |quoted| >= 2 && quoted[0] == '"' && quoted[|quoted| - 1] == '"' && '"' !in quoted[1..|quoted| - 1]
        then Some(quoted[1..|quoted| - 1]) else None
  }

  /** tableValue: the value on the first line that has one for the key. */
  function TableValue(body: seq<string>, key: string): Option<string> {
    if body == [] then None
    else if ValueIn(body[0], key).Some? then ValueIn(body[0], key)
    else TableValue(body[1..], key)
  }

  // ---- The bindings of a file, in order ----

  datatype Binding = Binding(service: Option<string>, provider: Option<string>)

  function BindingOf(body: seq<string>): Binding {
    Binding(TableValue(body, "service_id"), TableValue(body, "provider_name"))
  }

  /** The table being read, if it is a bindings table, ends here. */
  function Closed(current: Option<seq<string>>): seq<Binding> {
    match current
    case None => []
    case Some(body) => [BindingOf(body)]
  }

  function Pushed(current: Option<seq<string>>, line: string): Option<seq<string>> {
    if current.Some? then Some(current.value + [line]) else None
  }

  /** What forEachBindingsTable visits in these lines, given the body of the bindings table it is in. */
  function BindingsFrom(lines: seq<string>, current: Option<seq<string>>): seq<Binding> {
    if lines == [] then Closed(current)
    else if IsHeader(lines[0]) then
      Closed(current) + BindingsFrom(lines[1..], if IsBindingsHeader(lines[0]) then Some([]) else None)
    else
      BindingsFrom(lines[1..], Pushed(current, lines[0]))
  }

  function Bindings(content: string): seq<Binding> {
    BindingsFrom(Split(content, '\n'), None)
  }

  // ---- Removing the bindings of one service ----

  /** How many of the lines come before the next table header. */
  function BodyLength(lines: seq<string>): (n: nat)
    ensures n <= |lines| && (n < |lines| ==> IsHeader(lines[n]))
    ensures forall i | 0 <= i < n :: !IsHeader(lines[i])
  {
    if lines == [] || IsHeader(lines[0]) then 0 else 1 + BodyLength(lines[1..])
  }

  /** The first line with the lines up to the next header, and the lines after those. */
  function Block(lines: seq<string>): (block: seq<string>)
    requires lines != []
    ensures block != [] && block[0] == lines[0]
  {
    lines[..1 + BodyLength(lines[1..])]
  }

  function AfterBlock(lines: seq<string>): (rest: seq<string>)
    requires lines != []
    ensures |rest| < |lines| && lines == Block(lines) + rest
  {
    lines[1 + BodyLength(lines[1..])..]
  }

  /** Nothing, if the block is a table of the service. */
  function KeptBlock(block: seq<string>, id: string): seq<string>
    requires block != []
  {
    if TableValue(block[1..], "service_id") == Some(id) then [] else block
  }

  function RemoveLines(lines: seq<string>, id: string): seq<string>
    decreases |lines|
  {
    if lines == [] then []
    else if IsBindingsHeader(lines[0]) then KeptBlock(Block(lines), id) + RemoveLines(AfterBlock(lines), id)
    else [lines[0]] + RemoveLines(lines[1..], id)
  }

  /** text.replace(/\n{3,}/g, '\n\n') */
  function Collapse(text: string): string {
    if text == "" then ""
    else if |text| >= 3 && text[0] == '\n' && text[1] == '\n' && text[2] == '\n' then Collapse(text[1..])
    else [text[0]] + Collapse(text[1..])
  }

  function WithoutQuotes(s: string): (r: string)
    ensures '"' !in r
  {
    if s == "" then ""
    else if s[0] == '"' then WithoutQuotes(s[1..]) else [s[0]] + WithoutQuotes(s[1..])
  }

  function RemoveBindings(content: string, agentId: string): string {
    var id := WithoutQuotes(agentId);
    if id == "" then content else Collapse(Join(RemoveLines(Split(content, '\n'), id), '\n'))
  }

  // ---- Appending ----

  predicate IsWord(c: char) {
    'a' <= c <= 'z' || 'A' <= c <= 'Z' || '0' <= c <= '9' || c == '_'
  }

  /** The whole of `m` matches /id\s*=\s*"id"/ for the given id. */
  predicate IsServiceId(m: string, id: string) {
    exists k :: 2 <= k < |m| && m[..2] == "id" && AllSpace(m[2..k]) && m[k] == '='
      && TrimStart(m[k + 1..]) == "\"" + id + "\""
  }

  /** Some part of the text starts at a word boundary and matches. */
  predicate HasServiceBlock(content: string, id: string) {
    exists i, e :: 0 <= i <= e <= |content| && (i == 0 || !IsWord(content[i - 1])) && IsServiceId(content[i..e], id)
  }

  function IdLine(key: string, value: string): string {
    key + " = \"" + value + "\""
  }

  function ServiceLines(id: string): seq<string> {
    ["", "[[services]]", IdLine("id", id), IdLine("name", id), "routing_strategy = \"round_robin\""]
  }

  function BindingLines(id: string, provider: string): seq<string> {
    ["", "[[bindings]]", IdLine("service_id", id), IdLine("provider_name", provider), "priority = 0"]
  }

  function Append(content: string, agentId: string, providerName: string): string {
    var id, provider := WithoutQuotes(agentId), WithoutQuotes(providerName);
    var services := if HasServiceBlock(content, id) then [] else ServiceLines(id);
    var bindings := if Binding(Some(id), Some(provider)) in Bindings(content) then [] else BindingLines(id, provider);
    if services + bindings == [] then content
    else TrimEnd(content) + "\n" + Join(services + bindings, '\n') + "\n"
  }

  function Upsert(content: string, agentId: string, providerName: string): string {
    Append(RemoveBindings(content, agentId), agentId, providerName)
  }

  // ---- Blank lines and trailing blanks do not matter ----

  /** The lines that are not blank, without trailing white space. */
  function Norm(lines: seq<string>): seq<string> {
    if lines == [] then []
    else (if TrimEnd(lines[0]) == "" then [] else [TrimEnd(lines[0])]) + Norm(lines[1..])
  }

  function NormBody(current: Option<seq<string>>): Option<seq<string>> {
    if current.None? then None else Some(Norm(current.value))
  }

  lemma {:induction false} NormAppend(xs: seq<string>, ys: seq<string>)
    ensures Norm(xs + ys) == Norm(xs) + Norm(ys)
  {
    hide TrimEnd;
    if xs == [] {
      assert xs + ys == ys;
    } else {
      assert (xs + ys)[1..] == xs[1..] + ys;
      NormAppend(xs[1..], ys);
    }
  }

  lemma TrimmedLine(line: string)
    ensures TrimEnd(TrimEnd(line)) == TrimEnd(line)
    ensures IsHeader(TrimEnd(line)) == IsHeader(line) && IsBindingsHeader(TrimEnd(line)) == IsBindingsHeader(line)
    ensures forall key :: ValueIn(TrimEnd(line), key) == ValueIn(line, key)
  {
    TrimEndTrimmed(TrimEnd(line));
  }

  lemma BlankLine(line: string, key: string)
    requires TrimEnd(line) == "" && key != ""
    ensures !IsHeader(line) && !IsBindingsHeader(line) && ValueIn(line, key) == None
  {
  }

  lemma {:induction false} TableValueNorm(body: seq<string>, key: string)
    requires key != ""
    ensures TableValue(Norm(body), key) == TableValue(body, key)
  {
    if body != [] {
      var line := body[0];
      TableValueNorm(body[1..], key);
      if TrimEnd(line) == "" {
        BlankLine(line, key);
        assert Norm(body) == Norm(body[1..]);
      } else {
        TrimmedLine(line);
        assert Norm(body)[1..] == Norm(body[1..]);
      }
    }
  }

  lemma NormOne(line: string)
    ensures Norm([line]) == if TrimEnd(line) == "" then [] else [TrimEnd(line)]
  {
    assert [line][1..] == [];
    assert [TrimEnd(line)] + [] == [TrimEnd(line)];
  }

  lemma NormPushed(current: Option<seq<string>>, line: string)
    ensures NormBody(Pushed(current, line)) ==
      if TrimEnd(line) == "" then NormBody(current) else Pushed(NormBody(current), TrimEnd(line))
  {
    if current.Some? {
      NormAppend(current.value, [line]);
      NormOne(line);
      assert Norm(current.value) + [] == Norm(current.value);
    }
  }

  lemma {:induction false} BindingsNorm(lines: seq<string>, current: Option<seq<string>>)
    ensures BindingsFrom(Norm(lines), NormBody(current)) == BindingsFrom(lines, current)
    decreases |lines|
  {
    if lines == [] {
      ClosedNorm(current);
    } else {
      var line := lines[0];
      NormPushed(current, line);
      if TrimEnd(line) == "" {
        BlankLine(line, "k");
        assert Norm(lines) == Norm(lines[1..]);
        BindingsNorm(lines[1..], Pushed(current, line));
      } else {
        TrimmedLine(line);
        assert Norm(lines) == [TrimEnd(line)] + Norm(lines[1..]);
        assert Norm(lines)[1..] == Norm(lines[1..]);
        if IsHeader(line) {
          ClosedNorm(current);
          BindingsNorm(lines[1..], if IsBindingsHeader(line) then Some([]) else None);
        } else {
          BindingsNorm(lines[1..], Pushed(current, line));
        }
      }
    }
  }

  lemma ClosedNorm(current: Option<seq<string>>)
    ensures Closed(NormBody(current)) == Closed(current)
  {
    if current.Some? {
      TableValueNorm(current.value, "service_id");
      TableValueNorm(current.value, "provider_name");
    }
  }

  // ---- Text edits that keep the lines that matter ----

  function NormText(text: string): seq<string> {
    Norm(Split(text, '\n'))
  }

  lemma {:induction false} CollapseKeepsLines(text: string)
    ensures Split(Collapse(text), '\n')[0] == Split(text, '\n')[0]
    ensures Norm(Split(Collapse(text), '\n')[1..]) == Norm(Split(text, '\n')[1..])
  {
    if text != "" {
      var rest := text[1..];
      CollapseKeepsLines(rest);
      assert text == [text[0]] + rest;
      SplitFirst(text[0], rest, '\n');
      if |text| >= 3 && text[0] == '\n' && text[1] == '\n' && text[2] == '\n' {
        var S := Split(rest, '\n');
        assert Split(text, '\n') == [""] + S;
        assert rest[0] == '\n';
        assert S[0] == "";
        assert Norm(S) == Norm(S[1..]);
        assert ([""] + S)[1..] == S;
      } else {
        SplitFirst(text[0], Collapse(rest), '\n');
        NormFirst(Split(Collapse(rest), '\n'), Split(rest, '\n'));
      }
    }
  }

  lemma NormFirst(xs: seq<string>, ys: seq<string>)
    requires xs != [] && ys != [] && xs[0] == ys[0] && Norm(xs[1..]) == Norm(ys[1..])
    ensures Norm(xs) == Norm(ys)
  {
  }

  lemma CollapseKeepsNorm(text: string)
    ensures NormText(Collapse(text)) == NormText(text)
  {
    CollapseKeepsLines(text);
    NormFirst(Split(Collapse(text), '\n'), Split(text, '\n'));
  }

  /** White space added at the end of a text adds no significant line. */
  lemma {:induction false} TrailingSpaceKeepsNorm(text: string, spaces: string)
    requires AllSpace(spaces)
    ensures NormText(text + spaces) == NormText(text)
    decreases |spaces|
  {
    if spaces == "" {
      assert text + spaces == text;
    } else {
      var c := spaces[0];
      TrailingSpaceKeepsNorm(text + [c], spaces[1..]);
      assert text + spaces == text + [c] + spaces[1..];
      OneSpaceKeepsNorm(text, c);
    }
  }

  lemma {:induction false} OneSpaceKeepsNorm(text: string, c: char)
    requires IsSpace(c)
    ensures NormText(text + [c]) == NormText(text)
  {
    if c == '\n' {
      assert text + [c] == text + ['\n'] + "";
      SplitAppend(text, "", '\n');
      NormAppend(Split(text, '\n'), [""]);
      assert [""][1..] == [];
    } else {
      LastLineGrows(text, c);
      var S := Split(text, '\n');
      var n := |S| - 1;
      TrimEndAppend(S[n], [c]);
      NormAppend(S[..n], [S[n]]);
      NormAppend(S[..n], [S[n] + [c]]);
      assert S == S[..n] + [S[n]];
      assert [S[n]][1..] == [] && [S[n] + [c]][1..] == [];
    }
  }

  lemma {:induction false} LastLineGrows(text: string, c: char)
    requires c != '\n'
    ensures var S := Split(text, '\n'); Split(text + [c], '\n') == S[..|S| - 1] + [S[|S| - 1] + [c]]
  {
    if text == "" {
      SplitOne([c], '\n');
      assert text + [c] == [c];
    } else {
      LastLineGrows(text[1..], c);
      assert text + [c] == [text[0]] + (text[1..] + [c]);
      SplitFirst(text[0], text[1..] + [c], '\n');
      assert text == [text[0]] + text[1..];
      SplitFirst(text[0], text[1..], '\n');
      hide Split;
      FirstLineGrows(text[0], Split(text[1..], '\n'), c);
    }
  }

  lemma FirstLineGrows(first: char, T: seq<string>, c: char)
    requires T != []
    ensures var S := [[first] + T[0]] + T[1..];
      var more := T[..|T| - 1] + [T[|T| - 1] + [c]];
      [[first] + more[0]] + more[1..] == S[..|S| - 1] + [S[|S| - 1] + [c]]
    ensures var S := [""] + T;
      [""] + (T[..|T| - 1] + [T[|T| - 1] + [c]]) == S[..|S| - 1] + [S[|S| - 1] + [c]]
  {
    if |T| == 1 { assert [first] + (T[0] + [c]) == ([first] + T[0]) + [c]; }
  }

  lemma TrimEndKeepsNorm(text: string)
    ensures NormText(TrimEnd(text)) == NormText(text)
  {
    var t := TrimEnd(text);
    assert text == t + text[|t|..];
    TrailingSpaceKeepsNorm(t, text[|t|..]);
  }

  lemma BindingsOfNorm(text: string)
    ensures Bindings(text) == BindingsFrom(NormText(text), None)
  {
    BindingsNorm(Split(text, '\n'), None);
  }

  // ---- Blocks ----

  predicate StartsTable(lines: seq<string>) {
    lines == [] || IsHeader(lines[0])
  }

  lemma BindingsHeaderIsHeader(line: string)
    requires IsBindingsHeader(line)
    ensures IsHeader(line)
  {
  }

  /** Tables after a header line are read independently of what came before it. */
  lemma {:induction false} BindingsAppend(xs: seq<string>, ys: seq<string>, current: Option<seq<string>>)
    requires StartsTable(ys)
    ensures BindingsFrom(xs + ys, current) == BindingsFrom(xs, current) + BindingsFrom(ys, None)
    decreases |xs|
  {
    hide IsHeader, IsBindingsHeader, BindingOf;
    if xs == [] {
      assert xs + ys == ys;
      if ys == [] { assert BindingsFrom(ys, None) == []; }
    } else {
      assert (xs + ys)[1..] == xs[1..] + ys;
      if IsHeader(xs[0]) {
        BindingsAppend(xs[1..], ys, if IsBindingsHeader(xs[0]) then Some([]) else None);
      } else {
        BindingsAppend(xs[1..], ys, Pushed(current, xs[0]));
      }
    }
  }

  lemma {:induction false} BodyIsRead(body: seq<string>, before: seq<string>)
    requires forall i | 0 <= i < |body| :: !IsHeader(body[i])
    ensures BindingsFrom(body, Some(before)) == [BindingOf(before + body)]
    decreases |body|
  {
    if body == [] {
      assert before + body == before;
    } else {
      BodyIsRead(body[1..], before + [body[0]]);
      assert before + [body[0]] + body[1..] == before + body;
    }
  }

  /** One bindings table: its header, its body, and nothing else. */
  lemma BlockBindings(block: seq<string>)
    requires block != [] && IsBindingsHeader(block[0])
    requires forall i | 1 <= i < |block| :: !IsHeader(block[i])
    ensures BindingsFrom(block, None) == [BindingOf(block[1..])]
  {
    BindingsHeaderIsHeader(block[0]);
    forall i | 0 <= i < |block[1..]| ensures !IsHeader(block[1..][i]) {
      assert block[1..][i] == block[i + 1];
    }
    BodyIsRead(block[1..], []);
    assert [] + block[1..] == block[1..];
    assert Closed(None) == [];
  }

  function Without(bs: seq<Binding>, id: string): seq<Binding> {
    if bs == [] then []
    else (if bs[0].service == Some(id) then [] else [bs[0]]) + Without(bs[1..], id)
  }

  lemma {:induction false} WithoutAppend(xs: seq<Binding>, ys: seq<Binding>, id: string)
    ensures Without(xs + ys, id) == Without(xs, id) + Without(ys, id)
  {
    if xs == [] {
      assert xs + ys == ys;
    } else {
      assert (xs + ys)[1..] == xs[1..] + ys;
      WithoutAppend(xs[1..], ys, id);
    }
  }

  /** A block holds no header but its first line, and a header follows it. */
  lemma FirstBlock(lines: seq<string>)
    requires lines != []
    ensures StartsTable(AfterBlock(lines))
    ensures forall i | 1 <= i < |Block(lines)| :: !IsHeader(Block(lines)[i])
  {
    hide IsHeader;
    var n := BodyLength(lines[1..]);
    var block := lines[..1 + n];
    forall i | 1 <= i < |block| ensures !IsHeader(block[i]) {
      assert block[i] == lines[1..][i - 1];
    }
    if 1 + n < |lines| { assert lines[1 + n..][0] == lines[1..][n]; }
  }

  lemma {:induction false} RemoveStartsTable(lines: seq<string>, id: string)
    requires StartsTable(lines)
    ensures StartsTable(RemoveLines(lines, id))
    decreases |lines|
  {
    hide IsHeader, IsBindingsHeader, Block, AfterBlock, TableValue;
    if lines != [] && IsBindingsHeader(lines[0]) {
      FirstBlock(lines);
      RemoveStartsTable(AfterBlock(lines), id);
      if KeptBlock(Block(lines), id) == [] {
        assert RemoveLines(lines, id) == RemoveLines(AfterBlock(lines), id);
      }
    }
  }

  lemma SkippedLine(line: string, rest: seq<string>)
    requires !IsBindingsHeader(line)
    ensures BindingsFrom([line] + rest, None) == BindingsFrom(rest, None)
  {
    assert ([line] + rest)[1..] == rest;
    assert Closed(None) + BindingsFrom(rest, None) == BindingsFrom(rest, None);
  }

  lemma BlockThenRest(block: seq<string>, rest: seq<string>)
    requires block != [] && IsBindingsHeader(block[0]) && StartsTable(rest)
    requires forall i | 1 <= i < |block| :: !IsHeader(block[i])
    ensures BindingsFrom(block + rest, None) == [BindingOf(block[1..])] + BindingsFrom(rest, None)
  {
    BindingsAppend(block, rest, None);
    BlockBindings(block);
  }

  lemma KeptBlockThenRest(block: seq<string>, rest: seq<string>, id: string)
    requires block != [] && IsBindingsHeader(block[0]) && StartsTable(rest)
    requires forall i | 1 <= i < |block| :: !IsHeader(block[i])
    ensures BindingsFrom(KeptBlock(block, id) + rest, None) ==
      Without([BindingOf(block[1..])], id) + BindingsFrom(rest, None)
  {
    hide IsHeader, IsBindingsHeader, TableValue, BindingsFrom;
    WithoutFirst(BindingOf(block[1..]), [], id);
    assert [BindingOf(block[1..])] + [] == [BindingOf(block[1..])];
    if KeptBlock(block, id) == [] {
      assert [] + rest == rest && [] + BindingsFrom(rest, None) == BindingsFrom(rest, None);
    } else {
      BlockThenRest(block, rest);
    }
  }

  /** Removing a service's tables removes exactly its bindings and keeps the others in order. */
  lemma {:induction false} RemoveLinesBindings(lines: seq<string>, id: string)
    ensures BindingsFrom(RemoveLines(lines, id), None) == Without(BindingsFrom(lines, None), id)
    decreases |lines|
  {
    hide IsHeader, IsBindingsHeader, Block, AfterBlock, KeptBlock, BindingOf;
    if lines == [] {
    } else if IsBindingsHeader(lines[0]) {
      var block, rest := Block(lines), AfterBlock(lines);
      FirstBlock(lines);
      RemoveLinesBindings(rest, id);
      RemoveStartsTable(rest, id);
      BlockThenRest(block, rest);
      KeptBlockThenRest(block, RemoveLines(rest, id), id);
      WithoutAppend([BindingOf(block[1..])], BindingsFrom(rest, None), id);
    } else {
      RemoveLinesBindings(lines[1..], id);
      SkippedLine(lines[0], lines[1..]);
      SkippedLine(lines[0], RemoveLines(lines[1..], id));
      assert lines == [lines[0]] + lines[1..];
    }
  }

  lemma WithoutFirst(b: Binding, rest: seq<Binding>, id: string)
    ensures Without([b] + rest, id) == (if b.service == Some(id) then [] else [b]) + Without(rest, id)
  {
    assert ([b] + rest)[1..] == rest;
  }
}
