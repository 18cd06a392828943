/** Which [[services]] table and which [[bindings]] table a missing agent is given. */
module ServiceBlocks {
  import opened Text
  import opened Wrappers
  import opened BindingsToml

  /** The part stands somewhere in the text. */
  predicate Contains(text: string, part: string) {
    exists i, j :: 0 <= i <= j <= |text| && text[i..j] == part
  }

  /** The id stands somewhere in the text between quotes. */
  predicate Quotes(content: string, id: string) { Contains(content, "\"" + id + "\"") }

  lemma SliceContains(text: string, from: nat, to: nat, part: string)
    requires from <= to <= |text| && Contains(text[from..to], part)
    ensures Contains(text, part)
  {
    var i, j :| 0 <= i <= j <= to - from && text[from..to][i..j] == part;
    var slice := text[from..to];
    assert forall k | 0 <= k < j - i :: slice[i..j][k] == slice[i + k] == text[from + i..from + j][k];
    assert slice[i..j] == text[from + i..from + j];
  }

  lemma SuffixContains(text: string, from: nat, part: string)
    requires from <= |text| && Contains(text[from..], part)
    ensures Contains(text, part)
  {
    assert text[from..] == text[from..|text|];
    SliceContains(text, from, |text|, part);
  }

  lemma TrimmedContains(text: string, part: string)
    requires Contains(TrimStart(text), part) || Contains(TrimEnd(text), part)
    ensures Contains(text, part)
  {
    TrimStartDropsSpace(text);
    if Contains(TrimStart(text), part) {
      SuffixContains(text, |text| - |TrimStart(text)|, part);
    } else {
      assert TrimEnd(text) == text[0..|TrimEnd(text)|];
      SliceContains(text, 0, |TrimEnd(text)|, part);
    }
  }

  lemma Itself(text: string)
    ensures Contains(text, text)
  {
    assert text[0..|text|] == text;
  }

  /** A service is found only where its id is quoted. */
  lemma FoundIsQuoted(content: string, id: string)
    requires HasServiceBlock(content, id)
    ensures Quotes(content, id)
  {
    hide IsServiceId, Contains;
    var i, e :| 0 <= i <= e <= |content| && (i == 0 || !IsWord(content[i - 1])) && IsServiceId(content[i..e], id);
    var m := content[i..e];
    FoundInMatch(m, id);
    SliceContains(content, i, e, "\"" + id + "\"");
  }

  lemma FoundInMatch(m: string, id: string)
    requires IsServiceId(m, id)
    ensures Quotes(m, id)
  {
    var k :| 2 <= k < |m| && m[..2] == "id" && AllSpace(m[2..k]) && m[k] == '='
             && TrimStart(m[k + 1..]) == "\"" + id + "\"";
    hide Contains, TrimStart, AllSpace;
    Itself("\"" + id + "\"");
    TrimmedContains(m[k + 1..], "\"" + id + "\"");
    SuffixContains(m, k + 1, "\"" + id + "\"");
  }

  // ---- Where a service is found ----

  predicate Lower(c: char) { c in "abcdefghijklmnopqrstuvwxyz" }

  predicate Upper(c: char) { c in "ABCDEFGHIJKLMNOPQRSTUVWXYZ" }

  predicate DigitOrScore(c: char) { c in "0123456789_" }

  /** A character of a word. */
  predicate Wordy(c: char) { Lower(c) || Upper(c) || DigitOrScore(c) }

  lemma LowerIs(c: char)
    ensures Lower(c) <==> 'a' <= c <= 'z'
  {
    var letters := "abcdefghijklmnopqrstuvwxyz";
    if 'a' <= c <= 'z' { assert letters[c as int - 'a' as int] == c; }
  }

  lemma UpperIs(c: char)
    ensures Upper(c) <==> 'A' <= c <= 'Z'
  {
    var letters := "ABCDEFGHIJKLMNOPQRSTUVWXYZ";
    if 'A' <= c <= 'Z' { assert letters[c as int - 'A' as int] == c; }
  }

  lemma DigitOrScoreIs(c: char)
    ensures DigitOrScore(c) <==> '0' <= c <= '9' || c == '_'
  {
    var letters := "0123456789_";
    if '0' <= c <= '9' { assert letters[c as int - '0' as int] == c; }
    if c == '_' { assert letters[10] == c; }
  }

  lemma WordyIs(c: char)
    ensures IsWord(c) <==> Wordy(c)
  {
    hide Lower, Upper, DigitOrScore;
    LowerIs(c);
    UpperIs(c);
    DigitOrScoreIs(c);
  }

  /** The assignment of the id. */
  function IdText(a: string, b: string, id: string): string {
    "id" + (a + ("=" + (b + ("\"" + id + "\""))))
  }

  /** It stands in the text, and no word character in front of it. */
  ghost predicate Names(content: string, id: string) {
    exists before, a, b, after ::
      && AllSpace(a) && AllSpace(b) && content == before + (IdText(a, b, id) + after)
      && (before != "" ==> !Wordy(before[|before| - 1]))
  }

  lemma CutAt(m: string, k: nat)
    requires 2 <= k < |m|
    ensures m == m[..2] + (m[2..k] + ([m[k]] + m[k + 1..]))
  {
  }

  lemma MatchIs(m: string, id: string) returns (a: string, b: string)
    requires IsServiceId(m, id)
    ensures AllSpace(a) && AllSpace(b) && m == IdText(a, b, id)
  {
    hide AllSpace, TrimStart;
    var k :| 2 <= k < |m| && m[..2] == "id" && AllSpace(m[2..k]) && m[k] == '='
             && TrimStart(m[k + 1..]) == "\"" + id + "\"";
    a := m[2..k];
    b := SpaceThen(m[k + 1..]);
    CutAt(m, k);
  }

  lemma IsMatch(a: string, b: string, id: string)
    requires AllSpace(a) && AllSpace(b)
    ensures IsServiceId(IdText(a, b, id), id)
  {
    var m, k := IdText(a, b, id), 2 + |a|;
    var quoted := "\"" + id + "\"";
    SpacesInFront(b, quoted);
    hide AllSpace, TrimStart, IsSpace;
    assert m[..2] == "id" && m[2..k] == a && m[k] == '=' && m[k + 1..] == b + quoted;
  }

  lemma Slices(content: string, i: nat, e: nat)
    requires i <= e <= |content|
    ensures content == content[..i] + (content[i..e] + content[e..])
  {
  }

  lemma FoundIsNamed(content: string, id: string)
    requires HasServiceBlock(content, id)
    ensures Names(content, id)
  {
    hide IsServiceId, AllSpace, IdText, Wordy, IsWord;
    var i, e :| 0 <= i <= e <= |content| && (i == 0 || !IsWord(content[i - 1])) && IsServiceId(content[i..e], id);
    var a, b := MatchIs(content[i..e], id);
    Slices(content, i, e);
    if i > 0 { WordyIs(content[i - 1]); }
    assert content[..i] != "" ==> !Wordy(content[..i][|content[..i]| - 1]);
  }

  lemma MiddleIs(before: string, middle: string, after: string)
    ensures (before + (middle + after))[|before|..|before| + |middle|] == middle
    ensures before != "" ==> (before + (middle + after))[|before| - 1] == before[|before| - 1]
  {
  }

  lemma FoundAt(content: string, id: string, i: nat, e: nat)
    requires i <= e <= |content| && (i > 0 ==> !IsWord(content[i - 1])) && IsServiceId(content[i..e], id)
    ensures HasServiceBlock(content, id)
  {
    hide IsServiceId, IsWord;
  }

  lemma AssignedIsFound(before: string, a: string, b: string, after: string, id: string)
    requires AllSpace(a) && AllSpace(b) && (before != "" ==> !Wordy(before[|before| - 1]))
    ensures HasServiceBlock(before + (IdText(a, b, id) + after), id)
  {
    hide IsServiceId, HasServiceBlock, AllSpace, IdText, Wordy, IsWord;
    var middle := IdText(a, b, id);
    IsMatch(a, b, id);
    MiddleIs(before, middle, after);
    if before != "" { WordyIs(before[|before| - 1]); }
    FoundAt(before + (middle + after), id, |before|, |before| + |middle|);
  }

  lemma NamedIsFound(content: string, id: string)
    requires Names(content, id)
    ensures HasServiceBlock(content, id)
  {
    hide HasServiceBlock, AllSpace, IdText, Wordy;
    var before, a, b, after :| AllSpace(a) && AllSpace(b) && content == before + (IdText(a, b, id) + after)
                               && (before != "" ==> !Wordy(before[|before| - 1]));
    AssignedIsFound(before, a, b, after, id);
  }

  /** A service is found exactly where its id is assigned, quoted, by a word `id` of its own. */
  lemma FoundExactly(content: string, id: string)
    ensures HasServiceBlock(content, id) <==> Names(content, id)
  {
    hide HasServiceBlock, Names;
    if HasServiceBlock(content, id) { FoundIsNamed(content, id); }
    if Names(content, id) { NamedIsFound(content, id); }
  }

  // ---- A binding names its service between quotes ----

  lemma ValueIsQuoted(line: string, key: string, value: string)
    requires ValueIn(line, key) == Some(value)
    ensures Quotes(line, value)
  {
    var t := TrimEnd(line);
    var afterKey := TrimStart(t[|key|..]);
    var quoted := TrimStart(afterKey[1..]);
    assert quoted == "\"" + value + "\"";
    hide Contains, TrimStart, TrimEnd;
    Itself(quoted);
    TrimmedContains(afterKey[1..], quoted);
    SuffixContains(afterKey, 1, quoted);
    TrimmedContains(t[|key|..], quoted);
    SuffixContains(t, |key|, quoted);
    TrimmedContains(line, quoted);
  }

  /** Some line holds the quoted id. */
  predicate LineQuotes(lines: seq<string>, id: string) {
    exists i :: 0 <= i < |lines| && Quotes(lines[i], id)
  }

  lemma {:induction false} TableIsQuoted(body: seq<string>, key: string, value: string)
    requires TableValue(body, key) == Some(value)
    ensures LineQuotes(body, value)
  {
    hide Quotes, ValueIn;
    if ValueIn(body[0], key).Some? {
      ValueIsQuoted(body[0], key, value);
    } else {
      TableIsQuoted(body[1..], key, value);
      var i :| 0 <= i < |body[1..]| && Quotes(body[1..][i], value);
      assert Quotes(body[i + 1], value);
    }
  }

  lemma LineQuotesMore(xs: seq<string>, ys: seq<string>, id: string)
    ensures LineQuotes(xs + ys, id) <==> LineQuotes(xs, id) || LineQuotes(ys, id)
  {
    hide Quotes;
    if LineQuotes(xs, id) {
      var i :| 0 <= i < |xs| && Quotes(xs[i], id);
      assert Quotes((xs + ys)[i], id);
    }
    if LineQuotes(ys, id) {
      var i :| 0 <= i < |ys| && Quotes(ys[i], id);
      assert Quotes((xs + ys)[|xs| + i], id);
    }
  }

  function Read(current: Option<seq<string>>): seq<string> { if current.Some? then current.value else [] }

  lemma {:induction false} BindingIsQuoted(lines: seq<string>, current: Option<seq<string>>, b: Binding)
    requires b in BindingsFrom(lines, current) && b.service.Some?
    ensures LineQuotes(Read(current) + lines, b.service.value)
    decreases |lines|
  {
    hide LineQuotes, Quotes, IsHeader, IsBindingsHeader;
    var id := b.service.value;
    LineQuotesMore(Read(current), lines, id);
    if b in Closed(current) && (lines == [] || IsHeader(lines[0])) {
      TableIsQuoted(current.value, "service_id", id);
    } else {
      assert lines == [lines[0]] + lines[1..];
      LineQuotesMore([lines[0]], lines[1..], id);
      if IsHeader(lines[0]) {
        var next := if IsBindingsHeader(lines[0]) then Some([]) else None;
        BindingIsQuoted(lines[1..], next, b);
        assert Read(next) + lines[1..] == lines[1..];
      } else {
        BindingIsQuoted(lines[1..], Pushed(current, lines[0]), b);
        if current.Some? {
          assert current.value + [lines[0]] + lines[1..] == current.value + lines;
        } else {
          assert [] + lines[1..] == lines[1..];
        }
      }
    }
  }

  lemma {:induction false} LineIsPart(content: string, i: nat) returns (from: nat, to: nat)
    requires i < |Split(content, '\n')|
    ensures from <= to <= |content| && content[from..to] == Split(content, '\n')[i]
    ensures i == 0 ==> from == 0
  {
    if content == "" {
      from, to := 0, 0;
    } else if content[0] == '\n' {
      if i == 0 {
        from, to := 0, 0;
      } else {
        from, to := LineIsPart(content[1..], i - 1);
        assert content[1..][from..to] == content[from + 1..to + 1];
        from, to := from + 1, to + 1;
      }
    } else {
      from, to := LineIsPart(content[1..], i);
      assert content[1..][from..to] == content[from + 1..to + 1];
      if i == 0 {
        assert content[0..to + 1] == [content[0]] + content[1..to + 1];
        from, to := 0, to + 1;
      } else {
        from, to := from + 1, to + 1;
      }
    }
  }

  /** A text in which the id is not quoted has no binding of it. */
  lemma BoundIsQuoted(content: string, b: Binding)
    requires b in Bindings(content) && b.service.Some?
    ensures Quotes(content, b.service.value)
  {
    var lines := Split(content, '\n');
    BindingIsQuoted(lines, None, b);
    hide Split, Bindings, BindingsFrom, Contains;
    assert [] + lines == lines;
    var i :| 0 <= i < |lines| && Quotes(lines[i], b.service.value);
    var from, to := LineIsPart(content, i);
    SliceContains(content, from, to, "\"" + b.service.value + "\"");
  }

  // ---- What is written ----

  /** The lines of the two tables. */
  function TableLines(id: string, provider: string): seq<string> {
    ["", "[[services]]", "id = \"" + id + "\"", "name = \"" + id + "\"", "routing_strategy = \"round_robin\"",
     "", "[[bindings]]", "service_id = \"" + id + "\"", "provider_name = \"" + provider + "\"", "priority = 0"]
  }

  lemma KeyLines(id: string, provider: string)
    ensures IdLine("id", id) == "id = \"" + id + "\"" && IdLine("name", id) == "name = \"" + id + "\""
    ensures IdLine("service_id", id) == "service_id = \"" + id + "\""
    ensures IdLine("provider_name", provider) == "provider_name = \"" + provider + "\""
  {
    assert "id" + " = \"" == "id = \"" && "name" + " = \"" == "name = \"";
    assert "service_id" + " = \"" == "service_id = \"" && "provider_name" + " = \"" == "provider_name = \"";
  }

  lemma LinesAre(id: string, provider: string)
    ensures ServiceLines(id) + BindingLines(id, provider) == TableLines(id, provider)
  {
    KeyLines(id, provider);
    hide IdLine;
  }

  /**
   * When the id is quoted nowhere in the text, the agent is given a service and a binding, and the text before them
   * is only trimmed.
   */
  lemma ServiceIsWritten(content: string, agentId: string, providerName: string)
    requires !Quotes(content, WithoutQuotes(agentId))
    ensures Append(content, agentId, providerName) ==
      TrimEnd(content) + "\n" + Join(TableLines(WithoutQuotes(agentId), WithoutQuotes(providerName)), '\n') + "\n"
  {
    hide Quotes, HasServiceBlock, TableLines, ServiceLines, BindingLines, Join, Bindings;
    var id, provider := WithoutQuotes(agentId), WithoutQuotes(providerName);
    if HasServiceBlock(content, id) { FoundIsQuoted(content, id); }
    if Binding(Some(id), Some(provider)) in Bindings(content) {
      BoundIsQuoted(content, Binding(Some(id), Some(provider)));
    }
    LinesAre(id, provider);
    assert TableLines(id, provider) != [] by { TableLinesExist(id, provider); }
  }

  lemma TableLinesExist(id: string, provider: string)
    ensures TableLines(id, provider) != []
  {
  }
}
