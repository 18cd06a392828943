/**
 * A bindings table with a provider in it: the mark stands in a comment, and a name in the line after it. Removing the
 * table, as every upsert for its agent does, removes the provider.
 */
module ProviderLost {
  import opened Text
  import opened Wrappers
  import opened BindingsToml
  import opened BindingsUpsert
  import opened ProviderSecrets
  import opened UpsertKeepsProviders

  lemma {:induction false} WordThen(word: string, rest: string)
    requires forall i | 0 <= i < |word| :: IsWordChar(word[i])
    requires rest != "" && !IsWordChar(rest[0])
    ensures WordLength(word + rest) == |word|
  {
    if word == "" {
      assert word + rest == rest;
    } else {
      assert (word + rest)[1..] == word[1..] + rest;
      WordThen(word[1..], rest);
    }
  }

  lemma AssignmentOf(key: string, value: string)
    requires key != "" && (forall i | 0 <= i < |key| :: IsWordChar(key[i])) && value != "" && !IsSpace(value[0])
    ensures Assignment(key + ("=" + value)) == Some((key, value))
  {
    var rest := "=" + value;
    var line := key + rest;
    WordThen(key, rest);
    hide WordLength;
    assert line[..|key|] == key && line[|key|..] == rest && rest[1..] == value;
  }

  lemma VisibleLine(line: string)
    requires line != "" && !IsSpace(line[0]) && !IsSpace(line[|line| - 1])
    ensures Trim(line) == line
  {
    TrimEndTrimmed(line);
  }

  lemma SetsQuoted(line: string, key: string, value: string)
    requires line != "" && line[0] != '#' && Trim(line) == line
    requires Assignment(line) == Some((key, "\"" + (value + "\""))) && UpToQuote(value + "\"") == Some(value)
    requires key != "__proto__"
    ensures WithLine(map[], line) == map[key := Quoted(Unescape(value))]
  {
    hide Assignment, Trim, UpToQuote, Unescape;
    assert ("\"" + (value + "\""))[1..] == value + "\"";
  }

  /** A line as `name="p"`. */
  lemma QuotedLine(key: string, value: string)
    requires key != "__proto__" && key != "" && forall i | 0 <= i < |key| :: IsWordChar(key[i])
    requires |value| == 1 && value[0] != '"' && value[0] != '\\'
    ensures WithLine(map[], key + ("=" + ("\"" + (value + "\"")))) == map[key := Quoted(value)]
  {
    hide WithLine, Assignment, Trim, UpToQuote, Unescape, IsWordChar;
    var quoted := "\"" + (value + "\"");
    var line := key + ("=" + quoted);
    WordIsVisible(key[0]);
    AssignmentOf(key, quoted);
    VisibleLine(line);
    OneCharQuoted(value);
    SetsQuoted(line, key, value);
  }

  lemma WordIsVisible(c: char)
    ensures IsWordChar(c) ==> !IsSpace(c) && c != '#'
  {
  }

  lemma OneCharQuoted(value: string)
    requires |value| == 1 && value[0] != '"' && value[0] != '\\'
    ensures UpToQuote(value + "\"") == Some(value) && Unescape(value) == value
  {
    var s := value + "\"";
    assert s[1..] == "\"" && s[..1] == value;
    assert UpToQuote("\"") == Some("");
    assert value + "" == value;
  }

  function TableWithProvider(id: string, value: string): seq<string> {
    ["[[bindings]]", IdLine("service_id", id), Comment(), "name" + ("=" + ("\"" + (value + "\"")))]
  }

  lemma {:induction false} SplitAfter(start: string)
    requires '[' !in start
    ensures SplitAtMark(start + MARK) == [start, ""]
  {
    if start == "" {
      assert start + MARK == MARK && MARK[13..] == "";
      assert SplitAtMark("") == [""];
    } else {
      var text := start + MARK;
      assert text[0] == start[0] != MARK[0] && text[1..] == start[1..] + MARK;
      SplitAfter(start[1..]);
      assert [start[0]] + start[1..] == start;
    }
  }

  lemma OneMark(start: string)
    ensures EndedIn(None, [start, ""]) == [] && OpenAfter(None, [start, ""]) == Some(map[])
  {
    assert [start, ""][1..] == [""] && [""][1..] == [];
    assert WithLine(map[], "") == map[];
    hide WithLine;
    assert EndedByMarks(Some(map[]), []) == [];
  }

  function Comment(): string { "# " + MARK }

  lemma CommentedMark()
    ensures Ended(None, Comment()) == [] && Next(None, Comment()) == Some(map[])
    ensures !IsHeader(Comment()) && '\n' !in Comment()
  {
    hide SplitAtMark, EndedIn, OpenAfter, IsHeader;
    SplitAfter("# ");
    OneMark("# ");
    CommentIsPlain();
  }

  lemma CommentIsPlain()
    ensures !IsHeader(Comment()) && '\n' !in Comment()
  {
    TrimEndTrimmed(Comment());
  }

  lemma UnmarkedInside(entry: Entry, line: string)
    requires !Occurs(line) && !Opens(line)
    ensures Ended(Some(entry), line) == [] && Next(Some(entry), line) == Some(WithLine(entry, line))
  {
    PlainLineOnly(line);
    hide WithLine, SplitAtMark;
    assert [line][1..] == [];
  }

  /** The third and the fourth line. */
  lemma MarkThenName(entry: Entry, line: string)
    requires WithLine(map[], line) == entry && Named(entry) && !Occurs(line) && !Opens(line)
    ensures ProvidersFrom([Comment(), line], None) == [entry]
  {
    hide Next, Ended, WithLine, Named, Occurs, Opens, Comment;
    CommentedMark();
    UnmarkedInside(map[], line);
    assert [Comment(), line][1..] == [line] && [line][1..] == [];
    assert ProvidersFrom([], Some(entry)) == [entry];
  }

  lemma UnmarkedLines(lines: seq<string>, rest: seq<string>)
    requires forall i | 0 <= i < |lines| :: !Occurs(lines[i])
    ensures ProvidersFrom(lines + rest, None) == ProvidersFrom(rest, None)
    decreases |lines|
  {
    hide Ended, Next, Occurs;
    if lines == [] {
      assert lines + rest == rest;
    } else {
      UnmarkedOutside(lines[0]);
      assert (lines + rest)[1..] == lines[1..] + rest;
      UnmarkedLines(lines[1..], rest);
    }
  }

  lemma NameLine(value: string)
    requires |value| == 1 && IsWordChar(value[0])
    ensures var line := "name" + ("=" + ("\"" + (value + "\"")));
      && WithLine(map[], line) == map["name" := Quoted(value)]
      && !Occurs(line) && !IsHeader(line) && !Opens(line) && '\n' !in line
  {
    hide WithLine, Occurs, IsHeader, IsWordChar, Opens;
    NameIsWord();
    QuotedLine("name", value);
    NameLineIsPlain(value);
    PlainTextHasNoMark("name" + ("=" + ("\"" + (value + "\""))));
  }

  lemma NameIsWord()
    ensures forall i | 0 <= i < |"name"| :: IsWordChar("name"[i])
    ensures forall c | IsWordChar(c) :: c != '"' && c != '\\' && c != '[' && c != '\n'
  {
  }

  lemma NameLineIsPlain(value: string)
    requires |value| == 1 && value[0] != '[' && value[0] != '\n'
    ensures var line := "name" + ("=" + ("\"" + (value + "\""))); '[' !in line && '\n' !in line
    ensures var line := "name" + ("=" + ("\"" + (value + "\""))); !IsHeader(line) && !Opens(line)
  {
    var line := "name" + ("=" + ("\"" + (value + "\"")));
    assert line[0] == 'n' && line[|line| - 1] == '"';
    TrimEndTrimmed(line);
  }

  /** Such a table is removed with its provider, when the agent's binding is written. */
  lemma ProviderInsideIsLost(id: string, value: string)
    requires id != "" && OneLine(id) && '"' !in id && '[' !in id && |value| == 1 && IsWordChar(value[0])
    ensures Lost(TableWithProvider(id, value), id) == [map["name" := Quoted(value)]]
  {
    hide ProvidersFrom, IsHeader, IdLine, Occurs, ValueIn, WithLine, Lost, Comment;
    var lines := TableWithProvider(id, value);
    TableLines(id, value);
    MarkThenName(map["name" := Quoted(value)], lines[3]);
    UnmarkedLines(lines[..2], lines[2..]);
    assert lines == lines[..2] + lines[2..] && lines[2..] == [Comment(), lines[3]];
    OneTable(lines, id);
  }

  lemma TableLines(id: string, value: string)
    requires OneLine(id) && '"' !in id && '[' !in id && |value| == 1 && IsWordChar(value[0])
    ensures var lines := TableWithProvider(id, value);
      && !Occurs(lines[0]) && !Occurs(lines[1]) && !Occurs(lines[3]) && !Opens(lines[3])
      && !IsHeader(lines[1]) && !IsHeader(lines[2]) && !IsHeader(lines[3])
      && ValueIn(lines[1], "service_id") == Some(id) && WithLine(map[], lines[3]) == map["name" := Quoted(value)]
  {
    hide IsHeader, Occurs, ValueIn, WithLine, Opens, Comment;
    NameLine(value);
    CommentedMark();
    OtherHeaders();
    ServiceIdLine(id);
  }

  lemma ServiceIdLine(id: string)
    requires OneLine(id) && '"' !in id && '[' !in id
    ensures var line := IdLine("service_id", id);
      !Occurs(line) && !IsHeader(line) && ValueIn(line, "service_id") == Some(id)
  {
    IdLineIsOneLine("service_id", id);
    IdLineValue("service_id", id);
    PlainTextHasNoMark(IdLine("service_id", id));
    hide IsHeader, Occurs, ValueIn;
  }

  lemma OneTable(lines: seq<string>, id: string)
    requires |lines| > 1 && lines[0] == "[[bindings]]" && forall i | 1 <= i < |lines| :: !IsHeader(lines[i])
    requires ValueIn(lines[1], "service_id") == Some(id)
    ensures Lost(lines, id) == ProvidersFrom(lines, None)
  {
    TrimEndTrimmed("[[bindings]]");
    NoHeaderIn(lines[1..]);
    hide ProvidersFrom, IsHeader, ValueIn;
    assert Block(lines) == lines && AfterBlock(lines) == [];
    assert TableValue(lines[1..], "service_id") == Some(id);
    assert Lost([], id) == [];
  }

  lemma {:induction false} NoHeaderIn(lines: seq<string>)
    requires forall i | 0 <= i < |lines| :: !IsHeader(lines[i])
    ensures BodyLength(lines) == |lines|
  {
    hide IsHeader;
    if lines != [] { NoHeaderIn(lines[1..]); }
  }

  /** For example: an upsert for agent a takes away the provider p. */
  lemma UpsertCanLoseProvider(provider: string)
    requires Writable("a", provider) && !Occurs(WithoutQuotes(provider))
    ensures var content := Join(TableWithProvider("a", "p"), '\n');
      ParseProviders(Upsert(content, "a", provider)) != ParseProviders(content)
  {
    var lines := TableWithProvider("a", "p");
    TableIsLines("a", "p");
    SplitJoin(lines, '\n');
    ProviderInsideIsLost("a", "p");
    assert WithoutQuotes("a") == "a";
    PlainTextHasNoMark("a");
    hide Upsert, ParseProviders, Lost, Occurs, Join, TableWithProvider, Split;
    UpsertKeepsProviders.UpsertKeepsProviders(Join(lines, '\n'), "a", provider);
  }

  lemma TableIsLines(id: string, value: string)
    requires OneLine(id) && |value| == 1 && IsWordChar(value[0])
    ensures forall l | l in TableWithProvider(id, value) :: '\n' !in l
  {
    hide IsHeader, Occurs, WithLine, IdLine, Comment, Opens, IsWordChar;
    NameLine(value);
    CommentedMark();
    IdLineIsOneLine("service_id", id);
  }
}
