/** Which lines are headers, which set a value, and which bindings a file has. */
module BindingTables {
  import opened Text
  import opened Wrappers
  import opened BindingsToml

  // ---- Headers ----

  /** Two brackets, a name on one line and two brackets. */
  ghost predicate Header(line: string, name: string) {
    && (exists spaces :: AllSpace(spaces) && line == "[[" + name + "]]" + spaces)
    && (forall i | 0 <= i < |name| ::
          name[i] != '\n' && name[i] != '\r' && name[i] as int != 0x2028 && name[i] as int != 0x2029)
  }

  lemma TrimmedHeader(name: string, spaces: string)
    requires AllSpace(spaces)
    ensures TrimEnd("[[" + name + "]]" + spaces) == "[[" + name + "]]"
  {
    var core := "[[" + name + "]]";
    TrimEndAppend(core, spaces);
    TrimEndTrimmed(core);
  }

  lemma HeaderRead(line: string, name: string)
    requires Header(line, name)
    ensures TrimEnd(line) == "[[" + name + "]]" && IsHeader(line)
  {
    var spaces :| AllSpace(spaces) && line == "[[" + name + "]]" + spaces;
    TrimmedHeader(name, spaces);
    NameOf(name);
    hide TrimEnd, AllSpace, IsSpace;
  }

  lemma BindingsHeader(line: string)
    ensures IsBindingsHeader(line) <==> Header(line, "bindings")
  {
    var t := TrimEnd(line);
    assert "[[" + "bindings" + "]]" == "[[bindings]]";
    if Header(line, "bindings") { HeaderRead(line, "bindings"); }
    if IsBindingsHeader(line) {
      hide AllSpace, IsSpace;
      assert line == t + line[|t|..];
    }
  }

  /** White space may follow a header, and nothing may stand in front of it. */
  lemma HeaderExactly(line: string)
    ensures IsHeader(line) <==> exists name :: Header(line, name)
    ensures IsBindingsHeader(line) <==> Header(line, "bindings")
  {
    hide IsHeader, IsBindingsHeader, AllSpace, IsSpace;
    if IsHeader(line) { HeaderIs(line); }
    if name :| Header(line, name) { HeaderRead(line, name); }
    BindingsHeader(line);
  }

  lemma NameOf(name: string)
    ensures var core := "[[" + name + "]]"; core[2..|core| - 2] == name && |core| == |name| + 4
    ensures forall i | 2 <= i < |name| + 2 :: ("[[" + name + "]]")[i] == name[i - 2]
  {
  }

  lemma HeaderIs(line: string)
    requires IsHeader(line)
    ensures var t := TrimEnd(line); Header(line, t[2..|t| - 2])
  {
    hide AllSpace, IsSpace;
    var t := TrimEnd(line);
    var name := t[2..|t| - 2];
    assert t == "[[" + name + "]]";
    assert line == "[[" + name + "]]" + line[|t|..];
    assert forall i | 0 <= i < |name| :: name[i] == t[i + 2];
  }

  // ---- Values ----

  /** The key, an equals sign and a quoted value, with white space around the sign and behind the value. */
  function ValueLine(key: string, a: string, b: string, value: string, c: string): string {
    key + (a + ("=" + (b + ("\"" + value + "\"")))) + c
  }

  ghost predicate Holds(line: string, key: string, value: string) {
    && '"' !in value
    && exists a, b, c :: AllSpace(a) && AllSpace(b) && AllSpace(c) && line == ValueLine(key, a, b, value, c)
  }

  /** A line has the value exactly when it is the key with this value, from its beginning to its end. */
  lemma ValueExactly(line: string, key: string, value: string)
    ensures ValueIn(line, key) == Some(value) <==> Holds(line, key, value)
  {
    hide TrimStart, TrimEnd, AllSpace;
    if ValueIn(line, key) == Some(value) { ValueHolds(line, key, value); }
    if Holds(line, key, value) {
      var a, b, c :| AllSpace(a) && AllSpace(b) && AllSpace(c) && line == ValueLine(key, a, b, value, c);
      HeldIsRead(key, a, b, value, c);
    }
  }

  lemma HeldIsRead(key: string, a: string, b: string, value: string, c: string)
    requires AllSpace(a) && AllSpace(b) && AllSpace(c) && '"' !in value
    ensures ValueIn(ValueLine(key, a, b, value, c), key) == Some(value)
  {
    var quoted := "\"" + value + "\"";
    var rest := "=" + (b + quoted);
    var t := key + (a + rest);
    assert quoted[1..|quoted| - 1] == value;
    TrimEndAppend(t, c);
    TrimEndTrimmed(t);
    SpacesInFront(a, rest);
    SpacesInFront(b, quoted);
    hide TrimStart, TrimEnd, AllSpace, IsSpace;
    assert t[|key|..] == a + rest && key <= t && rest[1..] == b + quoted;
  }

  lemma Halves(s: string, n: nat)
    requires n <= |s|
    ensures s == s[..n] + s[n..]
  {
  }

  lemma ValueHolds(line: string, key: string, value: string)
    requires ValueIn(line, key) == Some(value)
    ensures Holds(line, key, value)
  {
    hide TrimStart, TrimEnd, AllSpace, IsSpace, Holds;
    var t := TrimEnd(line);
    var u := t[|key|..];
    var afterKey := TrimStart(u);
    var v := afterKey[1..];
    var quoted := TrimStart(v);
    var a := SpaceThen(u);
    var b := SpaceThen(v);
    var c := ThenSpace(line);
    Quoted(quoted, value);
    Halves(t, |key|);
    Halves(afterKey, 1);
    Assembled(line, t, key, u, a, afterKey, v, b, quoted, value, c);
  }

  lemma Assembled(line: string, t: string, key: string, u: string, a: string, afterKey: string, v: string, b: string,
                  quoted: string, value: string, c: string)
    requires line == t + c && t == key + u && u == a + afterKey && afterKey == "=" + v && v == b + quoted
    requires quoted == "\"" + value + "\"" && '"' !in value && AllSpace(a) && AllSpace(b) && AllSpace(c)
    ensures Holds(line, key, value)
  {
    hide AllSpace, IsSpace;
    assert line == ValueLine(key, a, b, value, c);
  }

  lemma Quoted(quoted: string, value: string)
    requires |quoted| >= 2 && quoted[0] == '"' && quoted[|quoted| - 1] == '"' && value == quoted[1..|quoted| - 1]
    ensures quoted == "\"" + value + "\""
  {
  }

  // ---- Tables ----

  /** A table with its name and the lines below its header. */
  datatype Table = Table(name: string, body: seq<string>)

  predicate IsTable(t: Table) {
    && IsHeader("[[" + t.name + "]]")
    && forall i | 0 <= i < |t.body| :: !IsHeader(t.body[i])
  }

  function FileLines(tables: seq<Table>): seq<string> {
    if tables == [] then [] else ["[[" + tables[0].name + "]]"] + tables[0].body + FileLines(tables[1..])
  }

  /** The bindings tables, by the first service and the first provider in each. */
  function BoundIn(tables: seq<Table>): seq<Binding> {
    if tables == [] then []
    else
      var body := tables[0].body;
      (if tables[0].name == "bindings" then [Binding(TableValue(body, "service_id"), TableValue(body, "provider_name"))]
       else [])
      + BoundIn(tables[1..])
  }

  lemma NamedHeader(name: string)
    ensures IsBindingsHeader("[[" + name + "]]") <==> name == "bindings"
  {
    TrimmedHeader(name, "");
    assert "[[" + name + "]]" + "" == "[[" + name + "]]";
    assert "[[" + "bindings" + "]]" == "[[bindings]]";
    NameOf(name);
    NameOf("bindings");
  }

  lemma {:induction false} NoBindings(lines: seq<string>)
    requires forall i | 0 <= i < |lines| :: !IsHeader(lines[i])
    ensures BindingsFrom(lines, None) == []
  {
    hide IsHeader;
    if lines != [] { NoBindings(lines[1..]); }
  }

  lemma TableStep(t: Table, rest: seq<string>)
    requires IsTable(t) && StartsTable(rest)
    ensures var body := t.body;
      BindingsFrom(["[[" + t.name + "]]"] + body + rest, None) ==
        (if t.name == "bindings" then [Binding(TableValue(body, "service_id"), TableValue(body, "provider_name"))]
         else [])
        + BindingsFrom(rest, None)
  {
    hide IsHeader, IsBindingsHeader, TableValue, BindingsFrom, StartsTable;
    var header := "[[" + t.name + "]]";
    NamedHeader(t.name);
    if t.name == "bindings" {
      BlockThenRest([header] + t.body, rest);
      assert ([header] + t.body)[1..] == t.body;
    } else {
      SkippedLine(header, t.body + rest);
      BindingsAppend(t.body, rest, None);
      NoBindings(t.body);
      assert [header] + t.body + rest == [header] + (t.body + rest);
      assert [] + BindingsFrom(rest, None) == BindingsFrom(rest, None);
    }
  }

  lemma {:induction false} TablesRead(tables: seq<Table>)
    requires forall t | t in tables :: IsTable(t)
    ensures StartsTable(FileLines(tables)) && BindingsFrom(FileLines(tables), None) == BoundIn(tables)
  {
    hide TableValue, BindingsFrom, IsHeader, IsTable;
    if tables == [] {
      NoBindings([]);
    } else {
      TablesRead(tables[1..]);
      assert IsTable(tables[0]) by { assert tables[0] in tables; }
      TableStep(tables[0], FileLines(tables[1..]));
      HeaderFirst(tables[0]);
    }
  }

  lemma HeaderFirst(t: Table)
    requires IsTable(t)
    ensures IsHeader("[[" + t.name + "]]")
  {
  }

  /**
   * The bindings of a file: one for each table named bindings, in order, whatever other tables and whatever lines
   * before the first table it has.
   */
  lemma BindingsRead(before: seq<string>, tables: seq<Table>)
    requires forall i | 0 <= i < |before| :: !IsHeader(before[i])
    requires forall t | t in tables :: IsTable(t)
    requires before + FileLines(tables) != [] && forall l | l in before + FileLines(tables) :: '\n' !in l
    ensures Bindings(Join(before + FileLines(tables), '\n')) == BoundIn(tables)
  {
    TablesRead(tables);
    NoBindings(before);
    BindingsAppend(before, FileLines(tables), None);
    SplitJoin(before + FileLines(tables), '\n');
    hide Join, Split, BindingsFrom, IsHeader, BoundIn;
    assert [] + BoundIn(tables) == BoundIn(tables);
  }
}
