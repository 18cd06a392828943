/** Provider tables, written out, are read back. */
module ProviderTables {
  import opened Text
  import opened Wrappers
  import opened ProviderSecrets
  import opened ProviderValues
  import opened UpsertKeepsProviders

  type Settings = seq<(string, Value)>

  /** Each quote is escaped. */
  function Pieces(text: string): seq<Piece> {
    if text == "" then [] else [if text[0] == '"' then Escape('"') else Plain(text[0])] + Pieces(text[1..])
  }

  function Written(value: Value): string {
    match value
    case Quoted(text) => "\"" + (Raw(Pieces(text)) + "\"")
    case Flag(on) => if on then "true" else "false"
  }

  function SettingLine(key: string, value: Value): string {
    key + " = " + Written(value)
  }

  function SettingLines(settings: Settings): seq<string> {
    if settings == [] then [] else [SettingLine(settings[0].0, settings[0].1)] + SettingLines(settings[1..])
  }

  /** The entry after more settings: later ones replace earlier ones of the same key. */
  function Set(entry: Entry, settings: Settings): Entry
    decreases |settings|
  {
    if settings == [] then entry else Set(entry[settings[0].0 := settings[0].1], settings[1..])
  }

  /** The lines of provider tables. */
  function TableLines(tables: seq<Settings>): seq<string> {
    if tables == [] then [] else ["[[providers]]"] + SettingLines(tables[0]) + TableLines(tables[1..])
  }

  /** The tables with a name that is not empty. */
  function Providers(tables: seq<Settings>): seq<Entry> {
    if tables == [] then []
    else
      var entry := Set(map[], tables[0]);
      var named := "name" in entry && entry["name"] != Quoted("") && entry["name"] != Flag(false);
      (if named then [entry] else []) + Providers(tables[1..])
  }

  /** A word for a key, and a text without a backslash, a line break and the mark. */
  predicate Writable(key: string, value: Value) {
    && IsKey(key) && key != "__proto__" && !Occurs(SettingLine(key, value))
    && (value.Quoted? ==> '\\' !in value.text && '\n' !in value.text)
  }

  predicate AllWritable(settings: Settings) {
    forall x | x in settings :: Writable(x.0, x.1)
  }

  lemma {:induction false} PiecesMean(text: string)
    requires '\n' !in text
    ensures '\n' !in Raw(Pieces(text)) && Meant(Pieces(text)) == text
    ensures '\\' !in text ==> forall x | x in Pieces(text) :: IsPiece(x)
  {
    if text != "" {
      PiecesMean(text[1..]);
      assert Pieces(text)[1..] == Pieces(text[1..]);
    }
  }

  lemma WrittenIs(value: Value)
    requires value.Quoted? ==> '\n' !in value.text
    ensures var word := Written(value);
      word != "" && !IsSpace(word[0]) && !IsSpace(word[|word| - 1]) && '\n' !in word
  {
    if value.Quoted? { PiecesMean(value.text); }
    hide Raw;
  }

  lemma KeyIs(key: string)
    requires IsKey(key)
    ensures key != "" && '\n' !in key && key[0] != '['
  {
    KeyIsWord(key);
    assert IsWordChar(key[0]) && forall i | 0 <= i < |key| :: IsWordChar(key[i]);
  }

  lemma SettingLineIs(key: string, value: Value)
    requires Writable(key, value)
    ensures var line := SettingLine(key, value);
      && line == Line("", key, " ", " ", Written(value), "") && Assigns("", key, " ", " ", Written(value), "")
      && '\n' !in line && !Opens(line)
  {
    hide Written, IsKey, Occurs, IsSpace;
    var word := Written(value);
    WrittenIs(value);
    KeyIs(key);
    assert AllSpace("") && AllSpace(" ") by { assert IsSpace(' ') by { Blank(); } }
    assert SettingLine(key, value)[0] == key[0];
    LineIs(key, word);
  }

  lemma Blank()
    ensures IsSpace(' ')
  {
  }

  lemma LineIs(key: string, word: string)
    ensures key + " = " + word == Line("", key, " ", " ", word, "")
  {
    assert " " + ("=" + (" " + word)) == " = " + word;
    assert key + (" = " + word) == key + " = " + word;
    assert "" + (key + (" = " + word) + "") == key + (" = " + word);
  }

  lemma SettingRead(entry: Entry, key: string, value: Value)
    requires Writable(key, value)
    ensures WithLine(entry, SettingLine(key, value)) == entry[key := value]
  {
    SettingLineIs(key, value);
    hide Line, Assigns, WithLine, Raw, Meant, SettingLine, Occurs, IsKey;
    match value
    case Quoted(text) =>
      assert "\"" + (Raw(Pieces(text)) + ("\"" + "")) == Written(value);
      PiecesMean(text);
      QuotedLine(entry, "", key, " ", " ", Pieces(text), "", "");
    case Flag(on) => FlagLine(entry, "", key, " ", " ", Written(value), "");
  }

  lemma SettingStep(entry: Entry, key: string, value: Value, rest: seq<string>)
    requires Writable(key, value)
    ensures ProvidersFrom([SettingLine(key, value)] + rest, Some(entry)) ==
      ProvidersFrom(rest, Some(entry[key := value]))
  {
    var line := SettingLine(key, value);
    SettingRead(entry, key, value);
    SettingLineIs(key, value);
    PlainLineOnly(line);
    hide WithLine, SettingLine, SplitAtMark, Occurs, Opens, Line, Assigns;
    assert ([line] + rest)[0] == line && ([line] + rest)[1..] == rest && [line][1..] == [];
    assert Ended(Some(entry), line) == [];
    assert [] + ProvidersFrom(rest, Some(entry[key := value])) == ProvidersFrom(rest, Some(entry[key := value]));
  }

  lemma {:induction false} SettingsRead(entry: Entry, settings: Settings, rest: seq<string>)
    requires AllWritable(settings)
    ensures ProvidersFrom(SettingLines(settings) + rest, Some(entry)) == ProvidersFrom(rest, Some(Set(entry, settings)))
    decreases |settings|
  {
    hide ProvidersFrom, SettingLine, Writable;
    if settings == [] {
      assert SettingLines(settings) + rest == rest;
    } else {
      var x := settings[0];
      assert SettingLines(settings) + rest == [SettingLine(x.0, x.1)] + (SettingLines(settings[1..]) + rest);
      SettingStep(entry, x.0, x.1, SettingLines(settings[1..]) + rest);
      SettingsRead(entry[x.0 := x.1], settings[1..], rest);
    }
  }

  lemma HeaderStep(current: Option<Entry>, rest: seq<string>)
    ensures ProvidersFrom(["[[providers]]"] + rest, current) == Finished(current) + ProvidersFrom(rest, Some(map[]))
  {
    var line := "[[providers]]";
    assert line[13..] == "" && SplitAtMark(line) == ["", ""] by { assert SplitAtMark("") == [""]; }
    assert WithLine(map[], "") == map[];
    assert current.Some? ==> WithLine(current.value, "") == current.value;
    hide SplitAtMark, WithLine, Named;
    assert ([line] + rest)[0] == line && ([line] + rest)[1..] == rest && ["", ""][1..] == [""];
    assert Continued(current, "") == current;
    assert [""][1..] == [] && EndedByMarks(Some(map[]), []) == [];
    assert EndedByMarks(current, [""]) == Finished(current);
    assert [] + Finished(current) == Finished(current);
  }

  lemma {:induction false} TablesRead(tables: seq<Settings>, current: Option<Entry>)
    requires forall t | t in tables :: AllWritable(t)
    ensures ProvidersFrom(TableLines(tables), current) == Finished(current) + Providers(tables)
  {
    if tables == [] {
      assert Finished(current) + [] == Finished(current);
    } else {
      hide ProvidersFrom, AllWritable;
      var entry, rest := Set(map[], tables[0]), TableLines(tables[1..]);
      assert TableLines(tables) == ["[[providers]]"] + (SettingLines(tables[0]) + rest);
      HeaderStep(current, SettingLines(tables[0]) + rest);
      SettingsRead(map[], tables[0], rest);
      TablesRead(tables[1..], Some(entry));
      assert Finished(Some(entry)) + Providers(tables[1..]) == Providers(tables);
    }
  }

  lemma {:induction false} NoBreaks(settings: Settings)
    requires AllWritable(settings)
    ensures forall l | l in SettingLines(settings) :: '\n' !in l
  {
    hide SettingLine, Writable;
    if settings != [] {
      SettingLineIs(settings[0].0, settings[0].1);
      NoBreaks(settings[1..]);
    }
  }

  lemma {:induction false} NoBreaksInTables(tables: seq<Settings>)
    requires forall t | t in tables :: AllWritable(t)
    ensures forall l | l in TableLines(tables) :: '\n' !in l
  {
    hide AllWritable;
    if tables != [] {
      NoBreaks(tables[0]);
      NoBreaksInTables(tables[1..]);
    }
  }

  /** Written provider tables are read back as their settings, and those without a name are left out. */
  lemma TablesRoundTrip(tables: seq<Settings>)
    requires tables != [] && forall t | t in tables :: AllWritable(t)
    ensures ParseProviders(Join(TableLines(tables), '\n')) == Providers(tables)
  {
    var text := Join(TableLines(tables), '\n');
    NoBreaksInTables(tables);
    SplitJoin(TableLines(tables), '\n');
    ProvidersByLines(text);
    TablesRead(tables, None);
    hide Join, Split, ParseProviders, ProvidersFrom, Providers;
    assert [] + Providers(tables) == Providers(tables);
  }
}
