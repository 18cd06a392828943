/** What one line of a provider table sets. */
module ProviderValues {
  import opened Text
  import opened Wrappers
  import opened ProviderSecrets

  /** A word of letters, digits and underscores. */
  predicate IsKey(key: string) {
    key != "" && forall i | 0 <= i < |key| ::
        key[i] in "abcdefghijklmnopqrstuvwxyz" || key[i] in "ABCDEFGHIJKLMNOPQRSTUVWXYZ" || key[i] in "0123456789_"
  }

  lemma KeyIsWord(key: string)
    requires IsKey(key)
    ensures forall i | 0 <= i < |key| :: IsWordChar(key[i])
  {
  }

  lemma {:induction false} KeyEnds(key: string, rest: string)
    requires (forall i | 0 <= i < |key| :: IsWordChar(key[i])) && (rest == "" || !IsWordChar(rest[0]))
    ensures WordLength(key + rest) == |key|
  {
    if key == "" {
      assert key + rest == rest;
    } else {
      assert (key + rest)[1..] == key[1..] + rest;
      KeyEnds(key[1..], rest);
    }
  }

  /** A key, an equals sign and what follows, with any white space around the sign. */
  lemma AssignmentReads(key: string, b: string, c: string, rest: string)
    requires IsKey(key) && AllSpace(b) && AllSpace(c) && rest != "" && !IsSpace(rest[0])
    ensures Assignment(key + (b + ("=" + (c + rest)))) == Some((key, rest))
  {
    var tail := b + ("=" + (c + rest));
    KeyIsWord(key);
    assert !IsWordChar(tail[0]);
    KeyEnds(key, tail);
    assert (key + tail)[|key|..] == tail && (key + tail)[..|key|] == key;
    SpacesInFront(b, "=" + (c + rest));
    SpacesInFront(c, rest);
    hide WordLength, TrimStart;
    assert ("=" + (c + rest))[1..] == c + rest;
  }

  /** A line is read without the white space around it. */
  lemma TrimmedTo(a: string, core: string, d: string)
    requires AllSpace(a) && AllSpace(d) && core != "" && !IsSpace(core[0]) && !IsSpace(core[|core| - 1])
    ensures Trim(a + (core + d)) == core
  {
    hide AllSpace, IsSpace, TrimStart, TrimEnd;
    assert a + (core + d) == (a + core) + d;
    assert (a + core)[|a + core| - 1] == core[|core| - 1];
    TrimEndAppend(a + core, d);
    TrimEndTrimmed(a + core);
    SpacesInFront(a, core);
  }

  /** A piece of a text between quotes: a character, or a backslash with the character it takes with it. */
  datatype Piece = Plain(c: char) | Escape(c: char)

  predicate IsPiece(x: Piece) {
    match x
    case Plain(c) => c != '"' && c != '\\'
    case Escape(c) => c != '\n' && c != '\r' && c as int != 0x2028 && c as int != 0x2029
  }

  function Raw(pieces: seq<Piece>): string {
    if pieces == [] then ""
    else (if pieces[0].Escape? then ['\\', pieces[0].c] else [pieces[0].c]) + Raw(pieces[1..])
  }

  /** Only the backslashes in front of quotes are dropped. */
  function Meant(pieces: seq<Piece>): string {
    if pieces == [] then ""
    else
      (if pieces[0].Escape? && pieces[0].c != '"' then ['\\', pieces[0].c] else [pieces[0].c]) + Meant(pieces[1..])
  }

  lemma {:induction false} RawEnds(pieces: seq<Piece>, rest: string)
    requires forall x | x in pieces :: IsPiece(x)
    ensures UpToQuote(Raw(pieces) + ("\"" + rest)) == Some(Raw(pieces)) && UpToQuote(Raw(pieces)) == None
  {
    var more := "\"" + rest;
    if pieces == [] {
      assert Raw(pieces) + more == more;
    } else {
      var tail := Raw(pieces[1..]);
      RawEnds(pieces[1..], rest);
      assert IsPiece(pieces[0]) && Raw(pieces) == First(pieces[0]) + tail;
      PieceFirst(pieces[0], tail + more);
      PieceFirst(pieces[0], tail);
      hide UpToQuote, IsPiece, Raw, First;
      assert First(pieces[0]) + tail + more == First(pieces[0]) + (tail + more);
    }
  }

  function First(x: Piece): string { if x.Escape? then ['\\', x.c] else [x.c] }

  lemma PieceFirst(x: Piece, tail: string)
    requires IsPiece(x)
    ensures UpToQuote(First(x) + tail) ==
      if UpToQuote(tail).None? then None else Some(First(x) + UpToQuote(tail).value)
  {
    var all := First(x) + tail;
    assert all[|First(x)|..] == tail && all[..|First(x)|] == First(x);
  }

  lemma {:induction false} RawMeans(pieces: seq<Piece>)
    requires forall x | x in pieces :: IsPiece(x)
    ensures Unescape(Raw(pieces)) == Meant(pieces) && (Raw(pieces) != "" ==> Raw(pieces)[0] != '"')
  {
    if pieces != [] {
      var tail := Raw(pieces[1..]);
      RawMeans(pieces[1..]);
      assert IsPiece(pieces[0]);
      PieceMeans(pieces[0], tail);
      hide Unescape;
    }
  }

  lemma UnescapeFirst(c: char, tail: string)
    ensures !(c == '\\' && tail != "" && tail[0] == '"') ==> Unescape([c] + tail) == [c] + Unescape(tail)
    ensures Unescape(['\\', '"'] + tail) == ['"'] + Unescape(tail)
  {
    assert ([c] + tail)[1..] == tail && (['\\', '"'] + tail)[2..] == tail;
    if tail == "" { assert [c] + tail == [c]; }
  }

  lemma PieceMeans(x: Piece, tail: string)
    requires IsPiece(x) && (tail != "" ==> tail[0] != '"')
    ensures Unescape(First(x) + tail) ==
      (if x.Escape? && x.c != '"' then ['\\', x.c] else [x.c]) + Unescape(tail)
  {
    hide Unescape;
    UnescapeFirst(x.c, tail);
    if x.Escape? && x.c != '"' {
      UnescapeFirst('\\', [x.c] + tail);
      assert ['\\', x.c] + tail == ['\\'] + ([x.c] + tail);
      assert ['\\'] + ([x.c] + Unescape(tail)) == ['\\', x.c] + Unescape(tail);
    }
  }

  lemma EndsWith(key: string, b: string, c: string, rest: string)
    requires IsKey(key) && rest != ""
    ensures var core := key + (b + ("=" + (c + rest)));
      core != "" && core[0] == key[0] && !IsSpace(core[0]) && core[0] != '#' && core[|core| - 1] == rest[|rest| - 1]
  {
    KeyIsWord(key);
    assert IsWordChar(key[0]);
  }

  /** An assignment, with any white space around its key, its equals sign and its value. */
  function Line(a: string, key: string, b: string, c: string, value: string, d: string): string {
    a + (key + (b + ("=" + (c + value))) + d)
  }

  predicate Assigns(a: string, key: string, b: string, c: string, value: string, d: string) {
    && AllSpace(a) && AllSpace(b) && AllSpace(c) && AllSpace(d) && IsKey(key)
    && value != "" && !IsSpace(value[0]) && !IsSpace(value[|value| - 1])
  }

  lemma LineReads(a: string, key: string, b: string, c: string, value: string, d: string)
    requires Assigns(a, key, b, c, value, d)
    ensures var trimmed := Trim(Line(a, key, b, c, value, d));
      trimmed != "" && trimmed[0] != '#' && Assignment(trimmed) == Some((key, value))
  {
    AssignmentReads(key, b, c, value);
    EndsWith(key, b, c, value);
    hide Assignment, Trim, IsSpace;
    TrimmedTo(a, key + (b + ("=" + (c + value))), d);
  }

  /** `true` and `false` are read as the flags they name. */
  lemma FlagLine(entry: Entry, a: string, key: string, b: string, c: string, word: string, d: string)
    requires Assigns(a, key, b, c, word, d) && key != "__proto__"
    ensures word == "true" ==> WithLine(entry, Line(a, key, b, c, word, d)) == entry[key := Flag(true)]
    ensures word == "false" ==> WithLine(entry, Line(a, key, b, c, word, d)) == entry[key := Flag(false)]
    ensures word[0] != '"' && word != "true" && word != "false" ==>
      WithLine(entry, Line(a, key, b, c, word, d)) == entry
  {
    hide Trim, Assignment, UpToQuote, Line, IsKey, IsSpace, AllSpace;
    LineReads(a, key, b, c, word, d);
  }

  /**
   * A quoted value is read up to its closing quote, with the backslashes dropped that stand in front of quotes; what
   * follows it is ignored, and without a closing quote nothing is set.
   */
  lemma QuotedLine(entry: Entry, a: string, key: string, b: string, c: string, pieces: seq<Piece>, rest: string,
                   d: string)
    requires (forall x | x in pieces :: IsPiece(x)) && key != "__proto__"
    ensures var value := "\"" + (Raw(pieces) + ("\"" + rest));
      Assigns(a, key, b, c, value, d) ==>
        WithLine(entry, Line(a, key, b, c, value, d)) == entry[key := Quoted(Meant(pieces))]
    ensures Assigns(a, key, b, c, "\"" + Raw(pieces), d) ==>
      WithLine(entry, Line(a, key, b, c, "\"" + Raw(pieces), d)) == entry
  {
    hide Trim, Assignment, UpToQuote, Unescape, Raw, Meant, Line, Assigns, IsPiece;
    var value := "\"" + (Raw(pieces) + ("\"" + rest));
    RawEnds(pieces, rest);
    RawMeans(pieces);
    assert value[0] == '"' && value[1..] == Raw(pieces) + ("\"" + rest) && ("\"" + Raw(pieces))[1..] == Raw(pieces);
    if Assigns(a, key, b, c, value, d) { LineReads(a, key, b, c, value, d); }
    if Assigns(a, key, b, c, "\"" + Raw(pieces), d) { LineReads(a, key, b, c, "\"" + Raw(pieces), d); }
  }

  lemma TrimmedIn(s: string, c: char)
    requires c !in s
    ensures c !in TrimStart(s) && c !in Trim(s)
  {
    TrimStartDropsSpace(s);
    TrimStartDropsSpace(TrimEnd(s));
    assert c !in TrimEnd(s);
  }

  lemma NoAssignment(line: string)
    requires '=' !in line
    ensures Assignment(line) == None
  {
    TrimmedIn(line[WordLength(line)..], '=');
    hide WordLength, TrimStart;
  }

  lemma Comment(a: string, rest: string)
    requires AllSpace(a)
    ensures Trim(a + ("#" + rest)) != "" && Trim(a + ("#" + rest))[0] == '#'
  {
    var comment := "#" + rest;
    var core := TrimEnd(comment);
    assert comment[0..] == comment && !IsSpace(comment[0]);
    assert comment == core + comment[|core|..];
    TrimmedTo(a, core, comment[|core|..]);
  }

  /** Blank lines, comments and lines without an equals sign set nothing; and the key `__proto__` cannot be set. */
  lemma OtherLines(entry: Entry, a: string, rest: string, value: Value)
    requires AllSpace(a)
    ensures WithLine(entry, a) == entry && WithLine(entry, a + ("#" + rest)) == entry
    ensures '=' !in rest ==> WithLine(entry, rest) == entry
    ensures Assign(entry, "__proto__", value) == entry
  {
    TrimEndAppend("", a);
    assert "" + a == a;
    Comment(a, rest);
    if '=' !in rest {
      TrimmedIn(rest, '=');
      NoAssignment(Trim(rest));
    }
    hide Assignment, TrimStart, UpToQuote;
  }
}
