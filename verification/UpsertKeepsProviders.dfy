/**
 * Rewriting the bindings does not disturb what parseProvidersFromToml reads from the same file, exactly when it reads
 * no provider from inside a bindings table of the agent.
 */
module UpsertKeepsProviders {
  import opened Text
  import opened Wrappers
  import opened BindingsToml
  import opened BindingsUpsert
  import opened ProviderSecrets

  // ---- Occurrences of the mark ----

  predicate Occurs(s: string) {
    MARK <= s || (s != "" && Occurs(s[1..]))
  }

  lemma {:induction false} PlainLineOnly(line: string)
    requires !Occurs(line)
    ensures SplitAtMark(line) == [line]
  {
    if line != "" {
      PlainLineOnly(line[1..]);
      assert line == [line[0]] + line[1..];
    }
  }

  predicate IsProviderHeader(line: string) {
    TrimEnd(line) == MARK
  }

  /** [[providers]] occurs only as a whole header line. */
  predicate HeadersOnly(lines: seq<string>) {
    forall l | l in lines :: Occurs(l) ==> IsProviderHeader(l)
  }

  lemma {:induction false} OccursAt(s: string, i: nat)
    requires i + 13 <= |s| && s[i..i + 13] == MARK
    ensures Occurs(s)
  {
    if i > 0 {
      SliceOfTail(s, i - 1, 13);
      OccursAt(s[1..], i - 1);
    } else {
      assert s[..13] == s[0..13];
    }
  }

  lemma {:induction false} WhereOccurs(s: string) returns (i: nat)
    requires Occurs(s)
    ensures i + 13 <= |s| && s[i..i + 13] == MARK
  {
    if MARK <= s {
      i := 0;
    } else {
      var j := WhereOccurs(s[1..]);
      i := j + 1;
      SliceOfTail(s, j, 13);
    }
  }

  /** Text around `inner` that shares no character with the mark's ends adds no occurrence. */
  lemma NoNewOccurrence(before: string, inner: string, after: string)
    requires !Occurs(inner)
    requires forall i | 0 <= i < |before| :: before[i] != '['
    requires forall i | 0 <= i < |after| :: after[i] != ']'
    ensures !Occurs(before + inner + after)
  {
    var s := before + inner + after;
    if Occurs(s) {
      var i := WhereOccurs(s);
      assert s[i] == s[i..i + 13][0] == '[' && s[i + 12] == s[i..i + 13][12] == ']';
      assert i >= |before| && i + 12 < |before| + |inner|;
      var j := i - |before|;
      assert inner[j..j + 13] == s[i..i + 13];
      OccursAt(inner, j);
    }
  }

  lemma TrimKeepsOccurs(line: string)
    ensures Occurs(TrimEnd(line)) == Occurs(line)
  {
    var t := TrimEnd(line);
    var spaces := line[|t|..];
    assert line == "" + t + spaces;
    assert forall i | 0 <= i < |spaces| :: spaces[i] != ']';
    if !Occurs(t) {
      NoNewOccurrence("", t, spaces);
    } else {
      var i := WhereOccurs(t);
      assert line[i..i + 13] == t[i..i + 13];
      OccursAt(line, i);
    }
  }

  lemma IdLineHasNoMark(key: string, value: string)
    requires !Occurs(value) && '[' !in key
    ensures !Occurs(IdLine(key, value))
  {
    NoNewOccurrence(key + " = \"", value, "\"");
  }

  lemma PlainTextHasNoMark(s: string)
    requires '[' !in s
    ensures !Occurs(s)
  {
    assert !Occurs("") && s == s + "" + "";
    NoNewOccurrence(s, "", "");
  }

  // ---- Blank lines and trailing blanks ----

  lemma ProviderHeaderTrimmed(line: string)
    ensures IsProviderHeader(TrimEnd(line)) == IsProviderHeader(line)
  {
    TrimmedLine(line);
  }

  lemma WithSpaces(entry: Entry, s: string, spaces: string)
    requires AllSpace(spaces)
    ensures WithLine(entry, s + spaces) == WithLine(entry, s)
  {
    hide Assignment;
    TrimEndAppend(s, spaces);
  }

  /** Blanks at the end of a line belong to its last piece. */
  lemma {:induction false} SplitPadded(s: string, spaces: string)
    requires AllSpace(spaces)
    ensures SplitAtMark(s + spaces) == Padded(SplitAtMark(s), spaces)
    decreases |s|
  {
    hide Padded;
    var text := s + spaces;
    NoMarkInSpaces(s, spaces);
    if MARK <= s {
      assert text[13..] == s[13..] + spaces;
      SplitPadded(s[13..], spaces);
      PaddedFirst("", SplitAtMark(s[13..]), spaces);
    } else if s == "" {
      assert text == spaces;
      SpacesAreOnePiece(spaces);
    } else {
      assert text[1..] == s[1..] + spaces;
      SplitPadded(s[1..], spaces);
      PaddedLonger(s[0], SplitAtMark(s[1..]), spaces);
    }
  }

  lemma NoMarkInSpaces(s: string, spaces: string)
    requires AllSpace(spaces)
    ensures MARK <= s + spaces <==> MARK <= s
  {
    var text := s + spaces;
    assert |s| >= 13 || |text| < 13 || text[12] == spaces[12 - |s|] != MARK[12];
    assert |s| < 13 || text[..13] == s[..13];
  }

  lemma SpacesAreOnePiece(spaces: string)
    requires AllSpace(spaces)
    ensures SplitAtMark(spaces) == Padded([""], spaces)
  {
    assert !Occurs("") && "" + "" + spaces == spaces == "" + spaces;
    NoNewOccurrence("", "", spaces);
    PlainLineOnly(spaces);
  }

  lemma PaddedStep(current: Option<Entry>, pieces: seq<string>, spaces: string)
    requires pieces != [] && AllSpace(spaces)
    ensures EndedIn(current, Padded(pieces, spaces)) == EndedIn(current, pieces)
    ensures OpenAfter(current, Padded(pieces, spaces)) == OpenAfter(current, pieces)
  {
    hide WithLine;
    var n := |pieces| - 1;
    WithSpaces(map[], pieces[n], spaces);
    if n == 0 {
      var start := pieces[0];
      if current.Some? { WithSpaces(current.value, start, spaces); }
      assert Padded(pieces, spaces) == [start + spaces];
      assert |start| != 1 || spaces == "" || (start + spaces)[1] == spaces[0];
    } else {
      PaddedMarks(Continued(current, pieces[0]), pieces[1..], spaces);
      assert Padded(pieces, spaces) == [pieces[0]] + Padded(pieces[1..], spaces) by {
        PaddedFirst(pieces[0], pieces[1..], spaces);
        assert pieces == [pieces[0]] + pieces[1..];
      }
    }
  }

  lemma {:induction false} PaddedMarks(current: Option<Entry>, pieces: seq<string>, spaces: string)
    requires pieces != [] && AllSpace(spaces)
    ensures EndedByMarks(current, Padded(pieces, spaces)) == EndedByMarks(current, pieces)
    ensures AfterMarks(current, Padded(pieces, spaces)) == AfterMarks(current, pieces)
    decreases |pieces|
  {
    hide WithLine, Finished;
    var n := |pieces| - 1;
    WithSpaces(map[], pieces[n], spaces);
    if n > 0 {
      PaddedMarks(Some(WithLine(map[], pieces[0])), pieces[1..], spaces);
      PaddedFirst(pieces[0], pieces[1..], spaces);
      assert pieces == [pieces[0]] + pieces[1..];
    }
  }

  lemma TrimmedStep(current: Option<Entry>, line: string)
    ensures Ended(current, TrimEnd(line)) == Ended(current, line) && Next(current, TrimEnd(line)) == Next(current, line)
    ensures TrimEnd(line) == "" ==> Ended(current, line) == [] && Next(current, line) == current
  {
    var t := TrimEnd(line);
    var spaces := line[|t|..];
    assert line == t + spaces;
    SplitPadded(t, spaces);
    PaddedStep(current, SplitAtMark(t), spaces);
    if t == "" { EmptyLine(current); }
  }

  lemma EmptyLine(current: Option<Entry>)
    ensures Ended(current, "") == [] && Next(current, "") == current
  {
    assert SplitAtMark("") == [""];
  }

  lemma {:induction false} ProvidersNorm(lines: seq<string>, current: Option<Entry>)
    ensures ProvidersFrom(Norm(lines), current) == ProvidersFrom(lines, current)
    decreases |lines|
  {
    hide Ended, Next, TrimEnd;
    if lines != [] {
      var line := lines[0];
      TrimmedStep(current, line);
      ProvidersNorm(lines[1..], Next(current, line));
      if TrimEnd(line) == "" {
        assert Norm(lines) == Norm(lines[1..]);
      } else {
        assert Norm(lines)[0] == TrimEnd(line) && Norm(lines)[1..] == Norm(lines[1..]);
      }
    }
  }

  lemma BlankIsPlain(line: string)
    requires TrimEnd(line) == ""
    ensures !Occurs(line)
  {
    TrimKeepsOccurs(line);
  }

  lemma {:induction false} NormLinesAreTrimmed(lines: seq<string>)
    ensures forall l | l in Norm(lines) :: exists m :: m in lines && l == TrimEnd(m)
    ensures forall m | m in lines && TrimEnd(m) != "" :: TrimEnd(m) in Norm(lines)
  {
    if lines != [] {
      NormLinesAreTrimmed(lines[1..]);
      assert lines == [lines[0]] + lines[1..];
      forall l | l in Norm(lines) ensures exists m :: m in lines && l == TrimEnd(m) {
        if l in Norm(lines[1..]) {
          var m :| m in lines[1..] && l == TrimEnd(m);
          assert m in lines;
        } else {
          assert lines[0] in lines && l == TrimEnd(lines[0]);
        }
      }
    }
  }

  lemma HeadersOnlyNorm(lines: seq<string>)
    ensures HeadersOnly(Norm(lines)) <==> HeadersOnly(lines)
  {
    NormLinesAreTrimmed(lines);
    hide IsProviderHeader, Occurs;
    if HeadersOnly(lines) {
      forall l | l in Norm(lines) ensures Occurs(l) ==> IsProviderHeader(l) {
        var m :| m in lines && l == TrimEnd(m);
        TrimKeepsOccurs(m);
        ProviderHeaderTrimmed(m);
      }
    }
    if HeadersOnly(Norm(lines)) {
      forall m | m in lines ensures Occurs(m) ==> IsProviderHeader(m) {
        TrimKeepsOccurs(m);
        ProviderHeaderTrimmed(m);
        if TrimEnd(m) == "" { BlankIsPlain(m); }
      }
    }
  }

  // ---- Tables ----

  /** A table header ends the provider being read. */
  lemma TableStarts(current: Option<Entry>, line: string)
    requires IsHeader(line)
    ensures Ended(current, line) == Finished(current) + Ended(None, line) && Next(current, line) == Next(None, line)
  {
    var P := SplitAtMark(line);
    FirstPiece(line);
    hide SplitAtMark, WithLine, IsHeader;
    if !Opens(P[0]) {
      if current.Some? { BracketChangesNothing(current.value, P[0]); }
      assert [] + (Finished(current) + []) == Finished(current) + [];
    }
  }

  lemma BracketChangesNothing(entry: Entry, start: string)
    requires start == "" || start == "["
    ensures WithLine(entry, start) == entry
  {
  }

  lemma FirstPiece(line: string)
    requires IsHeader(line)
    ensures var P := SplitAtMark(line);
      Opens(P[0]) || (|P| > 1 && (P[0] == "" || P[0] == "["))
  {
  }

  lemma {:induction false} ProvidersAppend(xs: seq<string>, ys: seq<string>, current: Option<Entry>)
    requires StartsTable(ys)
    ensures ProvidersFrom(xs + ys, current) == ProvidersFrom(xs, current) + ProvidersFrom(ys, None)
    decreases |xs|
  {
    hide Ended, Next, IsHeader;
    if xs == [] {
      assert xs + ys == ys;
      if ys != [] {
        TableStarts(current, ys[0]);
        hide ProvidersFrom;
        assert Finished(current) + (Ended(None, ys[0]) + ProvidersFrom(ys[1..], Next(None, ys[0])))
            == Finished(current) + Ended(None, ys[0]) + ProvidersFrom(ys[1..], Next(None, ys[0]));
      }
    } else {
      assert (xs + ys)[0] == xs[0] && (xs + ys)[1..] == xs[1..] + ys;
      ProvidersAppend(xs[1..], ys, Next(current, xs[0]));
      hide ProvidersFrom;
      var first, rest := Ended(current, xs[0]), ProvidersFrom(xs[1..], Next(current, xs[0]));
      var last := ProvidersFrom(ys, None);
      assert first + (rest + last) == (first + rest) + last;
    }
  }

  lemma UnmarkedOutside(line: string)
    requires !Occurs(line)
    ensures Ended(None, line) == [] && Next(None, line) == None
  {
    PlainLineOnly(line);
  }

  lemma {:induction false} NoMarkNoProvider(lines: seq<string>)
    requires forall i | 0 <= i < |lines| :: !Occurs(lines[i])
    ensures ProvidersFrom(lines, None) == []
  {
    hide Ended, Next, Occurs;
    if lines != [] {
      UnmarkedOutside(lines[0]);
      NoMarkNoProvider(lines[1..]);
    }
  }

  /** A table is read from its header, whatever was read before it. */
  lemma TableAlone(block: seq<string>, current: Option<Entry>)
    requires block != [] && IsHeader(block[0])
    ensures ProvidersFrom(block, current) == Finished(current) + ProvidersFrom(block, None)
  {
    hide Ended, Next, IsHeader;
    TableStarts(current, block[0]);
    var rest := ProvidersFrom(block[1..], Next(None, block[0]));
    assert Finished(current) + (Ended(None, block[0]) + rest) == Finished(current) + Ended(None, block[0]) + rest;
  }

  /** The providers read from inside the bindings tables that a removal takes out. */
  function Lost(lines: seq<string>, id: string): seq<Entry>
    decreases |lines|
  {
    if lines == [] then []
    else if IsBindingsHeader(lines[0]) then
      (if KeptBlock(Block(lines), id) == [] then ProvidersFrom(Block(lines), None) else [])
      + Lost(AfterBlock(lines), id)
    else Lost(lines[1..], id)
  }

  /** Removing bindings tables takes away exactly the providers inside them. */
  lemma {:induction false} RemoveLoses(lines: seq<string>, id: string, current: Option<Entry>)
    ensures |ProvidersFrom(RemoveLines(lines, id), current)| + |Lost(lines, id)| == |ProvidersFrom(lines, current)|
    ensures Lost(lines, id) == [] ==> ProvidersFrom(RemoveLines(lines, id), current) == ProvidersFrom(lines, current)
    decreases |lines|
  {
    hide Ended, Next, IsHeader, IsBindingsHeader, TableValue, Block, AfterBlock, Finished;
    if lines == [] {
    } else if IsBindingsHeader(lines[0]) {
      var block, rest := Block(lines), AfterBlock(lines);
      var kept := RemoveLines(rest, id);
      FirstBlock(lines);
      BindingsHeaderIsHeader(lines[0]);
      RemoveLoses(rest, id, None);
      RemoveStartsTable(rest, id);
      TableAlone(block, current);
      ProvidersAppend(block, rest, current);
      ProvidersAppend(block, kept, current);
      ProvidersAppend([], kept, current);
      assert [] + kept == kept;
      hide ProvidersFrom;
    } else {
      RemoveLoses(lines[1..], id, Next(current, lines[0]));
      assert ([lines[0]] + RemoveLines(lines[1..], id))[1..] == RemoveLines(lines[1..], id);
    }
  }

  /** When the mark occurs only as a header line there is none inside a bindings table. */
  lemma {:induction false} HeadersLoseNothing(lines: seq<string>, id: string)
    requires HeadersOnly(lines)
    ensures Lost(lines, id) == []
    decreases |lines|
  {
    hide IsHeader, IsBindingsHeader, TableValue, Block, AfterBlock, Occurs, IsProviderHeader, ProvidersFrom;
    if lines == [] {
    } else if IsBindingsHeader(lines[0]) {
      var block, rest := Block(lines), AfterBlock(lines);
      FirstBlock(lines);
      forall i | 0 <= i < |block| ensures !Occurs(block[i]) {
        assert lines == block + rest && lines[i] == block[i] && lines[i] in lines;
        if i > 0 { ProviderHeaderIsHeader(block[i]); } else { BindingsHeaderHasNoMark(block[0]); }
      }
      NoMarkNoProvider(block);
      HeadersLoseNothing(rest, id);
    } else {
      HeadersLoseNothing(lines[1..], id);
    }
  }

  lemma ProviderHeaderIsHeader(line: string)
    ensures IsProviderHeader(line) ==> IsHeader(line)
  {
  }

  lemma BindingsHeaderHasNoMark(line: string)
    requires IsBindingsHeader(line)
    ensures !Occurs(line)
  {
    TrimKeepsOccurs(line);
    OtherHeaders();
  }

  // ---- The new tables ----

  lemma FourHaveNoMark(a: string, b: string, c: string, d: string)
    requires !Occurs(a) && !Occurs(b) && !Occurs(c) && !Occurs(d)
    ensures HeadersOnly([a, b, c, d]) && ProvidersFrom([a, b, c, d], None) == []
  {
    hide Occurs;
    NoMarkNoProvider([a, b, c, d]);
  }

  lemma NewLinesHaveNoMark(id: string, provider: string)
    requires !Occurs(id) && !Occurs(provider)
    ensures HeadersOnly(BindingLines(id, provider)[1..]) && HeadersOnly(ServiceLines(id)[1..])
    ensures ProvidersFrom(BindingLines(id, provider)[1..], None) == []
    ensures ProvidersFrom(ServiceLines(id)[1..], None) == []
  {
    hide Occurs, IdLine, IsProviderHeader, ProvidersFrom;
    IdLineHasNoMark("service_id", id);
    IdLineHasNoMark("provider_name", provider);
    IdLineHasNoMark("id", id);
    IdLineHasNoMark("name", id);
    PlainTextHasNoMark("priority = 0");
    PlainTextHasNoMark("routing_strategy = \"round_robin\"");
    OtherHeaders();
    FourHaveNoMark("[[bindings]]", IdLine("service_id", id), IdLine("provider_name", provider), "priority = 0");
    FourHaveNoMark("[[services]]", IdLine("id", id), IdLine("name", id), "routing_strategy = \"round_robin\"");
  }

  lemma OtherHeaders()
    ensures !Occurs("[[bindings]]") && !Occurs("[[services]]")
  {
    if Occurs("[[bindings]]") { var i := WhereOccurs("[[bindings]]"); }
    if Occurs("[[services]]") { var i := WhereOccurs("[[services]]"); }
  }

  // ---- The whole upsert ----

  /** The mark occurs in the text only as a header line. */
  predicate MarksAreHeaders(content: string) {
    HeadersOnly(Split(content, '\n'))
  }

  lemma HeadersOnlyAppend(xs: seq<string>, ys: seq<string>)
    requires HeadersOnly(ys)
    ensures HeadersOnly(xs) ==> HeadersOnly(xs + ys)
  {
    hide Occurs, IsProviderHeader;
  }

  /** No provider is read from inside a bindings table of the agent. */
  predicate NothingInside(content: string, agentId: string) {
    Lost(Split(content, '\n'), WithoutQuotes(agentId)) == []
  }

  lemma RemoveKeeps(content: string, agentId: string)
    requires WithoutQuotes(agentId) != ""
    ensures MarksAreHeaders(content) ==> MarksAreHeaders(RemoveBindings(content, agentId))
    ensures ProvidersFrom(NormText(RemoveBindings(content, agentId)), None) == ProvidersFrom(NormText(content), None)
            <==> NothingInside(content, agentId)
    ensures !NothingInside(content, agentId) ==>
      |ProvidersFrom(NormText(RemoveBindings(content, agentId)), None)| < |ProvidersFrom(NormText(content), None)|
  {
    var id := WithoutQuotes(agentId);
    hide Occurs, IsProviderHeader, Norm, RemoveLines, Split, Collapse, ProvidersFrom, Lost;
    var lines := Split(content, '\n');
    var kept := RemoveLines(lines, id);
    RemovedNorm(content, id);
    RemovedLinesAreLines(lines, id);
    assert HeadersOnly(lines) ==> HeadersOnly(kept);
    HeadersOnlyNorm(kept);
    HeadersOnlyNorm(Split(RemoveBindings(content, agentId), '\n'));
    RemoveLoses(lines, id, None);
    ProvidersNorm(lines, None);
    ProvidersNorm(kept, None);
  }

  lemma AppendKeeps(content: string, id: string, provider: string)
    requires OneLine(id) && OneLine(provider) && !Occurs(id) && !Occurs(provider)
    ensures MarksAreHeaders(content) ==> MarksAreHeaders(Appended(content, NewLines(content, id, provider)))
    ensures ProvidersFrom(NormText(Appended(content, NewLines(content, id, provider))), None)
      == ProvidersFrom(NormText(content), None)
  {
    hide HasServiceBlock, Occurs, IsProviderHeader, Norm, Split, ProvidersFrom, IdLine, Appended, IsHeader, HeadersOnly;
    var B, S := BindingLines(id, provider), ServiceLines(id);
    NewLinesNorm(content, id, provider);
    NewLinesHaveNoMark(id, provider);
    HeadersOnlyNorm(Split(content, '\n'));
    HeadersOnlyNorm(Split(Appended(content, NewLines(content, id, provider)), '\n'));
    NewTablesStart(id, provider);
    var added := if HasServiceBlock(content, id) then B[1..] else S[1..] + B[1..];
    if !HasServiceBlock(content, id) {
      HeadersOnlyAppend(S[1..], B[1..]);
      ProvidersAppend(S[1..], B[1..], None);
    }
    HeadersOnlyAppend(NormText(content), added);
    ProvidersAppend(NormText(content), added, None);
  }

  lemma ProvidersOfNorm(content: string)
    ensures ParseProviders(content) == ProvidersFrom(NormText(content), None)
  {
    hide *;
    ProvidersByLines(content);
    ProvidersNorm(Split(content, '\n'), None);
    NormTextIs(content);
  }

  lemma NormTextIs(content: string)
    ensures NormText(content) == Norm(Split(content, '\n'))
  {
  }

  /**
   * An upsert changes nothing that the provider parser reads, exactly when no provider is read from inside a bindings
   * table of the agent; so it changes nothing when the mark occurs only as a header line. It never adds a
   * provider.
   */
  lemma UpsertKeepsProviders(content: string, agentId: string, providerName: string)
    requires Writable(agentId, providerName)
    requires !Occurs(WithoutQuotes(agentId)) && !Occurs(WithoutQuotes(providerName))
    ensures ParseProviders(Upsert(content, agentId, providerName)) == ParseProviders(content)
            <==> NothingInside(content, agentId)
    ensures !NothingInside(content, agentId) ==>
      |ParseProviders(Upsert(content, agentId, providerName))| < |ParseProviders(content)|
    ensures MarksAreHeaders(content) ==>
      MarksAreHeaders(Upsert(content, agentId, providerName)) && NothingInside(content, agentId)
  {
    var id, provider := WithoutQuotes(agentId), WithoutQuotes(providerName);
    var r := RemoveBindings(content, agentId);
    if MarksAreHeaders(content) { HeadersLoseNothing(Split(content, '\n'), id); }
    hide Upsert, RemoveBindings, MarksAreHeaders, Occurs, Appended, NewLines, ParseProviders, ProvidersFrom,
        NothingInside;
    RemoveKeeps(content, agentId);
    AppendKeeps(r, id, provider);
    UpsertShape(content, agentId, providerName);
    ProvidersOfNorm(content);
    ProvidersOfNorm(Upsert(content, agentId, providerName));
  }

  /** The same at each step of the synchronisation, which reads the text that the steps before it wrote. */
  predicate NothingInsideAny(content: string, wanted: seq<Wanted>) {
    forall i | 0 <= i < |wanted| :: NothingInsideAt(content, wanted, i)
  }

  predicate NothingInsideAt(content: string, wanted: seq<Wanted>, i: nat)
    requires i < |wanted|
  {
    NothingInside(UpsertAll(content, wanted[..i]), wanted[i].agentId)
  }

  /** A whole synchronisation changes nothing that is read exactly when none of its steps does. */
  lemma {:induction false} SyncKeepsProviders(content: string, wanted: seq<Wanted>)
    requires forall w | w in wanted :: Writable(w.agentId, w.providerName)
    requires forall w | w in wanted :: !Occurs(WithoutQuotes(w.agentId)) && !Occurs(WithoutQuotes(w.providerName))
    ensures ParseProviders(UpsertAll(content, wanted)) == ParseProviders(content) <==> NothingInsideAny(content, wanted)
    ensures |ParseProviders(UpsertAll(content, wanted))| <= |ParseProviders(content)|
    ensures !NothingInsideAny(content, wanted) ==>
      |ParseProviders(UpsertAll(content, wanted))| < |ParseProviders(content)|
    ensures MarksAreHeaders(content) ==>
      MarksAreHeaders(UpsertAll(content, wanted)) && NothingInsideAny(content, wanted)
  {
    hide Upsert, MarksAreHeaders, Occurs, ParseProviders, NothingInside, NothingInsideAny;
    if wanted == [] {
      NoStep(content);
    } else {
      var n := |wanted| - 1;
      var init := wanted[..n];
      SyncKeepsProviders(content, init);
      assert wanted[n] in wanted;
      UpsertKeepsProviders(UpsertAll(content, init), wanted[n].agentId, wanted[n].providerName);
      OneMoreStep(content, wanted);
    }
  }

  lemma NoStep(content: string)
    ensures NothingInsideAny(content, [])
  {
  }

  lemma OneMoreStep(content: string, wanted: seq<Wanted>)
    requires wanted != []
    ensures var n := |wanted| - 1;
      NothingInsideAny(content, wanted) <==>
        NothingInsideAny(content, wanted[..n]) && NothingInside(UpsertAll(content, wanted[..n]), wanted[n].agentId)
  {
    hide NothingInside, UpsertAll;
    var n := |wanted| - 1;
    var init := wanted[..n];
    forall i | 0 <= i < n ensures NothingInsideAt(content, wanted, i) == NothingInsideAt(content, init, i) {
      assert init[..i] == wanted[..i];
    }
    assert NothingInsideAt(content, wanted, n) == NothingInside(UpsertAll(content, init), wanted[n].agentId);
    hide NothingInsideAt;
  }
}
