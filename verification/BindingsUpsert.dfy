/** What upsertAgentServiceBinding does to the bindings of the gateway file. */
module BindingsUpsert {
  // For one agent, and for the fold over all agents in syncAllAgentServiceBindings.

  import opened Text
  import opened Wrappers
  import opened BindingsToml

  // ---- The lines that are written ----

  lemma IdLineIsOneLine(key: string, value: string)
    requires key != "" && key[0] != '[' && '\n' !in key && '\n' !in value
    ensures '\n' !in IdLine(key, value) && !IsHeader(IdLine(key, value)) && !IsBindingsHeader(IdLine(key, value))
    ensures TrimEnd(IdLine(key, value)) == IdLine(key, value) != ""
  {
    TrimEndTrimmed(IdLine(key, value));
  }

  lemma BlankThen(s: string)
    requires s != "" && !IsSpace(s[0])
    ensures TrimStart(" " + s) == s && TrimStart(s) == s
  {
    assert (" " + s)[1..] == s;
  }

  lemma IdLineValue(key: string, value: string)
    requires key != "" && '"' !in value
    ensures ValueIn(IdLine(key, value), key) == Some(value)
  {
    var line := IdLine(key, value);
    TrimEndTrimmed(line);
    var quoted := "\"" + value + "\"";
    var setting := "= " + quoted;
    assert line[|key|..] == " " + setting;
    BlankThen(setting);
    assert setting[1..] == " " + quoted;
    BlankThen(quoted);
    assert quoted[1..|quoted| - 1] == value;
  }

  lemma IdLineOtherKey(key: string, value: string, other: string)
    requires key != "" && other != "" && key[0] != other[0]
    ensures ValueIn(IdLine(key, value), other) == None
  {
    TrimEndTrimmed(IdLine(key, value));
    assert IdLine(key, value)[0] == key[0];
  }

  /** The value belongs on one line of the file. */
  predicate OneLine(s: string) {
    '\n' !in s
  }

  lemma NormOfNew(id: string, provider: string)
    requires OneLine(id) && OneLine(provider)
    ensures Norm(BindingLines(id, provider)) == BindingLines(id, provider)[1..]
    ensures Norm(ServiceLines(id)) == ServiceLines(id)[1..]
  {
    NormOfTable("[[bindings]]", IdLine("service_id", id), IdLine("provider_name", provider), "priority = 0") by {
      IdLineIsOneLine("service_id", id);
      IdLineIsOneLine("provider_name", provider);
    }
    NormOfTable("[[services]]", IdLine("id", id), IdLine("name", id), "routing_strategy = \"round_robin\"") by {
      IdLineIsOneLine("id", id);
      IdLineIsOneLine("name", id);
    }
  }

  lemma NormBlank(line: string)
    requires line == ""
    ensures Norm([line]) == []
  {
    NormOne(line);
  }

  lemma NormOfTable(h: string, a: string, b: string, c: string)
    requires TrimEnd(h) == h != "" && TrimEnd(a) == a != "" && TrimEnd(b) == b != "" && TrimEnd(c) == c != ""
    ensures Norm(["", h, a, b, c]) == [h, a, b, c]
  {
    NormBlank("");
    hide Norm, TrimEnd;
    NormOne(c);
    NormOne(b);
    NormOne(a);
    NormOne(h);
    NormAppend([b], [c]);
    NormAppend([a], [b, c]);
    NormAppend([h], [a, b, c]);
    NormAppend([""], [h, a, b, c]);
    assert [b] + [c] == [b, c] && [a] + [b, c] == [a, b, c] && [h] + [a, b, c] == [h, a, b, c];
    assert [""] + [h, a, b, c] == ["", h, a, b, c];
  }

  lemma TableOf(h: string, a: string, b: string, c: string, id: string, provider: string)
    requires IsBindingsHeader(h) && !IsHeader(a) && !IsHeader(b) && !IsHeader(c)
    requires ValueIn(a, "service_id") == Some(id)
    requires ValueIn(a, "provider_name") == None && ValueIn(b, "provider_name") == Some(provider)
    ensures BindingsFrom([h, a, b, c], None) == [Binding(Some(id), Some(provider))]
  {
    var block, body := [h, a, b, c], [a, b, c];
    BlockBindings(block);
    assert block[1..] == body && body[1..] == [b, c];
    assert TableValue([b, c], "provider_name") == Some(provider);
  }

  lemma NewBinding(id: string, provider: string)
    requires OneLine(id) && OneLine(provider) && '"' !in id && '"' !in provider
    ensures BindingsFrom(BindingLines(id, provider)[1..], None) == [Binding(Some(id), Some(provider))]
  {
    var h, a, b, c := "[[bindings]]", IdLine("service_id", id), IdLine("provider_name", provider), "priority = 0";
    IdLineIsOneLine("service_id", id);
    IdLineIsOneLine("provider_name", provider);
    TrimEndTrimmed(h);
    TrimEndTrimmed(c);
    IdLineValue("service_id", id);
    IdLineOtherKey("service_id", id, "provider_name");
    IdLineValue("provider_name", provider);
    TableOf(h, a, b, c, id, provider);
    assert BindingLines(id, provider)[1..] == [h, a, b, c];
  }

  lemma NoBindingsTable(a: string, b: string, c: string, d: string)
    requires !IsBindingsHeader(a) && !IsBindingsHeader(b) && !IsBindingsHeader(c) && !IsBindingsHeader(d)
    ensures BindingsFrom([a, b, c, d], None) == []
  {
    SkippedLine(d, []);
    SkippedLine(c, [d]);
    SkippedLine(b, [c, d]);
    SkippedLine(a, [b, c, d]);
  }

  lemma NewService(id: string)
    requires OneLine(id)
    ensures BindingsFrom(ServiceLines(id)[1..], None) == []
    ensures IsHeader(ServiceLines(id)[1])
  {
    hide IdLine, BindingsFrom;
    var h, a, b, c := "[[services]]", IdLine("id", id), IdLine("name", id), "routing_strategy = \"round_robin\"";
    IdLineIsOneLine("id", id);
    IdLineIsOneLine("name", id);
    TrimEndTrimmed(h);
    TrimEndTrimmed(c);
    NoBindingsTable(h, a, b, c);
    assert ServiceLines(id)[1..] == [h, a, b, c];
  }

  // ---- One upsert ----

  predicate Writable(agentId: string, providerName: string) {
    WithoutQuotes(agentId) != "" && OneLine(WithoutQuotes(agentId)) && OneLine(WithoutQuotes(providerName))
  }

  lemma {:induction false} NotInWithout(bs: seq<Binding>, id: string)
    ensures forall b | b in Without(bs, id) :: b in bs && b.service != Some(id)
  {
    if bs != [] { NotInWithout(bs[1..], id); }
  }

  lemma NormOfJoin(lines: seq<string>)
    requires forall l | l in lines :: OneLine(l)
    ensures NormText(Join(lines, '\n')) == Norm(lines)
  {
    if lines == [] {
      assert Split("", '\n') == [""];
      NormOne("");
    } else {
      SplitJoin(lines, '\n');
    }
  }

  lemma {:induction false} RemovedLinesAreLines(lines: seq<string>, id: string)
    ensures forall l | l in RemoveLines(lines, id) :: l in lines
    decreases |lines|
  {
    hide IsHeader, IsBindingsHeader, Block, AfterBlock, TableValue;
    if lines == [] {
    } else if IsBindingsHeader(lines[0]) {
      RemovedLinesAreLines(AfterBlock(lines), id);
    } else {
      RemovedLinesAreLines(lines[1..], id);
    }
  }

  lemma RemovedNorm(content: string, id: string)
    ensures NormText(Collapse(Join(RemoveLines(Split(content, '\n'), id), '\n'))) ==
        Norm(RemoveLines(Split(content, '\n'), id))
  {
    var kept := RemoveLines(Split(content, '\n'), id);
    PartsHaveNoSep(content, '\n');
    RemovedLinesAreLines(Split(content, '\n'), id);
    NormOfJoin(kept);
    CollapseKeepsNorm(Join(kept, '\n'));
  }

  /** Removal takes away the agent's bindings and nothing else. */
  lemma RemoveTheorem(content: string, agentId: string)
    requires WithoutQuotes(agentId) != ""
    ensures Bindings(RemoveBindings(content, agentId)) == Without(Bindings(content), WithoutQuotes(agentId))
  {
    var id := WithoutQuotes(agentId);
    RemovedNorm(content, id);
    BindingsOfNorm(RemoveBindings(content, agentId));
    BindingsNorm(RemoveLines(Split(content, '\n'), id), None);
    RemoveLinesBindings(Split(content, '\n'), id);
  }

  /** The text with the given one-line strings appended, as appendAgentService builds it. */
  function Appended(content: string, lines: seq<string>): string {
    TrimEnd(content) + "\n" + Join(lines, '\n') + "\n"
  }

  lemma SplitOfAppended(content: string, lines: seq<string>)
    requires lines != [] && forall l | l in lines :: OneLine(l)
    ensures Split(Appended(content, lines), '\n') == Split(TrimEnd(content), '\n') + lines + [""]
  {
    var t := TrimEnd(content);
    var body := t + ['\n'] + Join(lines, '\n');
    assert Appended(content, lines) == body + ['\n'] + "";
    SplitAppend(body, "", '\n');
    SplitAppend(t, Join(lines, '\n'), '\n');
    SplitJoin(lines, '\n');
  }

  lemma AppendedNorm(content: string, lines: seq<string>)
    requires lines != [] && forall l | l in lines :: OneLine(l)
    ensures NormText(Appended(content, lines)) == NormText(content) + Norm(lines)
  {
    SplitOfAppended(content, lines);
    var T := Split(TrimEnd(content), '\n');
    NormAppend(T + lines, [""]);
    NormOne("");
    NormAppend(T, lines);
    TrimEndKeepsNorm(content);
  }

  lemma FiveLines(a: string, b: string, c: string, d: string, e: string)
    requires OneLine(a) && OneLine(b) && OneLine(c) && OneLine(d) && OneLine(e)
    ensures forall l | l in [a, b, c, d, e] :: OneLine(l)
  {
  }

  lemma ServiceLinesAreOneLine(id: string)
    requires OneLine(id)
    ensures forall l | l in ServiceLines(id) :: OneLine(l)
  {
    IdLineIsOneLine("id", id);
    IdLineIsOneLine("name", id);
    FiveLines("", "[[services]]", IdLine("id", id), IdLine("name", id), "routing_strategy = \"round_robin\"");
  }

  lemma BindingLinesAreOneLine(id: string, provider: string)
    requires OneLine(id) && OneLine(provider)
    ensures forall l | l in BindingLines(id, provider) :: OneLine(l)
  {
    IdLineIsOneLine("service_id", id);
    IdLineIsOneLine("provider_name", provider);
    FiveLines("", "[[bindings]]", IdLine("service_id", id), IdLine("provider_name", provider), "priority = 0");
  }

  /** The lines an upsert adds: a service table if the text has none for the id, and always a binding. */
  function NewLines(content: string, id: string, provider: string): seq<string> {
    (if HasServiceBlock(content, id) then [] else ServiceLines(id)) + BindingLines(id, provider)
  }

  lemma UpsertShape(content: string, agentId: string, providerName: string)
    requires WithoutQuotes(agentId) != ""
    ensures
      var r, id := RemoveBindings(content, agentId), WithoutQuotes(agentId);
      Upsert(content, agentId, providerName) == Appended(r, NewLines(r, id, WithoutQuotes(providerName)))
  {
    RemoveTheorem(content, agentId);
    NotInWithout(Bindings(content), WithoutQuotes(agentId));
  }

  lemma NewLinesNorm(content: string, id: string, provider: string)
    requires OneLine(id) && OneLine(provider)
    ensures |ServiceLines(id)| > 0 && |BindingLines(id, provider)| > 0
    ensures NormText(Appended(content, NewLines(content, id, provider))) ==
      NormText(content) + (if HasServiceBlock(content, id) then BindingLines(id, provider)[1..]
                           else ServiceLines(id)[1..] + BindingLines(id, provider)[1..])
  {
    hide HasServiceBlock, Norm, NormText, IdLine, Appended;
    var B, S := BindingLines(id, provider), ServiceLines(id);
    ServiceLinesAreOneLine(id);
    BindingLinesAreOneLine(id, provider);
    AppendedNorm(content, NewLines(content, id, provider));
    NormOfNew(id, provider);
    NormAppend(S, B);
    assert [] + B == B;
  }

  lemma NewTablesStart(id: string, provider: string)
    ensures StartsTable(BindingLines(id, provider)[1..])
    ensures StartsTable(ServiceLines(id)[1..] + BindingLines(id, provider)[1..])
  {
    BindingsHeaderIsHeader("[[bindings]]");
    TrimEndTrimmed("[[services]]");
  }

  lemma AppendedBindings(content: string, id: string, provider: string)
    requires OneLine(id) && OneLine(provider) && '"' !in id && '"' !in provider
    ensures Bindings(Appended(content, NewLines(content, id, provider)))
      == Bindings(content) + [Binding(Some(id), Some(provider))]
  {
    hide HasServiceBlock, Norm, NormText, Bindings, BindingsFrom, IdLine, Appended, IsHeader,
        BindingLines, ServiceLines;
    var B, S := BindingLines(id, provider), ServiceLines(id);
    NewLinesNorm(content, id, provider);
    NewBinding(id, provider);
    NewService(id);
    BindingsOfNorm(content);
    BindingsOfNorm(Appended(content, NewLines(content, id, provider)));
    NewTablesStart(id, provider);
    if HasServiceBlock(content, id) {
      BindingsAppend(NormText(content), B[1..], None);
    } else {
      BindingsAppend(S[1..], B[1..], None);
      BindingsAppend(NormText(content), S[1..] + B[1..], None);
    }
  }

  /**
   * After an upsert the agent has exactly the new binding, last in the file, and the bindings of all
   * other services are the same and in the same order.
   */
  lemma UpsertTheorem(content: string, agentId: string, providerName: string)
    requires Writable(agentId, providerName)
    ensures
      var id, provider := WithoutQuotes(agentId), WithoutQuotes(providerName);
      Bindings(Upsert(content, agentId, providerName))
      == Without(Bindings(content), id) + [Binding(Some(id), Some(provider))]
  {
    UpsertShape(content, agentId, providerName);
    RemoveTheorem(content, agentId);
    AppendedBindings(RemoveBindings(content, agentId), WithoutQuotes(agentId), WithoutQuotes(providerName));
  }

  // ---- All agents of one synchronisation ----

  datatype Wanted = Wanted(agentId: string, providerName: string)

  /** The text after the fold of upserts. */
  function UpsertAll(content: string, wanted: seq<Wanted>): string {
    if wanted == [] then content
    else
      var w := wanted[|wanted| - 1];
      Upsert(UpsertAll(content, wanted[..|wanted| - 1]), w.agentId, w.providerName)
  }

  function BindingFor(w: Wanted): Binding {
    Binding(Some(WithoutQuotes(w.agentId)), Some(WithoutQuotes(w.providerName)))
  }

  function BindingsFor(wanted: seq<Wanted>): seq<Binding> {
    if wanted == [] then [] else BindingsFor(wanted[..|wanted| - 1]) + [BindingFor(wanted[|wanted| - 1])]
  }

  function WithoutAll(bs: seq<Binding>, wanted: seq<Wanted>): seq<Binding> {
    if wanted == [] then bs
    else Without(WithoutAll(bs, wanted[..|wanted| - 1]), WithoutQuotes(wanted[|wanted| - 1].agentId))
  }

  predicate Distinct(wanted: seq<Wanted>) {
    forall i, j | 0 <= i < j < |wanted| :: WithoutQuotes(wanted[i].agentId) != WithoutQuotes(wanted[j].agentId)
  }

  lemma {:induction false} OthersStay(wanted: seq<Wanted>, id: string)
    requires forall i | 0 <= i < |wanted| :: WithoutQuotes(wanted[i].agentId) != id
    ensures Without(BindingsFor(wanted), id) == BindingsFor(wanted)
  {
    if wanted != [] {
      var n := |wanted| - 1;
      OthersStay(wanted[..n], id);
      WithoutAppend(BindingsFor(wanted[..n]), [BindingFor(wanted[n])], id);
      WithoutFirst(BindingFor(wanted[n]), [], id);
    }
  }

  /**
   * Synchronising distinct agents leaves each with exactly its own binding, in the order of the agents,
   * after all bindings of other services in their old order.
   */
  lemma {:induction false} SyncTheorem(content: string, wanted: seq<Wanted>)
    requires Distinct(wanted) && forall w | w in wanted :: Writable(w.agentId, w.providerName)
    ensures Bindings(UpsertAll(content, wanted)) == WithoutAll(Bindings(content), wanted) + BindingsFor(wanted)
  {
    hide Upsert;
    if wanted == [] {
      assert WithoutAll(Bindings(content), wanted) + [] == Bindings(content);
    } else {
      var n := |wanted| - 1;
      var init, w := wanted[..n], wanted[n];
      var id := WithoutQuotes(w.agentId);
      SyncTheorem(content, init);
      assert w in wanted;
      UpsertTheorem(UpsertAll(content, init), w.agentId, w.providerName);
      WithoutAppend(WithoutAll(Bindings(content), init), BindingsFor(init), id);
      OthersStay(init, id);
    }
  }

  lemma {:induction false} WithoutAllIs(bs: seq<Binding>, wanted: seq<Wanted>)
    ensures forall b | b in WithoutAll(bs, wanted) ::
      && b in bs
      && (forall i | 0 <= i < |wanted| :: b.service != Some(WithoutQuotes(wanted[i].agentId)))
  {
    if wanted != [] {
      var n := |wanted| - 1;
      WithoutAllIs(bs, wanted[..n]);
      NotInWithout(WithoutAll(bs, wanted[..n]), WithoutQuotes(wanted[n].agentId));
    }
  }

  /** An agent that was synchronised is bound to the provider wanted for it and to no other. */
  lemma SyncedAgentHasOneProvider(content: string, wanted: seq<Wanted>, k: nat, b: Binding)
    requires Distinct(wanted) && (forall w | w in wanted :: Writable(w.agentId, w.providerName)) && k < |wanted|
    requires b.service == Some(WithoutQuotes(wanted[k].agentId))
    ensures b in Bindings(UpsertAll(content, wanted)) <==> b == BindingFor(wanted[k])
  {
    SyncTheorem(content, wanted);
    WithoutAllIs(Bindings(content), wanted);
    BindingsForAt(wanted);
    var at := BindingsFor(wanted);
    if b in at {
      var j :| 0 <= j < |wanted| && at[j] == b;
      assert BindingFor(wanted[j]).service == b.service;
    }
    assert at[k] == BindingFor(wanted[k]);
  }

  lemma {:induction false} BindingsForAt(wanted: seq<Wanted>)
    ensures |BindingsFor(wanted)| == |wanted|
    ensures forall i | 0 <= i < |wanted| :: BindingsFor(wanted)[i] == BindingFor(wanted[i])
  {
    if wanted != [] { BindingsForAt(wanted[..|wanted| - 1]); }
  }
}
