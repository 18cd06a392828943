/** The loops of agentServiceToml.js and agentServiceSync.js, run step by step. */
module AgentServiceToml {
  // They are proved against the functions of BindingsToml and BindingsUpsert.

  import opened Text
  import opened Wrappers
  import opened BindingsToml
  import opened BindingsUpsert

  /** One call of the callback of forEachBindingsTable. */
  datatype Visit = Visit(body: seq<string>, start: nat, end: nat)

  /** The visit is a bindings table of the file, from its header to the next table header or the end. */
  predicate IsTable(lines: seq<string>, v: Visit) {
    && v.start < v.end <= |lines|
    && IsBindingsHeader(lines[v.start])
    && v.body == lines[v.start + 1..v.end]
    && (forall i | v.start < i < v.end :: !IsHeader(lines[i]))
    && (v.end < |lines| ==> IsHeader(lines[v.end]))
  }

  function BindingsOf(visits: seq<Visit>): seq<Binding> {
    if visits == [] then [] else BindingsOf(visits[..|visits| - 1]) + [BindingOf(visits[|visits| - 1].body)]
  }

  lemma BindingsOfSnoc(visits: seq<Visit>, v: Visit)
    ensures BindingsOf(visits + [v]) == BindingsOf(visits) + [BindingOf(v.body)]
  {
    assert (visits + [v])[..|visits|] == visits;
  }

  /** The table being read is the next to be visited. */
  lemma TableCloses(visits: seq<Visit>, v: Visit, rest: seq<Binding>)
    ensures BindingsOf(visits) + (Closed(Some(v.body)) + rest) == BindingsOf(visits + [v]) + rest
    ensures rest == [] ==> BindingsOf(visits) + Closed(Some(v.body)) == BindingsOf(visits + [v])
  {
    hide BindingsOf, BindingOf;
    BindingsOfSnoc(visits, v);
  }

  lemma NothingCloses(rest: seq<Binding>)
    ensures Closed(None) + rest == rest
    ensures forall bs: seq<Binding> :: bs + Closed(None) == bs
  {
  }

  /** The visits are tables of the file in the order they stand there, none of them past `limit`. */
  predicate InOrder(lines: seq<string>, visits: seq<Visit>, limit: nat) {
    && (forall v | v in visits :: IsTable(lines, v) && v.end <= limit)
    && (forall i, j | 0 <= i < j < |visits| :: visits[i].end <= visits[j].start)
  }

  lemma AddVisit(lines: seq<string>, visits: seq<Visit>, v: Visit)
    requires InOrder(lines, visits, v.start) && IsTable(lines, v)
    ensures InOrder(lines, visits + [v], v.end)
  {
  }

  /** The lines read so far of the table that starts at `start`. */
  predicate Reading(lines: seq<string>, body: seq<string>, start: nat, i: nat) {
    && start < i <= |lines| && IsBindingsHeader(lines[start]) && body == lines[start + 1..i]
    && (forall k | start < k < i :: !IsHeader(lines[k]))
  }

  lemma StartReading(lines: seq<string>, i: nat)
    requires i < |lines| && IsBindingsHeader(lines[i])
    ensures Reading(lines, [], i, i + 1)
  {
  }

  lemma ReadMore(lines: seq<string>, body: seq<string>, start: nat, i: nat)
    requires Reading(lines, body, start, i) && i < |lines| && !IsHeader(lines[i])
    ensures Reading(lines, body + [lines[i]], start, i + 1)
  {
    hide IsHeader, IsBindingsHeader;
  }

  lemma TableRead(lines: seq<string>, v: Visit)
    requires Reading(lines, v.body, v.start, v.end) && (v.end < |lines| ==> IsHeader(lines[v.end]))
    ensures IsTable(lines, v) && v.start < v.end
  {
    hide IsHeader, IsBindingsHeader;
  }

  /** The bindings still to be read from line i on. */
  function Ahead(lines: seq<string>, i: nat, current: Option<seq<string>>): seq<Binding>
    requires i <= |lines|
  {
    BindingsFrom(lines[i..], current)
  }

  lemma ReadLine(lines: seq<string>, i: nat, current: Option<seq<string>>)
    requires i < |lines|
    ensures Ahead(lines, i, current) ==
      if IsHeader(lines[i]) then
        Closed(current) + Ahead(lines, i + 1, if IsBindingsHeader(lines[i]) then Some([]) else None)
      else Ahead(lines, i + 1, Pushed(current, lines[i]))
  {
    assert lines[i..][1..] == lines[i + 1..];
  }

  method ForEachBindingsTable(content: string) returns (visits: seq<Visit>)
    ensures BindingsOf(visits) == Bindings(content)
    ensures InOrder(Split(content, '\n'), visits, |Split(content, '\n')|)
  {
    hide IsHeader, IsBindingsHeader, BindingOf, Bindings, BindingsFrom, InOrder, BindingsOf, Split, IsTable, Reading;
    hide Ahead, Closed;
    var lines := Split(content, '\n');
    visits := [];
    var current: Option<seq<string>> := None;
    var start := 0;
    AllAhead(content);
    assert InOrder(lines, [], 0) && BindingsOf([]) == [] by { NoVisits(lines); }
    for i := 0 to |lines|
      invariant Bindings(content) == BindingsOf(visits) + Ahead(lines, i, current)
      invariant InOrder(lines, visits, if current.Some? then start else i)
      invariant current.Some? ==> Reading(lines, current.value, start, i)
    {
      var line := lines[i];
      ReadLine(lines, i, current);
      if IsHeader(line) {
        if current.Some? {
          var v := Visit(current.value, start, i);
          TableRead(lines, v);
          AddVisit(lines, visits, v);
          TableCloses(visits, v, Ahead(lines, i + 1, if IsBindingsHeader(line) then Some([]) else None));
          visits := visits + [v];
          current := None;
        } else {
          NothingCloses(Ahead(lines, i + 1, if IsBindingsHeader(line) then Some([]) else None));
        }
        if IsBindingsHeader(line) {
          current := Some([]);
          start := i;
          StartReading(lines, i);
        }
        Later(lines, visits, i);
        continue;
      }
      if current.Some? {
        ReadMore(lines, current.value, start, i);
        current := Some(current.value + [line]);
      } else {
        Later(lines, visits, i);
      }
    }
    NoLinesLeft(lines, current);
    if current.Some? {
      var v := Visit(current.value, start, |lines|);
      TableRead(lines, v);
      AddVisit(lines, visits, v);
      TableCloses(visits, v, []);
      visits := visits + [v];
    } else {
      NothingCloses([]);
    }
  }

  lemma NoVisits(lines: seq<string>)
    ensures InOrder(lines, [], 0) && BindingsOf([]) == []
  {
  }

  lemma AllAhead(content: string)
    ensures Bindings(content) == Ahead(Split(content, '\n'), 0, None)
  {
    assert Split(content, '\n')[0..] == Split(content, '\n');
  }

  lemma NoLinesLeft(lines: seq<string>, current: Option<seq<string>>)
    ensures Ahead(lines, |lines|, current) == Closed(current)
  {
  }

  lemma Later(lines: seq<string>, visits: seq<Visit>, i: nat)
    requires InOrder(lines, visits, i)
    ensures InOrder(lines, visits, i + 1)
  {
  }

  method HasBinding(content: string, agentId: string, providerName: string) returns (found: bool)
    ensures found <==> Binding(Some(WithoutQuotes(agentId)), Some(WithoutQuotes(providerName))) in Bindings(content)
  {
    hide TableValue, BindingsOf, Bindings, InOrder, WithoutQuotes;
    var safeId := WithoutQuotes(agentId);
    var safeProvider := WithoutQuotes(providerName);
    found := false;
    var visits := ForEachBindingsTable(content);
    ghost var wanted := Binding(Some(safeId), Some(safeProvider));
    NoVisits([]);
    for k := 0 to |visits|
      invariant found <==> wanted in BindingsOf(visits[..k])
    {
      var block := visits[k].body;
      assert visits[..k + 1] == visits[..k] + [visits[k]];
      BindingsOfSnoc(visits[..k], visits[k]);
      if TableValue(block, "service_id") == Some(safeId) && TableValue(block, "provider_name") == Some(safeProvider) {
        found := true;
      }
    }
    assert visits[..|visits|] == visits;
  }

  method RemoveBindingsForService(content: string, agentId: string) returns (result: string)
    ensures result == RemoveBindings(content, agentId)
  {
    hide IsHeader, IsBindingsHeader, TableValue, RemoveLines;
    var safeId := WithoutQuotes(agentId);
    if safeId == "" {
      return content;
    }
    var lines := Split(content, '\n');
    var out: seq<string> := [];
    var i := 0;
    assert lines[0..] == lines;
    while i < |lines|
      invariant 0 <= i <= |lines|
      invariant RemoveLines(lines, safeId) == out + RemoveLines(lines[i..], safeId)
    {
      var line := lines[i];
      if IsBindingsHeader(line) {
        var block := [line];
        var j := i + 1;
        while j < |lines| && !IsHeader(lines[j])
          invariant i + 1 <= j <= |lines|
          invariant block == lines[i..j]
          invariant forall k | i < k < j :: !IsHeader(lines[k])
        {
          block := block + [lines[j]];
          j := j + 1;
        }
        RemoveBlockAt(lines, i, j, safeId);
        assert block[1..] == lines[i + 1..j];
        var serviceId := TableValue(block[1..], "service_id");
        if serviceId == Some(safeId) {
          i := j;
          continue;
        }
        out := out + block;
        i := j;
        continue;
      }
      RemoveLineAt(lines, i, safeId);
      out := out + [line];
      i := i + 1;
    }
    RemoveEnd(lines[i..], safeId);
    assert out + [] == out;
    result := Collapse(Join(out, '\n'));
  }

  lemma RemoveEnd(rest: seq<string>, id: string)
    requires rest == []
    ensures RemoveLines(rest, id) == []
  {
  }

  lemma RemoveLineAt(lines: seq<string>, i: nat, id: string)
    requires i < |lines| && !IsBindingsHeader(lines[i])
    ensures RemoveLines(lines[i..], id) == [lines[i]] + RemoveLines(lines[i + 1..], id)
  {
    assert lines[i..][1..] == lines[i + 1..];
  }

  lemma BodyLengthIs(lines: seq<string>, n: nat)
    requires n <= |lines| && (n < |lines| ==> IsHeader(lines[n]))
    requires forall k | 0 <= k < n :: !IsHeader(lines[k])
    ensures BodyLength(lines) == n
  {
    hide IsHeader;
    assert forall k | 0 <= k < BodyLength(lines) :: !IsHeader(lines[k]);
  }

  lemma RemoveBlockAt(lines: seq<string>, i: nat, j: nat, id: string)
    requires i < j <= |lines| && IsBindingsHeader(lines[i])
    requires forall k | i < k < j :: !IsHeader(lines[k])
    requires j < |lines| ==> IsHeader(lines[j])
    ensures RemoveLines(lines[i..], id) ==
      (if TableValue(lines[i + 1..j], "service_id") == Some(id) then [] else lines[i..j]) + RemoveLines(lines[j..], id)
  {
    hide IsHeader, IsBindingsHeader, TableValue;
    var rest := lines[i..];
    assert rest[1..] == lines[i + 1..];
    forall k | 0 <= k < j - i - 1 ensures !IsHeader(rest[1..][k]) {
      assert rest[1..][k] == lines[i + 1 + k];
    }
    BodyLengthIs(rest[1..], j - i - 1);
    assert Block(rest) == lines[i..j] && AfterBlock(rest) == lines[j..] && lines[i..j][1..] == lines[i + 1..j];
    hide Block, AfterBlock;
    assert RemoveLines(rest, id) == KeptBlock(Block(rest), id) + RemoveLines(AfterBlock(rest), id);
  }

  method AppendAgentService(content: string, agentId: string, providerName: string) returns (result: string)
    ensures result == Append(content, agentId, providerName)
  {
    hide HasServiceBlock, IdLine, Bindings;
    var safeId := WithoutQuotes(agentId);
    var safeProvider := WithoutQuotes(providerName);
    var blocks: seq<string> := [];
    if !HasServiceBlock(content, safeId) {
      blocks := blocks + ServiceLines(safeId);
    }
    ghost var services := if HasServiceBlock(content, safeId) then [] else ServiceLines(safeId);
    assert blocks == services;
    var has := HasBinding(content, safeId, safeProvider);
    WithoutQuotesTwice(agentId);
    WithoutQuotesTwice(providerName);
    if !has {
      blocks := blocks + BindingLines(safeId, safeProvider);
    }
    assert blocks == services + (if has then [] else BindingLines(safeId, safeProvider));
    if |blocks| == 0 {
      return content;
    }
    result := TrimEnd(content) + "\n" + Join(blocks, '\n') + "\n";
  }

  lemma {:induction false} WithoutQuotesTwice(s: string)
    ensures WithoutQuotes(WithoutQuotes(s)) == WithoutQuotes(s)
  {
    NoQuotes(WithoutQuotes(s));
  }

  lemma {:induction false} NoQuotes(s: string)
    requires '"' !in s
    ensures WithoutQuotes(s) == s
  {
    if s != "" {
      NoQuotes(s[1..]);
      assert [s[0]] + s[1..] == s;
    }
  }

  method UpsertAgentServiceBinding(content: string, agentId: string, providerName: string) returns (result: string)
    ensures result == Upsert(content, agentId, providerName)
  {
    hide Append, RemoveBindings;
    var withoutStale := RemoveBindingsForService(content, agentId);
    result := AppendAgentService(withoutStale, agentId, providerName);
  }

  datatype SyncResult = SyncResult(agentId: string, synced: bool, changed: bool, providerName: string)

  /**
   * Phase 2 of syncAllAgentServiceBindings. The text is rewritten by the fold; `changed` says whether any
   * upsert altered it; and since each `changed` flag in the results compares the texts after the
   * assignment, every one of them is false.
   */
  method SyncAll(content: string, toSync: seq<Wanted>) returns (text: string, changed: bool, results: seq<SyncResult>)
    ensures text == UpsertAll(content, toSync)
    ensures changed <==>
      exists i | 0 <= i < |toSync| :: UpsertAll(content, toSync[..i + 1]) != UpsertAll(content, toSync[..i])
    ensures !changed ==> text == content
    ensures |results| == |toSync| && forall i | 0 <= i < |results| ::
      results[i] == SyncResult(toSync[i].agentId, true, false, toSync[i].providerName)
  {
    hide Upsert;
    var before := content;
    changed := false;
    results := [];
    for n := 0 to |toSync|
      invariant before == UpsertAll(content, toSync[..n])
      invariant changed <==>
        exists i | 0 <= i < n :: UpsertAll(content, toSync[..i + 1]) != UpsertAll(content, toSync[..i])
      invariant !changed ==> before == content
      invariant |results| == n && forall i | 0 <= i < n ::
        results[i] == SyncResult(toSync[i].agentId, true, false, toSync[i].providerName)
    {
      var w := toSync[n];
      var after := UpsertAgentServiceBinding(before, w.agentId, w.providerName);
      assert toSync[..n + 1][..n] == toSync[..n];
      assert after == UpsertAll(content, toSync[..n + 1]);
      if after != before {
        before := after;
        changed := true;
      }
      results := results + [SyncResult(w.agentId, true, after != before, w.providerName)];
    }
    assert toSync[..|toSync|] == toSync;
    text := before;
  }

  /** A flag is wrong whenever the pair was not bound before: the upsert alters the text. */
  lemma ChangedFlagIsWrong(content: string, w: Wanted)
    requires Writable(w.agentId, w.providerName)
    requires BindingFor(w) !in Bindings(content)
    ensures UpsertAll(content, [w]) != UpsertAll(content, [])
  {
    UpsertTheorem(content, w.agentId, w.providerName);
    assert [w][..0] == [];
    hide Upsert, Bindings;
  }

  /** For example, in an empty file. */
  lemma FirstFlagIsWrong(w: Wanted)
    requires Writable(w.agentId, w.providerName)
    ensures UpsertAll("", [w]) != UpsertAll("", [])
  {
    assert !IsHeader("") && [""][1..] == [] && Bindings("") == [] by { assert TrimEnd("") == ""; }
    ChangedFlagIsWrong("", w);
  }
}
