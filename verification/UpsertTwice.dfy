/**
 * Upserting the same binding again changes nothing, not even a blank: the second removal takes out what the first
 * upsert appended, and appending puts it back.
 */
module UpsertTwice {
  import opened Text
  import opened Wrappers
  import opened BindingsToml
  import opened BindingsUpsert

  // ---- Runs of newlines ----

  predicate NoTriple(s: string) {
    forall i | 0 <= i < |s| - 2 :: s[i] != '\n' || s[i + 1] != '\n' || s[i + 2] != '\n'
  }

  predicate OpenLine(s: string) {
    s == "" || s[|s| - 1] != '\n'
  }

  lemma {:induction false} CollapseFirst(text: string)
    requires text != ""
    ensures Collapse(text) != "" && Collapse(text)[0] == text[0]
  {
    if |text| >= 3 && text[0] == '\n' && text[1] == '\n' && text[2] == '\n' { CollapseFirst(text[1..]); }
  }

  lemma {:induction false} CollapseHasNoTriple(text: string)
    ensures NoTriple(Collapse(text))
  {
    if text != "" {
      var rest := text[1..];
      CollapseHasNoTriple(rest);
      if |text| >= 3 && text[0] == '\n' && text[1] == '\n' && text[2] == '\n' {
      } else if |rest| >= 2 {
        CollapseFirst(rest);
        CollapseFirst(rest[1..]);
      }
    }
  }

  lemma {:induction false} CollapseOfNoTriple(text: string)
    requires NoTriple(text)
    ensures Collapse(text) == text
  {
    if text != "" {
      forall i | 0 <= i < |text[1..]| - 2
        ensures text[1..][i] != '\n' || text[1..][i + 1] != '\n' || text[1..][i + 2] != '\n'
      {
        assert text[1..][i] == text[i + 1] && text[1..][i + 1] == text[i + 2] && text[1..][i + 2] == text[i + 3];
      }
      CollapseOfNoTriple(text[1..]);
      assert text[0] != '\n' || |text| < 3 || text[0 + 1] != '\n' || text[0 + 2] != '\n';
    }
  }

  lemma LineBreaks(s: string)
    requires NoTriple(s) && OpenLine(s)
    ensures NoTriple(s + "\n") && NoTriple(s + "\n\n")
  {
  }

  lemma AddLine(s: string, line: string)
    requires NoTriple(s) && line != "" && OneLine(line)
    ensures NoTriple(s + line) && OpenLine(s + line)
  {
  }

  lemma {:induction false} AddLines(s: string, lines: seq<string>)
    requires NoTriple(s) && lines != [] && forall l | l in lines :: l != "" && OneLine(l)
    ensures NoTriple(s + Join(lines, '\n') + "\n")
    decreases |lines|
  {
    hide NoTriple, OpenLine;
    assert lines[0] in lines && forall l | l in lines[1..] :: l in lines;
    AddLine(s, lines[0]);
    LineBreaks(s + lines[0]);
    if |lines| > 1 {
      AddLines(s + lines[0] + "\n", lines[1..]);
      assert s + Join(lines, '\n') + "\n" == (s + lines[0] + "\n") + Join(lines[1..], '\n') + "\n";
    }
  }

  // ---- Removing what was just written ----

  lemma {:induction false} BodyLengthAll(lines: seq<string>)
    requires forall i | 0 <= i < |lines| :: !IsHeader(lines[i])
    ensures BodyLength(lines) == |lines|
  {
  }

  lemma {:induction false} BodyLengthAppend(xs: seq<string>, ys: seq<string>)
    requires StartsTable(ys)
    ensures BodyLength(xs + ys) == BodyLength(xs)
  {
    if xs == [] {
      assert xs + ys == ys;
    } else {
      assert (xs + ys)[1..] == xs[1..] + ys;
      BodyLengthAppend(xs[1..], ys);
    }
  }

  lemma BlockAppend(xs: seq<string>, ys: seq<string>)
    requires xs != [] && StartsTable(ys)
    ensures Block(xs + ys) == Block(xs) && AfterBlock(xs + ys) == AfterBlock(xs) + ys
  {
    hide IsHeader;
    assert (xs + ys)[1..] == xs[1..] + ys;
    BodyLengthAppend(xs[1..], ys);
    var n := 1 + BodyLength(xs[1..]);
    assert (xs + ys)[n..] == xs[n..] + ys && (xs + ys)[..n] == xs[..n];
  }

  lemma {:induction false} RemoveAppend(xs: seq<string>, ys: seq<string>, id: string)
    requires StartsTable(ys)
    ensures RemoveLines(xs + ys, id) == RemoveLines(xs, id) + RemoveLines(ys, id)
    decreases |xs|
  {
    hide IsHeader, IsBindingsHeader, Block, AfterBlock, KeptBlock;
    if xs == [] {
      assert xs + ys == ys;
    } else if IsBindingsHeader(xs[0]) {
      BlockAppend(xs, ys);
      RemoveAppend(AfterBlock(xs), ys, id);
    } else {
      assert (xs + ys)[1..] == xs[1..] + ys;
      RemoveAppend(xs[1..], ys, id);
    }
  }

  /** Without a binding of the service, removal keeps every line. */
  lemma {:induction false} RemoveNothing(lines: seq<string>, id: string)
    requires forall b | b in BindingsFrom(lines, None) :: b.service != Some(id)
    ensures RemoveLines(lines, id) == lines
    decreases |lines|
  {
    hide IsHeader, IsBindingsHeader, Block, AfterBlock, BindingsFrom, TableValue;
    if lines == [] {
    } else if IsBindingsHeader(lines[0]) {
      var block, rest := Block(lines), AfterBlock(lines);
      FirstBlock(lines);
      BlockThenRest(block, rest);
      assert BindingOf(block[1..]) in BindingsFrom(lines, None);
      RemoveNothing(rest, id);
    } else {
      SkippedLine(lines[0], lines[1..]);
      assert lines == [lines[0]] + lines[1..];
      RemoveNothing(lines[1..], id);
    }
  }

  // ---- The second upsert ----

  lemma RemoveTable(block: seq<string>, id: string)
    requires block != [] && IsBindingsHeader(block[0])
    requires forall i | 0 <= i < |block[1..]| :: !IsHeader(block[1..][i])
    requires TableValue(block[1..], "service_id") == Some(id)
    ensures RemoveLines(block, id) == []
  {
    hide IsHeader, IsBindingsHeader, TableValue;
    BodyLengthAll(block[1..]);
    assert Block(block) == block && AfterBlock(block) == [];
    assert RemoveLines([], id) == [];
  }

  lemma FourNotHeaders(a: string, b: string, c: string, d: string)
    requires !IsHeader(a) && !IsHeader(b) && !IsHeader(c) && !IsHeader(d)
    ensures forall i | 0 <= i < |[a, b, c, d]| :: !IsHeader([a, b, c, d][i])
  {
    hide IsHeader;
  }

  lemma NewTable(id: string, provider: string)
    ensures BindingLines(id, provider)[1..] + [""]
      == ["[[bindings]]", IdLine("service_id", id), IdLine("provider_name", provider), "priority = 0", ""]
  {
    hide IdLine;
  }

  lemma RemoveNewBlock(id: string, provider: string)
    requires OneLine(id) && OneLine(provider) && '"' !in id && '"' !in provider
    ensures RemoveLines(BindingLines(id, provider)[1..] + [""], id) == []
  {
    hide IdLine, BindingLines, RemoveLines;
    NewTable(id, provider);
    var a, b, c := IdLine("service_id", id), IdLine("provider_name", provider), "priority = 0";
    IdLineIsOneLine("service_id", id);
    IdLineIsOneLine("provider_name", provider);
    IdLineValue("service_id", id);
    FourNotHeaders(a, b, c, "");
    assert ["[[bindings]]", a, b, c, ""][1..] == [a, b, c, ""];
    RemoveTable(["[[bindings]]", a, b, c, ""], id);
  }

  /** The lines in front of the new table: those of the text, a service table if one was added, a blank. */
  function Front(content: string, services: seq<string>): seq<string> {
    Split(TrimEnd(content), '\n') + services + [""]
  }

  lemma FrontHasNoBinding(content: string, services: seq<string>, id: string)
    requires OneLine(id)
    requires forall b | b in Bindings(content) :: b.service != Some(id)
    requires services == [] || services == ServiceLines(id)
    ensures forall b | b in BindingsFrom(Front(content, services), None) :: b.service != Some(id)
  {
    hide HasServiceBlock;
    var x := Front(content, services);
    var lines := Split(TrimEnd(content), '\n');
    NormAppend(lines + services, [""]);
    NormAppend(lines, services);
    NormOne("");
    TrimEndKeepsNorm(content);
    assert Norm(x) == NormText(content) + Norm(services);
    BindingsNorm(x, None);
    BindingsOfNorm(content);
    if services == [] {
      assert Norm(x) == NormText(content);
    } else {
      NormOfNew(id, "");
      NewService(id);
      BindingsAppend(NormText(content), ServiceLines(id)[1..], None);
    }
  }

  lemma SplitAppended(content: string, services: seq<string>, id: string, provider: string)
    requires OneLine(id) && OneLine(provider)
    requires services == [] || services == ServiceLines(id)
    ensures Split(Appended(content, services + BindingLines(id, provider)), '\n')
      == Front(content, services) + (BindingLines(id, provider)[1..] + [""])
  {
    hide IdLine, ServiceLines, Appended;
    var B := BindingLines(id, provider);
    ServiceLinesAreOneLine(id);
    BindingLinesAreOneLine(id, provider);
    assert B == [""] + B[1..];
    hide BindingLines, Split, TrimEnd;
    SplitOfAppended(content, services + B);
    var T := Split(TrimEnd(content), '\n');
    assert T + (services + B) + [""] == (T + services + [""]) + (B[1..] + [""]);
  }

  lemma RemoveAgain(content: string, services: seq<string>, id: string, provider: string)
    requires OneLine(id) && OneLine(provider) && '"' !in id && '"' !in provider
    requires forall b | b in Bindings(content) :: b.service != Some(id)
    requires services == [] || services == ServiceLines(id)
    ensures RemoveLines(Split(Appended(content, services + BindingLines(id, provider)), '\n'), id)
      == Front(content, services)
  {
    hide RemoveLines, Appended, Front, IdLine, IsHeader;
    SplitAppended(content, services, id, provider);
    var Y := BindingLines(id, provider)[1..] + [""];
    assert StartsTable(Y) by { HeaderFirst(id, provider); }
    RemoveAppend(Front(content, services), Y, id);
    RemoveNewBlock(id, provider);
    FrontHasNoBinding(content, services, id);
    RemoveNothing(Front(content, services), id);
  }

  lemma HeaderFirst(id: string, provider: string)
    ensures StartsTable(BindingLines(id, provider)[1..] + [""])
  {
    BindingsHeaderIsHeader("[[bindings]]");
  }

  /** What is left of the text once the new table is removed, up to one newline at the end. */
  function Kept(content: string, services: seq<string>): string {
    TrimEnd(content) + (if services == [] then "" else "\n" + Join(services, '\n'))
  }

  lemma FrontText(content: string, services: seq<string>)
    ensures Join(Front(content, services), '\n') == Kept(content, services) + "\n"
  {
    var t := TrimEnd(content);
    var T := Split(t, '\n');
    JoinSplit(t, '\n');
    if services == [] {
      assert Front(content, services) == T + [""];
      JoinAppend(T, [""], '\n');
    } else {
      JoinAppend(T + services, [""], '\n');
      JoinAppend(T, services, '\n');
    }
  }

  lemma KeptIsTrimmed(content: string, id: string, services: seq<string>)
    requires services == [] || services == ServiceLines(id)
    ensures TrimEnd(Kept(content, services) + "\n") == Kept(content, services)
  {
    var k := Kept(content, services);
    TrimEndAppend(k, "\n");
    if services != [] { ServiceLinesEnd(id); }
    TrimEndTrimmed(k);
  }

  lemma ServiceLinesEnd(id: string)
    ensures var s := Join(ServiceLines(id), '\n'); s != "" && s[|s| - 1] == '"'
  {
    var S := ServiceLines(id);
    assert S == S[..4] + [S[4]];
    JoinAppend(S[..4], [S[4]], '\n');
  }

  lemma KeptHasNoTriple(content: string, id: string, services: seq<string>)
    requires NoTriple(content) && OneLine(id)
    requires services == [] || services == ServiceLines(id)
    ensures NoTriple(Kept(content, services) + "\n")
  {
    var t := TrimEnd(content);
    assert NoTriple(t) && OpenLine(t);
    hide NoTriple, OpenLine, TrimEnd, IdLine;
    LineBreaks(t);
    if services == [] {
      assert Kept(content, services) == t;
    } else {
      ServicesAdded(t, id);
      hide Join;
      assert Kept(content, services) == t + "\n" + Join(services, '\n');
    }
  }

  lemma ServicesAdded(t: string, id: string)
    requires NoTriple(t + "\n\n") && OneLine(id)
    ensures NoTriple(t + "\n" + Join(ServiceLines(id), '\n') + "\n")
  {
    hide NoTriple, OpenLine, IdLine, OneLine;
    var services := ServiceLines(id);
    var lines := services[1..];
    VisibleServiceLines(id);
    AddLines(t + "\n\n", lines);
    assert Join(services, '\n') == "" + "\n" + Join(lines, '\n');
    assert t + "\n" + Join(services, '\n') + "\n" == t + "\n\n" + Join(lines, '\n') + "\n";
  }

  lemma VisibleServiceLines(id: string)
    requires OneLine(id)
    ensures forall l | l in ServiceLines(id)[1..] :: l != "" && OneLine(l)
  {
    ServiceLinesAreOneLine(id);
    var S := ServiceLines(id);
    assert S[1..] == [S[1], S[2], S[3], S[4]];
    assert S[1] != "" && S[2] != "" && S[3] != "" && S[4] != "";
  }

  // ---- The service table is still found ----

  lemma MatchEndsVisibly(m: string, id: string)
    requires IsServiceId(m, id)
    ensures m != "" && m[|m| - 1] == '"'
  {
    var k :| 2 <= k < |m| && m[..2] == "id" && AllSpace(m[2..k]) && m[k] == '='
      && TrimStart(m[k + 1..]) == "\"" + id + "\"";
    hide TrimStart, AllSpace;
    EndsAsTrimmed(m, k + 1, "\"" + id + "\"");
  }

  lemma EndsAsTrimmed(m: string, k: nat, v: string)
    requires k <= |m| && v != "" && TrimStart(m[k..]) == v
    ensures m != "" && m[|m| - 1] == v[|v| - 1]
  {
    TrimStartDropsSpace(m[k..]);
    hide TrimStart, AllSpace;
    LastOfTail(m, k, v);
  }

  lemma LastOfTail(m: string, k: nat, v: string)
    requires k <= |m| && v != "" && |v| <= |m| - k && m[k..][|m| - k - |v|..] == v
    ensures m != "" && m[|m| - 1] == v[|v| - 1]
  {
    assert m[k..][|m| - k - |v|..][|v| - 1] == m[|m| - 1];
  }

  lemma ServiceStaysFound(content: string, id: string)
    requires HasServiceBlock(content, id)
    ensures HasServiceBlock(TrimEnd(content) + "\n", id)
  {
    var t := TrimEnd(content);
    var i, e :| 0 <= i <= e <= |content| && (i == 0 || !IsWord(content[i - 1])) && IsServiceId(content[i..e], id);
    MatchEndsVisibly(content[i..e], id);
    assert content[i..e][e - i - 1] == content[e - 1];
    hide IsServiceId;
    SpaceFrom(content, |t|);
    assert e <= |t|;
    assert (t + "\n")[i..e] == content[i..e];
    assert i == 0 || (t + "\n")[i - 1] == content[i - 1];
  }

  lemma NewServiceIsFound(before: string, id: string, after: string)
    requires before != "" && before[|before| - 1] == '\n'
    ensures HasServiceBlock(before + IdLine("id", id) + after, id)
  {
    var m := IdLine("id", id);
    var text := before + m + after;
    assert m[..2] == "id" && m[2..3] == " " && m[3] == '=';
    var v := "\"" + id + "\"";
    assert m[4..] == " " + v;
    BlankThen(v);
    assert IsServiceId(m, id);
    assert text[|before|..|before| + |m|] == m && text[|before| - 1] == '\n';
  }

  lemma Regroup(t: string, x: string, m: string, z: string)
    ensures t + ("\n" + (x + ['\n'] + (m + ['\n'] + z))) + "\n" == (t + "\n" + x + "\n") + m + ("\n" + z + "\n")
  {
  }

  lemma AroundIdLine(t: string, services: seq<string>)
    requires |services| > 3
    ensures t + ("\n" + Join(services, '\n')) + "\n"
      == (t + "\n" + Join(services[..2], '\n') + "\n") + services[2] + ("\n" + Join(services[3..], '\n') + "\n")
  {
    var x, m, z := services[..2], services[2], services[3..];
    JoinAppend(x, [m] + z, '\n');
    JoinAppend([m], z, '\n');
    assert services == x + ([m] + z);
    assert Join([m], '\n') == m;
    hide Join;
    Regroup(t, Join(x, '\n'), m, Join(z, '\n'));
  }

  lemma ServiceIsFound(content: string, id: string, services: seq<string>)
    requires services == if HasServiceBlock(content, id) then [] else ServiceLines(id)
    ensures HasServiceBlock(Kept(content, services) + "\n", id)
  {
    hide HasServiceBlock, IdLine;
    var t := TrimEnd(content);
    if services == [] {
      ServiceStaysFound(content, id);
      assert Kept(content, services) == t;
    } else {
      AroundIdLine(t, services);
      NewServiceIsFound(t + "\n" + Join(services[..2], '\n') + "\n", id, "\n" + Join(services[3..], '\n') + "\n");
    }
  }

  lemma Reassociate(t: string, x: string, y: string)
    ensures (t + ("\n" + x)) + "\n" + y + "\n" == t + "\n" + (x + ['\n'] + y) + "\n"
  {
  }

  lemma AppendedAgain(content: string, id: string, services: seq<string>, added: seq<string>)
    requires services == [] || services == ServiceLines(id)
    requires added != []
    ensures Appended(Kept(content, services) + "\n", added) == Appended(content, services + added)
  {
    KeptIsTrimmed(content, id, services);
    hide ServiceLines, Join, TrimEnd;
    if services == [] {
      assert services + added == added;
    } else {
      JoinAppend(services, added, '\n');
      Reassociate(TrimEnd(content), Join(services, '\n'), Join(added, '\n'));
    }
  }

  /** Removing the agent's bindings from an upserted text leaves what stands before the new table. */
  lemma RemoveUpserted(content: string, id: string, services: seq<string>, provider: string, agentId: string)
    requires id == WithoutQuotes(agentId) && id != "" && OneLine(id) && OneLine(provider) && '"' !in provider
    requires var r := RemoveBindings(content, agentId);
      services == if HasServiceBlock(r, id) then [] else ServiceLines(id)
    ensures var r := RemoveBindings(content, agentId);
      RemoveBindings(Appended(r, services + BindingLines(id, provider)), agentId) == Kept(r, services) + "\n"
  {
    hide HasServiceBlock, Appended, BindingLines, ServiceLines, Kept, Front, Bindings, NoTriple, OneLine;
    var r := RemoveBindings(content, agentId);
    RemoveTheorem(content, agentId);
    NotInWithout(Bindings(content), id);
    RemoveAgain(r, services, id, provider);
    FrontText(r, services);
    CollapseHasNoTriple(Join(RemoveLines(Split(content, '\n'), id), '\n'));
    KeptHasNoTriple(r, id, services);
    CollapseOfNoTriple(Kept(r, services) + "\n");
  }

  /** Upserting twice is upserting once, as an exact string. */
  lemma UpsertIsIdempotent(content: string, agentId: string, providerName: string)
    requires Writable(agentId, providerName)
    ensures
      var once := Upsert(content, agentId, providerName);
      Upsert(once, agentId, providerName) == once
  {
    hide Upsert, HasServiceBlock, Appended, BindingLines, ServiceLines, Kept, RemoveBindings, OneLine, WithoutQuotes;
    var id, provider := WithoutQuotes(agentId), WithoutQuotes(providerName);
    var r := RemoveBindings(content, agentId);
    var services := if HasServiceBlock(r, id) then [] else ServiceLines(id);
    var B := BindingLines(id, provider);
    var once := Appended(r, services + B);
    UpsertShape(content, agentId, providerName);
    assert Upsert(content, agentId, providerName) == once;
    RemoveUpserted(content, id, services, provider, agentId);
    var r1 := RemoveBindings(once, agentId);
    ServiceIsFound(r, id, services);
    UpsertShape(once, agentId, providerName);
    assert NewLines(r1, id, provider) == [] + B == B;
    BindingLinesNotEmpty(id, provider);
    AppendedAgain(r, id, services, B);
  }

  lemma BindingLinesNotEmpty(id: string, provider: string)
    ensures BindingLines(id, provider) != []
  {
  }
}
