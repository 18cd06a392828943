/** Where an input of resolveSafePath leads, told by its components. */
module SafePathInputs {
  import opened Wrappers
  import opened Text
  import opened SafePath

  // ---- The components that are left, counted from the last one back ----

  /** `ups` counts the later ".." that have not taken a component back yet. */
  function Kept(names: seq<string>, ups: nat): Path {
    if names == [] then []
    else
      var before, last := names[..|names| - 1], names[|names| - 1];
      if last == "" || last == "." then Kept(before, ups)
      else if last == ".." then Kept(before, ups + 1)
      else if ups > 0 then Kept(before, ups - 1)
      else Kept(before, 0) + [last]
  }

  /** How many ".." are left in front. */
  function Climbs(names: seq<string>, ups: nat): nat {
    if names == [] then ups
    else
      var before, last := names[..|names| - 1], names[|names| - 1];
      if last == "" || last == "." then Climbs(before, ups)
      else if last == ".." then Climbs(before, ups + 1)
      else Climbs(before, if ups > 0 then ups - 1 else 0)
  }

  predicate NoSlash(names: seq<string>) {
    forall name | name in names :: '/' !in name
  }

  lemma {:induction false} KeptIsPlain(names: seq<string>, ups: nat)
    requires NoSlash(names)
    ensures AllPlain(Kept(names, ups))
    ensures forall name | name in Kept(names, ups) :: name in names
  {
    if names != [] {
      var before, last := names[..|names| - 1], names[|names| - 1];
      assert NoSlash(before) && last in names;
      KeptIsPlain(before, ups);
      KeptIsPlain(before, ups + 1);
      KeptIsPlain(before, if ups > 0 then ups - 1 else 0);
    }
  }

  lemma KeptSnoc(names: seq<string>, last: string, ups: nat)
    ensures Kept(names + [last], ups) ==
      if last == "" || last == "." then Kept(names, ups)
      else if last == ".." then Kept(names, ups + 1)
      else if ups > 0 then Kept(names, ups - 1)
      else Kept(names, 0) + [last]
    ensures Climbs(names + [last], ups) ==
      if last == "" || last == "." then Climbs(names, ups)
      else if last == ".." then Climbs(names, ups + 1)
      else Climbs(names, if ups > 0 then ups - 1 else 0)
  {
    assert (names + [last])[..|names|] == names;
  }

  function TakenBack(path: Path, n: nat): Path {
    if n <= |path| then path[..|path| - n] else []
  }

  /** Later ".." take back the last components that are left, and then climb. */
  lemma {:induction false} KeptUps(names: seq<string>, ups: nat)
    ensures Kept(names, ups) == TakenBack(Kept(names, 0), ups)
    ensures Climbs(names, ups) ==
      Climbs(names, 0) + (if ups > |Kept(names, 0)| then ups - |Kept(names, 0)| else 0)
  {
    if names != [] {
      var before := names[..|names| - 1];
      KeptUps(before, ups);
      KeptUps(before, ups + 1);
      KeptUps(before, 1);
      if ups > 0 { KeptUps(before, ups - 1); }
    }
  }

  // ---- The stack machine of the path module computes them ----

  function Ups(n: nat): Path { seq(n, _ => "..") }

  /** What the stack machine ends with: climbs, when it may climb, and the components that are left. */
  function Stacked(names: seq<string>, mayClimb: bool): Path {
    Ups(if mayClimb then Climbs(names, 0) else 0) + Kept(names, 0)
  }

  lemma {:induction false} FoldSnoc(stack: Path, names: seq<string>, last: string, mayClimb: bool)
    ensures Fold(stack, names + [last], mayClimb) == Fold(Fold(stack, names, mayClimb), [last], mayClimb)
    decreases |names|
  {
    if names == [] {
      assert names + [last] == [last];
    } else {
      var more := names + [last];
      assert more[0] == names[0] && more[1..] == names[1..] + [last];
      var next :=
        if names[0] == "" || names[0] == "." then stack
        else if names[0] == ".." then
          if stack != [] && stack[|stack| - 1] != ".." then stack[..|stack| - 1]
          else if mayClimb then stack + [".."] else stack
        else stack + [names[0]];
      FoldSnoc(next, names[1..], last, mayClimb);
    }
  }

  lemma FoldOne(stack: Path, name: string, mayClimb: bool)
    ensures Fold(stack, [name], mayClimb) ==
      if name == "" || name == "." then stack
      else if name == ".." then
        if stack != [] && stack[|stack| - 1] != ".." then stack[..|stack| - 1]
        else if mayClimb then stack + [".."] else stack
      else stack + [name]
  {
    assert [name][1..] == [];
  }

  lemma {:induction false} FoldIsStacked(names: seq<string>, mayClimb: bool)
    requires NoSlash(names)
    ensures Fold([], names, mayClimb) == Stacked(names, mayClimb)
  {
    if names == [] {
      assert Ups(0) == [];
    } else {
      var n := |names| - 1;
      assert names == names[..n] + [names[n]];
      FoldIsStacked(names[..n], mayClimb);
      FoldSnoc([], names[..n], names[n], mayClimb);
      FoldOne(Stacked(names[..n], mayClimb), names[n], mayClimb);
      OneMore(names[..n], names[n], mayClimb);
    }
  }

  lemma OneMore(names: seq<string>, last: string, mayClimb: bool)
    requires NoSlash(names)
    ensures var stack := Stacked(names, mayClimb);
      Stacked(names + [last], mayClimb) ==
        if last == "" || last == "." then stack
        else if last == ".." then
          if stack != [] && stack[|stack| - 1] != ".." then stack[..|stack| - 1]
          else if mayClimb then stack + [".."] else stack
        else stack + [last]
  {
    hide Kept, Climbs;
    KeptSnoc(names, last, 0);
    KeptUps(names, 1);
    KeptIsPlain(names, 0);
    var kept := Kept(names, 0);
    if kept != [] {
      assert kept[|kept| - 1] in kept;
    }
  }

  lemma {:induction false} FoldFrom(stack: Path, names: seq<string>)
    requires AllPlain(stack)
    ensures Fold([], stack + names, false) == Fold(stack, names, false)
  {
    if names == [] {
      assert stack + names == stack && [] + stack == stack;
      FoldOfPlain([], stack, false);
    } else {
      var n := |names| - 1;
      FoldFrom(stack, names[..n]);
      FoldSnoc([], stack + names[..n], names[n], false);
      FoldSnoc(stack, names[..n], names[n], false);
      assert stack + names == stack + names[..n] + [names[n]] && names == names[..n] + [names[n]];
    }
  }

  /** The text of a link, resolved by hand from its directory, leads to the components that are left. */
  lemma LinkTextLeads(directory: Path, target: seq<string>)
    requires AllPlain(directory) && NoSlash(target)
    ensures Fold(directory, target, false) == Kept(directory + target, 0)
  {
    assert NoSlash(directory + target) by { assert forall name | name in directory :: Plain(name); }
    FoldFrom(directory, target);
    FoldIsStacked(directory + target, false);
    hide Kept;
    assert Ups(0) + Kept(directory + target, 0) == Kept(directory + target, 0);
  }

  // ---- Laws ----

  /** Whatever stands behind it, the front of a list is read the same. */
  lemma {:induction false} KeptFront(a: seq<string>, a': seq<string>, b: seq<string>, ups: nat)
    requires forall n: nat :: Kept(a, n) == Kept(a', n)
    ensures Kept(a + b, ups) == Kept(a' + b, ups)
    decreases |b|
  {
    if b == [] {
      assert a + b == a && a' + b == a';
    } else {
      var before, last := b[..|b| - 1], b[|b| - 1];
      assert a + b == a + before + [last] && a' + b == a' + before + [last];
      KeptSnoc(a + before, last, ups);
      KeptSnoc(a' + before, last, ups);
      KeptFront(a, a', before, ups);
      KeptFront(a, a', before, ups + 1);
      KeptFront(a, a', before, if ups > 0 then ups - 1 else 0);
    }
  }

  /** A component and a ".." right behind it change nothing, nor do ".", an empty component, and a ".." in front. */
  lemma KeptLaws(a: seq<string>, x: string, b: seq<string>)
    requires Plain(x)
    ensures Kept(a + [x] + [".."] + b, 0) == Kept(a + b, 0)
    ensures Kept(a + ["."] + b, 0) == Kept(a + b, 0) == Kept(a + [""] + b, 0)
    ensures Kept([".."] + b, 0) == Kept(b, 0)
  {
    forall n: nat
      ensures Kept(a + [x] + [".."], n) == Kept(a, n) == Kept(a + ["."], n)
      ensures Kept(a + [""], n) == Kept(a, n)
      ensures Kept([".."], n) == Kept([], n)
    {
      KeptSnoc(a + [x], "..", n);
      KeptSnoc(a, x, n + 1);
      KeptSnoc(a, ".", n);
      KeptSnoc(a, "", n);
    }
    KeptFront(a + [x] + [".."], a, b, 0);
    KeptFront(a + ["."], a, b, 0);
    KeptFront(a + [""], a, b, 0);
    KeptFront([".."], [], b, 0);
    assert [] + b == b;
  }

  // ---- The text that is left after normalizing and dropping climbs ----

  /** Nothing, or one slash. */
  predicate Trailing(tail: string) { tail == "" || tail == "/" }

  lemma JoinUp(names: Path)
    ensures names != [] ==> Join([".."] + names, '/') == "../" + Join(names, '/')
    ensures Join([".."] + [], '/') == ".."
  {
    assert ([".."] + names)[1..] == names;
    assert ".." + ['/'] == "../";
  }

  lemma DropOneClimb(s: string)
    ensures DropClimbs("../" + s) == DropClimbs(s) && DropClimbs("..") == ""
    ensures DropClimbs("..\\" + s) == DropClimbs(s)
  {
    assert ("../" + s)[3..] == s && ("..\\" + s)[3..] == s;
  }

  lemma {:induction false} ClimbsDropped(k: nat, path: Path, tail: string)
    requires Trailing(tail) && Ups(k) + path != []
    ensures DropClimbs(Join(Ups(k) + path, '/') + tail) ==
      if path == [] then "" else DropClimbs(Join(path, '/') + tail)
  {
    hide DropClimbs, Join;
    if k == 0 {
      assert Ups(0) + path == path;
    } else {
      var rest := Ups(k - 1) + path;
      assert Ups(k) + path == [".."] + rest;
      JoinUp(rest);
      DropOneClimb(Join(rest, '/') + tail);
      DropOneClimb("");
      if rest == [] {
        assert ".." + "" == ".." && ".." + "/" == "../" + "";
        LastClimb();
      } else {
        ClimbsDropped(k - 1, path, tail);
        assert "../" + Join(rest, '/') + tail == "../" + (Join(rest, '/') + tail);
      }
    }
  }

  lemma LastClimb()
    ensures DropClimbs("") == ""
  {
  }

  /** Text that begins with a plain component without a backslash keeps it. */
  lemma PlainTextStays(path: Path, tail: string)
    requires path != [] && AllPlain(path) && '\\' !in path[0] && Trailing(tail)
    ensures var s := Join(path, '/') + tail;
      && DropClimbs(s) == s && s != "" && s != "." && s[0] != '/'
      && (StartsWithDots(s) <==> ".." <= path[0])
  {
    JoinEnds(path);
    hide Join;
    var s, name := Join(path, '/') + tail, path[0];
    assert Plain(name) by { assert path[0] in path; }
    assert name <= s;
    assert |s| > |name| ==> s[|name|] == '/';
    assert s[0] == name[0];
    if |name| >= 2 { assert s[1] == name[1]; }
    if |name| >= 3 { assert s[2] == name[2]; }
  }

  lemma SplitTail(path: Path, tail: string)
    requires path != [] && NoSlash(path) && Trailing(tail)
    ensures Split(Join(path, '/') + tail, '/') == path + (if tail == "" then [] else [""])
  {
    hide Join, Split;
    SplitJoin(path, '/');
    if tail == "" {
      assert Join(path, '/') + tail == Join(path, '/') && path + [] == path;
    } else {
      SplitAppend(Join(path, '/'), "", '/');
      assert Join(path, '/') + ['/'] + "" == Join(path, '/') + tail;
      SplitOne("", '/');
    }
  }

  lemma ResolvePlain(root: Path, path: Path, tail: string)
    requires path != [] && AllPlain(path) && '\\' !in path[0] && Trailing(tail)
    ensures ResolveFrom(root, Join(path, '/') + tail) == root + path
  {
    hide Join, Split, Fold, DropClimbs;
    assert NoSlash(path) by { assert forall name | name in path :: Plain(name); }
    PlainTextStays(path, tail);
    SplitTail(path, tail);
    FoldOfPlain(root, path, false);
    if tail == "" {
      assert path + [] == path;
    } else {
      FoldSnoc(root, path, "", false);
      FoldOne(root + path, "", false);
    }
  }

  // ---- The result ----

  /** The path under the root; a first component that begins with two dots is refused. */
  function Jailed(root: Path, path: Path): Option<Path> {
    if path != [] && ".." <= path[0] then None else Some(root + path)
  }

  function Safe(s: string): string { DropClimbs(Normalize(s)) }

  lemma NormalText(s: string, tail: string)
    requires s != "" && s[0] != '/' && tail == if s[|s| - 1] == '/' then "/" else ""
    ensures var stack := Stacked(Split(s, '/'), true);
      Normalize(s) == (if stack == [] then "." else Join(stack, '/')) + tail
  {
    hide Split, Fold, Join, Stacked;
    PartsHaveNoSep(s, '/');
    FoldIsStacked(Split(s, '/'), true);
    var stack := Stacked(Split(s, '/'), true);
    NotEmpty(Split(s, '/'));
    assert "" + Join(stack, '/') + tail == Join(stack, '/') + tail;
  }

  lemma NotEmpty(names: seq<string>)
    requires NoSlash(names)
    ensures Join(Stacked(names, true), '/') == "" <==> Stacked(names, true) == []
  {
    var stack := Stacked(names, true);
    KeptIsPlain(names, 0);
    hide Kept, Climbs;
    if stack != [] {
      assert stack[0] == ".." || (stack[0] in Kept(names, 0) && Plain(stack[0]));
    }
  }

  /** What is left of a normalized text. */
  lemma SafeStack(k: nat, path: Path, tail: string)
    requires AllPlain(path) && (path != [] ==> '\\' !in path[0]) && Trailing(tail)
    ensures var stack := Ups(k) + path;
      DropClimbs((if stack == [] then "." else Join(stack, '/')) + tail) ==
        if path != [] then Join(path, '/') + tail else if k > 0 then "" else "." + tail
  {
    hide Join, AllPlain;
    assert Ups(k) + path != [] <==> k > 0 || path != [];
    if Ups(k) + path != [] { ClimbsDropped(k, path, tail); }
    if path != [] {
      PlainTextStays(path, tail);
    } else {
      assert "." + "" == "." && "." + "/" == "./";
    }
  }

  lemma KeptLacks(s: string)
    requires '\\' !in s
    ensures var path := Kept(Split(s, '/'), 0); AllPlain(path) && (path != [] ==> '\\' !in path[0])
  {
    var path := Kept(Split(s, '/'), 0);
    PartsHaveNoSep(s, '/');
    PartsLack(s, '\\');
    KeptIsPlain(Split(s, '/'), 0);
    hide Split, Kept;
    if path != [] { assert path[0] in path; }
  }

  lemma SafeText(s: string)
    requires s != "" && s[0] != '/' && '\\' !in s
    ensures var path := Kept(Split(s, '/'), 0); var tail := if s[|s| - 1] == '/' then "/" else "";
      Safe(s) == (if path != [] then Join(path, '/') + tail
                  else if Climbs(Split(s, '/'), 0) > 0 then "" else "." + tail)
  {
    hide Split, Join, Kept, Climbs, Normalize, DropClimbs, Ups, AllPlain;
    var tail := if s[|s| - 1] == '/' then "/" else "";
    KeptLacks(s);
    NormalText(s, tail);
    SafeStack(Climbs(Split(s, '/'), 0), Kept(Split(s, '/'), 0), tail);
  }

  lemma {:induction false} PartsLack(s: string, c: char)
    requires c !in s
    ensures forall p | p in Split(s, '/') :: c !in p
  {
    if s != "" { PartsLack(s[1..], c); }
  }

  lemma RelativeLeads(root: Path, s: string)
    requires s != "" && s[0] != '/' && '\\' !in s
    ensures Jailed(root, Kept(Split(s, '/'), 0)) == Resolved(root, Safe(s))
  {
    hide Split, Kept, Climbs, Join, Safe, Jailed, Resolved, AllPlain;
    KeptLacks(s);
    SafeText(s);
    var tail := if s[|s| - 1] == '/' then "/" else "";
    assert "." + tail == if tail == "" then "." else "./";
    SafeLeads(root, Kept(Split(s, '/'), 0), tail, Safe(s));
  }

  /** What is made of the text that is left. */
  function Resolved(root: Path, safe: string): Option<Path> {
    if StartsWithDots(safe) then None else Some(ResolveFrom(root, if safe == "." then "" else safe))
  }

  lemma SafeLeads(root: Path, path: Path, tail: string, safe: string)
    requires AllPlain(path) && (path != [] ==> '\\' !in path[0]) && Trailing(tail)
    requires if path != [] then safe == Join(path, '/') + tail else safe in {"", ".", "./"}
    ensures Jailed(root, path) == Resolved(root, safe)
  {
    hide Join, AllPlain, ResolveFrom;
    if path != [] {
      PlainTextStays(path, tail);
      ResolvePlain(root, path, tail);
    } else {
      RootItself(root);
      assert root + [] == root;
    }
  }

  lemma RootItself(root: Path)
    ensures ResolveFrom(root, "") == root == ResolveFrom(root, "./")
  {
    SplitAppend(".", "", '/');
    SplitOne(".", '/');
    SplitOne("", '/');
    assert "." + ['/'] + "" == "./";
    FoldSnoc(root, ["."], "", false);
    FoldOne(root, ".", false);
    FoldOne(root, "", false);
    assert ["."] + [""] == [".", ""];
  }

  lemma {:induction false} LeadingDropped(lead: string, rest: string)
    requires forall c | c in lead :: c == '/' || c == '\\'
    ensures DropSlashes(lead + rest) == DropSlashes(rest)
  {
    if lead == "" {
      assert lead + rest == rest;
    } else {
      assert lead[0] in lead && (lead + rest)[1..] == lead[1..] + rest;
      assert forall c | c in lead[1..] :: c in lead;
      LeadingDropped(lead[1..], rest);
    }
  }

  /** An empty component in front changes nothing. */
  lemma {:induction false} SlashesDropped(s: string)
    requires '\\' !in s
    ensures Kept(Split(DropSlashes(s), '/'), 0) == Kept(Split(s, '/'), 0)
    ensures '\\' !in DropSlashes(s) && (DropSlashes(s) != "" ==> DropSlashes(s)[0] != '/')
  {
    hide Kept, Split;
    if s != "" && s[0] == '/' {
      SlashesDropped(s[1..]);
      SlashDropped(s);
    }
  }

  lemma SlashDropped(s: string)
    requires s != "" && s[0] == '/'
    ensures Kept(Split(s, '/'), 0) == Kept(Split(s[1..], '/'), 0)
  {
    hide Kept, Split;
    var rest := Split(s[1..], '/');
    SplitFirst('/', s[1..], '/');
    assert ['/'] + s[1..] == s;
    KeptLaws([], "x", rest) by { assert Plain("x"); }
    assert [] + [""] + rest == [""] + rest && [] + rest == rest;
  }

  /**
   * Where an input leads whose backslashes, if any, are in front: to the root and then the components that are left
   * when each later ".." has taken one back, where leading slashes, backslashes and climbs are dropped and a first
   * component that begins with two dots is refused; an input with a NUL is refused.
   */
  lemma LexicalExactly(root: Path, lead: string, rest: string)
    requires (forall c | c in lead :: c == '/' || c == '\\') && '\\' !in rest
    ensures '\0' !in rest ==> Lexical(root, lead + rest) == Jailed(root, Kept(Split(rest, '/'), 0))
    ensures '\0' in rest ==> Lexical(root, lead + rest) == None
  {
    hide Split, Kept, DropSlashes, DropClimbs, Normalize, ResolveFrom, Resolved, Jailed;
    LeadingDropped(lead, rest);
    SlashesDropped(rest);
    TrimmedLeads(root, DropSlashes(rest));
    assert '\0' in lead + rest <==> '\0' in rest;
    if '\0' !in rest { LexicalIs(root, lead + rest); }
  }

  lemma LexicalIs(root: Path, input: string)
    requires '\0' !in input
    ensures Lexical(root, input) == Resolved(root, Safe(DropSlashes(input)))
  {
    hide DropSlashes, DropClimbs, Normalize, ResolveFrom;
  }

  lemma TrimmedLeads(root: Path, s: string)
    requires '\\' !in s && (s != "" ==> s[0] != '/')
    ensures Jailed(root, Kept(Split(s, '/'), 0)) == Resolved(root, Safe(s))
  {
    if s != "" {
      hide *;
      RelativeLeads(root, s);
    } else {
      hide ResolveFrom, Split, Kept;
      RootItself(root);
      SplitOne("", '/');
      KeptSnoc([], "", 0);
      KeptNothing();
      assert [] + [""] == [""] && root + [] == root;
    }
  }

  lemma KeptNothing()
    ensures Kept([], 0) == []
  {
  }

  /** Names of one component each, without a backslash and a NUL. */
  predicate Clean(names: seq<string>) {
    forall name | name in names :: '/' !in name && '\\' !in name && '\0' !in name
  }

  lemma {:induction false} JoinLacks(names: seq<string>, c: char)
    requires c != '/' && forall name | name in names :: c !in name
    ensures c !in Join(names, '/')
  {
    if names != [] {
      assert names[0] in names;
      JoinLacks(names[1..], c);
    }
  }

  lemma LexicalOfNames(root: Path, names: seq<string>)
    requires Clean(names)
    ensures Lexical(root, Join(names, '/')) == Jailed(root, Kept(names, 0))
  {
    JoinLacks(names, '\\');
    JoinLacks(names, '\0');
    LexicalExactly(root, "", Join(names, '/'));
    assert "" + Join(names, '/') == Join(names, '/');
    if names == [] {
      SplitOne("", '/');
      KeptSnoc([], "", 0);
      assert [] + [""] == [""];
    } else {
      SplitJoin(names, '/');
    }
  }

  /**
   * The laws of "..", ".", and empty components, for any components before and after: a ".." takes back the component
   * before it, or is dropped when it stands in front; the others change nothing.
   */
  lemma LexicalLaws(root: Path, a: seq<string>, x: string, b: seq<string>)
    requires Clean(a) && Plain(x) && Clean([x]) && Clean(b)
    ensures Lexical(root, Join(a + [x] + [".."] + b, '/')) == Lexical(root, Join(a + b, '/'))
    ensures Lexical(root, Join(a + ["."] + b, '/')) == Lexical(root, Join(a + b, '/'))
    ensures Lexical(root, Join(a + [""] + b, '/')) == Lexical(root, Join(a + b, '/'))
    ensures Lexical(root, Join([".."] + b, '/')) == Lexical(root, Join(b, '/'))
  {
    assert x in [x];
    KeptLaws(a, x, b);
    LexicalOfNames(root, a + [x] + [".."] + b);
    LexicalOfNames(root, a + ["."] + b);
    LexicalOfNames(root, a + [""] + b);
    LexicalOfNames(root, [".."] + b);
    LexicalOfNames(root, a + b);
    LexicalOfNames(root, b);
    hide Lexical, Join, Kept, Jailed;
  }

  /** "..\\", k times. */
  function Climbing(k: nat): string {
    if k == 0 then "" else "..\\" + Climbing(k - 1)
  }

  lemma {:induction false} ClimbingDropped(k: nat, s: string)
    ensures DropClimbs(Climbing(k) + s) == DropClimbs(s)
  {
    hide DropClimbs;
    if k == 0 {
      assert "" + s == s;
    } else {
      ClimbingDropped(k - 1, s);
      DropOneClimb(Climbing(k - 1) + s);
      assert Climbing(k) + s == "..\\" + (Climbing(k - 1) + s);
    }
  }

  lemma {:induction false} ClimbingIs(k: nat)
    ensures forall c | c in Climbing(k) :: c == '.' || c == '\\'
    ensures k > 0 ==> |Climbing(k)| > 2 && Climbing(k)[0] == '.'
  {
    if k > 0 { ClimbingIs(k - 1); }
  }

  lemma Regroup(a: string, b: string, c: string, d: string)
    ensures a + (b + c + d) == (a + b) + c + d
  {
  }

  lemma JoinBehind(front: string, names: Path)
    requires names != []
    ensures front + Join(names, '/') == Join([front + names[0]] + names[1..], '/')
  {
    var longer := [front + names[0]] + names[1..];
    assert longer[1..] == names[1..];
    if |names| > 1 { Regroup(front, names[0], ['/'], Join(names[1..], '/')); }
  }

  lemma ClimbingIsPlain(k: nat, names: Path)
    requires Ordinary(names) && k > 0
    ensures AllPlain([Climbing(k) + names[0]] + names[1..])
    ensures forall name | name in [Climbing(k) + names[0]] + names[1..] :: '/' !in name
  {
    hide Join, Climbing, StartsWithDots;
    ClimbingIs(k);
    var longer := [Climbing(k) + names[0]] + names[1..];
    assert names[0] in names;
    assert Plain(longer[0]);
    assert forall name | name in longer :: name == longer[0] || name in names;
  }

  lemma ClimbingNormal(k: nat, names: Path)
    requires Ordinary(names) && k > 0
    ensures var s := Climbing(k) + Join(names, '/'); DropSlashes(s) == s == Normalize(s) && '\0' !in s
  {
    hide Join, Split, Fold, Normalize, AllPlain, Climbing, StartsWithDots;
    var longer := [Climbing(k) + names[0]] + names[1..];
    var s := Climbing(k) + Join(names, '/');
    JoinBehind(Climbing(k), names);
    ClimbingIs(k);
    ClimbingIsPlain(k, names);
    SplitJoin(longer, '/');
    FoldOfPlain([], longer, true);
    JoinEnds(longer);
    assert [] + longer == longer;
    NormalizedAs(s, longer);
  }

  /** Climbs that end in a backslash are dropped as well. */
  lemma BackslashClimbsDropped(root: Path, k: nat, names: Path)
    requires Ordinary(names)
    ensures Lexical(root, Climbing(k) + Join(names, '/')) == Some(root + names)
  {
    var s := Join(names, '/');
    OrdinaryInput(root, names);
    OrdinaryStart(names);
    OrdinaryNormal(names);
    ClimbingDropped(k, s);
    if k > 0 { ClimbingNormal(k, names); }
    hide Join, Split, Fold, Normalize, Climbing, DropClimbs, Ordinary, ResolveFrom, StartsWithDots;
    if k == 0 { NoClimbing(s); } else { hide DropSlashes; assert DropSlashes(s) == s by { NoSlashes(s); } }
  }

  lemma NoClimbing(s: string)
    ensures Climbing(0) + s == s
  {
  }

  lemma NoSlashes(s: string)
    requires s != "" && s[0] != '/' && s[0] != '\\'
    ensures DropSlashes(s) == s
  {
  }
}
