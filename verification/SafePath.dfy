/** resolveSafePath of workspace.js. */
module SafePath {
  // The lexical part is on strings, the walk over the components on a file system with symbolic links. Absolute
  // normalized paths are sequences of component names.

  import opened Wrappers
  import opened Text

  type Path = seq<string>

  /** A component of a normalized path. */
  predicate Plain(name: string) {
    name != "" && name != "." && name != ".." && '/' !in name
  }

  predicate AllPlain(path: Path) {
    forall name | name in path :: Plain(name)
  }

  // ---- The file system ----

  /** The text of a link, split at the slashes. */
  datatype Node = Dir | File | Link(absolute: bool, target: Path)

  /** Nodes by real location: every proper prefix of a location is a directory. */
  type Fs = map<Path, Node>

  predicate WellFormed(fs: Fs) {
    && [] in fs && fs[[]] == Dir
    && forall p | p in fs && p != [] :: p[..|p| - 1] in fs && fs[p[..|p| - 1]] == Dir
  }

  const MAX_LINKS := 40

  /** One component on from a real location: the new location, and the text of a link that was met instead. */
  datatype Move = Stuck | Move(at: Path, text: Path, links: nat)

  function Enter(fs: Fs, at: Path, name: string, links: nat): (m: Move)
    requires WellFormed(fs) && at in fs && !fs[at].Link?
    ensures m.Move? ==> m.at in fs && !fs[m.at].Link? && (m.links < links || (m.links == links && m.text == []))
  {
    if fs[at] != Dir then Stuck
    else if name == "" || name == "." then Move(at, [], links)
    else if name == ".." then Move(if at == [] then [] else at[..|at| - 1], [], links)
    else
      var child := at + [name];
      if child !in fs then Stuck
      else match fs[child]
        case Link(absolute, target) =>
          if links == 0 then Stuck else Move(if absolute then [] else at, target, links - 1)
        case _ => Move(child, [], links)
  }

  /** Path resolution of the operating system, from the real location `at`; None for any error. */
  function Walk(fs: Fs, at: Path, rest: Path, links: nat): (r: Option<Path>)
    requires WellFormed(fs) && at in fs && !fs[at].Link?
    ensures r.Some? ==> r.value in fs && !fs[r.value].Link?
    decreases links, |rest|
  {
    if rest == [] then Some(at)
    else
      match Enter(fs, at, rest[0], links)
      case Stuck => None
      case Move(next, text, left) => Walk(fs, next, text + rest[1..], left)
  }

  /** fs.realpathSync.native */
  function Realpath(fs: Fs, path: Path): (r: Option<Path>)
    requires WellFormed(fs)
    ensures r.Some? ==> r.value in fs && !fs[r.value].Link?
  {
    Walk(fs, [], path, MAX_LINKS)
  }

  /** fs.lstatSync, on a path that ends in a plain name: its own link is not followed. */
  function Lstat(fs: Fs, path: Path): Option<Node>
    requires WellFormed(fs) && path != []
  {
    var parent := Realpath(fs, path[..|path| - 1]);
    if parent.Some? && fs[parent.value] == Dir && parent.value + [path[|path| - 1]] in fs
    then Some(fs[parent.value + [path[|path| - 1]]])
    else None
  }

  // ---- Facts about path resolution ----

  /** A path whose prefix does not resolve does not resolve. */
  lemma {:induction false} WalkPrefix(fs: Fs, at: Path, a: Path, b: Path, links: nat)
    requires WellFormed(fs) && at in fs && !fs[at].Link? && Walk(fs, at, a + b, links).Some?
    ensures Walk(fs, at, a, links).Some?
    decreases links, |a|
  {
    hide Enter, WellFormed;
    if a != [] {
      var m := Enter(fs, at, a[0], links);
      assert (a + b)[0] == a[0] && m.text + (a + b)[1..] == (m.text + a[1..]) + b;
      WalkPrefix(fs, m.at, m.text + a[1..], b, m.links);
    }
  }

  /** The last component is entered from where the others lead. */
  lemma {:induction false} WalkLast(fs: Fs, at: Path, a: Path, name: string, links: nat) returns (left: nat)
    requires WellFormed(fs) && at in fs && !fs[at].Link? && Walk(fs, at, a, links).Some?
    ensures var x := Walk(fs, at, a, links).value;
      Walk(fs, at, a + [name], links) == Walk(fs, x, [name], left)
    decreases links, |a|
  {
    hide Enter, WellFormed;
    if a == [] {
      left := links;
      assert a + [name] == [name];
    } else {
      var m := Enter(fs, at, a[0], links);
      assert (a + [name])[0] == a[0] && m.text + (a + [name])[1..] == (m.text + a[1..]) + [name];
      left := WalkLast(fs, m.at, m.text + a[1..], name, m.links);
    }
  }

  /** One more plain component: it must be there, and unless it is a link it stays where it is. */
  lemma WalkStep(fs: Fs, at: Path, a: Path, name: string, links: nat)
    requires WellFormed(fs) && at in fs && !fs[at].Link? && Walk(fs, at, a, links).Some? && Plain(name)
    ensures var x := Walk(fs, at, a, links).value;
      && x in fs
      && (!(fs[x] == Dir && x + [name] in fs) ==> Walk(fs, at, a + [name], links) == None)
      && (fs[x] == Dir && x + [name] in fs && !fs[x + [name]].Link? ==>
            Walk(fs, at, a + [name], links) == Some(x + [name]))
  {
    var left := WalkLast(fs, at, a, name, links);
    var x := Walk(fs, at, a, links).value;
    EnterLast(fs, x, name, left);
    hide Walk, WellFormed;
  }

  lemma EnterLast(fs: Fs, x: Path, name: string, links: nat)
    requires WellFormed(fs) && x in fs && !fs[x].Link? && Plain(name)
    ensures !(fs[x] == Dir && x + [name] in fs) ==> Walk(fs, x, [name], links) == None
    ensures fs[x] == Dir && x + [name] in fs && !fs[x + [name]].Link? ==> Walk(fs, x, [name], links) == Some(x + [name])
  {
    assert [name][1..] == [] && [] + [name][1..] == [];
  }

  /** A path is missing from its first missing component on. */
  lemma MissingFrom(fs: Fs, path: Path, n: nat, m: nat)
    requires WellFormed(fs) && n <= m <= |path| && Realpath(fs, path[..n]) == None
    ensures Realpath(fs, path[..m]) == None
  {
    assert path[..m] == path[..n] + path[n..m];
    if Realpath(fs, path[..m]).Some? { WalkPrefix(fs, [], path[..n], path[n..m], MAX_LINKS); }
  }

  // ---- The real location of a path ----

  /** The length of the longest prefix, of at most n components, that exists. */
  function Existing(fs: Fs, path: Path, n: nat): (e: nat)
    requires WellFormed(fs) && n <= |path|
    ensures e <= n && Realpath(fs, path[..e]).Some?
    ensures forall m | e < m <= n :: Realpath(fs, path[..m]) == None
  {
    if n == 0 || Realpath(fs, path[..n]).Some? then n else Existing(fs, path, n - 1)
  }

  /** The real path of the longest existing prefix, and the rest as it is written. */
  function RealLocation(fs: Fs, path: Path): Path
    requires WellFormed(fs)
  {
    var e := Existing(fs, path, |path|);
    Realpath(fs, path[..e]).value + path[e..]
  }

  /** Every symbolic link met on the way to the path has a target that exists. */
  ghost predicate LinksResolve(fs: Fs, path: Path)
    requires WellFormed(fs)
  {
    forall n | 0 < n <= |path| && Lstat(fs, path[..n]).Some? && Lstat(fs, path[..n]).value.Link? ::
      Realpath(fs, path[..n]).Some?
  }

  /** Every existing prefix from the root on is really inside the real root. */
  ghost predicate Contained(fs: Fs, root: Path, path: Path)
    requires WellFormed(fs)
  {
    forall n | |root| <= n <= |path| && Realpath(fs, path[..n]).Some? ::
        RealRoot(fs, root) <= Realpath(fs, path[..n]).value
  }

  /** realpath of the root, or the root itself when that fails. */
  function RealRoot(fs: Fs, root: Path): Path
    requires WellFormed(fs)
  {
    var r := Realpath(fs, root);
    if r.Some? then r.value else root
  }

  lemma ExistingIs(fs: Fs, path: Path, n: nat, e: nat)
    requires WellFormed(fs) && e <= n <= |path| && Realpath(fs, path[..e]).Some?
    requires forall m | e < m <= n :: Realpath(fs, path[..m]) == None
    ensures Existing(fs, path, n) == e
  {
    hide Realpath;
    var x := Existing(fs, path, n);
    assert Realpath(fs, path[..x]).Some?;
  }

  lemma ExistsBefore(fs: Fs, path: Path, n: nat, m: nat)
    requires WellFormed(fs) && n <= m <= |path| && Realpath(fs, path[..m]).Some?
    ensures Realpath(fs, path[..n]).Some?
  {
    assert path[..m] == path[..n] + path[n..m];
    WalkPrefix(fs, [], path[..n], path[n..m], MAX_LINKS);
  }

  /** The existing part of the root, when the path does not exist further than that. */
  lemma ExistingOfRoot(fs: Fs, root: Path, path: Path, e: nat)
    requires WellFormed(fs) && root <= path && e < |root| && e == Existing(fs, path, |path|)
    ensures Existing(fs, root, |root|) == e && path[..e] == root[..e]
  {
    hide Realpath, WellFormed;
    assert path[..e] == root[..e];
    forall m: nat | e < m <= |root| ensures Realpath(fs, root[..m]) == None { assert path[..m] == root[..m]; }
    ExistingIs(fs, root, |root|, e);
  }

  /** Contained paths are really located inside the real location of the root. */
  lemma ContainedIsInside(fs: Fs, root: Path, path: Path)
    requires WellFormed(fs) && root <= path && Contained(fs, root, path)
    ensures RealLocation(fs, root) <= RealLocation(fs, path)
  {
    if Existing(fs, path, |path|) >= |root| {
      RootExists(fs, root, path);
    } else {
      RootIsMissing(fs, root, path);
    }
  }

  lemma RootExists(fs: Fs, root: Path, path: Path)
    requires WellFormed(fs) && root <= path && Contained(fs, root, path) && Existing(fs, path, |path|) >= |root|
    ensures RealLocation(fs, root) <= RealLocation(fs, path)
  {
    hide Realpath, WellFormed, Existing;
    var e := Existing(fs, path, |path|);
    ExistsBefore(fs, path, |root|, e);
    assert path[..|root|] == root && root[..|root|] == root;
    ExistingIs(fs, root, |root|, |root|);
    assert root[|root|..] == [];
    assert RealRoot(fs, root) <= Realpath(fs, path[..e]).value;
  }

  lemma RootIsMissing(fs: Fs, root: Path, path: Path)
    requires WellFormed(fs) && root <= path && Existing(fs, path, |path|) < |root|
    ensures RealLocation(fs, root) <= RealLocation(fs, path)
  {
    hide Realpath, WellFormed, Existing;
    var e := Existing(fs, path, |path|);
    ExistingOfRoot(fs, root, path, e);
    assert path[e..] == root[e..] + path[|root|..];
  }

  // ---- The walk of resolveSafePath ----

  lemma RealpathStep(fs: Fs, path: Path, name: string)
    requires WellFormed(fs) && Plain(name) && Realpath(fs, path).Some?
    ensures var x := Realpath(fs, path).value;
      match Lstat(fs, path + [name])
      case None => Realpath(fs, path + [name]) == None
      case Some(Link(_, _)) => true
      case Some(_) => Realpath(fs, path + [name]) == Some(x + [name])
  {
    var longer := path + [name];
    assert longer[..|longer| - 1] == path && longer[|longer| - 1] == name;
    WalkStep(fs, [], path, name, MAX_LINKS);
  }

  /** An unreachable parent hides the component. */
  lemma MissingParent(fs: Fs, path: Path, name: string)
    requires WellFormed(fs) && Realpath(fs, path) == None
    ensures Lstat(fs, path + [name]) == None && Realpath(fs, path + [name]) == None
  {
    var longer := path + [name];
    assert longer[..|longer| - 1] == path;
    assert longer[..|longer|] == longer;
    MissingFrom(fs, longer, |path|, |longer|);
  }

  /** path.relative, split: the climbs, and then the components. */
  function Relative(from: Path, to: Path): Path {
    if from != [] && to != [] && from[0] == to[0] then Relative(from[1..], to[1..])
    else seq(|from|, _ => "..") + to
  }

  lemma {:induction false} RelativeIs(from: Path, to: Path)
    requires AllPlain(to)
    ensures from <= to ==> Relative(from, to) == to[|from|..]
    ensures !(from <= to) ==> Relative(from, to) != [] && Relative(from, to)[0] == ".."
  {
    if from != [] && to != [] && from[0] == to[0] {
      RelativeIs(from[1..], to[1..]);
      assert from == [from[0]] + from[1..] && to == [to[0]] + to[1..];
      assert from <= to <==> from[1..] <= to[1..];
    }
  }

  // ---- The lexical part ----

  /** The stack of components after more of them: "." and empty ones are skipped, ".." pops, or climbs if it may. */
  function Fold(stack: Path, names: seq<string>, mayClimb: bool): Path
    decreases |names|
  {
    if names == [] then stack
    else if names[0] == "" || names[0] == "." then Fold(stack, names[1..], mayClimb)
    else if names[0] == ".." then
      if stack != [] && stack[|stack| - 1] != ".." then Fold(stack[..|stack| - 1], names[1..], mayClimb)
      else Fold(if mayClimb then stack + [".."] else stack, names[1..], mayClimb)
    else Fold(stack + [names[0]], names[1..], mayClimb)
  }

  /** path.normalize */
  function Normalize(s: string): string {
    if s == "" then "."
    else
      var absolute, trailing := s[0] == '/', s[|s| - 1] == '/';
      var body := Join(Fold([], Split(s, '/'), !absolute), '/');
      if body == "" then (if absolute then "/" else if trailing then "./" else ".")
      else (if absolute then "/" else "") + body + (if trailing then "/" else "")
  }

  /** path.resolve(root, s) */
  function ResolveFrom(root: Path, s: string): Path {
    Fold(if s != "" && s[0] == '/' then [] else root, Split(s, '/'), false)
  }

  /** The leading slashes and backslashes are dropped. */
  function DropSlashes(s: string): string {
    if s != "" && (s[0] == '/' || s[0] == '\\') then DropSlashes(s[1..]) else s
  }

  predicate StartsWithDots(s: string) { |s| >= 2 && s[0] == '.' && s[1] == '.' }

  /** Leading climbs are dropped, whether they end in a slash, a backslash or the end of the text. */
  function DropClimbs(s: string): string {
    if StartsWithDots(s) && (|s| == 2 || s[2] == '/' || s[2] == '\\')
    then if |s| == 2 then "" else DropClimbs(s[3..])
    else s
  }

  /** The absolute path of an input, before the file system is looked at. */
  function Lexical(root: Path, input: string): Option<Path> {
    if '\0' in input then None
    else
      var safe := DropClimbs(Normalize(DropSlashes(input)));
      if StartsWithDots(safe) then None
      else Some(ResolveFrom(root, if safe == "." then "" else safe))
  }

  lemma {:induction false} FoldIsPlain(stack: Path, names: seq<string>)
    requires AllPlain(stack) && forall name | name in names :: '/' !in name
    ensures AllPlain(Fold(stack, names, false))
    decreases |names|
  {
    if names != [] {
      var pops := stack != [] && stack[|stack| - 1] != "..";
      FoldIsPlain(if names[0] == "" || names[0] == "." then stack
                  else if names[0] == ".." then (if pops then stack[..|stack| - 1] else stack)
                  else stack + [names[0]], names[1..]);
    }
  }

  lemma LexicalIsPlain(root: Path, input: string)
    requires AllPlain(root) && Lexical(root, input).Some?
    ensures AllPlain(Lexical(root, input).value)
  {
    var safe := DropClimbs(Normalize(DropSlashes(input)));
    var s := if safe == "." then "" else safe;
    PartsHaveNoSep(s, '/');
    FoldIsPlain(if s != "" && s[0] == '/' then [] else root, Split(s, '/'));
  }

  lemma {:induction false} FoldOfPlain(stack: Path, names: seq<string>, mayClimb: bool)
    requires AllPlain(names)
    ensures Fold(stack, names, mayClimb) == stack + names
    decreases |names|
  {
    if names != [] {
      assert names[0] in names;
      FoldOfPlain(stack + [names[0]], names[1..], mayClimb);
      assert stack + [names[0]] + names[1..] == stack + names;
    }
  }

  lemma {:induction false} JoinEnds(names: seq<string>)
    requires names != [] && AllPlain(names)
    ensures var s := Join(names, '/'); s != "" && s[|s| - 1] != '/'
    ensures names[0] <= Join(names, '/')
    ensures |names| > 1 ==> |Join(names, '/')| > |names[0]| && Join(names, '/')[|names[0]|] == '/'
    ensures |names| == 1 ==> Join(names, '/') == names[0]
  {
    assert names[0] in names;
    if |names| > 1 { JoinEnds(names[1..]); }
  }

  /** Names that make up an ordinary relative path. */
  predicate Ordinary(names: Path) {
    && names != [] && AllPlain(names) && '\0' !in Join(names, '/')
    && names[0] != "" && names[0][0] != '\\' && !StartsWithDots(names[0])
  }

  lemma OrdinaryStart(names: Path)
    requires Ordinary(names)
    ensures var s := Join(names, '/'); s != "" && s[0] != '/' && s[0] != '\\' && s[|s| - 1] != '/' && !StartsWithDots(s)
    ensures Join(names, '/') != "."
  {
    var s := Join(names, '/');
    assert names[0] in names;
    JoinEnds(names);
    hide Join;
    assert s[0] == names[0][0];
    if |names[0]| >= 2 { assert s[1] == names[0][1]; }
  }

  lemma OrdinaryNormal(names: Path)
    requires Ordinary(names)
    ensures Normalize(Join(names, '/')) == Join(names, '/')
  {
    hide Join, Split, Fold, Ordinary, Normalize, StartsWithDots;
    OrdinaryStart(names);
    OrdinaryFold(names);
    NormalizedAs(Join(names, '/'), names);
  }

  lemma OrdinaryFold(names: Path)
    requires Ordinary(names)
    ensures Fold([], Split(Join(names, '/'), '/'), true) == names
  {
    hide Join, Split, Fold, StartsWithDots;
    SplitJoin(names, '/') by { assert forall name | name in names :: Plain(name); }
    FoldOfPlain([], names, true);
    assert [] + names == names;
  }

  lemma NormalizedAs(s: string, names: Path)
    requires s != "" && s[0] != '/' && s[|s| - 1] != '/' && Fold([], Split(s, '/'), true) == names
    requires Join(names, '/') == s
    ensures Normalize(s) == s
  {
    hide Join, Split, Fold;
    assert "" + s + "" == s;
  }

  /** An ordinary relative path is taken as it is: no component is lost, changed or moved. */
  lemma OrdinaryInput(root: Path, names: Path)
    requires Ordinary(names)
    ensures Lexical(root, Join(names, '/')) == Some(root + names)
  {
    var s := Join(names, '/');
    OrdinaryStart(names);
    OrdinaryNormal(names);
    SplitJoin(names, '/') by { assert forall name | name in names :: Plain(name); }
    FoldOfPlain(root, names, false);
    hide Join, Split, Fold, Normalize;
    assert DropSlashes(s) == s && DropClimbs(s) == s;
  }

  // ---- resolveSafePath ----

  /** Where the link at the end of the first n components leads; by its text when what it names does not exist. */
  function LinkTarget(fs: Fs, path: Path, n: nat): Path
    requires WellFormed(fs) && 0 < n <= |path| && Lstat(fs, path[..n]).Some? && Lstat(fs, path[..n]).value.Link?
  {
    var found, link := Realpath(fs, path[..n]), Lstat(fs, path[..n]).value;
    if found.Some? then found.value else Fold(if link.absolute then [] else path[..n - 1], link.target, false)
  }

  ghost predicate LinkStays(fs: Fs, root: Path, path: Path, n: nat)
    requires WellFormed(fs) && 0 < n <= |path|
  {
    Lstat(fs, path[..n]).Some? && Lstat(fs, path[..n]).value.Link? ==> RealRoot(fs, root) <= LinkTarget(fs, path, n)
  }

  /** Each of the first n components that is a link leads under the real root. */
  ghost predicate LinksStay(fs: Fs, root: Path, path: Path, n: nat)
    requires WellFormed(fs) && n <= |path|
  {
    forall m | |root| < m <= n :: LinkStays(fs, root, path, m)
  }

  /** Unless the root is missing, `at` is the real path of the first n components, and nothing left the root so far. */
  ghost predicate Walked(fs: Fs, root: Path, path: Path, n: nat, at: Path)
    requires WellFormed(fs)
  {
    && |root| <= n <= |path|
    && (Realpath(fs, path[..n]) == Some(at) || (n == |root| && Realpath(fs, path[..n]) == None && at == root))
    && forall m | |root| <= m <= n && Realpath(fs, path[..m]).Some? ::
        RealRoot(fs, root) <= Realpath(fs, path[..m]).value
  }

  lemma NextStep(fs: Fs, path: Path, n: nat)
    requires WellFormed(fs) && n < |path| && AllPlain(path)
    ensures match Lstat(fs, path[..n + 1])
      case None => Realpath(fs, path[..n + 1]) == None
      case Some(Link(_, _)) => true
      case Some(_) =>
        var before := Realpath(fs, path[..n]);
        before.Some? && Realpath(fs, path[..n + 1]) == Some(before.value + [path[n]])
  {
    assert path[..n + 1] == path[..n] + [path[n]] && path[n] in path;
    hide Realpath, Lstat, WellFormed;
    if Realpath(fs, path[..n]).Some? {
      RealpathStep(fs, path[..n], path[n]);
    } else {
      MissingParent(fs, path[..n], path[n]);
    }
  }

  lemma StopsHere(fs: Fs, root: Path, path: Path, n: nat, at: Path, current: Path, name: string)
    requires WellFormed(fs) && AllPlain(path) && Walked(fs, root, path, n, at) && At(path, n, current, name)
    requires Lstat(fs, current) == None
    ensures Contained(fs, root, path)
  {
    NextStep(fs, path, n);
    hide Realpath, Lstat, WellFormed, RealRoot, AllPlain;
    forall m | |root| <= m <= |path| && Realpath(fs, path[..m]).Some?
      ensures RealRoot(fs, root) <= Realpath(fs, path[..m]).value
    {
      if m > n { ExistsBefore(fs, path, n + 1, m); }
    }
  }

  lemma StepsOn(fs: Fs, root: Path, path: Path, n: nat, at: Path, current: Path, name: string)
    requires WellFormed(fs) && AllPlain(path) && Walked(fs, root, path, n, at) && At(path, n, current, name)
    requires Lstat(fs, current).Some? && !Lstat(fs, current).value.Link? && Under(RealRoot(fs, root), at)
    ensures Walked(fs, root, path, n + 1, at + [name])
  {
    NextStep(fs, path, n);
    StaysUnder(RealRoot(fs, root), at, [name]);
    hide Realpath, Lstat, WellFormed, RealRoot, AllPlain;
  }

  /** The same, while the walk has taken i parts of a path under the root. */
  ghost predicate StaysSoFar(fs: Fs, root: Path, path: Path, i: nat)
    requires WellFormed(fs)
  {
    Under(root, path) ==> |root| + i <= |path| && LinksStay(fs, root, path, |root| + i)
  }

  lemma NothingBeyond(fs: Fs, root: Path, path: Path, n: nat)
    requires WellFormed(fs) && AllPlain(path) && |root| <= n < |path|
    requires LinksStay(fs, root, path, n) && Lstat(fs, path[..n + 1]) == None
    ensures LinksStay(fs, root, path, |path|)
  {
    hide LinkStays, Realpath, Lstat, RealRoot, WellFormed, Fold, AllPlain;
    forall m | n < m <= |path| ensures LinkStays(fs, root, path, m) { NoLinkBeyond(fs, root, path, n, m); }
    assert forall m | |root| < m <= n :: LinkStays(fs, root, path, m);
  }

  lemma NoLinkBeyond(fs: Fs, root: Path, path: Path, n: nat, m: nat)
    requires WellFormed(fs) && AllPlain(path) && n < m <= |path| && Lstat(fs, path[..n + 1]) == None
    ensures LinkStays(fs, root, path, m)
  {
    hide Realpath, RealRoot, WellFormed, Fold, AllPlain;
    NextStep(fs, path, n);
    if m > n + 1 {
      MissingFrom(fs, path, n + 1, m - 1);
      assert path[..m][..m - 1] == path[..m - 1];
    }
  }

  /** What one more component decides. */
  lemma StaysOn(fs: Fs, root: Path, path: Path, i: nat, current: Path, name: string)
    requires WellFormed(fs) && AllPlain(path) && Under(root, path) && At(path, |root| + i, current, name)
    requires StaysSoFar(fs, root, path, i)
    ensures Lstat(fs, current) == None ==> LinksStay(fs, root, path, |path|)
    ensures Lstat(fs, current).Some? && !Lstat(fs, current).value.Link? ==> StaysSoFar(fs, root, path, i + 1)
    ensures Lstat(fs, current).Some? && Lstat(fs, current).value.Link? ==>
      && current == path[..|root| + i + 1]
      && (Under(RealRoot(fs, root), LinkTarget(fs, path, |root| + i + 1)) ==> StaysSoFar(fs, root, path, i + 1))
      && (!Under(RealRoot(fs, root), LinkTarget(fs, path, |root| + i + 1)) ==> !LinksStay(fs, root, path, |path|))
  {
    hide Realpath, RealRoot, WellFormed, Fold, Lstat, AllPlain, LinkTarget;
    var n := |root| + i;
    if Lstat(fs, current) == None {
      NothingBeyond(fs, root, path, n);
    } else {
      assert LinkStays(fs, root, path, n + 1) <==>
        (Lstat(fs, current).value.Link? ==> Under(RealRoot(fs, root), LinkTarget(fs, path, n + 1)));
    }
  }

  /** The link text is resolved from the directory of the link. */
  lemma TargetIs(fs: Fs, root: Path, path: Path, parts: Path, i: nat, current: Path, name: string)
    requires WellFormed(fs) && Under(root, path) && PartsOf(root, path, parts) && i < |parts|
    requires At(path, |root| + i, current, name)
    requires Lstat(fs, current).Some? && Lstat(fs, current).value.Link?
    ensures current == path[..|root| + i + 1]
    ensures var link := Lstat(fs, current).value;
      LinkTarget(fs, path, |root| + i + 1) ==
        if Realpath(fs, current).Some? then Realpath(fs, current).value
        else Fold(if link.absolute then [] else Joined(root, parts, i), link.target, false)
  {
    hide Realpath, Lstat, WellFormed, Fold;
    assert Joined(root, parts, i) == path[..|root| + i];
  }

  lemma StaysToTheEnd(fs: Fs, root: Path, path: Path, parts: Path)
    requires WellFormed(fs) && PartsOf(root, path, parts)
    ensures Under(root, path) ==> (StaysSoFar(fs, root, path, |parts|) <==> LinksStay(fs, root, path, |path|))
  {
    hide WellFormed, LinkStays;
  }

  /**
   * The path under the root, or None. `r` is the lexical resolution when it is given at all; and it is given exactly
   * when the path is under the root and every link on the way leads under the real root. When every link has an
   * existing target, that is when all that exists of the path is really inside the real root.
   */
  method ResolveSafePath(fs: Fs, root: Path, input: string) returns (r: Option<Path>)
    requires WellFormed(fs) && AllPlain(root)
    ensures r.Some? ==> r == Lexical(root, input) && root <= r.value && AllPlain(r.value)
    ensures r.Some? <==>
      && Lexical(root, input).Some? && root <= Lexical(root, input).value
      && LinksStay(fs, root, Lexical(root, input).value, |Lexical(root, input).value|)
    ensures Lexical(root, input).Some? && LinksResolve(fs, Lexical(root, input).value) ==>
      (r.Some? <==> root <= Lexical(root, input).value && Contained(fs, root, Lexical(root, input).value))
    ensures r.Some? && LinksResolve(fs, r.value) ==> RealLocation(fs, root) <= RealLocation(fs, r.value)
  {
    var lexical := Lexical(root, input);
    if lexical.None? { return None; }
    var absolute := lexical.value;
    LexicalIsPlain(root, input);
    var realRoot := RealRoot(fs, root);
    var parts := Relative(root, absolute);
    RelativeIs(root, absolute);
    hide Relative, Lexical, Realpath, LinksResolve, LinksStay, Contained, AllPlain, WellFormed, RealLocation;
    r := WalkParts(fs, root, absolute, parts, realRoot);
    if root <= absolute && Contained(fs, root, absolute) { ContainedIsInside(fs, root, absolute); }
  }

  predicate Under(root: Path, path: Path) { root <= path }

  /** The root joined with the first n parts. */
  function Joined(root: Path, parts: Path, n: nat): (path: Path)
    requires n <= |parts|
    ensures n > 0 ==> path != []
  {
    root + parts[..n]
  }

  function Remaining(parts: Path, i: nat): Path
    requires i <= |parts|
  {
    parts[i..]
  }

  /** The parts lead from the root to the path; when it is not under the root they start with a climb. */
  predicate PartsOf(root: Path, absolute: Path, parts: Path) {
    if Under(root, absolute) then |root| <= |absolute| && parts == absolute[|root|..]
    else parts != [] && parts[0] == ".."
  }

  /** `current` is the prefix of the path that ends with its component n. */
  ghost predicate At(path: Path, n: nat, current: Path, name: string) {
    n < |path| && current == path[..n + 1] && name == path[n] && current != []
  }

  /** The loop over the components of the relative path. */
  method WalkParts(fs: Fs, root: Path, absolute: Path, parts: Path, realRoot: Path) returns (r: Option<Path>)
    requires WellFormed(fs) && AllPlain(absolute) && realRoot == RealRoot(fs, root)
    requires PartsOf(root, absolute, parts)
    ensures r.Some? ==> r == Some(absolute)
    ensures r.Some? <==> Under(root, absolute) && LinksStay(fs, root, absolute, |absolute|)
    ensures Under(root, absolute) && LinksResolve(fs, absolute) ==> (r.Some? <==> Contained(fs, root, absolute))
  {
    hide *;
    NoPartsUnder(root, absolute, parts);
    ghost var resolving := Under(root, absolute) && LinksResolve(fs, absolute);
    StartsWalk(fs, root, absolute);
    StaysToTheEnd(fs, root, absolute, parts);
    NoneSoFar(fs, root, absolute);
    var resolvedReal := realRoot;
    for i := 0 to |parts|
      invariant i > 0 ==> Under(root, absolute)
      invariant Under(realRoot, resolvedReal)
      invariant StaysSoFar(fs, root, absolute, i)
      invariant resolving ==> Walked(fs, root, absolute, |root| + i, resolvedReal)
    {
      PartIsPlain(root, absolute, parts, i);
      if parts[i] == ".." {
        return None;
      }
      var current := Joined(root, parts, i + 1);
      var stat := Lstat(fs, current);
      StaysOn(fs, root, absolute, i, current, parts[i]);
      if stat.None? {
        if resolving { StopsHere(fs, root, absolute, |root| + i, resolvedReal, current, parts[i]); }
        StaysUnder(realRoot, resolvedReal, Remaining(parts, i));
        if !Under(realRoot, resolvedReal + Remaining(parts, i)) {
          return None;
        }
        return Some(absolute);
      }
      if stat.value.Link? {
        var linkTarget := Realpath(fs, current);
        TargetIs(fs, root, absolute, parts, i, current, parts[i]);
        if resolving { LinkDecides(fs, root, absolute, |root| + i, resolvedReal, current, parts[i]); }
        if linkTarget.None? {
          // The link text is resolved by hand, from the directory of the link.
          var directory := if stat.value.absolute then [] else Joined(root, parts, i);
          linkTarget := Some(Fold(directory, stat.value.target, false));
        }
        if !Under(realRoot, linkTarget.value) {
          return None;
        }
        resolvedReal := linkTarget.value;
      } else {
        if resolving { StepsOn(fs, root, absolute, |root| + i, resolvedReal, current, parts[i]); }
        StaysUnder(realRoot, resolvedReal, [parts[i]]);
        resolvedReal := resolvedReal + [parts[i]];
      }
    }
    if resolving { WalkedAll(fs, root, absolute, parts, resolvedReal); }
    if !Under(realRoot, resolvedReal) {
      return None;
    }
    return Some(absolute);
  }

  lemma NoneSoFar(fs: Fs, root: Path, path: Path)
    requires WellFormed(fs)
    ensures StaysSoFar(fs, root, path, 0)
  {
    hide WellFormed;
  }

  lemma StaysUnder(root: Path, path: Path, more: Path)
    requires Under(root, path)
    ensures Under(root, path + more)
  {
  }

  lemma StartsWalk(fs: Fs, root: Path, path: Path)
    requires WellFormed(fs)
    ensures Under(root, path) ==> Walked(fs, root, path, |root|, RealRoot(fs, root))
    ensures Under(RealRoot(fs, root), RealRoot(fs, root))
  {
    hide Realpath;
    if Under(root, path) { assert path[..|root|] == root; }
  }

  lemma NoPartsUnder(root: Path, path: Path, parts: Path)
    requires PartsOf(root, path, parts)
    ensures parts == [] ==> Under(root, path)
  {
  }

  lemma PartIsPlain(root: Path, path: Path, parts: Path, i: nat)
    requires AllPlain(path) && PartsOf(root, path, parts) && i < |parts|
    ensures if Under(root, path) then parts[i] != ".." && At(path, |root| + i, Joined(root, parts, i + 1), parts[i])
            else parts[0] == ".."
  {
    if Under(root, path) { assert parts[i] == path[|root| + i] && path[|root| + i] in path; }
  }

  /** What a link with an existing target decides. */
  lemma LinkDecides(fs: Fs, root: Path, path: Path, n: nat, at: Path, current: Path, name: string)
    requires WellFormed(fs) && LinksResolve(fs, path) && Walked(fs, root, path, n, at) && At(path, n, current, name)
    requires Lstat(fs, current).Some? && Lstat(fs, current).value.Link?
    ensures var target := Realpath(fs, current);
      && target.Some?
      && (if Under(RealRoot(fs, root), target.value) then Walked(fs, root, path, n + 1, target.value)
          else !Contained(fs, root, path))
  {
    hide Realpath, Lstat, WellFormed, RealRoot;
  }

  lemma WalkedAll(fs: Fs, root: Path, path: Path, parts: Path, at: Path)
    requires WellFormed(fs) && Under(root, path) && PartsOf(root, path, parts) &&
        Walked(fs, root, path, |root| + |parts|, at)
    ensures Contained(fs, root, path)
  {
    hide Realpath, WellFormed, RealRoot;
  }
}
