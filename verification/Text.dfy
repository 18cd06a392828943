/**
 * The string operations of JavaScript that the text transformations are written with: white space and trimming,
 * splitting and joining at one character, decimal numerals.
 */
module Text {
  // ---- White space: the characters matched by \s and removed by trim() ----

  predicate IsSpace(c: char) {
    var n := c as int;
    9 <= n <= 13 || n == 0x20 || n == 0xA0 || n == 0x1680 || 0x2000 <= n <= 0x200A
    || n == 0x2028 || n == 0x2029 || n == 0x202F || n == 0x205F || n == 0x3000 || n == 0xFEFF
  }

  predicate AllSpace(s: string) {
    forall i | 0 <= i < |s| :: IsSpace(s[i])
  }

  function TrimStart(s: string): (r: string)
    ensures |r| <= |s|
    ensures r != "" ==> !IsSpace(r[0])
  {
    if s == "" || !IsSpace(s[0]) then s else TrimStart(s[1..])
  }

  function TrimEnd(s: string): (r: string)
    ensures r <= s && AllSpace(s[|r|..])
    ensures r != "" ==> !IsSpace(r[|r| - 1])
  {
    if s == "" || !IsSpace(s[|s| - 1]) then s
    else
      var r := TrimEnd(s[..|s| - 1]);
      assert s[|r|..] == s[..|s| - 1][|r|..] + [s[|s| - 1]];
      r
  }

  function Trim(s: string): string {
    TrimStart(TrimEnd(s))
  }

  /** The trimmed text is the one prefix that ends in a visible character and is followed by white space only. */
  lemma TrimEndIs(s: string, r: string)
    requires r <= s && AllSpace(s[|r|..])
    requires r == "" || !IsSpace(r[|r| - 1])
    ensures TrimEnd(s) == r
  {
    SpaceFrom(s, |r|);
    SpaceFrom(s, |TrimEnd(s)|);
  }

  lemma SpaceFrom(s: string, n: nat)
    requires n <= |s| && AllSpace(s[n..])
    ensures forall i | n <= i < |s| :: IsSpace(s[i])
  {
    forall i | n <= i < |s| ensures IsSpace(s[i]) {
      assert s[i] == s[n..][i - n];
    }
  }

  lemma TrimEndTrimmed(s: string)
    requires s == "" || !IsSpace(s[|s| - 1])
    ensures TrimEnd(s) == s
  {
  }

  lemma TrimEndAppend(s: string, spaces: string)
    requires AllSpace(spaces)
    ensures TrimEnd(s + spaces) == TrimEnd(s)
  {
    var r := TrimEnd(s);
    var t := s + spaces;
    assert t[|r|..] == s[|r|..] + spaces;
    TrimEndIs(t, r);
  }

  lemma {:induction false} TrimStartDropsSpace(s: string)
    ensures s[|s| - |TrimStart(s)|..] == TrimStart(s) && AllSpace(s[..|s| - |TrimStart(s)|])
  {
    if s != "" && IsSpace(s[0]) { TrimStartDropsSpace(s[1..]); }
  }

  lemma {:induction false} TrimStartAppend(s: string, t: string)
    requires TrimStart(s) != ""
    ensures TrimStart(s + t) == TrimStart(s) + t
  {
    if IsSpace(s[0]) {
      TrimStartAppend(s[1..], t);
      assert (s + t)[1..] == s[1..] + t;
    } else {
      assert (s + t)[0] == s[0];
    }
  }

  lemma {:induction false} SpacesInFront(spaces: string, rest: string)
    requires AllSpace(spaces) && (rest == "" || !IsSpace(rest[0]))
    ensures TrimStart(spaces + rest) == rest
  {
    if spaces == "" {
      assert spaces + rest == rest;
    } else {
      assert (spaces + rest)[1..] == spaces[1..] + rest;
      SpacesInFront(spaces[1..], rest);
    }
  }

  lemma SpaceThen(s: string) returns (spaces: string)
    ensures s == spaces + TrimStart(s) && AllSpace(spaces)
  {
    TrimStartDropsSpace(s);
    spaces := s[..|s| - |TrimStart(s)|];
  }

  lemma ThenSpace(s: string) returns (spaces: string)
    ensures s == TrimEnd(s) + spaces && AllSpace(spaces)
  {
    spaces := s[|TrimEnd(s)|..];
  }

  // ---- Splitting at, and joining with, one character ----

  function Split(s: string, sep: char): (parts: seq<string>)
    ensures parts != []
  {
    if s == "" then [""]
    else
      var rest := Split(s[1..], sep);
      if s[0] == sep then [""] + rest else [[s[0]] + rest[0]] + rest[1..]
  }

  function Join(parts: seq<string>, sep: char): string {
    if parts == [] then ""
    else if |parts| == 1 then parts[0]
    else parts[0] + [sep] + Join(parts[1..], sep)
  }

  lemma {:induction false} PartsHaveNoSep(s: string, sep: char)
    ensures forall p | p in Split(s, sep) :: sep !in p
  {
    if s != "" { PartsHaveNoSep(s[1..], sep); }
  }

  lemma JoinFirst(c: char, rest: seq<string>, sep: char)
    requires rest != []
    ensures Join([""] + rest, sep) == [sep] + Join(rest, sep)
    ensures Join([[c] + rest[0]] + rest[1..], sep) == [c] + Join(rest, sep)
  {
    assert ([""] + rest)[1..] == rest;
    var parts := [[c] + rest[0]] + rest[1..];
    if |rest| == 1 {
      assert parts == [[c] + rest[0]];
    } else {
      assert parts[1..] == rest[1..];
      assert ([c] + rest[0]) + [sep] + Join(rest[1..], sep) == [c] + (rest[0] + [sep] + Join(rest[1..], sep));
    }
  }

  lemma {:induction false} JoinSplit(s: string, sep: char)
    ensures Join(Split(s, sep), sep) == s
  {
    if s != "" {
      JoinSplit(s[1..], sep);
      JoinFirst(s[0], Split(s[1..], sep), sep);
      hide Join;
      assert [s[0]] + s[1..] == s;
    }
  }

  lemma {:induction false} SplitOne(s: string, sep: char)
    requires sep !in s
    ensures Split(s, sep) == [s]
  {
    if s != "" {
      SplitOne(s[1..], sep);
      assert [s[0]] + s[1..] == s;
    }
  }

  lemma SplitFirst(c: char, t: string, sep: char)
    ensures Split([c] + t, sep) ==
      if c == sep then [""] + Split(t, sep) else [[c] + Split(t, sep)[0]] + Split(t, sep)[1..]
  {
    assert ([c] + t)[1..] == t;
  }

  /** Splitting at a separator splits the two sides independently. */
  lemma {:induction false} SplitAppend(a: string, b: string, sep: char)
    ensures Split(a + [sep] + b, sep) == Split(a, sep) + Split(b, sep)
  {
    if a == "" {
      SplitFirst(sep, b, sep);
      assert a + [sep] + b == [sep] + b;
    } else {
      var t := a[1..] + [sep] + b;
      SplitAppend(a[1..], b, sep);
      assert a + [sep] + b == [a[0]] + t;
      SplitFirst(a[0], t, sep);
      assert a == [a[0]] + a[1..];
      SplitFirst(a[0], a[1..], sep);
      SplitGlue(a[0], Split(a[1..], sep), Split(b, sep), sep);
    }
  }

  lemma SplitGlue(c: char, xs: seq<string>, ys: seq<string>, sep: char)
    requires xs != []
    ensures [[c] + (xs + ys)[0]] + (xs + ys)[1..] == ([[c] + xs[0]] + xs[1..]) + ys
    ensures [""] + (xs + ys) == ([""] + xs) + ys
  {
  }

  lemma {:induction false} SplitJoin(parts: seq<string>, sep: char)
    requires parts != [] && forall p | p in parts :: sep !in p
    ensures Split(Join(parts, sep), sep) == parts
  {
    SplitOne(parts[0], sep);
    if |parts| > 1 {
      SplitJoin(parts[1..], sep);
      SplitAppend(parts[0], Join(parts[1..], sep), sep);
      assert [parts[0]] + parts[1..] == parts;
    } else {
      assert parts == [parts[0]];
    }
  }

  lemma {:induction false} JoinAppend(xs: seq<string>, ys: seq<string>, sep: char)
    requires xs != [] && ys != []
    ensures Join(xs + ys, sep) == Join(xs, sep) + [sep] + Join(ys, sep)
  {
    if |xs| == 1 {
      assert (xs + ys)[1..] == ys;
    } else {
      assert (xs + ys)[1..] == xs[1..] + ys;
      JoinAppend(xs[1..], ys, sep);
      assert xs[0] + [sep] + (Join(xs[1..], sep) + [sep] + Join(ys, sep))
          == (xs[0] + [sep] + Join(xs[1..], sep)) + [sep] + Join(ys, sep);
    }
  }

  lemma SliceOfTail(s: string, i: nat, n: nat)
    requires i + 1 + n <= |s|
    ensures s[1..][i..i + n] == s[i + 1..i + 1 + n]
  {
  }

  // ---- Decimal numerals ----

  predicate IsDigit(c: char) {
    '0' <= c <= '9'
  }

  predicate AllDigits(s: string) {
    forall i | 0 <= i < |s| :: IsDigit(s[i])
  }

  lemma DigitsLack(s: string, c: char)
    requires AllDigits(s) && !IsDigit(c)
    ensures c !in s
  {
  }

  function DigitValue(c: char): (d: nat)
    requires IsDigit(c)
    ensures d < 10
  {
    (c as int) - ('0' as int)
  }

  function DigitChar(d: nat): (c: char)
    requires d < 10
    ensures IsDigit(c) && DigitValue(c) == d
  {
    (('0' as int) + d) as char
  }

  function Decimal(n: nat): (s: string)
    ensures s != "" && AllDigits(s)
  {
    if n < 10 then [DigitChar(n)] else Decimal(n / 10) + [DigitChar(n % 10)]
  }

  function ParseDecimal(s: string): nat
    requires AllDigits(s)
  {
    if s == "" then 0 else 10 * ParseDecimal(s[..|s| - 1]) + DigitValue(s[|s| - 1])
  }

  lemma {:induction false} ParsePrinted(n: nat)
    ensures ParseDecimal(Decimal(n)) == n
  {
    var s := Decimal(n);
    if n < 10 {
      assert s[..0] == "";
      assert ParseDecimal(s[..0]) == 0;
    } else {
      assert s[..|s| - 1] == Decimal(n / 10);
      ParsePrinted(n / 10);
    }
  }
}
