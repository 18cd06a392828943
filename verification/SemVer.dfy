/** compareVersions of agentLifecycle.js, and the precedence of section 11 of Semantic Versioning 2.0.0. */
module SemVer {
  import opened Doubles
  import opened Text

  // ---- Numbers of the core ----

  /** The longest prefix of digits. */
  function DigitPrefix(s: string): (d: string)
    ensures AllDigits(d)
  {
    if s == "" || !IsDigit(s[0]) then "" else [s[0]] + DigitPrefix(s[1..])
  }

  function Negate(x: Number): Number {
    // -Infinity does not occur: a core has no minus sign.
    if x.Finite? then Finite(-x.value) else x
  }

  /** parseInt(s, 10) || 0 */
  function CoreNumber(s: string): Number {
    var t := TrimStart(s);
    var unsigned := if t != "" && (t[0] == '+' || t[0] == '-') then t[1..] else t;
    var number := ToNumber(ParseDecimal(DigitPrefix(unsigned)));
    if t != "" && t[0] == '-' then Negate(number) else number
  }

  /** The sign of x - y as the code takes it: a difference that is not a number counts as positive. */
  function Difference(x: Number, y: Number): int {
    match (x, y)
    case (Finite(m), Finite(n)) => Sign(m - n)
    case (Infinite, _) => 1
    case (Finite(_), Infinite) => -1
  }

  function Sign(n: int): int { if n < 0 then -1 else if n > 0 then 1 else 0 }

  // ---- The comparison, as a function ----

  /** Order by code units; a proper prefix comes first. */
  function CompareText(a: string, b: string): (c: int)
    ensures -1 <= c <= 1
  {
    if a == "" || b == "" then Sign(|a| - |b|)
    else if a[0] != b[0] then (if a[0] < b[0] then -1 else 1)
    else CompareText(a[1..], b[1..])
  }

  function CoreAt(core: seq<Number>, i: nat): Number { if i < |core| then core[i] else Finite(0) }

  function Longer(m: nat, n: nat): nat { if m < n then n else m }

  function CompareCore(a: seq<Number>, b: seq<Number>, i: nat): (c: int)
    ensures -1 <= c <= 1
    decreases Longer(|a|, |b|) - i
  {
    if i >= Longer(|a|, |b|) then 0
    else
      var c := Difference(CoreAt(a, i), CoreAt(b, i));
      if c != 0 then c else CompareCore(a, b, i + 1)
  }

  /** Two segments: as numbers when both are numerals, else as text. */
  function CompareSegment(a: string, b: string): (c: int)
    ensures -1 <= c <= 1
  {
    if a != "" && AllDigits(a) && b != "" && AllDigits(b) then
      match (ToNumber(ParseDecimal(a)), ToNumber(ParseDecimal(b)))
      case (Finite(m), Finite(n)) => Sign(m - n)
      case (Finite(_), Infinite) => -1
      case (Infinite, Finite(_)) => 1
      case (Infinite, Infinite) => 0
    else CompareText(a, b)
  }

  function CompareSegments(a: seq<string>, b: seq<string>, i: nat): (c: int)
    ensures -1 <= c <= 1
    decreases Longer(|a|, |b|) - i
  {
    if i >= Longer(|a|, |b|) then 0
    else if i >= |a| then -1
    else if i >= |b| then 1
    else
      var c := CompareSegment(a[i], b[i]);
      if c != 0 then c else CompareSegments(a, b, i + 1)
  }

  /** The numeric core of a version, without a leading v. */
  function CoreOf(version: string): seq<Number> {
    Cores(Split(Split(DropV(version), '-')[0], '.'))
  }

  function Cores(parts: seq<string>): (core: seq<Number>)
    ensures |core| == |parts| && forall i | 0 <= i < |parts| :: core[i] == CoreNumber(parts[i])
  {
    if parts == [] then []
    else
      var rest := Cores(parts[1..]);
      assert forall i | 0 <= i < |rest| :: rest[i] == CoreNumber(parts[i + 1]);
      [CoreNumber(parts[0])] + rest
  }

  function DropV(s: string): string { if s != "" && s[0] == 'v' then s[1..] else s }

  /** The text between the first and the second hyphen, empty when there is none. */
  function PreOf(version: string): string {
    var parts := Split(DropV(version), '-');
    if |parts| > 1 then parts[1] else ""
  }

  function Compare(a: string, b: string): (c: int)
    ensures -1 <= c <= 1
  {
    if a == "" || b == "" then 0
    else
      var c := CompareCore(CoreOf(a), CoreOf(b), 0);
      if c != 0 then c
      else if PreOf(a) == "" && PreOf(b) == "" then 0
      else if PreOf(a) == "" then 1
      else if PreOf(b) == "" then -1
      else CompareSegments(Split(PreOf(a), '.'), Split(PreOf(b), '.'), 0)
  }

  // ---- compareVersions ----

  method CompareVersions(a: string, b: string) returns (c: int)
    ensures c == Compare(a, b)
  {
    hide CompareSegment, CoreNumber, Split, Difference;
    if a == "" || b == "" { return 0; }
    var pa, pb := CoreOf(a), CoreOf(b);
    var len := if |pa| < |pb| then |pb| else |pa|;
    var i := 0;
    while i < len
      invariant 0 <= i <= len && CompareCore(pa, pb, i) == CompareCore(pa, pb, 0)
    {
      var diff := Difference(if i < |pa| then pa[i] else Finite(0), if i < |pb| then pb[i] else Finite(0));
      if diff != 0 { return diff; }
      i := i + 1;
    }
    var preA, preB := PreOf(a), PreOf(b);
    if preA == "" && preB == "" { return 0; }
    if preA == "" { return 1; }
    if preB == "" { return -1; }
    var segA, segB := Split(preA, '.'), Split(preB, '.');
    var segLen := if |segA| < |segB| then |segB| else |segA|;
    i := 0;
    while i < segLen
      invariant 0 <= i <= segLen && CompareSegments(segA, segB, i) == CompareSegments(segA, segB, 0)
    {
      if i >= |segA| { return -1; }
      if i >= |segB| { return 1; }
      var order := CompareSegment(segA[i], segB[i]);
      if order != 0 { return order; }
      i := i + 1;
    }
    return 0;
  }

  // ---- Antisymmetry ----

  lemma {:induction false} TextAntisymmetric(a: string, b: string)
    ensures CompareText(b, a) == -CompareText(a, b)
  {
    if a != "" && b != "" && a[0] == b[0] { TextAntisymmetric(a[1..], b[1..]); }
  }

  lemma SegmentAntisymmetric(a: string, b: string)
    ensures CompareSegment(b, a) == -CompareSegment(a, b)
  {
    TextAntisymmetric(a, b);
    hide CompareText, ToNumber, ParseDecimal;
  }

  lemma {:induction false} SegmentsAntisymmetric(a: seq<string>, b: seq<string>, i: nat)
    ensures CompareSegments(b, a, i) == -CompareSegments(a, b, i)
    decreases Longer(|a|, |b|) - i
  {
    hide CompareSegment;
    if i < |a| && i < |b| {
      SegmentAntisymmetric(a[i], b[i]);
      SegmentsAntisymmetric(a, b, i + 1);
    }
  }

  /** The first numbers that are not equal and finite are both infinite. */
  predicate BothOverflow(a: seq<Number>, b: seq<Number>, i: nat)
    decreases Longer(|a|, |b|) - i
  {
    i < Longer(|a|, |b|)
    && if CoreAt(a, i).Infinite? && CoreAt(b, i).Infinite? then true
       else CoreAt(a, i) == CoreAt(b, i) && BothOverflow(a, b, i + 1)
  }

  lemma {:induction false} CoreAntisymmetric(a: seq<Number>, b: seq<Number>, i: nat)
    ensures if BothOverflow(a, b, i) then CompareCore(a, b, i) == 1 == CompareCore(b, a, i)
            else CompareCore(b, a, i) == -CompareCore(a, b, i)
    decreases Longer(|a|, |b|) - i
  {
    if i < Longer(|a|, |b|) { CoreAntisymmetric(a, b, i + 1); }
  }

  /**
   * On all strings the comparison is antisymmetric exactly when it is not decided by two numbers that both
   * overflow to Infinity, whose difference is not a number.
   */
  lemma AntisymmetricExactly(a: string, b: string)
    requires a != "" && b != ""
    ensures Compare(b, a) == -Compare(a, b) <==> !BothOverflow(CoreOf(a), CoreOf(b), 0)
  {
    CoreAntisymmetric(CoreOf(a), CoreOf(b), 0);
    SegmentsAntisymmetric(Split(PreOf(a), '.'), Split(PreOf(b), '.'), 0);
    hide CoreOf, PreOf, CompareCore, CompareSegments, BothOverflow;
  }

  // ---- Versions of the standard ----

  /** A pre-release identifier. */
  datatype Identifier = Numeric(n: nat) | Alphanumeric(text: string)

  /** A version without build metadata. */
  datatype Version = Version(major: nat, minor: nat, patch: nat, pre: seq<Identifier>)

  predicate IsLetter(c: char) { 'a' <= c <= 'z' || 'A' <= c <= 'Z' }

  /** Section 9: at least one non-digit, here without hyphens. */
  predicate IsAlphanumeric(text: string) {
    text != "" && !AllDigits(text) && forall i | 0 <= i < |text| :: IsDigit(text[i]) || IsLetter(text[i])
  }

  /** No hyphen inside the pre-release part. */
  predicate Printable(v: Version) {
    forall x | x in v.pre && x.Alphanumeric? :: IsAlphanumeric(x.text)
  }

  /** No number of the version is rounded. */
  predicate InRange(v: Version) {
    && v.major < SafeLimit() && v.minor < SafeLimit() && v.patch < SafeLimit()
    && forall x | x in v.pre && x.Numeric? :: x.n < SafeLimit()
  }

  function PrintIdentifier(x: Identifier): string {
    match x
    case Numeric(n) => Decimal(n)
    case Alphanumeric(text) => text
  }

  function PrintIdentifiers(pre: seq<Identifier>): (parts: seq<string>)
    ensures |parts| == |pre| && forall i | 0 <= i < |pre| :: parts[i] == PrintIdentifier(pre[i])
  {
    if pre == [] then [] else [PrintIdentifier(pre[0])] + PrintIdentifiers(pre[1..])
  }

  function PrintCore(v: Version): seq<string> { [Decimal(v.major), Decimal(v.minor), Decimal(v.patch)] }

  function Print(v: Version): string {
    Join([Join(PrintCore(v), '.')] + (if v.pre == [] then [] else [Join(PrintIdentifiers(v.pre), '.')]), '-')
  }

  // ---- Section 11 ----

  /** At the first difference s has the smaller character, or ends. */
  predicate Before(s: string, t: string) {
    exists i :: 0 <= i <= |s| && i < |t| && s[..i] == t[..i] && (i == |s| || s[i] < t[i])
  }

  /** 11.4.2: lexically in ASCII order. */
  function TextPrecedence(s: string, t: string): int {
    if s == t then 0 else if Before(s, t) then -1 else 1
  }

  /** 11.4: numerically, in ASCII order, or numeric before alphanumeric. */
  function IdentifierPrecedence(x: Identifier, y: Identifier): int {
    match (x, y)
    case (Numeric(m), Numeric(n)) => Sign(m - n)
    case (Numeric(_), Alphanumeric(_)) => -1
    case (Alphanumeric(_), Numeric(_)) => 1
    case (Alphanumeric(s), Alphanumeric(t)) => TextPrecedence(s, t)
  }

  /** 11.4.4: a longer list follows when the others are equal. */
  function PrePrecedence(xs: seq<Identifier>, ys: seq<Identifier>): int
    decreases |xs|
  {
    if xs == [] || ys == [] then Sign(|xs| - |ys|)
    else
      var c := IdentifierPrecedence(xs[0], ys[0]);
      if c != 0 then c else PrePrecedence(xs[1..], ys[1..])
  }

  /** 11.2: the numbers from left to right. */
  function CorePrecedence(v: Version, w: Version): int {
    if v.major != w.major then Sign(v.major - w.major)
    else if v.minor != w.minor then Sign(v.minor - w.minor)
    else Sign(v.patch - w.patch)
  }

  /** 11.3: a version without a pre-release part follows those with one. */
  function Precedence(v: Version, w: Version): int {
    var c := CorePrecedence(v, w);
    if c != 0 then c
    else if v.pre == [] || w.pre == [] then (if v.pre == w.pre then 0 else if v.pre == [] then 1 else -1)
    else PrePrecedence(v.pre, w.pre)
  }

  // ---- Texts are in order ----

  lemma {:induction false} FirstDifference(s: string, t: string, i: nat)
    requires i <= |s| && i < |t| && s[..i] == t[..i] && (i == |s| || s[i] < t[i])
    ensures CompareText(s, t) == -1
  {
    if i > 0 {
      assert s[..i][0] == t[..i][0] && s[1..][..i - 1] == s[..i][1..] && t[1..][..i - 1] == t[..i][1..];
      FirstDifference(s[1..], t[1..], i - 1);
    }
  }

  /** Where two texts differ first. */
  lemma {:induction false} DiffersSomewhere(s: string, t: string) returns (i: nat)
    ensures i <= |s| && i <= |t| && s[..i] == t[..i]
    ensures s != t ==> (i < |s| || i < |t|) && (i < |s| && i < |t| ==> s[i] != t[i])
  {
    i := 0;
    if s != "" && t != "" && s[0] == t[0] {
      var j := DiffersSomewhere(s[1..], t[1..]);
      i := j + 1;
      assert s[..i] == [s[0]] + s[1..][..j] && t[..i] == [t[0]] + t[1..][..j];
    }
  }

  /** Comparing texts is the order by the first difference. */
  lemma TextsInOrder(s: string, t: string)
    ensures CompareText(s, t) == TextPrecedence(s, t)
  {
    hide CompareText;
    TextReflexive(s);
    TextAntisymmetric(s, t);
    if s != t {
      var i := DiffersSomewhere(s, t);
      if i < |t| && (i == |s| || s[i] < t[i]) {
        FirstDifference(s, t, i);
      } else {
        FirstDifference(t, s, i);
        if Before(s, t) {
          var j :| 0 <= j <= |s| && j < |t| && s[..j] == t[..j] && (j == |s| || s[j] < t[j]);
          FirstDifference(s, t, j);
        }
      }
    }
  }

  lemma {:induction false} TextReflexive(s: string)
    ensures CompareText(s, s) == 0
  {
    if s != "" { TextReflexive(s[1..]); }
  }

  lemma {:induction false} TextTransitive(a: string, b: string, c: string)
    requires CompareText(a, b) <= 0 && CompareText(b, c) <= 0
    ensures CompareText(a, c) <= 0
    ensures CompareText(a, c) == 0 ==> CompareText(a, b) == 0 && CompareText(b, c) == 0
  {
    if a != "" && b != "" && c != "" && a[0] == b[0] && b[0] == c[0] { TextTransitive(a[1..], b[1..], c[1..]); }
  }

  // ---- Identifiers above all numerals ----

  /** The first character that is not a 9 is a letter. */
  predicate AboveNumerals(text: string) {
    text != "" && (IsLetter(text[0]) || (text[0] == '9' && AboveNumerals(text[1..])))
  }

  lemma {:induction false} NumeralBelow(d: string, text: string)
    requires AllDigits(d) && AboveNumerals(text)
    ensures CompareText(d, text) == -1
  {
    if d != "" {
      assert IsDigit(d[0]);
      if text[0] == '9' { NumeralBelow(d[1..], text[1..]); }
    }
  }

  function Nines(k: nat): nat { if k == 0 then 0 else 10 * Nines(k - 1) + 9 }

  lemma {:induction false} NinesPrinted(k: nat)
    requires k > 0
    ensures Decimal(Nines(k)) == seq(k, _ => '9')
  {
    assert DigitChar(9) == '9';
    if k > 1 {
      NinesPrinted(k - 1);
      assert Nines(k) / 10 == Nines(k - 1) && Nines(k) % 10 == 9;
    }
  }

  lemma {:induction false} NinesAbove(text: string)
    requires !AboveNumerals(text) && !AllDigits(text)
    requires forall i | 0 <= i < |text| :: IsDigit(text[i]) || IsLetter(text[i])
    ensures CompareText(seq(|text|, _ => '9'), text) == 1
  {
    var nines := seq(|text|, _ => '9');
    assert text != "" && nines[0] == '9';
    if text[0] == '9' {
      NinesAbove(text[1..]);
      assert nines[1..] == seq(|text[1..]|, _ => '9');
    }
  }

  /**
   * Comparing texts puts an alphanumeric identifier above every numeric one, as the standard wants, exactly when
   * its first character that is not a 9 is a letter.
   */
  lemma AboveNumeralsExactly(text: string)
    requires IsAlphanumeric(text)
    ensures (forall n: nat :: CompareSegment(Decimal(n), text) == IdentifierPrecedence(Numeric(n), Alphanumeric(text)))
            <==> AboveNumerals(text)
  {
    if AboveNumerals(text) {
      forall n: nat ensures CompareSegment(Decimal(n), text) == -1 { NumeralBelow(Decimal(n), text); }
    } else {
      NinesAbove(text);
      NinesPrinted(|text|);
      assert CompareSegment(Decimal(Nines(|text|)), text) == 1;
    }
  }

  // ---- The comparison agrees with the standard ----

  /** The alphanumeric identifiers are above all numerals. */
  predicate Comparable(v: Version) {
    Printable(v) && InRange(v) && forall x | x in v.pre && x.Alphanumeric? :: AboveNumerals(x.text)
  }

  lemma {:induction false} JoinLacks(parts: seq<string>, sep: char, c: char)
    requires c != sep && forall p | p in parts :: c !in p
    ensures c !in Join(parts, sep)
  {
    if |parts| > 1 { JoinLacks(parts[1..], sep, c); }
  }

  lemma {:induction false} DigitPrefixOfDigits(s: string)
    requires AllDigits(s)
    ensures DigitPrefix(s) == s
  {
    if s != "" {
      assert IsDigit(s[0]);
      DigitPrefixOfDigits(s[1..]);
    }
  }

  lemma CoreNumberPrinted(n: nat)
    ensures CoreNumber(Decimal(n)) == ToNumber(n)
  {
    var d := Decimal(n);
    assert IsDigit(d[0]);
    DigitPrefixOfDigits(d);
    ParsePrinted(n);
    hide Decimal, ParseDecimal, DigitPrefix, ToNumber;
    assert TrimStart(d) == d;
  }

  lemma IdentifierLacks(x: Identifier)
    requires x.Alphanumeric? ==> IsAlphanumeric(x.text)
    ensures '-' !in PrintIdentifier(x) && '.' !in PrintIdentifier(x) && PrintIdentifier(x) != ""
  {
    if x.Numeric? {
      DigitsLack(Decimal(x.n), '-');
      DigitsLack(Decimal(x.n), '.');
    }
  }

  lemma PrintedLacks(pre: seq<Identifier>)
    requires forall x | x in pre && x.Alphanumeric? :: IsAlphanumeric(x.text)
    ensures forall p | p in PrintIdentifiers(pre) :: '-' !in p && '.' !in p && p != ""
  {
    forall i | 0 <= i < |pre| ensures '-' !in PrintIdentifier(pre[i]) && '.' !in PrintIdentifier(pre[i]) &&
        PrintIdentifier(pre[i]) != "" {
      IdentifierLacks(pre[i]);
    }
    hide PrintIdentifier;
  }

  lemma CoreLacks(v: Version)
    ensures forall p | p in PrintCore(v) :: '-' !in p && '.' !in p
    ensures '-' !in Join(PrintCore(v), '.')
  {
    forall n: nat | n in [v.major, v.minor, v.patch] ensures '-' !in Decimal(n) && '.' !in Decimal(n) {
      DigitsLack(Decimal(n), '-');
      DigitsLack(Decimal(n), '.');
    }
    hide Decimal, Join;
    JoinLacks(PrintCore(v), '.', '-');
  }

  lemma JoinStarts(parts: seq<string>, sep: char)
    requires parts != [] && parts[0] != ""
    ensures Join(parts, sep) != "" && Join(parts, sep)[0] == parts[0][0]
  {
  }

  /** The printed version splits into its core and its pre-release part. */
  lemma PrintedParts(v: Version)
    requires Printable(v)
    ensures DropV(Print(v)) == Print(v)
    ensures Split(Print(v), '-') ==
      [Join(PrintCore(v), '.')] + (if v.pre == [] then [] else [Join(PrintIdentifiers(v.pre), '.')])
  {
    var core := Join(PrintCore(v), '.');
    var parts := [core] + (if v.pre == [] then [] else [Join(PrintIdentifiers(v.pre), '.')]);
    CoreLacks(v);
    PrintedLacks(v.pre);
    hide Printable, PrintIdentifiers, Decimal;
    if v.pre != [] { JoinLacks(PrintIdentifiers(v.pre), '.', '-'); }
    assert IsDigit(Decimal(v.major)[0]);
    JoinStarts(PrintCore(v), '.');
    JoinStarts(parts, '-');
    SplitJoin(parts, '-');
    hide Join, Split;
    assert Print(v)[0] == Decimal(v.major)[0];
  }

  lemma PrintedCore(v: Version)
    requires Printable(v)
    ensures CoreOf(Print(v)) == [ToNumber(v.major), ToNumber(v.minor), ToNumber(v.patch)]
  {
    PrintedParts(v);
    CoreLacks(v);
    SplitJoin(PrintCore(v), '.');
    CoreNumberPrinted(v.major);
    CoreNumberPrinted(v.minor);
    CoreNumberPrinted(v.patch);
    hide Split, Join, Print, CoreNumber, Decimal, ToNumber;
    assert CoreOf(Print(v)) == Cores(PrintCore(v));
  }

  lemma PrintedPre(v: Version)
    requires Printable(v)
    ensures v.pre == [] ==> PreOf(Print(v)) == ""
    ensures v.pre != [] ==> PreOf(Print(v)) != "" && Split(PreOf(Print(v)), '.') == PrintIdentifiers(v.pre)
  {
    PrintedParts(v);
    PrintedLacks(v.pre);
    hide PrintIdentifiers, Print, Split;
    if v.pre != [] {
      SplitJoin(PrintIdentifiers(v.pre), '.');
      assert PrintIdentifiers(v.pre)[0] in PrintIdentifiers(v.pre);
      JoinStarts(PrintIdentifiers(v.pre), '.');
    }
    hide Join;
  }

  predicate Unambiguous(x: Identifier) {
    match x
    case Numeric(n) => n < SafeLimit()
    case Alphanumeric(text) => IsAlphanumeric(text) && AboveNumerals(text)
  }

  lemma SegmentAgrees(x: Identifier, y: Identifier)
    requires Unambiguous(x) && Unambiguous(y)
    ensures CompareSegment(PrintIdentifier(x), PrintIdentifier(y)) == IdentifierPrecedence(x, y)
  {
    hide Decimal, CompareText, TextPrecedence, ParseDecimal, ToNumber;
    if x.Alphanumeric? && y.Alphanumeric? { TextsInOrder(x.text, y.text); }
    if x.Numeric? { ParsePrinted(x.n); ExactNumber(x.n); }
    if y.Numeric? { ParsePrinted(y.n); ExactNumber(y.n); }
    if x.Numeric? && y.Alphanumeric? { NumeralBelow(Decimal(x.n), y.text); }
    if x.Alphanumeric? && y.Numeric? {
      NumeralBelow(Decimal(y.n), x.text);
      TextAntisymmetric(x.text, Decimal(y.n));
    }
  }

  lemma {:induction false} SegmentsAgree(xs: seq<Identifier>, ys: seq<Identifier>, i: nat)
    requires i <= |xs| && i <= |ys|
    requires forall x | x in xs + ys :: Unambiguous(x)
    ensures CompareSegments(PrintIdentifiers(xs), PrintIdentifiers(ys), i) == PrePrecedence(xs[i..], ys[i..])
    decreases |xs| - i
  {
    hide PrintIdentifier, CompareSegment, IdentifierPrecedence, Unambiguous;
    if i < |xs| && i < |ys| {
      assert xs[i] in xs + ys && ys[i] in xs + ys;
      SegmentAgrees(xs[i], ys[i]);
      SegmentsAgree(xs, ys, i + 1);
      assert xs[i..][1..] == xs[i + 1..] && ys[i..][1..] == ys[i + 1..];
    }
  }

  lemma CoresAgree(v: Version, w: Version)
    ensures CompareCore([Finite(v.major), Finite(v.minor), Finite(v.patch)],
                        [Finite(w.major), Finite(w.minor), Finite(w.patch)], 0) == CorePrecedence(v, w)
  {
    var a := [Finite(v.major), Finite(v.minor), Finite(v.patch)];
    var b := [Finite(w.major), Finite(w.minor), Finite(w.patch)];
    assert CompareCore(a, b, 3) == 0;
    assert CompareCore(a, b, 2) == Sign(v.patch - w.patch);
    assert CompareCore(a, b, 1) == if v.minor != w.minor then Sign(v.minor - w.minor) else Sign(v.patch - w.patch);
  }

  /** Versions are compared by their cores, and then by the segments of their pre-release parts. */
  lemma ComparePrinted(v: Version, w: Version)
    requires Printable(v) && Printable(w)
    ensures Compare(Print(v), Print(w)) ==
      var c := CompareCore([ToNumber(v.major), ToNumber(v.minor), ToNumber(v.patch)],
                           [ToNumber(w.major), ToNumber(w.minor), ToNumber(w.patch)], 0);
      if c != 0 then c
      else if v.pre == [] || w.pre == [] then (if v.pre == w.pre then 0 else if v.pre == [] then 1 else -1)
      else CompareSegments(PrintIdentifiers(v.pre), PrintIdentifiers(w.pre), 0)
  {
    PrintedNotEmpty(v);
    PrintedNotEmpty(w);
    PrintedCore(v);
    PrintedCore(w);
    PrintedPre(v);
    PrintedPre(w);
    hide Print, CoreOf, PreOf, Split, CompareCore, CompareSegments, PrintIdentifiers, ToNumber;
  }

  lemma ExactCores(v: Version)
    requires InRange(v)
    ensures ToNumber(v.major) == Finite(v.major) && ToNumber(v.minor) == Finite(v.minor) &&
        ToNumber(v.patch) == Finite(v.patch)
  {
    ExactNumber(v.major);
    ExactNumber(v.minor);
    ExactNumber(v.patch);
  }

  lemma ComparableIsUnambiguous(v: Version, w: Version)
    requires Comparable(v) && Comparable(w)
    ensures forall x | x in v.pre + w.pre :: Unambiguous(x)
  {
    hide AboveNumerals, DoubleLimit, IsAlphanumeric;
  }

  /**
   * On printed versions whose alphanumeric identifiers are above all numerals the comparison is the precedence of
   * section 11.
   */
  lemma AgreesWithTheStandard(v: Version, w: Version)
    requires Comparable(v) && Comparable(w)
    ensures Compare(Print(v), Print(w)) == Precedence(v, w)
  {
    ComparePrinted(v, w);
    CoresAgree(v, w);
    ComparableIsUnambiguous(v, w);
    ExactCores(v);
    ExactCores(w);
    SegmentsAgree(v.pre, w.pre, 0);
    hide Print, CompareCore, CompareSegments, PrePrecedence, PrintIdentifiers, Compare, ToNumber, Printable,
        Unambiguous, AboveNumerals;
    assert v.pre[0..] == v.pre && w.pre[0..] == w.pre;
  }

  lemma PrintedNotEmpty(v: Version)
    ensures Print(v) != ""
  {
    JoinStarts(PrintCore(v), '.');
    JoinStarts([Join(PrintCore(v), '.')] + (if v.pre == [] then [] else [Join(PrintIdentifiers(v.pre), '.')]), '-');
  }

  /** A number is above itself exactly when it overflows. */
  lemma OverflowIsNotReflexive(n: nat)
    ensures Compare(Decimal(n), Decimal(n)) == if n < DoubleLimit() then 0 else 1
  {
    var huge := Decimal(n);
    DigitsLack(huge, '-');
    DigitsLack(huge, '.');
    SplitOne(huge, '-');
    SplitOne(huge, '.');
    CoreNumberPrinted(n);
    OverflowsExactly(n);
    assert IsDigit(huge[0]);
    hide Decimal, Split, CoreNumber, LimitFrom, Rounded, PowerOf2, ToNumber;
    assert CoreOf(huge) == [ToNumber(n)];
    assert CompareCore(CoreOf(huge), CoreOf(huge), 1) == 0;
  }
}
