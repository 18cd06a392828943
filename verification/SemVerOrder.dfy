/** Where compareVersions orders versions: identifiers against numerals, rounding, transitivity. */
module SemVerOrder {
  import opened Doubles
  import opened SemVer
  import opened Text

  // ---- Versions that differ in one identifier ----

  /** No number of the core becomes Infinity. */
  predicate FiniteCore(v: Version) {
    v.major < DoubleLimit() && v.minor < DoubleLimit() && v.patch < DoubleLimit()
  }

  function WithPre(v: Version, x: Identifier): Version { v.(pre := [x]) }

  function RoundedCore(v: Version): Version {
    v.(major := Rounded(v.major), minor := Rounded(v.minor), patch := Rounded(v.patch))
  }

  lemma FiniteCores(v: Version)
    requires FiniteCore(v)
    ensures ToNumber(v.major) == Finite(RoundedCore(v).major) && ToNumber(v.minor) == Finite(RoundedCore(v).minor) &&
        ToNumber(v.patch) == Finite(RoundedCore(v).patch)
  {
    OverflowsExactly(v.major);
    OverflowsExactly(v.minor);
    OverflowsExactly(v.patch);
    hide ToNumber, Rounded, DoubleLimit;
  }

  lemma SingleSegments(x: Identifier, y: Identifier)
    ensures CompareSegments(PrintIdentifiers([x]), PrintIdentifiers([y]), 0) ==
        CompareSegment(PrintIdentifier(x), PrintIdentifier(y))
  {
    hide CompareSegment, PrintIdentifier;
    var a, b := PrintIdentifiers([x]), PrintIdentifiers([y]);
    assert CompareSegments(a, b, 1) == 0;
  }

  lemma SameCore(v: Version)
    requires FiniteCore(v)
    ensures var core := [ToNumber(v.major), ToNumber(v.minor), ToNumber(v.patch)]; CompareCore(core, core, 0) == 0
  {
    FiniteCores(v);
    CoresAgree(RoundedCore(v), RoundedCore(v));
    hide CompareCore, ToNumber, Rounded;
  }

  lemma CompareSingle(v: Version, x: Identifier, y: Identifier)
    requires FiniteCore(v) && Printable(WithPre(v, x)) && Printable(WithPre(v, y))
    ensures Compare(Print(WithPre(v, x)), Print(WithPre(v, y))) ==
        CompareSegment(PrintIdentifier(x), PrintIdentifier(y))
  {
    hide Compare, Print, CompareSegment, CompareSegments, PrintIdentifier, CompareCore, ToNumber, PrintIdentifiers,
        FiniteCore, Printable;
    ComparePrinted(WithPre(v, x), WithPre(v, y));
    SameCore(v);
    SingleSegments(x, y);
  }

  /** Two numeric identifiers are compared as the standard wants unless different ones are rounded to the same. */
  lemma NumeralsAgreeExactly(v: Version, m: nat, n: nat)
    requires FiniteCore(v)
    ensures Compare(Print(WithPre(v, Numeric(m))), Print(WithPre(v, Numeric(n)))) ==
              IdentifierPrecedence(Numeric(m), Numeric(n))
            <==> m == n || ToNumber(m) != ToNumber(n)
  {
    CompareSingle(v, Numeric(m), Numeric(n));
    ParsePrinted(m);
    ParsePrinted(n);
    if m < n { NumbersKeepOrder(m, n); }
    if n < m { NumbersKeepOrder(n, m); }
    hide Compare, Print, Decimal, ParseDecimal, ToNumber, FiniteCore;
  }

  /** 2^53 and 2^53 + 1 compare as equal. */
  lemma RoundedNumeralsAreEqual(v: Version)
    requires FiniteCore(v)
    ensures var m, n := 9_007_199_254_740_992, 9_007_199_254_740_993;
      && Compare(Print(WithPre(v, Numeric(m))), Print(WithPre(v, Numeric(n)))) == 0
      && IdentifierPrecedence(Numeric(m), Numeric(n)) == -1
  {
    var m, n := 9_007_199_254_740_992, 9_007_199_254_740_993;
    CompareSingle(v, Numeric(m), Numeric(n));
    FirstRounded();
    ParsePrinted(m);
    ParsePrinted(n);
    hide Compare, Print, Decimal, ParseDecimal, ToNumber, FiniteCore;
  }

  // ---- An identifier and the numerals ----

  /**
   * An alphanumeric identifier follows every numeric one, as the standard wants, exactly when its first character
   * that is not a 9 is a letter.
   */
  lemma FollowsNumeralsExactly(v: Version, text: string)
    requires FiniteCore(v) && IsAlphanumeric(text)
    ensures (forall n: nat :: Compare(Print(WithPre(v, Numeric(n))), Print(WithPre(v, Alphanumeric(text)))) == -1)
            <==> AboveNumerals(text)
  {
    forall n: nat
      ensures Compare(Print(WithPre(v, Numeric(n))), Print(WithPre(v, Alphanumeric(text))))
              == CompareSegment(Decimal(n), text)
    {
      CompareSingle(v, Numeric(n), Alphanumeric(text));
    }
    AboveNumeralsExactly(text);
    hide Compare, Print, CompareSegment, IsAlphanumeric, AboveNumerals, FiniteCore, Decimal;
    if !AboveNumerals(text) {
      var n: nat :| CompareSegment(Decimal(n), text) != -1;
      assert Compare(Print(WithPre(v, Numeric(n))), Print(WithPre(v, Alphanumeric(text)))) != -1;
    }
  }

  /** Above all numerals, or between 0 and the others. */
  predicate Placed(text: string) { AboveNumerals(text) || (text != "" && text[0] == '0') }

  /** m is not above n, n is below the text, and the text is below m. */
  predicate SegmentCycle(text: string, m: nat, n: nat) {
    m < n && CompareSegment(Decimal(m), Decimal(n)) <= 0 && CompareSegment(Decimal(n), text) == -1 &&
    CompareSegment(text, Decimal(m)) == -1
  }

  lemma {:induction false} LeadingDigit(n: nat)
    requires n > 0
    ensures Decimal(n)[0] > '0'
  {
    if n >= 10 { LeadingDigit(n / 10); }
  }

  lemma TextAndNumeral(text: string, n: nat)
    requires IsAlphanumeric(text)
    ensures CompareSegment(text, Decimal(n)) == CompareText(text, Decimal(n)) == -CompareText(Decimal(n), text)
    ensures CompareSegment(Decimal(n), text) == CompareText(Decimal(n), text)
  {
    TextAntisymmetric(text, Decimal(n));
    hide Decimal, CompareText;
  }

  lemma ZeroFirst(text: string, n: nat)
    requires IsAlphanumeric(text) && text[0] == '0'
    ensures CompareText(Decimal(n), text) == if n == 0 then -1 else 1
  {
    if n > 0 {
      LeadingDigit(n);
    } else {
      assert Decimal(0) == "0";
      assert |text| > 1;
    }
  }

  lemma {:induction false} ZerosBelow(k: nat, text: string)
    requires k >= |text| && !AllDigits(text)
    requires forall i | 0 <= i < |text| :: IsDigit(text[i]) || IsLetter(text[i])
    ensures CompareText(seq(k, _ => '0'), text) == -1
  {
    var zeros := seq(k, _ => '0');
    assert text != "" && zeros[0] == '0';
    if text[0] == '0' {
      assert zeros[1..] == seq(k - 1, _ => '0');
      ZerosBelow(k - 1, text[1..]);
    }
  }

  lemma {:induction false} RoundPrinted(k: nat)
    ensures Decimal(Nines(k) + 1) == "1" + seq(k, _ => '0')
  {
    assert DigitChar(0) == '0' && DigitChar(1) == '1';
    if k > 0 {
      RoundPrinted(k - 1);
      assert (Nines(k) + 1) / 10 == Nines(k - 1) + 1 && (Nines(k) + 1) % 10 == 0;
    }
  }

  lemma PowerOfTenBelow(text: string)
    requires IsAlphanumeric(text) && IsDigit(text[0]) && text[0] != '0'
    ensures CompareText(Decimal(Nines(|text|) + 1), text) == -1
  {
    RoundPrinted(|text|);
    var zeros := seq(|text|, _ => '0');
    assert ("1" + zeros)[1..] == zeros;
    if text[0] == '1' { ZerosBelow(|text|, text[1..]); }
  }

  lemma NumeralsInOrder(m: nat, n: nat)
    requires m < n
    ensures CompareSegment(Decimal(m), Decimal(n)) <= 0
  {
    ParsePrinted(m);
    ParsePrinted(n);
    NumbersKeepOrder(m, n);
    hide Decimal, ParseDecimal, ToNumber;
  }

  lemma SegmentCycleExactly(text: string)
    requires IsAlphanumeric(text)
    ensures (exists m: nat, n: nat :: SegmentCycle(text, m, n)) <==> !Placed(text)
  {
    if Placed(text) {
      forall m: nat, n: nat ensures !SegmentCycle(text, m, n) { PlacedHasNoCycle(text, m, n); }
    } else {
      CycleAt(text);
    }
  }

  lemma PlacedHasNoCycle(text: string, m: nat, n: nat)
    requires IsAlphanumeric(text) && Placed(text)
    ensures !SegmentCycle(text, m, n)
  {
    TextAndNumeral(text, m);
    TextAndNumeral(text, n);
    if AboveNumerals(text) {
      NumeralBelow(Decimal(m), text);
    } else {
      ZeroFirst(text, m);
      ZeroFirst(text, n);
    }
    hide Decimal, CompareText, CompareSegment;
  }

  /** Between a power of ten and the row of nines before it, which is not above it as a number. */
  lemma CycleAt(text: string)
    requires IsAlphanumeric(text) && !Placed(text)
    ensures SegmentCycle(text, Nines(|text|), Nines(|text|) + 1)
  {
    var m := Nines(|text|);
    NinesAbove(text);
    NinesPrinted(|text|);
    PowerOfTenBelow(text);
    TextAndNumeral(text, m);
    TextAndNumeral(text, m + 1);
    NumeralsInOrder(m, m + 1);
    hide Decimal, CompareText, CompareSegment, Nines;
  }

  /** The same of whole versions that end in these identifiers. */
  ghost predicate Cycle(v: Version, text: string, m: nat, n: nat) {
    var a, b, c := Print(WithPre(v, Numeric(m))), Print(WithPre(v, Numeric(n))), Print(WithPre(v, Alphanumeric(text)));
    m < n && Compare(a, b) <= 0 && Compare(b, c) == -1 && Compare(c, a) == -1
  }

  /**
   * An alphanumeric identifier is in a cycle with two numeric ones exactly when its first character is a digit but
   * no zero, and its first character that is not a 9 is no letter.
   */
  lemma CycleExactly(v: Version, text: string)
    requires FiniteCore(v) && IsAlphanumeric(text)
    ensures (exists m: nat, n: nat :: Cycle(v, text, m, n)) <==> !AboveNumerals(text) && text[0] != '0'
  {
    forall m: nat, n: nat ensures Cycle(v, text, m, n) <==> SegmentCycle(text, m, n) {
      CompareSingle(v, Numeric(m), Numeric(n));
      CompareSingle(v, Numeric(n), Alphanumeric(text));
      CompareSingle(v, Alphanumeric(text), Numeric(m));
      hide Compare, Print, CompareSegment, FiniteCore, Decimal;
    }
    SegmentCycleExactly(text);
    hide Cycle, SegmentCycle, FiniteCore, AboveNumerals;
    if !Placed(text) {
      var m: nat, n: nat :| SegmentCycle(text, m, n);
      assert Cycle(v, text, m, n);
    }
  }

  // ---- Transitivity ----

  predicate PlacedIdentifier(x: Identifier) { x.Alphanumeric? ==> IsAlphanumeric(x.text) && Placed(x.text) }

  /** The order of the kinds: 0, texts that start with 0, other numerals, texts above all numerals. */
  function Kind(x: Identifier): nat {
    match x
    case Numeric(n) => if n == 0 then 0 else 2
    case Alphanumeric(text) => if text != "" && text[0] == '0' then 1 else 3
  }

  function CompareIdentifiers(x: Identifier, y: Identifier): int {
    CompareSegment(PrintIdentifier(x), PrintIdentifier(y))
  }

  lemma SmallerKind(x: Identifier, y: Identifier)
    requires PlacedIdentifier(x) && PlacedIdentifier(y) && Kind(x) < Kind(y)
    ensures CompareIdentifiers(x, y) == -1
  {
    if x.Numeric? && y.Alphanumeric? {
      TextAndNumeral(y.text, x.n);
      if Kind(y) == 1 { ZeroFirst(y.text, x.n); } else { NumeralBelow(Decimal(x.n), y.text); }
    } else if x.Alphanumeric? && y.Numeric? {
      TextAndNumeral(x.text, y.n);
      ZeroFirst(x.text, y.n);
    } else if x.Numeric? {
      ParsePrinted(x.n);
      ParsePrinted(y.n);
      NumbersKeepOrder(x.n, y.n);
      OnlyZeroIsZero(x.n);
      OnlyZeroIsZero(y.n);
    }
    hide Decimal, ParseDecimal, ToNumber;
  }

  lemma KindDecides(x: Identifier, y: Identifier)
    requires PlacedIdentifier(x) && PlacedIdentifier(y) && Kind(x) != Kind(y)
    ensures CompareIdentifiers(x, y) == Sign(Kind(x) - Kind(y))
  {
    if Kind(x) < Kind(y) {
      SmallerKind(x, y);
    } else {
      SmallerKind(y, x);
      SegmentAntisymmetric(PrintIdentifier(x), PrintIdentifier(y));
    }
    hide CompareSegment, PrintIdentifier, PlacedIdentifier;
  }

  lemma SameKindTransitive(x: Identifier, y: Identifier, z: Identifier)
    requires PlacedIdentifier(x) && PlacedIdentifier(y) && PlacedIdentifier(z) && Kind(x) == Kind(y) == Kind(z)
    requires CompareIdentifiers(x, y) <= 0 && CompareIdentifiers(y, z) <= 0
    ensures CompareIdentifiers(x, z) <= 0
    ensures CompareIdentifiers(x, z) == 0 ==> CompareIdentifiers(x, y) == 0 && CompareIdentifiers(y, z) == 0
  {
    if x.Alphanumeric? {
      TextsCompared(x.text, y.text);
      TextsCompared(y.text, z.text);
      TextsCompared(x.text, z.text);
      hide CompareText, CompareSegment;
      TextTransitive(x.text, y.text, z.text);
    } else {
      NumbersCompared(x.n, y.n);
      NumbersCompared(y.n, z.n);
      NumbersCompared(x.n, z.n);
      hide Decimal, ToNumber, CompareSegment;
    }
  }

  lemma TextsCompared(s: string, t: string)
    requires IsAlphanumeric(s) && IsAlphanumeric(t)
    ensures CompareSegment(s, t) == CompareText(s, t)
  {
    hide CompareText;
  }

  function CompareNumbers(a: Number, b: Number): int {
    if a == b then 0
    else if a.Infinite? then 1
    else if b.Infinite? then -1
    else Sign(a.value - b.value)
  }

  lemma NumbersCompared(m: nat, n: nat)
    ensures CompareSegment(Decimal(m), Decimal(n)) == CompareNumbers(ToNumber(m), ToNumber(n))
  {
    ParsePrinted(m);
    ParsePrinted(n);
    hide Decimal, ParseDecimal, ToNumber;
  }

  lemma IdentifierTransitive(x: Identifier, y: Identifier, z: Identifier)
    requires PlacedIdentifier(x) && PlacedIdentifier(y) && PlacedIdentifier(z)
    requires CompareIdentifiers(x, y) <= 0 && CompareIdentifiers(y, z) <= 0
    ensures CompareIdentifiers(x, z) <= 0
    ensures CompareIdentifiers(x, z) == 0 ==> CompareIdentifiers(x, y) == 0 && CompareIdentifiers(y, z) == 0
  {
    hide CompareIdentifiers, PlacedIdentifier, Kind;
    if Kind(x) == Kind(y) == Kind(z) {
      SameKindTransitive(x, y, z);
    } else {
      if Kind(x) != Kind(y) { KindDecides(x, y); }
      if Kind(y) != Kind(z) { KindDecides(y, z); }
      if Kind(x) != Kind(z) { KindDecides(x, z); }
    }
  }

  lemma {:induction false} PreTransitive(xs: seq<Identifier>, ys: seq<Identifier>, zs: seq<Identifier>, i: nat)
    requires forall x | x in xs + ys + zs :: PlacedIdentifier(x)
    requires i <= |xs| && i <= |ys| && i <= |zs|
    requires CompareSegments(PrintIdentifiers(xs), PrintIdentifiers(ys), i) <= 0
    requires CompareSegments(PrintIdentifiers(ys), PrintIdentifiers(zs), i) <= 0
    ensures CompareSegments(PrintIdentifiers(xs), PrintIdentifiers(zs), i) <= 0
    decreases |xs| - i
  {
    hide CompareSegment, PrintIdentifier, PlacedIdentifier;
    if i < |xs| && i < |ys| && i < |zs| {
      assert xs[i] in xs + ys + zs && ys[i] in xs + ys + zs && zs[i] in xs + ys + zs;
      IdentifierTransitive(xs[i], ys[i], zs[i]);
      if CompareIdentifiers(xs[i], zs[i]) == 0 { PreTransitive(xs, ys, zs, i + 1); }
    }
  }

  /** Printable, no number of the core overflows, and the alphanumeric identifiers have their place. */
  predicate Sortable(v: Version) {
    FiniteCore(v) && forall x | x in v.pre :: PlacedIdentifier(x)
  }

  lemma CompareSortable(v: Version, w: Version)
    requires Sortable(v) && Sortable(w)
    ensures Compare(Print(v), Print(w)) ==
      var c := CorePrecedence(RoundedCore(v), RoundedCore(w));
      if c != 0 then c
      else if v.pre == [] || w.pre == [] then (if v.pre == w.pre then 0 else if v.pre == [] then 1 else -1)
      else CompareSegments(PrintIdentifiers(v.pre), PrintIdentifiers(w.pre), 0)
  {
    ComparePrinted(v, w);
    FiniteCores(v);
    FiniteCores(w);
    CoresAgree(RoundedCore(v), RoundedCore(w));
    hide Compare, Print, CompareSegments, CompareCore, ToNumber, PrintIdentifiers, Rounded;
  }

  /** On such versions the comparison is transitive, whatever is rounded. */
  lemma SortableTransitive(u: Version, v: Version, w: Version)
    requires Sortable(u) && Sortable(v) && Sortable(w)
    requires Compare(Print(u), Print(v)) <= 0 && Compare(Print(v), Print(w)) <= 0
    ensures Compare(Print(u), Print(w)) <= 0
  {
    SortableIdentifiers(u, v, w);
    hide *;
    CompareSortable(u, v);
    CompareSortable(v, w);
    CompareSortable(u, w);
    CoreTransitive(RoundedCore(u), RoundedCore(v), RoundedCore(w));
    var pu, pv, pw := PrintIdentifiers(u.pre), PrintIdentifiers(v.pre), PrintIdentifiers(w.pre);
    if CompareSegments(pu, pv, 0) <= 0 && CompareSegments(pv, pw, 0) <= 0 {
      PreTransitive(u.pre, v.pre, w.pre, 0);
    }
  }

  lemma CoreTransitive(u: Version, v: Version, w: Version)
    requires CorePrecedence(u, v) <= 0 && CorePrecedence(v, w) <= 0
    ensures CorePrecedence(u, w) <= 0
    ensures CorePrecedence(u, w) == 0 ==> CorePrecedence(u, v) == 0 && CorePrecedence(v, w) == 0
  {
  }

  lemma SortableIdentifiers(u: Version, v: Version, w: Version)
    requires Sortable(u) && Sortable(v) && Sortable(w)
    ensures forall x | x in u.pre + v.pre + w.pre :: PlacedIdentifier(x)
  {
    hide PlacedIdentifier;
  }

  lemma NineBelowTen()
    ensures CompareSegment(PrintIdentifier(Numeric(9)), PrintIdentifier(Numeric(10))) == -1
  {
    ParsePrinted(9);
    ParsePrinted(10);
    ExactNumber(9);
    ExactNumber(10);
    hide Decimal, ToNumber, ParseDecimal;
  }

  lemma TenBelowOneA()
    ensures CompareSegment(PrintIdentifier(Numeric(10)), PrintIdentifier(Alphanumeric("1a"))) == -1
  {
    assert Decimal(10) == Decimal(1) + "0" && Decimal(1) == "1";
    hide Decimal, ParseDecimal, ToNumber, LimitFrom, PowerOf2;
    assert !IsDigit("1a"[1]);
    assert "10"[1..] == "0" && "1a"[1..] == "a" && CompareText("0", "a") == -1;
  }

  lemma OneABelowNine()
    ensures CompareSegment(PrintIdentifier(Alphanumeric("1a")), PrintIdentifier(Numeric(9))) == -1
  {
    assert Decimal(9) == "9" && !IsDigit("1a"[1]);
  }

  lemma OneAIsAlphanumeric()
    ensures forall v: Version :: Printable(WithPre(v, Alphanumeric("1a")))
    ensures forall v: Version, n: nat :: Printable(WithPre(v, Numeric(n)))
  {
    assert !IsDigit("1a"[1]) && IsAlphanumeric("1a");
  }

  /** Without the condition on identifiers the comparison is not even transitive: 9 < 10 < 1a < 9. */
  lemma DigitFirstCycle(v: Version)
    requires FiniteCore(v)
    ensures Compare(Print(WithPre(v, Numeric(9))), Print(WithPre(v, Numeric(10)))) == -1
    ensures Compare(Print(WithPre(v, Numeric(10))), Print(WithPre(v, Alphanumeric("1a")))) == -1
    ensures Compare(Print(WithPre(v, Alphanumeric("1a"))), Print(WithPre(v, Numeric(9)))) == -1
  {
    hide *;
    OneAIsAlphanumeric();
    CompareSingle(v, Numeric(9), Numeric(10));
    CompareSingle(v, Numeric(10), Alphanumeric("1a"));
    CompareSingle(v, Alphanumeric("1a"), Numeric(9));
    NineBelowTen();
    TenBelowOneA();
    OneABelowNine();
  }
}
