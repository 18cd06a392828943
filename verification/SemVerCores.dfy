/** Version cores of any length, with or without a leading v, and components that are no numerals. */
module SemVerCores {
  import opened Doubles
  import opened Text
  import opened SemVer

  /** A leading v does not count. */
  lemma LeadingV(a: string, b: string)
    requires a != "" && a[0] != 'v' && b != ""
    ensures Compare("v" + a, b) == Compare(a, b) && Compare(b, "v" + a) == Compare(b, a)
  {
    hide Split, Cores, CompareCore, CompareSegments;
    assert ("v" + a)[0] == 'v' && ("v" + a)[1..] == a;
    assert DropV("v" + a) == a == DropV(a);
    assert CoreOf("v" + a) == CoreOf(a) && PreOf("v" + a) == PreOf(a);
    hide CoreOf, PreOf;
  }

  lemma {:induction false} DigitsThenRest(d: string, rest: string)
    requires AllDigits(d) && (rest == "" || !IsDigit(rest[0]))
    ensures DigitPrefix(d + rest) == d
  {
    if d == "" {
      assert d + rest == rest;
    } else {
      assert IsDigit(d[0]) && (d + rest)[1..] == d[1..] + rest;
      DigitsThenRest(d[1..], rest);
    }
  }

  lemma {:induction false} SpacesDropped(spaces: string, rest: string)
    requires AllSpace(spaces)
    ensures CoreNumber(spaces + rest) == CoreNumber(rest)
  {
    hide DigitPrefix, ToNumber;
    if spaces == "" {
      assert spaces + rest == rest;
    } else {
      assert (spaces + rest)[1..] == spaces[1..] + rest;
      SpacesDropped(spaces[1..], rest);
    }
  }

  predicate ReadsAs(component: string, number: int) {
    CoreNumber(component) == Finite(number)
  }

  /** It begins with neither a digit nor white space nor a sign. */
  predicate NoNumber(rest: string) {
    rest == "" || (!IsDigit(rest[0]) && !IsSpace(rest[0]) && rest[0] != '+' && rest[0] != '-')
  }

  /** It does not go on with digits. */
  predicate NoDigits(rest: string) { rest == "" || !IsDigit(rest[0]) }

  /** A numeral behind white space, and with a sign. */
  predicate ReadsSigned(spaces: string, numeral: string, n: int) {
    && ReadsAs(spaces + numeral, n) && ReadsAs(spaces + ("+" + numeral), n) && ReadsAs(spaces + ("-" + numeral), -n)
  }

  /** A component is read up to its first character that is no digit, behind white space and a sign. */
  lemma ComponentReads(spaces: string, n: nat, rest: string)
    requires AllSpace(spaces) && n < SafeLimit() && NoDigits(rest)
    ensures ReadsSigned(spaces, Decimal(n) + rest, n)
  {
    hide CoreNumber, Decimal, NoDigits;
    var numeral := Decimal(n) + rest;
    SpacesDropped(spaces, numeral);
    SpacesDropped(spaces, "+" + numeral);
    SpacesDropped(spaces, "-" + numeral);
    NumeralReads(n, rest);
    assert "" + numeral == numeral && "" + ("+" + numeral) == "+" + numeral && "" + ("-" + numeral) == "-" + numeral;
  }

  lemma NumeralReads(n: nat, rest: string)
    requires n < SafeLimit() && NoDigits(rest)
    ensures ReadsSigned("", Decimal(n) + rest, n)
  {
    hide Decimal, DigitPrefix, ToNumber, ParseDecimal, CoreNumber, Negate, AllDigits, IsDigit;
    FirstDigit(n, rest);
    DigitsThenRest(Decimal(n), rest);
    ParsePrinted(n);
    ExactNumber(n);
    SignedReads(Decimal(n) + rest);
    NegatedIs(n);
    var numeral := Decimal(n) + rest;
    assert "" + numeral == numeral && "" + ("+" + numeral) == "+" + numeral && "" + ("-" + numeral) == "-" + numeral;
  }

  /** A component counts as 0 when it begins with no number. */
  lemma NoNumberReads(spaces: string, rest: string)
    requires AllSpace(spaces) && NoNumber(rest)
    ensures ReadsAs(spaces + rest, 0)
  {
    SpacesDropped(spaces, rest);
    NoNumeral(rest);
    hide CoreNumber;
  }

  lemma NegatedIs(n: int)
    ensures Negate(Finite(n)) == Finite(-n)
  {
  }

  lemma FirstDigit(n: nat, rest: string)
    ensures Decimal(n) + rest != "" && IsDigit((Decimal(n) + rest)[0]) && AllDigits(Decimal(n))
  {
    assert IsDigit(Decimal(n)[0]);
    assert (Decimal(n) + rest)[0] == Decimal(n)[0];
  }

  /** With a sign and without. */
  lemma SignedReads(numeral: string)
    requires numeral != "" && IsDigit(numeral[0])
    ensures var number := ToNumber(ParseDecimal(DigitPrefix(numeral)));
      CoreNumber(numeral) == number == CoreNumber("+" + numeral) && CoreNumber("-" + numeral) == Negate(number)
  {
    hide DigitPrefix, ToNumber, ParseDecimal, Negate;
    assert ("+" + numeral)[1..] == numeral && ("-" + numeral)[1..] == numeral;
    assert TrimStart(numeral) == numeral;
    assert TrimStart("+" + numeral) == "+" + numeral && TrimStart("-" + numeral) == "-" + numeral;
  }

  lemma NoNumeral(rest: string)
    requires NoNumber(rest)
    ensures CoreNumber(rest) == Finite(0)
  {
    hide ToNumber;
    ExactNumber(0);
    assert DigitPrefix(rest) == "";
  }

  function Decimals(numbers: seq<nat>): (parts: seq<string>)
    ensures |parts| == |numbers| && forall i | 0 <= i < |numbers| :: parts[i] == Decimal(numbers[i])
  {
    if numbers == [] then [] else [Decimal(numbers[0])] + Decimals(numbers[1..])
  }

  function NumberAt(numbers: seq<nat>, i: nat): nat { if i < |numbers| then numbers[i] else 0 }

  lemma NumeralPart(n: nat)
    requires n < SafeLimit()
    ensures '-' !in Decimal(n) && '.' !in Decimal(n) && CoreNumber(Decimal(n)) == Finite(n) && IsDigit(Decimal(n)[0])
  {
    hide Decimal, CoreNumber;
    DigitsLack(Decimal(n), '-');
    DigitsLack(Decimal(n), '.');
    CoreNumberPrinted(n);
    ExactNumber(n);
    FirstDigit(n, "");
    assert Decimal(n) + "" == Decimal(n);
  }

  /** The version with this core and nothing else. */
  function CoreText(numbers: seq<nat>): string { Join(Decimals(numbers), '.') }

  predicate Exact(numbers: seq<nat>) {
    numbers != [] && forall n | n in numbers :: n < SafeLimit()
  }

  lemma CoreTextParts(numbers: seq<nat>)
    requires Exact(numbers)
    ensures var version := CoreText(numbers);
      && version != "" && IsDigit(version[0]) && '-' !in version && Split(version, '.') == Decimals(numbers)
  {
    var parts := Decimals(numbers);
    forall i | 0 <= i < |parts| ensures '-' !in parts[i] && '.' !in parts[i] && IsDigit(parts[i][0]) {
      assert numbers[i] in numbers;
      NumeralPart(numbers[i]);
    }
    hide Decimals, Decimal;
    JoinLacks(parts, '.', '-');
    JoinStarts(parts, '.');
    SplitJoin(parts, '.');
  }

  lemma CoreTextReads(numbers: seq<nat>)
    requires Exact(numbers)
    ensures var version := CoreText(numbers);
      && version != "" && PreOf(version) == "" && |CoreOf(version)| == |numbers|
      && forall i: nat :: CoreAt(CoreOf(version), i) == Finite(NumberAt(numbers, i))
  {
    hide Decimals, Split, CoreText, CoreNumber, Decimal;
    var version := CoreText(numbers);
    CoreTextParts(numbers);
    SplitOne(version, '-');
    assert DropV(version) == version;
    forall i: nat | i < |numbers| ensures CoreNumber(Decimal(numbers[i])) == Finite(numbers[i]) {
      assert numbers[i] in numbers;
      NumeralPart(numbers[i]);
    }
  }

  lemma {:induction false} FirstDifferenceDecides(a: seq<Number>, b: seq<Number>, i: nat, k: nat)
    requires i <= k < Longer(|a|, |b|)
    requires forall j | i <= j < k :: CoreAt(a, j) == CoreAt(b, j) && CoreAt(a, j).Finite?
    requires CoreAt(a, k).Finite? && CoreAt(b, k).Finite? && CoreAt(a, k).value < CoreAt(b, k).value
    ensures CompareCore(a, b, i) == -1
    decreases k - i
  {
    if i < k { FirstDifferenceDecides(a, b, i + 1, k); }
  }

  lemma {:induction false} NoDifference(a: seq<Number>, b: seq<Number>, i: nat)
    requires forall j | i <= j < Longer(|a|, |b|) :: CoreAt(a, j) == CoreAt(b, j) && CoreAt(a, j).Finite?
    ensures CompareCore(a, b, i) == 0
    decreases Longer(|a|, |b|) - i
  {
    if i < Longer(|a|, |b|) { NoDifference(a, b, i + 1); }
  }

  /** Cores of any lengths: the first number that differs decides, and missing ones are 0. */
  lemma CoresInOrder(xs: seq<nat>, ys: seq<nat>, k: nat)
    requires Exact(xs) && Exact(ys) && forall j | 0 <= j < k :: NumberAt(xs, j) == NumberAt(ys, j)
    ensures NumberAt(xs, k) < NumberAt(ys, k) ==> Compare(CoreText(xs), CoreText(ys)) == -1
    ensures k >= |xs| && k >= |ys| ==> Compare(CoreText(xs), CoreText(ys)) == 0
  {
    CoreTextReads(xs);
    CoreTextReads(ys);
    hide CoreText, CoreOf, PreOf, CompareCore, CoreAt, CompareSegments, Split, Exact;
    var a, b := CoreOf(CoreText(xs)), CoreOf(CoreText(ys));
    if NumberAt(xs, k) < NumberAt(ys, k) {
      FirstDifferenceDecides(a, b, 0, k);
    } else if k >= |xs| && k >= |ys| {
      NoDifference(a, b, 0);
    }
  }
}
