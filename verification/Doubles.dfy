/**
 * Whole numbers as doubles: parseInt rounds to the nearest double, and to the even one of two that are as near. The
 * exponent has no bound here; what overflows is decided by the caller.
 */
module Doubles {
  // ---- Powers of two ----

  function PowerOf2(n: nat): (p: nat)
    ensures p > 0
  {
    if n == 0 then 1 else 2 * PowerOf2(n - 1)
  }

  lemma {:induction false} PowerAdds(m: nat, n: nat)
    ensures PowerOf2(m + n) == PowerOf2(m) * PowerOf2(n)
  {
    if n > 0 { PowerAdds(m, n - 1); }
  }

  lemma {:induction false} PowerGrows(m: nat, n: nat)
    requires m < n
    ensures PowerOf2(n) >= 2 * PowerOf2(m)
  {
    if m + 1 < n { PowerGrows(m, n - 1); }
  }

  // ---- Rounding ----

  /** Binary digits of a double. */
  const PRECISION: nat := 53

  /** The smallest exponent e, from k on, with n < 2^(53 + e). */
  function Exponent(n: nat, k: nat): (e: nat)
    ensures k <= e && n < PowerOf2(PRECISION + e)
    ensures e == k || PowerOf2(PRECISION + e - 1) <= n
    decreases n - PowerOf2(PRECISION + k)
  {
    if n < PowerOf2(PRECISION + k) then k else Exponent(n, k + 1)
  }

  /** The nearest multiple of a unit, the even one of two. */
  function RoundTo(n: nat, unit: nat): nat
    requires unit > 0
  {
    var q, r := n / unit, n % unit;
    if 2 * r < unit || (2 * r == unit && q % 2 == 0) then q * unit else (q + 1) * unit
  }

  /** Of the doubles without a bound on the exponent. */
  function Rounded(n: nat): nat { RoundTo(n, PowerOf2(Exponent(n, 0))) }

  function Distance(m: nat, n: nat): nat { if m < n then n - m else m - n }

  lemma {:induction false} Multiples(a: nat, b: nat, unit: nat)
    requires a <= b
    ensures a * unit <= b * unit
  {
  }

  lemma NearestMultiple(n: nat, unit: nat, k: nat)
    requires unit > 0
    ensures Distance(n, RoundTo(n, unit)) <= Distance(n, k * unit)
  {
    var q := n / unit;
    var down := q * unit;
    assert n == down + n % unit && (q + 1) * unit == down + unit;
    if k <= q { Multiples(k, q, unit); } else { Multiples(q + 1, k, unit); }
    NearestOfTwo(n, unit, down, k * unit);
  }

  lemma NearestOfTwo(n: nat, unit: nat, down: nat, other: nat)
    requires unit > 0 && down == (n / unit) * unit && n == down + n % unit && (n / unit + 1) * unit == down + unit
    requires other <= down || other >= down + unit
    ensures Distance(n, RoundTo(n, unit)) <= Distance(n, other)
  {
  }

  lemma Associate(a: nat, b: nat, c: nat)
    ensures a * (b * c) == (a * b) * c
  {
  }

  lemma SmallDouble(m: nat, f: nat, p: nat, e: nat)
    requires m < PowerOf2(p) && f < e && p > 0
    ensures m * PowerOf2(f) <= PowerOf2(p - 1 + e)
  {
    PowerAdds(p, f);
    Multiples(m, PowerOf2(p), PowerOf2(f));
    if p + f < p - 1 + e { PowerGrows(p + f, p - 1 + e); }
  }

  /** No double is nearer than the rounded number. */
  lemma NearestDouble(n: nat, m: nat, f: nat)
    requires m < PowerOf2(PRECISION)
    ensures Distance(n, Rounded(n)) <= Distance(n, m * PowerOf2(f))
  {
    var e := Exponent(n, 0);
    hide PowerOf2, Exponent, RoundTo, Distance;
    NearestWithExponent(n, m, f, PRECISION, e);
  }

  lemma NearestWithExponent(n: nat, m: nat, f: nat, p: nat, e: nat)
    requires p > 0 && m < PowerOf2(p)
    requires e == 0 || PowerOf2(p + e - 1) <= n
    ensures Distance(n, RoundTo(n, PowerOf2(e))) <= Distance(n, m * PowerOf2(f))
  {
    hide PowerOf2, RoundTo;
    if f >= e {
      PowerAdds(f - e, e);
      Associate(m, PowerOf2(f - e), PowerOf2(e));
      NearestMultiple(n, PowerOf2(e), m * PowerOf2(f - e));
    } else {
      SmallDouble(m, f, p, e);
      NearestMultiple(n, PowerOf2(e), PowerOf2(p - 1));
      PowerAdds(p - 1, e);
    }
  }

  predicate HasForm(d: nat, m: nat, f: nat) { m < PowerOf2(PRECISION) && d == m * PowerOf2(f) }

  ghost predicate IsDouble(d: nat) { exists m: nat, f: nat :: HasForm(d, m, f) }

  lemma MultipleIsDouble(q: nat, p: nat, e: nat) returns (m: nat, f: nat)
    requires q <= PowerOf2(p) && p > 0
    ensures m < PowerOf2(p) && q * PowerOf2(e) == m * PowerOf2(f)
  {
    if q < PowerOf2(p) {
      m, f := q, e;
    } else {
      m, f := PowerOf2(p - 1), e + 1;
      Associate(m, 2, PowerOf2(e));
    }
  }

  lemma QuotientSmall(n: nat, p: nat, e: nat)
    requires n < PowerOf2(p + e)
    ensures n / PowerOf2(e) < PowerOf2(p)
  {
    PowerAdds(p, e);
    var unit := PowerOf2(e);
    hide *;
    assert n == (n / unit) * unit + n % unit;
    if n / unit >= PowerOf2(p) { Multiples(PowerOf2(p), n / unit, unit); }
  }

  lemma RoundedToMultiple(n: nat, unit: nat) returns (q: nat)
    requires unit > 0
    ensures n / unit <= q <= n / unit + 1 && RoundTo(n, unit) == q * unit
  {
    q := if RoundTo(n, unit) == (n / unit) * unit then n / unit else n / unit + 1;
  }

  lemma RoundedIsDouble(n: nat)
    ensures IsDouble(Rounded(n))
  {
    var e := Exponent(n, 0);
    hide PowerOf2, Exponent, RoundTo;
    QuotientSmall(n, PRECISION, e);
    var q := RoundedToMultiple(n, PowerOf2(e));
    var m, f := MultipleIsDouble(q, PRECISION, e);
    assert HasForm(Rounded(n), m, f);
  }

  /** The rounded number is a double, and none is nearer. */
  lemma RoundsToNearest(n: nat)
    ensures IsDouble(Rounded(n)) && forall d: nat | IsDouble(d) :: Distance(n, Rounded(n)) <= Distance(n, d)
  {
    RoundedIsDouble(n);
    hide Rounded, Distance, PowerOf2;
    forall d: nat | IsDouble(d) ensures Distance(n, Rounded(n)) <= Distance(n, d) {
      var m: nat, f: nat :| HasForm(d, m, f);
      NearestDouble(n, m, f);
    }
  }

  /** Larger numbers are not rounded to smaller ones. */
  lemma RoundedKeepsOrder(m: nat, n: nat)
    requires m <= n
    ensures Rounded(m) <= Rounded(n)
  {
    RoundsToNearest(m);
    RoundsToNearest(n);
    hide Rounded, IsDouble;
  }

  lemma DoubleIsExact(n: nat, m: nat, f: nat)
    requires HasForm(n, m, f)
    ensures Rounded(n) == n
  {
    NearestDouble(n, m, f);
    hide PowerOf2, Rounded;
  }

  /** Below 2^53 nothing is rounded. */
  lemma ExactBelow(n: nat)
    requires n < PowerOf2(PRECISION)
    ensures Rounded(n) == n
  {
    assert PowerOf2(0) == 1;
    hide PowerOf2, Rounded;
    DoubleIsExact(n, n, 0);
  }

  lemma PowerIsExact(k: nat)
    ensures Rounded(PowerOf2(k)) == PowerOf2(k)
  {
    OneIsBelow(PRECISION);
    hide PowerOf2, Rounded;
    DoubleIsExact(PowerOf2(k), 1, k);
  }

  lemma OneIsBelow(p: nat)
    requires p > 0
    ensures 1 < PowerOf2(p)
  {
  }

  lemma Quotient(n: nat, unit: nat, top: nat)
    requires unit > 0 && n < top * unit
    ensures var q := n / unit;
      && q + 1 <= top && q * unit + unit == (q + 1) * unit <= top * unit
      && (q + 1 < top ==> q * unit + 2 * unit <= top * unit)
  {
    var q := n / unit;
    assert n == q * unit + n % unit;
    if q >= top { Multiples(top, q, unit); }
    Multiples(q + 1, top, unit);
    if q + 1 < top {
      Multiples(q + 2, top, unit);
      assert (q + 2) * unit == q * unit + 2 * unit;
    }
  }

  lemma RoundStep(n: nat, half: nat)
    requires half > 0
    ensures var q := n / (2 * half);
      var down := q * (2 * half);
      RoundTo(n, 2 * half) == if n < down + half || (n == down + half && q % 2 == 0) then down else down + 2 * half
    ensures n < n / (2 * half) * (2 * half) + 2 * half
  {
    var q := n / (2 * half);
    assert n == q * (2 * half) + n % (2 * half);
    assert (q + 1) * (2 * half) == q * (2 * half) + 2 * half;
  }

  /** Below an even multiple of the unit, rounding reaches it from half a unit below it. */
  lemma EvenMultiple(n: nat, half: nat, top: nat)
    requires half > 0 && top > 0 && top % 2 == 0 && n < top * (2 * half)
    ensures RoundTo(n, 2 * half) >= top * (2 * half) <==> n >= top * (2 * half) - half
  {
    hide RoundTo;
    Quotient(n, 2 * half, top);
    RoundStep(n, half);
    var q := n / (2 * half);
    var down, multiple := q * (2 * half), top * (2 * half);
    assert q + 1 == top ==> down + 2 * half == multiple && q % 2 == 1;
  }

  lemma TopOfBinade(n: nat, p: nat, e: nat)
    requires p > 0 && e > 0 && n < PowerOf2(p + e)
    ensures RoundTo(n, PowerOf2(e)) >= PowerOf2(p + e) <==> n >= PowerOf2(p + e) - PowerOf2(e - 1)
  {
    PowerAdds(p, e);
    assert PowerOf2(p) == 2 * PowerOf2(p - 1);
    hide RoundTo;
    EvenMultiple(n, PowerOf2(e - 1), PowerOf2(p));
  }

  lemma ExponentIs(n: nat, p: nat, e: nat)
    requires p == PRECISION && e > 0 && PowerOf2(p + e - 1) <= n < PowerOf2(p + e)
    ensures Rounded(n) == RoundTo(n, PowerOf2(e))
  {
    var k := Exponent(n, 0);
    assert n < PowerOf2(p + k) && (k == 0 || PowerOf2(p + k - 1) <= n);
    hide PowerOf2, Exponent, RoundTo;
    if k < e { Ordered(p + k, p + e - 1); }
    if e < k { Ordered(p + e, p + k - 1); }
  }

  /** Rounding reaches a power of two from half a unit below it. */
  lemma ReachesExactly(n: nat, p: nat, e: nat)
    requires p == PRECISION && e > 0
    ensures Rounded(n) >= PowerOf2(p + e) <==> n >= PowerOf2(p + e) - PowerOf2(e - 1)
  {
    PowerIsExact(p + e);
    PowerIsExact(p + e - 1);
    PowerGrows(p + e - 1, p + e);
    PowerGrows(e - 1, p + e - 1);
    hide *;
    if n >= PowerOf2(p + e) {
      RoundedKeepsOrder(PowerOf2(p + e), n);
    } else if n < PowerOf2(p + e - 1) {
      RoundedKeepsOrder(n, PowerOf2(p + e - 1));
    } else {
      ExponentIs(n, p, e);
      TopOfBinade(n, p, e);
    }
  }

  lemma Ordered(m: nat, n: nat)
    requires m <= n
    ensures PowerOf2(m) <= PowerOf2(n)
  {
    if m < n { PowerGrows(m, n); }
  }

  // ---- Numbers as the code reads them ----

  /** What parseInt or Number returns for a decimal numeral. */
  datatype Number = Finite(value: int) | Infinite

  /** Rounded to a double, and to Infinity from 2^1024 on. */
  function ToNumber(n: nat): Number {
    if Rounded(n) < Overflow(PRECISION, 971) then Finite(Rounded(n)) else Infinite
  }

  function Overflow(p: nat, e: nat): nat { PowerOf2(p + e) }

  /** Halfway between the largest double and 2^1024. */
  function DoubleLimit(): nat { LimitFrom(PRECISION, 971) }

  function LimitFrom(p: nat, e: nat): nat
    requires p > 0 && e > 0
  {
    PowerGrows(e - 1, p + e);
    PowerOf2(p + e) - PowerOf2(e - 1)
  }

  /** Exactly the numbers from the limit on become Infinity. */
  lemma OverflowsExactly(n: nat)
    ensures ToNumber(n) == if n < DoubleLimit() then Finite(Rounded(n)) else Infinite
  {
    hide PowerOf2, Rounded;
    ReachesExactly(n, PRECISION, 971);
  }

  lemma OverflowIsLarge(p: nat, e: nat)
    ensures PowerOf2(p) <= Overflow(p, e)
  {
    Ordered(p, p + e);
  }

  /** Integers that doubles hold exactly are not rounded. */
  lemma ExactNumber(n: nat)
    requires n < SafeLimit()
    ensures ToNumber(n) == Finite(n)
  {
    hide PowerOf2, Rounded, Overflow;
    ExactBelow(n);
    OverflowIsLarge(PRECISION, 971);
  }

  /** Below 2^53 doubles hold integers exactly. */
  function SafeLimit(): nat { PowerOf2(PRECISION) }

  /** The order of numerals is kept, except that different ones may become equal. */
  lemma NumbersKeepOrder(m: nat, n: nat)
    requires m < n
    ensures !ToNumber(m).Infinite? || ToNumber(n).Infinite?
    ensures ToNumber(n).Infinite? || (ToNumber(m).Finite? && ToNumber(m).value <= ToNumber(n).value)
  {
    RoundedKeepsOrder(m, n);
    hide PowerOf2, Rounded, Overflow;
  }

  lemma OnlyZeroIsZero(n: nat)
    ensures ToNumber(n) == Finite(0) <==> n == 0
  {
    OneIsBelow(PRECISION);
    hide PowerOf2;
    ExactNumber(0);
    ExactBelow(1);
    if n > 0 { RoundedKeepsOrder(1, n); }
    hide Rounded, Overflow;
  }

  /** At most 53 significant binary digits, and below 2^1024. */
  ghost predicate Representable(n: nat) { IsDouble(n) && n < Overflow(PRECISION, 971) }

  /** A numeral is read as the number it stands for exactly when a double can hold it. */
  lemma ReadExactly(n: nat)
    ensures ToNumber(n) == Finite(n) <==> Representable(n)
  {
    RoundedIsDouble(n);
    hide Rounded, PowerOf2, Overflow;
    if IsDouble(n) {
      var m: nat, f: nat :| HasForm(n, m, f);
      DoubleIsExact(n, m, f);
    }
  }

  // ---- The first number that is rounded ----

  lemma HalfRoundsToEven(half: nat)
    requires half % 2 == 0
    ensures RoundTo(2 * half + 1, 2) == 2 * half
  {
    assert (2 * half + 1) / 2 == half && (2 * half + 1) % 2 == 1;
  }

  lemma PowersOfPrecision(p: nat)
    requires p > 1
    ensures PowerOf2(1) == 2 && PowerOf2(p) == 2 * PowerOf2(p - 1) && PowerOf2(p - 1) % 2 == 0 && PowerOf2(p) > 1
    ensures PowerOf2(p + 1) == 2 * PowerOf2(p)
  {
    assert PowerOf2(1) == 2 * PowerOf2(0);
    assert PowerOf2(p - 1) == 2 * PowerOf2(p - 2);
  }

  lemma NextIsRounded(p: nat)
    requires p == PRECISION
    ensures Rounded(PowerOf2(p) + 1) == PowerOf2(p)
  {
    hide PowerOf2, Rounded, RoundTo;
    PowersOfPrecision(p);
    HalfRoundsToEven(PowerOf2(p - 1));
    ExponentIs(PowerOf2(p) + 1, p, 1);
  }

  /** 2^53 in figures. */
  lemma PrecisionLimit(p: nat)
    requires p == PRECISION
    ensures PowerOf2(p) == 9_007_199_254_740_992
  {
    var ten: nat := p - 43;
    assert PowerOf2(ten) == 1024 by { assert PowerOf2(5) == 32; PowerAdds(5, 5); }
    var three: nat := p - 50;
    assert PowerOf2(three) == 8;
    hide PowerOf2;
    PowerAdds(ten, ten);
    PowerAdds(ten + ten, ten + ten);
    PowerAdds(ten + ten + ten + ten, ten);
    PowerAdds(ten + ten + ten + ten + ten, three);
  }

  /** 2^53 + 1 is read as 2^53. */
  lemma FirstRounded()
    ensures ToNumber(9_007_199_254_740_993) == Finite(9_007_199_254_740_992) == ToNumber(9_007_199_254_740_992)
  {
    hide PowerOf2, Rounded, Overflow;
    NextIsRounded(PRECISION);
    PrecisionLimit(PRECISION);
    PowerIsExact(PRECISION);
    OverflowIsLarger(PRECISION, 971);
  }

  lemma OverflowIsLarger(p: nat, e: nat)
    requires e > 0
    ensures PowerOf2(p) < Overflow(p, e)
  {
    PowerGrows(p, p + e);
  }
}
