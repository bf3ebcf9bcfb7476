/**
  What the node makes of the parts of a decimal amount: which ones it takes for a number of
  units, and that the number is exact.
 */
module FixedPoint {
  import opened Digits
  import opened Wrappers

  /** The largest number of eighteen digits. */
  const UPPER_BOUND: nat := 999999999999999999

  // ------------------------------------------------------------ digits and zeros

  function TrailingZeros(d: string): (n: nat)
    ensures n <= |d|
  {
    if d == "" || d[|d| - 1] != '0' then 0 else 1 + TrailingZeros(d[..|d| - 1])
  }

  /** The digits without their trailing zeros, as a number. */
  function Significant(d: string): nat
    requires AllDigits(d)
  {
    Value(d[..|d| - TrailingZeros(d)])
  }

  lemma OneZeroMore(n: nat)
    ensures Zeros(n + 1) == Zeros(n) + "0"
  {
  }

  lemma {:induction false} TrailingAre(d: string)
    ensures d == d[..|d| - TrailingZeros(d)] + Zeros(TrailingZeros(d))
  {
    if d != "" && d[|d| - 1] == '0' {
      var init, n := d[..|d| - 1], TrailingZeros(d);
      assert n == TrailingZeros(init) + 1;
      hide TrailingZeros;
      TrailingAre(init);
      OneZeroMore(n - 1);
      assert d[..|d| - n] == init[..|init| - (n - 1)];
      assert d == init + "0";
      assert d[..|d| - n] + (Zeros(n - 1) + "0") == d[..|d| - n] + Zeros(n - 1) + "0";
    }
  }

  /** The trailing zeros pay for themselves. */
  lemma SignificantWorth(d: string)
    requires AllDigits(d)
    ensures Value(d) == Significant(d) * Pow10(TrailingZeros(d))
  {
    TrailingAre(d);
    ValueTrailing(d[..|d| - TrailingZeros(d)], TrailingZeros(d));
  }

  lemma SignificantSnoc(d: string, c: char)
    requires AllDigits(d) && IsDigit(c)
    ensures AllDigits(d + [c])
    ensures c == '0' ==> Significant(d + [c]) == Significant(d) && TrailingZeros(d + [c]) == TrailingZeros(d) + 1
    ensures c != '0' ==> TrailingZeros(d + [c]) == 0
    ensures c != '0' ==> Significant(d + [c]) == Significant(d) * Pow10(TrailingZeros(d) + 1) + DigitValue(c)
  {
    var e := d + [c];
    assert e[..|d|] == d;
    if c == '0' {
      assert e[..|e| - TrailingZeros(e)] == d[..|d| - TrailingZeros(d)];
    } else {
      assert e[..|e|] == e;
      ValueSnoc(d, c);
      SignificantWorth(d);
      hide Significant, Value;
      TenTimesRight(Significant(d), Pow10(TrailingZeros(d)));
    }
  }

  lemma OneMoreDigit(d: string, c: char)
    requires AllDigits(d) && IsDigit(c)
    ensures AllDigits(d + [c]) && Significant(d) <= Significant(d + [c])
  {
    hide Significant, Pow10, TrailingZeros, AllDigits;
    SignificantSnoc(d, c);
    TimesAtLeast(Significant(d), Pow10(TrailingZeros(d) + 1));
  }

  lemma DigitsSplit(d: string, more: string)
    requires AllDigits(d) && AllDigits(more) && more != ""
    ensures AllDigits(more[..|more| - 1]) && IsDigit(more[|more| - 1])
    ensures d + more == (d + more[..|more| - 1]) + [more[|more| - 1]]
  {
    assert more == more[..|more| - 1] + [more[|more| - 1]];
  }

  lemma DigitsConcat(d: string, more: string)
    requires AllDigits(d) && AllDigits(more)
    ensures AllDigits(d + more)
  {
  }

  /** More digits do not make the significant part smaller. */
  lemma {:induction false} SignificantGrows(d: string, more: string)
    requires AllDigits(d) && AllDigits(more)
    ensures AllDigits(d + more) && Significant(d) <= Significant(d + more)
    decreases |more|
  {
    hide AllDigits, Significant;
    if more == "" {
      assert d + more == d;
    } else {
      DigitsSplit(d, more);
      SignificantGrows(d, more[..|more| - 1]);
      OneMoreDigit(d + more[..|more| - 1], more[|more| - 1]);
    }
  }

  lemma PowZero()
    ensures Pow10(0) == 1
  {
  }

  lemma PowStep(m: nat, i: nat)
    ensures m * Pow10(i + 1) == 10 * (m * Pow10(i))
  {
    TenTimesRight(m, Pow10(i));
  }

  lemma PowGrows(m: nat, i: nat, j: nat)
    requires i <= j
    ensures m * Pow10(i) <= m * Pow10(j)
  {
    hide Pow10;
    Pow10Add(i, j - i);
    var p, q := Pow10(i), Pow10(j - i);
    MulAssociates(m, p, q);
    TimesAtLeast(m * p, q);
  }

  lemma TimesAtLeast(v: nat, p: nat)
    requires p >= 1
    ensures v <= v * p
  {
  }

  // ---------------------------------------------------------------- what is read

  /** The parts of an amount's text; exponent holds its digits, if it has one. */
  datatype Literal = Literal(negative: bool, whole: string, frac: string, exponentNegative: bool, exponent: string)

  /** The digits that count: a whole part of a single zero does not. */
  function Mantissa(l: Literal): string {
    (if l.whole == "0" then "" else l.whole) + l.frac
  }

  predicate AreDigits(l: Literal) {
    AllDigits(l.whole) && AllDigits(l.frac) && AllDigits(l.exponent)
  }

  lemma MantissaDigits(l: Literal)
    requires AreDigits(l)
    ensures AllDigits(Mantissa(l))
  {
  }

  function Signed(negative: bool, n: int): int { if negative then -n else n }

  /** The power of ten that the significant digits are to be multiplied by. */
  function Scale(l: Literal, decimals: int): int
    requires AreDigits(l)
  {
    Signed(l.exponentNegative, Value(l.exponent)) - |l.frac| + TrailingZeros(Mantissa(l)) + decimals
  }

  /** The scale fits and the number has at most eighteen digits, before scaling and after. */
  predicate Representable(l: Literal, decimals: int)
    requires AreDigits(l)
  {
    MantissaDigits(l);
    && Significant(Mantissa(l)) <= UPPER_BOUND && Value(l.exponent) <= UPPER_BOUND
    && 0 <= Scale(l, decimals) < 18
    && Significant(Mantissa(l)) * Pow10(Scale(l, decimals)) <= UPPER_BOUND
  }

  function Meaning(l: Literal, decimals: int): Option<int>
    requires AreDigits(l)
  {
    MantissaDigits(l);
    if Representable(l, decimals)
    then Some(Signed(l.negative, Significant(Mantissa(l)) * Pow10(Scale(l, decimals))))
    else None
  }

  /** What is read is exact: the digits, moved by the exponent, the decimals asked for and those written. */
  lemma MeaningExact(l: Literal, decimals: int)
    requires AreDigits(l) && Meaning(l, decimals).Some?
    ensures AllDigits(Mantissa(l))
    ensures var shift := Signed(l.exponentNegative, Value(l.exponent)) + decimals - |l.frac|;
      if shift >= 0 then Meaning(l, decimals).value == Signed(l.negative, Value(Mantissa(l)) * Pow10(shift))
      else Meaning(l, decimals).value * Pow10(-shift) == Signed(l.negative, Value(Mantissa(l)))
  {
    MantissaDigits(l);
    var d := Mantissa(l);
    var shift := Signed(l.exponentNegative, Value(l.exponent)) + decimals - |l.frac|;
    SignificantWorth(d);
    hide Significant, Value, Pow10, TrailingZeros;
    if shift >= 0 {
      ScaledUp(Significant(d), TrailingZeros(d), shift);
    } else {
      ScaledDown(Significant(d), Scale(l, decimals), -shift);
      SignedTimes(l.negative, Significant(d) * Pow10(Scale(l, decimals)), Pow10(-shift));
    }
  }

  lemma ScaledUp(m: nat, zeros: nat, shift: nat)
    ensures m * Pow10(zeros + shift) == (m * Pow10(zeros)) * Pow10(shift)
  {
    hide Pow10;
    Pow10Add(zeros, shift);
    MulAssociates(m, Pow10(zeros), Pow10(shift));
  }

  lemma ScaledDown(m: nat, scale: nat, back: nat)
    ensures (m * Pow10(scale)) * Pow10(back) == m * Pow10(scale + back)
  {
    ScaledUp(m, scale, back);
  }

  lemma MulAssociates(a: nat, b: nat, c: nat)
    ensures (a * b) * c == a * (b * c)
  {
  }

  lemma SignedTimes(negative: bool, a: int, b: nat)
    ensures Signed(negative, a) * b == Signed(negative, a * b)
  {
    if negative { assert (-a) * b == -(a * b); }
  }

  // ------------------------------------------------------- which amounts are read

  lemma UpperBoundIs()
    ensures UPPER_BOUND + 1 == Pow10(18)
  {
    assert Pow10(6) == 1000000;
    hide Pow10;
    Pow10Add(6, 6);
    Pow10Add(6, 12);
  }

  lemma SmallerPower(a: nat, b: nat)
    requires Pow10(a) < Pow10(b)
    ensures a < b
  {
    if a >= b { PowGrows(1, b, a); }
    hide Pow10;
  }

  /** Without its trailing zeros a number other than zero does not end in one. */
  lemma SignificantEnds(d: string)
    requires AllDigits(d)
    ensures Significant(d) > 0 ==> Significant(d) % 10 != 0
    ensures Significant(d) == 0 <==> Value(d) == 0
    ensures Value(d) == 0 ==> TrailingZeros(d) == |d|
  {
    SignificantWorth(d);
    PositiveProduct(Significant(d), Pow10(TrailingZeros(d)));
    var e := d[..|d| - TrailingZeros(d)];
    TrailingStops(d);
    if e != "" { LastDigit(e); }
  }

  lemma {:induction false} TrailingStops(d: string)
    ensures var e := d[..|d| - TrailingZeros(d)]; e != "" ==> e[|e| - 1] != '0'
  {
    if d != "" && d[|d| - 1] == '0' {
      var init := d[..|d| - 1];
      TrailingStops(init);
      assert TrailingZeros(d) == TrailingZeros(init) + 1;
      hide TrailingZeros;
      assert d[..|d| - TrailingZeros(d)] == init[..|init| - TrailingZeros(init)];
    }
  }

  lemma LastDigit(e: string)
    requires e != "" && AllDigits(e) && e[|e| - 1] != '0'
    ensures Value(e) % 10 != 0
  {
    var rest := Value(e[..|e| - 1]);
    assert Value(e) == 10 * rest + DigitValue(e[|e| - 1]);
    hide Value;
  }

  lemma PositiveProduct(a: nat, b: nat)
    requires b >= 1
    ensures a * b == 0 <==> a == 0
  {
    if a > 0 { MulMonotone(1, a, b); }
  }

  /** n is the number of the digits d with the point moved. */
  predicate Worth(n: nat, d: string, shift: int)
    requires AllDigits(d)
  {
    if shift >= 0 then n == Value(d) * Pow10(shift) else n * Pow10(-shift) == Value(d)
  }

  lemma TimesLess(a: nat, b: nat, p: nat)
    requires p >= 1
    ensures a < b ==> a * p < b * p
  {
    if a < b {
      MulMonotone(a + 1, b, p);
      assert (a + 1) * p == a * p + p;
    }
  }

  lemma Cancel(a: nat, b: nat, p: nat)
    requires p >= 1 && a * p == b * p
    ensures a == b
  {
    TimesLess(a, b, p);
    TimesLess(b, a, p);
  }

  lemma TimesTen(n: nat, k: nat)
    ensures (n * Pow10(k + 1)) % 10 == 0
  {
    PowStep(n, k);
  }

  /** A number is worth its significant digits, scaled; if the scale is below zero it is no whole number. */
  lemma WorthScaled(n: nat, d: string, shift: int)
    requires AllDigits(d) && Value(d) > 0 && Worth(n, d, shift)
    ensures shift + TrailingZeros(d) >= 0 && n == Significant(d) * Pow10(shift + TrailingZeros(d))
  {
    SignificantWorth(d);
    SignificantEnds(d);
    var s, z := Significant(d), TrailingZeros(d);
    hide Significant, TrailingZeros, Value, Pow10;
    if shift >= 0 {
      ScaledUp(s, z, shift);
    } else if shift + z >= 0 {
      ScaledDown(s, shift + z, -shift);
      Cancel(n, s * Pow10(shift + z), Pow10(-shift));
    } else {
      ScaledDown(n, -shift - z, z);
      Cancel(n * Pow10(-shift - z), s, Pow10(z));
      TimesTen(n, -shift - z - 1);
    }
  }

  function Shift(l: Literal, decimals: int): int
    requires AreDigits(l)
  {
    Signed(l.exponentNegative, Value(l.exponent)) + decimals - |l.frac|
  }

  ghost predicate FitsEighteen(d: string, shift: int)
    requires AllDigits(d)
  {
    exists n: nat :: n < Pow10(18) && Worth(n, d, shift)
  }

  lemma FittingScale(n: nat, d: string, shift: int)
    requires AllDigits(d) && Value(d) > 0 && Worth(n, d, shift) && n < Pow10(18)
    ensures 0 <= shift + TrailingZeros(d) < 18 && Significant(d) <= UPPER_BOUND
    ensures Significant(d) * Pow10(shift + TrailingZeros(d)) <= UPPER_BOUND
  {
    WorthScaled(n, d, shift);
    UpperBoundIs();
    SignificantEnds(d);
    hide Significant, TrailingZeros, Value, Pow10, Worth;
    var s, p := Significant(d), Pow10(shift + TrailingZeros(d));
    TimesAtLeast(s, p);
    MulMonotone(1, s, p);
    SmallerPower(shift + TrailingZeros(d), 18);
  }

  lemma MeaningOfZero(l: Literal, decimals: int)
    requires AreDigits(l) && AllDigits(Mantissa(l)) && Value(Mantissa(l)) == 0
    ensures var scale := Shift(l, decimals) + |Mantissa(l)|;
      Meaning(l, decimals) == if Value(l.exponent) < Pow10(18) && 0 <= scale < 18 then Some(0) else None
  {
    var d := Mantissa(l);
    UpperBoundIs();
    SignificantEnds(d);
    assert Scale(l, decimals) == Shift(l, decimals) + TrailingZeros(d);
    hide Significant, TrailingZeros, Value, Pow10, Mantissa, Shift, Scale;
    if Scale(l, decimals) >= 0 { ZeroTimes(Pow10(Scale(l, decimals))); }
  }

  /** The node's bounds on the scan, in terms of the digits and the shift. */
  predicate InBounds(d: string, shift: int)
    requires AllDigits(d)
  {
    var scale := shift + TrailingZeros(d);
    && Significant(d) <= UPPER_BOUND && 0 <= scale < 18
    && Significant(d) * Pow10(scale) <= UPPER_BOUND
  }

  lemma MeaningBounds(l: Literal, decimals: int)
    requires AreDigits(l) && AllDigits(Mantissa(l))
    ensures Meaning(l, decimals).Some? <==>
      Value(l.exponent) <= UPPER_BOUND && InBounds(Mantissa(l), Shift(l, decimals))
  {
    hide Significant, TrailingZeros, Value, Pow10, Mantissa, UPPER_BOUND;
    assert Scale(l, decimals) == Shift(l, decimals) + TrailingZeros(Mantissa(l));
  }

  lemma BoundsFit(d: string, shift: int)
    requires AllDigits(d) && Value(d) > 0
    ensures InBounds(d, shift) <==> FitsEighteen(d, shift)
  {
    UpperBoundIs();
    hide Significant, TrailingZeros, Value, Pow10, Worth, UPPER_BOUND;
    if InBounds(d, shift) {
      var n := Significant(d) * Pow10(shift + TrailingZeros(d));
      ScaleWorth(d, shift, n);
      assert n < Pow10(18) && Worth(n, d, shift);
    }
    if FitsEighteen(d, shift) {
      var n: nat :| n < Pow10(18) && Worth(n, d, shift);
      FittingScale(n, d, shift);
    }
  }

  lemma MeaningOfOther(l: Literal, decimals: int)
    requires AreDigits(l) && AllDigits(Mantissa(l)) && Value(Mantissa(l)) > 0
    ensures Meaning(l, decimals).Some? <==>
      Value(l.exponent) < Pow10(18) && FitsEighteen(Mantissa(l), Shift(l, decimals))
  {
    hide *;
    UpperBoundIs();
    MeaningBounds(l, decimals);
    BoundsFit(Mantissa(l), Shift(l, decimals));
  }

  /**
    Which literals the node reads: an amount other than zero exactly if it is a whole number of
    units of at most eighteen digits, a zero exactly if its zeros and exponent scale into range;
    and in either case the digits of the exponent must not be too many.
   */
  lemma MeaningExactly(l: Literal, decimals: int)
    requires AreDigits(l)
    ensures AllDigits(Mantissa(l))
    ensures var d, shift, small := Mantissa(l), Shift(l, decimals), Value(l.exponent) < Pow10(18);
      if Value(d) == 0 then Meaning(l, decimals) == (if small && 0 <= shift + |d| < 18 then Some(0) else None)
      else Meaning(l, decimals).Some? <==> small && FitsEighteen(d, shift)
  {
    hide *;
    MantissaDigits(l);
    if Value(Mantissa(l)) == 0 { MeaningOfZero(l, decimals); } else { MeaningOfOther(l, decimals); }
  }

  lemma ZeroTimes(p: nat)
    ensures 0 * p == 0
  {
  }

  lemma ScaleWorth(d: string, shift: int, n: nat)
    requires AllDigits(d) && shift + TrailingZeros(d) >= 0
    requires n == Significant(d) * Pow10(shift + TrailingZeros(d))
    ensures Worth(n, d, shift)
  {
    SignificantWorth(d);
    hide Significant, TrailingZeros, Value, Pow10;
    if shift >= 0 {
      ScaledUp(Significant(d), TrailingZeros(d), shift);
    } else {
      ScaledDown(Significant(d), shift + TrailingZeros(d), -shift);
    }
  }
}
