/** Decimal digits: the number a text of digits stands for, and the text of a number. */
module Digits {

  predicate IsDigit(c: char) { '0' <= c <= '9' }

  lemma DigitsAre(c: char)
    ensures IsDigit(c) <==> c in "0123456789"
  {
  }

  predicate AllDigits(s: string) {
    forall i :: 0 <= i < |s| ==> IsDigit(s[i])
  }

  function DigitValue(c: char): nat
    requires IsDigit(c)
  {
    c as int - '0' as int
  }

  function Digit(d: nat): (c: char)
    requires d < 10
    ensures IsDigit(c) && DigitValue(c) == d
  {
    "0123456789"[d]
  }

  function Value(s: string): nat
    requires AllDigits(s)
  {
    if s == "" then 0 else 10 * Value(s[..|s| - 1]) + DigitValue(s[|s| - 1])
  }

  function ToString(n: nat): (s: string)
    ensures s != "" && AllDigits(s)
  {
    if n < 10 then [Digit(n)] else ToString(n / 10) + [Digit(n % 10)]
  }

  function Zeros(n: nat): (s: string)
    ensures |s| == n && AllDigits(s)
  {
    seq(n, i => '0')
  }

  function Pow10(n: nat): (p: nat)
    ensures p >= 1
  {
    if n == 0 then 1 else 10 * Pow10(n - 1)
  }

  lemma {:induction false} ValueToString(n: nat)
    ensures Value(ToString(n)) == n
  {
    var s := ToString(n);
    if n < 10 {
      assert s[..0] == "";
    } else {
      ValueToString(n / 10);
      assert s[..|s| - 1] == ToString(n / 10);
    }
  }

  lemma {:induction false} ToStringLength(n: nat, k: nat)
    requires k >= 1 && n < Pow10(k)
    ensures |ToString(n)| <= k
  {
    if n >= 10 {
      ToStringLength(n / 10, k - 1);
    }
  }

  lemma {:induction false} ValueZeros(k: nat, s: string)
    requires AllDigits(s)
    ensures AllDigits(Zeros(k) + s) && Value(Zeros(k) + s) == Value(s)
    decreases k + |s|
  {
    var t := Zeros(k) + s;
    if s != "" {
      ValueZeros(k, s[..|s| - 1]);
      assert t[..|t| - 1] == Zeros(k) + s[..|s| - 1];
    } else if k > 0 {
      ValueZeros(k - 1, "");
      assert t[..k - 1] == Zeros(k - 1) + "";
      assert Zeros(k)[k - 1] == '0';
    }
  }

  lemma Pow10Add(m: nat, n: nat)
    ensures Pow10(m + n) == Pow10(m) * Pow10(n)
  {
    if m > 0 {
      Pow10Add(m - 1, n);
      assert Pow10(m + n) == 10 * Pow10(m - 1 + n);
      TenTimes(Pow10(m - 1), Pow10(n));
    }
  }

  lemma TenTimes(p: nat, q: nat)
    ensures (10 * p) * q == 10 * (p * q)
  {
  }

  lemma MulMonotone(a: nat, b: nat, p: nat)
    requires a <= b
    ensures a * p <= b * p
  {
  }

  lemma ValueSnoc(s: string, c: char)
    requires AllDigits(s) && IsDigit(c)
    ensures AllDigits(s + [c]) && Value(s + [c]) == 10 * Value(s) + DigitValue(c)
  {
    assert (s + [c])[..|s|] == s;
  }

  /** Digits behind a number shift it up by as many places. */
  lemma {:induction false} ValueConcat(a: string, b: string)
    requires AllDigits(a) && AllDigits(b)
    ensures AllDigits(a + b) && Value(a + b) == Value(a) * Pow10(|b|) + Value(b)
    decreases |b|
  {
    if b == "" {
      assert a + b == a;
    } else {
      var init, c := b[..|b| - 1], b[|b| - 1];
      assert a + b == (a + init) + [c] && b == init + [c];
      hide Value;
      ValueConcat(a, init);
      ValueSnoc(a + init, c);
      ValueSnoc(init, c);
      TenTimesRight(Value(a), Pow10(|init|));
    }
  }

  lemma TenTimesRight(p: nat, q: nat)
    ensures p * (10 * q) == 10 * (p * q)
  {
  }

  lemma {:induction false} ValueOfZeros(n: nat)
    ensures Value(Zeros(n)) == 0
  {
    ValueZeros(n, "");
    assert Zeros(n) + "" == Zeros(n);
  }

  lemma ValueTrailing(a: string, n: nat)
    requires AllDigits(a)
    ensures AllDigits(a + Zeros(n)) && Value(a + Zeros(n)) == Value(a) * Pow10(n)
  {
    ValueConcat(a, Zeros(n));
    ValueOfZeros(n);
  }

  /** The text of a number has no leading zero. */
  lemma {:induction false} ToStringPlain(n: nat)
    ensures ToString(n)[0] == '0' ==> ToString(n) == "0"
    ensures n > 0 ==> ToString(n)[0] != '0'
  {
    if n >= 10 {
      ToStringPlain(n / 10);
    }
  }
}
