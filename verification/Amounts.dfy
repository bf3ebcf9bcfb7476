/** Amounts as decimal text: parsing, printing, and what the node reads from the text. */
module Amounts {
  import opened Digits
  import opened FixedPoint
  import opened FixedPointScan
  import opened Wrappers
  import CommandLine

  const COIN: nat := 100000000
  const MAX_MONEY_SATS: nat := 2100000000000000

  datatype Reason = Required | NotANumber | TooManyDecimals | NotPositive | TooLarge

  /** The canonical decimal text of an amount, and its satoshis. */
  datatype Amount = Amount(value: string, sats: nat)

  // ----------------------------------------------------------- parsing, printing

  function PadStart(s: string, width: nat): string {
    if |s| >= width then s else Zeros(width - |s|) + s
  }

  function Trim(s: string): string {
    TrimEnd(TrimStart(s))
  }

  function TrimStart(s: string): string {
    if s != "" && CommandLine.IsSpace(s[0]) then TrimStart(s[1..]) else s
  }

  function TrimEnd(s: string): string {
    if s != "" && CommandLine.IsSpace(s[|s| - 1]) then TrimEnd(s[..|s| - 1]) else s
  }

  /** The index of the first point, or the length. */
  function PointAt(s: string): (k: nat)
    ensures k <= |s|
    ensures forall i :: 0 <= i < k ==> s[i] != '.'
    ensures k < |s| ==> s[k] == '.'
  {
    if s == "" || s[0] == '.' then 0 else 1 + PointAt(s[1..])
  }

  function WholePart(s: string): string {
    s[..PointAt(s)]
  }

  function FracPart(s: string): string {
    if PointAt(s) < |s| then s[PointAt(s) + 1..] else ""
  }

  /** Digits with at most one point among them. */
  predicate IsDecimal(s: string) {
    AllDigits(WholePart(s)) && AllDigits(FracPart(s))
  }

  function OrZero(s: string): string {
    if s == "" then "0" else s
  }

  function Sats(whole: string, frac: string): nat
    requires AllDigits(whole) && AllDigits(frac) && |frac| <= 8
  {
    Value(OrZero(whole)) * COIN + Value((frac + Zeros(8))[..8])
  }

  function Canonical(whole: string, frac: string): string {
    if frac != "" then OrZero(whole) + "." + frac else OrZero(whole)
  }

  function NormalizeAmount(input: string): Result<Amount, Reason> {
    var s := Trim(input);
    if s == "" then Err(Required)
    else if !IsDecimal(s) || s == "." then Err(NotANumber)
    else if |FracPart(s)| > 8 then Err(TooManyDecimals)
    else
      var sats := Sats(WholePart(s), FracPart(s));
      if sats == 0 then Err(NotPositive)
      else if sats > MAX_MONEY_SATS then Err(TooLarge)
      else Ok(Amount(Canonical(WholePart(s), FracPart(s)), sats))
  }

  /** Satoshis as whole coins, a point and eight decimals. */
  function Decimal(sats: nat): string {
    ToString(sats / COIN) + "." + PadStart(ToString(sats % COIN), 8)
  }

  function FmtSatsBtc(sats: int): string {
    if sats < 0 then "-" + Decimal(-sats) + " BTC" else Decimal(sats) + " BTC"
  }

  lemma PlainText(s: string)
    requires s != "" && IsDecimal(s)
    ensures Trim(s) == s
  {
    var k := PointAt(s);
    if k > 0 {
      assert IsDigit(WholePart(s)[0]) && WholePart(s)[0] == s[0];
    }
    var last := s[|s| - 1];
    if k == |s| {
      assert WholePart(s)[|s| - 1] == last;
    } else if k < |s| - 1 {
      assert FracPart(s)[|s| - k - 2] == last;
    }
  }

  lemma {:induction false} PointAtConcat(whole: string, rest: string)
    requires AllDigits(whole) && (rest == "" || rest[0] == '.')
    ensures PointAt(whole + rest) == |whole|
    decreases |whole|
  {
    if whole == "" {
      assert whole + rest == rest;
    } else {
      assert (whole + rest)[1..] == whole[1..] + rest;
      PointAtConcat(whole[1..], rest);
    }
  }

  lemma PartsOf(whole: string, frac: string)
    requires AllDigits(whole) && AllDigits(frac) && (whole != "" || frac != "")
    ensures WholePart(whole + "." + frac) == whole && FracPart(whole + "." + frac) == frac
    ensures WholePart(whole) == whole && FracPart(whole) == ""
  {
    var s := whole + "." + frac;
    assert s == whole + ("." + frac);
    PointAtConcat(whole, "." + frac);
    PointAtConcat(whole, "");
    assert whole + "" == whole;
  }

  lemma EightDigits(frac: string)
    requires |frac| == 8
    ensures (frac + Zeros(8))[..8] == frac
  {}

  /** The decimals of an amount: eight digits that are worth its satoshis below a coin. */
  function Decimals(sats: nat): string {
    PadStart(ToString(sats % COIN), 8)
  }

  lemma DecimalsWorth(sats: nat)
    ensures |Decimals(sats)| == 8 && AllDigits(Decimals(sats))
    ensures Value(Decimals(sats)) == sats % COIN
  {
    hide ToString, Value;
    Pow10OfEight();
    var rest := ToString(sats % COIN);
    ToStringLength(sats % COIN, 8);
    ValueZeros(8 - |rest|, rest);
    ValueToString(sats % COIN);
    assert Decimals(sats) == Zeros(8 - |rest|) + rest;
  }

  lemma Pow10OfEight()
    ensures Pow10(8) == COIN
  {
    assert Pow10(4) == 10000;
  }

  lemma DecimalParts(sats: nat)
    ensures WholePart(Decimal(sats)) == ToString(sats / COIN)
    ensures FracPart(Decimal(sats)) == Decimals(sats)
    ensures IsDecimal(Decimal(sats)) && Trim(Decimal(sats)) == Decimal(sats)
  {
    hide ToString, Trim, WholePart, FracPart, Decimals;
    DecimalsWorth(sats);
    assert Decimal(sats) == ToString(sats / COIN) + "." + Decimals(sats) by { DecimalUnfold(sats); }
    PartsOf(ToString(sats / COIN), Decimals(sats));
    PlainText(Decimal(sats));
  }

  lemma DecimalUnfold(sats: nat)
    ensures Decimal(sats) == ToString(sats / COIN) + "." + Decimals(sats)
  {
    hide ToString, PadStart;
  }

  /** Every amount of money survives printing and parsing. */
  lemma ParsePrinted(sats: nat)
    requires 1 <= sats <= MAX_MONEY_SATS
    ensures FmtSatsBtc(sats) == Decimal(sats) + " BTC" && FmtSatsBtc(-(sats as int)) == "-" + FmtSatsBtc(sats)
    ensures NormalizeAmount(Decimal(sats)) == Ok(Amount(Decimal(sats), sats))
  {
    hide ToString, Trim, WholePart, FracPart, Decimals, Value, IsDecimal, Decimal;
    DecimalParts(sats);
    DecimalsWorth(sats);
    DecimalUnfold(sats);
    ValueToString(sats / COIN);
    EightDigits(Decimals(sats));
    assert |Decimal(sats)| >= 9;
    assert sats / COIN * COIN + sats % COIN == sats;
  }

  lemma CanonicalParts(whole: string, frac: string)
    requires AllDigits(whole) && AllDigits(frac)
    ensures var c := Canonical(whole, frac);
            && WholePart(c) == OrZero(whole) && FracPart(c) == frac
            && c != "" && c != "." && IsDecimal(c) && Trim(c) == c
    ensures OrZero(OrZero(whole)) == OrZero(whole) && AllDigits(OrZero(whole))
  {
    hide Trim, WholePart, FracPart;
    var w, c := OrZero(whole), Canonical(whole, frac);
    PartsOf(w, frac);
    assert w != "" && IsDigit(w[0]) && c[0] == w[0];
    PlainText(c);
  }

  /** A normalized amount is its own normal form. */
  lemma NormalizeIdempotent(input: string)
    requires NormalizeAmount(input).Ok?
    ensures NormalizeAmount(NormalizeAmount(input).value.value) == NormalizeAmount(input)
  {
    hide Trim, WholePart, FracPart, Canonical, Value, OrZero;
    var s := Trim(input);
    var whole, frac := WholePart(s), FracPart(s);
    CanonicalParts(whole, frac);
    CanonicalAgain(whole, frac);
  }

  lemma CanonicalAgain(whole: string, frac: string)
    ensures Canonical(OrZero(whole), frac) == Canonical(whole, frac)
  {}

  // ------------------------------------------------------ what an amount is worth

  lemma PaddedDecimals(frac: string)
    requires |frac| <= 8
    ensures (frac + Zeros(8))[..8] == frac + Zeros(8 - |frac|)
  {
    assert forall i :: 0 <= i < 8 - |frac| ==> Zeros(8)[i] == Zeros(8 - |frac|)[i];
  }

  lemma OrZeroValue(whole: string)
    requires AllDigits(whole)
    ensures AllDigits(OrZero(whole)) && Value(OrZero(whole)) == Value(whole)
  {
    assert "0"[..0] == "";
  }

  /** The satoshis are the digits as one number, shifted by the decimals not written. */
  lemma SatsScaled(whole: string, frac: string)
    requires AllDigits(whole) && AllDigits(frac) && |frac| <= 8
    ensures AllDigits(whole + frac) && Sats(whole, frac) == Value(whole + frac) * Pow10(8 - |frac|)
  {
    hide Value, Pow10, OrZero;
    PaddedDecimals(frac);
    OrZeroValue(whole);
    ValueTrailing(frac, 8 - |frac|);
    ValueConcat(whole, frac);
    Pow10OfEight();
    Pow10Add(|frac|, 8 - |frac|);
    Distribute(Value(whole), Pow10(|frac|), Value(frac), Pow10(8 - |frac|));
  }

  lemma Distribute(w: nat, p: nat, f: nat, q: nat)
    ensures (w * p + f) * q == w * (p * q) + f * q
  {
  }

  /** An amount with d decimals is worth its digits times a coin, divided by ten to the d. */
  lemma SatsExact(whole: string, frac: string)
    requires AllDigits(whole) && AllDigits(frac) && |frac| <= 8
    ensures AllDigits(whole + frac) && Sats(whole, frac) * Pow10(|frac|) == Value(whole + frac) * COIN
  {
    hide Value, Pow10, Sats;
    SatsScaled(whole, frac);
    Pow10OfEight();
    ScaledDown(Value(whole + frac), 8 - |frac|, |frac|);
  }

  /** A zero behind the decimals changes nothing. */
  lemma ZeroAppended(whole: string, frac: string)
    requires AllDigits(whole) && AllDigits(frac) && |frac| < 8
    ensures Sats(whole, frac + "0") == Sats(whole, frac)
  {
    assert (frac + "0" + Zeros(8))[..8] == (frac + Zeros(8))[..8] by {
      PaddedDecimals(frac);
      PaddedDecimals(frac + "0");
      assert Zeros(8 - |frac|) == "0" + Zeros(7 - |frac|);
    }
  }

  /** Decimal text: digits, or digits with a point among or beside them. */
  lemma DecimalMeans(s: string)
    ensures IsDecimal(s) <==>
      (exists whole, frac :: AllDigits(whole) && AllDigits(frac) && (s == whole || s == whole + "." + frac))
  {
    var w, f := WholePart(s), FracPart(s);
    if IsDecimal(s) {
      assert s == w || s == w + "." + f;
    }
    if whole, frac :| AllDigits(whole) && AllDigits(frac) && (s == whole || s == whole + "." + frac) {
      assert s == whole + (if s == whole then "" else "." + frac);
      PointAtConcat(whole, if s == whole then "" else "." + frac);
    }
  }

  predicate Blank(s: string) { forall i :: 0 <= i < |s| ==> CommandLine.IsSpace(s[i]) }

  lemma {:induction false} TrimStartLaw(s: string)
    ensures exists a :: Blank(a) && s == a + TrimStart(s)
    ensures TrimStart(s) != "" ==> !CommandLine.IsSpace(TrimStart(s)[0])
  {
    hide CommandLine.IsSpace;
    if s != "" && CommandLine.IsSpace(s[0]) {
      TrimStartLaw(s[1..]);
      var a :| Blank(a) && s[1..] == a + TrimStart(s[1..]);
      assert s == ([s[0]] + a) + TrimStart(s) && Blank([s[0]] + a);
    } else {
      assert s == "" + TrimStart(s) && Blank("");
    }
  }

  lemma {:induction false} TrimEndLaw(s: string)
    ensures exists b :: Blank(b) && s == TrimEnd(s) + b
    ensures TrimEnd(s) != "" ==> !CommandLine.IsSpace(TrimEnd(s)[|TrimEnd(s)| - 1]) && TrimEnd(s)[0] == s[0]
  {
    hide CommandLine.IsSpace;
    if s != "" && CommandLine.IsSpace(s[|s| - 1]) {
      var init := s[..|s| - 1];
      assert TrimEnd(s) == TrimEnd(init) && s == init + [s[|s| - 1]];
      hide TrimEnd;
      TrimEndLaw(init);
      var b :| Blank(b) && init == TrimEnd(init) + b;
      assert s == TrimEnd(s) + (b + [s[|s| - 1]]) && Blank(b + [s[|s| - 1]]);
    } else {
      assert s == TrimEnd(s) + "" && Blank("");
    }
  }

  lemma {:induction false} BlankFront(a: string, x: string)
    requires Blank(a)
    ensures TrimStart(a + x) == TrimStart(x)
  {
    hide CommandLine.IsSpace;
    if a == "" {
      assert a + x == x;
    } else {
      assert (a + x)[1..] == a[1..] + x && (a + x)[0] == a[0];
      BlankFront(a[1..], x);
    }
  }

  lemma {:induction false} BlankBack(x: string, b: string)
    requires Blank(b)
    ensures TrimEnd(x + b) == TrimEnd(x)
  {
    hide CommandLine.IsSpace;
    if b == "" {
      assert x + b == x;
    } else {
      var m := |b| - 1;
      assert (x + b)[..|x + b| - 1] == x + b[..m] && (x + b)[|x + b| - 1] == b[m];
      BlankBack(x, b[..m]);
    }
  }

  /** No white space at either end. */
  predicate Bare(t: string) {
    t != "" ==> !CommandLine.IsSpace(t[0]) && !CommandLine.IsSpace(t[|t| - 1])
  }

  lemma TrimUnique(a: string, t: string, b: string)
    requires Blank(a) && Blank(b) && Bare(t)
    ensures Trim(a + t + b) == t
  {
    assert TrimEnd("") == "" && (t != "" ==> TrimStart(t + b) == t + b);
    hide CommandLine.IsSpace, TrimStart, TrimEnd;
    assert a + t + b == a + (t + b);
    BlankFront(a, t + b);
    if t == "" {
      assert t + b == b + "";
      BlankFront(b, "");
      NothingToTrim();
    } else {
      BlankBack(t, b);
      BareEnd(t);
    }
  }

  lemma NothingToTrim()
    ensures TrimStart("") == ""
  {
  }

  lemma BareEnd(t: string)
    requires Bare(t)
    ensures TrimEnd(t) == t
  {
  }

  ghost predicate Surrounded(s: string, t: string) {
    Bare(t) && exists a, b :: Blank(a) && Blank(b) && s == a + t + b
  }

  /** Trimming takes the blanks off both ends and nothing else. */
  lemma TrimLaw(s: string, t: string)
    ensures Trim(s) == t <==> Surrounded(s, t)
  {
    hide TrimStart, TrimEnd, CommandLine.IsSpace, Blank, Trim;
    if Trim(s) == t { TrimSurrounded(s); }
    if Surrounded(s, t) {
      var a, b :| Blank(a) && Blank(b) && s == a + t + b;
      TrimUnique(a, t, b);
    }
  }

  lemma TrimSurrounded(s: string)
    ensures Surrounded(s, Trim(s))
  {
    hide TrimStart, TrimEnd, CommandLine.IsSpace, Blank;
    TrimStartLaw(s);
    TrimEndLaw(TrimStart(s));
    var a :| Blank(a) && s == a + TrimStart(s);
    var b :| Blank(b) && TrimStart(s) == Trim(s) + b;
    assert s == a + Trim(s) + b;
  }

  lemma BlankTrims(s: string)
    ensures Trim(s) == "" <==> Blank(s)
  {
    hide CommandLine.IsSpace, Trim;
    TrimLaw(s, "");
    if Blank(s) { assert s == s + "" + "" && Blank(""); }
    if Surrounded(s, "") {
      var a, b :| Blank(a) && Blank(b) && s == a + "" + b;
      assert s == a + b;
    }
  }

  predicate AllZeros(s: string) { forall i :: 0 <= i < |s| ==> s[i] == '0' }

  lemma {:induction false} ZeroValue(s: string)
    requires AllDigits(s)
    ensures Value(s) == 0 <==> AllZeros(s)
  {
    if s != "" {
      ZeroValue(s[..|s| - 1]);
      assert AllZeros(s) <==> AllZeros(s[..|s| - 1]) && s[|s| - 1] == '0';
    }
  }

  /** What a decimal text without its blanks is turned down for, if anything. */
  ghost predicate Verdict(r: Result<Amount, Reason>, whole: string, frac: string)
    requires AllDigits(whole) && AllDigits(frac)
  {
    && (r == Err(TooManyDecimals) <==> |frac| > 8)
    && (r == Err(NotPositive) <==> |frac| <= 8 && AllZeros(whole + frac))
    && (r == Err(TooLarge) <==> |frac| <= 8 && Sats(whole, frac) > 21_000_000 * 100_000_000)
    && (r.Ok? ==>
         && 1 <= r.value.sats <= 21_000_000 * 100_000_000
         && AllDigits(whole + frac) && r.value.sats * Pow10(|frac|) == Value(whole + frac) * 100_000_000
         && r.value.value == (if whole == "" then "0" else whole) + (if frac == "" then "" else "." + frac))
    && (r.Ok? || r.error == TooManyDecimals || r.error == NotPositive || r.error == TooLarge)
  }

  /** Exactly which inputs are amounts, why the others are not, and what the amounts are worth. */
  lemma NormalizeExactly(input: string)
    ensures var s, r := Trim(input), NormalizeAmount(input);
      && (r == Err(Required) <==> s == "")
      && (r == Err(NotANumber) <==> s != "" && (!IsDecimal(s) || s == "."))
      && (s != "" && s != "." && IsDecimal(s) ==> Verdict(r, WholePart(s), FracPart(s)))
  {
    hide Trim, WholePart, FracPart, Sats, Value, Pow10;
    var s := Trim(input);
    if s != "" && s != "." && IsDecimal(s) && |FracPart(s)| <= 8 {
      SatsExact(WholePart(s), FracPart(s));
      SatsPositive(WholePart(s), FracPart(s));
    }
  }

  lemma SatsPositive(whole: string, frac: string)
    requires AllDigits(whole) && AllDigits(frac) && |frac| <= 8
    ensures Sats(whole, frac) == 0 <==> AllZeros(whole + frac)
  {
    hide Value, Pow10, Sats;
    SatsScaled(whole, frac);
    ZeroValue(whole + frac);
    if Value(whole + frac) > 0 { PositiveTimes(Value(whole + frac), Pow10(8 - |frac|)); }
  }

  lemma PositiveTimes(a: nat, b: nat)
    requires a > 0 && b > 0
    ensures a * b > 0
  {
  }

  // ----------------------------------------------------------- what the node reads

  /** The node's reading of an amount of money: None where it answers with an error. */
  function NodeAmount(text: string): Option<nat> {
    var sats := Parsed(text, 8);
    if sats.None? || sats.value < 0 || sats.value > MAX_MONEY_SATS then None else Some(sats.value)
  }

  /** The literal that a canonical text is, if its whole part is one the node takes. */
  function PlainLiteral(whole: string, frac: string): Literal { Literal(false, whole, frac, false, "") }

  lemma PlainScanned(whole: string, frac: string)
    requires AllDigits(whole) && AllDigits(frac) && PlainWhole(whole)
    ensures Scan(Canonical(whole, frac)) == Some(PlainLiteral(whole, frac))
  {
    var l := PlainLiteral(whole, frac);
    assert Written(l, 'e', false) == Canonical(whole, frac);
    hide Scan, Written;
    ScanWritten(l, 'e', false);
  }

  lemma PlainMantissa(whole: string, frac: string)
    requires AllDigits(whole) && AllDigits(frac)
    ensures var l := PlainLiteral(whole, frac);
      && AreDigits(l) && AllDigits(Mantissa(l)) && AllDigits(whole + frac)
      && Value(Mantissa(l)) == Value(whole + frac) && Value(l.exponent) == 0
  {
    if whole == "0" {
      ValueConcat("0", frac);
      assert "0"[..0] == "";
      assert Value("0") == 0;
      assert "" + frac == frac;
    }
  }

  lemma PowBeyond(scale: nat)
    requires scale >= 18
    ensures Pow10(scale) > MAX_MONEY_SATS
  {
    assert Pow10(6) == 1000000 && Pow10(12) == 1000000000000 && Pow10(18) == 1000000000000000000 by {
      assert Pow10(3) == 1000 && Pow10(9) == 1000000000 && Pow10(15) == 1000000000000000;
    }
    hide Pow10;
    Pow10Add(18, scale - 18);
    MulMonotone(1, Pow10(scale - 18), Pow10(18));
  }

  lemma FitsScale(m: nat, scale: nat, sats: nat)
    requires m * Pow10(scale) == sats && 1 <= sats <= MAX_MONEY_SATS
    ensures m <= UPPER_BOUND && scale < 18 && sats <= UPPER_BOUND
  {
    hide Pow10;
    TimesAtLeast(m, Pow10(scale));
    if scale >= 18 {
      PowBeyond(scale);
      if m > 0 { MulMonotone(1, m, Pow10(scale)); }
    }
  }

  lemma PlainScale(whole: string, frac: string)
    requires AllDigits(whole) && AllDigits(frac) && |frac| <= 8
    ensures var l := PlainLiteral(whole, frac);
      && AreDigits(l) && AllDigits(Mantissa(l)) && Value(l.exponent) == 0
      && Scale(l, 8) == TrailingZeros(Mantissa(l)) + (8 - |frac|)
      && Significant(Mantissa(l)) * Pow10(Scale(l, 8)) == Sats(whole, frac)
  {
    var l := PlainLiteral(whole, frac);
    PlainMantissa(whole, frac);
    SatsScaled(whole, frac);
    SignificantWorth(Mantissa(l));
    hide Value, Pow10, Sats, Significant, TrailingZeros, Mantissa, AllDigits;
    ScaledUp(Significant(Mantissa(l)), TrailingZeros(Mantissa(l)), 8 - |frac|);
  }

  /** The scale of an amount of money fits, and its digits scaled are its satoshis. */
  lemma PlainMeaning(whole: string, frac: string)
    requires AllDigits(whole) && AllDigits(frac) && |frac| <= 8
    requires 1 <= Sats(whole, frac) <= MAX_MONEY_SATS
    ensures AreDigits(PlainLiteral(whole, frac))
    ensures Meaning(PlainLiteral(whole, frac), 8) == Some(Sats(whole, frac))
  {
    var l := PlainLiteral(whole, frac);
    PlainScale(whole, frac);
    hide Value, Pow10, Sats, Significant, TrailingZeros, Mantissa, AllDigits, AreDigits, Scale;
    FitsScale(Significant(Mantissa(l)), Scale(l, 8), Sats(whole, frac));
  }

  /** The node reads the same number of satoshis, unless a zero stands before the whole part: then none. */
  lemma NodeReads(whole: string, frac: string)
    requires AllDigits(whole) && whole != "" && AllDigits(frac) && |frac| <= 8
    requires 1 <= Sats(whole, frac) <= MAX_MONEY_SATS
    ensures NodeAmount(Canonical(whole, frac)) == if PlainWhole(whole) then Some(Sats(whole, frac)) else None
  {
    if PlainWhole(whole) {
      hide Sats, Scan, Meaning, Canonical;
      PlainScanned(whole, frac);
      PlainMeaning(whole, frac);
    } else {
      var s := Canonical(whole, frac);
      assert s[0] == '0' && IsDigit(whole[1]) && s[1] == whole[1];
      assert WholeEnd(s, 0) == 1;
    }
  }

  /** The whole part has no zero before its digits. */
  predicate PlainAmount(input: string) {
    PlainWhole(OrZero(WholePart(Trim(input))))
  }

  /**
    An amount that the form accepts is read by the node as what the form took it for exactly if
    its whole part has no leading zero; otherwise the node refuses it.
   */
  lemma AmountReachesNode(input: string)
    requires NormalizeAmount(input).Ok?
    ensures var amount := NormalizeAmount(input).value;
      NodeAmount(amount.value) == if PlainAmount(input) then Some(amount.sats) else None
  {
    hide Trim, WholePart, FracPart, Value, Sats, NodeAmount, PlainWhole, OrZero, Canonical;
    var s := Trim(input);
    var w, f := WholePart(s), FracPart(s);
    CanonicalParts(w, f);
    CanonicalAgain(w, f);
    WholeNotEmpty(w);
    SatsOrZero(w, f);
    NodeReads(OrZero(w), f);
  }

  /** What is printed is read by the node as what it was printed from. */
  lemma PrintedReachesNode(sats: nat)
    requires 1 <= sats <= MAX_MONEY_SATS
    ensures NodeAmount(Decimal(sats)) == Some(sats)
  {
    ParsePrinted(sats);
    DecimalParts(sats);
    ToStringPlain(sats / COIN);
    hide Trim, WholePart, FracPart, NodeAmount, NormalizeAmount, Decimal;
    AmountReachesNode(Decimal(sats));
  }

  lemma WholeNotEmpty(whole: string)
    ensures OrZero(whole) != ""
  {
  }

  lemma SatsOrZero(whole: string, frac: string)
    requires AllDigits(whole) && AllDigits(frac) && |frac| <= 8
    ensures AllDigits(OrZero(whole)) && Sats(OrZero(whole), frac) == Sats(whole, frac)
  {
    hide Value;
  }

  /** The form takes "01" for one coin, and the node refuses it. */
  lemma LeadingZeroRefused()
    ensures NormalizeAmount("01") == Ok(Amount("01", 100000000)) && NodeAmount("01") == None
  {
    assert PointAt("01") == 2 && WholePart("01") == "01" && FracPart("01") == "" by {
      assert "01"[1..] == "1" && "1"[1..] == "";
    }
    assert Trim("01") == "01";
    assert Value("01") == 1 by { assert "01"[..1] == "0" && "0"[..0] == ""; }
    assert Value((""  + Zeros(8))[..8]) == 0 by {
      assert ("" + Zeros(8))[..8] == Zeros(8);
      ValueOfZeros(8);
    }
    hide Trim, WholePart, FracPart, Value, NodeAmount;
    AmountReachesNode("01");
  }
}
