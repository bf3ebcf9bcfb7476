/**
  The node's reader of decimal amounts: one scan that counts trailing zeros before it pays
  for them, and the grammar of what it scans.
 */
module FixedPointScan {
  import opened Digits
  import opened FixedPoint
  import opened Wrappers

  // -------------------------------------------------------------------- scanning

  /** The end of the run of digits from i. */
  function DigitsEnd(s: string, i: nat): (e: nat)
    requires i <= |s|
    ensures i <= e <= |s| && AllDigits(s[i..e]) && (e < |s| ==> !IsDigit(s[e]))
    decreases |s| - i
  {
    if i < |s| && IsDigit(s[i]) then
      var e := DigitsEnd(s, i + 1);
      assert s[i..e] == [s[i]] + s[i + 1..e];
      e
    else i
  }

  predicate CharAt(s: string, i: nat, c: char) { i < |s| && s[i] == c }

  predicate DigitAt(s: string, i: nat) { i < |s| && IsDigit(s[i]) }

  /** The end of the whole part at i: one zero, or a run of digits that begins with another. */
  function WholeEnd(s: string, i: nat): (e: nat)
    requires DigitAt(s, i)
    ensures i < e <= |s| && AllDigits(s[i..e])
  {
    if s[i] == '0' then i + 1 else DigitsEnd(s, i)
  }

  predicate MarkAt(s: string, i: nat) { CharAt(s, i, 'e') || CharAt(s, i, 'E') }

  /** Where the digits of the exponent marked at i begin. */
  function ExponentStart(s: string, i: nat): nat {
    if CharAt(s, i + 1, '+') || CharAt(s, i + 1, '-') then i + 2 else i + 1
  }

  /** The exponent at i, which ends the text: None if it is not one. */
  function ScanExponent(s: string, i: nat): Option<(bool, string)>
    requires i <= |s|
  {
    if !MarkAt(s, i) then if i == |s| then Some((false, "")) else None
    else
      var start := ExponentStart(s, i);
      if DigitAt(s, start) && DigitsEnd(s, start) == |s| then Some((CharAt(s, i + 1, '-'), s[start..])) else None
  }

  /** The end of the fraction at i, or of nothing. */
  function FracEnd(s: string, i: nat): (e: nat)
    requires i <= |s| && (CharAt(s, i, '.') ==> DigitAt(s, i + 1))
    ensures i <= e <= |s|
  {
    if CharAt(s, i, '.') then DigitsEnd(s, i + 1) else i
  }

  /** The parts of a text that is a literal from its first character to its last. */
  function Scan(s: string): Option<Literal> {
    var start := if CharAt(s, 0, '-') then 1 else 0;
    if !DigitAt(s, start) then None
    else
      var point := WholeEnd(s, start);
      if CharAt(s, point, '.') && !DigitAt(s, point + 1) then None
      else
        var end := FracEnd(s, point);
        var exponent := ScanExponent(s, end);
        if exponent.None? then None
        else
          Some(Literal(CharAt(s, 0, '-'), s[start..point], if CharAt(s, point, '.') then s[point + 1..end] else "",
            exponent.value.0, exponent.value.1))
  }

  lemma ExponentDigits(s: string, i: nat)
    requires i <= |s| && ScanExponent(s, i).Some?
    ensures AllDigits(ScanExponent(s, i).value.1)
  {
    if MarkAt(s, i) {
      var start := ExponentStart(s, i);
      assert s[start..DigitsEnd(s, start)] == s[start..];
      hide DigitsEnd, AllDigits;
    }
  }

  lemma FracDigits(s: string, i: nat)
    requires i <= |s| && (CharAt(s, i, '.') ==> DigitAt(s, i + 1))
    ensures CharAt(s, i, '.') ==> i + 1 < FracEnd(s, i) && AllDigits(s[i + 1..FracEnd(s, i)])
  {
  }

  lemma ScanDigits(s: string)
    ensures Scan(s).Some? ==> AreDigits(Scan(s).value)
  {
    hide WholeEnd, ScanExponent, FracEnd, AllDigits;
    NoDigits();
    if Scan(s).Some? {
      var start := if CharAt(s, 0, '-') then 1 else 0;
      var point := WholeEnd(s, start);
      FracDigits(s, point);
      ExponentDigits(s, FracEnd(s, point));
    }
  }

  lemma NoDigits()
    ensures AllDigits("")
  {
  }

  function Parsed(s: string, decimals: int): Option<int> {
    ScanDigits(s);
    if Scan(s).None? then None else Meaning(Scan(s).value, decimals)
  }

  // --------------------------------------------------------------------- grammar

  /** A whole part of several digits does not begin with a zero. */
  predicate PlainWhole(whole: string) {
    whole != "" && (whole[0] == '0' ==> whole == "0")
  }

  predicate WellFormed(l: Literal) {
    AreDigits(l) && PlainWhole(l.whole) && (l.exponentNegative ==> l.exponent != "")
  }

  predicate IsMark(c: char) { c == 'e' || c == 'E' }

  function FracText(l: Literal): string { if l.frac == "" then "" else "." + l.frac }

  /** A positive exponent may have a sign. */
  function ExponentText(l: Literal, mark: char, plus: bool): string {
    if l.exponent == "" then ""
    else [mark] + (if l.exponentNegative then "-" else if plus then "+" else "") + l.exponent
  }

  function Written(l: Literal, mark: char, plus: bool): string {
    (if l.negative then "-" else "") + (l.whole + (FracText(l) + ExponentText(l, mark, plus)))
  }

  lemma {:induction false} DigitsEndAt(s: string, i: nat, e: nat)
    requires i <= e <= |s| && AllDigits(s[i..e]) && (e < |s| ==> !IsDigit(s[e]))
    ensures DigitsEnd(s, i) == e
    decreases e - i
  {
    if i < e {
      assert IsDigit(s[i..e][0]) && s[i..e][0] == s[i];
      assert AllDigits(s[i + 1..e]) by { assert s[i + 1..e] == s[i..e][1..]; }
      DigitsEndAt(s, i + 1, e);
    }
  }

  /** Digits a with b behind them, in s from i on. */
  lemma RunEnds(s: string, i: nat, a: string, b: string)
    requires i <= |s| && s[i..] == a + b && AllDigits(a) && (b != "" ==> !IsDigit(b[0]))
    ensures i + |a| <= |s| && DigitsEnd(s, i) == i + |a| && s[i..i + |a|] == a && s[i + |a|..] == b
    ensures a != "" ==> DigitAt(s, i) && s[i] == a[0]
    ensures b != "" ==> CharAt(s, i + |a|, b[0])
    ensures b == "" ==> i + |a| == |s|
  {
    var rest := s[i..];
    assert rest[..|a|] == a && rest[|a|..] == b;
    assert s[i..i + |a|] == rest[..|a|] && s[i + |a|..] == rest[|a|..];
    if a != "" { assert rest[0] == a[0] == s[i] && IsDigit(a[0]); }
    if b != "" { assert rest[|a|] == b[0] == s[i + |a|]; }
    DigitsEndAt(s, i, i + |a|);
  }

  lemma WrittenExponent(s: string, i: nat, l: Literal, mark: char, plus: bool)
    requires i <= |s| && WellFormed(l) && IsMark(mark) && s[i..] == ExponentText(l, mark, plus)
    ensures ScanExponent(s, i) == Some((l.exponentNegative, l.exponent))
  {
    if l.exponent != "" {
      var sign := if l.exponentNegative then "-" else if plus then "+" else "";
      var rest := s[i..];
      assert rest == [mark] + sign + l.exponent;
      assert rest[0] == mark == s[i];
      var start := i + 1 + |sign|;
      assert s[start..] == rest[1 + |sign|..] == l.exponent + "";
      RunEnds(s, start, l.exponent, "");
      if sign != "" {
        assert rest[1] == sign[0] == s[i + 1];
      } else {
        assert s[i + 1] == l.exponent[0] && IsDigit(s[i + 1]);
      }
      assert ExponentStart(s, i) == start;
      assert s[start..] == l.exponent;
    }
  }

  lemma TailStarts(l: Literal, mark: char, plus: bool)
    requires IsMark(mark)
    ensures var tail := FracText(l) + ExponentText(l, mark, plus);
      tail != "" ==> !IsDigit(tail[0]) && (tail[0] == '.' <==> l.frac != "")
    ensures ExponentText(l, mark, plus) != "" ==> IsMark(ExponentText(l, mark, plus)[0])
  {
  }

  lemma FracEndIs(s: string, i: nat)
    requires i <= |s| && (CharAt(s, i, '.') ==> DigitAt(s, i + 1))
    ensures FracEnd(s, i) == if CharAt(s, i, '.') then DigitsEnd(s, i + 1) else i
  {
    hide DigitsEnd;
  }

  lemma FracTextIs(l: Literal)
    ensures FracText(l) == if l.frac == "" then "" else "." + l.frac
  {
  }

  lemma WellFormedParts(l: Literal)
    requires WellFormed(l)
    ensures AllDigits(l.whole) && AllDigits(l.frac) && AllDigits(l.exponent)
  {
  }

  lemma PointStands(s: string, i: nat, frac: string, last: string)
    requires i <= |s| && s[i..] == "." + frac + last && AllDigits(frac) && frac != ""
    ensures CharAt(s, i, '.') && DigitAt(s, i + 1) && i + 1 + |frac| <= |s|
    ensures s[i + 1..] == frac + last && s[i + 1 + |frac|..] == last && s[i + 1..i + 1 + |frac|] == frac
  {
    hide IsDigit;
    var rest := s[i..];
    assert rest == ['.'] + (frac + last);
    assert rest[0] == s[i] && s[i + 1..] == rest[1..];
    assert s[i + 1] == s[i + 1..][0] == frac[0];
    assert s[i + 1..i + 1 + |frac|] == s[i + 1..][..|frac|];
    assert s[i + 1 + |frac|..] == s[i + 1..][|frac|..];
  }

  lemma NoPointStands(s: string, i: nat, last: string)
    requires i <= |s| && s[i..] == "" + last && (last != "" ==> last[0] != '.')
    ensures !CharAt(s, i, '.') && s[i..] == last
  {
    assert "" + last == last;
    if i < |s| { assert s[i..][0] == s[i]; }
  }

  lemma MarkStarts(l: Literal, mark: char, plus: bool)
    requires WellFormed(l) && IsMark(mark)
    ensures var last := ExponentText(l, mark, plus); last != "" ==> !IsDigit(last[0]) && last[0] != '.'
  {
  }

  lemma WrittenTail(s: string, i: nat, l: Literal, mark: char, plus: bool)
    requires i <= |s| && WellFormed(l) && IsMark(mark) && s[i..] == FracText(l) + ExponentText(l, mark, plus)
    ensures CharAt(s, i, '.') <==> l.frac != ""
    ensures CharAt(s, i, '.') ==> DigitAt(s, i + 1)
    ensures ScanExponent(s, FracEnd(s, i)) == Some((l.exponentNegative, l.exponent))
    ensures l.frac != "" ==> s[i + 1..FracEnd(s, i)] == l.frac
  {
    hide *;
    var last := ExponentText(l, mark, plus);
    FracTextIs(l);
    WellFormedParts(l);
    MarkStarts(l, mark, plus);
    if l.frac != "" {
      PointStands(s, i, l.frac, last);
      RunEnds(s, i + 1, l.frac, last);
      WrittenExponent(s, i + 1 + |l.frac|, l, mark, plus);
    } else {
      NoPointStands(s, i, last);
      WrittenExponent(s, i, l, mark, plus);
    }
    FracEndIs(s, i);
  }

  lemma WrittenWhole(s: string, i: nat, l: Literal, tail: string)
    requires i <= |s| && WellFormed(l) && s[i..] == l.whole + tail && (tail != "" ==> !IsDigit(tail[0]))
    ensures DigitAt(s, i) && WholeEnd(s, i) == i + |l.whole| <= |s|
    ensures s[i..i + |l.whole|] == l.whole && s[i + |l.whole|..] == tail
  {
    RunEnds(s, i, l.whole, tail);
  }

  /** Scan, with the places between the parts given. */
  lemma ScanIs(s: string, start: nat, point: nat)
    requires start == (if CharAt(s, 0, '-') then 1 else 0) && DigitAt(s, start) && point == WholeEnd(s, start)
    requires CharAt(s, point, '.') ==> DigitAt(s, point + 1)
    ensures var end := FracEnd(s, point);
      ScanExponent(s, end).Some? ==> Scan(s) == Some(Literal(CharAt(s, 0, '-'), s[start..point],
        if CharAt(s, point, '.') then s[point + 1..end] else "",
        ScanExponent(s, end).value.0, ScanExponent(s, end).value.1))
  {
    hide WholeEnd, ScanExponent, FracEnd, DigitAt;
  }

  lemma SignIs(l: Literal, mark: char, plus: bool)
    requires WellFormed(l)
    ensures var s, start := Written(l, mark, plus), if l.negative then 1 else 0;
      && CharAt(s, 0, '-') == l.negative && start <= |s|
      && s[start..] == l.whole + (FracText(l) + ExponentText(l, mark, plus))
  {
    hide FracText, ExponentText;
  }

  /** Every well-formed text is scanned into its parts. */
  lemma ScanWritten(l: Literal, mark: char, plus: bool)
    requires WellFormed(l) && IsMark(mark)
    ensures Scan(Written(l, mark, plus)) == Some(l)
  {
    hide *;
    var s, tail := Written(l, mark, plus), FracText(l) + ExponentText(l, mark, plus);
    var start := if l.negative then 1 else 0;
    SignIs(l, mark, plus);
    TailStarts(l, mark, plus);
    WrittenWhole(s, start, l, tail);
    WrittenTail(s, start + |l.whole|, l, mark, plus);
    ScanIs(s, start, start + |l.whole|);
  }

  /** The text from the mark of an exponent on. */
  lemma MarkedText(s: string, i: nat)
    requires i <= |s| && MarkAt(s, i) && DigitAt(s, ExponentStart(s, i))
    ensures var start := ExponentStart(s, i);
      s[i..] == [s[i]] + (if CharAt(s, i + 1, '-') then "-" else if CharAt(s, i + 1, '+') then "+" else "") + s[start..]
  {
    var start := ExponentStart(s, i);
    assert s[i..] == [s[i]] + s[i + 1..];
    if start == i + 2 { assert s[i + 1..] == [s[i + 1]] + s[start..]; }
  }

  lemma ScannedExponent(s: string, i: nat)
    requires i <= |s| && ScanExponent(s, i).Some?
    ensures var (negative, digits) := ScanExponent(s, i).value;
      && AllDigits(digits) && (negative ==> digits != "")
      && exists mark, plus :: IsMark(mark)
           && s[i..] == ExponentText(Literal(false, "0", "", negative, digits), mark, plus)
  {
    ExponentDigits(s, i);
    hide AllDigits, DigitsEnd;
    var (negative, digits) := ScanExponent(s, i).value;
    var l := Literal(false, "0", "", negative, digits);
    if MarkAt(s, i) {
      MarkedText(s, i);
      assert digits == s[ExponentStart(s, i)..] && digits != "";
      assert IsMark(s[i]) && s[i..] == ExponentText(l, s[i], CharAt(s, i + 1, '+'));
    } else {
      assert IsMark('e') && s[i..] == ExponentText(l, 'e', false);
    }
  }

  lemma ScannedWhole(s: string, i: nat)
    requires DigitAt(s, i)
    ensures PlainWhole(s[i..WholeEnd(s, i)])
  {
    var w := s[i..WholeEnd(s, i)];
    assert w[0] == s[i];
  }

  lemma ScannedFrac(s: string, point: nat, l: Literal)
    requires point <= |s| && (CharAt(s, point, '.') ==> DigitAt(s, point + 1))
    requires l.frac == if CharAt(s, point, '.') then s[point + 1..FracEnd(s, point)] else ""
    ensures s[point..] == FracText(l) + s[FracEnd(s, point)..]
  {
    var end := FracEnd(s, point);
    if CharAt(s, point, '.') {
      assert s[point..] == ['.'] + s[point + 1..end] + s[end..];
      assert point + 1 < end;
    }
    hide DigitsEnd;
  }

  lemma ExponentTextIs(l: Literal, mark: char, plus: bool)
    ensures ExponentText(Literal(false, "0", "", l.exponentNegative, l.exponent), mark, plus)
         == ExponentText(l, mark, plus)
  {
  }

  /** What a scan that succeeds has found. */
  lemma Scanned(s: string) returns (start: nat, point: nat)
    requires Scan(s).Some?
    ensures start == (if CharAt(s, 0, '-') then 1 else 0) && DigitAt(s, start) && point == WholeEnd(s, start)
    ensures CharAt(s, point, '.') ==> DigitAt(s, point + 1)
    ensures var l, end := Scan(s).value, FracEnd(s, point);
      && ScanExponent(s, end) == Some((l.exponentNegative, l.exponent))
      && l.negative == CharAt(s, 0, '-') && l.whole == s[start..point]
      && l.frac == if CharAt(s, point, '.') then s[point + 1..end] else ""
  {
    hide WholeEnd, ScanExponent, FracEnd, IsDigit;
    start := if CharAt(s, 0, '-') then 1 else 0;
    point := WholeEnd(s, start);
  }

  lemma WellFormedIs(l: Literal)
    requires AreDigits(l) && PlainWhole(l.whole) && (l.exponentNegative ==> l.exponent != "")
    ensures WellFormed(l)
  {
  }

  /** A text cut at three places, with each piece known. */
  lemma Reassembled(s: string, l: Literal, mark: char, plus: bool, start: nat, point: nat, end: nat)
    requires start == (if l.negative then 1 else 0) && (l.negative ==> s != "" && s[0] == '-')
    requires start <= point <= end <= |s| && l.whole == s[start..point]
    requires s[point..] == FracText(l) + s[end..] && s[end..] == ExponentText(l, mark, plus)
    ensures s == Written(l, mark, plus)
  {
    hide FracText, ExponentText;
    assert s[start..] == l.whole + s[point..];
    if l.negative { assert s == "-" + s[1..]; }
  }

  lemma SignAt(s: string)
    ensures CharAt(s, 0, '-') ==> s != "" && s[0] == '-'
  {
  }

  /** Nothing but a well-formed text is scanned. */
  lemma ScanOnly(s: string)
    requires Scan(s).Some?
    ensures WellFormed(Scan(s).value)
    ensures exists mark, plus :: IsMark(mark) && s == Written(Scan(s).value, mark, plus)
  {
    hide *;
    var l := Scan(s).value;
    var start, point := Scanned(s);
    var end := FracEnd(s, point);
    SignAt(s);
    ScanDigits(s);
    ScannedWhole(s, start);
    ScannedExponent(s, end);
    ScannedFrac(s, point, l);
    WellFormedIs(l);
    var mark, plus :| IsMark(mark) && s[end..] == ExponentText(Literal(false, "0", "", l.exponentNegative, l.exponent),
        mark, plus);
    ExponentTextIs(l, mark, plus);
    Reassembled(s, l, mark, plus, start, point, end);
  }

  // ------------------------------------------------------------- the node's loops

  /** The digits read so far, as the scan keeps them. */
  ghost predicate Counted(d: string, mantissa: nat, tzeros: nat) {
    AllDigits(d) && mantissa == Significant(d) <= UPPER_BOUND && tzeros == TrailingZeros(d)
  }

  /** One more digit: a zero is counted, any other first pays for the zeros counted before it. */
  method ProcessMantissaDigit(ch: char, mantissa: nat, tzeros: nat, ghost d: string)
      returns (ok: bool, mantissa': nat, tzeros': nat)
    requires IsDigit(ch) && Counted(d, mantissa, tzeros)
    ensures AllDigits(d + [ch]) && (ok <==> Significant(d + [ch]) <= UPPER_BOUND)
    ensures ok ==> Counted(d + [ch], mantissa', tzeros')
  {
    SignificantSnoc(d, ch);
    hide Significant, TrailingZeros, Pow10;
    if ch == '0' {
      return true, mantissa, tzeros + 1;
    }
    var m, i := mantissa, 0;
    PowZero();
    while i < tzeros + 1
      invariant 0 <= i <= tzeros + 1 && m == mantissa * Pow10(i) <= UPPER_BOUND
      invariant i > 0 ==> m <= UPPER_BOUND - 9
    {
      PowStep(mantissa, i);
      if m > UPPER_BOUND / 10 {
        PowGrows(mantissa, i + 1, tzeros + 1);
        return false, 0, 0;
      }
      m := m * 10;
      i := i + 1;
    }
    return true, m + DigitValue(ch), 0;
  }

  /** The loop over a run of digits: d has been read before it. */
  method EatDigits(text: string, i: nat, mantissa: nat, tzeros: nat, ghost d: string)
      returns (ok: bool, ptr: nat, mantissa': nat, tzeros': nat)
    requires i <= |text| && Counted(d, mantissa, tzeros)
    ensures AllDigits(d + text[i..DigitsEnd(text, i)])
    ensures ok <==> Significant(d + text[i..DigitsEnd(text, i)]) <= UPPER_BOUND
    ensures ok ==> ptr == DigitsEnd(text, i) && Counted(d + text[i..ptr], mantissa', tzeros')
  {
    hide Significant, TrailingZeros, DigitsEnd, AllDigits;
    ghost var end := DigitsEnd(text, i);
    RunIsDigits(text, i, d);
    ptr, mantissa', tzeros' := i, mantissa, tzeros;
    assert d + text[i..i] == d;
    while DigitAt(text, ptr)
      invariant i <= ptr <= end && DigitsEnd(text, ptr) == end
      invariant Counted(d + text[i..ptr], mantissa', tzeros')
      decreases |text| - ptr
    {
      DigitsStep(text, ptr);
      ghost var eaten := d + text[i..ptr];
      assert d + text[i..ptr + 1] == eaten + [text[ptr]];
      ok, mantissa', tzeros' := ProcessMantissaDigit(text[ptr], mantissa', tzeros', eaten);
      if !ok {
        RestIsDigits(text, ptr + 1);
        SignificantGrows(eaten + [text[ptr]], text[ptr + 1..end]);
        assert d + text[i..end] == eaten + [text[ptr]] + text[ptr + 1..end];
        return false, 0, 0, 0;
      }
      ptr := ptr + 1;
    }
    DigitsStop(text, ptr);
    ok := true;
  }

  lemma RunIsDigits(text: string, i: nat, d: string)
    requires i <= |text| && AllDigits(d)
    ensures AllDigits(d + text[i..DigitsEnd(text, i)])
  {
    hide DigitsEnd;
  }

  lemma RestIsDigits(text: string, i: nat)
    requires i <= |text|
    ensures AllDigits(text[i..DigitsEnd(text, i)])
  {
    hide DigitsEnd;
  }

  lemma DigitsStep(text: string, i: nat)
    requires DigitAt(text, i)
    ensures DigitsEnd(text, i) == DigitsEnd(text, i + 1) && i < DigitsEnd(text, i)
  {
  }

  lemma DigitsStop(text: string, i: nat)
    requires i <= |text| && !DigitAt(text, i)
    ensures DigitsEnd(text, i) == i
  {
  }

  /** The loop over the digits of the exponent. */
  method EatExponent(text: string, i: nat) returns (ok: bool, ptr: nat, exponent: nat)
    requires i <= |text|
    ensures ok <==> Value(text[i..DigitsEnd(text, i)]) <= UPPER_BOUND
    ensures ok ==> ptr == DigitsEnd(text, i) && exponent == Value(text[i..ptr])
  {
    hide Value, DigitsEnd, AllDigits;
    ghost var end := DigitsEnd(text, i);
    ptr, exponent := i, 0;
    NoValue();
    assert text[i..i] == "";
    while DigitAt(text, ptr)
      invariant i <= ptr <= end && DigitsEnd(text, ptr) == end
      invariant AllDigits(text[i..ptr]) && exponent == Value(text[i..ptr]) <= UPPER_BOUND
      decreases |text| - ptr
    {
      DigitsStep(text, ptr);
      ValueSnoc(text[i..ptr], text[ptr]);
      assert text[i..ptr + 1] == text[i..ptr] + [text[ptr]];
      if exponent > UPPER_BOUND / 10 {
        RestIsDigits(text, ptr + 1);
        ValueGrows(text[i..ptr + 1], text[ptr + 1..end]);
        assert text[i..end] == text[i..ptr + 1] + text[ptr + 1..end];
        return false, 0, 0;
      }
      exponent := exponent * 10 + DigitValue(text[ptr]);
      ptr := ptr + 1;
    }
    DigitsStop(text, ptr);
    ok := true;
  }

  lemma NoValue()
    ensures AllDigits("") && Value("") == 0
  {
  }

  lemma ValueGrows(d: string, more: string)
    requires AllDigits(d) && AllDigits(more)
    ensures AllDigits(d + more) && Value(d) <= Value(d + more)
  {
    hide Value, Pow10, AllDigits;
    ValueConcat(d, more);
    TimesAtLeast(Value(d), Pow10(|more|));
  }

  /** The loop that multiplies by the power of ten. */
  method ScaleUp(mantissa: nat, exponent: nat) returns (ok: bool, m: nat)
    requires mantissa <= UPPER_BOUND
    ensures ok <==> mantissa * Pow10(exponent) <= UPPER_BOUND
    ensures ok ==> m == mantissa * Pow10(exponent)
  {
    hide Pow10;
    PowZero();
    m := mantissa;
    for i := 0 to exponent
      invariant m == mantissa * Pow10(i) <= UPPER_BOUND
    {
      PowStep(mantissa, i);
      if m > UPPER_BOUND / 10 {
        PowGrows(mantissa, i + 1, exponent);
        return false, 0;
      }
      m := m * 10;
    }
    ok := true;
  }

  /** The tail of the text from i: an exponent, or the end. Not one: ok is false. */
  method ParseExponent(text: string, i: nat) returns (ok: bool, negative: bool, exponent: nat)
    requires i <= |text|
    ensures ScanExponent(text, i).Some? ==> AllDigits(ScanExponent(text, i).value.1)
    ensures ok <==> (ScanExponent(text, i).Some? && Value(ScanExponent(text, i).value.1) <= UPPER_BOUND)
    ensures ok ==>
      negative == ScanExponent(text, i).value.0 && exponent == Value(ScanExponent(text, i).value.1)
  {
    hide Value, DigitsEnd, AllDigits;
    NoValue();
    if !MarkAt(text, i) { return i == |text|, false, 0; }
    var ptr := i + 1;
    negative := false;
    if CharAt(text, ptr, '+') {
      ptr := ptr + 1;
    } else if CharAt(text, ptr, '-') {
      negative := true;
      ptr := ptr + 1;
    }
    if !DigitAt(text, ptr) { return false, false, 0; }
    ghost var start := ptr;
    RestIsDigits(text, start);
    ok, ptr, exponent := EatExponent(text, ptr);
    assert DigitsEnd(text, start) == |text| ==> text[start..DigitsEnd(text, start)] == text[start..];
    if !ok { return; }
    if ptr != |text| { ok := false; }
  }

  /** The mantissa of a scanned text begins with its whole part, unless that is a zero. */
  lemma WholeTooLong(text: string, decimals: int, start: nat)
    requires start == (if CharAt(text, 0, '-') then 1 else 0) && DigitAt(text, start) && text[start] != '0'
    requires AllDigits(text[start..DigitsEnd(text, start)])
    requires Significant(text[start..DigitsEnd(text, start)]) > UPPER_BOUND
    ensures Parsed(text, decimals) == None
  {
    hide Significant, Scan, DigitsEnd, ScanExponent, FracEnd, AllDigits;
    ScanDigits(text);
    if Scan(text).Some? {
      var start', point := Scanned(text);
      var l := Scan(text).value;
      assert l.whole[0] == text[start];
      DigitsParts(l);
      SignificantGrows(l.whole, l.frac);
    }
  }

  lemma DigitsParts(l: Literal)
    requires AreDigits(l)
    ensures AllDigits(l.whole) && AllDigits(l.frac) && AllDigits(l.exponent) && AllDigits(Mantissa(l))
  {
  }

  /** The end of the scan: the digits and the exponent are known. */
  lemma ParsedFrom(text: string, decimals: int, start: nat, point: nat)
    requires start == (if CharAt(text, 0, '-') then 1 else 0) && DigitAt(text, start)
    requires point == WholeEnd(text, start) && (CharAt(text, point, '.') ==> DigitAt(text, point + 1))
    ensures Scan(text).Some? <==> ScanExponent(text, FracEnd(text, point)).Some?
    ensures Scan(text).Some? ==> var l, end := Scan(text).value, FracEnd(text, point);
      && AreDigits(l) && l.negative == CharAt(text, 0, '-')
      && Mantissa(l) == (if text[start] == '0' then "" else text[start..point])
           + (if CharAt(text, point, '.') then text[point + 1..end] else "")
      && |l.frac| == (if CharAt(text, point, '.') then end - (point + 1) else 0)
      && (l.exponentNegative, l.exponent) == ScanExponent(text, end).value
  {
    hide ScanExponent, DigitsEnd, AreDigits, IsDigit, FracEnd;
    ScanDigits(text);
    FracEndIs(text, point);
    if Scan(text).Some? {
      var l := Scan(text).value;
      assert l.whole == text[start..point] && l.whole[0] == text[start];
    }
  }

  /** The meaning from the numbers the scan has kept. */
  lemma MeaningFrom(l: Literal, decimals: int, mantissa: nat, tzeros: nat, exponent: nat)
    requires AreDigits(l) && Counted(Mantissa(l), mantissa, tzeros) && exponent == Value(l.exponent) <= UPPER_BOUND
    ensures mantissa <= UPPER_BOUND
    ensures var scale := Signed(l.exponentNegative, exponent) - |l.frac| + tzeros + decimals;
      Meaning(l, decimals) ==
        if 0 <= scale < 18 && mantissa * Pow10(scale) <= UPPER_BOUND
        then Some(Signed(l.negative, mantissa * Pow10(scale))) else None
  {
    hide Significant, TrailingZeros, Value, Pow10, AreDigits, Mantissa;
    MantissaDigits(l);
  }

  lemma TooLong(l: Literal, decimals: int)
    requires AreDigits(l) && AllDigits(Mantissa(l))
    requires Significant(Mantissa(l)) > UPPER_BOUND || Value(l.exponent) > UPPER_BOUND
    ensures Meaning(l, decimals) == None
  {
    hide Significant, TrailingZeros, Value, Pow10, AreDigits, Mantissa, AllDigits;
  }

  lemma NothingCounted()
    ensures Counted("", 0, 0)
  {
  }

  /** The exponent, the end of the text and the scale, once the digits d have been read. */
  method ScaleTail(text: string, decimals: int, ptr: nat, negative: bool, mantissa: nat, tzeros: nat, pointOfs: nat,
      ghost d: string)
      returns (r: Option<int>)
    requires ptr <= |text| && Counted(d, mantissa, tzeros)
    requires Scan(text).Some? <==> ScanExponent(text, ptr).Some?
    requires Scan(text).Some? ==> var l := Scan(text).value;
      && AreDigits(l) && Mantissa(l) == d && l.negative == negative && |l.frac| == pointOfs
      && (l.exponentNegative, l.exponent) == ScanExponent(text, ptr).value
    ensures r == Parsed(text, decimals)
  {
    hide Value, AllDigits, ScanExponent, Significant, TrailingZeros, Pow10, Scan, IsDigit, Counted, Meaning;
    var ok, exponentNegative, exponent := ParseExponent(text, ptr);
    if !ok {
      if Scan(text).Some? { CountedDigits(d, mantissa, tzeros); TooLong(Scan(text).value, decimals); }
      return None;
    }
    MeaningFrom(Scan(text).value, decimals, mantissa, tzeros, exponent);
    var scale := Signed(exponentNegative, exponent) - pointOfs + tzeros + decimals;
    if scale < 0 || scale >= 18 { return None; }
    var m;
    ok, m := ScaleUp(mantissa, scale);
    if !ok { return None; }
    return Some(Signed(negative, m));
  }

  /** The whole part: a single zero, which is not counted, or a run of digits. */
  method EatWhole(text: string, start: nat)
      returns (ok: bool, ptr: nat, mantissa: nat, tzeros: nat, ghost d: string)
    requires DigitAt(text, start)
    ensures !ok ==> text[start] != '0' && Significant(text[start..DigitsEnd(text, start)]) > UPPER_BOUND
    ensures AllDigits(text[start..DigitsEnd(text, start)])
    ensures ok ==> ptr == WholeEnd(text, start) && Counted(d, mantissa, tzeros)
    ensures ok ==> d == if text[start] == '0' then "" else text[start..ptr]
  {
    hide DigitsEnd, AllDigits, Significant, TrailingZeros, IsDigit, Counted;
    NothingCounted();
    RestIsDigits(text, start);
    if text[start] == '0' { return true, start + 1, 0, 0, ""; }
    d := text[start..DigitsEnd(text, start)];
    assert "" + d == d;
    ok, ptr, mantissa, tzeros := EatDigits(text, start, 0, 0, "");
  }

  /** The fraction from a point on, if there is one: d has been read before it. */
  method EatFraction(text: string, point: nat, mantissa: nat, tzeros: nat, ghost d: string)
      returns (ok: bool, ptr: nat, mantissa': nat, tzeros': nat, pointOfs: nat, ghost d': string)
    requires point <= |text| && (CharAt(text, point, '.') ==> DigitAt(text, point + 1)) && Counted(d, mantissa, tzeros)
    ensures d' == d + (if CharAt(text, point, '.') then text[point + 1..FracEnd(text, point)] else "")
    ensures AllDigits(d') && (ok <==> Significant(d') <= UPPER_BOUND)
    ensures ok ==> ptr == FracEnd(text, point) && Counted(d', mantissa', tzeros')
    ensures ok ==> pointOfs == if CharAt(text, point, '.') then ptr - (point + 1) else 0
  {
    CountedDigits(d, mantissa, tzeros);
    hide DigitsEnd, AllDigits, Significant, TrailingZeros, IsDigit;
    d' := d;
    ok, ptr, mantissa', tzeros', pointOfs := true, point, mantissa, tzeros, 0;
    if CharAt(text, point, '.') {
      d' := d + text[point + 1..DigitsEnd(text, point + 1)];
      ok, ptr, mantissa', tzeros' := EatDigits(text, point + 1, mantissa, tzeros, d);
      if ok { pointOfs := ptr - (point + 1); }
    } else {
      assert d + "" == d;
    }
  }

  /**
    The node's scan of an amount: sign, whole part, fraction, exponent and end of text in this
    order, then the scale.
   */
  method ParseFixedPoint(text: string, decimals: int) returns (r: Option<int>)
    ensures r == Parsed(text, decimals)
  {
    hide Value, DigitsEnd, WholeEnd, FracEnd, AllDigits, ScanExponent, Significant, TrailingZeros, Pow10, Scan,
        IsDigit, Counted, Meaning, AreDigits, Mantissa;
    ScanDigits(text);
    var negative := CharAt(text, 0, '-');
    var start := if negative then 1 else 0;
    if !DigitAt(text, start) {
      NoWhole(text);
      return None;
    }
    var ok, point, mantissa, tzeros, d := EatWhole(text, start);
    if !ok {
      WholeTooLong(text, decimals, start);
      return None;
    }
    if CharAt(text, point, '.') && !DigitAt(text, point + 1) {
      NoFraction(text, start);
      return None;
    }
    var ptr, pointOfs;
    ok, ptr, mantissa, tzeros, pointOfs, d := EatFraction(text, point, mantissa, tzeros, d);
    ParsedFrom(text, decimals, start, point);
    if !ok {
      if Scan(text).Some? { TooLong(Scan(text).value, decimals); }
      return None;
    }
    r := ScaleTail(text, decimals, ptr, negative, mantissa, tzeros, pointOfs, d);
  }

  lemma CountedDigits(d: string, mantissa: nat, tzeros: nat)
    requires Counted(d, mantissa, tzeros)
    ensures AllDigits(d)
  {
  }

  lemma NoWhole(text: string)
    requires !DigitAt(text, if CharAt(text, 0, '-') then 1 else 0)
    ensures Scan(text) == None
  {
  }

  lemma NoFraction(text: string, start: nat)
    requires start == (if CharAt(text, 0, '-') then 1 else 0) && DigitAt(text, start)
    requires CharAt(text, WholeEnd(text, start), '.') && !DigitAt(text, WholeEnd(text, start) + 1)
    ensures Scan(text) == None
  {
  }
}
