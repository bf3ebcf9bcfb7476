/**
  The parameters of a command: which literals are numbers, what each token converts to, and
  commands that come back from the line they were written on.
 */
module CommandParams {
  import opened CommandLine
  import opened CommandNesting
  import opened CommandWriting
  import opened Digits
  import opened Wrappers

  /** A character of a word that neither separates, quotes nor nests. */
  predicate PlainChar(c: char) {
    !IsSpace(c) && c != '"' && c != '\'' && !IsOpen(c) && !IsClose(c)
  }

  predicate AllPlain(s: string) { forall i :: 0 <= i < |s| ==> PlainChar(s[i]) }

  lemma {:induction false} PlainWord(s: string)
    requires AllPlain(s)
    ensures Balanced(s) && Kept(OUTSIDE, s) == s
    decreases |s|
  {
    if s != "" {
      PlainWord(s[1..]);
      assert PlainChar(s[0]) && Nest(OUTSIDE, s[0]) == OUTSIDE;
      hide IsSpace;
      assert s == [s[0]] + s[1..];
    }
  }

  lemma {:induction false} DigitsPlain(s: string)
    requires AllPlain(DropDigits(s))
    ensures AllPlain(s)
    decreases |s|
  {
    if s != "" && IsDigit(s[0]) {
      DigitsPlain(s[1..]);
      assert forall i :: 1 <= i < |s| ==> s[i] == s[1..][i - 1];
    }
  }

  lemma PlainCons(s: string)
    requires s != "" && PlainChar(s[0]) && AllPlain(s[1..])
    ensures AllPlain(s)
  {
    hide PlainChar;
    assert forall i :: 1 <= i < |s| ==> s[i] == s[1..][i - 1];
  }

  lemma ExponentPlain(s: string)
    requires IsExponent(s)
    ensures AllPlain(s)
  {
    if s != "" {
      hide IsSpace, DropDigits;
      var t := if |s| > 1 && (s[1] == '+' || s[1] == '-') then s[2..] else s[1..];
      DigitsPlain(t);
      MarksPlain();
      if |s| > 1 && (s[1] == '+' || s[1] == '-') {
        assert s[1..][1..] == t;
        PlainCons(s[1..]);
      }
      PlainCons(s);
    }
  }

  lemma MarksPlain()
    ensures PlainChar('e') && PlainChar('E') && PlainChar('+') && PlainChar('-') && PlainChar('.')
    ensures forall c :: IsDigit(c) ==> PlainChar(c)
  {
  }

  lemma FractionPlain(s: string)
    requires IsFraction(s)
    ensures AllPlain(s)
  {
    hide IsExponent, PlainChar, DropDigits;
    MarksPlain();
    if |s| > 1 && s[0] == '.' && IsDigit(s[1]) {
      ExponentPlain(DropDigits(s[1..]));
      DigitsPlain(s[1..]);
      PlainCons(s);
    } else {
      ExponentPlain(s);
    }
  }

  lemma NumberPlain(s: string)
    requires IsNumber(s)
    ensures AllPlain(s) && s != "" && (s[0] == '-' || IsDigit(s[0]))
  {
    hide IsFraction, PlainChar, DropDigits;
    MarksPlain();
    var t := if s[0] == '-' then s[1..] else s;
    if t[0] == '0' {
      FractionPlain(t[1..]);
      PlainCons(t);
    } else {
      FractionPlain(DropDigits(t));
      DigitsPlain(t);
    }
    if s[0] == '-' { PlainCons(s); }
  }

  lemma MethodPlain(s: string)
    requires IsMethod(s)
    ensures IsWord(s)
  {
    assert forall i :: 0 <= i < |s| ==> PlainChar(s[i]);
    PlainWord(s);
  }

  /** How a parameter is written; spell gives the text of a JSON value. */
  function Spelled<J>(p: Param<J>, spell: J -> string): Token {
    match p
    case Text(text) => Token(text, true)
    case Bool(b) => Token(if b then "true" else "false", false)
    case Null => Token("null", false)
    case Number(literal) => Token(literal, false)
    case Json(value) => Token(spell(value), false)
  }

  /** A number is spelled by a JSON literal; a JSON value by a bracketed text that parses to it. */
  predicate Spellable<J(==)>(p: Param<J>, spell: J -> string, json: string -> Option<J>) {
    match p
    case Number(literal) => IsNumber(literal)
    case Json(value) =>
      var text := spell(value);
      text != "" && IsOpen(text[0]) && IsWord(text) && json(text) == Some(value)
    case _ => true
  }

  lemma WordsPlain()
    ensures IsWord("true") && IsWord("false") && IsWord("null")
  {
    hide IsWord;
    assert IsMethod("true") && IsMethod("false") && IsMethod("null");
    MethodPlain("true");
    MethodPlain("false");
    MethodPlain("null");
  }

  lemma OpenIsNoNumber(s: string)
    requires s != "" && IsOpen(s[0])
    ensures !IsNumber(s) && s != "true" && s != "false" && s != "null"
  {
  }

  /** A spelled parameter can be written, and its token converts to it. */
  lemma ConvertSpelled<J>(p: Param<J>, spell: J -> string, json: string -> Option<J>)
    requires Spellable(p, spell, json)
    ensures Spelled(p, spell).quoted || IsWord(Spelled(p, spell).text)
    ensures Convert(Spelled(p, spell), json) == Ok(p)
  {
    hide Balanced, Kept, IsNumber, IsSpace;
    WordsPlain();
    match p
    case Number(literal) =>
      NumberPlain(literal);
      PlainWord(literal);
    case Json(value) =>
      OpenIsNoNumber(spell(value));
    case _ =>
  }

  /** What each kind of token converts to, and what cannot be converted. */
  lemma ConvertExactly<J>(t: Token, json: string -> Option<J>)
    ensures var r, literal := Convert(t, json), t.text == "true" || t.text == "false" || t.text == "null";
      var bracketed := t.text != "" && (t.text[0] == '[' || t.text[0] == '{');
      && (r == Ok(Bool(true)) <==> !t.quoted && t.text == "true")
      && (r == Ok(Bool(false)) <==> !t.quoted && t.text == "false")
      && (r == Ok(Null) <==> !t.quoted && t.text == "null")
      && (r == Ok(Number(t.text)) <==> !t.quoted && IsNumber(t.text))
      && (r == Err(InvalidJson(t.text)) <==> !t.quoted && bracketed && json(t.text).None?)
      && (r.Ok? && r.value.Json? <==> !t.quoted && bracketed && json(t.text).Some?)
      && (r.Ok? && r.value.Json? ==> Some(r.value.value) == json(t.text))
      && (r == Ok(Text(t.text)) <==> t.quoted || (!literal && !bracketed && !IsNumber(t.text)))
  {
    if t.text != "" && IsOpen(t.text[0]) { OpenIsNoNumber(t.text); }
    WordIsNoNumber();
    hide IsNumber;
  }

  lemma WordIsNoNumber()
    ensures !IsNumber("true") && !IsNumber("false") && !IsNumber("null")
  {
  }

  // A number literal, part by part.

  predicate NumberSign(x: string) { x == "" || x == "-" }

  predicate NumberWhole(x: string) { x == "0" || (x != "" && AllDigits(x) && x[0] != '0') }

  predicate NumberFrac(x: string) { x == "" || (|x| > 1 && x[0] == '.' && AllDigits(x[1..])) }

  predicate NumberExponent(x: string) {
    x == "" || ((x[0] == 'e' || x[0] == 'E')
      && exists k :: 1 <= k <= 2 && k < |x| && (k == 2 ==> x[1] == '+' || x[1] == '-') && AllDigits(x[k..]))
  }

  lemma {:induction false} DropDigitsIs(digits: string, rest: string)
    requires AllDigits(digits) && (rest != "" ==> !IsDigit(rest[0]))
    ensures DropDigits(digits + rest) == rest
    decreases |digits|
  {
    if digits == "" {
      assert digits + rest == rest;
    } else {
      assert (digits + rest)[1..] == digits[1..] + rest;
      DropDigitsIs(digits[1..], rest);
    }
  }

  /** The digits that DropDigits drops. */
  predicate LeadingDigits(digits: string, s: string) {
    && AllDigits(digits) && s == digits + DropDigits(s)
    && (s != "" && IsDigit(s[0]) ==> digits != "" && digits[0] == s[0])
  }

  lemma {:induction false} DropDigitsSplits(s: string)
    ensures exists digits :: LeadingDigits(digits, s)
    ensures DropDigits(s) != "" ==> !IsDigit(DropDigits(s)[0])
    decreases |s|
  {
    if s != "" && IsDigit(s[0]) {
      DropDigitsSplits(s[1..]);
      var digits :| LeadingDigits(digits, s[1..]);
      assert LeadingDigits([s[0]] + digits, s);
    } else {
      assert LeadingDigits("", s);
    }
  }

  lemma DigitsDropped(t: string)
    ensures t != "" && DropDigits(t) == "" <==> t != "" && AllDigits(t)
  {
    if AllDigits(t) {
      assert t + "" == t;
      DropDigitsIs(t, "");
    }
    if DropDigits(t) == "" {
      DropDigitsSplits(t);
      var digits :| LeadingDigits(digits, t);
      assert t == digits;
    }
  }

  lemma ExponentExactly(s: string)
    ensures IsExponent(s) <==> NumberExponent(s)
  {
    if s != "" && (s[0] == 'e' || s[0] == 'E') {
      hide DropDigits;
      var k := if |s| > 1 && (s[1] == '+' || s[1] == '-') then 2 else 1;
      DigitsDropped(s[k..]);
      if NumberExponent(s) {
        var j :| 1 <= j <= 2 && j < |s| && (j == 2 ==> s[1] == '+' || s[1] == '-') && AllDigits(s[j..]);
        if j == 1 { assert IsDigit(s[1..][0]); }
        assert j == k;
      }
    }
  }

  lemma ExponentStarts(x: string)
    requires NumberExponent(x) && x != ""
    ensures !IsDigit(x[0]) && x[0] != '.'
  {
  }

  lemma FractionHasParts(s: string)
    requires IsFraction(s)
    ensures exists frac, exp :: NumberFrac(frac) && NumberExponent(exp) && s == frac + exp
  {
    hide DropDigits, NumberExponent, IsExponent;
    if |s| > 1 && s[0] == '.' && IsDigit(s[1]) {
      DropDigitsSplits(s[1..]);
      var digits :| LeadingDigits(digits, s[1..]);
      ExponentExactly(DropDigits(s[1..]));
      var frac := ['.'] + digits;
      assert frac[1..] == digits && s == frac + DropDigits(s[1..]) && NumberFrac(frac);
    } else {
      ExponentExactly(s);
      assert s == "" + s && NumberFrac("");
    }
  }

  lemma PartsAreFraction(frac: string, exp: string)
    requires NumberFrac(frac) && NumberExponent(exp)
    ensures IsFraction(frac + exp)
  {
    hide DropDigits, NumberExponent, IsExponent;
    var s := frac + exp;
    ExponentExactly(exp);
    if exp != "" { ExponentStarts(exp); }
    if frac == "" {
      assert s == exp;
    } else {
      assert s[1..] == frac[1..] + exp && s[1] == frac[1..][0];
      DropDigitsIs(frac[1..], exp);
    }
  }

  /** What may follow the whole part. */
  lemma FractionExactly(s: string)
    ensures IsFraction(s) <==> exists frac, exp :: NumberFrac(frac) && NumberExponent(exp) && s == frac + exp
  {
    hide *;
    if IsFraction(s) { FractionHasParts(s); }
    if frac, exp :| NumberFrac(frac) && NumberExponent(exp) && s == frac + exp {
      PartsAreFraction(frac, exp);
    }
  }

  lemma FractionStarts(frac: string, exp: string)
    requires NumberFrac(frac) && NumberExponent(exp)
    ensures frac + exp != "" ==> !IsDigit((frac + exp)[0])
  {
    hide NumberExponent;
    if frac == "" && exp != "" { ExponentStarts(exp); }
  }

  /** A sign, a whole part without leading zeros, a fraction and an exponent. */
  predicate NumberParts(s: string, sign: string, whole: string, frac: string, exp: string) {
    NumberSign(sign) && NumberWhole(whole) && NumberFrac(frac) && NumberExponent(exp)
    && s == sign + (whole + (frac + exp))
  }

  /** The whole part of a number without a sign, and what is left to be its fraction and exponent. */
  lemma WholeSplits(t: string) returns (whole: string, rest: string)
    requires t != "" && IsDigit(t[0])
    ensures NumberWhole(whole) && t == whole + rest && rest == if t[0] == '0' then t[1..] else DropDigits(t)
  {
    if t[0] == '0' {
      whole, rest := "0", t[1..];
      assert t == [t[0]] + rest;
    } else {
      DropDigitsSplits(t);
      var digits :| LeadingDigits(digits, t);
      whole, rest := digits, DropDigits(t);
    }
  }

  lemma NumberUnfold(s: string)
    requires IsNumber(s)
    ensures s != ""
    ensures var t := if s[0] == '-' then s[1..] else s;
      t != "" && IsDigit(t[0]) && IsFraction(if t[0] == '0' then t[1..] else DropDigits(t))
  {
    hide IsFraction, DropDigits;
  }

  lemma NumberHasParts(s: string)
    requires IsNumber(s)
    ensures exists sign, whole, frac, exp :: NumberParts(s, sign, whole, frac, exp)
  {
    hide IsNumber, IsFraction, NumberExponent, NumberFrac, NumberWhole, DropDigits, IsDigit;
    NumberUnfold(s);
    var sign, t := if s[0] == '-' then "-" else "", if s[0] == '-' then s[1..] else s;
    var whole, rest := WholeSplits(t);
    FractionExactly(rest);
    var frac, exp :| NumberFrac(frac) && NumberExponent(exp) && rest == frac + exp;
    assert s == sign + t;
    assert NumberParts(s, sign, whole, frac, exp);
  }

  lemma PartsAreNumber(s: string, sign: string, whole: string, frac: string, exp: string)
    requires NumberParts(s, sign, whole, frac, exp)
    ensures IsNumber(s)
  {
    var rest := frac + exp;
    var t := whole + rest;
    FractionStarts(frac, exp);
    FractionExactly(rest);
    hide IsFraction, NumberExponent, NumberFrac, DropDigits;
    assert IsDigit(whole[0]) && t[0] == whole[0];
    if whole == "0" {
      assert t[1..] == rest;
    } else {
      DropDigitsIs(whole, rest);
    }
    assert if sign == "-" then s[0] == '-' && s[1..] == t else s == t && s[0] != '-';
  }

  /** The number literals of JSON, and no other text. */
  lemma NumberExactly(s: string)
    ensures IsNumber(s) <==> exists sign, whole, frac, exp :: NumberParts(s, sign, whole, frac, exp)
  {
    hide IsNumber, NumberParts;
    if IsNumber(s) { NumberHasParts(s); }
    if sign, whole, frac, exp :| NumberParts(s, sign, whole, frac, exp) {
      PartsAreNumber(s, sign, whole, frac, exp);
    }
  }

  function AllSpelled<J>(ps: seq<Param<J>>, spell: J -> string): (tokens: seq<Token>)
    ensures |tokens| == |ps|
  {
    seq(|ps|, i requires 0 <= i < |ps| => Spelled(ps[i], spell))
  }

  lemma {:induction false} ConvertAllSpelled<J>(ps: seq<Param<J>>, spell: J -> string, json: string -> Option<J>)
    requires forall i :: 0 <= i < |ps| ==> Spellable(ps[i], spell, json)
    ensures ConvertAll(AllSpelled(ps, spell), json) == Ok(ps)
  {
    hide Convert, Spelled, Spellable;
    if ps != [] {
      ConvertSpelled(ps[0], spell, json);
      ConvertAllSpelled(ps[1..], spell, json);
      assert AllSpelled(ps, spell)[1..] == AllSpelled(ps[1..], spell);
      assert ps == [ps[0]] + ps[1..];
    }
  }

  /**
    Every command comes back: a method name and parameters of any kind, in whatever segments
    and white space they are written.
   */
  lemma ParseCommand<J>(items: seq<Item>, end: string, name: string, ps: seq<Param<J>>, spell: J -> string,
      json: string -> Option<J>)
    requires AreItems(items) && AllSpace(end) && IsMethod(name)
    requires forall i :: 0 <= i < |ps| ==> Spellable(ps[i], spell, json)
    requires AllDenoted(items) == [Token(name, false)] + AllSpelled(ps, spell)
    ensures ParseCommandLine(WriteLine(items) + end, json) == Ok(Some(Command(name, ps)))
  {
    hide Convert, Spelled, Spellable, WriteLine, Tokens, ConvertAll, AreItems, AllSpace, IsMethod;
    TokensWritten(items, end);
    var tokens := AllDenoted(items);
    assert tokens[1..] == AllSpelled(ps, spell) && tokens[0] == Token(name, false);
    ConvertAllSpelled(ps, spell, json);
  }

  lemma {:induction false} ConvertAllExactly<J>(tokens: seq<Token>, json: string -> Option<J>)
    ensures var r := ConvertAll(tokens, json);
      if r.Ok? then
        |r.value| == |tokens| && forall i :: 0 <= i < |tokens| ==> Convert(tokens[i], json) == Ok(r.value[i])
      else exists k :: 0 <= k < |tokens| && Convert(tokens[k], json) == Err(r.error)
             && forall i :: 0 <= i < k ==> Convert(tokens[i], json).Ok?
  {
    hide Convert;
    if tokens != [] {
      ConvertAllExactly(tokens[1..], json);
      if Convert(tokens[0], json).Ok? && ConvertAll(tokens[1..], json).Err? {
        var error := ConvertAll(tokens[1..], json).error;
        var k :| 0 <= k < |tokens| - 1 && Convert(tokens[1..][k], json) == Err(error)
          && forall i :: 0 <= i < k ==> Convert(tokens[1..][i], json).Ok?;
        assert tokens[k + 1] == tokens[1..][k];
        forall i | 0 <= i < k + 1
          ensures Convert(tokens[i], json).Ok?
        {
          if i > 0 { assert tokens[1..][i - 1] == tokens[i]; }
        }
      }
    }
  }

  /** A line is blank, or begins with an unquoted method name and converts, or is turned down for its first fault. */
  lemma CommandExactly<J>(line: string, json: string -> Option<J>)
    ensures var tokens, r := Tokens(line), ParseCommandLine(line, json);
      if tokens.Err? then r == Err(tokens.error)
      else
        && (r == Ok(None) <==> tokens.value == [])
        && (r == Err(NotAMethod) <==> tokens.value != [] && (tokens.value[0].quoted || !IsMethod(tokens.value[0].text)))
        && (r.Ok? && r.value.Some? ==>
             var Command(name, params) := r.value.value;
             && |tokens.value| == |params| + 1 && tokens.value[0] == Token(name, false) && IsMethod(name)
             && forall i :: 0 <= i < |params| ==> Convert(tokens.value[i + 1], json) == Ok(params[i]))
        && (r.Err? && r != Err(NotAMethod) ==>
             exists k :: 1 <= k < |tokens.value| && Convert(tokens.value[k], json) == Err(r.error)
               && forall i :: 1 <= i < k ==> Convert(tokens.value[i], json).Ok?)
  {
    hide Tokens, Convert, IsMethod, ConvertAll;
    var tokens := Tokens(line);
    if tokens.Ok? && tokens.value != [] {
      var rest := tokens.value[1..];
      ConvertAllExactly(rest, json);
      var r := ConvertAll(rest, json);
      if r.Err? {
        var k :| 0 <= k < |rest| && Convert(rest[k], json) == Err(r.error)
          && forall i :: 0 <= i < k ==> Convert(rest[i], json).Ok?;
        ConvertNeverNames(rest[k], json);
        assert tokens.value[k + 1] == rest[k];
        forall i | 1 <= i < k + 1
          ensures Convert(tokens.value[i], json).Ok?
        {
          assert rest[i - 1] == tokens.value[i];
        }
      }
    }
  }

  lemma ConvertNeverNames<J>(t: Token, json: string -> Option<J>)
    ensures Convert(t, json) != Err(NotAMethod)
  {
    hide IsNumber;
  }

  /** An argument between single quotes, or escaped between double quotes. */
  function QuotedSegment(arg: string, single: bool): Segment {
    if single then InSingle(arg) else InDouble(Escape(arg))
  }

  lemma QuotedDenotes(arg: string, single: bool)
    requires single ==> '\'' !in arg
    ensures AllWritable([QuotedSegment(arg, single)]) && Denoted([QuotedSegment(arg, single)]) == Token(arg, true)
  {
    hide DoubleRead, Escape;
    EscapedReads(arg);
    SegmentsHead([QuotedSegment(arg, single)]);
    NoSegments([QuotedSegment(arg, single)][1..]);
  }

  /** A method name and arguments, each between the chosen quotes. */
  function QuotedItems(name: string, args: seq<string>, single: seq<bool>): (items: seq<Item>)
    requires |single| == |args|
    ensures |items| == |args| + 1
  {
    [Item("", [Bare(name)])]
    + seq(|args|, i requires 0 <= i < |args| => Item(" ", [QuotedSegment(args[i], single[i])]))
  }

  /** In particular any strings come back, each between quotes of either kind that can hold it. */
  lemma ParseQuoted<J>(name: string, args: seq<string>, single: seq<bool>, json: string -> Option<J>)
    requires IsMethod(name) && |single| == |args|
    requires forall i :: 0 <= i < |args| && single[i] ==> '\'' !in args[i]
    ensures ParseCommandLine(WriteLine(QuotedItems(name, args, single)), json) == Ok(Some(Command(name,
        Texts<J>(args))))
  {
    hide WriteLine, ParseCommandLine, AllWritable, Denoted, IsMethod, IsWord, QuotedSegment;
    var spell, items := (value: J) => "", QuotedItems(name, args, single);
    MethodPlain(name);
    PlainlyDenotes(Token(name, false));
    assert Plainly(Token(name, false)) == Bare(name);
    forall i | 0 <= i < |args|
      ensures AllWritable([QuotedSegment(args[i], single[i])])
      ensures Denoted([QuotedSegment(args[i], single[i])]) == Token(args[i], true)
    {
      QuotedDenotes(args[i], single[i]);
    }
    assert AreItems(items);
    assert AllDenoted(items) == [Token(name, false)] + AllSpelled(Texts<J>(args), spell);
    ParseCommand(items, "", name, Texts<J>(args), spell, json);
    assert WriteLine(items) + "" == WriteLine(items);
  }

  function Texts<J>(args: seq<string>): (ps: seq<Param<J>>)
    ensures |ps| == |args|
  {
    seq(|args|, i requires 0 <= i < |args| => Text(args[i]))
  }
}
