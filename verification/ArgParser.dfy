/**
  The recursive reader of RPC argument declarations: a brace literal, or a name standing for
  one, as the tree of its name, type, inner arguments and display options.
 */
module ArgParser {
  import opened Wrappers
  import opened SourceScanner

  datatype Arg = Arg(name: string, type_: Option<string>, inner: seq<Arg>, oneline: Option<string>, hidden: bool)

  /** Arguments below this depth are not read. */
  const DEEPEST: nat := 8

  // --------------------------------------------------------------------- words

  predicate IsLetter(c: char) { 'a' <= c <= 'z' || 'A' <= c <= 'Z' || c == '_' }

  predicate IsWordChar(c: char) { IsLetter(c) || '0' <= c <= '9' }

  const SMALL := "abcdefghijklmnopqrstuvwxyz"
  const CAPITAL := "ABCDEFGHIJKLMNOPQRSTUVWXYZ"

  lemma SmallAt(k: nat)
    requires k < 26
    ensures |SMALL| == 26 && SMALL[k] == 'a' + k as char
  {
  }

  lemma CapitalAt(k: nat)
    requires k < 26
    ensures |CAPITAL| == 26 && CAPITAL[k] == 'A' + k as char
  {
  }

  lemma SmallAre(c: char)
    ensures c in SMALL <==> 'a' <= c <= 'z'
  {
    SmallAt(0);
    hide SMALL;
    if 'a' <= c <= 'z' { SmallAt(c as int - 'a' as int); }
    if k :| 0 <= k < |SMALL| && SMALL[k] == c { SmallAt(k); }
  }

  lemma CapitalAre(c: char)
    ensures c in CAPITAL <==> 'A' <= c <= 'Z'
  {
    CapitalAt(0);
    hide CAPITAL;
    if 'A' <= c <= 'Z' { CapitalAt(c as int - 'A' as int); }
    if k :| 0 <= k < |CAPITAL| && CAPITAL[k] == c { CapitalAt(k); }
  }

  /** The same, character by character. */
  lemma WordCharsAre(c: char)
    ensures IsLetter(c) <==> c in SMALL || c in CAPITAL || c == '_'
    ensures IsWordChar(c) <==> IsLetter(c) || c in "0123456789"
  {
    hide SMALL, CAPITAL;
    SmallAre(c);
    CapitalAre(c);
  }

  predicate IsWord(x: string) {
    x != "" && forall k :: 0 <= k < |x| ==> IsWordChar(x[k])
  }

  /** The end of the run of word characters from i, looking no further than b. */
  function WordEnd(s: string, i: nat, b: nat): (e: nat)
    requires b <= |s|
    ensures i <= e && (i <= b ==> e <= b) && (i >= b ==> e == i)
    ensures forall k :: i <= k < e ==> IsWordChar(s[k])
    ensures e < b ==> !IsWordChar(s[e])
    decreases b - i
  {
    if i < b && IsWordChar(s[i]) then WordEnd(s, i + 1, b) else i
  }

  /** The end of the qualified name at i, or i if there is none. */
  function NameEnd(s: string, i: nat, b: nat): (e: nat)
    requires b <= |s|
    ensures i <= e && (i <= b ==> e <= b)
    decreases b - i
  {
    if i >= b || !IsLetter(s[i]) then i
    else
      var e := WordEnd(s, i + 1, b);
      if e + 2 < b && s[e] == ':' && s[e + 1] == ':' && IsLetter(s[e + 2]) then NameEnd(s, e + 2, b) else e
  }

  function SpaceEnd(x: string, i: nat): (e: nat)
    ensures i <= e && (i <= |x| ==> e <= |x|)
    decreases |x| - i
  {
    if i < |x| && IsSpace(x[i]) then SpaceEnd(x, i + 1) else i
  }

  // ------------------------------------------------------------------- options

  const HIDDEN := ".hidden"
  const ONELINE := ".oneline_description"

  /** An assignment of true to the hidden member, at p. */
  predicate HiddenAt(x: string, p: nat) {
    && At(x, p, HIDDEN)
    && var q := SpaceEnd(x, p + |HIDDEN|);
    && q < |x| && x[q] == '=' && At(x, SpaceEnd(x, q + 1), "true")
  }

  predicate MentionsHidden(x: string) {
    exists p :: 0 <= p < |x| && HiddenAt(x, p)
  }

  /** Where the value assigned to the oneline member at p starts. */
  function OnelineAt(x: string, p: nat): (v: Option<nat>)
    ensures v.Some? ==> p <= v.value <= |x|
  {
    if !At(x, p, ONELINE) then None
    else
      var q := SpaceEnd(x, p + |ONELINE|);
      if q < |x| && x[q] == '=' then Some(SpaceEnd(x, q + 1)) else None
  }

  /** The first such value at or after p. */
  function OnelineFrom(x: string, p: nat): (v: Option<nat>)
    ensures v.Some? ==> v.value <= |x|
    decreases |x| - p
  {
    if p >= |x| then None
    else if OnelineAt(x, p).Some? then OnelineAt(x, p)
    else OnelineFrom(x, p + 1)
  }

  const TYPE := "RPCArg::Type::"
  const OPTIONS := "RPCArgOptions"

  /** What a field other than an inner vector says; x is its text without leading trivia. */
  function ReadText(x: string, arg: Arg): Arg {
    var e := WordEnd(x, |TYPE|, |x|);
    if At(x, 0, TYPE) && e > |TYPE| then arg.(type_ := Some(x[|TYPE|..e]))
    else if At(x, SpaceEnd(x, 0), OPTIONS) then
      var value := OnelineFrom(x, 0);
      arg.(hidden := MentionsHidden(x),
           oneline := if value.Some? then Some(Literals(x, value.value, |x|)) else arg.oneline)
    else arg
  }

  // ------------------------------------------------------------------- reading

  predicate InText(s: string, spans: seq<Span>) {
    forall k :: 0 <= k < |spans| ==> spans[k].lo <= spans[k].hi <= |s|
  }

  /** The fields of the brace group opened at i. */
  function BraceFields(s: string, i: nat): (fields: seq<Span>)
    requires i < |s|
    ensures InText(s, fields)
  {
    Fields(s, i + 1, Matching(s, i, 0) - 1, 0, i + 1)
  }

  method SplitBraces(s: string, i: nat) returns (fields: seq<Span>)
    requires i < |s|
    ensures fields == BraceFields(s, i)
  {
    var end := FindMatching(s, i);
    fields := SplitFields(s, i + 1, end - 1);
  }

  /** The argument in s between a and b; consts holds the texts of the shared constants. */
  function Parse(consts: map<string, string>, s: string, a: nat, b: nat, depth: nat): Option<Arg>
    requires b <= |s| && depth <= DEEPEST + 1
    decreases DEEPEST + 1 - depth, 3, 0
  {
    var i := Trivia(s, a);
    if depth > DEEPEST || i >= b then None
    else if s[i] == '{' then ParseBraces(consts, s, i, depth)
    else
      var e := NameEnd(s, i, b);
      var j := Trivia(s, e);
      if e == i then None
      else if j < b && s[j] == '{' then ParseBraces(consts, s, j, depth)
      else if s[i..e] in consts then Parse(consts, consts[s[i..e]], 0, |consts[s[i..e]]|, depth + 1)
      else None
  }

  /** The argument whose opening brace is at i. */
  function ParseBraces(consts: map<string, string>, s: string, i: nat, depth: nat): Option<Arg>
    requires i < |s| && depth <= DEEPEST
    decreases DEEPEST + 1 - depth, 2, 0
  {
    var fields := BraceFields(s, i);
    if fields == [] then None
    else
      var named := Arg(Literals(s, fields[0].lo, fields[0].hi), None, [], None, false);
      Some(ReadFields(consts, s, fields[1..], depth, named))
  }

  function ReadFields(consts: map<string, string>, s: string, fields: seq<Span>, depth: nat, arg: Arg): Arg
    requires InText(s, fields) && depth <= DEEPEST
    decreases DEEPEST + 1 - depth, 1, |fields|
  {
    if fields == [] then arg
    else ReadFields(consts, s, fields[1..], depth, ReadField(consts, s, fields[0], depth, arg))
  }

  function ReadField(consts: map<string, string>, s: string, field: Span, depth: nat, arg: Arg): Arg
    requires field.lo <= field.hi <= |s| && depth <= DEEPEST
    decreases DEEPEST + 1 - depth, 0, 0
  {
    var k := Trivia(s, field.lo);
    if k >= field.hi then arg
    else if s[k] == '{' then
      arg.(inner := ParseEach(consts, s, BraceFields(s, k), depth + 1))
    else ReadText(s[k..field.hi], arg)
  }

  /** The arguments among these spans; the others are dropped. */
  function ParseEach(consts: map<string, string>, s: string, spans: seq<Span>, depth: nat): seq<Arg>
    requires InText(s, spans) && depth <= DEEPEST + 1
    decreases DEEPEST + 1 - depth, 4, |spans|
  {
    if spans == [] then []
    else
      var arg := Parse(consts, s, spans[0].lo, spans[0].hi, depth);
      (if arg.Some? then [arg.value] else []) + ParseEach(consts, s, spans[1..], depth)
  }

  method ParseArg(consts: map<string, string>, s: string, a: nat, b: nat, depth: nat) returns (result: Option<Arg>)
    requires b <= |s| && depth <= DEEPEST + 1
    ensures result == Parse(consts, s, a, b, depth)
    decreases DEEPEST + 1 - depth, 3
  {
    hide Trivia, ParseBraces, NameEnd;
    if depth > DEEPEST { return None; }
    var i := SkipTrivia(s, a);
    if i >= b { return None; }
    if s[i] != '{' {
      var e := NameEnd(s, i, b);
      if e == i { return None; }
      var ident := s[i..e];
      var j := SkipTrivia(s, e);
      if j < b && s[j] == '{' {
        i := j;
      } else if ident in consts {
        var text := consts[ident];
        result := ParseArg(consts, text, 0, |text|, depth + 1);
        return;
      } else {
        return None;
      }
    }
    result := ParseLiteral(consts, s, i, depth);
  }

  method ParseLiteral(consts: map<string, string>, s: string, i: nat, depth: nat) returns (result: Option<Arg>)
    requires i < |s| && depth <= DEEPEST
    ensures result == ParseBraces(consts, s, i, depth)
    decreases DEEPEST + 1 - depth, 2
  {
    hide Literals, ReadField, BraceFields;
    var fields := SplitBraces(s, i);
    if fields == [] { return None; }
    var name := StringLiteral(s, fields[0].lo, fields[0].hi);
    var arg := Arg(name, None, [], None, false);
    ghost var named := arg;
    var f := 1;
    while f < |fields|
      invariant 1 <= f <= |fields|
      invariant ReadFields(consts, s, fields[1..], depth, named) == ReadFields(consts, s, fields[f..], depth, arg)
    {
      assert fields[f..][1..] == fields[f + 1..];
      arg := ParseField(consts, s, fields[f], depth, arg);
      f := f + 1;
    }
    return Some(arg);
  }

  /** One round of the loop over an argument's fields. */
  method ParseField(consts: map<string, string>, s: string, field: Span, depth: nat, arg: Arg) returns (next: Arg)
    requires field.lo <= field.hi <= |s| && depth <= DEEPEST
    ensures next == ReadField(consts, s, field, depth, arg)
    decreases DEEPEST + 1 - depth, 1
  {
    hide Trivia, ReadText, BraceFields, ParseEach;
    var Span(lo, hi) := field;
    var k := SkipTrivia(s, lo);
    if k >= hi { return arg; }
    if s[k] == '{' {
      var spans := SplitBraces(s, k);
      var inner := ParseSpans(consts, s, spans, depth + 1);
      return arg.(inner := inner);
    }
    return ReadText(s[k..hi], arg);
  }

  lemma EachFrom(consts: map<string, string>, s: string, spans: seq<Span>, k: nat, depth: nat)
    requires InText(s, spans) && depth <= DEEPEST + 1 && k < |spans|
    ensures ParseEach(consts, s, spans[k..], depth)
         == var arg := Parse(consts, s, spans[k].lo, spans[k].hi, depth);
            (if arg.Some? then [arg.value] else []) + ParseEach(consts, s, spans[k + 1..], depth)
  {
    hide Parse;
    assert spans[k..][1..] == spans[k + 1..] && spans[k..][0] == spans[k];
  }

  lemma NoneLeft(consts: map<string, string>, s: string, spans: seq<Span>, depth: nat)
    requires InText(s, spans) && depth <= DEEPEST + 1
    ensures ParseEach(consts, s, spans[|spans|..], depth) == []
  {
  }

  method ParseSpans(consts: map<string, string>, s: string, spans: seq<Span>, depth: nat) returns (args: seq<Arg>)
    requires InText(s, spans) && depth <= DEEPEST + 1
    ensures args == ParseEach(consts, s, spans, depth)
    decreases DEEPEST + 1 - depth, 4
  {
    hide ParseEach, Parse;
    args := [];
    var k := 0;
    assert spans[0..] == spans;
    while k < |spans|
      invariant 0 <= k <= |spans|
      invariant ParseEach(consts, s, spans, depth) == args + ParseEach(consts, s, spans[k..], depth)
    {
      EachFrom(consts, s, spans, k, depth);
      var arg := ParseArg(consts, s, spans[k].lo, spans[k].hi, depth);
      if arg.Some? { args := args + [arg.value]; }
      k := k + 1;
    }
    NoneLeft(consts, s, spans, depth);
  }

  // ------------------------------------------------------------------- vectors

  function Prepend(texts: seq<string>, rest: Option<seq<string>>): (r: Option<seq<string>>)
    ensures texts == [] ==> r == rest
  {
    if rest.None? then None else
      assert texts == [] ==> texts + rest.value == rest.value;
      Some(texts + rest.value)
  }

  lemma PrependTwice(texts: seq<string>, text: string, rest: Option<seq<string>>)
    ensures Prepend(texts, Prepend([text], rest)) == Prepend(texts + [text], rest)
  {
    if rest.Some? {
      assert texts + ([text] + rest.value) == texts + [text] + rest.value;
    }
  }

  /** The renderings of the arguments in these spans, up to the first hidden one. */
  function Renderings(consts: map<string, string>, s: string, spans: seq<Span>,
      render: Arg -> string): Option<seq<string>>
    requires InText(s, spans)
    decreases |spans|
  {
    if spans == [] then Some([])
    else
      var arg := Parse(consts, s, spans[0].lo, spans[0].hi, 0);
      if arg.None? then None
      else if arg.value.hidden then Some([])
      else
        Prepend([render(arg.value)], Renderings(consts, s, spans[1..], render))
  }

  method OnelineVector(consts: map<string, string>, s: string, i: nat, render: Arg -> string)
      returns (out: Option<seq<string>>)
    requires i < |s|
    ensures out == Renderings(consts, s, BraceFields(s, i), render)
  {
    hide Parse, BraceFields;
    var spans := SplitBraces(s, i);
    var texts := [];
    var k := 0;
    while k < |spans|
      invariant 0 <= k <= |spans|
      invariant Renderings(consts, s, spans, render) == Prepend(texts, Renderings(consts, s, spans[k..], render))
    {
      ghost var rest := spans[k..];
      assert rest[1..] == spans[k + 1..] && rest[0] == spans[k];
      var arg := ParseArg(consts, s, spans[k].lo, spans[k].hi, 0);
      if arg.None? { return None; }
      if arg.value.hidden { break; }
      PrependTwice(texts, render(arg.value), Renderings(consts, s, spans[k + 1..], render));
      texts := texts + [render(arg.value)];
      k := k + 1;
    }
    assert texts + [] == texts;
    return Some(texts);
  }
}
