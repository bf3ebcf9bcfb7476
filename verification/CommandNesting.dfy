/**
  Bracket nesting on a command line, by an automaton of its own, and what it means for the
  tokenizer on lines without quoted arguments.
 */
module CommandNesting {
  import opened CommandLine
  import opened Wrappers

  // -------------------------------------------------------------------- nesting

  /** A reference automaton: bracket depth and JSON strings only, one character at a time. */
  datatype Nesting = In(depth: nat, inString: bool, escaped: bool) | Negative | QuoteSeen

  const OUTSIDE: Nesting := In(0, false, false)

  function Nest(n: Nesting, ch: char): Nesting {
    match n
    case Negative => Negative
    case QuoteSeen => QuoteSeen
    case In(d, inString, escaped) =>
      if inString then
        if escaped then In(d, true, false)
        else if ch == '\\' then In(d, true, true)
        else In(d, ch != '"', false)
      else if ch == '"' && d > 0 then In(d, true, false)
      else if ch == '"' || ch == '\'' then QuoteSeen
      else if IsOpen(ch) then In(d + 1, false, false)
      else if IsClose(ch) then if d == 0 then Negative else In(d - 1, false, false)
      else In(d, false, false)
  }

  function NestAll(n: Nesting, s: string): Nesting
    decreases |s|
  {
    if s == "" then n else NestAll(Nest(n, s[0]), s[1..])
  }

  /** The text without the white space at depth zero outside strings. */
  function Kept(n: Nesting, s: string): string
    decreases |s|
  {
    if s == "" then ""
    else (if n == OUTSIDE && IsSpace(s[0]) then "" else [s[0]]) + Kept(Nest(n, s[0]), s[1..])
  }

  predicate Balanced(s: string) {
    NestAll(OUTSIDE, s) == OUTSIDE
  }

  lemma {:induction false} NestAbsorbs(n: Nesting, s: string)
    requires n == Negative || n == QuoteSeen
    ensures NestAll(n, s) == n
    decreases |s|
  {
    if s != "" {
      NestAbsorbs(n, s[1..]);
    }
  }

  predicate IsWord(word: string) {
    word != "" && Balanced(word) && Kept(OUTSIDE, word) == word
  }

  lemma SpaceIsPlain(c: char)
    requires IsSpace(c)
    ensures !IsOpen(c) && !IsClose(c) && c != '"' && c != '\''
  {}

  lemma BalancedMeans(s: string)
    ensures Balanced(s) <==> NestAll(OUTSIDE, s) == OUTSIDE
  {}

  lemma UnquotedMeans(st: Scan)
    requires Unquoted(st)
    ensures (st.mode == Normal || st.mode == JString) && (st.started <==> st.cur != "")
  {}

  lemma {:induction false} RunNestsOne(s: string, st: Scan)
    requires s != "" && Unquoted(st) && Width(s, st.mode) == 1
    requires NestAll(Seen(st), s) != QuoteSeen
    ensures Agrees(s, st, Run(s, st))
    decreases |s|, 0
  {
    var m := Nest(Seen(st), s[0]);
    NestAbsorbs(Negative, s[1..]);
    NestAbsorbs(QuoteSeen, s[1..]);
    assert NestAll(Seen(st), s) == NestAll(m, s[1..]);
    UnquotedMeans(st);
    hide Step, Nest, Unquoted, Width, IsSpace, Words, NestAll, Cut, Seen, Culprit;
    if NestAll(Seen(st), s) == Negative { CulpritIs(Seen(st), s); }
    StepNests(s, st);
    StepCuts(s, st);
    RunFirst(s, st);
    if Step(s, st).Ok? {
      var next := Step(s, st).value;
      if m.In? && m.escaped {
        assert s[1..] == "";
        NothingLeft(m, next);
      } else {
        RunNests(s[1..], next);
      }
    }
  }

  /** The scanner as the reference automaton sees it. */
  function Seen(st: Scan): Nesting { In(st.depth, st.mode == JString, false) }

  // --------------------------------------------------------------- conservation

  function Words(tokens: seq<Token>): (texts: seq<string>)
    ensures |texts| == |tokens|
  {
    seq(|tokens|, i requires 0 <= i < |tokens| => tokens[i].text)
  }

  function Concat(words: seq<string>): string {
    if words == [] then "" else words[0] + Concat(words[1..])
  }

  /** A piece, unless it is empty. */
  function Piece(cur: string): seq<string> { if cur == "" then [] else [cur] }

  /** The pieces of s between the white space at depth zero outside strings; cur is the piece begun. */
  function Cut(n: Nesting, cur: string, s: string): seq<string>
    decreases |s|
  {
    if s == "" then Piece(cur)
    else if n == OUTSIDE && IsSpace(s[0]) then Piece(cur) + Cut(n, "", s[1..])
    else Cut(Nest(n, s[0]), cur + [s[0]], s[1..])
  }

  /** Cutting loses only that white space. */
  lemma {:induction false} CutKeeps(n: Nesting, cur: string, s: string)
    ensures Concat(Cut(n, cur, s)) == cur + Kept(n, s)
    decreases |s|
  {
    if s == "" {
      assert Concat(Piece(cur)) == cur + "";
    } else if n == OUTSIDE && IsSpace(s[0]) {
      CutKeepsSpace(cur, s);
      hide *;
      CutKeeps(n, "", s[1..]);
    } else {
      CutOn(n, cur, s);
      hide *;
      NestHead(n, s);
      CutKeeps(Nest(n, s[0]), cur + [s[0]], s[1..]);
    }
  }

  lemma CutKeepsSpace(cur: string, s: string)
    requires s != "" && IsSpace(s[0])
    ensures Concat(Cut(OUTSIDE, cur, s)) == cur + Concat(Cut(OUTSIDE, "", s[1..]))
    ensures Kept(OUTSIDE, s) == "" + Kept(OUTSIDE, s[1..])
  {
    SpaceIsPlain(s[0]);
    hide IsSpace;
    var rest := Cut(OUTSIDE, "", s[1..]);
    assert [] + rest == rest && "" + Concat(rest) == Concat(rest);
    assert ([cur] + rest)[1..] == rest;
  }

  lemma {:induction false} NestConcat(n: Nesting, a: string, b: string)
    ensures NestAll(n, a + b) == NestAll(NestAll(n, a), b)
    ensures Kept(n, a + b) == Kept(n, a) + Kept(NestAll(n, a), b)
    decreases |a|
  {
    hide *;
    NothingNests(n);
    if a == "" {
      assert a + b == b && "" + Kept(n, b) == Kept(n, b);
    } else {
      assert (a + b)[1..] == a[1..] + b && (a + b)[0] == a[0];
      NestHead(n, a);
      NestHead(n, a + b);
      NestConcat(Nest(n, a[0]), a[1..], b);
    }
  }

  lemma NothingNests(n: Nesting)
    ensures NestAll(n, "") == n && Kept(n, "") == ""
  {
  }

  lemma NestHead(n: Nesting, s: string)
    requires s != ""
    ensures NestAll(n, s) == NestAll(Nest(n, s[0]), s[1..])
    ensures Kept(n, s) == (if n == OUTSIDE && IsSpace(s[0]) then "" else [s[0]]) + Kept(Nest(n, s[0]), s[1..])
  {
    hide Nest, IsSpace;
  }

  lemma NestSnoc(n: Nesting, a: string, c: char)
    ensures NestAll(n, a + [c]) == Nest(NestAll(n, a), c)
    ensures Kept(n, a + [c]) == Kept(n, a) + (if NestAll(n, a) == OUTSIDE && IsSpace(c) then "" else [c])
  {
    NestConcat(n, a, [c]);
    assert [c][1..] == "";
  }

  /** A word as the tokenizer makes it: it can be written again. */
  predicate IsWordToken(t: Token) { !t.quoted && IsWord(t.text) }

  predicate AllWords(tokens: seq<Token>) {
    forall i :: 0 <= i < |tokens| ==> IsWordToken(tokens[i])
  }

  /** A scanner state that has seen no quote: its open token nests as the scanner stands. */
  predicate Unquoted(st: Scan) {
    && (st.mode == Normal || st.mode == JString)
    && !st.quoted && (st.started <==> st.cur != "")
    && NestAll(OUTSIDE, st.cur) == Seen(st) && Kept(OUTSIDE, st.cur) == st.cur
    && AllWords(st.tokens)
  }

  /** The closing bracket that takes the nesting below zero. */
  function Culprit(n: Nesting, s: string): char
    requires n != Negative && NestAll(n, s) == Negative
    decreases |s|
  {
    if Nest(n, s[0]) == Negative then s[0] else Culprit(Nest(n, s[0]), s[1..])
  }

  lemma CulpritIs(n: Nesting, s: string)
    requires n.In? && s != "" && NestAll(n, s) == Negative
    ensures Culprit(n, s) == if Nest(n, s[0]) == Negative then s[0] else Culprit(Nest(n, s[0]), s[1..])
  {
    hide Nest;
  }

  /** A closing bracket at k, with the text before it outside all brackets and strings. */
  predicate ClosesNothing(n: Nesting, s: string, k: nat)
    requires k < |s|
  {
    var before := NestAll(n, s[..k]);
    IsClose(s[k]) && before.In? && before.depth == 0 && !before.inString
  }

  /** It closes nothing: the text before it stands outside all brackets and strings. */
  lemma {:induction false} CulpritCloses(n: Nesting, s: string)
    requires n.In? && NestAll(n, s) == Negative
    ensures exists k :: 0 <= k < |s| && s[k] == Culprit(n, s) && ClosesNothing(n, s, k)
    decreases |s|
  {
    var m := Nest(n, s[0]);
    if m == Negative {
      assert s[..0] == "" && NestAll(n, s[..0]) == n;
      assert ClosesNothing(n, s, 0);
    } else {
      NestAbsorbs(QuoteSeen, s[1..]);
      CulpritCloses(m, s[1..]);
      var k :| 0 <= k < |s| - 1 && s[1..][k] == Culprit(m, s[1..]) && ClosesNothing(m, s[1..], k);
      assert s[..k + 1][1..] == s[1..][..k] && s[..k + 1][0] == s[0] && s[k + 1] == s[1..][k];
      assert NestAll(n, s[..k + 1]) == NestAll(m, s[1..][..k]);
      assert ClosesNothing(n, s, k + 1);
    }
  }

  /** The outcome r of scanning s from st: it fails or nests as the reference, and cuts where Cut does. */
  predicate Agrees(s: string, st: Scan, r: Result<Scan, Failure>) {
    var end := NestAll(Seen(st), s);
    if r.Err? then end == Negative && r.error == UnbalancedBracket(Culprit(Seen(st), s))
    else
      && end.In? && end.depth == r.value.depth
      && (r.value.mode == Normal || r.value.mode == JString)
      && end.inString == (r.value.mode == JString)
      && (end.escaped ==> end.inString)
      && (r.value.mode == Normal ==> Unquoted(r.value))
      && Words(r.value.tokens) + Piece(r.value.cur) == Words(st.tokens) + Cut(Seen(st), st.cur, s)
  }

  /**
    On a suffix that opens no quoted argument the scanner fails exactly when the reference
    goes negative; otherwise its tokens are the pieces between the separating white space.
   */
  lemma {:induction false} RunNests(s: string, st: Scan)
    requires Unquoted(st)
    requires NestAll(Seen(st), s) != QuoteSeen
    ensures Agrees(s, st, Run(s, st))
    decreases |s|
  {
    if s == "" {
    } else if Width(s, st.mode) == 2 {
      RunNestsEscape(s, st);
    } else {
      RunNestsOne(s, st);
    }
  }

  lemma NestTwo(n: Nesting, s: string)
    requires |s| > 1
    ensures NestAll(n, s) == NestAll(Nest(Nest(n, s[0]), s[1]), s[2..])
  {
    hide Nest;
    assert s[1..][1..] == s[2..] && s[1..][0] == s[1];
  }

  lemma CulpritPastEscape(n: Nesting, s: string)
    requires |s| > 1 && n.In? && Nest(n, s[0]).In? && Nest(Nest(n, s[0]), s[1]) == n
    ensures NestAll(n, s[2..]) == NestAll(n, s)
    ensures NestAll(n, s) == Negative ==> Culprit(n, s) == Culprit(n, s[2..])
  {
    hide Nest;
    NestTwo(n, s);
    assert s[1..][1..] == s[2..] && s[1..][0] == s[1];
    if NestAll(n, s) == Negative {
      CulpritIs(n, s);
      CulpritIs(Nest(n, s[0]), s[1..]);
    }
  }

  lemma CutString(n: Nesting, cur: string, s: string)
    requires s != "" && n.In? && n.inString
    ensures Cut(n, cur, s) == Cut(Nest(n, s[0]), cur + [s[0]], s[1..])
  {
    hide Nest;
  }

  /** A pair is an escape inside a string. */
  lemma EscapePair(s: string, st: Scan)
    requires s != "" && (st.mode == Normal || st.mode == JString) && Width(s, st.mode) == 2
    ensures |s| > 1 && s[0] == '\\' && st.mode == JString && Step(s, st) == Ok(st.(cur := st.cur + s[..2]))
    ensures Nest(Seen(st), s[0]) == In(st.depth, true, true) && Nest(In(st.depth, true, true), s[1]) == Seen(st)
  {
  }

  lemma NothingNested()
    ensures NestAll(OUTSIDE, "") == OUTSIDE
  {
  }

  /** An escape pair stays in the token, and the scanner stands as before. */
  lemma EscapeStep(s: string, st: Scan)
    requires s != "" && Unquoted(st) && Width(s, st.mode) == 2
    ensures |s| > 1 && Step(s, st) == Ok(st.(cur := st.cur + s[..2])) && Unquoted(st.(cur := st.cur + s[..2]))
    ensures st.mode == JString && Nest(Nest(Seen(st), s[0]), s[1]) == Seen(st)
    ensures Nest(Seen(st), s[0]).In? && Nest(Seen(st), s[0]).inString
  {
    hide AllWords, IsSpace, NestAll, Kept, Step, Nest, Width;
    EscapePair(s, st);
    NothingNested();
    assert st.cur != "";
    NestSnoc(OUTSIDE, st.cur, s[0]);
    NestSnoc(OUTSIDE, st.cur + [s[0]], s[1]);
    assert st.cur + [s[0]] + [s[1]] == st.cur + s[..2];
  }

  lemma {:induction false} RunNestsEscape(s: string, st: Scan)
    requires s != "" && Unquoted(st) && Width(s, st.mode) == 2
    requires NestAll(Seen(st), s) != QuoteSeen
    ensures Agrees(s, st, Run(s, st))
    decreases |s|, 0
  {
    var next, n := st.(cur := st.cur + s[..2]), Seen(st);
    assert Seen(next) == n && next.tokens == st.tokens;
    EscapeStep(s, st);
    hide Step, Nest, Unquoted, Width, IsSpace, NestAll, Cut, Words, Piece, Run, Culprit;
    NestTwo(n, s);
    CulpritPastEscape(n, s);
    CutString(n, st.cur, s);
    assert s[1..][1..] == s[2..] && s[1..][0] == s[1];
    CutString(Nest(n, s[0]), st.cur + [s[0]], s[1..]);
    assert st.cur + [s[0]] + [s[1]] == next.cur;
    RunOne(s, st, next);
    RunNests(s[2..], next);
  }

  /** One unescaped character: the scanner moves as the reference does. */
  lemma StepNests(s: string, st: Scan)
    requires s != "" && Unquoted(st) && Width(s, st.mode) == 1
    requires Nest(Seen(st), s[0]) != QuoteSeen
    ensures var m, step := Nest(Seen(st), s[0]), Step(s, st);
            if step.Err? then m == Negative && step.error == UnbalancedBracket(s[0])
            else
              var next := step.value;
              && (next.mode == Normal || next.mode == JString)
              && (if m.In? && m.escaped then |s| == 1 && next.mode == JString && m.inString && m.depth == next.depth
                  else m == Seen(next) && Unquoted(next))
  {
    hide Balanced, IsSpace;
    if IsSpace(s[0]) { SpaceIsPlain(s[0]); }
    NestSnoc(OUTSIDE, st.cur, s[0]);
    BalancedMeans(st.cur);
    assert NestAll(OUTSIDE, "") == OUTSIDE && Kept(OUTSIDE, "") == "";
    assert s[..1] == [s[0]];
  }

  lemma WordsSnoc(tokens: seq<Token>, t: Token)
    ensures Words(tokens + [t]) == Words(tokens) + [t.text]
  {
  }

  /** One character is cut as Cut does. */
  lemma StepCuts(s: string, st: Scan)
    requires s != "" && Width(s, st.mode) == 1 && (st.mode == Normal || st.mode == JString)
    requires Nest(Seen(st), s[0]) != QuoteSeen && (st.started <==> st.cur != "")
    ensures Step(s, st).Ok? ==>
      var next := Step(s, st).value;
      Words(next.tokens) + Cut(Nest(Seen(st), s[0]), next.cur, s[1..]) == Words(st.tokens) + Cut(Seen(st), st.cur, s)
  {
    if Seen(st) == OUTSIDE && IsSpace(s[0]) {
      SpaceCuts(s, st);
    } else {
      hide *;
      PlainJoins(s, st);
      CutOn(Seen(st), st.cur, s);
    }
  }

  lemma SpaceCuts(s: string, st: Scan)
    requires s != "" && Seen(st) == OUTSIDE && IsSpace(s[0]) && st.mode == Normal && (st.started <==> st.cur != "")
    ensures Step(s, st).Ok?
    ensures var next := Step(s, st).value;
      Words(next.tokens) + Cut(Nest(Seen(st), s[0]), next.cur, s[1..]) == Words(st.tokens) + Cut(Seen(st), st.cur, s)
  {
    SpaceIsPlain(s[0]);
    WordsSnoc(st.tokens, Token(st.cur, st.quoted));
    hide IsSpace, Words;
    var rest := Cut(OUTSIDE, "", s[1..]);
    assert [] + rest == rest;
    assert Words(st.tokens) + ([st.cur] + rest) == Words(st.tokens) + [st.cur] + rest;
  }

  lemma PlainJoins(s: string, st: Scan)
    requires s != "" && Width(s, st.mode) == 1 && (st.mode == Normal || st.mode == JString)
    requires !(Seen(st) == OUTSIDE && IsSpace(s[0])) && Nest(Seen(st), s[0]) != QuoteSeen
    ensures Step(s, st).Ok? ==>
      Step(s, st).value.tokens == st.tokens && Step(s, st).value.cur == st.cur + [s[0]]
  {
    hide IsSpace;
    assert s[..1] == [s[0]];
  }

  lemma CutOn(n: Nesting, cur: string, s: string)
    requires s != "" && !(n == OUTSIDE && IsSpace(s[0]))
    ensures Cut(n, cur, s) == Cut(Nest(n, s[0]), cur + [s[0]], s[1..])
  {
    hide Nest, IsSpace;
  }

  lemma NothingLeft(n: Nesting, st: Scan)
    ensures NestAll(n, "") == n && Cut(n, st.cur, "") == Piece(st.cur) && Run("", st) == Ok(st)
  {
  }

  lemma RunFirst(s: string, st: Scan)
    requires s != "" && Width(s, st.mode) == 1
    ensures Run(s, st) == if Step(s, st).Err? then Step(s, st) else Run(s[1..], Step(s, st).value)
  {
    hide Step, Width;
  }

  /**
    Conservation: on a line without quoted arguments the tokenizer succeeds exactly when the
    brackets balance, and otherwise names the bracket that closes nothing, if there is one. Its
    tokens are then the pieces between the separating white space, which together are the line
    without it; each is a word that can be written again.
   */
  lemma UnquotedLine(line: string)
    requires NestAll(OUTSIDE, line) != QuoteSeen
    ensures Tokens(line).Ok? <==> NestAll(OUTSIDE, line) == OUTSIDE
    ensures NestAll(OUTSIDE, line) == Negative ==> Tokens(line) == Err(UnbalancedBracket(Culprit(OUTSIDE, line)))
    ensures NestAll(OUTSIDE, line) != Negative && Tokens(line).Err? ==> Tokens(line) == Err(UnbalancedBrackets)
    ensures Tokens(line).Ok? ==>
      var tokens := Tokens(line).value;
      && Words(tokens) == Cut(OUTSIDE, "", line) && Concat(Words(tokens)) == Kept(OUTSIDE, line)
      && AllWords(tokens)
  {
    StartsOutside();
    hide Nest, Cut, Kept, NestAll, Run, IsSpace, Culprit;
    RunNests(line, START);
    CutKeeps(OUTSIDE, "", line);
    assert "" + Kept(OUTSIDE, line) == Kept(OUTSIDE, line);
    var end := Run(line, START);
    if end.Ok? {
      WordsSnoc(end.value.tokens, Token(end.value.cur, end.value.quoted));
      assert Words(START.tokens) + Cut(OUTSIDE, "", line) == Cut(OUTSIDE, "", line);
      assert Words(end.value.tokens) + [] == Words(end.value.tokens);
    }
  }

  lemma StartsOutside()
    ensures Unquoted(START) && Seen(START) == OUTSIDE
  {
    assert NestAll(OUTSIDE, "") == OUTSIDE && Kept(OUTSIDE, "") == "";
  }
}
