/**
  The round trip of declarations: the whole tree comes back exactly when it is not too deep and
  no description is a decoy; named literals, shared constants, and whole vectors.
 */
module ArgRoundTrip {
  import opened Wrappers
  import opened SourceScanner
  import opened SourceText
  import opened SourceFields
  import opened ArgParser
  import opened ArgDeclaration
  import opened ArgOptions
  import opened ArgReading

  function Tree(d: Decl): Arg
    decreases d
  {
    Arg(d.name, d.type_, seq(|d.inner|, k requires 0 <= k < |d.inner| => Tree(d.inner[k])), d.oneline, d.hidden)
  }

  /** At most n levels of arguments, d itself being the first. */
  predicate Levels(d: Decl, n: nat)
    decreases n
  {
    n > 0 && forall k :: 0 <= k < |d.inner| ==> Levels(d.inner[k], n - 1)
  }

  predicate HasDecoy(d: Decl) {
    Decoy(d.oneline, d.hidden) || exists k :: 0 <= k < |d.inner| && HasDecoy(d.inner[k])
  }

  function Trees(ds: seq<Decl>): (args: seq<Arg>)
    ensures |args| == |ds|
  {
    seq(|ds|, k requires 0 <= k < |ds| => Tree(ds[k]))
  }

  lemma {:induction false} AllAsReadExactly(ds: seq<Decl>, depth: nat)
    requires depth <= DEEPEST + 1
    ensures AllAsRead(ds, depth) == Trees(ds) <==> forall k :: 0 <= k < |ds| ==>
      AsRead(ds[k], depth) == Some(Tree(ds[k]))
    decreases |ds|
  {
    hide AsRead, Tree;
    if ds != [] {
      var rest := AllAsRead(ds[1..], depth);
      AllAsReadExactly(ds[1..], depth);
      assert Trees(ds) == [Tree(ds[0])] + Trees(ds[1..]);
      assert forall k :: 0 <= k < |ds| - 1 ==> ds[1..][k] == ds[k + 1];
      if AsRead(ds[0], depth).Some? {
        var first := AsRead(ds[0], depth).value;
        assert AllAsRead(ds, depth)[0] == first && AllAsRead(ds, depth)[1..] == rest;
        assert Trees(ds)[0] == Tree(ds[0]) && Trees(ds)[1..] == Trees(ds[1..]);
      } else {
        assert |AllAsRead(ds, depth)| < |Trees(ds)|;
      }
      assert (forall k :: 0 <= k < |ds| ==> AsRead(ds[k], depth) == Some(Tree(ds[k])))
        <==> (AsRead(ds[0], depth) == Some(Tree(ds[0]))
              && forall k :: 0 <= k < |ds| - 1 ==> AsRead(ds[1..][k], depth) == Some(Tree(ds[1..][k]))) by {
        if forall k :: 0 <= k < |ds| - 1 ==> AsRead(ds[1..][k], depth) == Some(Tree(ds[1..][k])) {
          forall k | 1 <= k < |ds|
            ensures AsRead(ds[k], depth) == Some(Tree(ds[k]))
          {
            assert ds[1..][k - 1] == ds[k];
          }
        }
      }
    }
  }

  lemma {:induction false} AsReadExactly(d: Decl, depth: nat)
    requires depth <= DEEPEST + 1
    ensures AsRead(d, depth) == Some(Tree(d)) <==> Levels(d, DEEPEST + 1 - depth) && !HasDecoy(d)
    decreases DEEPEST + 1 - depth
  {
    if depth <= DEEPEST {
      forall k | 0 <= k < |d.inner|
        ensures AsRead(d.inner[k], depth + 1) == Some(Tree(d.inner[k]))
           <==> Levels(d.inner[k], DEEPEST - depth) && !HasDecoy(d.inner[k])
      {
        AsReadExactly(d.inner[k], depth + 1);
      }
      NodeExactly(d, depth);
      hide Decoy, AllAsRead, AsRead, Tree;
    }
  }

  /** One node: it reads exactly if its inner arguments do and it is no decoy. */
  lemma NodeExactly(d: Decl, depth: nat)
    requires depth <= DEEPEST
    ensures AsRead(d, depth) == Some(Tree(d)) <==>
      (!Decoy(d.oneline, d.hidden)
       && forall k :: 0 <= k < |d.inner| ==> AsRead(d.inner[k], depth + 1) == Some(Tree(d.inner[k])))
  {
    TreeIs(d);
    assert Decoy(d.oneline, d.hidden) ==> !d.hidden;
    assert AsRead(d, depth) == Some(Arg(d.name, d.type_, AllAsRead(d.inner, depth + 1), d.oneline,
      d.hidden || Decoy(d.oneline, d.hidden)));
    hide Decoy, AllAsRead, AsRead, Tree, Trees;
    AllAsReadExactly(d.inner, depth + 1);
  }

  lemma TreeIs(d: Decl)
    ensures Tree(d) == Arg(d.name, d.type_, Trees(d.inner), d.oneline, d.hidden)
  {
    assert Trees(d.inner) == seq(|d.inner|, k requires 0 <= k < |d.inner| => Tree(d.inner[k]));
  }

  /**
    Wherever a declaration is written, after any white space and comments, reading it gives its
    whole tree back exactly when no argument lies below the deepest level read and no description
    is a decoy.
   */
  lemma RoundTrip(consts: map<string, string>, s: string, a: nat, gap: seq<Piece>, d: Decl, depth: nat)
    requires WellWritten(d) && IsGap(gap) && depth <= DEEPEST + 1 && At(s, a, Text(gap) + Text(Written(d)))
    ensures var b := a + |Text(gap) + Text(Written(d))|;
      && b <= |s|
      && (Parse(consts, s, a, b, depth) == Some(Tree(d)) <==> Levels(d, DEEPEST + 1 - depth) && !HasDecoy(d))
  {
    hide *;
    FieldTextIs(gap, Written(d));
    ReadWritten(consts, s, a, gap, d, depth);
    AsReadExactly(d, depth);
  }

  lemma FieldTextIs(gap: seq<Piece>, body: seq<Piece>)
    ensures FieldText(Field(gap, body)) == Text(gap) + Text(body)
  {
  }

  lemma {:induction false} WordEndsAt(s: string, i: nat, end: nat, b: nat)
    requires i <= end <= b <= |s|
    requires forall k :: i <= k < end ==> IsWordChar(s[k])
    requires end == b || !IsWordChar(s[end])
    ensures WordEnd(s, i, b) == end
    decreases end - i
  {
    if i < end { WordEndsAt(s, i + 1, end, b); }
  }

  /** Words that begin with a letter, joined by pairs of colons. */
  predicate AreWords(words: seq<string>) {
    forall k :: 0 <= k < |words| ==> IsWord(words[k]) && IsLetter(words[k][0])
  }

  function Qualified(words: seq<string>): string
    requires words != []
  {
    if |words| == 1 then words[0] else words[0] + ("::" + Qualified(words[1..]))
  }

  lemma NameParts(words: seq<string>)
    requires words != [] && AreWords(words)
    ensures IsWord(words[0]) && IsLetter(words[0][0])
    ensures |words| == 1 ==> Qualified(words) == words[0]
    ensures |words| > 1 ==> AreWords(words[1..]) && Qualified(words) == words[0] + ("::" + Qualified(words[1..]))
  {
    hide IsWord, IsLetter;
  }

  /** The name ends where it was written to, if neither a word character nor a colon follows. */
  lemma {:induction false} NameEndsAt(s: string, i: nat, words: seq<string>, b: nat)
    requires words != [] && AreWords(words) && At(s, i, Qualified(words)) && i + |Qualified(words)| <= b <= |s|
    requires var e := i + |Qualified(words)|; e == b || (!IsWordChar(s[e]) && s[e] != ':')
    ensures i < |s| && NameEnd(s, i, b) == i + |Qualified(words)| > i && IsLetter(s[i])
    decreases |words|
  {
    hide *;
    var first := words[0];
    var e := i + |first|;
    NameParts(words);
    if |words| == 1 {
      WordAt(s, i, first, b);
      NameStops(s, i, e, b);
    } else {
      var rest := Qualified(words[1..]);
      AtSplit(s, i, first, "::" + rest);
      AtSplit(s, e, "::", rest);
      AtIndex(s, e, "::", 0);
      AtIndex(s, e, "::", 1);
      ColonIsNoWord();
      NameEndsAt(s, e + 2, words[1..], b);
      WordAt(s, i, first, b);
      NameGoesOn(s, i, e, b);
    }
  }

  lemma WordAt(s: string, i: nat, word: string, b: nat)
    requires IsWord(word) && IsLetter(word[0]) && At(s, i, word) && i + |word| <= b <= |s|
    requires i + |word| == b || !IsWordChar(s[i + |word|])
    ensures i < i + |word| && IsLetter(s[i]) && WordEnd(s, i + 1, b) == i + |word|
  {
    hide IsLetter;
    forall k | i <= k < i + |word|
      ensures s[k] == word[k - i]
    {
      AtIndex(s, i, word, k - i);
    }
    WordEndsAt(s, i + 1, i + |word|, b);
  }

  lemma NameStops(s: string, i: nat, e: nat, b: nat)
    requires i < e <= b <= |s| && IsLetter(s[i]) && WordEnd(s, i + 1, b) == e && (e == b || s[e] != ':')
    ensures NameEnd(s, i, b) == e
  {
  }

  lemma NameGoesOn(s: string, i: nat, e: nat, b: nat)
    requires i < e && e + 2 < b <= |s| && IsLetter(s[i]) && WordEnd(s, i + 1, b) == e
    requires s[e] == ':' && s[e + 1] == ':' && IsLetter(s[e + 2])
    ensures NameEnd(s, i, b) == NameEnd(s, e + 2, b)
  {
    hide WordEnd, IsLetter;
  }

  lemma ColonIsNoWord()
    ensures !IsWordChar(':')
  {
  }

  lemma LetterStops(s: string, i: nat)
    requires i < |s| && IsLetter(s[i])
    ensures Trivia(s, i) == i && s[i] != '{'
  {
  }

  lemma ParseNamed(consts: map<string, string>, s: string, a: nat, b: nat, depth: nat, e: nat)
    requires b <= |s| && depth <= DEEPEST && Trivia(s, a) == a < b && s[a] != '{' && NameEnd(s, a, b) == e > a
    ensures e <= b
    ensures var j := Trivia(s, e);
      Parse(consts, s, a, b, depth) ==
        if j < b && s[j] == '{' then ParseBraces(consts, s, j, depth)
        else if s[a..e] in consts then Parse(consts, consts[s[a..e]], 0, |consts[s[a..e]]|, depth + 1)
        else None
  {
    hide Trivia, NameEnd, ParseBraces;
  }

  /** What may follow a name: white space or a comment, or the brace itself. */
  lemma AfterName(s: string, i: nat, f: Field)
    requires IsField(f) && f.body != [] && f.body[0] == Plain('{') && At(s, i, FieldText(f))
    ensures i < |s| && !IsWordChar(s[i]) && s[i] != ':'
  {
    hide Text, IsBody;
    FieldBody(f);
    FieldAt(s, i, f);
    if f.gap == [] {
      NoTail(0);
      assert Tail([]) == [];
      OpensGroup(s, i, f);
    } else {
      GapStarts(s, i, f.gap);
    }
  }

  lemma GapStarts(s: string, i: nat, gap: seq<Piece>)
    requires IsGap(gap) && gap != [] && At(s, i, Text(gap))
    ensures i < |s| && !IsWordChar(s[i]) && s[i] != ':'
  {
    AtIndex(s, i, Text(gap), 0);
    assert Text(gap)[0] == PieceText(gap[0])[0];
  }

  /** A declaration written with a type name before its brace reads the same. */
  lemma NamedLiteral(consts: map<string, string>, s: string, a: nat, words: seq<string>, gap: seq<Piece>, d: Decl,
      depth: nat)
    requires WellWritten(d) && depth <= DEEPEST && words != [] && AreWords(words) && IsGap(gap)
    requires At(s, a, Qualified(words) + FieldText(Field(gap, Written(d))))
    ensures var b := a + |Qualified(words) + FieldText(Field(gap, Written(d)))|;
      b <= |s| && Parse(consts, s, a, b, depth) == AsRead(d, depth)
  {
    hide *;
    var f, name := Field(gap, Written(d)), Qualified(words);
    var at, b := a + |name|, a + |name + FieldText(f)|;
    AtSplit(s, a, name, FieldText(f));
    AtEnd(s, at, FieldText(f));
    WrittenIsBody(d);
    WrittenOpens(d);
    FieldIs(gap, Written(d));
    FieldBody(f);
    AfterName(s, at, f);
    NameEndsAt(s, a, words, b);
    LetterStops(s, a);
    SkipsGap(s, at, f);
    BodyRead(consts, s, at + |Text(gap)|, d, depth);
    ParseNamed(consts, s, a, b, depth, at);
  }

  lemma WrittenOpens(d: Decl)
    ensures Written(d) != [] && Written(d)[0] == Plain('{')
  {
    WrittenParts(d);
  }

  /**
    The name of a shared constant reads as the constant's declaration, one level deeper; any
    other name is not an argument.
   */
  lemma SharedConstant(consts: map<string, string>, s: string, a: nat, words: seq<string>, gap: seq<Piece>, d: Decl,
      depth: nat)
    requires WellWritten(d) && IsGap(gap) && depth <= DEEPEST
    requires words != [] && AreWords(words) && At(s, a, Qualified(words))
    ensures var b := a + |Qualified(words)|;
      && b <= |s|
      && (Qualified(words) !in consts ==> Parse(consts, s, a, b, depth) == None)
      && (Qualified(words) in consts && consts[Qualified(words)] == FieldText(Field(gap, Written(d))) ==>
            Parse(consts, s, a, b, depth) == AsRead(d, depth + 1))
  {
    hide *;
    var name := Qualified(words);
    AtEnd(s, a, name);
    AtSlice(s, a, name);
    SliceIs(s, a, a + |name|);
    NameEndsAt(s, a, words, a + |name|);
    LetterStops(s, a);
    ParseNamed(consts, s, a, a + |name|, depth, a + |name|);
    TriviaAhead(s, a + |name|);
    if name in consts && consts[name] == FieldText(Field(gap, Written(d))) {
      AtWhole(consts[name]);
      ReadWritten(consts, consts[name], 0, gap, d, depth + 1);
    }
  }

  lemma TriviaAhead(s: string, i: nat)
    ensures i <= Trivia(s, i)
  {
  }

  lemma NothingThere(consts: map<string, string>, s: string, a: nat, b: nat, depth: nat)
    requires b <= |s| && depth <= DEEPEST + 1 && Trivia(s, a) >= b
    ensures Parse(consts, s, a, b, depth) == None
  {
    hide Trivia;
  }

  /** White space and comments alone are no argument, and neither is an empty brace group after them. */
  lemma NoArgument(consts: map<string, string>, s: string, a: nat, gap: seq<Piece>, depth: nat)
    requires IsGap(gap) && depth <= DEEPEST && At(s, a, Text(gap))
    ensures var b := a + |Text(gap)|;
      && b <= |s| && Parse(consts, s, a, b, depth) == None
      && (At(s, b, "{}") ==> b + 2 <= |s| && Parse(consts, s, a, b + 2, depth) == None)
  {
    hide *;
    var b := a + |Text(gap)|;
    GapSkipped(s, a, gap);
    TriviaAhead(s, b);
    NothingThere(consts, s, a, b, depth);
    if At(s, b, "{}") {
      AtEnd(s, b, "{}");
      AtIndex(s, b, "{}", 0);
      EmptyGroup(s, b);
      VisibleStops(s, b);
      ParseOpens(consts, s, a, b + 2, b, depth);
      NoFields(consts, s, b, depth);
    }
  }

  lemma EmptyGroup(s: string, i: nat)
    requires At(s, i, "{}")
    ensures i < |s| && s[i] == '{' && !IsSpace(s[i]) && BraceFields(s, i) == []
  {
    AtIndex(s, i, "{}", 0);
    AtIndex(s, i, "{}", 1);
    assert Matching(s, i, 0) == Matching(s, i + 1, 1) == i + 2;
    FieldsEnd(s, i + 1, i + 1, 0, i + 1);
  }

  lemma NoFields(consts: map<string, string>, s: string, i: nat, depth: nat)
    requires i < |s| && BraceFields(s, i) == [] && depth <= DEEPEST
    ensures ParseBraces(consts, s, i, depth) == None
  {
  }

  const LEAF := Decl("x", None, Required, "", [], None, false, Layout([Plain(' ')], ""))

  /** n arguments, each inside the one before. */
  function Chain(n: nat): Decl {
    if n <= 1 then LEAF else LEAF.(inner := [Chain(n - 1)])
  }

  lemma {:induction false} ChainLevels(n: nat, m: nat)
    requires n > 0
    ensures Levels(Chain(n), m) <==> n <= m
    ensures WellWritten(Chain(n)) && !HasDecoy(Chain(n))
    decreases n
  {
    if n == 1 {
      assert Chain(1) == LEAF;
    } else {
      ChainLevels(n - 1, if m > 0 then m - 1 else 0);
      var inner := Chain(n).inner;
      assert inner == [Chain(n - 1)] && inner[0] == Chain(n - 1);
    }
  }

  lemma NoGap(ps: seq<Piece>)
    ensures IsGap([]) && Text([]) + Text(ps) == Text(ps)
  {
  }

  lemma Deepest()
    ensures DEEPEST == 8
  {
  }

  lemma ChainReads(consts: map<string, string>, n: nat)
    requires n > 0
    ensures var x := Text(Written(Chain(n))); Parse(consts, x, 0, |x|, 0) == Some(Tree(Chain(n))) <==> n <= 9
  {
    hide *;
    Deepest();
    ChainLevels(n, 9);
    var x := Text(Written(Chain(n)));
    NoGap(Written(Chain(n)));
    AtWhole(x);
    RoundTrip(consts, x, 0, [], Chain(n), 0);
  }

  /** Nine levels are read back and ten are not. */
  lemma NineLevels(consts: map<string, string>)
    ensures var x := Text(Written(Chain(9))); Parse(consts, x, 0, |x|, 0) == Some(Tree(Chain(9)))
    ensures var x := Text(Written(Chain(10))); Parse(consts, x, 0, |x|, 0) != Some(Tree(Chain(10)))
  {
    hide *;
    ChainReads(consts, 9);
    ChainReads(consts, 10);
  }

  const DECOY := LEAF.(oneline := Some(".hidden = true"))

  lemma DecoyIs()
    ensures WellWritten(DECOY) && Decoy(DECOY.oneline, false) && AsRead(DECOY, 0).Some? && AsRead(DECOY, 0).value.hidden
  {
    hide Escape, HiddenAt, At;
    EscapeFixes(HIDE);
    AtWhole(HIDE);
    HiddenReads(HIDE, 0);
  }

  /** An argument whose description spells the hidden mark is read as hidden. */
  lemma DecoyExample(consts: map<string, string>)
    ensures var x := Text(Written(DECOY));
      var arg := Parse(consts, x, 0, |x|, 0);
      arg.Some? && arg.value.hidden
  {
    hide *;
    DecoyIs();
    AtWhole(Text(Written(DECOY)));
    NoGap(Written(DECOY));
    FieldTextIs([], Written(DECOY));
    ReadWritten(consts, Text(Written(DECOY)), 0, [], DECOY, 0);
  }

  // ------------------------------------------------------------------- vectors

  /** The arguments before the first hidden one. */
  function UntilHidden(args: seq<Arg>): seq<Arg> {
    if args == [] || args[0].hidden then [] else [args[0]] + UntilHidden(args[1..])
  }

  function Rendered(args: seq<Arg>, render: Arg -> string): (texts: seq<string>)
    ensures |texts| == |args|
  {
    seq(|args|, k requires 0 <= k < |args| => render(args[k]))
  }

  /** Reading spans that all hold arguments renders those before the first hidden one. */
  lemma {:induction false} RenderingsOf(consts: map<string, string>, s: string, spans: seq<Span>, render: Arg -> string)
    requires InText(s, spans) && |ParseEach(consts, s, spans, 0)| == |spans|
    ensures Renderings(consts, s, spans, render) == Some(Rendered(UntilHidden(ParseEach(consts, s, spans, 0)), render))
    decreases |spans|
  {
    hide Parse;
    if spans != [] {
      var arg, rest := Parse(consts, s, spans[0].lo, spans[0].hi, 0), ParseEach(consts, s, spans[1..], 0);
      EachAtMost(consts, s, spans[1..], 0);
      assert arg.Some? && ParseEach(consts, s, spans, 0) == [arg.value] + rest;
      assert ([arg.value] + rest)[1..] == rest;
      RenderingsOf(consts, s, spans[1..], render);
      if !arg.value.hidden {
        var shown := UntilHidden(rest);
        assert Rendered([arg.value] + shown, render) == [render(arg.value)] + Rendered(shown, render);
      }
    }
  }

  /** Span k holds an argument that is not hidden. */
  predicate Shows(consts: map<string, string>, s: string, span: Span)
    requires span.lo <= span.hi <= |s|
  {
    var arg := Parse(consts, s, span.lo, span.hi, 0);
    arg.Some? && !arg.value.hidden
  }

  /** Span k holds no argument, and the ones before it hold arguments that are shown. */
  predicate FailsAt(consts: map<string, string>, s: string, spans: seq<Span>, k: nat)
    requires InText(s, spans) && k < |spans|
  {
    && Parse(consts, s, spans[k].lo, spans[k].hi, 0).None?
    && forall j :: 0 <= j < k ==> Shows(consts, s, spans[j])
  }

  lemma FailsLater(consts: map<string, string>, s: string, spans: seq<Span>, k: nat)
    requires InText(s, spans) && 0 < k < |spans|
    ensures FailsAt(consts, s, spans, k) <==> Shows(consts, s, spans[0]) && FailsAt(consts, s, spans[1..], k - 1)
  {
    hide Parse, Shows;
    var rest := spans[1..];
    assert forall j :: 0 < j < |spans| ==> spans[j] == rest[j - 1];
    assert forall j :: 0 <= j < |rest| ==> rest[j] == spans[j + 1];
  }

  ghost predicate Fails(consts: map<string, string>, s: string, spans: seq<Span>)
    requires InText(s, spans)
  {
    exists k: nat :: k < |spans| && FailsAt(consts, s, spans, k)
  }

  lemma FailsStep(consts: map<string, string>, s: string, spans: seq<Span>)
    requires InText(s, spans) && spans != []
    ensures Fails(consts, s, spans) <==>
      Parse(consts, s, spans[0].lo, spans[0].hi, 0).None?
      || (Shows(consts, s, spans[0]) && Fails(consts, s, spans[1..]))
  {
    var rest := spans[1..];
    assert FailsAt(consts, s, spans, 0) <==> Parse(consts, s, spans[0].lo, spans[0].hi, 0).None?;
    hide Parse, Shows, FailsAt;
    forall k: nat | 0 < k < |spans|
      ensures FailsAt(consts, s, spans, k) <==> Shows(consts, s, spans[0]) && FailsAt(consts, s, rest, k - 1)
    {
      FailsLater(consts, s, spans, k);
    }
    if k: nat :| k < |rest| && FailsAt(consts, s, rest, k) {
      assert Shows(consts, s, spans[0]) ==> FailsAt(consts, s, spans, k + 1);
    }
  }

  lemma RenderingsStep(consts: map<string, string>, s: string, spans: seq<Span>, render: Arg -> string)
    requires InText(s, spans) && spans != []
    ensures Renderings(consts, s, spans, render).None? <==>
      Parse(consts, s, spans[0].lo, spans[0].hi, 0).None?
      || (Shows(consts, s, spans[0]) && Renderings(consts, s, spans[1..], render).None?)
  {
    hide Parse;
  }

  /** A vector has no rendering exactly when something that is no argument comes before any hidden one. */
  lemma {:induction false} RenderingsFail(consts: map<string, string>, s: string, spans: seq<Span>,
      render: Arg -> string)
    requires InText(s, spans)
    ensures Renderings(consts, s, spans, render).None? <==> Fails(consts, s, spans)
    decreases |spans|
  {
    if spans != [] {
      hide Renderings, Fails, Parse, Shows;
      RenderingsFail(consts, s, spans[1..], render);
      FailsStep(consts, s, spans);
      RenderingsStep(consts, s, spans, render);
    }
  }

  lemma {:induction false} EachAtMost(consts: map<string, string>, s: string, spans: seq<Span>, depth: nat)
    requires InText(s, spans) && depth <= DEEPEST + 1
    ensures |ParseEach(consts, s, spans, depth)| <= |spans|
    decreases |spans|
  {
    hide Parse;
    if spans != [] { EachAtMost(consts, s, spans[1..], depth); }
  }

  /** A written vector renders as its arguments, as read, up to the first that reads as hidden. */
  lemma VectorRendered(consts: map<string, string>, s: string, i: nat, ds: seq<Decl>, close: string,
      render: Arg -> string)
    requires AllWellWritten(ds) && IsClosing(close) && At(s, i, Text(WrittenVector(ds, close)))
    ensures i < |s|
    ensures Renderings(consts, s, BraceFields(s, i), render) == Some(Rendered(UntilHidden(AllAsRead(ds, 0)), render))
  {
    hide *;
    ReadGroup(consts, s, i, ds, close, 0);
    TopAllRead(ds);
    VectorSpans(s, i, ds, close);
    RenderingsOf(consts, s, BraceFields(s, i), render);
  }

  lemma VectorSpans(s: string, i: nat, ds: seq<Decl>, close: string)
    requires AllWellWritten(ds) && IsClosing(close) && At(s, i, Text(WrittenVector(ds, close)))
    ensures i < |s| && |BraceFields(s, i)| == |ds|
  {
    hide *;
    WrittenAreFields(ds);
    VectorIs(ds, close);
    GroupSpans(s, i, AllWritten(ds), close);
  }
}
