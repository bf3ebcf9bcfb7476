/**
  Source text as it is written: a sequence of plain characters, string literals and comments.
  The scanners, which only see the characters, find the nesting and the commas that the writer
  put there, whatever the literals and the comments hold.
 */
module SourceText {
  import opened SourceScanner
  import opened Wrappers

  datatype Piece = Plain(c: char) | Quoted(value: string) | LineComment(text: string) | BlockComment(text: string)

  predicate NeedsEscape(c: char) {
    c == '\n' || c == '\t' || c == '\r' || c == '\0' || c == '"' || c == '\\'
  }

  function EscapeChar(c: char): (e: string)
    ensures NeedsEscape(c) <==> |e| == 2
    ensures |e| == 1 ==> e[0] == c
    ensures |e| == 2 ==> e[0] == '\\' && EscapedChar(e[1]) == c
  {
    match c
    case '\n' => "\\n"
    case '\t' => "\\t"
    case '\r' => "\\r"
    case '\0' => "\\0"
    case '"' => "\\\""
    case '\\' => "\\\\"
    case _ => [c]
  }

  /** The body of a literal denoting x. */
  function Escape(x: string): string {
    if x == "" then "" else EscapeChar(x[0]) + Escape(x[1..])
  }

  lemma {:induction false} UnescapeEscape(x: string)
    ensures Unescape(Escape(x)) == x
  {
    if x != "" {
      var e, rest := EscapeChar(x[0]), Escape(x[1..]);
      hide EscapedChar, EscapeChar, Escape;
      UnescapeEscape(x[1..]);
      assert (e + rest)[|e|..] == rest;
      assert x == [x[0]] + x[1..];
    }
  }

  /** Escaping leaves a text as it is exactly when nothing in it needs escaping. */
  lemma {:induction false} EscapeFixes(x: string)
    ensures |Escape(x)| >= |x|
    ensures Escape(x) == x <==> forall k :: 0 <= k < |x| ==> !NeedsEscape(x[k])
  {
    if x != "" {
      hide EscapeChar, NeedsEscape;
      EscapeFixes(x[1..]);
      var e := EscapeChar(x[0]);
      if !NeedsEscape(x[0]) {
        assert Escape(x)[1..] == Escape(x[1..]) && Escape(x)[0] == x[0];
        assert x == [x[0]] + x[1..];
        assert forall k :: 1 <= k < |x| ==> x[k] == x[1..][k - 1];
        assert forall k :: 0 <= k < |x| - 1 ==> x[1..][k] == x[k + 1];
        assert Escape(x) == x <==> Escape(x[1..]) == x[1..];
      } else {
        assert |Escape(x)| > |x|;
      }
    }
  }

  function PieceText(p: Piece): (x: string)
    ensures x != ""
  {
    match p
    case Plain(c) => [c]
    case Quoted(value) => ['"'] + Escape(value) + ['"']
    case LineComment(text) => "//" + text + "\n"
    case BlockComment(text) => "/*" + text + "*/"
  }

  function Text(ps: seq<Piece>): string {
    if ps == [] then "" else PieceText(ps[0]) + Text(ps[1..])
  }

  lemma {:induction false} TextConcat(a: seq<Piece>, b: seq<Piece>)
    ensures Text(a + b) == Text(a) + Text(b)
  {
    hide PieceText;
    if a == [] {
      assert a + b == b;
    } else {
      TextConcat(a[1..], b);
      assert (a + b)[1..] == a[1..] + b && (a + b)[0] == a[0];
      assert Text(a + b) == PieceText(a[0]) + Text(a[1..] + b);
    }
  }

  /** The pieces of a text without literals. */
  function Plainly(x: string): (ps: seq<Piece>)
    ensures |ps| == |x|
  {
    seq(|x|, k requires 0 <= k < |x| => Plain(x[k]))
  }

  lemma {:induction false} TextPlainly(x: string)
    ensures Text(Plainly(x)) == x
  {
    if x != "" {
      TextPlainly(x[1..]);
      assert Plainly(x)[1..] == Plainly(x[1..]);
      assert x == [x[0]] + x[1..];
    }
  }

  // ------------------------------------------------------------------- nesting

  /** Written so that no character can be taken for anything but itself, and comments end where they should. */
  predicate Clean(ps: seq<Piece>) {
    forall k :: 0 <= k < |ps| ==> CleanPiece(ps[k])
  }

  predicate CleanPiece(p: Piece) {
    match p
    case Plain(c) => CleanChar(c)
    case Quoted(_) => true
    case LineComment(text) => '\n' !in text
    case BlockComment(text) => Unclosed(text)
  }

  predicate CleanChar(c: char) { c != '"' && c != '/' }

  /** A block comment's text does not end it, nor open with the slash that the scanner would take for its end. */
  predicate Unclosed(text: string) {
    && (text != "" ==> text[0] != '/')
    && forall k :: 0 <= k < |text| ==> !At(text, k, "*/")
  }

  predicate Opens(p: Piece) { p.Plain? && p.c in "({[" }

  predicate Closes(p: Piece) { p.Plain? && p.c in ")}]" }

  lemma BracketsAre(c: char)
    ensures IsOpen(c) <==> c in "({["
    ensures IsClose(c) <==> c in ")}]"
    ensures !(IsOpen(c) && IsClose(c))
  {
  }

  predicate Matches(open: char, close: char) {
    (open == '(' && close == ')') || (open == '{' && close == '}') || (open == '[' && close == ']')
  }

  /** A closing bracket closes the innermost open one. */
  predicate Fits(p: Piece, open: string) {
    Closes(p) ==> open != "" && Matches(open[|open| - 1], p.c)
  }

  /** The brackets left open, innermost last. */
  function After(p: Piece, open: string): string
    requires Fits(p, open)
  {
    if Opens(p) then open + [p.c] else if Closes(p) then open[..|open| - 1] else open
  }

  /** The brackets close in order, those already open included; commas outside all of them only if allowed. */
  predicate Nested(ps: seq<Piece>, open: string, commas: bool) {
    if ps == [] then open == ""
    else
      && Fits(ps[0], open) && (ps[0] == Plain(',') && open == "" ==> commas)
      && Nested(ps[1..], After(ps[0], open), commas)
  }

  lemma NestedHead(ps: seq<Piece>, open: string, commas: bool)
    requires Nested(ps, open, commas) && ps != []
    ensures Fits(ps[0], open) && (ps[0] == Plain(',') && open == "" ==> commas)
    ensures Nested(ps[1..], After(ps[0], open), commas)
  {
  }

  lemma {:induction false} NestedConcat(a: seq<Piece>, b: seq<Piece>, open: string, commas: bool)
    requires Nested(a, open, commas) && Nested(b, "", commas)
    ensures Nested(a + b, open, commas)
  {
    if a == [] {
      assert a + b == b;
    } else {
      assert (a + b)[1..] == a[1..] + b && (a + b)[0] == a[0];
      hide Fits, After;
      NestedConcat(a[1..], b, After(a[0], open), commas);
    }
  }

  lemma AfterInside(p: Piece, open: string)
    requires Fits(p, open)
    ensures Fits(p, "{" + open) && After(p, "{" + open) == "{" + After(p, open)
  {
  }

  lemma {:induction false} NestedClosed(ps: seq<Piece>, open: string)
    requires Nested(ps, open, true)
    ensures Nested(ps + [Plain('}')], "{" + open, false)
  {
    if ps == [] {
      LastCloses();
      assert ps + [Plain('}')] == [Plain('}')] && "{" + open == "{";
    } else {
      assert (ps + [Plain('}')])[1..] == ps[1..] + [Plain('}')] && (ps + [Plain('}')])[0] == ps[0];
      AfterInside(ps[0], open);
      hide Fits, After;
      NestedClosed(ps[1..], After(ps[0], open));
    }
  }

  lemma LastCloses()
    ensures Nested([Plain('}')], "{", false)
  {
    assert Fits(Plain('}'), "{") && After(Plain('}'), "{") == "";
  }

  function Braced(ps: seq<Piece>): seq<Piece> { [Plain('{')] + ps + [Plain('}')] }

  lemma TextOne(p: Piece)
    ensures Text([p]) == PieceText(p)
  {
    hide PieceText;
    assert [p][1..] == [];
  }

  lemma BracedText(ps: seq<Piece>)
    ensures Text(Braced(ps)) == "{" + Text(ps) + "}"
  {
    hide Text;
    TextConcat([Plain('{')] + ps, [Plain('}')]);
    TextConcat([Plain('{')], ps);
    TextOne(Plain('{'));
    TextOne(Plain('}'));
  }

  lemma BracedHead(ps: seq<Piece>)
    ensures Braced(ps) != [] && Braced(ps)[0] == Plain('{') && Braced(ps)[1..] == ps + [Plain('}')]
  {
  }

  lemma NestedBraced(ps: seq<Piece>)
    requires Nested(ps, "", true)
    ensures Nested(Braced(ps), "", false)
    ensures Text(Braced(ps)) == "{" + Text(ps) + "}"
  {
    hide Text;
    BracedText(ps);
    NestedClosed(ps, "");
    BracedHead(ps);
    assert "{" + "" == "{";
    assert Fits(Plain('{'), "") && After(Plain('{'), "") == "{";
    hide Braced, Fits, After;
  }

  lemma {:induction false} NestedWeaken(ps: seq<Piece>, open: string)
    requires Nested(ps, open, false)
    ensures Nested(ps, open, true)
  {
    if ps != [] {
      hide Fits, After;
      NestedWeaken(ps[1..], After(ps[0], open));
    }
  }

  /** Neither a bracket nor a comma. */
  predicate Inert(p: Piece) { p.Plain? ==> !IsOpen(p.c) && !IsClose(p.c) && p.c != ',' }

  lemma {:induction false} NestedFlat(ps: seq<Piece>)
    requires forall k :: 0 <= k < |ps| ==> Inert(ps[k])
    ensures Nested(ps, "", false)
  {
    if ps != [] {
      assert Inert(ps[0]);
      NestedFlat(ps[1..]);
    }
  }

  lemma NestedPlainly(x: string)
    requires forall k :: 0 <= k < |x| ==> Inert(Plain(x[k]))
    ensures Nested(Plainly(x), "", false)
  {
    NestedFlat(Plainly(x));
  }

  // -------------------------------------------------------- what the scanners see

  lemma AtEnd(s: string, i: nat, x: string)
    requires At(s, i, x)
    ensures i + |x| <= |s|
  {
  }

  lemma AtSplit(s: string, i: nat, x: string, y: string)
    requires At(s, i, x + y)
    ensures At(s, i, x) && At(s, i + |x|, y)
  {
    var n := i + |x + y|;
    assert s[i..n][..|x|] == x && s[i..n][|x|..] == y;
    assert s[i..i + |x|] == s[i..n][..|x|];
    assert s[i + |x|..n] == s[i..n][|x|..];
  }

  lemma AtIndex(s: string, i: nat, x: string, k: nat)
    requires At(s, i, x) && k < |x|
    ensures i + k < |s| && s[i + k] == x[k]
  {
    assert s[i..i + |x|][k] == x[k];
  }

  lemma CharRead(s: string, i: nat, c: char)
    requires At(s, i, EscapeChar(c)) && i + |EscapeChar(c)| < |s|
    ensures StringEnd(s, i) == StringEnd(s, i + |EscapeChar(c)|)
  {
    var e := EscapeChar(c);
    hide At;
    AtIndex(s, i, e, 0);
    AtIndex(s, i, e, |e| - 1);
  }

  lemma EscapeHead(value: string)
    requires value != ""
    ensures Escape(value) + ['"'] == EscapeChar(value[0]) + (Escape(value[1..]) + ['"'])
    ensures |Escape(value)| == |EscapeChar(value[0])| + |Escape(value[1..])|
  {
    hide EscapeChar;
  }

  lemma QuoteEnds(s: string, i: nat)
    requires At(s, i, Escape("") + ['"'])
    ensures StringEnd(s, i) == i + |Escape("")| + 1
  {
    AtIndex(s, i, ['"'], 0);
  }

  /** A literal's closing quote is found, whatever its value. */
  lemma {:induction false} StringEndEscape(s: string, i: nat, value: string)
    requires At(s, i, Escape(value) + ['"'])
    ensures StringEnd(s, i) == i + |Escape(value)| + 1
    decreases |value|
  {
    hide *;
    if value == "" {
      QuoteEnds(s, i);
    } else {
      var e, rest := EscapeChar(value[0]), Escape(value[1..]) + ['"'];
      EscapeHead(value);
      AtSplit(s, i, e, rest);
      AtIndex(s, i + |e|, rest, 0);
      CharRead(s, i, value[0]);
      StringEndEscape(s, i + |e|, value[1..]);
    }
  }

  lemma AtSlice(s: string, i: nat, x: string)
    requires At(s, i, x)
    ensures i + |x| <= |s| && Slice(s, i, i + |x|) == x
  {
  }

  lemma QuotedBody(value: string)
    ensures PieceText(Quoted(value)) == ['"'] + (Escape(value) + ['"'])
  {
    hide Escape;
  }

  lemma QuotedEnds(s: string, i: nat, value: string)
    requires At(s, i, PieceText(Quoted(value)))
    ensures i < |s| && s[i] == '"'
    ensures StringEnd(s, i + 1) == i + |PieceText(Quoted(value))|
    ensures Slice(s, i + 1, StringEnd(s, i + 1) - 1) == Escape(value)
  {
    hide *;
    var body := Escape(value) + ['"'];
    QuotedBody(value);
    AtSplit(s, i, ['"'], body);
    AtIndex(s, i, ['"'], 0);
    StringEndEscape(s, i + 1, value);
    AtSplit(s, i + 1, Escape(value), ['"']);
    AtSlice(s, i + 1, Escape(value));
  }


  lemma IndexOfIs(s: string, x: string, i: nat, p: nat)
    requires x != "" && i <= p && At(s, p, x) && forall k :: i <= k < p ==> !At(s, k, x)
    ensures IndexOf(s, x, i) == Some(p)
  {
    hide At;
    var q := IndexOf(s, x, i);
  }

  predicate IsRemark(p: Piece) { p.LineComment? || p.BlockComment? }

  lemma LineEnds(s: string, i: nat, text: string)
    requires At(s, i, PieceText(LineComment(text))) && '\n' !in text
    ensures IsComment(s, i) && CommentEnd(s, i) == i + 2 + |text| < |s| && s[i + 2 + |text|] == '\n'
  {
    var x := "//" + text + "\n";
    forall k | i <= k < i + |x|
      ensures s[k] == x[k - i]
    {
      AtIndex(s, i, x, k - i);
    }
    var p := i + 2 + |text|;
    assert At(s, p, "\n") by { assert s[p..p + 1] == "\n"; }
    forall k | i <= k < p
      ensures !At(s, k, "\n")
    {
      assert s[k..k + 1][0] == s[k] == x[k - i] != '\n';
    }
    IndexOfIs(s, "\n", i, p);
  }

  lemma PairIndex(s: string, k: nat)
    ensures At(s, k, "*/") <==> k + 1 < |s| && s[k] == '*' && s[k + 1] == '/'
  {
    if k + 1 < |s| && s[k] == '*' && s[k + 1] == '/' { assert s[k..k + 2] == "*/"; }
    if At(s, k, "*/") { assert s[k..k + 2][0] == '*' && s[k..k + 2][1] == '/'; }
  }

  lemma BlockEnds(s: string, i: nat, text: string)
    requires At(s, i, PieceText(BlockComment(text))) && Unclosed(text)
    ensures IsComment(s, i) && CommentEnd(s, i) == i + 4 + |text| <= |s|
  {
    var x := "/*" + text + "*/";
    forall k | i <= k < i + |x|
      ensures s[k] == x[k - i]
    {
      AtIndex(s, i, x, k - i);
    }
    var p := i + 2 + |text|;
    PairIndex(s, p);
    forall k | i <= k < p
      ensures !At(s, k, "*/")
    {
      PairIndex(s, k);
      if k >= i + 2 { PairIndex(text, k - i - 2); }
    }
    IndexOfIs(s, "*/", i, p);
  }

  const BLANKS := " \t\r\n"

  lemma BlanksAre(c: char)
    ensures IsBlank(c) <==> c in BLANKS
    ensures IsBlank(c) ==> IsSpace(c) && c != ','
  {
  }

  /** White space and comments. */
  predicate IsGap(ps: seq<Piece>) {
    Clean(ps) && forall k :: 0 <= k < |ps| ==> IsRemark(ps[k]) || (ps[k].Plain? && ps[k].c in BLANKS)
  }

  lemma BlankSkipped(s: string, i: nat)
    requires i < |s| && IsBlank(s[i])
    ensures Trivia(s, i) == Trivia(s, i + 1)
  {
  }

  lemma CommentSkipped(s: string, i: nat)
    requires IsComment(s, i)
    ensures Trivia(s, i) == Trivia(s, CommentEnd(s, i))
  {
  }

  lemma LineSkipped(s: string, i: nat, text: string)
    requires At(s, i, PieceText(LineComment(text))) && '\n' !in text
    ensures i + |text| + 3 <= |s| && Trivia(s, i) == Trivia(s, i + |text| + 3)
  {
    hide *;
    LineEnds(s, i, text);
    CommentSkipped(s, i);
    NewlineIsBlank();
    BlankSkipped(s, i + 2 + |text|);
  }

  lemma BlockSkipped(s: string, i: nat, text: string)
    requires At(s, i, PieceText(BlockComment(text))) && Unclosed(text)
    ensures i + |text| + 4 <= |s| && Trivia(s, i) == Trivia(s, i + |text| + 4)
  {
    hide *;
    BlockEnds(s, i, text);
    CommentSkipped(s, i);
  }

  lemma RemarkSkipped(s: string, i: nat, p: Piece)
    requires At(s, i, PieceText(p)) && CleanPiece(p) && IsRemark(p)
    ensures i + |PieceText(p)| <= |s| && Trivia(s, i) == Trivia(s, i + |PieceText(p)|)
  {
    hide At, Trivia, Unclosed, IsComment;
    match p
    case LineComment(text) => LineSkipped(s, i, text);
    case BlockComment(text) => BlockSkipped(s, i, text);
  }

  lemma NewlineIsBlank()
    ensures IsBlank('\n')
  {
  }

  lemma GapHead(ps: seq<Piece>)
    requires IsGap(ps) && ps != []
    ensures IsGap(ps[1..]) && Clean(ps)
    ensures IsRemark(ps[0]) || (ps[0].Plain? && IsBlank(ps[0].c) && |PieceText(ps[0])| == 1)
  {
    if ps[0].Plain? { BlanksAre(ps[0].c); }
    hide IsBlank;
  }

  /** One piece of a gap. */
  lemma GapStep(s: string, i: nat, gap: seq<Piece>)
    requires IsGap(gap) && gap != [] && At(s, i, Text(gap))
    ensures var next := i + |PieceText(gap[0])|;
      && IsGap(gap[1..]) && At(s, next, Text(gap[1..])) && Trivia(s, i) == Trivia(s, next)
      && next + |Text(gap[1..])| == i + |Text(gap)|
  {
    hide *;
    GapHead(gap);
    TextHead(s, i, gap);
    if IsRemark(gap[0]) {
      RemarkSkipped(s, i, gap[0]);
    } else {
      PieceAt(s, i, gap[0]);
      BlankSkipped(s, i);
    }
  }

  lemma NothingAt(s: string, i: nat)
    requires At(s, i, Text([]))
    ensures Text([]) == "" && i <= |s|
  {
  }

  /** The scanner skips every run of white space and comments. */
  lemma {:induction false} GapSkipped(s: string, i: nat, gap: seq<Piece>)
    requires IsGap(gap) && At(s, i, Text(gap))
    ensures i + |Text(gap)| <= |s| && Trivia(s, i) == Trivia(s, i + |Text(gap)|)
    decreases |gap|
  {
    hide *;
    if gap == [] {
      NothingAt(s, i);
    } else {
      GapStep(s, i, gap);
      GapSkipped(s, i + |PieceText(gap[0])|, gap[1..]);
    }
  }

  /** What every scanner sees at a piece: the character itself, or a literal and its end. */
  lemma PieceAt(s: string, i: nat, p: Piece)
    requires At(s, i, PieceText(p)) && CleanPiece(p) && !IsRemark(p)
    ensures i + |PieceText(p)| <= |s| && !IsComment(s, i)
    ensures p.Plain? ==> |PieceText(p)| == 1 && s[i] == p.c && s[i] != '"'
    ensures p.Quoted? ==> s[i] == '"' && StringEnd(s, i + 1) == i + |PieceText(p)|
  {
    hide At, Escape, StringEnd;
    AtIndex(s, i, PieceText(p), |PieceText(p)| - 1);
    AtIndex(s, i, PieceText(p), 0);
    if p.Quoted? { QuotedEnds(s, i, p.value); }
  }

  /** The first piece, and the rest of them behind it. */
  lemma TextHead(s: string, i: nat, ps: seq<Piece>)
    requires Clean(ps) && ps != [] && At(s, i, Text(ps))
    ensures At(s, i, PieceText(ps[0])) && At(s, i + |PieceText(ps[0])|, Text(ps[1..]))
    ensures |Text(ps)| == |PieceText(ps[0])| + |Text(ps[1..])|
    ensures CleanPiece(ps[0]) && Clean(ps[1..])
  {
    hide At, PieceText, CleanPiece;
    AtSplit(s, i, PieceText(ps[0]), Text(ps[1..]));
  }

  lemma {:induction false} MatchingTrivia(s: string, i: nat, depth: int)
    requires i <= |s|
    ensures Trivia(s, i) <= |s| && Matching(s, i, depth) == Matching(s, Trivia(s, i), depth)
    decreases |s| - i
  {
    if i < |s| && IsBlank(s[i]) {
      assert !IsComment(s, i) && !IsOpen(s[i]) && !IsClose(s[i]) && s[i] != '"';
      MatchingTrivia(s, i + 1, depth);
    }
  }

  lemma MatchingStep(s: string, i: nat, p: Piece, open: string, depth: int)
    requires At(s, i, PieceText(p)) && CleanPiece(p) && depth >= 1 && Fits(p, open)
    ensures i + |PieceText(p)| <= |s|
    ensures Matching(s, i, depth + |open|) == Matching(s, i + |PieceText(p)|, depth + |After(p, open)|)
  {
    if IsRemark(p) {
      hide At, PieceText, CleanPiece, Matching, Trivia;
      RemarkSkipped(s, i, p);
      MatchingTrivia(s, i, depth + |open|);
      MatchingTrivia(s, i + |PieceText(p)|, depth + |open|);
    } else {
      hide At, PieceText, StringEnd, IsComment, Trivia, CommentEnd, CleanPiece;
      PieceAt(s, i, p);
      if p.Plain? { BracketsAre(p.c); }
    }
  }

  lemma NothingNested(s: string, i: nat, open: string, commas: bool)
    requires Nested([], open, commas) && At(s, i, Text([]))
    ensures Text([]) == "" && i <= |s| && open == "" && |open| == 0
  {
  }

  lemma {:induction false} MatchingNested(s: string, i: nat, ps: seq<Piece>, open: string, depth: int)
    requires Clean(ps) && Nested(ps, open, true) && At(s, i, Text(ps)) && depth >= 1
    ensures i + |Text(ps)| <= |s|
    ensures Matching(s, i, depth + |open|) == Matching(s, i + |Text(ps)|, depth)
    decreases |ps|
  {
    hide *;
    if ps == [] {
      NothingNested(s, i, open, true);
    } else {
      TextHead(s, i, ps);
      NestedHead(ps, open, true);
      MatchingStep(s, i, ps[0], open, depth);
      MatchingNested(s, i + |PieceText(ps[0])|, ps[1..], After(ps[0], open), depth);
    }
  }

  /** An opening brace is matched with the closing brace it was written with. */
  lemma MatchingBraced(s: string, i: nat, ps: seq<Piece>)
    requires Clean(ps) && Nested(ps, "", true) && At(s, i, Text(Braced(ps)))
    ensures Matching(s, i, 0) == i + |Text(Braced(ps))|
    ensures At(s, i + 1, Text(ps)) && |Text(Braced(ps))| == |Text(ps)| + 2
    ensures i + 1 + |Text(ps)| < |s| && s[i] == '{' && s[i + 1 + |Text(ps)|] == '}'
  {
    hide At, Clean, Nested, Text, Matching, Braced;
    BracedText(ps);
    var x := Text(ps);
    assert "{" + x + "}" == "{" + (x + "}");
    AtSplit(s, i, "{", x + "}");
    AtIndex(s, i, "{", 0);
    AtSplit(s, i + 1, x, "}");
    AtIndex(s, i + 1 + |x|, "}", 0);
    OpenMatches(s, i);
    MatchingNested(s, i + 1, ps, "", 1);
    CloseMatches(s, i + 1 + |x|);
  }

  lemma OpenMatches(s: string, i: nat)
    requires i < |s| && s[i] == '{'
    ensures Matching(s, i, 0) == Matching(s, i + 1, 1)
  {
  }

  lemma CloseMatches(s: string, i: nat)
    requires i < |s| && s[i] == '}'
    ensures Matching(s, i, 1) == i + 1
  {
  }
}
