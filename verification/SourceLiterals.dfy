/**
  What the literals of a span denote: the escapes, adjacent literals put together, and the one
  thing that is read as a literal and is none.
 */
module SourceLiterals {
  import opened SourceScanner
  import opened SourceText
  import opened Wrappers

  /** The letters that stand for a control character after a backslash, and those characters. */
  const LETTERS := "ntr0"
  const CONTROLS := "\n\t\r\0"

  /** An escape denotes its control character, or the character after the backslash itself. */
  lemma EscapeDenotes(c: char, rest: string, k: nat)
    requires k < |LETTERS|
    ensures Unescape("\\" + [LETTERS[k]] + rest) == [CONTROLS[k]] + Unescape(rest)
    ensures c !in LETTERS ==> Unescape("\\" + [c] + rest) == [c] + Unescape(rest)
  {
    forall x: char
      ensures Unescape("\\" + [x] + rest) == [EscapedChar(x)] + Unescape(rest)
    {
      assert ("\\" + [x] + rest)[2..] == rest;
    }
    hide Unescape;
    assert LETTERS[0] == 'n' && LETTERS[1] == 't' && LETTERS[2] == 'r' && LETTERS[3] == '0';
  }

  /** A backslash at the very end of a text stands for itself. */
  lemma LastBackslash()
    ensures Unescape("\\") == "\\"
  {
    assert Unescape("") == "";
  }

  // ------------------------------------------------------------ adjacent literals

  /** The values of the literals among the pieces. */
  function Values(ps: seq<Piece>): string {
    if ps == [] then "" else (if ps[0].Quoted? then ps[0].value else "") + Values(ps[1..])
  }

  /** No quote outside the literals, comments included. */
  predicate Quiet(p: Piece) {
    p.Quoted? || '"' !in PieceText(p)
  }

  lemma {:induction false} NoLiteral(s: string, i: nat, end: nat, b: nat)
    requires i <= end <= b <= |s| && forall k :: i <= k < end ==> s[k] != '"'
    ensures Literals(s, i, b) == Literals(s, end, b)
    decreases end - i
  {
    if i < end { NoLiteral(s, i + 1, end, b); }
  }

  lemma PieceRead(s: string, i: nat, p: Piece, b: nat)
    requires At(s, i, PieceText(p)) && Quiet(p) && i + |PieceText(p)| <= b <= |s|
    ensures Literals(s, i, b) == (if p.Quoted? then p.value else "") + Literals(s, i + |PieceText(p)|, b)
  {
    hide At, PieceText, Unescape, Escape, StringEnd, Slice;
    if p.Quoted? {
      QuotedEnds(s, i, p.value);
      UnescapeEscape(p.value);
    } else {
      forall k | i <= k < i + |PieceText(p)|
        ensures s[k] != '"'
      {
        AtIndex(s, i, PieceText(p), k - i);
      }
      NoLiteral(s, i, i + |PieceText(p)|, b);
    }
  }

  predicate AllQuiet(ps: seq<Piece>) { forall k :: 0 <= k < |ps| ==> Quiet(ps[k]) }

  lemma QuietHead(s: string, i: nat, ps: seq<Piece>)
    requires ps != [] && AllQuiet(ps) && At(s, i, Text(ps))
    ensures At(s, i, PieceText(ps[0])) && At(s, i + |PieceText(ps[0])|, Text(ps[1..]))
    ensures |Text(ps)| == |PieceText(ps[0])| + |Text(ps[1..])| && i + |Text(ps)| <= |s|
    ensures Quiet(ps[0]) && AllQuiet(ps[1..])
    ensures Values(ps) == (if ps[0].Quoted? then ps[0].value else "") + Values(ps[1..])
  {
    hide At, PieceText, Quiet;
    AtSplit(s, i, PieceText(ps[0]), Text(ps[1..]));
    AtEnd(s, i, Text(ps));
  }

  lemma NothingWritten(s: string, b: nat)
    requires At(s, b, Text([]))
    ensures Text([]) == "" && b <= |s| && Literals(s, b, b) == Values([]) == ""
  {
  }

  /** Literals one after another, with anything but quotes between them, denote their values put together. */
  lemma {:induction false} LiteralsWritten(s: string, i: nat, ps: seq<Piece>)
    requires At(s, i, Text(ps)) && AllQuiet(ps)
    ensures i + |Text(ps)| <= |s| && Literals(s, i, i + |Text(ps)|) == Values(ps)
    decreases |ps|
  {
    hide *;
    if ps == [] {
      NothingWritten(s, i);
    } else {
      QuietHead(s, i, ps);
      PieceRead(s, i, ps[0], i + |Text(ps)|);
      LiteralsWritten(s, i + |PieceText(ps[0])|, ps[1..]);
    }
  }

  const BEFORE: seq<Piece> := [Plain('/'), Plain('*')]
  const AFTER: seq<Piece> := [Plain('*'), Plain('/')]

  /** What a reader that takes the comment's signs for plain characters sees. */
  function Seen(x: string, y: string): seq<Piece> { BEFORE + ([Quoted(x)] + (AFTER + [Quoted(y)])) }

  /** Comments are not skipped: a literal spelled in one is read with the rest. */
  lemma CommentRead(x: string, y: string)
    ensures var ps := [BlockComment(PieceText(Quoted(x))), Quoted(y)];
      Values(ps) == y && Literals(Text(ps), 0, |Text(ps)|) == x + y
  {
    hide *;
    var s := Text(Seen(x, y));
    SameText(x, y);
    WholeText(s);
    SeenQuiet(x, y);
    LiteralsWritten(s, 0, Seen(x, y));
    ValuesSeen(x, y);
  }

  lemma WholeText(s: string)
    ensures At(s, 0, s)
  {
  }

  lemma SeenQuiet(x: string, y: string)
    ensures AllQuiet(Seen(x, y))
  {
    hide Escape;
  }

  lemma SignsText()
    ensures Text(BEFORE) == "/*" && Text(AFTER) == "*/"
  {
    assert BEFORE[1..] == [Plain('*')] && [Plain('*')][1..] == [];
    assert AFTER[1..] == [Plain('/')] && [Plain('/')][1..] == [];
  }

  lemma SameText(x: string, y: string)
    ensures Text([BlockComment(PieceText(Quoted(x))), Quoted(y)]) == Text(Seen(x, y))
  {
    var q, r := PieceText(Quoted(x)), PieceText(Quoted(y));
    CommentText(q, Quoted(y));
    SignsText();
    hide Text, PieceText, BEFORE, AFTER;
    TextOne(Quoted(x));
    TextOne(Quoted(y));
    TextConcat(AFTER, [Quoted(y)]);
    TextConcat([Quoted(x)], AFTER + [Quoted(y)]);
    TextConcat(BEFORE, [Quoted(x)] + (AFTER + [Quoted(y)]));
    assert "/*" + (q + ("*/" + r)) == "/*" + q + "*/" + r;
  }

  lemma CommentText(text: string, p: Piece)
    ensures Text([BlockComment(text), p]) == "/*" + text + "*/" + PieceText(p)
  {
    TextOne(p);
    assert [BlockComment(text), p][1..] == [p];
    assert PieceText(BlockComment(text)) == "/*" + text + "*/";
    hide PieceText;
  }

  lemma {:induction false} ValuesConcat(a: seq<Piece>, b: seq<Piece>)
    ensures Values(a + b) == Values(a) + Values(b)
  {
    if a == [] {
      assert a + b == b;
    } else {
      assert (a + b)[1..] == a[1..] + b && (a + b)[0] == a[0];
      ValuesConcat(a[1..], b);
    }
  }

  lemma ValuesOne(x: string)
    ensures Values([Quoted(x)]) == x
    ensures Values(BEFORE) == Values(AFTER) == ""
    ensures forall text :: Values([BlockComment(text)]) == ""
  {
    assert [Quoted(x)][1..] == [];
    assert BEFORE[1..] == [Plain('*')] && [Plain('*')][1..] == [];
    assert AFTER[1..] == [Plain('/')] && [Plain('/')][1..] == [];
    forall text
      ensures Values([BlockComment(text)]) == ""
    {
      assert [BlockComment(text)][1..] == [];
    }
  }

  lemma ValuesSeen(x: string, y: string)
    ensures Values(Seen(x, y)) == x + y
    ensures Values([BlockComment(PieceText(Quoted(x))), Quoted(y)]) == y
  {
    hide PieceText;
    var comment := [BlockComment(PieceText(Quoted(x)))];
    ValuesOne(x);
    ValuesOne(y);
    hide Values, BEFORE, AFTER;
    ValuesConcat(AFTER, [Quoted(y)]);
    ValuesConcat([Quoted(x)], AFTER + [Quoted(y)]);
    ValuesConcat(BEFORE, [Quoted(x)] + (AFTER + [Quoted(y)]));
    assert comment + [Quoted(y)] == [BlockComment(PieceText(Quoted(x))), Quoted(y)];
    ValuesConcat(comment, [Quoted(y)]);
  }
}
