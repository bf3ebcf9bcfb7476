/**
  Fields as they are written between commas, each after white space and comments, and perhaps
  with a comma after the last one: splitting gives exactly their spans back.
 */
module SourceFields {
  import opened SourceScanner
  import opened SourceText

  lemma {:induction false} FieldsTrivia(s: string, i: nat, end: nat, depth: int, f0: nat)
    requires f0 <= i <= |s| && end <= |s|
    ensures Trivia(s, i) <= |s| && Fields(s, i, end, depth, f0) == Fields(s, Trivia(s, i), end, depth, f0)
    decreases |s| - i
  {
    if i >= end {
      hide Trivia;
      FieldsEnd(s, i, end, depth, f0);
      FieldsEnd(s, Trivia(s, i), end, depth, f0);
    } else if IsBlank(s[i]) {
      assert !IsComment(s, i) && !IsOpen(s[i]) && !IsClose(s[i]) && s[i] != '"' && s[i] != ',';
      BlankSkipped(s, i);
      hide Trivia;
      FieldsOther(s, i, end, depth, f0);
      FieldsTrivia(s, i + 1, end, depth, f0);
    } else if IsComment(s, i) {
      hide Fields;
      FieldsComment(s, i, end, depth, f0);
    }
  }

  lemma FieldsStep(s: string, i: nat, end: nat, p: Piece, open: string, f0: nat)
    requires At(s, i, PieceText(p)) && CleanPiece(p) && Fits(p, open) && (p == Plain(',') ==> open != "")
    requires f0 <= i && i + |PieceText(p)| <= end <= |s|
    ensures Fields(s, i, end, |open|, f0) == Fields(s, i + |PieceText(p)|, end, |After(p, open)|, f0)
  {
    if IsRemark(p) {
      hide At, PieceText, CleanPiece, Fields, Trivia;
      RemarkSkipped(s, i, p);
      FieldsTrivia(s, i, end, |open|, f0);
      FieldsTrivia(s, i + |PieceText(p)|, end, |open|, f0);
    } else {
      hide At, PieceText, StringEnd, IsComment, Trivia, CommentEnd, Fields, CleanPiece;
      PieceAt(s, i, p);
      if p.Plain? { BracketsAre(p.c); }
      if p.Quoted? {
        FieldsString(s, i, end, |open|, f0);
      } else {
        FieldsOther(s, i, end, |open|, f0);
      }
    }
  }

  lemma {:induction false} FieldsNested(s: string, i: nat, end: nat, ps: seq<Piece>, open: string, f0: nat)
    requires Clean(ps) && Nested(ps, open, false) && At(s, i, Text(ps))
    requires f0 <= i && i + |Text(ps)| <= end <= |s|
    ensures Fields(s, i, end, |open|, f0) == Fields(s, i + |Text(ps)|, end, 0, f0)
    decreases |ps|
  {
    hide *;
    if ps == [] {
      NothingNested(s, i, open, false);
    } else {
      TextHead(s, i, ps);
      NestedHead(ps, open, false);
      FieldsStep(s, i, end, ps[0], open, f0);
      FieldsNested(s, i + |PieceText(ps[0])|, end, ps[1..], After(ps[0], open), f0);
    }
  }

  // ------------------------------------------------------------------ joining

  /** A field: white space and comments, and then its own pieces. */
  datatype Field = Field(gap: seq<Piece>, body: seq<Piece>)

  /** Clean, nested, no comma of its own, and it starts with a visible character or a literal. */
  predicate IsBody(ps: seq<Piece>) {
    && Clean(ps) && Nested(ps, "", false)
    && ps != [] && !IsRemark(ps[0]) && (ps[0].Plain? ==> !IsSpace(ps[0].c))
  }

  predicate IsField(f: Field) { IsGap(f.gap) && IsBody(f.body) }

  predicate AreFields(fields: seq<Field>) {
    forall k :: 0 <= k < |fields| ==> IsField(fields[k])
  }

  function Pieces(f: Field): seq<Piece> { f.gap + f.body }

  function FieldText(f: Field): string { Text(f.gap) + Text(f.body) }

  /** What may stand before the closing brace: nothing, or a comma and white space. */
  predicate IsClosing(close: string) {
    close != "" ==> close[0] == ',' && forall k :: 1 <= k < |close| ==> close[k] in BLANKS
  }

  function Tail(fields: seq<Field>): seq<Piece> {
    if fields == [] then [] else [Plain(',')] + (Pieces(fields[0]) + Tail(fields[1..]))
  }

  function Joined(fields: seq<Field>, close: string): seq<Piece> {
    if fields == [] then [] else Pieces(fields[0]) + (Tail(fields[1..]) + Plainly(close))
  }

  lemma GapNested(gap: seq<Piece>)
    requires IsGap(gap)
    ensures Clean(gap) && Nested(gap, "", false)
  {
    NestedFlat(gap);
  }

  lemma CleanConcat(a: seq<Piece>, b: seq<Piece>)
    requires Clean(a) && Clean(b)
    ensures Clean(a + b)
  {
    hide CleanPiece;
  }

  lemma PiecesNested(f: Field)
    requires IsField(f)
    ensures Clean(Pieces(f)) && Nested(Pieces(f), "", false) && Text(Pieces(f)) == FieldText(f)
  {
    hide Clean, Nested, IsGap, Text;
    GapNested(f.gap);
    CleanConcat(f.gap, f.body);
    NestedConcat(f.gap, f.body, "", false);
    TextConcat(f.gap, f.body);
  }

  lemma CommaNested(ps: seq<Piece>)
    requires Clean(ps) && Nested(ps, "", true)
    ensures Clean([Plain(',')] + ps) && Nested([Plain(',')] + ps, "", true)
  {
    var all := [Plain(',')] + ps;
    assert all[1..] == ps && all[0] == Plain(',');
  }

  lemma {:induction false} TailNested(fields: seq<Field>)
    requires AreFields(fields)
    ensures Clean(Tail(fields)) && Nested(Tail(fields), "", true)
  {
    if fields != [] {
      assert IsField(fields[0]);
      var f, rest := fields[0], fields[1..];
      hide IsField, Clean, Nested, Pieces;
      TailNested(rest);
      PiecesNested(f);
      NestedWeaken(Pieces(f), "");
      CleanConcat(Pieces(f), Tail(rest));
      NestedConcat(Pieces(f), Tail(rest), "", true);
      CommaNested(Pieces(f) + Tail(rest));
    } else {
      NothingClean();
    }
  }

  lemma NothingClean()
    ensures Clean([]) && Nested([], "", true)
  {
  }

  lemma ClosingNested(close: string)
    requires IsClosing(close)
    ensures Clean(Plainly(close)) && Nested(Plainly(close), "", true)
  {
    if close != "" {
      assert Plainly(close) == [Plain(',')] + Plainly(close[1..]);
      assert forall k :: 0 <= k < |close| - 1 ==> IsBlank(close[1..][k]);
      NestedFlat(Plainly(close[1..]));
      NestedWeaken(Plainly(close[1..]), "");
      CommaNested(Plainly(close[1..]));
    }
  }

  lemma JoinedNested(fields: seq<Field>, close: string)
    requires AreFields(fields) && IsClosing(close)
    ensures Clean(Joined(fields, close)) && Nested(Joined(fields, close), "", true)
  {
    if fields != [] {
      assert IsField(fields[0]);
      var f, rest, last := fields[0], Tail(fields[1..]), Plainly(close);
      TailNested(fields[1..]);
      hide IsField, Clean, Nested, Pieces, IsClosing, Plainly, Tail;
      ClosingNested(close);
      PiecesNested(f);
      NestedWeaken(Pieces(f), "");
      CleanConcat(rest, last);
      NestedConcat(rest, last, "", true);
      CleanConcat(Pieces(f), rest + last);
      NestedConcat(Pieces(f), rest + last, "", true);
    }
  }

  lemma TailText(fields: seq<Field>)
    requires fields != []
    ensures Text(Tail(fields)) == "," + (FieldText(fields[0]) + Text(Tail(fields[1..])))
  {
    var f, rest := fields[0], Tail(fields[1..]);
    assert Tail(fields) == [Plain(',')] + (Pieces(f) + rest);
    TextOne(Plain(','));
    hide Text;
    TextConcat([Plain(',')], Pieces(f) + rest);
    TextConcat(Pieces(f), rest);
    TextConcat(f.gap, f.body);
  }

  /** The spans of fields written after one another from a comma at i. */
  function TailSpans(i: nat, fields: seq<Field>): (spans: seq<Span>)
    ensures |spans| == |fields|
    decreases |fields|
  {
    if fields == [] then []
    else
      var end := i + 1 + |FieldText(fields[0])|;
      [Span(i + 1, end)] + TailSpans(end, fields[1..])
  }

  function JoinedSpans(i: nat, fields: seq<Field>): (spans: seq<Span>)
    ensures |spans| == |fields|
  {
    if fields == [] then []
    else
      var end := i + |FieldText(fields[0])|;
      [Span(i, end)] + TailSpans(end, fields[1..])
  }

  lemma BodyVisible(s: string, i: nat, ps: seq<Piece>)
    requires IsBody(ps) && At(s, i, Text(ps))
    ensures i < |s| && !IsSpace(s[i]) && s[i] != '/' && i < i + |Text(ps)| <= |s|
    ensures ps[0].Plain? ==> s[i] == ps[0].c
    ensures ps[0].Quoted? ==> s[i] == '"'
  {
    AtIndex(s, i, Text(ps), 0);
    assert Text(ps)[0] == PieceText(ps[0])[0];
    if ps[0].Plain? { assert CleanPiece(ps[0]); }
  }

  /** A field's gap and its body, one after the other. */
  lemma FieldAt(s: string, i: nat, f: Field)
    requires At(s, i, FieldText(f))
    ensures At(s, i, Text(f.gap)) && At(s, i + |Text(f.gap)|, Text(f.body))
    ensures i + |FieldText(f)| == i + |Text(f.gap)| + |Text(f.body)| <= |s|
  {
    hide At, Text;
    AtSplit(s, i, Text(f.gap), Text(f.body));
    AtEnd(s, i, FieldText(f));
  }

  predicate Visible(s: string, lo: nat, hi: nat)
    requires lo <= hi <= |s|
  {
    exists k :: lo <= k < hi && !IsSpace(s[k])
  }

  lemma VisibleField(s: string, i: nat, f: Field)
    requires IsField(f) && At(s, i, FieldText(f))
    ensures i + |FieldText(f)| <= |s| && |FieldText(f)| > 0 && Visible(s, i, i + |FieldText(f)|)
  {
    hide At, Text, IsBody, FieldText, IsSpace;
    FieldAt(s, i, f);
    BodyVisible(s, i + |Text(f.gap)|, f.body);
  }

  lemma LastField(s: string, end: nat, f0: nat)
    requires f0 <= end <= |s| && Visible(s, f0, end)
    ensures Fields(s, end, end, 0, f0) == [Span(f0, end)]
  {
    var k :| f0 <= k < end && !IsSpace(s[k]);
    assert Slice(s, f0, end)[k - f0] == s[k];
  }

  lemma {:induction false} BlankDropped(s: string, i: nat, end: nat, f0: nat)
    requires f0 <= i <= end <= |s| && forall k :: f0 <= k < end ==> IsBlank(s[k])
    ensures Fields(s, i, end, 0, f0) == []
    decreases end - i
  {
    if i < end {
      assert IsBlank(s[i]) && !IsComment(s, i);
      FieldsOther(s, i, end, 0, f0);
      hide Fields;
      BlankDropped(s, i + 1, end, f0);
    } else {
      assert forall k :: 0 <= k < end - f0 ==> IsBlank(s[f0..end][k]) && IsSpace(s[f0..end][k]);
      FieldsEnd(s, i, end, 0, f0);
    }
  }

  /** A comma before the closing brace opens no field. */
  lemma ClosingDropped(s: string, i: nat, end: nat, f0: nat, close: string)
    requires IsClosing(close) && At(s, i, close) && f0 <= i && i + |close| == end <= |s| && Visible(s, f0, i)
    ensures Fields(s, i, end, 0, f0) == [Span(f0, i)]
  {
    hide Fields, IsSpace, Visible;
    if close == "" {
      LastField(s, end, f0);
    } else {
      forall k | i <= k < end
        ensures s[k] == close[k - i]
      {
        AtIndex(s, i, close, k - i);
      }
      FieldsComma(s, i, end, f0);
      BlankDropped(s, i + 1, end, i + 1);
    }
  }

  lemma NoTail(i: nat)
    ensures Text(Tail([])) == "" && TailSpans(i, []) == []
  {
  }

  lemma TailSpansHead(i: nat, fields: seq<Field>)
    requires fields != []
    ensures TailSpans(i, fields)
         == [Span(i + 1, i + 1 + |FieldText(fields[0])|)] + TailSpans(i + 1 + |FieldText(fields[0])|, fields[1..])
  {
  }

  lemma FieldsHead(fields: seq<Field>)
    requires AreFields(fields) && fields != []
    ensures IsField(fields[0]) && AreFields(fields[1..])
  {
  }

  /** The first field after a comma, and the ones behind it. */
  lemma TailHead(s: string, i: nat, fields: seq<Field>)
    requires At(s, i, Text(Tail(fields))) && fields != []
    ensures var end := i + 1 + |FieldText(fields[0])|;
      && end <= |s| && s[i] == ',' && At(s, i + 1, FieldText(fields[0])) && At(s, end, Text(Tail(fields[1..])))
      && end + |Text(Tail(fields[1..]))| == i + |Text(Tail(fields))|
  {
    hide *;
    var x, rest := FieldText(fields[0]), Text(Tail(fields[1..]));
    TailText(fields);
    AtSplit(s, i, ",", x + rest);
    AtIndex(s, i, ",", 0);
    AtSplit(s, i + 1, x, rest);
    AtEnd(s, i + 1, x);
  }

  /** The pieces of one field are passed without leaving it. */
  lemma FieldPassed(s: string, i: nat, end: nat, f: Field)
    requires IsField(f) && At(s, i, FieldText(f)) && i + |FieldText(f)| <= end <= |s|
    ensures Fields(s, i, end, 0, i) == Fields(s, i + |FieldText(f)|, end, 0, i)
  {
    hide *;
    PiecesNested(f);
    FieldsNested(s, i, end, Pieces(f), "", i);
    assert |""| == 0;
  }

  lemma {:induction false} FieldsTail(s: string, i: nat, end: nat, fields: seq<Field>, close: string, f0: nat)
    requires AreFields(fields) && At(s, i, Text(Tail(fields)))
    requires IsClosing(close) && At(s, i + |Text(Tail(fields))|, close)
    requires f0 < i && i + |Text(Tail(fields))| + |close| == end <= |s|
    requires Visible(s, f0, i)
    ensures Fields(s, i, end, 0, f0) == [Span(f0, i)] + TailSpans(i, fields)
    decreases |fields|
  {
    hide *;
    if fields == [] {
      NoTail(i);
      ClosingDropped(s, i, end, f0, close);
    } else {
      var at := i + 1 + |FieldText(fields[0])|;
      TailSpansHead(i, fields);
      FieldsHead(fields);
      TailHead(s, i, fields);
      VisibleField(s, i + 1, fields[0]);
      FieldsComma(s, i, end, f0);
      FieldPassed(s, i + 1, end, fields[0]);
      FieldsTail(s, at, end, fields[1..], close, i + 1);
    }
  }

  lemma NothingJoined(s: string, i: nat, close: string)
    requires At(s, i, Text(Joined([], close)))
    ensures Text(Joined([], close)) == "" && JoinedSpans(i, []) == []
    ensures i <= |s| && Fields(s, i, i, 0, i) == []
  {
  }

  lemma JoinedHead(i: nat, fields: seq<Field>)
    requires fields != []
    ensures JoinedSpans(i, fields)
         == [Span(i, i + |FieldText(fields[0])|)] + TailSpans(i + |FieldText(fields[0])|, fields[1..])
  {
  }

  lemma JoinedText(fields: seq<Field>, close: string)
    requires fields != []
    ensures Text(Joined(fields, close)) == FieldText(fields[0]) + (Text(Tail(fields[1..])) + close)
  {
    var f, rest := fields[0], Tail(fields[1..]);
    assert Joined(fields, close) == Pieces(f) + (rest + Plainly(close));
    hide Text, Plainly, Tail;
    TextConcat(Pieces(f), rest + Plainly(close));
    TextConcat(rest, Plainly(close));
    TextConcat(f.gap, f.body);
    TextPlainly(close);
  }

  /** The joined fields in a text: the first one, the tail, and what closes them. */
  lemma JoinedAt(s: string, i: nat, fields: seq<Field>, close: string)
    requires fields != [] && At(s, i, Text(Joined(fields, close)))
    ensures var at := i + |FieldText(fields[0])|;
      && At(s, i, FieldText(fields[0])) && At(s, at, Text(Tail(fields[1..])))
      && At(s, at + |Text(Tail(fields[1..]))|, close)
      && at <= at + |Text(Tail(fields[1..]))| + |close| == i + |Text(Joined(fields, close))| <= |s|
  {
    hide *;
    var x, rest := FieldText(fields[0]), Text(Tail(fields[1..]));
    JoinedText(fields, close);
    AtSplit(s, i, x, rest + close);
    AtSplit(s, i + |x|, rest, close);
    AtEnd(s, i + |x| + |rest|, close);
  }

  /** Splitting the joined fields gives each of them back. */
  lemma FieldsJoined(s: string, i: nat, fields: seq<Field>, close: string)
    requires AreFields(fields) && IsClosing(close) && At(s, i, Text(Joined(fields, close)))
    ensures i + |Text(Joined(fields, close))| <= |s|
    ensures Fields(s, i, i + |Text(Joined(fields, close))|, 0, i) == JoinedSpans(i, fields)
  {
    hide *;
    if fields == [] {
      NothingJoined(s, i, close);
    } else {
      var at, end := i + |FieldText(fields[0])|, i + |Text(Joined(fields, close))|;
      JoinedHead(i, fields);
      FieldsHead(fields);
      JoinedAt(s, i, fields, close);
      FieldPassed(s, i, end, fields[0]);
      VisibleField(s, i, fields[0]);
      FieldsTail(s, at, end, fields[1..], close, i);
    }
  }

}
