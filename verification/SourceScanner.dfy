/**
  Scanning C++ source text: string literals, comments, matching brackets, and the
  comma-separated fields of a bracket group.
 */
module SourceScanner {
  import opened Wrappers

  /** Does x occur in s at i? */
  predicate At(s: string, i: nat, x: string) {
    i + |x| <= |s| && s[i..i + |x|] == x
  }

  function Slice(s: string, lo: nat, hi: nat): (r: string)
    ensures lo <= hi <= |s| ==> r == s[lo..hi]
  {
    var end := if hi < |s| then hi else |s|;
    if lo < end then s[lo..end] else ""
  }

  /** The least position at or after i where x occurs. */
  function IndexOf(s: string, x: string, i: nat): (p: Option<nat>)
    requires x != ""
    ensures p.Some? ==> i <= p.value && At(s, p.value, x) && forall k :: i <= k < p.value ==> !At(s, k, x)
    ensures p.None? ==> forall k :: i <= k ==> !At(s, k, x)
    decreases |s| - i
  {
    if i >= |s| then None
    else if At(s, i, x) then Some(i)
    else IndexOf(s, x, i + 1)
  }

  // ------------------------------------------------------ literals and comments

  /** From i inside a literal, the index past its closing quote; past the end if there is none. */
  function StringEnd(s: string, i: nat): (j: nat)
    requires i <= |s| + 1
    ensures i <= j <= |s| + 1
    decreases |s| + 2 - i
  {
    if i >= |s| then i
    else if s[i] == '\\' then StringEnd(s, i + 2)
    else if s[i] == '"' then i + 1
    else StringEnd(s, i + 1)
  }

  method SkipString(s: string, start: nat) returns (i: nat)
    requires start < |s|
    ensures i == StringEnd(s, start + 1)
  {
    i := start + 1;
    while i < |s|
      invariant start + 1 <= i <= |s| + 1
      invariant StringEnd(s, i) == StringEnd(s, start + 1)
      decreases |s| + 1 - i
    {
      if s[i] == '\\' { i := i + 2; continue; }
      if s[i] == '"' { return i + 1; }
      i := i + 1;
    }
  }

  predicate IsComment(s: string, i: nat) {
    i + 1 < |s| && s[i] == '/' && (s[i + 1] == '/' || s[i + 1] == '*')
  }

  /** The search for the end of a block comment starts at its opening slash. */
  function CommentEnd(s: string, i: nat): (j: nat)
    requires IsComment(s, i)
    ensures i < j <= |s|
  {
    if s[i + 1] == '/' then
      var p := IndexOf(s, "\n", i);
      if p.None? then |s| else
        assert p.value != i by { assert s[i..i + 1][0] == '/'; }
        p.value
    else
      var p := IndexOf(s, "*/", i);
      if p.None? then |s| else p.value + 2
  }

  /** Where C++ ends the block comment at i: its search starts behind the opening pair. */
  function BlockEnd(s: string, i: nat): (j: nat)
    requires IsComment(s, i) && s[i + 1] == '*'
    ensures j <= |s|
  {
    var p := IndexOf(s, "*/", i + 2);
    if p.None? then |s| else p.value + 2
  }

  /**
    The scanner ends a block comment where C++ does exactly when it does not open with a slash
    right behind its star, or when nothing follows that slash.
   */
  lemma BlockCommentEnds(s: string, i: nat)
    requires IsComment(s, i) && s[i + 1] == '*'
    ensures CommentEnd(s, i) == BlockEnd(s, i) <==> (i + 2 < |s| && s[i + 2] == '/' ==> |s| == i + 3)
  {
    assert !At(s, i, "*/") by { assert s[i..i + 1][0] == '/'; }
    assert IndexOf(s, "*/", i) == IndexOf(s, "*/", i + 1);
    if i + 2 < |s| && s[i + 2] == '/' {
      assert s[i + 1..i + 3] == "*/";
      assert CommentEnd(s, i) == i + 3;
      assert BlockEnd(s, i) > i + 3 || |s| == i + 3;
    } else {
      assert !At(s, i + 1, "*/") by {
        if i + 3 <= |s| { assert s[i + 1..i + 3][1] == s[i + 2]; }
      }
      assert IndexOf(s, "*/", i + 1) == IndexOf(s, "*/", i + 2);
    }
  }

  /** The least such text: the scanner is past the slash, C++ is still in the comment. */
  lemma BlockCommentExample()
    ensures IsComment("/*/x", 0) && CommentEnd("/*/x", 0) == 3 && BlockEnd("/*/x", 0) == 4
  {
    var s := "/*/x";
    BlockCommentEnds(s, 0);
    assert At(s, 1, "*/") && !At(s, 0, "*/") by { assert s[1..3] == "*/" && s[0..2][0] == '/'; }
    assert IndexOf(s, "*/", 0) == Some(1);
    assert !At(s, 2, "*/") by { assert s[2..4][0] == '/'; }
    assert !At(s, 3, "*/");
    assert IndexOf(s, "*/", 2).None?;
  }

  predicate IsBlank(c: char) { c == ' ' || c == '\t' || c == '\r' || c == '\n' }

  function Trivia(s: string, i: nat): (j: nat)
    ensures i <= j
    ensures i <= |s| ==> j <= |s|
    decreases |s| - i
  {
    if i >= |s| then i
    else if IsBlank(s[i]) then Trivia(s, i + 1)
    else if IsComment(s, i) then Trivia(s, CommentEnd(s, i))
    else i
  }

  method SkipTrivia(s: string, start: nat) returns (i: nat)
    ensures i == Trivia(s, start)
  {
    i := start;
    while i < |s|
      invariant start <= i
      invariant Trivia(s, i) == Trivia(s, start)
    {
      if IsBlank(s[i]) {
        i := i + 1;
      } else if IsComment(s, i) {
        i := CommentEnd(s, i);
      } else {
        return;
      }
    }
  }

  // ------------------------------------------------------------------ brackets

  predicate IsOpen(c: char) { c == '(' || c == '{' || c == '[' }

  predicate IsClose(c: char) { c == ')' || c == '}' || c == ']' }

  /** The index past the closer that brings depth to zero; past the end if none does. */
  function Matching(s: string, i: nat, depth: int): (j: nat)
    requires i <= |s| + 1
    ensures i <= j <= |s| + 1
    ensures i < |s| ==> i < j
    decreases |s| + 1 - i
  {
    if i >= |s| then i
    else if s[i] == '"' then Matching(s, StringEnd(s, i + 1), depth)
    else if IsComment(s, i) then Matching(s, Trivia(s, CommentEnd(s, i)), depth)
    else if IsOpen(s[i]) then Matching(s, i + 1, depth + 1)
    else if IsClose(s[i]) then (if depth == 1 then i + 1 else Matching(s, i + 1, depth - 1))
    else Matching(s, i + 1, depth)
  }

  method FindMatching(s: string, start: nat) returns (i: nat)
    requires start <= |s|
    ensures i == Matching(s, start, 0)
  {
    i := start;
    var depth: int := 0;
    while i < |s|
      invariant start <= i <= |s| + 1
      invariant Matching(s, i, depth) == Matching(s, start, 0)
      decreases |s| + 1 - i
    {
      var c := s[i];
      if c == '"' { i := SkipString(s, i); continue; }
      if IsComment(s, i) { i := SkipTrivia(s, i); continue; }
      if IsOpen(c) {
        depth := depth + 1;
      } else if IsClose(c) {
        depth := depth - 1;
        if depth == 0 { return i + 1; }
      }
      i := i + 1;
    }
  }

  // -------------------------------------------------------------------- fields

  datatype Span = Span(lo: nat, hi: nat)

  /** Python's white space. */
  predicate IsSpace(ch: char) {
    var c := ch as int;
    || 0x09 <= c <= 0x0d || 0x1c <= c <= 0x20 || c == 0x85 || c == 0xa0 || c == 0x1680
    || 0x2000 <= c <= 0x200a || c == 0x2028 || c == 0x2029 || c == 0x202f || c == 0x205f || c == 0x3000
  }

  /** The same, character by character. */
  const SPACES: string := "\U{0009}\U{000A}\U{000B}\U{000C}\U{000D}\U{001C}\U{001D}\U{001E}\U{001F}\U{0020}"
    + "\U{0085}\U{00A0}\U{1680}\U{2000}\U{2001}\U{2002}\U{2003}\U{2004}\U{2005}\U{2006}\U{2007}\U{2008}\U{2009}"
    + "\U{200A}\U{2028}\U{2029}\U{202F}\U{205F}\U{3000}"

  lemma SpacesAre(c: char)
    ensures IsSpace(c) <==> c in SPACES
  {
  }

  predicate AllSpace(x: string) { forall k :: 0 <= k < |x| ==> IsSpace(x[k]) }

  /** The fields still to come when the scan is at i, at this depth, in a field that began at f0. */
  function Fields(s: string, i: nat, end: nat, depth: int, f0: nat): (spans: seq<Span>)
    requires f0 <= i <= |s| + 1 && end <= |s|
    ensures forall k :: 0 <= k < |spans| ==> spans[k].lo <= spans[k].hi <= end
    decreases |s| + 1 - i
  {
    if i >= end then (if AllSpace(Slice(s, f0, end)) then [] else [Span(f0, end)])
    else if s[i] == '"' then Fields(s, StringEnd(s, i + 1), end, depth, f0)
    else if IsComment(s, i) then Fields(s, Trivia(s, CommentEnd(s, i)), end, depth, f0)
    else if IsOpen(s[i]) then Fields(s, i + 1, end, depth + 1, f0)
    else if IsClose(s[i]) then Fields(s, i + 1, end, depth - 1, f0)
    else if s[i] == ',' && depth == 0 then [Span(f0, i)] + Fields(s, i + 1, end, depth, i + 1)
    else Fields(s, i + 1, end, depth, f0)
  }

  // One round of the loop, by the character it finds.

  lemma FieldsString(s: string, i: nat, end: nat, depth: int, f0: nat)
    requires f0 <= i < end <= |s| && s[i] == '"'
    ensures Fields(s, i, end, depth, f0) == Fields(s, StringEnd(s, i + 1), end, depth, f0)
  {
  }

  lemma FieldsComment(s: string, i: nat, end: nat, depth: int, f0: nat)
    requires f0 <= i < end <= |s| && IsComment(s, i)
    ensures i < Trivia(s, i) <= |s| && Fields(s, i, end, depth, f0) == Fields(s, Trivia(s, i), end, depth, f0)
  {
  }

  /** The depth after a character. */
  function DepthPast(c: char, depth: int): int {
    if IsOpen(c) then depth + 1 else if IsClose(c) then depth - 1 else depth
  }

  lemma FieldsComma(s: string, i: nat, end: nat, f0: nat)
    requires f0 <= i < end <= |s| && s[i] == ','
    ensures Fields(s, i, end, 0, f0) == [Span(f0, i)] + Fields(s, i + 1, end, 0, i + 1)
  {
  }

  lemma FieldsOther(s: string, i: nat, end: nat, depth: int, f0: nat)
    requires f0 <= i < end <= |s| && s[i] != '"' && !IsComment(s, i) && (s[i] == ',' ==> depth != 0)
    ensures Fields(s, i, end, depth, f0) == Fields(s, i + 1, end, DepthPast(s[i], depth), f0)
  {
  }

  lemma FieldsEnd(s: string, i: nat, end: nat, depth: int, f0: nat)
    requires f0 <= i <= |s| + 1 && end <= |s| && i >= end
    ensures Fields(s, i, end, depth, f0) == if AllSpace(Slice(s, f0, end)) then [] else [Span(f0, end)]
  {
  }

  method SplitFields(s: string, start: nat, end: nat) returns (fields: seq<Span>)
    requires start <= |s| + 1 && end <= |s|
    ensures fields == Fields(s, start, end, 0, start)
  {
    hide Fields, AllSpace, Slice, StringEnd, Trivia, IsComment;
    fields := [];
    var depth: int, i, f0 := 0, start, start;
    while i < end
      invariant start <= f0 <= i <= |s| + 1
      invariant Fields(s, start, end, 0, start) == fields + Fields(s, i, end, depth, f0)
      decreases |s| + 1 - i
    {
      var c := s[i];
      if c == '"' {
        FieldsString(s, i, end, depth, f0);
        i := SkipString(s, i);
        continue;
      }
      if IsComment(s, i) {
        FieldsComment(s, i, end, depth, f0);
        i := SkipTrivia(s, i);
        continue;
      }
      if c == ',' && depth == 0 { FieldsComma(s, i, end, f0); } else { FieldsOther(s, i, end, depth, f0); }
      if IsOpen(c) {
        depth := depth + 1;
      } else if IsClose(c) {
        depth := depth - 1;
      } else if c == ',' && depth == 0 {
        fields := fields + [Span(f0, i)];
        f0 := i + 1;
      }
      i := i + 1;
    }
    FieldsEnd(s, i, end, depth, f0);
    if !AllSpace(Slice(s, f0, end)) {
      fields := fields + [Span(f0, end)];
    }
  }

  /** The spans run from f0 on, one comma between neighbours; what follows the last is a comma and blanks. */
  predicate Tiles(s: string, spans: seq<Span>, f0: nat, end: nat)
    requires end <= |s|
    decreases |spans|
  {
    if spans == [] then AllSpace(Slice(s, f0, end))
    else
      && spans[0].lo == f0 <= spans[0].hi <= end
      && if spans[0].hi == end then |spans| == 1
         else s[spans[0].hi] == ',' && Tiles(s, spans[1..], spans[0].hi + 1, end)
  }

  lemma TilesOne(s: string, f0: nat, end: nat)
    requires end <= |s|
    ensures Tiles(s, if AllSpace(Slice(s, f0, end)) then [] else [Span(f0, end)], f0, end)
  {
    assert !AllSpace(Slice(s, f0, end)) ==> f0 <= end;
    hide AllSpace, Slice;
  }

  lemma TilesMore(s: string, rest: seq<Span>, f0: nat, i: nat, end: nat)
    requires f0 <= i < end <= |s| && s[i] == ',' && Tiles(s, rest, i + 1, end)
    ensures Tiles(s, [Span(f0, i)] + rest, f0, end)
  {
    assert ([Span(f0, i)] + rest)[1..] == rest;
  }

  /** No text is lost between fields, whatever the source looks like. */
  lemma {:induction false} FieldsTile(s: string, i: nat, end: nat, depth: int, f0: nat)
    requires f0 <= i <= |s| + 1 && end <= |s|
    ensures Tiles(s, Fields(s, i, end, depth, f0), f0, end)
    decreases |s| + 1 - i
  {
    hide Tiles, Fields, AllSpace, Slice, StringEnd, Trivia, IsComment;
    if i >= end {
      FieldsEnd(s, i, end, depth, f0);
      TilesOne(s, f0, end);
    } else if s[i] == '"' {
      FieldsString(s, i, end, depth, f0);
      FieldsTile(s, StringEnd(s, i + 1), end, depth, f0);
    } else if IsComment(s, i) {
      FieldsComment(s, i, end, depth, f0);
      FieldsTile(s, Trivia(s, i), end, depth, f0);
    } else if s[i] == ',' && depth == 0 {
      FieldsComma(s, i, end, f0);
      FieldsTile(s, i + 1, end, depth, i + 1);
      TilesMore(s, Fields(s, i + 1, end, depth, i + 1), f0, i, end);
    } else {
      FieldsOther(s, i, end, depth, f0);
      FieldsTile(s, i + 1, end, DepthPast(s[i], depth), f0);
    }
  }

  // ----------------------------------------------------------- literal contents

  function EscapedChar(c: char): char {
    match c
    case 'n' => '\n'
    case 't' => '\t'
    case 'r' => '\r'
    case '0' => '\0'
    case _ => c
  }

  /** The characters a literal's body denotes. */
  function Unescape(x: string): string {
    if x == "" then ""
    else if x[0] == '\\' && |x| > 1 then [EscapedChar(x[1])] + Unescape(x[2..])
    else [x[0]] + Unescape(x[1..])
  }

  lemma UnescapePair(x: string, i: nat)
    requires i + 1 < |x| && x[i] == '\\'
    ensures Unescape(x[i..]) == [EscapedChar(x[i + 1])] + Unescape(x[i + 2..])
  {
    assert x[i..][2..] == x[i + 2..];
  }

  lemma UnescapeOne(x: string, i: nat)
    requires i < |x| && (x[i] != '\\' || i + 1 == |x|)
    ensures Unescape(x[i..]) == [x[i]] + Unescape(x[i + 1..])
  {
    assert x[i..][1..] == x[i + 1..];
  }

  lemma UnescapeNothing(x: string)
    ensures Unescape(x[|x|..]) == "" && x[0..] == x
  {
  }

  method UnescapeText(x: string) returns (out: string)
    ensures out == Unescape(x)
  {
    hide EscapedChar, Unescape;
    out := "";
    var i := 0;
    UnescapeNothing(x);
    while i < |x|
      invariant 0 <= i <= |x|
      invariant Unescape(x) == out + Unescape(x[i..])
    {
      if x[i] == '\\' && i + 1 < |x| {
        UnescapePair(x, i);
        out := out + [EscapedChar(x[i + 1])];
        i := i + 2;
      } else {
        UnescapeOne(x, i);
        out := out + [x[i]];
        i := i + 1;
      }
    }
  }

  /** The literals of s between i and b, concatenated and unescaped. */
  function Literals(s: string, i: nat, b: nat): string
    requires b <= |s|
    decreases |s| + 1 - i
  {
    if i >= b then ""
    else if s[i] == '"' then
      var j := StringEnd(s, i + 1);
      Unescape(Slice(s, i + 1, j - 1)) + Literals(s, j, b)
    else Literals(s, i + 1, b)
  }

  method StringLiteral(s: string, a: nat, b: nat) returns (out: string)
    requires b <= |s|
    ensures out == Literals(s, a, b)
  {
    hide Unescape, StringEnd, Slice;
    out := "";
    var i := a;
    while i < b
      invariant Literals(s, a, b) == out + Literals(s, i, b)
      decreases |s| + 1 - i
    {
      if s[i] == '"' {
        var j := SkipString(s, i);
        var text := UnescapeText(Slice(s, i + 1, j - 1));
        assert Literals(s, i, b) == text + Literals(s, j, b);
        out := out + text;
        i := j;
      } else {
        i := i + 1;
      }
    }
  }
}
