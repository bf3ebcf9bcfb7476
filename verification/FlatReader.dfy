/**
  The flat reader of argument vectors, which only looks at the top level of the text.
 */
module FlatReader {
  import opened Wrappers
  import opened SourceScanner
  import opened ArgParser

  datatype Entry = Entry(name: string, type_: Option<string>, required: bool)

  /** The loop's variables, apart from the entries found so far. */
  datatype State = State(depth: int, awaited: bool, name: Option<string>, type_: Option<string>,
                         req: Option<bool>, start: nat)

  const INITIAL := State(0, false, None, None, None, 0)

  const UNCHECKED := "skip_type_check"

  predicate Mentions(x: string, pattern: string) {
    exists p :: 0 <= p <= |x| && At(x, p, pattern)
  }

  /** The end of the run of word characters and colons from i. */
  function PathEnd(s: string, i: nat): (e: nat)
    ensures i <= e && (i <= |s| ==> e <= |s|)
    decreases |s| - i
  {
    if i < |s| && (IsWordChar(s[i]) || s[i] == ':') then PathEnd(s, i + 1) else i
  }

  const OPTIONAL := "RPCArg::Optional::"
  const DEFAULT := "RPCArg::Default"

  predicate AllWordChars(x: string) { forall k :: 0 <= k < |x| ==> IsWordChar(x[k]) }

  /** Is ident a type enumerator? */
  predicate NamesType(ident: string) {
    At(ident, 0, TYPE) && IsWord(ident[|TYPE|..])
  }

  predicate NamesFallback(ident: string) {
    || (At(ident, 0, OPTIONAL) && IsWord(ident[|OPTIONAL|..]))
    || (At(ident, 0, DEFAULT) && AllWordChars(ident[|DEFAULT|..]))
  }

  /** The state after an identifier of an entry's own level. */
  function Note(st: State, ident: string): State {
    st.(type_ := if NamesType(ident) && st.type_ == None then Some(ident[|TYPE|..]) else st.type_,
        req := if st.req == None && NamesFallback(ident) then Some(ident == "RPCArg::Optional::NO") else st.req)
  }

  lemma AtPrefix(ident: string, prefix: string)
    ensures At(ident, 0, prefix) ==> ident == prefix + ident[|prefix|..]
    ensures forall word :: At(prefix + word, 0, prefix) && (prefix + word)[|prefix|..] == word
  {
  }

  /** The patterns: an identifier is the prefix and a word, which may be empty only for a default. */
  lemma PatternsAre(ident: string)
    ensures NamesType(ident) <==> exists word :: IsWord(word) && ident == TYPE + word
    ensures NamesFallback(ident) <==>
      || (exists word :: IsWord(word) && ident == OPTIONAL + word)
      || (exists word :: (word == "" || IsWord(word)) && ident == DEFAULT + word)
  {
    AtPrefix(ident, TYPE);
    AtPrefix(ident, OPTIONAL);
    AtPrefix(ident, DEFAULT);
    assert forall word :: AllWordChars(word) <==> word == "" || IsWord(word);
    hide At, IsWord, AllWordChars, TYPE, OPTIONAL, DEFAULT;
  }

  /** The state after identifiers of an entry's own level, one after another. */
  function Notes(st: State, idents: seq<string>): State
    decreases |idents|
  {
    if idents == [] then st else Notes(Note(st, idents[0]), idents[1..])
  }

  /** The least index of an identifier that names a type, or how many there are. */
  function FirstType(idents: seq<string>): (k: nat)
    ensures k <= |idents|
    ensures k < |idents| ==> NamesType(idents[k])
    ensures forall j :: 0 <= j < k ==> !NamesType(idents[j])
  {
    if idents == [] || NamesType(idents[0]) then 0
    else
      var k := FirstType(idents[1..]);
      assert forall j :: 1 <= j < |idents| ==> idents[j] == idents[1..][j - 1];
      1 + k
  }

  function FirstFallback(idents: seq<string>): (k: nat)
    ensures k <= |idents|
    ensures k < |idents| ==> NamesFallback(idents[k])
    ensures forall j :: 0 <= j < k ==> !NamesFallback(idents[j])
  {
    if idents == [] || NamesFallback(idents[0]) then 0
    else
      var k := FirstFallback(idents[1..]);
      assert forall j :: 1 <= j < |idents| ==> idents[j] == idents[1..][j - 1];
      1 + k
  }

  /** The first type counts and the first fallback counts; later ones change nothing, nor does anything else. */
  lemma {:induction false} FirstCounts(st: State, idents: seq<string>)
    ensures var k, m := FirstType(idents), FirstFallback(idents);
      Notes(st, idents) == st.(
        type_ := if st.type_.Some? || k == |idents| then st.type_ else Some(idents[k][|TYPE|..]),
        req := if st.req.Some? || m == |idents| then st.req else Some(idents[m] == "RPCArg::Optional::NO"))
    decreases |idents|
  {
    hide NamesType, NamesFallback, TYPE;
    if idents != [] {
      var rest := idents[1..];
      FirstCounts(Note(st, idents[0]), rest);
      assert forall j :: 0 <= j < |rest| ==> rest[j] == idents[j + 1];
    }
  }

  function AfterString(s: string, i: nat, st: State): State
    requires i < |s|
  {
    if st.depth == 2 && st.awaited
    then st.(name := Some(Slice(s, i + 1, StringEnd(s, i + 1) - 1)), awaited := false) else st
  }

  function AfterOpen(i: nat, st: State): State {
    if st.depth + 1 == 2 then State(2, true, None, None, None, i) else st.(depth := st.depth + 1)
  }

  /** The type an entry closed at i is given: none where the check is to be skipped. */
  function CheckedType(s: string, i: nat, st: State): Option<string> {
    if Mentions(Slice(s, st.start, i), UNCHECKED) then None else st.type_
  }

  predicate Completes(st: State) { st.depth == 2 && st.name.Some? }

  /** The entry that a closing brace at i completes, if any. */
  function Completed(s: string, i: nat, st: State): seq<Entry> {
    if Completes(st) then [Entry(st.name.value, CheckedType(s, i, st), st.req == Some(true))] else []
  }

  function AfterClose(s: string, i: nat, st: State): State {
    st.(depth := st.depth - 1,
        name := if Completes(st) then None else st.name,
        type_ := if Completes(st) then CheckedType(s, i, st) else st.type_)
  }

  /** The entries still to come; consts holds those of the shared constants. */
  function Entries(consts: map<string, Entry>, s: string, i: nat, st: State): seq<Entry>
    requires i <= |s| + 1
    decreases |s| + 1 - i
  {
    if i >= |s| then []
    else if s[i] == '"' then Entries(consts, s, StringEnd(s, i + 1), AfterString(s, i, st))
    else if IsComment(s, i) then Entries(consts, s, Trivia(s, CommentEnd(s, i)), st)
    else if s[i] == '{' then Entries(consts, s, i + 1, AfterOpen(i, st))
    else if s[i] == '}' then
      Completed(s, i, st) + if st.depth == 1 then [] else Entries(consts, s, i + 1, AfterClose(s, i, st))
    else if st.depth == 2 && IsLetter(s[i]) then
      var e := PathEnd(s, i + 1);
      Entries(consts, s, e, Note(st, s[i..e]))
    else if st.depth == 1 && IsLetter(s[i]) then
      var e := WordEnd(s, i + 1, |s|);
      (if s[i..e] in consts then [consts[s[i..e]]] else []) + Entries(consts, s, e, st)
    else Entries(consts, s, i + 1, st)
  }

  // One round of the loop, by the character it finds.

  lemma StringRound(consts: map<string, Entry>, s: string, i: nat, st: State)
    requires i < |s| && s[i] == '"'
    ensures Entries(consts, s, i, st) == Entries(consts, s, StringEnd(s, i + 1), AfterString(s, i, st))
  {
  }

  lemma CommentRound(consts: map<string, Entry>, s: string, i: nat, st: State)
    requires IsComment(s, i)
    ensures i < Trivia(s, i) <= |s| && Entries(consts, s, i, st) == Entries(consts, s, Trivia(s, i), st)
  {
  }

  lemma OpenRound(consts: map<string, Entry>, s: string, i: nat, st: State)
    requires i < |s| && s[i] == '{'
    ensures Entries(consts, s, i, st) == Entries(consts, s, i + 1, AfterOpen(i, st))
  {
  }

  lemma CloseRound(consts: map<string, Entry>, s: string, i: nat, st: State)
    requires i < |s| && s[i] == '}'
    ensures Entries(consts, s, i, st)
         == Completed(s, i, st) + if st.depth == 1 then [] else Entries(consts, s, i + 1, AfterClose(s, i, st))
  {
  }

  lemma PathRound(consts: map<string, Entry>, s: string, i: nat, st: State)
    requires i < |s| && IsLetter(s[i]) && st.depth == 2
    ensures var e := PathEnd(s, i + 1);
      Entries(consts, s, i, st) == Entries(consts, s, e, Note(st, s[i..e]))
  {
    hide PathEnd, Note;
  }

  lemma ConstRound(consts: map<string, Entry>, s: string, i: nat, st: State)
    requires i < |s| && IsLetter(s[i]) && st.depth == 1
    ensures var e := WordEnd(s, i + 1, |s|);
      Entries(consts, s, i, st) == (if s[i..e] in consts then [consts[s[i..e]]] else []) + Entries(consts, s, e, st)
  {
    hide WordEnd;
  }

  lemma OtherRound(consts: map<string, Entry>, s: string, i: nat, st: State)
    requires i < |s| && s[i] != '"' && !IsComment(s, i) && s[i] != '{' && s[i] != '}'
    requires !(1 <= st.depth <= 2 && IsLetter(s[i]))
    ensures Entries(consts, s, i, st) == Entries(consts, s, i + 1, st)
  {
  }

  method ArgEntriesFromVector(consts: map<string, Entry>, s: string, first: nat) returns (entries: seq<Entry>)
    requires first <= |s|
    ensures entries == Entries(consts, s, first, INITIAL)
  {
    hide StringEnd, Trivia, IsComment, PathEnd, WordEnd, NamesType, NamesFallback, Mentions, Slice, Entries, IsLetter;
    entries := [];
    var i, depth: int, awaited := first, 0, false;
    var name, type_, req, start := None, None, None, 0;
    while i < |s|
      invariant first <= i <= |s| + 1
      invariant Entries(consts, s, first, INITIAL)
             == entries + Entries(consts, s, i, State(depth, awaited, name, type_, req, start))
      decreases |s| + 1 - i
    {
      ghost var st := State(depth, awaited, name, type_, req, start);
      var c := s[i];
      if c == '"' {
        StringRound(consts, s, i, st);
        var j := SkipString(s, i);
        if depth == 2 && awaited {
          name := Some(Slice(s, i + 1, j - 1));
          awaited := false;
        }
        i := j;
        continue;
      }
      if IsComment(s, i) {
        CommentRound(consts, s, i, st);
        i := SkipTrivia(s, i);
        continue;
      }
      if c == '{' {
        OpenRound(consts, s, i, st);
        depth := depth + 1;
        if depth == 2 {
          awaited, name, type_, req, start := true, None, None, None, i;
        }
        i := i + 1;
        continue;
      }
      if c == '}' {
        CloseRound(consts, s, i, st);
        AppendTwice(entries, Completed(s, i, st),
          if depth == 1 then [] else Entries(consts, s, i + 1, AfterClose(s, i, st)));
        depth := depth - 1;
        if depth == 1 && name.Some? {
          if Mentions(Slice(s, start, i), UNCHECKED) { type_ := None; }
          entries := entries + [Entry(name.value, type_, req == Some(true))];
          name := None;
        }
        if depth == 0 { return; }
        i := i + 1;
        continue;
      }
      if depth == 2 && IsLetter(c) {
        PathRound(consts, s, i, st);
        var j := PathEnd(s, i + 1);
        var noted := Note(State(depth, awaited, name, type_, req, start), s[i..j]);
        type_, req := noted.type_, noted.req;
        i := j;
        continue;
      }
      if depth == 1 && IsLetter(c) {
        ConstRound(consts, s, i, st);
        var j := WordEnd(s, i + 1, |s|);
        AppendTwice(entries, if s[i..j] in consts then [consts[s[i..j]]] else [], Entries(consts, s, j, st));
        if s[i..j] in consts { entries := entries + [consts[s[i..j]]]; }
        i := j;
        continue;
      }
      OtherRound(consts, s, i, st);
      i := i + 1;
    }
    NoEntries(consts, s, i, State(depth, awaited, name, type_, req, start));
  }

  lemma AppendTwice(a: seq<Entry>, b: seq<Entry>, c: seq<Entry>)
    ensures a + (b + c) == a + b + c && a + [] == a
  {
  }

  lemma NoEntries(consts: map<string, Entry>, s: string, i: nat, st: State)
    requires |s| <= i <= |s| + 1
    ensures Entries(consts, s, i, st) == []
  {
  }
}
