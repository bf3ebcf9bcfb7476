/**
  The flat reader on written vectors: what it makes of every field, entry and shared constant.
 */
module FlatReading {
  import opened Wrappers
  import opened SourceScanner
  import opened SourceText
  import opened SourceFields
  import opened ArgParser
  import opened ArgDeclaration
  import opened ArgOptions
  import opened ArgReading
  import opened FlatReader

  // ------------------------------------------------------ below the entry's level

  /** Comments and white space change nothing, whatever the state. */
  lemma {:induction false} EntriesTrivia(consts: map<string, Entry>, s: string, i: nat, st: State)
    requires i <= |s|
    ensures Trivia(s, i) <= |s| && Entries(consts, s, i, st) == Entries(consts, s, Trivia(s, i), st)
    decreases |s| - i
  {
    if i < |s| && IsBlank(s[i]) {
      assert !IsComment(s, i) && !IsLetter(s[i]) && s[i] != '"' && s[i] != '{' && s[i] != '}';
      BlankSkipped(s, i);
      hide Trivia, Entries;
      OtherRound(consts, s, i, st);
      EntriesTrivia(consts, s, i + 1, st);
    } else if i < |s| && IsComment(s, i) {
      hide Entries;
      CommentRound(consts, s, i, st);
    }
  }

  lemma SkipsTrivia(consts: map<string, Entry>, s: string, i: nat, gap: seq<Piece>, st: State)
    requires IsGap(gap) && At(s, i, Text(gap))
    ensures i + |Text(gap)| <= |s| && Entries(consts, s, i, st) == Entries(consts, s, i + |Text(gap)|, st)
  {
    hide *;
    GapSkipped(s, i, gap);
    EntriesTrivia(consts, s, i, st);
    EntriesTrivia(consts, s, i + |Text(gap)|, st);
  }

  /** How many of the open brackets are braces; this reader counts no others. */
  function Braces(open: string): nat {
    if open == "" then 0 else Braces(open[..|open| - 1]) + if open[|open| - 1] == '{' then 1 else 0
  }

  lemma BracesAfter(p: Piece, open: string)
    requires Fits(p, open)
    ensures p == Plain('{') ==> Braces(After(p, open)) == Braces(open) + 1
    ensures p == Plain('}') ==> Braces(open) > 0 && Braces(After(p, open)) == Braces(open) - 1
    ensures p != Plain('{') && p != Plain('}') ==> Braces(After(p, open)) == Braces(open)
  {
    if Opens(p) { assert (open + [p.c])[..|open|] == open; }
  }

  lemma DeepRound(consts: map<string, Entry>, s: string, i: nat, p: Piece, open: string, st: State)
    requires At(s, i, PieceText(p)) && CleanPiece(p) && Fits(p, open)
    ensures i + |PieceText(p)| <= |s|
    ensures Entries(consts, s, i, st.(depth := 3 + Braces(open)))
         == Entries(consts, s, i + |PieceText(p)|, st.(depth := 3 + Braces(After(p, open))))
  {
    var deep := st.(depth := 3 + Braces(open));
    hide At, PieceText, StringEnd, IsComment, Entries, CheckedType, After, Fits, CleanPiece, Trivia, Braces;
    BracesAfter(p, open);
    if IsRemark(p) {
      RemarkSkipped(s, i, p);
      EntriesTrivia(consts, s, i, deep);
      EntriesTrivia(consts, s, i + |PieceText(p)|, deep);
    } else {
      PieceAt(s, i, p);
      if p.Quoted? {
        StringRound(consts, s, i, deep);
      } else if p.c == '{' {
        OpenRound(consts, s, i, deep);
      } else if p.c == '}' {
        CloseRound(consts, s, i, deep);
        assert Completed(s, i, deep) == [];
      } else {
        OtherRound(consts, s, i, deep);
      }
    }
  }

  lemma NoBraces()
    ensures Braces("") == 0
  {
  }

  lemma {:induction false} DeepNested(consts: map<string, Entry>, s: string, i: nat, ps: seq<Piece>, open: string,
      st: State)
    requires Clean(ps) && Nested(ps, open, true) && At(s, i, Text(ps))
    ensures i + |Text(ps)| <= |s|
    ensures Entries(consts, s, i, st.(depth := 3 + Braces(open)))
         == Entries(consts, s, i + |Text(ps)|, st.(depth := 3))
    decreases |ps|
  {
    hide *;
    if ps == [] {
      NothingNested(s, i, open, true);
      NoBraces();
    } else {
      TextHead(s, i, ps);
      NestedHead(ps, open, true);
      DeepRound(consts, s, i, ps[0], open, st);
      DeepNested(consts, s, i + |PieceText(ps[0])|, ps[1..], After(ps[0], open), st);
    }
  }

  /** A brace group inside an entry changes nothing. */
  lemma SkipsGroup(consts: map<string, Entry>, s: string, i: nat, ps: seq<Piece>, st: State)
    requires Clean(ps) && Nested(ps, "", true) && At(s, i, Text(Braced(ps))) && st.depth == 2
    ensures i + |Text(Braced(ps))| <= |s|
    ensures Entries(consts, s, i, st) == Entries(consts, s, i + |Text(Braced(ps))|, st)
  {
    hide At, Clean, Nested, Text, Braced, Matching, Entries, CheckedType;
    MatchingBraced(s, i, ps);
    OpenRound(consts, s, i, st);
    NoBraces();
    DeepNested(consts, s, i + 1, ps, "", st);
    var close := i + 1 + |Text(ps)|;
    CloseRound(consts, s, close, st.(depth := 3));
    assert Completed(s, close, st.(depth := 3)) == [];
    assert AfterClose(s, close, st.(depth := 3)) == st;
  }

  // ----------------------------------------------------------- an entry's fields

  predicate IsPath(x: string) {
    x != "" && IsLetter(x[0]) && forall k :: 0 <= k < |x| ==> IsWordChar(x[k]) || x[k] == ':'
  }

  /** Where an identifier of the entry's level stops. */
  predicate Stops(s: string, i: nat) {
    i < |s| && (s[i] == ',' || s[i] == '{' || s[i] == '}')
  }

  lemma {:induction false} PathStops(s: string, i: nat, end: nat)
    requires i <= end < |s| && Stops(s, end)
    requires forall k :: i <= k < end ==> IsWordChar(s[k]) || s[k] == ':'
    ensures PathEnd(s, i) == end
    decreases end - i
  {
    if i < end { PathStops(s, i + 1, end); }
  }

  lemma ReadsPath(consts: map<string, Entry>, s: string, i: nat, x: string, st: State)
    requires At(s, i, x) && IsPath(x) && Stops(s, i + |x|) && st.depth == 2
    ensures Entries(consts, s, i, st) == Entries(consts, s, i + |x|, Note(st, x))
  {
    var end := i + |x|;
    forall k | i <= k < end
      ensures s[k] == x[k - i]
    {
      AtIndex(s, i, x, k - i);
    }
    PathStops(s, i + 1, end);
    hide Note, Entries, PathEnd;
    PathRound(consts, s, i, st);
    assert s[i..end] == x;
  }

  lemma SkipsComma(consts: map<string, Entry>, s: string, i: nat, st: State)
    requires i < |s| && s[i] == ','
    ensures Entries(consts, s, i, st) == Entries(consts, s, i + 1, st)
  {
    hide Entries;
    OtherRound(consts, s, i, st);
  }

  /** A field that is an identifier. */
  lemma PathField(consts: map<string, Entry>, s: string, i: nat, x: string, st: State)
    requires At(s, i, Text(Plainly(x))) && IsPath(x) && Stops(s, i + |Text(Plainly(x))|) && st.depth == 2
    ensures Entries(consts, s, i, st) == Entries(consts, s, i + |Text(Plainly(x))|, Note(st, x))
  {
    hide *;
    TextPlainly(x);
    ReadsPath(consts, s, i, x, st);
  }

  /** A field that is an identifier before a brace group. */
  lemma PathGroupField(consts: map<string, Entry>, s: string, i: nat, x: string, ps: seq<Piece>, st: State)
    requires Clean(ps) && Nested(ps, "", true) && IsPath(x) && st.depth == 2
    requires At(s, i, Text(Plainly(x) + Braced(ps)))
    ensures Entries(consts, s, i, st) == Entries(consts, s, i + |Text(Plainly(x) + Braced(ps))|, Note(st, x))
  {
    hide At, Entries, PathEnd, Text, Plainly, Braced, Clean, Nested, Matching, IsPath, NamesType, NamesFallback;
    TextConcat(Plainly(x), Braced(ps));
    TextPlainly(x);
    AtSplit(s, i, x, Text(Braced(ps)));
    MatchingBraced(s, i + |x|, ps);
    ReadsPath(consts, s, i, x, st);
    SkipsGroup(consts, s, i + |x|, ps, Note(st, x));
  }

  lemma QuotedFieldRead(consts: map<string, Entry>, s: string, i: nat, value: string, st: State)
    requires At(s, i, Text([Quoted(value)])) && st.depth == 2
    ensures i + |Text([Quoted(value)])| <= |s|
    ensures Entries(consts, s, i, st) == Entries(consts, s, i + |Text([Quoted(value)])|,
      if st.awaited then st.(name := Some(Escape(value)), awaited := false) else st)
  {
    TextOne(Quoted(value));
    hide At, Text, Entries, StringEnd, Escape, PieceText, Slice;
    AtEnd(s, i, PieceText(Quoted(value)));
    QuotedEnds(s, i, value);
    StringRound(consts, s, i, st);
  }

  // ---------------------------------------------------- the effect of each field

  lemma NoteType(st: State, t: string)
    requires IsWord(t)
    ensures IsPath(TYPE + t)
    ensures Note(st, TYPE + t) == st.(type_ := if st.type_ == None then Some(t) else st.type_)
  {
    var x := TYPE + t;
    assert x[|TYPE|..] == t && At(x, 0, TYPE) && x[8] == 'T';
    hide At;
    AtChar(x, 0, OPTIONAL, 8);
    AtChar(x, 0, DEFAULT, 8);
  }

  lemma NoteOptions(st: State)
    ensures IsPath(OPTIONS) && Note(st, OPTIONS) == st
  {
    hide At;
    AtChar(OPTIONS, 0, TYPE, 6);
    AtChar(OPTIONS, 0, OPTIONAL, 6);
    AtChar(OPTIONS, 0, DEFAULT, 6);
  }

  lemma NoteOptional(st: State, word: string)
    requires IsWord(word)
    ensures IsPath(OPTIONAL + word)
    ensures Note(st, OPTIONAL + word) == st.(
      req := if st.req == None then Some(OPTIONAL + word == "RPCArg::Optional::NO") else st.req)
  {
    OptionalPath(word);
    OptionalIs(word);
    hide At, IsPath, IsWord, OPTIONAL, AllWordChars;
    NotedFallback(st, OPTIONAL + word);
  }

  lemma OptionalPath(word: string)
    requires IsWord(word)
    ensures IsPath(OPTIONAL + word)
  {
  }

  lemma OptionalIs(word: string)
    requires IsWord(word)
    ensures NamesFallback(OPTIONAL + word) && !NamesType(OPTIONAL + word)
  {
    var x := OPTIONAL + word;
    assert x[|OPTIONAL|..] == word && At(x, 0, OPTIONAL) && x[8] == 'O';
    hide At, IsWord;
    AtChar(x, 0, TYPE, 8);
  }

  lemma NotedFallback(st: State, ident: string)
    requires NamesFallback(ident) && !NamesType(ident)
    ensures Note(st, ident) == st.(req := if st.req == None then Some(ident == "RPCArg::Optional::NO") else st.req)
  {
    hide NamesFallback, NamesType;
  }

  lemma NoteDefault(st: State, word: string)
    requires word == "" || IsWord(word)
    ensures IsPath(DEFAULT + word) && !NamesType(DEFAULT + word)
    ensures Note(st, DEFAULT + word) == st.(req := if st.req == None then Some(false) else st.req)
  {
    DefaultPath(word);
    DefaultNames(word);
    hide IsPath, NamesFallback, NamesType, IsWord, DEFAULT;
    NotedFallback(st, DEFAULT + word);
  }

  lemma DefaultPath(word: string)
    requires word == "" || IsWord(word)
    ensures IsPath(DEFAULT + word) && DEFAULT + word != "RPCArg::Optional::NO"
  {
    assert (DEFAULT + word)[8] == 'D' && "RPCArg::Optional::NO"[8] == 'O';
  }

  lemma DefaultNames(word: string)
    requires word == "" || IsWord(word)
    ensures NamesFallback(DEFAULT + word) && !NamesType(DEFAULT + word)
  {
    var x := DEFAULT + word;
    assert x[|DEFAULT|..] == word && At(x, 0, DEFAULT) && x[8] == 'D';
    assert AllWordChars(word);
    hide At, AllWordChars, IsWord;
    AtChar(x, 0, TYPE, 8);
  }

  lemma OptionalRead(consts: map<string, Entry>, s: string, i: nat, word: string, st: State)
    requires At(s, i, Text(Plainly(OPTIONAL + word))) && Stops(s, i + |Text(Plainly(OPTIONAL + word))|)
    requires st.depth == 2 && st.req == None && IsWord(word)
    ensures Entries(consts, s, i, st) == Entries(consts, s, i + |Text(Plainly(OPTIONAL + word))|,
      st.(req := Some(OPTIONAL + word == "RPCArg::Optional::NO")))
  {
    hide *;
    NoteOptional(st, word);
    PathField(consts, s, i, OPTIONAL + word, st);
  }

  /** A default of either form: a value, or a hint in its place. */
  lemma DefaultRead(consts: map<string, Entry>, s: string, i: nat, word: string, ps: seq<Piece>, st: State)
    requires At(s, i, Text(Plainly(DEFAULT + word) + Braced(ps))) && Clean(ps) && Nested(ps, "", true)
    requires (word == "" || IsWord(word)) && st.depth == 2 && st.req == None
    ensures Entries(consts, s, i, st)
         == Entries(consts, s, i + |Text(Plainly(DEFAULT + word) + Braced(ps))|, st.(req := Some(false)))
  {
    hide *;
    NoteDefault(st, word);
    PathGroupField(consts, s, i, DEFAULT + word, ps, st);
  }

  lemma HintPieces(text: string)
    ensures Clean([Quoted(text)]) && Nested([Quoted(text)], "", true)
  {
    hide Plainly, Braced;
    QuotedBodyIs(text);
    NestedWeaken([Quoted(text)], "");
  }

  lemma DefaultSpelling(f: Fallback)
    ensures f.Preset? ==> FallbackBody(f) == Plainly(DEFAULT + "") + Braced(f.value)
    ensures f.Hint? ==> FallbackBody(f) == Plainly(DEFAULT + "Hint") + Braced([Quoted(f.text)])
    ensures IsWord("Hint")
  {
    hide Plainly, Braced;
    assert DEFAULT + "" == PRESET && DEFAULT + "Hint" == HINT;
  }

  lemma OptionalSpelling()
    ensures Plainly(OPTIONAL + "NO") == FallbackBody(Required) && OPTIONAL + "NO" == "RPCArg::Optional::NO"
    ensures Plainly(OPTIONAL + "OMITTED") == FallbackBody(Omitted) && OPTIONAL + "OMITTED" != "RPCArg::Optional::NO"
    ensures IsWord("NO") && IsWord("OMITTED")
  {
    hide Plainly;
    assert OPTIONAL + "NO" == "RPCArg::Optional::NO";
    assert OPTIONAL + "OMITTED" == "RPCArg::Optional::OMITTED";
    assert |"RPCArg::Optional::NO"| < |"RPCArg::Optional::OMITTED"|;
  }

  lemma FallbackRead(consts: map<string, Entry>, s: string, i: nat, f: Fallback, st: State)
    requires At(s, i, Text(FallbackBody(f))) && Stops(s, i + |Text(FallbackBody(f))|)
    requires f.Preset? ==> Clean(f.value) && Nested(f.value, "", true)
    requires st.depth == 2 && st.req == None
    ensures Entries(consts, s, i, st)
         == Entries(consts, s, i + |Text(FallbackBody(f))|, st.(req := Some(f == Required)))
  {
    hide *;
    OptionalSpelling();
    DefaultSpelling(f);
    match f
    case Required => OptionalRead(consts, s, i, "NO", st);
    case Omitted => OptionalRead(consts, s, i, "OMITTED", st);
    case Preset(value) => DefaultRead(consts, s, i, "", value, st);
    case Hint(text) => HintPieces(text); DefaultRead(consts, s, i, "Hint", [Quoted(text)], st);
  }

  // ---------------------------------------------------- an entry's fields in turn

  /** At k a brace closes the group, after a comma and white space if close holds them. */
  predicate ClosedAt(s: string, k: nat, close: string) { IsClosing(close) && At(s, k, close + "}") }

  /** Fields standing at i, up to what closes their group. */
  predicate StandClosed(s: string, i: nat, fields: seq<Field>, close: string) {
    Stand(s, i, fields) && ClosedAt(s, i + |Text(Tail(fields))|, close)
  }

  lemma ClosedMeans(s: string, i: nat, fields: seq<Field>, close: string)
    ensures StandClosed(s, i, fields, close) <==> Stand(s, i, fields) && ClosedAt(s, i + |Text(Tail(fields))|, close)
  {
  }

  lemma ClosedStops(s: string, k: nat, close: string)
    requires ClosedAt(s, k, close)
    ensures Stops(s, k)
  {
    AtIndex(s, k, close + "}", 0);
  }

  /** The closing comma, if any, and the white space after it change nothing. */
  lemma SkipsClosing(consts: map<string, Entry>, s: string, k: nat, close: string, st: State)
    requires ClosedAt(s, k, close)
    ensures k + |close| < |s| && s[k + |close|] == '}'
    ensures Entries(consts, s, k, st) == Entries(consts, s, k + |close|, st)
  {
    hide Entries, IsLetter;
    AtSplit(s, k, close, "}");
    AtIndex(s, k + |close|, "}", 0);
    if close != "" {
      AtIndex(s, k, close, 0);
      SkipsComma(consts, s, k, st);
      var blanks := close[1..];
      assert close == [close[0]] + blanks;
      AtSplit(s, k, [close[0]], blanks);
      BlanksAreGap(close);
      TextPlainly(blanks);
      SkipsTrivia(consts, s, k + 1, Plainly(blanks), st);
    }
  }

  lemma BlanksAreGap(close: string)
    requires IsClosing(close) && close != ""
    ensures IsGap(Plainly(close[1..]))
  {
    var blanks := close[1..];
    forall k | 0 <= k < |blanks|
      ensures IsBlank(blanks[k])
    {
      assert blanks[k] == close[k + 1];
    }
  }

  lemma ClosedHead(s: string, i: nat, fields: seq<Field>, close: string)
    requires StandClosed(s, i, fields, close) && fields != []
    ensures i + 1 <= |s| && s[i] == ',' && IsField(fields[0]) && At(s, i + 1, FieldText(fields[0]))
    ensures Next(i, fields[0]) == i + 1 + |FieldText(fields[0])| && Stops(s, Next(i, fields[0]))
    ensures StandClosed(s, Next(i, fields[0]), fields[1..], close)
    ensures Next(i, fields[0]) + |Text(Tail(fields[1..]))| == i + |Text(Tail(fields))|
  {
    hide *;
    var next, rest := Next(i, fields[0]), fields[1..];
    ClosedMeans(s, i, fields, close);
    StandMeans(s, i, fields);
    StandHead(s, i, fields);
    TailHead(s, i, fields);
    ClosedMeans(s, next, rest, close);
    if rest == [] {
      NoTail(next);
      ClosedStops(s, next, close);
    } else {
      StandHead(s, next, rest);
      CommaStops(s, next);
    }
  }

  lemma CommaStops(s: string, i: nat)
    requires i < |s| && s[i] == ','
    ensures Stops(s, i)
  {
  }

  lemma ClosedBound(s: string, i: nat, fields: seq<Field>, close: string)
    requires StandClosed(s, i, fields, close)
    ensures i <= i + |Text(Tail(fields))| <= |s| && ClosedAt(s, i + |Text(Tail(fields))|, close)
  {
  }

  /** What reading the body of a field of the entry does to the state. */
  ghost predicate Does(consts: map<string, Entry>, s: string, i: nat, field: Field, before: State, after: State)
    requires i + |FieldText(field)| <= |s| + 1 && i + |Text(field.gap)| <= |s| + 1
  {
    Entries(consts, s, i + |Text(field.gap)|, before) == Entries(consts, s, i + |FieldText(field)|, after)
  }

  lemma DoesIs(consts: map<string, Entry>, s: string, i: nat, field: Field, before: State, after: State)
    requires At(s, i, FieldText(field))
    ensures i + |Text(field.gap)| <= i + |FieldText(field)| == i + |Text(field.gap)| + |Text(field.body)| <= |s|
    ensures Does(consts, s, i, field, before, after)
       <==> Entries(consts, s, i + |Text(field.gap)|, before) == Entries(consts, s, i + |FieldText(field)|, after)
  {
    hide Entries, At, Text;
    FieldAt(s, i, field);
  }

  /** The comma, the gap and the body of the first field. */
  lemma FieldHead(consts: map<string, Entry>, s: string, i: nat, fields: seq<Field>, close: string, before: State,
      after: State)
    requires StandClosed(s, i, fields, close) && fields != [] && i + 1 + |FieldText(fields[0])| <= |s|
    requires i + 1 + |Text(fields[0].gap)| <= |s| && Does(consts, s, i + 1, fields[0], before, after)
    ensures Next(i, fields[0]) <= |s|
    ensures Entries(consts, s, i, before) == Entries(consts, s, Next(i, fields[0]), after)
  {
    hide *;
    ClosedHead(s, i, fields, close);
    SkipsComma(consts, s, i, before);
    FieldBody(fields[0]);
    FieldAt(s, i + 1, fields[0]);
    SkipsTrivia(consts, s, i + 1, fields[0].gap, before);
    DoesIs(consts, s, i + 1, fields[0], before, after);
  }

  /** The first field stands behind its gap, and something stops it. */
  lemma BodyStands(s: string, i: nat, fields: seq<Field>, close: string)
    requires StandClosed(s, i, fields, close) && fields != []
    ensures var f := fields[0]; var k := i + 1 + |Text(f.gap)|;
      && IsField(f) && At(s, i + 1, FieldText(f)) && At(s, k, Text(f.body))
      && k + |Text(f.body)| == i + 1 + |FieldText(f)| == Next(i, f) <= |s| && Stops(s, Next(i, f))
      && StandClosed(s, Next(i, f), fields[1..], close)
      && Next(i, f) + |Text(Tail(fields[1..]))| == i + |Text(Tail(fields))|
  {
    hide *;
    ClosedHead(s, i, fields, close);
    FieldAt(s, i + 1, fields[0]);
  }

  lemma TypeFieldsAre(t: Option<string>, gap: seq<Piece>)
    ensures TypeFields(t, gap) == if t.None? then [] else [Field(gap, Plainly(TYPE + t.value))]
  {
    hide Plainly;
  }

  lemma InnerFieldsAre(kids: seq<Field>, layout: Layout)
    ensures InnerFields(kids, layout)
         == if kids == [] then [] else [Field(layout.gap, Braced(Joined(kids, layout.close)))]
  {
    hide Braced, Joined;
  }

  lemma OptionsFieldsAre(oneline: Option<string>, hidden: bool, gap: seq<Piece>)
    ensures OptionsFields(oneline, hidden, gap) == []
         || OptionsFields(oneline, hidden, gap) == [Field(gap, Plainly(OPTIONS) + Braced(Options(oneline, hidden)))]
  {
    hide Plainly, Braced, Options;
  }

  lemma TypeStep(consts: map<string, Entry>, s: string, i: nat, t: Option<string>, gap: seq<Piece>,
      rest: seq<Field>, close: string, st: State)
      returns (j: nat)
    requires StandClosed(s, i, TypeFields(t, gap) + rest, close) && (t.Some? ==> IsWord(t.value))
    requires st.depth == 2 && st.type_ == None
    ensures StandClosed(s, j, rest, close) && j + |Text(Tail(rest))| == i + |Text(Tail(TypeFields(t, gap) + rest))|
    ensures j <= |s| && Entries(consts, s, i, st) == Entries(consts, s, j, st.(type_ := t))
  {
    hide *;
    TypeFieldsAre(t, gap);
    if t.None? {
      NothingMore(rest);
      ClosedBound(s, i, rest, close);
      return i;
    }
    var field := Field(gap, Plainly(TYPE + t.value));
    var fields, after := [field] + rest, st.(type_ := t);
    StepsOver(field, rest);
    BodyStands(s, i, fields, close);
    NoteType(st, t.value);
    PathField(consts, s, i + 1 + |Text(gap)|, TYPE + t.value, st);
    DoesIs(consts, s, i + 1, field, st, after);
    FieldHead(consts, s, i, fields, close, st, after);
    return Next(i, field);
  }

  lemma TextsStep(consts: map<string, Entry>, s: string, i: nat, f: Fallback, description: string,
      gap: seq<Piece>, rest: seq<Field>, close: string, st: State)
      returns (j: nat)
    requires StandClosed(s, i, TextFields(f, description, gap) + rest, close)
    requires f.Preset? ==> Clean(f.value) && Nested(f.value, "", true)
    requires st.depth == 2 && st.req == None && !st.awaited
    ensures StandClosed(s, j, rest, close)
    ensures j + |Text(Tail(rest))| == i + |Text(Tail(TextFields(f, description, gap) + rest))|
    ensures j <= |s| && Entries(consts, s, i, st) == Entries(consts, s, j, st.(req := Some(f == Required)))
  {
    hide *;
    TextFieldsAre(f, description, gap);
    var fallback, text := Field(gap, FallbackBody(f)), Field(gap, [Quoted(description)]);
    var fields, after := [fallback, text] + rest, st.(req := Some(f == Required));
    assert fields[0] == fallback && fields[1..] == [text] + rest && fields != [];
    BodyStands(s, i, fields, close);
    FallbackRead(consts, s, i + 1 + |Text(gap)|, f, st);
    DoesIs(consts, s, i + 1, fallback, st, after);
    FieldHead(consts, s, i, fields, close, st, after);
    var k := Next(i, fallback);
    StepsOver(text, rest);
    BodyStands(s, k, [text] + rest, close);
    QuotedFieldRead(consts, s, k + 1 + |Text(gap)|, description, after);
    DoesIs(consts, s, k + 1, text, after, after);
    FieldHead(consts, s, k, [text] + rest, close, after, after);
    return Next(k, text);
  }

  lemma InnerStep(consts: map<string, Entry>, s: string, i: nat, kids: seq<Field>, layout: Layout, rest: seq<Field>,
      close: string, st: State)
      returns (j: nat)
    requires StandClosed(s, i, InnerFields(kids, layout) + rest, close) && AreFields(kids) && IsLayout(layout)
    requires st.depth == 2
    ensures StandClosed(s, j, rest, close)
    ensures j + |Text(Tail(rest))| == i + |Text(Tail(InnerFields(kids, layout) + rest))|
    ensures j <= |s| && Entries(consts, s, i, st) == Entries(consts, s, j, st)
  {
    hide *;
    InnerFieldsAre(kids, layout);
    if kids == [] {
      NothingMore(rest);
      ClosedBound(s, i, rest, close);
      return i;
    }
    var group := Field(layout.gap, Braced(Joined(kids, layout.close)));
    var fields := [group] + rest;
    StepsOver(group, rest);
    BodyStands(s, i, fields, close);
    GapIsGap(layout);
    JoinedNested(kids, layout.close);
    SkipsGroup(consts, s, i + 1 + |Text(layout.gap)|, Joined(kids, layout.close), st);
    DoesIs(consts, s, i + 1, group, st, st);
    FieldHead(consts, s, i, fields, close, st, st);
    return Next(i, group);
  }

  lemma OptionsStep(consts: map<string, Entry>, s: string, i: nat, oneline: Option<string>, hidden: bool,
      gap: seq<Piece>, close: string, st: State)
      returns (j: nat)
    requires StandClosed(s, i, OptionsFields(oneline, hidden, gap), close) && st.depth == 2
    ensures j == i + |Text(Tail(OptionsFields(oneline, hidden, gap)))| <= |s| && ClosedAt(s, j, close)
    ensures Entries(consts, s, i, st) == Entries(consts, s, j, st)
  {
    hide *;
    var fields := OptionsFields(oneline, hidden, gap);
    OptionsFieldsAre(oneline, hidden, gap);
    if fields == [] {
      NoTail(i);
      ClosedBound(s, i, fields, close);
      return i;
    }
    var field := Field(gap, Plainly(OPTIONS) + Braced(Options(oneline, hidden)));
    BodyStands(s, i, fields, close);
    OptionsNested(oneline, hidden);
    NoteOptions(st);
    PathGroupField(consts, s, i + 1 + |Text(gap)|, OPTIONS, Options(oneline, hidden), st);
    DoesIs(consts, s, i + 1, field, st, st);
    FieldHead(consts, s, i, fields, close, st, st);
    j := Next(i, field);
    assert fields[1..] == [];
    NoTail(j);
    ClosedBound(s, j, fields[1..], close);
  }

  /** The fields after an entry's name, up to its closing brace. */
  lemma RestStep(consts: map<string, Entry>, s: string, i: nat, d: Decl, st: State)
      returns (j: nat)
    requires WellWritten(d) && StandClosed(s, i, Rest(d, AllWritten(d.inner)), d.layout.close)
    requires st.depth == 2 && st.type_ == None && st.req == None && !st.awaited
    ensures j == i + |Text(Tail(Rest(d, AllWritten(d.inner))))| + |d.layout.close| < |s| && s[j] == '}'
    ensures Entries(consts, s, i, st)
         == Entries(consts, s, j, st.(type_ := d.type_, req := Some(d.fallback == Required)))
  {
    hide *;
    WellWrittenParts(d);
    InnerWellWritten(d);
    var gap, close := d.layout.gap, d.layout.close;
    var inner, options := InnerFields(AllWritten(d.inner), d.layout), OptionsFields(d.oneline, d.hidden, gap);
    var texts := TextFields(d.fallback, d.description, gap);
    RestGroups(d, AllWritten(d.inner));
    WrittenAreFields(d.inner);
    j := TypeStep(consts, s, i, d.type_, gap, texts + (inner + options), close, st);
    var after := st.(type_ := d.type_);
    j := TextsStep(consts, s, j, d.fallback, d.description, gap, inner + options, close, after);
    after := after.(req := Some(d.fallback == Required));
    j := InnerStep(consts, s, j, AllWritten(d.inner), d.layout, options, close, after);
    j := OptionsStep(consts, s, j, d.oneline, d.hidden, gap, close, after);
    SkipsClosing(consts, s, j, close, after);
    j := j + |close|;
  }

  // -------------------------------------------------------------- whole entries

  /** The text of an entry up to its closing brace, where the flat reader looks for the mark. */
  function Inside(d: Decl): string {
    Slice(Text(Written(d)), 0, if Text(Written(d)) == "" then 0 else |Text(Written(d))| - 1)
  }

  /** The entry that the flat reader makes of a declaration. */
  function Flat(d: Decl): Entry {
    Entry(Escape(d.name), if Mentions(Inside(d), UNCHECKED) then None else d.type_, d.fallback == Required)
  }

  lemma OpensEntry(consts: map<string, Entry>, s: string, i: nat, st: State)
    requires i < |s| && s[i] == '{' && st.depth == 1
    ensures Entries(consts, s, i, st) == Entries(consts, s, i + 1, State(2, true, None, None, None, i))
  {
    hide Entries;
    OpenRound(consts, s, i, st);
  }

  lemma InsideAt(s: string, i: nat, d: Decl, end: nat)
    requires At(s, i, Text(Written(d))) && Text(Written(d)) != "" && end == i + |Text(Written(d))| - 1
    ensures Slice(s, i, end) == Inside(d)
  {
    hide Text, Written;
    var x := Text(Written(d));
    var n := |x| - 1;
    assert x == x[..n] + x[n..];
    assert s[i..i + n] == s[i..i + |x|][..n];
  }

  lemma ClosesEntry(consts: map<string, Entry>, s: string, close: nat, st: State, d: Decl)
    requires close < |s| && s[close] == '}' && st.start <= close
    requires st.depth == 2 && st.name == Some(Escape(d.name)) && st.type_ == d.type_
    requires st.req == Some(d.fallback == Required) && Slice(s, st.start, close) == Inside(d)
    ensures AfterClose(s, close, st).depth == 1
    ensures Entries(consts, s, close, st) == [Flat(d)] + Entries(consts, s, close + 1, AfterClose(s, close, st))
  {
    hide Entries, Slice, Inside, Mentions, Escape;
    CloseRound(consts, s, close, st);
  }

  /** One entry of the vector: it is reported, and reading goes on behind it. */
  lemma EntryStep(consts: map<string, Entry>, s: string, i: nat, d: Decl, st: State)
      returns (after: State)
    requires WellWritten(d) && At(s, i, Text(Written(d))) && st.depth == 1
    ensures i + |Text(Written(d))| <= |s| && after.depth == 1
    ensures Entries(consts, s, i, st) == [Flat(d)] + Entries(consts, s, i + |Text(Written(d))|, after)
  {
    hide *;
    var rest, close := Rest(d, AllWritten(d.inner)), d.layout.close;
    var fields := [NameField(d.name)] + rest;
    WellWrittenParts(d);
    WrittenParts(d);
    PartsAreFields(d);
    StepsOver(NameField(d.name), rest);
    GroupSpans(s, i, fields, close);
    JoinedNested(fields, close);
    MatchingBraced(s, i, Joined(fields, close));
    OpensEntry(consts, s, i, st);
    NameText(d.name);
    var inside := State(2, true, None, None, None, i);
    QuotedFieldRead(consts, s, i + 1, d.name, inside);
    inside := inside.(name := Some(Escape(d.name)), awaited := false);
    GroupClosed(s, i, fields, close);
    var end := RestStep(consts, s, i + 1 + |Text([Quoted(d.name)])|, d, inside);
    inside := inside.(type_ := d.type_, req := Some(d.fallback == Required));
    InsideAt(s, i, d, end);
    ClosesEntry(consts, s, end, inside, d);
    return AfterClose(s, end, inside);
  }

  /** The fields of a brace group after the first one, up to its closing brace. */
  lemma GroupClosed(s: string, i: nat, fields: seq<Field>, close: string)
    requires AreFields(fields) && IsClosing(close) && fields != [] && At(s, i, Text(Braced(Joined(fields, close))))
    ensures var at := i + 1 + |FieldText(fields[0])|;
      && At(s, i + 1, FieldText(fields[0])) && StandClosed(s, at, fields[1..], close)
      && at + |Text(Tail(fields[1..]))| + |close| + 1 == i + |Text(Braced(Joined(fields, close)))|
  {
    hide *;
    var at := i + 1 + |FieldText(fields[0])|;
    var k := at + |Text(Tail(fields[1..]))|;
    JoinedNested(fields, close);
    MatchingBraced(s, i, Joined(fields, close));
    FieldsHead(fields);
    JoinedAt(s, i + 1, fields, close);
    StandMeans(s, at, fields[1..]);
    ThenBrace(s, k, close);
    ClosedMeans(s, at, fields[1..], close);
  }

  lemma ThenBrace(s: string, k: nat, close: string)
    requires IsClosing(close) && At(s, k, close) && k + |close| < |s| && s[k + |close|] == '}'
    ensures ClosedAt(s, k, close)
  {
    assert s[k..k + |close + "}"|] == close + "}";
  }

  lemma ClosesVector(consts: map<string, Entry>, s: string, close: nat, st: State)
    requires close < |s| && s[close] == '}' && st.depth == 1
    ensures Entries(consts, s, close, st) == []
  {
    hide Entries;
    CloseRound(consts, s, close, st);
  }

  // --------------------------------------------------------------- whole vectors

  /** An element of a vector: a declaration in place, or the name of a shared constant. */
  datatype Item = Inline(d: Decl) | Shared(gap: seq<Piece>, name: string)

  predicate IsItem(item: Item) {
    match item
    case Inline(d) => WellWritten(d)
    case Shared(gap, name) => IsGap(gap) && IsWord(name) && IsLetter(name[0])
  }

  predicate AreItems(items: seq<Item>) { forall k :: 0 <= k < |items| ==> IsItem(items[k]) }

  function ItemField(item: Item): Field {
    match item
    case Inline(d) => Field(d.layout.gap, Written(d))
    case Shared(gap, name) => Field(gap, Plainly(name))
  }

  function ItemFields(items: seq<Item>): (fields: seq<Field>)
    ensures |fields| == |items|
  {
    seq(|items|, k requires 0 <= k < |items| => ItemField(items[k]))
  }

  function WrittenItems(items: seq<Item>, close: string): seq<Piece> { Braced(Joined(ItemFields(items), close)) }

  /** What the flat reader reports of an element: an unknown constant is passed over. */
  function Found(consts: map<string, Entry>, item: Item): seq<Entry> {
    match item
    case Inline(d) => [Flat(d)]
    case Shared(_, name) => if name in consts then [consts[name]] else []
  }

  function AllFound(consts: map<string, Entry>, items: seq<Item>): seq<Entry> {
    if items == [] then [] else Found(consts, items[0]) + AllFound(consts, items[1..])
  }

  lemma ItemIsField(item: Item)
    requires IsItem(item)
    ensures IsField(ItemField(item))
  {
    match item
    case Inline(d) =>
      WrittenIsBody(d);
      WellWrittenParts(d);
      FieldIs(d.layout.gap, Written(d));
    case Shared(gap, name) =>
      WordChars(name);
      LetterVisible(name[0]);
      PlainBody(name);
      FieldIs(gap, Plainly(name));
  }

  lemma LetterVisible(c: char)
    requires IsLetter(c)
    ensures !IsSpace(c)
  {
  }

  lemma ItemsAreFields(items: seq<Item>)
    requires AreItems(items)
    ensures AreFields(ItemFields(items))
  {
    hide IsItem, IsField, ItemField;
    forall k | 0 <= k < |items|
      ensures IsField(ItemFields(items)[k])
    {
      ItemIsField(items[k]);
    }
  }

  lemma ItemsHead(consts: map<string, Entry>, items: seq<Item>)
    requires AreItems(items) && items != []
    ensures ItemFields(items)[0] == ItemField(items[0]) && ItemFields(items)[1..] == ItemFields(items[1..])
    ensures ItemFields(items) != [] && IsItem(items[0]) && AreItems(items[1..])
    ensures AllFound(consts, items) == Found(consts, items[0]) + AllFound(consts, items[1..])
  {
    hide IsItem, ItemField, Found;
  }

  lemma NoItems(consts: map<string, Entry>)
    ensures ItemFields([]) == [] && AllFound(consts, []) == []
  {
  }

  /** A constant's name adds the constant's entry and changes nothing. */
  lemma SharedStep(consts: map<string, Entry>, s: string, i: nat, name: string, st: State)
    requires IsWord(name) && IsLetter(name[0]) && At(s, i, name) && Stops(s, i + |name|) && st.depth == 1
    ensures Entries(consts, s, i, st)
         == (if name in consts then [consts[name]] else []) + Entries(consts, s, i + |name|, st)
  {
    var e := i + |name|;
    forall k | i <= k < e
      ensures s[k] == name[k - i]
    {
      AtIndex(s, i, name, k - i);
    }
    WordStops(s, i + 1, e);
    hide Entries, WordEnd;
    ConstRound(consts, s, i, st);
    assert s[i..e] == name;
  }

  lemma {:induction false} WordStops(s: string, i: nat, end: nat)
    requires i <= end < |s| && Stops(s, end) && forall k :: i <= k < end ==> IsWordChar(s[k])
    ensures WordEnd(s, i, |s|) == end
    decreases end - i
  {
    if i < end { WordStops(s, i + 1, end); }
  }

  lemma SharedIs(consts: map<string, Entry>, gap: seq<Piece>, name: string)
    requires IsItem(Shared(gap, name))
    ensures IsGap(gap) && IsWord(name) && IsLetter(name[0]) && ItemField(Shared(gap, name)) == Field(gap, Plainly(name))
    ensures Found(consts, Shared(gap, name)) == if name in consts then [consts[name]] else []
  {
  }

  lemma InlineIs(consts: map<string, Entry>, d: Decl)
    requires IsItem(Inline(d))
    ensures WellWritten(d) && IsGap(d.layout.gap) && ItemField(Inline(d)) == Field(d.layout.gap, Written(d))
    ensures Found(consts, Inline(d)) == [Flat(d)]
  {
    WellWrittenParts(d);
  }

  /** An element of the vector, gap and all. */
  lemma ItemStep(consts: map<string, Entry>, s: string, i: nat, item: Item, st: State)
      returns (after: State)
    requires IsItem(item) && st.depth == 1
    requires At(s, i, FieldText(ItemField(item))) && Stops(s, i + |FieldText(ItemField(item))|)
    ensures i + |FieldText(ItemField(item))| <= |s| && after.depth == 1
    ensures Entries(consts, s, i, st)
         == Found(consts, item) + Entries(consts, s, i + |FieldText(ItemField(item))|, after)
  {
    hide *;
    var f := ItemField(item);
    var k := i + |Text(f.gap)|;
    FieldAt(s, i, f);
    match item
    case Inline(d) =>
      InlineIs(consts, d);
      SkipsTrivia(consts, s, i, f.gap, st);
      after := EntryStep(consts, s, k, d, st);
    case Shared(gap, name) =>
      SharedIs(consts, gap, name);
      SkipsTrivia(consts, s, i, f.gap, st);
      TextPlainly(name);
      SharedStep(consts, s, k, name, st);
      after := st;
  }

  lemma FoundOnce(a: seq<Entry>, b: seq<Entry>, c: seq<Entry>, d: seq<Entry>)
    requires b == c + d
    ensures a + b == a + c + d
  {
  }

  lemma {:induction false} EntriesTail(consts: map<string, Entry>, s: string, i: nat, items: seq<Item>, close: string,
      st: State)
    requires AreItems(items) && StandClosed(s, i, ItemFields(items), close) && st.depth == 1
    ensures i <= |s| && Entries(consts, s, i, st) == AllFound(consts, items)
    decreases |items|
  {
    hide *;
    var fields := ItemFields(items);
    ClosedBound(s, i, fields, close);
    if items == [] {
      NoItems(consts);
      NoTail(i);
      SkipsClosing(consts, s, i, close, st);
      ClosesVector(consts, s, i + |close|, st);
    } else {
      ItemsHead(consts, items);
      ClosedHead(s, i, fields, close);
      SkipsComma(consts, s, i, st);
      var after := ItemStep(consts, s, i + 1, items[0], st);
      EntriesTail(consts, s, Next(i, fields[0]), items[1..], close, after);
    }
  }

  /**
    On a written vector the flat reader reports one entry for each declaration: the name as
    spelled in its literal, the type unless the entry's text mentions skip_type_check
    anywhere, and whether the argument is required; and the entry of each shared constant.
   */
  lemma FlatReads(consts: map<string, Entry>, s: string, i: nat, items: seq<Item>, close: string)
    requires AreItems(items) && IsClosing(close) && At(s, i, Text(WrittenItems(items, close)))
    ensures i < |s| && Entries(consts, s, i, INITIAL) == AllFound(consts, items)
  {
    hide *;
    var fields := ItemFields(items);
    ItemsAreFields(items);
    ItemsAre(items, close);
    GroupSpans(s, i, fields, close);
    OpensVector(consts, s, i);
    var st := AfterOpen(i, INITIAL);
    if items == [] {
      NoItems(consts);
      JoinedNested(fields, close);
      MatchingBraced(s, i, Joined(fields, close));
      NoText(fields, close);
      ClosesVector(consts, s, i + 1, st);
    } else {
      ItemsHead(consts, items);
      GroupClosed(s, i, fields, close);
      var at := i + 1 + |FieldText(fields[0])|;
      TailStops(s, at, fields[1..], close);
      var after := ItemStep(consts, s, i + 1, items[0], st);
      EntriesTail(consts, s, at, items[1..], close, after);
    }
  }

  lemma ItemsAre(items: seq<Item>, close: string)
    ensures WrittenItems(items, close) == Braced(Joined(ItemFields(items), close))
  {
  }

  /** A comma or what closes the group stops whatever stands before it. */
  lemma TailStops(s: string, i: nat, fields: seq<Field>, close: string)
    requires StandClosed(s, i, fields, close)
    ensures Stops(s, i)
  {
    hide *;
    if fields == [] {
      ClosedBound(s, i, fields, close);
      NoTail(i);
      ClosedStops(s, i, close);
    } else {
      ClosedHead(s, i, fields, close);
      CommaStops(s, i);
    }
  }

  lemma OpensVector(consts: map<string, Entry>, s: string, i: nat)
    requires i < |s| && s[i] == '{'
    ensures AfterOpen(i, INITIAL).depth == 1
    ensures Entries(consts, s, i, INITIAL) == Entries(consts, s, i + 1, AfterOpen(i, INITIAL))
  {
    hide Entries;
    OpenRound(consts, s, i, INITIAL);
  }

  lemma NoText(fields: seq<Field>, close: string)
    requires fields == []
    ensures Text(Joined(fields, close)) == ""
  {
  }
}
