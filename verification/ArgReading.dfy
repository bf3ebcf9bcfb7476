/**
  Reading written declarations: at any place of any text the recursive reader makes of them
  what was written, as far down as it reads.
 */
module ArgReading {
  import opened Wrappers
  import opened SourceScanner
  import opened SourceText
  import opened SourceFields
  import opened ArgParser
  import opened ArgDeclaration
  import opened ArgOptions

  // ------------------------------------------------------- what should come back

  /** What the reader makes of d at this depth: decoys turn hidden, and what is too deep is lost. */
  function AsRead(d: Decl, depth: nat): Option<Arg>
    requires depth <= DEEPEST + 1
    decreases DEEPEST + 1 - depth, 0
  {
    if depth > DEEPEST then None
    else Some(Arg(d.name, d.type_, AllAsRead(d.inner, depth + 1), d.oneline, d.hidden || Decoy(d.oneline, d.hidden)))
  }

  function AllAsRead(ds: seq<Decl>, depth: nat): (args: seq<Arg>)
    requires depth <= DEEPEST + 1
    ensures |args| <= |ds|
    decreases DEEPEST + 1 - depth, 1, |ds|
  {
    if ds == [] then []
    else
      var arg := AsRead(ds[0], depth);
      (if arg.Some? then [arg.value] else []) + AllAsRead(ds[1..], depth)
  }

  // ------------------------------------------------------------ reading a field

  predicate AllWellWritten(ds: seq<Decl>) {
    forall k :: 0 <= k < |ds| ==> WellWritten(ds[k])
  }

  lemma WrittenAreFields(ds: seq<Decl>)
    requires AllWellWritten(ds)
    ensures AreFields(AllWritten(ds))
  {
    forall k | 0 <= k < |ds|
      ensures IsField(AllWritten(ds)[k])
    {
      WrittenIsBody(ds[k]);
      WellWrittenParts(ds[k]);
    }
  }

  /** A field's gap is skipped, and its body stands behind it. */
  lemma SkipsGap(s: string, i: nat, f: Field)
    requires IsField(f) && At(s, i, FieldText(f))
    ensures var k := i + |Text(f.gap)|;
      && i <= k < k + |Text(f.body)| == i + |FieldText(f)| <= |s| && Trivia(s, i) == k
      && At(s, k, Text(f.body)) && s[k..k + |Text(f.body)|] == Text(f.body)
  {
    hide *;
    var k := i + |Text(f.gap)|;
    FieldBody(f);
    FieldAt(s, i, f);
    GapSkipped(s, i, f.gap);
    BodyVisible(s, k, f.body);
    AtSlice(s, k, Text(f.body));
    SliceIs(s, k, k + |Text(f.body)|);
    VisibleStops(s, k);
  }

  lemma SliceIs(s: string, lo: nat, hi: nat)
    requires lo <= hi <= |s|
    ensures Slice(s, lo, hi) == s[lo..hi]
  {
  }

  lemma VisibleStops(s: string, i: nat)
    requires i < |s| && !IsSpace(s[i]) && s[i] != '/'
    ensures Trivia(s, i) == i
  {
  }

  lemma ReadFieldText(consts: map<string, string>, s: string, field: Span, k: nat, depth: nat, arg: Arg)
    requires field.lo <= field.hi <= |s| && depth <= DEEPEST
    requires k == Trivia(s, field.lo) && k < field.hi && s[k] != '{'
    ensures ReadField(consts, s, field, depth, arg) == ReadText(s[k..field.hi], arg)
  {
    hide Trivia, ReadText;
  }

  lemma FieldBody(f: Field)
    requires IsField(f)
    ensures IsBody(f.body) && f.body != [] && IsGap(f.gap)
  {
  }

  /** A field that is not a brace group is read as its own text. */
  lemma ReadsText(consts: map<string, string>, s: string, i: nat, f: Field, depth: nat, arg: Arg)
    requires IsField(f) && f.body != [] && f.body[0] != Plain('{') && At(s, i, FieldText(f)) && depth <= DEEPEST
    ensures i + |FieldText(f)| <= |s|
    ensures ReadField(consts, s, Span(i, i + |FieldText(f)|), depth, arg) == ReadText(Text(f.body), arg)
  {
    hide *;
    var k := i + |Text(f.gap)|;
    FieldBody(f);
    SkipsGap(s, i, f);
    NoBrace(s, k, f.body);
    ReadFieldText(consts, s, Span(i, i + |FieldText(f)|), k, depth, arg);
  }

  lemma NoBrace(s: string, k: nat, body: seq<Piece>)
    requires IsBody(body) && body[0] != Plain('{') && At(s, k, Text(body))
    ensures k < |s| && s[k] != '{'
  {
    BodyVisible(s, k, body);
  }

  lemma ReadType(t: string, arg: Arg)
    requires IsWord(t)
    ensures ReadText(Text(Plainly(TYPE + t)), arg) == arg.(type_ := Some(t))
  {
    TextPlainly(TYPE + t);
    hide Plainly, Text;
    var x := TYPE + t;
    var e := WordEnd(x, |TYPE|, |x|);
    assert forall k :: |TYPE| <= k < |x| ==> x[k] == t[k - |TYPE|] && IsWordChar(x[k]);
    assert e == |x|;
    assert x[|TYPE|..e] == t;
    assert At(x, 0, TYPE);
    hide At, WordEnd;
  }

  lemma ReadNeither(x: string, arg: Arg)
    requires |x| > 8 && x[0] == 'R' && x[6] == ':' && x[8] != 'T'
    ensures ReadText(x, arg) == arg
  {
    hide At;
    AtChar(x, 0, TYPE, 8);
    AtChar(x, 0, OPTIONS, 6);
    assert SpaceEnd(x, 0) == 0;
  }

  /** A fallback with a brace group says nothing to this reader. */
  lemma ReadGrouped(name: string, ps: seq<Piece>, arg: Arg)
    requires |name| > 8 && name[0] == 'R' && name[6] == ':' && name[8] != 'T'
    ensures ReadText(Text(Plainly(name) + Braced(ps)), arg) == arg
  {
    hide Text, Plainly, Braced, ReadText;
    TextConcat(Plainly(name), Braced(ps));
    TextPlainly(name);
    ReadNeither(name + Text(Braced(ps)), arg);
  }

  lemma ReadFallback(f: Fallback, arg: Arg)
    ensures ReadText(Text(FallbackBody(f)), arg) == arg
    ensures FallbackBody(f) != [] && FallbackBody(f)[0] != Plain('{')
  {
    hide ReadText, Text, Braced;
    match f
    case Required => TextPlainly("RPCArg::Optional::NO"); ReadNeither("RPCArg::Optional::NO", arg);
    case Omitted => TextPlainly("RPCArg::Optional::OMITTED"); ReadNeither("RPCArg::Optional::OMITTED", arg);
    case Preset(value) => ReadGrouped(PRESET, value, arg);
    case Hint(text) => ReadGrouped(HINT, [Quoted(text)], arg);
  }

  lemma ReadDescription(text: string, arg: Arg)
    ensures ReadText(Text([Quoted(text)]), arg) == arg
  {
    var x := Text([Quoted(text)]);
    assert x[0] == '"';
    hide At, Text;
    AtChar(x, 0, TYPE, 0);
    AtChar(x, 0, OPTIONS, 0);
    assert SpaceEnd(x, 0) == 0;
  }

  // ------------------------------------------------------- reading the fields

  /** Fields stand in s from i, each after a comma. */
  predicate Stand(s: string, i: nat, fields: seq<Field>) {
    AreFields(fields) && At(s, i, Text(Tail(fields)))
  }

  lemma StandMeans(s: string, i: nat, fields: seq<Field>)
    ensures Stand(s, i, fields) <==> AreFields(fields) && At(s, i, Text(Tail(fields)))
  {
  }

  /** Where the fields after the first one stand. */
  function Next(i: nat, f: Field): nat { i + 1 + |FieldText(f)| }

  lemma NextIs(i: nat, f: Field)
    ensures Next(i, f) == i + 1 + |FieldText(f)|
  {
  }

  lemma StandHead(s: string, i: nat, fields: seq<Field>)
    requires Stand(s, i, fields) && fields != []
    ensures var end := Next(i, fields[0]);
      && i + 1 <= end <= |s| && s[i] == ',' && end == i + 1 + |FieldText(fields[0])|
      && IsField(fields[0]) && At(s, i + 1, FieldText(fields[0])) && Stand(s, end, fields[1..])
      && TailSpans(i, fields) == [Span(i + 1, end)] + TailSpans(end, fields[1..])
  {
    hide *;
    NextIs(i, fields[0]);
    StandMeans(s, i, fields);
    StandMeans(s, Next(i, fields[0]), fields[1..]);
    TailSpansHead(i, fields);
    FieldsHead(fields);
    TailHead(s, i, fields);
  }

  lemma InTextHead(s: string, span: Span, spans: seq<Span>)
    requires span.lo <= span.hi <= |s| && InText(s, spans)
    ensures InText(s, [span] + spans)
  {
  }

  lemma {:induction false} StandInText(s: string, i: nat, fields: seq<Field>)
    requires Stand(s, i, fields)
    ensures InText(s, TailSpans(i, fields))
    decreases |fields|
  {
    hide *;
    if fields == [] {
      NoTail(i);
      NothingInText(s);
    } else {
      var end := Next(i, fields[0]);
      StandHead(s, i, fields);
      StandInText(s, end, fields[1..]);
      InTextHead(s, Span(i + 1, end), TailSpans(end, fields[1..]));
    }
  }

  lemma NothingInText(s: string)
    ensures InText(s, [])
  {
  }

  /** The fields standing at i, read one after another. */
  function Reads(consts: map<string, string>, s: string, i: nat, fields: seq<Field>, depth: nat, arg: Arg): Arg
    requires Stand(s, i, fields) && depth <= DEEPEST
  {
    StandInText(s, i, fields);
    ReadFields(consts, s, TailSpans(i, fields), depth, arg)
  }

  lemma ReadsHead(consts: map<string, string>, s: string, i: nat, fields: seq<Field>, depth: nat, arg: Arg)
    requires Stand(s, i, fields) && fields != [] && depth <= DEEPEST
    ensures i + 1 <= Next(i, fields[0]) <= |s| && Stand(s, Next(i, fields[0]), fields[1..])
    ensures Reads(consts, s, i, fields, depth, arg)
         == Reads(consts, s, Next(i, fields[0]), fields[1..], depth,
                  ReadField(consts, s, Span(i + 1, Next(i, fields[0])), depth, arg))
  {
    hide ReadField, Stand, Text, TailSpans, InText, Next;
    StandHead(s, i, fields);
    StandInText(s, i, fields);
    var end := Next(i, fields[0]);
    assert TailSpans(i, fields)[1..] == TailSpans(end, fields[1..]);
  }

  /** As ReadsHead, for a field that is not a brace group. */
  lemma ReadsTextHead(consts: map<string, string>, s: string, i: nat, fields: seq<Field>, depth: nat, arg: Arg)
    requires Stand(s, i, fields) && fields != [] && depth <= DEEPEST
    requires fields[0].body != [] && fields[0].body[0] != Plain('{')
    ensures Next(i, fields[0]) <= |s| && Stand(s, Next(i, fields[0]), fields[1..])
    ensures Reads(consts, s, i, fields, depth, arg)
         == Reads(consts, s, Next(i, fields[0]), fields[1..], depth, ReadText(Text(fields[0].body), arg))
  {
    hide *;
    StandHead(s, i, fields);
    ReadsHead(consts, s, i, fields, depth, arg);
    ReadsText(consts, s, i + 1, fields[0], depth, arg);
  }

  lemma StepsOver(field: Field, rest: seq<Field>)
    ensures ([field] + rest)[0] == field && ([field] + rest)[1..] == rest && [field] + rest != []
  {
  }

  lemma ReadsType(consts: map<string, string>, s: string, i: nat, t: Option<string>, gap: seq<Piece>,
      rest: seq<Field>, depth: nat, arg: Arg)
      returns (j: nat)
    requires Stand(s, i, TypeFields(t, gap) + rest) && depth <= DEEPEST
    requires (t.Some? ==> IsWord(t.value)) && arg.type_ == None
    ensures Stand(s, j, rest)
    ensures Reads(consts, s, i, TypeFields(t, gap) + rest, depth, arg)
         == Reads(consts, s, j, rest, depth, arg.(type_ := t))
  {
    if t.None? {
      assert TypeFields(t, gap) + rest == rest;
      return i;
    }
    var field := Field(gap, Plainly(TYPE + t.value));
    assert field.body != [] && field.body[0] != Plain('{');
    assert TypeFields(t, gap) == [field];
    hide *;
    StepsOver(field, rest);
    ReadsTextHead(consts, s, i, [field] + rest, depth, arg);
    ReadType(t.value, arg);
    return Next(i, field);
  }

  lemma TextFieldsAre(f: Fallback, description: string, gap: seq<Piece>)
    ensures TextFields(f, description, gap) == [Field(gap, FallbackBody(f)), Field(gap, [Quoted(description)])]
  {
  }

  lemma ReadsTexts(consts: map<string, string>, s: string, i: nat, f: Fallback, description: string,
      gap: seq<Piece>, rest: seq<Field>, depth: nat, arg: Arg)
      returns (j: nat)
    requires Stand(s, i, TextFields(f, description, gap) + rest) && depth <= DEEPEST
    ensures Stand(s, j, rest)
    ensures Reads(consts, s, i, TextFields(f, description, gap) + rest, depth, arg)
         == Reads(consts, s, j, rest, depth, arg)
  {
    hide *;
    TextFieldsAre(f, description, gap);
    var fallback, text := Field(gap, FallbackBody(f)), Field(gap, [Quoted(description)]);
    var fields := [fallback, text] + rest;
    assert fields[1..] == [text] + rest;
    StepsOver(text, rest);
    ReadFallback(f, arg);
    ReadsTextHead(consts, s, i, fields, depth, arg);
    ReadDescription(description, arg);
    ReadsTextHead(consts, s, Next(i, fallback), [text] + rest, depth, arg);
    return Next(Next(i, fallback), text);
  }

  lemma ReadsOptions(consts: map<string, string>, s: string, i: nat, oneline: Option<string>, hidden: bool,
      gap: seq<Piece>, depth: nat, arg: Arg)
    requires Stand(s, i, OptionsFields(oneline, hidden, gap)) && depth <= DEEPEST
    requires arg.oneline == None && !arg.hidden
    ensures Reads(consts, s, i, OptionsFields(oneline, hidden, gap), depth, arg)
         == arg.(oneline := oneline, hidden := hidden || Decoy(oneline, hidden))
  {
    var fields := OptionsFields(oneline, hidden, gap);
    if fields == [] {
      ReadsNothing(consts, s, i, fields, depth, arg);
    } else {
      var field := Field(gap, Plainly(OPTIONS) + Braced(Options(oneline, hidden)));
      assert fields == [field] && field.body != [] && field.body[0] != Plain('{');
      assert Text(field.body) == OptionsText(oneline, hidden);
      hide *;
      assert fields[0] == field && fields[1..] == [];
      ReadsTextHead(consts, s, i, fields, depth, arg);
      ReadOptions(oneline, hidden, arg);
      ReadsNothing(consts, s, Next(i, field), [], depth, ReadText(Text(field.body), arg));
    }
  }

  lemma ReadsNothing(consts: map<string, string>, s: string, i: nat, fields: seq<Field>, depth: nat, arg: Arg)
    requires Stand(s, i, fields) && fields == [] && depth <= DEEPEST
    ensures Reads(consts, s, i, fields, depth, arg) == arg
  {
    hide Stand;
  }

  // ----------------------------------------------------------- reading it back

  lemma {:induction false} ReadTail(consts: map<string, string>, s: string, i: nat, ds: seq<Decl>, depth: nat)
    requires AllWellWritten(ds) && Stand(s, i, AllWritten(ds)) && depth <= DEEPEST + 1
    ensures InText(s, TailSpans(i, AllWritten(ds)))
    ensures ParseEach(consts, s, TailSpans(i, AllWritten(ds)), depth) == AllAsRead(ds, depth)
    decreases DEEPEST + 1 - depth, 1, |ds|
  {
    hide *;
    var fields := AllWritten(ds);
    StandInText(s, i, fields);
    if ds == [] {
      NothingRead(consts, s, i, depth);
    } else {
      FirstWritten(ds);
      StandHead(s, i, fields);
      var end := Next(i, fields[0]);
      ReadTail(consts, s, end, ds[1..], depth);
      ReadWritten(consts, s, i + 1, ds[0].layout.gap, ds[0], depth);
      FirstRead(consts, s, Span(i + 1, end), TailSpans(end, fields[1..]), ds, depth);
    }
  }

  lemma NothingRead(consts: map<string, string>, s: string, i: nat, depth: nat)
    requires depth <= DEEPEST + 1
    ensures AllWritten([]) == [] && TailSpans(i, []) == [] && InText(s, [])
    ensures ParseEach(consts, s, [], depth) == AllAsRead([], depth)
  {
  }

  lemma WrittenHead(ds: seq<Decl>)
    requires ds != []
    ensures AllWritten(ds) != [] && AllWritten(ds)[0] == Field(ds[0].layout.gap, Written(ds[0]))
    ensures AllWritten(ds)[1..] == AllWritten(ds[1..])
  {
    hide Written;
    var rest := AllWritten(ds)[1..];
    forall k | 0 <= k < |rest|
      ensures rest[k] == AllWritten(ds[1..])[k]
    {
      assert ds[1..][k] == ds[k + 1];
    }
  }

  lemma FirstWritten(ds: seq<Decl>)
    requires ds != [] && AllWellWritten(ds)
    ensures AllWritten(ds) != [] && AllWritten(ds)[0] == Field(ds[0].layout.gap, Written(ds[0]))
    ensures AllWritten(ds)[1..] == AllWritten(ds[1..])
    ensures WellWritten(ds[0]) && AllWellWritten(ds[1..]) && IsGap(ds[0].layout.gap)
  {
    hide AllWritten, WellWritten, IsGap;
    WrittenHead(ds);
    WellWrittenParts(ds[0]);
  }

  lemma FirstRead(consts: map<string, string>, s: string, span: Span, rest: seq<Span>, ds: seq<Decl>, depth: nat)
    requires span.lo <= span.hi <= |s| && InText(s, rest) && ds != [] && depth <= DEEPEST + 1
    requires Parse(consts, s, span.lo, span.hi, depth) == AsRead(ds[0], depth)
    requires ParseEach(consts, s, rest, depth) == AllAsRead(ds[1..], depth)
    ensures InText(s, [span] + rest)
    ensures ParseEach(consts, s, [span] + rest, depth) == AllAsRead(ds, depth)
  {
    hide Parse, AsRead;
    var spans := [span] + rest;
    assert spans[0] == span && spans[1..] == rest;
    assert InText(s, spans);
  }

  /** The arguments of a brace group of written declarations. */
  lemma {:induction false} ReadGroup(consts: map<string, string>, s: string, i: nat, ds: seq<Decl>, close: string,
      depth: nat)
    requires AllWellWritten(ds) && IsClosing(close) && depth <= DEEPEST + 1 && At(s, i, Text(WrittenVector(ds, close)))
    ensures i < |s| && ParseEach(consts, s, BraceFields(s, i), depth) == AllAsRead(ds, depth)
    decreases DEEPEST + 1 - depth, 2, 0
  {
    hide *;
    var fields := AllWritten(ds);
    WrittenAreFields(ds);
    VectorIs(ds, close);
    GroupSpans(s, i, fields, close);
    if ds == [] {
      NothingRead(consts, s, i, depth);
      NoSpans(i + 1);
    } else {
      FirstWritten(ds);
      var end := i + 1 + |FieldText(fields[0])|;
      ReadTail(consts, s, end, ds[1..], depth);
      ReadWritten(consts, s, i + 1, ds[0].layout.gap, ds[0], depth);
      FirstRead(consts, s, Span(i + 1, end), TailSpans(end, fields[1..]), ds, depth);
    }
  }

  lemma VectorIs(ds: seq<Decl>, close: string)
    ensures WrittenVector(ds, close) == Braced(Joined(AllWritten(ds), close))
  {
  }

  lemma NoSpans(i: nat)
    ensures JoinedSpans(i, []) == []
  {
  }

  /** The fields of a brace group are found where they were written. */
  lemma GroupSpans(s: string, i: nat, fields: seq<Field>, close: string)
    requires AreFields(fields) && IsClosing(close) && At(s, i, Text(Braced(Joined(fields, close))))
    ensures i < i + |Text(Braced(Joined(fields, close)))| <= |s| && s[i] == '{'
    ensures Matching(s, i, 0) == i + |Text(Braced(Joined(fields, close)))|
    ensures BraceFields(s, i) == JoinedSpans(i + 1, fields)
    ensures fields != [] ==> var end := i + 1 + |FieldText(fields[0])|;
      && end <= |s| && At(s, i + 1, FieldText(fields[0])) && Stand(s, end, fields[1..])
      && BraceFields(s, i) == [Span(i + 1, end)] + TailSpans(end, fields[1..])
  {
    hide *;
    JoinedNested(fields, close);
    MatchingBraced(s, i, Joined(fields, close));
    FieldsJoined(s, i + 1, fields, close);
    BraceFieldsAre(s, i);
    if fields != [] {
      JoinedHead(i + 1, fields);
      FieldsHead(fields);
      JoinedAt(s, i + 1, fields, close);
      StandMeans(s, i + 1 + |FieldText(fields[0])|, fields[1..]);
    }
  }

  lemma BraceFieldsAre(s: string, i: nat)
    requires i < |s|
    ensures BraceFields(s, i) == Fields(s, i + 1, Matching(s, i, 0) - 1, 0, i + 1)
  {
  }

  lemma ReadFieldBraces(consts: map<string, string>, s: string, field: Span, k: nat, depth: nat, arg: Arg)
    requires field.lo <= field.hi <= |s| && depth <= DEEPEST
    requires k == Trivia(s, field.lo) && k < field.hi && s[k] == '{'
    ensures ReadField(consts, s, field, depth, arg)
         == arg.(inner := ParseEach(consts, s, BraceFields(s, k), depth + 1))
  {
    hide Trivia, ParseEach, BraceFields;
  }

  lemma {:induction false} ReadsInner(consts: map<string, string>, s: string, i: nat, ds: seq<Decl>, layout: Layout,
      rest: seq<Field>, depth: nat, arg: Arg)
      returns (j: nat)
    requires Stand(s, i, InnerFields(AllWritten(ds), layout) + rest) && depth <= DEEPEST
    requires AllWellWritten(ds) && IsLayout(layout) && arg.inner == []
    ensures Stand(s, j, rest)
    ensures Reads(consts, s, i, InnerFields(AllWritten(ds), layout) + rest, depth, arg)
         == Reads(consts, s, j, rest, depth, arg.(inner := AllAsRead(ds, depth + 1)))
    decreases DEEPEST + 1 - depth, 0, 1
  {
    hide *;
    if ds == [] {
      NoInner(ds, layout, depth);
      NothingMore(rest);
      return i;
    }
    var group := Field(layout.gap, WrittenVector(ds, layout.close));
    GapIsGap(layout);
    InnerIs(ds, layout);
    StepsOver(group, rest);
    StandHead(s, i, [group] + rest);
    ReadsHead(consts, s, i, [group] + rest, depth, arg);
    j := Next(i, group);
    SkipsGap(s, i + 1, group);
    var k := i + 1 + |Text(layout.gap)|;
    OpensGroup(s, k, group);
    ReadFieldBraces(consts, s, Span(i + 1, j), k, depth, arg);
    ReadGroup(consts, s, k, ds, layout.close, depth + 1);
  }

  lemma OpensGroup(s: string, k: nat, f: Field)
    requires IsField(f) && f.body != [] && f.body[0] == Plain('{') && At(s, k, Text(f.body))
    ensures k < |s| && s[k] == '{'
  {
    BodyVisible(s, k, f.body);
  }

  lemma NoInner(ds: seq<Decl>, layout: Layout, depth: nat)
    requires ds == [] && depth <= DEEPEST
    ensures InnerFields(AllWritten(ds), layout) == [] && AllAsRead(ds, depth + 1) == []
  {
  }

  lemma NothingMore(rest: seq<Field>)
    ensures [] + rest == rest
  {
  }

  lemma InnerIs(ds: seq<Decl>, layout: Layout)
    requires ds != []
    ensures InnerFields(AllWritten(ds), layout) == [Field(layout.gap, WrittenVector(ds, layout.close))]
    ensures WrittenVector(ds, layout.close) != [] && WrittenVector(ds, layout.close)[0] == Plain('{')
  {
  }

  lemma InnerWellWritten(d: Decl)
    requires WellWritten(d)
    ensures AllWellWritten(d.inner)
  {
  }

  /** The fields after the name, read into an argument that only has its name. */
  lemma {:induction false} ReadRest(consts: map<string, string>, s: string, i: nat, d: Decl, depth: nat)
    requires WellWritten(d) && depth <= DEEPEST && Stand(s, i, Rest(d, AllWritten(d.inner)))
    ensures Some(Reads(consts, s, i, Rest(d, AllWritten(d.inner)), depth, Arg(d.name, None, [], None, false)))
         == AsRead(d, depth)
    decreases DEEPEST + 1 - depth, 0, 2
  {
    hide *;
    var gap := d.layout.gap;
    var inner, options := InnerFields(AllWritten(d.inner), d.layout), OptionsFields(d.oneline, d.hidden, gap);
    var texts := TextFields(d.fallback, d.description, gap);
    RestGroups(d, AllWritten(d.inner));
    WellWrittenParts(d);
    InnerWellWritten(d);
    ReadIs(d, depth);
    var arg := Arg(d.name, None, [], None, false);
    var j := ReadsType(consts, s, i, d.type_, gap, texts + (inner + options), depth, arg);
    arg := arg.(type_ := d.type_);
    var k := ReadsTexts(consts, s, j, d.fallback, d.description, gap, inner + options, depth, arg);
    var m := ReadsInner(consts, s, k, d.inner, d.layout, options, depth, arg);
    arg := arg.(inner := AllAsRead(d.inner, depth + 1));
    ReadsOptions(consts, s, m, d.oneline, d.hidden, gap, depth, arg);
  }

  lemma ReadIs(d: Decl, depth: nat)
    requires depth <= DEEPEST
    ensures AsRead(d, depth) == Some(Arg(d.name, d.type_, AllAsRead(d.inner, depth + 1), d.oneline,
      d.hidden || Decoy(d.oneline, d.hidden)))
  {
  }

  lemma RestGroups(d: Decl, kids: seq<Field>)
    ensures Rest(d, kids) == TypeFields(d.type_, d.layout.gap) + (TextFields(d.fallback, d.description, d.layout.gap)
      + (InnerFields(kids, d.layout) + OptionsFields(d.oneline, d.hidden, d.layout.gap)))
  {
    hide TextFields, TypeFields, InnerFields, OptionsFields;
  }

  lemma LiteralsQuoted(s: string, i: nat, value: string)
    requires At(s, i, Text([Quoted(value)]))
    ensures i + |Text([Quoted(value)])| <= |s| && Literals(s, i, i + |Text([Quoted(value)])|) == value
  {
    TextOne(Quoted(value));
    hide At, Text, PieceText, Escape, StringEnd, Unescape, Slice;
    AtEnd(s, i, PieceText(Quoted(value)));
    QuotedEnds(s, i, value);
    UnescapeEscape(value);
    var end := i + |PieceText(Quoted(value))|;
    assert Literals(s, end, end) == "";
  }

  lemma NameText(name: string)
    ensures FieldText(NameField(name)) == Text([Quoted(name)])
  {
    hide PieceText;
    assert Text([]) + Text([Quoted(name)]) == Text([Quoted(name)]);
  }

  lemma ParseOpens(consts: map<string, string>, s: string, a: nat, b: nat, i: nat, depth: nat)
    requires b <= |s| && depth <= DEEPEST && i == Trivia(s, a) && i < b && s[i] == '{'
    ensures Parse(consts, s, a, b, depth) == ParseBraces(consts, s, i, depth)
  {
    hide Trivia, ParseBraces;
  }

  lemma BracesRead(consts: map<string, string>, s: string, i: nat, end: nat, rest: seq<Field>, name: string,
      depth: nat)
    requires i < |s| && depth <= DEEPEST && end <= |s| && i < end
    requires Stand(s, end, rest) && BraceFields(s, i) == [Span(i + 1, end)] + TailSpans(end, rest)
    requires Literals(s, i + 1, end) == name
    ensures ParseBraces(consts, s, i, depth)
         == Some(Reads(consts, s, end, rest, depth, Arg(name, None, [], None, false)))
  {
    hide BraceFields, Literals, TailSpans, ReadFields, Stand;
    assert BraceFields(s, i)[1..] == TailSpans(end, rest);
  }

  /** One written declaration after a gap: it reads as AsRead says, whatever text surrounds it. */
  lemma {:induction false} ReadWritten(consts: map<string, string>, s: string, a: nat, gap: seq<Piece>, d: Decl,
      depth: nat)
    requires WellWritten(d) && IsGap(gap) && depth <= DEEPEST + 1 && At(s, a, FieldText(Field(gap, Written(d))))
    ensures a + |FieldText(Field(gap, Written(d)))| <= |s|
    ensures Parse(consts, s, a, a + |FieldText(Field(gap, Written(d)))|, depth) == AsRead(d, depth)
    decreases DEEPEST + 1 - depth, 0, 4
  {
    hide *;
    var f := Field(gap, Written(d));
    var b := a + |FieldText(f)|;
    AtEnd(s, a, FieldText(f));
    if depth > DEEPEST {
      TooDeep(consts, s, a, b, d, depth);
    } else {
      var i := a + |Text(gap)|;
      WrittenIsBody(d);
      FieldIs(gap, Written(d));
      SkipsGap(s, a, f);
      BodyRead(consts, s, i, d, depth);
      ParseOpens(consts, s, a, b, i, depth);
    }
  }

  /** The brace group of a written declaration. */
  lemma {:induction false} BodyRead(consts: map<string, string>, s: string, i: nat, d: Decl, depth: nat)
    requires WellWritten(d) && depth <= DEEPEST && At(s, i, Text(Written(d)))
    ensures i < |s| && s[i] == '{' && ParseBraces(consts, s, i, depth) == AsRead(d, depth)
    decreases DEEPEST + 1 - depth, 0, 3
  {
    hide *;
    var rest := Rest(d, AllWritten(d.inner));
    var end := i + 1 + |Text([Quoted(d.name)])|;
    WellWrittenParts(d);
    WrittenParts(d);
    PartsAreFields(d);
    GroupSpans(s, i, [NameField(d.name)] + rest, d.layout.close);
    StepsOver(NameField(d.name), rest);
    NameText(d.name);
    LiteralsQuoted(s, i + 1, d.name);
    BracesRead(consts, s, i, end, rest, d.name, depth);
    ReadRest(consts, s, end, d, depth);
  }

  lemma TooDeep(consts: map<string, string>, s: string, a: nat, b: nat, d: Decl, depth: nat)
    requires b <= |s| && depth == DEEPEST + 1
    ensures Parse(consts, s, a, b, depth) == None && AsRead(d, depth) == None
  {
  }

  lemma PartsAreFields(d: Decl)
    requires WellWritten(d)
    ensures AreFields([NameField(d.name)] + Rest(d, AllWritten(d.inner)))
  {
    WellWrittenParts(d);
    WrittenAreFields(d.inner);
    hide AllWritten, Rest, AreFields;
    RestAreFields(d, AllWritten(d.inner));
  }

  lemma {:induction false} TopAllRead(ds: seq<Decl>)
    ensures |AllAsRead(ds, 0)| == |ds|
    ensures forall k :: 0 <= k < |ds| ==> Some(AllAsRead(ds, 0)[k]) == AsRead(ds[k], 0)
    decreases |ds|
  {
    if ds != [] {
      TopAllRead(ds[1..]);
      assert AsRead(ds[0], 0).Some?;
      hide AsRead;
      assert AllAsRead(ds, 0) == [AsRead(ds[0], 0).value] + AllAsRead(ds[1..], 0);
      forall k | 0 <= k < |ds|
        ensures Some(AllAsRead(ds, 0)[k]) == AsRead(ds[k], 0)
      {
        if k > 0 { assert ds[1..][k - 1] == ds[k]; }
      }
    }
  }
}
