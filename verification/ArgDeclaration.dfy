/**
  RPC argument declarations as they are written in C++: a brace literal holding the name,
  the type, the fallback, the description, the inner arguments and the options. Reading one
  gives its tree back, cut below the depth the reader goes to.
 */
module ArgDeclaration {
  import opened Wrappers
  import opened SourceScanner
  import opened SourceText
  import opened SourceFields
  import opened ArgParser

  datatype Fallback = Required | Omitted | Preset(value: seq<Piece>) | Hint(text: string)

  /** The white space and comments before each field, and what stands before the closing brace. */
  datatype Layout = Layout(gap: seq<Piece>, close: string)

  datatype Decl = Decl(name: string, type_: Option<string>, fallback: Fallback, description: string,
                       inner: seq<Decl>, oneline: Option<string>, hidden: bool, layout: Layout)

  // ------------------------------------------------------------------- writing

  predicate IsLayout(l: Layout) { IsGap(l.gap) && IsClosing(l.close) }

  /**
    A type is one of the enumerators of RPCArg::Type, so an identifier; a preset value nests its
    brackets; the texts are arbitrary.
   */
  predicate WellWritten(d: Decl) {
    && (d.type_.Some? ==> IsWord(d.type_.value))
    && (d.fallback.Preset? ==> Clean(d.fallback.value) && Nested(d.fallback.value, "", true))
    && IsLayout(d.layout)
    && forall k :: 0 <= k < |d.inner| ==> WellWritten(d.inner[k])
  }

  const PRESET := "RPCArg::Default"
  const HINT := "RPCArg::DefaultHint"

  function FallbackBody(f: Fallback): seq<Piece> {
    match f
    case Required => Plainly("RPCArg::Optional::NO")
    case Omitted => Plainly("RPCArg::Optional::OMITTED")
    case Preset(value) => Plainly(PRESET) + Braced(value)
    case Hint(text) => Plainly(HINT) + Braced([Quoted(text)])
  }

  function TypeFields(t: Option<string>, gap: seq<Piece>): seq<Field> {
    if t.None? then [] else [Field(gap, Plainly("RPCArg::Type::" + t.value))]
  }

  const SEPARATOR: seq<Piece> := [Plain(','), Plain(' ')]
  const HIDE := ".hidden = true"
  const SHOW := ".oneline_description = "

  function Options(oneline: Option<string>, hidden: bool): seq<Piece> {
    (if hidden then Plainly(HIDE) else [])
    + (if hidden && oneline.Some? then SEPARATOR else [])
    + (if oneline.Some? then Plainly(SHOW) + [Quoted(oneline.value)] else [])
  }

  function OptionsFields(oneline: Option<string>, hidden: bool, gap: seq<Piece>): seq<Field> {
    if oneline.None? && !hidden then []
    else [Field(gap, Plainly("RPCArgOptions") + Braced(Options(oneline, hidden)))]
  }

  function InnerFields(kids: seq<Field>, layout: Layout): seq<Field> {
    if kids == [] then [] else [Field(layout.gap, Braced(Joined(kids, layout.close)))]
  }

  function TextFields(f: Fallback, description: string, gap: seq<Piece>): seq<Field> {
    [Field(gap, FallbackBody(f)), Field(gap, [Quoted(description)])]
  }

  /** The fields after the name. */
  function Rest(d: Decl, kids: seq<Field>): seq<Field> {
    TypeFields(d.type_, d.layout.gap) + TextFields(d.fallback, d.description, d.layout.gap)
    + InnerFields(kids, d.layout) + OptionsFields(d.oneline, d.hidden, d.layout.gap)
  }

  function NameField(name: string): Field { Field([], [Quoted(name)]) }

  function Written(d: Decl): seq<Piece>
    decreases d
  {
    var kids :=
      seq(|d.inner|, k requires 0 <= k < |d.inner| => Field(d.inner[k].layout.gap, Written(d.inner[k])));
    Braced(Joined([NameField(d.name)] + Rest(d, kids), d.layout.close))
  }

  function AllWritten(ds: seq<Decl>): (kids: seq<Field>)
    ensures |kids| == |ds|
  {
    seq(|ds|, k requires 0 <= k < |ds| => Field(ds[k].layout.gap, Written(ds[k])))
  }

  /** The text of a vector of declarations. */
  function WrittenVector(ds: seq<Decl>, close: string): seq<Piece> { Braced(Joined(AllWritten(ds), close)) }

  // ----------------------------------------------------------- what is written

  lemma PlainBody(x: string)
    requires x != "" && !IsSpace(x[0])
    requires forall k :: 0 <= k < |x| ==> CleanChar(x[k]) && Inert(Plain(x[k]))
    ensures IsBody(Plainly(x)) && Text(Plainly(x)) == x
  {
    NestedPlainly(x);
    TextPlainly(x);
  }

  lemma WordChars(x: string)
    requires IsWord(x)
    ensures forall k :: 0 <= k < |x| ==> CleanChar(x[k]) && Inert(Plain(x[k]))
  {
  }

  lemma BracedBody(ps: seq<Piece>)
    requires Clean(ps) && Nested(ps, "", true)
    ensures IsBody(Braced(ps))
  {
    NestedBraced(ps);
  }

  lemma QuotedBodyIs(x: string)
    ensures IsBody([Quoted(x)])
  {
    assert [Quoted(x)][1..] == [];
  }

  lemma BodyIsNested(ps: seq<Piece>)
    requires IsBody(ps)
    ensures Clean(ps) && Nested(ps, "", false)
  {
  }

  lemma PrefixedBody(x: string, ps: seq<Piece>)
    requires IsBody(Plainly(x)) && Clean(ps) && Nested(ps, "", true)
    ensures IsBody(Plainly(x) + Braced(ps))
  {
    BracedBody(ps);
    NestedConcat(Plainly(x), Braced(ps), "", false);
    CleanConcat(Plainly(x), Braced(ps));
    hide Clean, Nested, Plainly, Braced, IsSpace;
  }

  lemma FallbackIsBody(f: Fallback)
    requires f.Preset? ==> Clean(f.value) && Nested(f.value, "", true)
    ensures IsBody(FallbackBody(f))
  {
    match f
    case Required => hide IsBody, Plainly; PlainBody("RPCArg::Optional::NO");
    case Omitted => hide IsBody, Plainly; PlainBody("RPCArg::Optional::OMITTED");
    case Preset(value) => PresetIsBody(value);
    case Hint(text) => HintIsBody(text);
  }

  lemma PresetIsBody(value: seq<Piece>)
    requires Clean(value) && Nested(value, "", true)
    ensures IsBody(FallbackBody(Preset(value)))
  {
    hide IsBody, Plainly, Braced, Nested, Clean;
    PlainBody(PRESET);
    PrefixedBody(PRESET, value);
  }

  lemma HintIsBody(text: string)
    ensures IsBody(FallbackBody(Hint(text)))
  {
    QuotedBodyIs(text);
    NestedWeaken([Quoted(text)], "");
    hide IsBody, Plainly, Braced, Nested, Clean;
    PlainBody(HINT);
    BodyIsNested([Quoted(text)]);
    PrefixedBody(HINT, [Quoted(text)]);
  }

  lemma TypeIsBody(t: string)
    requires IsWord(t)
    ensures IsBody(Plainly(TYPE + t))
  {
    WordChars(t);
    PlainBody(TYPE + t);
  }

  lemma OptionsNested(oneline: Option<string>, hidden: bool)
    ensures Clean(Options(oneline, hidden)) && Nested(Options(oneline, hidden), "", true)
  {
    var a := if hidden then Plainly(HIDE) else [];
    var b := if hidden && oneline.Some? then SEPARATOR else [];
    var c := if oneline.Some? then Plainly(SHOW) + [Quoted(oneline.value)] else [];
    assert Options(oneline, hidden) == a + b + c;
    hide Options, Plainly, Nested, Clean, HIDE, SHOW, SEPARATOR;
    NothingClean();
    HideNested();
    SeparatorNested();
    if oneline.Some? { ShowNested(oneline.value); }
    CleanConcat(a, b);
    CleanConcat(a + b, c);
    NestedConcat(a, b, "", true);
    NestedConcat(a + b, c, "", true);
  }

  lemma HideNested()
    ensures Clean(Plainly(HIDE)) && Nested(Plainly(HIDE), "", true)
  {
    PlainBody(HIDE);
    hide Nested, Clean, Plainly;
    NestedWeaken(Plainly(HIDE), "");
  }

  lemma SeparatorNested()
    ensures Clean(SEPARATOR) && Nested(SEPARATOR, "", true)
  {
    assert SEPARATOR[1..] == [Plain(' ')] && [Plain(' ')][1..] == [];
  }

  lemma ShowNested(value: string)
    ensures Clean(Plainly(SHOW) + [Quoted(value)]) && Nested(Plainly(SHOW) + [Quoted(value)], "", true)
  {
    PlainBody(SHOW);
    QuotedBodyIs(value);
    BodyIsNested(Plainly(SHOW));
    BodyIsNested([Quoted(value)]);
    hide Nested, Clean, Plainly, IsBody;
    CleanConcat(Plainly(SHOW), [Quoted(value)]);
    NestedConcat(Plainly(SHOW), [Quoted(value)], "", false);
    NestedWeaken(Plainly(SHOW) + [Quoted(value)], "");
  }

  lemma OptionsIsBody(oneline: Option<string>, hidden: bool)
    ensures IsBody(Plainly(OPTIONS) + Braced(Options(oneline, hidden)))
  {
    OptionsNested(oneline, hidden);
    PlainBody(OPTIONS);
    PrefixedBody(OPTIONS, Options(oneline, hidden));
  }

  lemma FieldsConcat(a: seq<Field>, b: seq<Field>)
    requires AreFields(a) && AreFields(b)
    ensures AreFields(a + b)
  {
    hide IsField;
  }

  lemma OneField(f: Field)
    requires IsField(f)
    ensures AreFields([f])
  {
    hide IsField;
  }

  lemma NameIsField(name: string)
    ensures IsField(NameField(name))
  {
    QuotedBodyIs(name);
  }

  lemma GapIsGap(l: Layout)
    requires IsLayout(l)
    ensures IsGap(l.gap) && IsClosing(l.close)
  {
  }

  lemma FieldIs(gap: seq<Piece>, body: seq<Piece>)
    requires IsGap(gap) && IsBody(body)
    ensures IsField(Field(gap, body))
  {
  }

  lemma TypeAreFields(t: Option<string>, gap: seq<Piece>)
    requires IsGap(gap) && (t.Some? ==> IsWord(t.value))
    ensures AreFields(TypeFields(t, gap))
  {
    hide IsField, Plainly, IsGap, IsBody;
    if t.Some? {
      TypeIsBody(t.value);
      FieldIs(gap, Plainly(TYPE + t.value));
    }
  }

  lemma TextAreFields(f: Fallback, description: string, gap: seq<Piece>)
    requires IsGap(gap) && (f.Preset? ==> Clean(f.value) && Nested(f.value, "", true))
    ensures AreFields(TextFields(f, description, gap))
  {
    hide IsField, FallbackBody, IsGap, IsBody;
    FallbackIsBody(f);
    QuotedBodyIs(description);
    FieldIs(gap, FallbackBody(f));
    FieldIs(gap, [Quoted(description)]);
  }

  lemma InnerAreFields(kids: seq<Field>, l: Layout)
    requires AreFields(kids) && IsLayout(l)
    ensures AreFields(InnerFields(kids, l))
  {
    hide IsField, Braced, Joined, Clean, Nested, IsGap, IsBody, IsClosing;
    GapIsGap(l);
    JoinedNested(kids, l.close);
    BracedBody(Joined(kids, l.close));
    FieldIs(l.gap, Braced(Joined(kids, l.close)));
  }

  lemma OptionsAreFields(oneline: Option<string>, hidden: bool, gap: seq<Piece>)
    requires IsGap(gap)
    ensures AreFields(OptionsFields(oneline, hidden, gap))
  {
    hide IsField, Braced, Options, Plainly, IsGap, IsBody;
    OptionsIsBody(oneline, hidden);
    FieldIs(gap, Plainly(OPTIONS) + Braced(Options(oneline, hidden)));
  }

  lemma RestIs(d: Decl, kids: seq<Field>)
    ensures Rest(d, kids) == TypeFields(d.type_, d.layout.gap) + TextFields(d.fallback, d.description, d.layout.gap)
      + InnerFields(kids, d.layout) + OptionsFields(d.oneline, d.hidden, d.layout.gap)
  {
  }

  lemma WellWrittenParts(d: Decl)
    requires WellWritten(d)
    ensures d.type_.Some? ==> IsWord(d.type_.value)
    ensures d.fallback.Preset? ==> Clean(d.fallback.value) && Nested(d.fallback.value, "", true)
    ensures IsLayout(d.layout) && IsGap(d.layout.gap) && IsClosing(d.layout.close)
    ensures forall k :: 0 <= k < |d.inner| ==> WellWritten(d.inner[k])
  {
  }

  lemma RestAreFields(d: Decl, kids: seq<Field>)
    requires WellWritten(d) && AreFields(kids)
    ensures AreFields([NameField(d.name)] + Rest(d, kids))
  {
    hide *;
    var gap := d.layout.gap;
    var types, texts := TypeFields(d.type_, gap), TextFields(d.fallback, d.description, gap);
    WellWrittenParts(d);
    TypeAreFields(d.type_, gap);
    TextAreFields(d.fallback, d.description, gap);
    InnerAreFields(kids, d.layout);
    OptionsAreFields(d.oneline, d.hidden, gap);
    RestIs(d, kids);
    FieldsConcat(types, texts);
    FieldsConcat(types + texts, InnerFields(kids, d.layout));
    FieldsConcat(types + texts + InnerFields(kids, d.layout), OptionsFields(d.oneline, d.hidden, gap));
    NameIsField(d.name);
    OneField(NameField(d.name));
    FieldsConcat([NameField(d.name)], Rest(d, kids));
  }

  lemma {:induction false} WrittenIsBody(d: Decl)
    requires WellWritten(d)
    ensures IsBody(Written(d))
    decreases d
  {
    WellWrittenParts(d);
    var kids := AllWritten(d.inner);
    forall k | 0 <= k < |kids|
      ensures IsField(kids[k])
    {
      WrittenIsBody(d.inner[k]);
      WellWrittenParts(d.inner[k]);
    }
    hide WellWritten, IsField, IsBody, Joined, Braced, AllWritten, Written, Rest, IsGap, IsClosing, IsLayout, Clean,
        Nested;
    assert AreFields(kids);
    var fields := [NameField(d.name)] + Rest(d, kids);
    RestAreFields(d, kids);
    JoinedNested(fields, d.layout.close);
    BracedBody(Joined(fields, d.layout.close));
    WrittenParts(d);
  }

  /** A written declaration: its name and then the rest, in braces. */
  lemma WrittenParts(d: Decl)
    ensures Written(d) == Braced(Joined([NameField(d.name)] + Rest(d, AllWritten(d.inner)), d.layout.close))
  {
    assert AllWritten(d.inner)
        == seq(|d.inner|, k requires 0 <= k < |d.inner| => Field(d.inner[k].layout.gap, Written(d.inner[k])));
  }
}
