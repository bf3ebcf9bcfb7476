/**
  The flat and the recursive reader of argument vectors, on the same written text: when the two
  give the same names and types.
 */
module ReaderAgreement {
  import opened Wrappers
  import opened SourceScanner
  import opened SourceText
  import opened SourceFields
  import opened ArgParser
  import opened ArgDeclaration
  import opened ArgReading
  import opened FlatReader
  import opened FlatReading

  function AllFlat(ds: seq<Decl>): (entries: seq<Entry>)
    ensures |entries| == |ds|
  {
    seq(|ds|, k requires 0 <= k < |ds| => Flat(ds[k]))
  }

  function Inlines(ds: seq<Decl>): (items: seq<Item>)
    ensures |items| == |ds|
  {
    seq(|ds|, k requires 0 <= k < |ds| => Inline(ds[k]))
  }

  lemma {:induction false} InlinesFound(consts: map<string, Entry>, ds: seq<Decl>)
    ensures AllFound(consts, Inlines(ds)) == AllFlat(ds)
    decreases |ds|
  {
    hide Flat;
    if ds != [] {
      InlinesFound(consts, ds[1..]);
      assert Inlines(ds)[1..] == Inlines(ds[1..]);
      assert AllFlat(ds) == [Flat(ds[0])] + AllFlat(ds[1..]);
    }
  }

  lemma InlinesWritten(ds: seq<Decl>, close: string)
    ensures WrittenItems(Inlines(ds), close) == WrittenVector(ds, close)
    ensures AllWellWritten(ds) ==> AreItems(Inlines(ds))
  {
    hide Written, Braced, Joined, WellWritten;
    assert ItemFields(Inlines(ds)) == AllWritten(ds);
  }

  /** The name is the same exactly when no character of it needs escaping. */
  predicate PlainName(name: string) {
    forall k :: 0 <= k < |name| ==> !NeedsEscape(name[k])
  }

  /**
    The two readers on the same vector: as many arguments, and for each one the same name
    exactly when it needs no escaping, and the same type exactly when the entry does not
    mention skip_type_check or has no type.
   */
  lemma ReadersAgree(texts: map<string, string>, consts: map<string, Entry>, s: string, i: nat, ds: seq<Decl>,
      close: string, k: nat)
    requires AllWellWritten(ds) && IsClosing(close) && At(s, i, Text(WrittenVector(ds, close))) && k < |ds|
    ensures i < |s|
    ensures var entries, args := Entries(consts, s, i, INITIAL), ParseEach(texts, s, BraceFields(s, i), 0);
      && |entries| == |args| == |ds|
      && (entries[k].name == args[k].name <==> PlainName(args[k].name))
      && (entries[k].type_ == args[k].type_ <==> args[k].type_ == None || !Mentions(Inside(ds[k]), "skip_type_check"))
  {
    hide *;
    InlinesWritten(ds, close);
    InlinesFound(consts, ds);
    FlatReads(consts, s, i, Inlines(ds), close);
    ReadGroup(texts, s, i, ds, close, 0);
    TopAllRead(ds);
    OneAgrees(ds, k);
  }

  lemma OneAgrees(ds: seq<Decl>, k: nat)
    requires k < |ds|
    ensures AsRead(ds[k], 0).Some?
    ensures var entry, arg := AllFlat(ds)[k], AsRead(ds[k], 0).value;
      && (entry.name == arg.name <==> PlainName(arg.name))
      && (entry.type_ == arg.type_ <==> arg.type_ == None || !Mentions(Inside(ds[k]), "skip_type_check"))
  {
    hide Mentions, Inside, NeedsEscape, Escape;
    EscapeFixes(ds[k].name);
  }
}
