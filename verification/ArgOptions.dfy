/**
  Reading the options of a declaration: the oneline description always comes back, and the
  hidden mark is seen where it was written or where the description happens to spell it.
 */
module ArgOptions {
  import opened Wrappers
  import opened SourceScanner
  import opened SourceText
  import opened SourceFields
  import opened ArgParser
  import opened ArgDeclaration

  /** The description of an argument that is not hidden reads as if it were. */
  predicate Decoy(oneline: Option<string>, hidden: bool) {
    !hidden && oneline.Some? && MentionsHidden(Escape(oneline.value))
  }

  // ------------------------------------------------------------- what is searched for

  /** White space from i to e, and none at e. */
  predicate Spaces(x: string, i: nat, e: nat) {
    i <= e <= |x| && (forall k :: i <= k < e ==> IsSpace(x[k])) && (e < |x| ==> !IsSpace(x[e]))
  }

  lemma {:induction false} SpacesEnd(x: string, i: nat, e: nat)
    requires i <= |x|
    ensures Spaces(x, i, e) <==> SpaceEnd(x, i) == e
    decreases |x| - i
  {
    hide IsSpace;
    if i < |x| && IsSpace(x[i]) {
      SpacesEnd(x, i + 1, e);
      assert Spaces(x, i, e) <==> Spaces(x, i + 1, e);
    }
  }

  /** The member, an equals sign at q with white space around it, and true at r. */
  predicate SpelledHidden(x: string, p: nat, q: nat, r: nat) {
    && At(x, p, HIDDEN) && Spaces(x, p + |HIDDEN|, q)
    && q < |x| && x[q] == '=' && Spaces(x, q + 1, r) && At(x, r, "true")
  }

  /** The hidden mark is found exactly where it is spelled in that form. */
  lemma HiddenSpelled(x: string, p: nat)
    ensures HiddenAt(x, p) <==> exists q: nat, r: nat :: SpelledHidden(x, p, q, r)
  {
    AtFits(x, p, HIDDEN);
    hide At, Spaces, SpaceEnd;
    if HiddenAt(x, p) {
      var q := SpaceEnd(x, p + |HIDDEN|);
      SpacesEnd(x, p + |HIDDEN|, q);
      SpacesEnd(x, q + 1, SpaceEnd(x, q + 1));
      assert SpelledHidden(x, p, q, SpaceEnd(x, q + 1));
    }
    if q: nat, r: nat :| SpelledHidden(x, p, q, r) {
      SpacesEnd(x, p + |HIDDEN|, q);
      SpacesEnd(x, q + 1, r);
    }
  }

  predicate SpelledOneline(x: string, p: nat, q: nat, r: nat) {
    At(x, p, ONELINE) && Spaces(x, p + |ONELINE|, q) && q < |x| && x[q] == '=' && Spaces(x, q + 1, r)
  }

  /** The value of the oneline member starts behind its name, an equals sign and the white space around it. */
  lemma OnelineSpelled(x: string, p: nat, r: nat)
    ensures OnelineAt(x, p) == Some(r) <==> exists q: nat :: SpelledOneline(x, p, q, r)
  {
    AtFits(x, p, ONELINE);
    hide At, Spaces, SpaceEnd;
    if OnelineAt(x, p) == Some(r) {
      var q := SpaceEnd(x, p + |ONELINE|);
      SpacesEnd(x, p + |ONELINE|, q);
      SpacesEnd(x, q + 1, r);
      assert SpelledOneline(x, p, q, r);
    }
    if q: nat :| SpelledOneline(x, p, q, r) {
      SpacesEnd(x, p + |ONELINE|, q);
      SpacesEnd(x, q + 1, r);
    }
  }

  // -------------------------------------------------------- inside the literal

  predicate NoQuote(x: string) { forall k :: 0 <= k < |x| ==> x[k] != '"' }

  lemma SliceOfSlice(x: string, lo: nat, hi: nat, p: nat, q: nat)
    requires lo + q <= hi <= |x| && p <= q
    ensures x[lo..hi][p..q] == x[lo + p..lo + q]
  {
    var a, b := x[lo..hi][p..q], x[lo + p..lo + q];
    assert |a| == |b|;
    forall k | 0 <= k < |a|
      ensures a[k] == b[k]
    {
      assert a[k] == x[lo..hi][p + k] == x[lo + p + k];
    }
    assert a == b;
  }

  lemma AtInside(x: string, off: nat, e: string, p: nat, pattern: string)
    requires At(x, off, e + ['"']) && p <= |e| && NoQuote(pattern)
    ensures At(x, off + p, pattern) <==> At(e, p, pattern)
  {
    AtSplit(x, off, e, ['"']);
    AtIndex(x, off + |e|, ['"'], 0);
    if At(x, off + p, pattern) {
      if p + |pattern| > |e| {
        AtIndex(x, off + p, pattern, |e| - p);
        assert false;
      }
      SliceOfSlice(x, off, off + |e|, p, p + |pattern|);
    }
    if At(e, p, pattern) {
      SliceOfSlice(x, off, off + |e|, p, p + |pattern|);
    }
  }

  lemma {:induction false} SpaceInside(x: string, off: nat, e: string, i: nat)
    requires At(x, off, e + ['"']) && i <= |e|
    ensures SpaceEnd(x, off + i) == off + SpaceEnd(e, i)
    decreases |e| - i
  {
    AtIndex(x, off, e + ['"'], i);
    if i < |e| && IsSpace(e[i]) { SpaceInside(x, off, e, i + 1); }
  }

  lemma AtFits(s: string, i: nat, x: string)
    ensures At(s, i, x) ==> i + |x| <= |s|
  {
  }

  lemma HiddenInside(x: string, off: nat, e: string, p: nat)
    requires At(x, off, e + ['"']) && p <= |e|
    ensures HiddenAt(x, off + p) <==> HiddenAt(e, p)
  {
    hide At;
    AtInside(x, off, e, p, HIDDEN);
    AtFits(e, p, HIDDEN);
    if At(e, p, HIDDEN) {
      var after := p + |HIDDEN|;
      SpaceInside(x, off, e, after);
      var q := SpaceEnd(e, after);
      AtIndex(x, off, e + ['"'], q);
      if q < |e| {
        SpaceInside(x, off, e, q + 1);
        AtInside(x, off, e, SpaceEnd(e, q + 1), "true");
      }
    }
  }

  // ------------------------------------------------------------ the whole text

  lemma {:induction false} OnelineSkips(x: string, p: nat, end: nat)
    requires p <= end <= |x| && forall k :: p <= k < end ==> !At(x, k, ONELINE)
    ensures OnelineFrom(x, p) == OnelineFrom(x, end)
    decreases end - p
  {
    if p < end { OnelineSkips(x, p + 1, end); }
  }

  lemma AtChar(x: string, k: nat, pattern: string, j: nat)
    requires j < |pattern|
    ensures At(x, k, pattern) ==> k + j < |x| && x[k + j] == pattern[j]
  {
    if At(x, k, pattern) { AtIndex(x, k, pattern, j); }
  }

  const BEFORE := "RPCArgOptions{"
  const BEFORE_HIDDEN := BEFORE + (HIDE + ", ")
  const BARE := BEFORE + (HIDE + "}")

  /** The options text up to the oneline member. */
  function Before(hidden: bool): string { if hidden then BEFORE_HIDDEN else BEFORE }

  lemma BeforeDots(hidden: bool, k: nat)
    requires k < |Before(hidden)|
    ensures Before(hidden)[k] == '.' ==> hidden && k == 14
  {
  }

  /** Before the oneline member there is no other, and a hidden member only if it was written. */
  lemma BeforeQuiet(x: string, hidden: bool, k: nat)
    requires At(x, 0, Before(hidden)) && k < |Before(hidden)|
    ensures !At(x, k, ONELINE) && (At(x, k, HIDDEN) ==> hidden)
  {
    hide At;
    BeforeDots(hidden, k);
    AtIndex(x, 0, Before(hidden), k);
    if k == 14 && hidden { AtIndex(x, 0, Before(hidden), 15); }
    AtChar(x, k, ONELINE, 0);
    AtChar(x, k, ONELINE, 1);
    AtChar(x, k, HIDDEN, 0);
  }

  /** The options of an argument with a oneline description. */
  function Shown(value: string, hidden: bool): string {
    Before(hidden) + (SHOW + (PieceText(Quoted(value)) + "}"))
  }

  lemma ShownParts(value: string, hidden: bool)
    ensures var x, n := Shown(value, hidden), |Before(hidden)|;
      && At(x, 0, Before(hidden)) && At(x, n, SHOW) && At(x, n + |SHOW|, PieceText(Quoted(value)))
      && At(x, n + |SHOW| + 1, Escape(value) + ['"'])
      && |x| == n + |SHOW| + |Escape(value)| + 3 && x[|x| - 1] == '}'
  {
    hide Escape, At, Before;
    var x, n, q := Shown(value, hidden), |Before(hidden)|, PieceText(Quoted(value));
    AtWhole(x);
    AtSplit(x, 0, Before(hidden), SHOW + (q + "}"));
    AtSplit(x, n, SHOW, q + "}");
    AtSplit(x, n + |SHOW|, q, "}");
    AtIndex(x, n + |SHOW| + |q|, "}", 0);
    QuotedBody(value);
    AtSplit(x, n + |SHOW|, ['"'], Escape(value) + ['"']);
  }

  lemma AtWhole(x: string)
    ensures At(x, 0, x)
  {
  }

  /** The oneline member is the first of its name, and its value is read back. */
  lemma ShownOneline(value: string, hidden: bool)
    ensures var x := Shown(value, hidden);
      && OnelineFrom(x, 0).Some?
      && Literals(x, OnelineFrom(x, 0).value, |x|) == value
  {
    hide Escape, StringEnd, Unescape, Shown, Before, PieceText, At, OnelineFrom;
    var x, n := Shown(value, hidden), |Before(hidden)|;
    ShownParts(value, hidden);
    forall k | 0 <= k < n
      ensures !At(x, k, ONELINE)
    {
      BeforeQuiet(x, hidden, k);
    }
    OnelineSkips(x, 0, n);
    var v := n + |SHOW|;
    QuotedEnds(x, v, value);
    ShowReads(x, n);
    UnescapeEscape(value);
    PieceLength(value);
    LiteralThenBrace(x, v);
  }

  lemma NoLiteralLeft(x: string)
    requires x != "" && x[|x| - 1] == '}'
    ensures Literals(x, |x| - 1, |x|) == ""
  {
    assert Literals(x, |x|, |x|) == "";
  }

  lemma LiteralThenBrace(x: string, v: nat)
    requires v < |x| && x[v] == '"' && StringEnd(x, v + 1) == |x| - 1 && x[|x| - 1] == '}'
    ensures Literals(x, v, |x|) == Unescape(Slice(x, v + 1, StringEnd(x, v + 1) - 1))
  {
    NoLiteralLeft(x);
    hide StringEnd, Unescape, Slice;
  }

  lemma PieceLength(value: string)
    ensures |PieceText(Quoted(value))| == |Escape(value)| + 2
    ensures PieceText(Quoted(value))[0] == '"'
  {
  }

  lemma ShowReads(x: string, n: nat)
    requires At(x, n, SHOW) && n + |SHOW| < |x| && !IsSpace(x[n + |SHOW|])
    ensures OnelineFrom(x, n) == Some(n + |SHOW|)
  {
    assert SHOW == ONELINE + " = ";
    AtSplit(x, n, ONELINE, " = ");
    AtIndex(x, n + |ONELINE|, " = ", 0);
    AtIndex(x, n + |ONELINE|, " = ", 1);
    AtIndex(x, n + |ONELINE|, " = ", 2);
    assert SpaceEnd(x, n + |ONELINE|) == n + |ONELINE| + 1;
    assert SpaceEnd(x, n + |ONELINE| + 2) == n + |ONELINE| + 3;
  }

  lemma ShowQuiet(x: string, n: nat, k: nat)
    requires At(x, n, SHOW) && n <= k < n + |SHOW|
    ensures !At(x, k, HIDDEN)
  {
    hide At;
    AtIndex(x, n, SHOW, k - n);
    AtIndex(x, n, SHOW, 1);
    AtChar(x, k, HIDDEN, 0);
    AtChar(x, k, HIDDEN, 1);
  }

  lemma HiddenStarts(x: string, p: nat)
    requires HiddenAt(x, p)
    ensures At(x, p, HIDDEN) && p + |HIDDEN| <= |x| && x[p] == '.'
  {
    AtIndex(x, p, HIDDEN, 0);
  }

  lemma HiddenWritten(x: string, rest: string)
    requires At(x, 0, BEFORE + (HIDE + rest))
    ensures MentionsHidden(x)
  {
    hide At, HiddenAt;
    AtSplit(x, 0, BEFORE, HIDE + rest);
    AtSplit(x, |BEFORE|, HIDE, rest);
    HiddenReads(x, |BEFORE|);
  }

  lemma HiddenReads(x: string, p: nat)
    requires At(x, p, HIDE)
    ensures p < |x| && HiddenAt(x, p)
  {
    hide At;
    assert HIDE == HIDDEN + (" = " + "true");
    AtSplit(x, p, HIDDEN, " = " + "true");
    AtSplit(x, p + 7, " = ", "true");
    AtIndex(x, p + 7, " = ", 0);
    AtIndex(x, p + 7, " = ", 1);
    AtIndex(x, p + 7, " = ", 2);
    AtIndex(x, p + 10, "true", 0);
    assert SpaceEnd(x, p + 7) == p + 8;
    assert SpaceEnd(x, p + 9) == p + 10;
  }

  /** Read as hidden exactly when hidden, or when the description's literal spells the mark. */
  lemma ShownHidden(value: string, hidden: bool)
    ensures MentionsHidden(Shown(value, hidden)) <==> hidden || MentionsHidden(Escape(value))
  {
    hide Escape, At, HiddenAt, Before, Shown, PieceText;
    var x, n, e := Shown(value, hidden), |Before(hidden)|, Escape(value);
    var body := n + |SHOW| + 1;
    ShownParts(value, hidden);
    if MentionsHidden(x) {
      var p :| 0 <= p < |x| && HiddenAt(x, p);
      HiddenStarts(x, p);
      if p < n {
        BeforeQuiet(x, hidden, p);
      } else if p < body - 1 {
        ShowQuiet(x, n, p);
      } else {
        PieceLength(value);
        AtIndex(x, body - 1, PieceText(Quoted(value)), 0);
        HiddenInside(x, body, e, p - body);
        HiddenStarts(e, p - body);
      }
    }
    if hidden {
      BeforeHidden();
      HiddenWritten(x, ", ");
    }
    if MentionsHidden(e) {
      var p :| 0 <= p < |e| && HiddenAt(e, p);
      HiddenInside(x, body, e, p);
      assert HiddenAt(x, body + p);
    }
  }

  lemma BeforeHidden()
    ensures Before(true) == BEFORE_HIDDEN
  {
  }

  // --------------------------------------------------------- reading the field

  function OptionsText(oneline: Option<string>, hidden: bool): string {
    Text(Plainly(OPTIONS) + Braced(Options(oneline, hidden)))
  }

  lemma TextShow(value: string)
    ensures Text(Plainly(SHOW) + [Quoted(value)]) == SHOW + PieceText(Quoted(value))
  {
    hide PieceText, Plainly;
    TextConcat(Plainly(SHOW), [Quoted(value)]);
    TextPlainly(SHOW);
    TextOne(Quoted(value));
  }

  lemma TextHide()
    ensures Text(Plainly(HIDE) + SEPARATOR) == HIDE + ", "
  {
    assert Text(SEPARATOR) == ", " by {
      assert SEPARATOR[1..] == [Plain(' ')] && [Plain(' ')][1..] == [];
    }
    hide Text, Plainly;
    TextConcat(Plainly(HIDE), SEPARATOR);
    TextPlainly(HIDE);
  }

  lemma OptionsPieces(value: string, hidden: bool)
    ensures Options(Some(value), hidden)
         == (if hidden then Plainly(HIDE) + SEPARATOR else []) + (Plainly(SHOW) + [Quoted(value)])
  {
    hide Plainly;
    var c := Plainly(SHOW) + [Quoted(value)];
    assert [] + [] + c == c && [] + c == c;
  }

  lemma Regroup(o: string, b: string, a: string, s: string, q: string, e: string)
    ensures o + (b + (a + (s + q)) + e) == (o + b + a) + (s + (q + e))
  {
  }

  lemma BeforeText(hidden: bool)
    ensures Before(hidden) == OPTIONS + "{" + Text(if hidden then Plainly(HIDE) + SEPARATOR else [])
  {
    TextHide();
    hide Plainly;
    assert BEFORE == OPTIONS + "{";
    assert Text([]) == "" && BEFORE + "" == BEFORE;
  }

  lemma ShownIs(value: string, hidden: bool)
    ensures Shown(value, hidden) == Before(hidden) + (SHOW + (PieceText(Quoted(value)) + "}"))
  {
  }

  lemma ShownText(value: string, hidden: bool)
    ensures OptionsText(Some(value), hidden) == Shown(value, hidden)
  {
    hide *;
    var a := if hidden then Plainly(HIDE) + SEPARATOR else [];
    OptionsPieces(value, hidden);
    TextConcat(a, Plainly(SHOW) + [Quoted(value)]);
    TextShow(value);
    OptionsBraces(Some(value), hidden);
    BeforeText(hidden);
    ShownIs(value, hidden);
    Regroup(OPTIONS, "{", Text(a), SHOW, PieceText(Quoted(value)), "}");
  }

  lemma OptionsBraces(oneline: Option<string>, hidden: bool)
    ensures OptionsText(oneline, hidden) == OPTIONS + ("{" + Text(Options(oneline, hidden)) + "}")
  {
    OptionsNested(oneline, hidden);
    NestedBraced(Options(oneline, hidden));
    TextConcat(Plainly(OPTIONS), Braced(Options(oneline, hidden)));
    TextPlainly(OPTIONS);
  }

  lemma BarePieces()
    ensures Options(None, true) == Plainly(HIDE)
  {
    hide Plainly;
    assert Plainly(HIDE) + [] + [] == Plainly(HIDE);
  }

  lemma BareIs()
    ensures BARE == OPTIONS + ("{" + HIDE + "}")
  {
    assert BEFORE == OPTIONS + "{";
  }

  lemma BareText()
    ensures OptionsText(None, true) == BARE
  {
    BarePieces();
    hide Text, Plainly, Options, OptionsText, HIDE, OPTIONS, BEFORE;
    BareIs();
    OptionsBraces(None, true);
    TextPlainly(HIDE);
  }

  lemma BareDots(k: nat)
    requires k + 1 < |BARE|
    ensures BARE[k] == '.' ==> BARE[k + 1] == 'h'
  {
  }

  lemma BareOneline()
    ensures OnelineFrom(BARE, 0) == None && MentionsHidden(BARE)
  {
    AtWhole(BARE);
    HiddenWritten(BARE, "}");
    hide At, MentionsHidden;
    forall k | 0 <= k < |BARE|
      ensures !At(BARE, k, ONELINE)
    {
      AtChar(BARE, k, ONELINE, 0);
      AtChar(BARE, k, ONELINE, 1);
      if k + 1 < |BARE| { BareDots(k); }
    }
    OnelineSkips(BARE, 0, |BARE|);
  }

  lemma OptionsReads(x: string, arg: Arg)
    requires At(x, 0, BEFORE)
    ensures ReadText(x, arg) == arg.(
      hidden := MentionsHidden(x),
      oneline := if OnelineFrom(x, 0).Some? then Some(Literals(x, OnelineFrom(x, 0).value, |x|)) else arg.oneline)
  {
    hide At, MentionsHidden, OnelineFrom, Literals;
    assert BEFORE == OPTIONS + "{";
    AtSplit(x, 0, OPTIONS, "{");
    AtIndex(x, 0, OPTIONS, 0);
    AtIndex(x, 0, OPTIONS, 6);
    AtChar(x, 0, TYPE, 6);
    assert SpaceEnd(x, 0) == 0;
  }

  /** What the options field says of the argument. */
  lemma ReadOptions(oneline: Option<string>, hidden: bool, arg: Arg)
    requires oneline.Some? || hidden
    ensures ReadText(OptionsText(oneline, hidden), arg)
         == arg.(hidden := hidden || Decoy(oneline, hidden), oneline := if oneline.Some? then oneline else arg.oneline)
  {
    hide ReadText, MentionsHidden, OptionsText, Shown, Literals, OnelineFrom, Escape, At, PieceText, HIDE, SHOW, BEFORE;
    var x := OptionsText(oneline, hidden);
    if oneline.None? {
      BareText();
      BareOneline();
      AtWhole(x);
      AtSplit(x, 0, BEFORE, HIDE + "}");
    } else {
      ShownText(oneline.value, hidden);
      ShownParts(oneline.value, hidden);
      ShownHidden(oneline.value, hidden);
      ShownOneline(oneline.value, hidden);
      if hidden { AtSplit(x, 0, BEFORE, HIDE + ", "); }
    }
    OptionsReads(x, arg);
  }
}
