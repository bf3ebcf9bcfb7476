/**
  Command lines as they are written: words and quoted texts of either kind, side by side in
  tokens, with white space between. Tokenizing undoes the writing.
 */
module CommandWriting {
  import opened CommandLine
  import opened CommandNesting
  import opened Wrappers

  /** A text with quotes and backslashes escaped. */
  function Escape(s: string): string {
    if s == "" then ""
    else EscapeChar(s[0]) + Escape(s[1..])
  }

  /**
    What a body between double quotes stands for: a backslash disappears before a quote or a
    backslash and is kept before any other character. None if the body closes the quotes or
    would swallow the closing one.
   */
  function DoubleRead(body: string): Option<string>
    decreases |body|
  {
    if body == "" then Some("")
    else if body[0] == '"' || (body[0] == '\\' && |body| == 1) then None
    else
      var escaped := body[0] == '\\' && (body[1] == '"' || body[1] == '\\');
      var rest := DoubleRead(if escaped then body[2..] else body[1..]);
      if rest.None? then None else Some([if escaped then body[1] else body[0]] + rest.value)
  }

  /** A part of a token as it is written: a word, or a text between quotes of either kind. */
  datatype Segment = Bare(word: string) | InDouble(body: string) | InSingle(text: string)

  /** A word balances and has no separating white space; single quotes hold no apostrophe. */
  predicate Writable(seg: Segment) {
    match seg
    case Bare(word) => IsWord(word)
    case InDouble(body) => DoubleRead(body).Some?
    case InSingle(text) => '\'' !in text
  }

  function SegmentText(seg: Segment): string
    requires Writable(seg)
  {
    match seg
    case Bare(word) => word
    case InDouble(body) => DoubleRead(body).value
    case InSingle(text) => text
  }

  function WriteSegment(seg: Segment): string {
    match seg
    case Bare(word) => word
    case InDouble(body) => ['"'] + body + ['"']
    case InSingle(text) => ['\''] + text + ['\'']
  }

  predicate AllWritable(segs: seq<Segment>) {
    forall i :: 0 <= i < |segs| ==> Writable(segs[i])
  }

  /** The segments of one token, side by side. */
  function WriteSegments(segs: seq<Segment>): string {
    if segs == [] then "" else WriteSegment(segs[0]) + WriteSegments(segs[1..])
  }

  function SegmentsText(segs: seq<Segment>): string
    requires AllWritable(segs)
  {
    if segs == [] then "" else SegmentText(segs[0]) + SegmentsText(segs[1..])
  }

  predicate AnyQuoted(segs: seq<Segment>) {
    exists i :: 0 <= i < |segs| && !segs[i].Bare?
  }

  /** What the segments stand for: one token, quoted if any of them is. */
  function Denoted(segs: seq<Segment>): Token
    requires AllWritable(segs)
  {
    Token(SegmentsText(segs), AnyQuoted(segs))
  }

  predicate AllSpace(s: string) { forall i :: 0 <= i < |s| ==> IsSpace(s[i]) }

  /** A token and the white space before it. */
  datatype Item = Item(gap: string, segs: seq<Segment>)

  /** Items that can be written: white space stands between tokens, and may stand before the first. */
  predicate AreItems(items: seq<Item>) {
    forall i :: 0 <= i < |items| ==>
      AllSpace(items[i].gap) && items[i].segs != [] && AllWritable(items[i].segs) && (i > 0 ==> items[i].gap != "")
  }

  function WriteLine(items: seq<Item>): string {
    if items == [] then ""
    else
      var last := items[|items| - 1];
      WriteLine(items[..|items| - 1]) + (last.gap + WriteSegments(last.segs))
  }

  function AllDenoted(items: seq<Item>): (tokens: seq<Token>)
    requires AreItems(items)
    ensures |tokens| == |items|
  {
    seq(|items|, i requires 0 <= i < |items| => Denoted(items[i].segs))
  }

  function EscapeChar(c: char): (e: string)
    ensures e != ""
  {
    if c == '"' || c == '\\' then ['\\', c] else [c]
  }

  lemma RunClosingQuote(rest: string, st: Scan)
    requires st.mode == Double
    ensures Run(['"'] + rest, st) == Run(rest, st.(mode := Normal))
  {
    var all := ['"'] + rest;
    assert Step(all, st) == Ok(st.(mode := Normal)) && Width(all, Double) == 1;
    RunOne(all, st, st.(mode := Normal));
    assert all[1..] == rest;
  }

  /** A body that DoubleRead takes does not close the quotes, and its first character or pair is read. */
  lemma StepDouble(body: string, rest: string, st: Scan)
    requires st.mode == Double && body != "" && DoubleRead(body).Some?
    ensures var n := Width(body + rest, Double);
      && n <= |body| && DoubleRead(body[n..]).Some?
      && DoubleRead(body).value == [body[n - 1]] + DoubleRead(body[n..]).value
      && Step(body + rest, st) == Ok(st.(cur := st.cur + [body[n - 1]]))
  {
    var line := body + rest;
    assert line[0] == body[0];
    if |body| > 1 { assert line[1] == body[1]; }
  }

  lemma NoBody(body: string)
    ensures body == "" ==> DoubleRead(body) == Some("")
  {
  }

  /** The text of a body is read, whatever follows the body. */
  lemma {:induction false} RunDouble(body: string, rest: string, st: Scan)
    requires st.mode == Double && DoubleRead(body).Some?
    ensures Run(body + rest, st) == Run(rest, st.(cur := st.cur + DoubleRead(body).value))
    decreases |body|
  {
    hide *;
    NoBody(body);
    if body == "" {
      assert body + rest == rest && st.cur + "" == st.cur;
    } else {
      var n := Width(body + rest, Double);
      StepDouble(body, rest, st);
      var next := st.(cur := st.cur + [body[n - 1]]);
      RunOne(body + rest, st, next);
      assert (body + rest)[n..] == body[n..] + rest;
      RunDouble(body[n..], rest, next);
      assert next.cur + DoubleRead(body[n..]).value == st.cur + DoubleRead(body).value;
    }
  }

  lemma EscapedHead(c: char, rest: string)
    requires DoubleRead(rest).Some?
    ensures DoubleRead(EscapeChar(c) + rest) == Some([c] + DoubleRead(rest).value)
  {
    var body := EscapeChar(c) + rest;
    assert body[|EscapeChar(c)|..] == rest;
  }

  /** Every text can stand between double quotes, escaped. */
  lemma {:induction false} EscapedReads(s: string)
    ensures DoubleRead(Escape(s)) == Some(s)
  {
    if s != "" {
      EscapedReads(s[1..]);
      hide EscapeChar, DoubleRead;
      EscapedHead(s[0], Escape(s[1..]));
      assert s == [s[0]] + s[1..];
    }
  }

  /** Before any other character than a quote or a backslash, a backslash stands for itself. */
  lemma BackslashKept(c: char, rest: string)
    requires c != '"' && c != '\\' && DoubleRead(rest).Some?
    ensures DoubleRead(['\\', c] + rest) == Some(['\\', c] + DoubleRead(rest).value)
  {
    var body := ['\\', c] + rest;
    assert body[1..] == [c] + rest && body[1..][1..] == rest;
    assert ['\\'] + ([c] + DoubleRead(rest).value) == ['\\', c] + DoubleRead(rest).value;
  }

  lemma RunOpeningQuote(q: char, rest: string, st: Scan)
    requires st.mode == Normal && ((q == '"' && st.depth == 0) || q == '\'')
    ensures Run([q] + rest, st)
         == Run(rest, st.(mode := if q == '"' then Double else Single, quoted := true, started := true))
  {
    var line := [q] + rest;
    assert line[1..] == rest;
    RunOne(line, st, st.(mode := if q == '"' then Double else Single, quoted := true, started := true));
  }

  lemma RunApostrophe(rest: string, st: Scan)
    requires st.mode == Single
    ensures Run(['\''] + rest, st) == Run(rest, st.(mode := Normal))
  {
    var line := ['\''] + rest;
    assert line[1..] == rest;
    RunOne(line, st, st.(mode := Normal));
  }

  lemma StepSingle(s: string, rest: string, st: Scan)
    requires st.mode == Single && s != "" && s[0] != '\''
    ensures Width(s + rest, Single) == 1 && Step(s + rest, st) == Ok(st.(cur := st.cur + [s[0]]))
  {
    assert (s + rest)[0] == s[0];
  }

  /** Inside single quotes every character but the apostrophe stands for itself, backslashes too. */
  lemma {:induction false} RunSingle(s: string, rest: string, st: Scan)
    requires st.mode == Single && '\'' !in s
    ensures Run(s + rest, st) == Run(rest, st.(cur := st.cur + s))
    decreases |s|
  {
    hide *;
    if s == "" {
      assert s + rest == rest && st.cur + "" == st.cur;
    } else {
      var next := st.(cur := st.cur + [s[0]]);
      StepSingle(s, rest, st);
      RunOne(s + rest, st, next);
      assert (s + rest)[1..] == s[1..] + rest;
      assert '\'' !in s[1..];
      RunSingle(s[1..], rest, next);
      assert next.cur + s[1..] == st.cur + s;
    }
  }

  // ---------------------------------------------------------------------- words

  lemma {:induction false} KeptAtMost(n: Nesting, s: string)
    ensures |Kept(n, s)| <= |s|
    decreases |s|
  {
    if s != "" { KeptAtMost(Nest(n, s[0]), s[1..]); }
  }

  /** If all of a text is kept, so is its first character and all of the rest. */
  lemma KeptHead(n: Nesting, s: string)
    requires s != "" && Kept(n, s) == s
    ensures n == OUTSIDE ==> !IsSpace(s[0])
    ensures Kept(Nest(n, s[0]), s[1..]) == s[1..]
  {
    hide Nest, IsSpace;
    var rest := Kept(Nest(n, s[0]), s[1..]);
    KeptAtMost(Nest(n, s[0]), s[1..]);
    assert Kept(n, s) == [s[0]] + rest;
    assert s[1..] == rest;
  }

  /** Outside quoted arguments, and in a token if in a bracket. */
  predicate InWord(st: Scan) {
    (st.mode == Normal || st.mode == JString) && (st.started || Seen(st) == OUTSIDE)
  }

  /** One character that does not separate tokens joins the token, and the scanner nests with it. */
  lemma StepInside(line: string, st: Scan)
    requires line != "" && InWord(st) && Width(line, st.mode) == 1
    requires Nest(Seen(st), line[0]).In? && !Nest(Seen(st), line[0]).escaped
    requires Seen(st) == OUTSIDE ==> !IsSpace(line[0])
    ensures Step(line, st).Ok?
    ensures var next := Step(line, st).value;
      && next == st.(cur := st.cur + [line[0]], depth := next.depth, mode := next.mode, started := true)
      && InWord(next) && Seen(next) == Nest(Seen(st), line[0])
  {
    hide IsSpace;
    assert line[..1] == [line[0]];
  }

  /** No text ends outside a string right behind its backslash. */
  lemma StrayEscape(n: Nesting, s: string)
    requires n.In? && !n.escaped && s != "" && NestAll(n, s) == OUTSIDE
    ensures n.inString && s[0] == '\\' ==> |s| > 1
    ensures |s| == 1 || !n.inString ==> !(Nest(n, s[0]).In? && Nest(n, s[0]).escaped)
    ensures Nest(n, s[0]).In?
  {
    NestAbsorbs(Negative, s[1..]);
    NestAbsorbs(QuoteSeen, s[1..]);
  }

  /** A text that ends outside all brackets, and has no white space there, is one token's text. */
  lemma {:induction false} RunWord(s: string, rest: string, st: Scan)
    requires InWord(st) && NestAll(Seen(st), s) == OUTSIDE && Kept(Seen(st), s) == s
    ensures Run(s + rest, st) == Run(rest, st.(cur := st.cur + s, depth := 0, mode := Normal,
        started := st.started || s != ""))
    decreases |s|
  {
    hide Step, IsSpace, Nest;
    if s == "" {
      assert s + rest == rest && st.cur + s == st.cur;
    } else {
      var line := s + rest;
      KeptHead(Seen(st), s);
      StrayEscape(Seen(st), s);
      assert line[0] == s[0];
      if Width(line, st.mode) == 2 {
        RunWordEscape(s, rest, st);
      } else {
        RunWordOne(s, rest, st);
      }
    }
  }

  lemma TwoKept(n: Nesting, s: string)
    requires |s| > 1 && NestAll(n, s) == OUTSIDE && Kept(n, s) == s
    ensures var m := Nest(Nest(n, s[0]), s[1]);
      NestAll(m, s[2..]) == OUTSIDE && Kept(m, s[2..]) == s[2..]
  {
    hide Nest, IsSpace;
    assert s[1..][1..] == s[2..] && s[1..][0] == s[1];
    KeptHead(n, s);
    KeptHead(Nest(n, s[0]), s[1..]);
  }

  lemma EscapeInside(line: string, st: Scan)
    requires line != "" && InWord(st) && Width(line, st.mode) == 2
    ensures |line| >= 2 && st.started && st.mode == JString
    ensures var next := st.(cur := st.cur + line[..2]);
      InWord(next) && Seen(next) == Seen(st) && Step(line, st) == Ok(next)
    ensures Nest(Nest(Seen(st), line[0]), line[1]) == Seen(st)
  {
  }

  lemma {:induction false} RunWordEscape(s: string, rest: string, st: Scan)
    requires |s| > 1 && Width(s + rest, st.mode) == 2
    requires InWord(st) && NestAll(Seen(st), s) == OUTSIDE && Kept(Seen(st), s) == s
    ensures Run(s + rest, st) == Run(rest, st.(cur := st.cur + s, depth := 0, mode := Normal, started := true))
    decreases |s|, 0
  {
    hide *;
    var line, tail := s + rest, s[2..];
    var next := st.(cur := st.cur + line[..2]);
    EscapeInside(line, st);
    TwoKept(Seen(st), s);
    assert line[0] == s[0] && line[1] == s[1];
    RunOne(line, st, next);
    assert line[2..] == tail + rest && line[..2] == s[..2];
    RunWord(tail, rest, next);
    assert next.cur + tail == st.cur + s;
  }

  /** One character of a word, seen with the text behind it. */
  lemma OneInside(s: string, rest: string, st: Scan)
    requires s != "" && Width(s + rest, st.mode) == 1
    requires InWord(st) && NestAll(Seen(st), s) == OUTSIDE && Kept(Seen(st), s) == s
    ensures Step(s + rest, st).Ok?
    ensures var next := Step(s + rest, st).value;
      && next == st.(cur := st.cur + [s[0]], depth := next.depth, mode := next.mode, started := true)
      && InWord(next) && NestAll(Seen(next), s[1..]) == OUTSIDE && Kept(Seen(next), s[1..]) == s[1..]
  {
    var line := s + rest;
    assert line[0] == s[0];
    assert Seen(st).inString && s[0] == '\\' ==> |s| == 1;
    StrayEscape(Seen(st), s);
    KeptHead(Seen(st), s);
    hide Step, IsSpace, Nest, Width;
    StepInside(line, st);
  }

  lemma {:induction false} RunWordOne(s: string, rest: string, st: Scan)
    requires s != "" && Width(s + rest, st.mode) == 1
    requires InWord(st) && NestAll(Seen(st), s) == OUTSIDE && Kept(Seen(st), s) == s
    ensures Run(s + rest, st) == Run(rest, st.(cur := st.cur + s, depth := 0, mode := Normal, started := true))
    decreases |s|, 0
  {
    hide *;
    var line, tail := s + rest, s[1..];
    OneInside(s, rest, st);
    var next := Step(line, st).value;
    RunOne(line, st, next);
    assert line[1..] == tail + rest;
    RunWord(tail, rest, next);
    assert next.cur + tail == st.cur + s;
  }

  /** Between tokens. */
  function Fresh(tokens: seq<Token>): Scan { Scan(tokens, "", false, false, 0, Normal) }

  /** In the last token, at depth zero. */
  function Open(tokens: seq<Token>, t: Token): Scan { Scan(tokens, t.text, t.quoted, true, 0, Normal) }

  /** A text between apostrophes joins the token it stands in and makes it quoted, at any bracket depth. */
  lemma SingleQuoted(s: string, rest: string, st: Scan)
    requires st.mode == Normal && '\'' !in s
    ensures Run("'" + s + "'" + rest, st) == Run(rest, st.(cur := st.cur + s, quoted := true, started := true))
  {
    hide Run;
    var inside := st.(mode := Single, quoted := true, started := true);
    assert "'" + s + "'" + rest == ['\''] + (s + (['\''] + rest));
    RunOpeningQuote('\'', s + (['\''] + rest), st);
    RunSingle(s, ['\''] + rest, inside);
    RunApostrophe(rest, inside.(cur := st.cur + s));
  }

  /** Inside a token or before one, at depth zero outside quotes. */
  predicate Outside(st: Scan) { st.mode == Normal && st.depth == 0 }

  lemma OutsideInWord(st: Scan)
    requires Outside(st)
    ensures InWord(st) && Seen(st) == OUTSIDE
  {
  }

  /** The state after a segment. */
  function Past(seg: Segment, st: Scan): Scan
    requires Writable(seg)
  {
    st.(cur := st.cur + SegmentText(seg), quoted := st.quoted || !seg.Bare?, started := true)
  }

  /** A written segment joins the token it stands in, whatever follows. */
  lemma RunSegment(seg: Segment, rest: string, st: Scan)
    requires Writable(seg) && Outside(st)
    ensures Run(WriteSegment(seg) + rest, st) == Run(rest, Past(seg, st))
  {
    hide Run, DoubleRead, Kept, NestAll, Seen, InWord;
    match seg
    case Bare(word) =>
      OutsideInWord(st);
      RunWord(word, rest, st);
    case InDouble(body) =>
      var inside := st.(mode := Double, quoted := true, started := true);
      assert WriteSegment(seg) + rest == ['"'] + (body + (['"'] + rest));
      RunOpeningQuote('"', body + (['"'] + rest), st);
      RunDouble(body, ['"'] + rest, inside);
      RunClosingQuote(rest, inside.(cur := st.cur + DoubleRead(body).value));
    case InSingle(text) =>
      SingleQuoted(text, rest, st);
  }

  lemma SegmentsHead(segs: seq<Segment>)
    requires segs != [] && AllWritable(segs)
    ensures Writable(segs[0]) && AllWritable(segs[1..])
    ensures WriteSegments(segs) == WriteSegment(segs[0]) + WriteSegments(segs[1..])
    ensures SegmentsText(segs) == SegmentText(segs[0]) + SegmentsText(segs[1..])
    ensures AnyQuoted(segs) <==> !segs[0].Bare? || AnyQuoted(segs[1..])
  {
    hide Writable, WriteSegment, SegmentText;
    if AnyQuoted(segs[1..]) {
      var i :| 0 <= i < |segs| - 1 && !segs[1..][i].Bare?;
      assert !segs[i + 1].Bare?;
    }
    if AnyQuoted(segs) && segs[0].Bare? {
      var i :| 0 <= i < |segs| && !segs[i].Bare?;
      assert segs[1..][i - 1] == segs[i];
    }
  }

  lemma NoSegments(segs: seq<Segment>)
    requires segs == []
    ensures WriteSegments(segs) == "" && AllWritable(segs) && SegmentsText(segs) == "" && !AnyQuoted(segs)
  {
  }

  lemma {:induction false} RunSegments(segs: seq<Segment>, rest: string, st: Scan)
    requires AllWritable(segs) && Outside(st)
    ensures Run(WriteSegments(segs) + rest, st) == Run(rest,
      st.(cur := st.cur + SegmentsText(segs), quoted := st.quoted || AnyQuoted(segs),
          started := st.started || segs != []))
    decreases |segs|
  {
    hide *;
    if segs == [] {
      NoSegments(segs);
      assert "" + rest == rest && st.cur + "" == st.cur;
    } else {
      SegmentsHead(segs);
      var next, more := Past(segs[0], st), WriteSegments(segs[1..]) + rest;
      assert WriteSegments(segs) + rest == WriteSegment(segs[0]) + more;
      RunSegment(segs[0], more, st);
      PastOutside(segs[0], st);
      RunSegments(segs[1..], rest, next);
      assert st.cur + SegmentText(segs[0]) + SegmentsText(segs[1..]) == st.cur + SegmentsText(segs);
    }
  }

  lemma PastOutside(seg: Segment, st: Scan)
    requires Writable(seg) && Outside(st)
    ensures Outside(Past(seg, st))
    ensures Past(seg, st) == st.(cur := st.cur + SegmentText(seg), quoted := st.quoted || !seg.Bare?, started := true)
  {
    hide Writable, SegmentText;
  }

  /** Written segments are read as the token they denote. */
  lemma RunToken(segs: seq<Segment>, rest: string, tokens: seq<Token>)
    requires AllWritable(segs) && segs != []
    ensures Run(WriteSegments(segs) + rest, Fresh(tokens)) == Run(rest, Open(tokens, Denoted(segs)))
  {
    hide Run, AllWritable, SegmentsText, AnyQuoted;
    RunSegments(segs, rest, Fresh(tokens));
    assert "" + SegmentsText(segs) == SegmentsText(segs);
  }

  /** White space ends the token before it; without one it is skipped. */
  lemma {:induction false} RunGap(gap: string, rest: string, tokens: seq<Token>)
    requires AllSpace(gap)
    ensures Run(gap + rest, Fresh(tokens)) == Run(rest, Fresh(tokens))
    decreases |gap|
  {
    hide Run, IsSpace;
    if gap == "" {
      assert gap + rest == rest;
    } else {
      SkipSpace(gap[0], gap[1..] + rest, tokens);
      assert gap + rest == [gap[0]] + (gap[1..] + rest);
      RunGap(gap[1..], rest, tokens);
    }
  }

  lemma SkipSpace(c: char, rest: string, tokens: seq<Token>)
    requires IsSpace(c)
    ensures Run([c] + rest, Fresh(tokens)) == Run(rest, Fresh(tokens))
  {
    var line := [c] + rest;
    SpaceIsPlain(c);
    hide IsSpace;
    assert line[1..] == rest;
    RunOne(line, Fresh(tokens), Fresh(tokens));
  }

  /** A space ends the open token. */
  lemma RunSpace(c: char, rest: string, tokens: seq<Token>, t: Token)
    requires IsSpace(c)
    ensures Run([c] + rest, Open(tokens, t)) == Run(rest, Fresh(tokens + [t]))
  {
    var line := [c] + rest;
    SpaceIsPlain(c);
    hide IsSpace;
    assert line[1..] == rest && Token(t.text, t.quoted) == t;
    RunOne(line, Open(tokens, t), Fresh(tokens + [t]));
  }

  lemma RunGapAfter(gap: string, rest: string, tokens: seq<Token>, t: Token)
    requires AllSpace(gap) && gap != ""
    ensures Run(gap + rest, Open(tokens, t)) == Run(rest, Fresh(tokens + [t]))
  {
    hide Run, IsSpace;
    assert gap + rest == [gap[0]] + (gap[1..] + rest);
    RunSpace(gap[0], gap[1..] + rest, tokens, t);
    RunGap(gap[1..], rest, tokens + [t]);
  }

  lemma ItemsInit(items: seq<Item>)
    requires items != [] && AreItems(items)
    ensures var m := |items| - 1;
      && AreItems(items[..m]) && AllSpace(items[m].gap) && (m > 0 ==> items[m].gap != "")
      && items[m].segs != [] && AllWritable(items[m].segs)
      && AllDenoted(items) == AllDenoted(items[..m]) + [Denoted(items[m].segs)]
      && WriteLine(items) == WriteLine(items[..m]) + (items[m].gap + WriteSegments(items[m].segs))
  {
    hide AllWritable, AllSpace, Denoted, WriteSegments, AllDenoted;
    InitItems(items);
    DenotedInit(items);
  }

  lemma InitItems(items: seq<Item>)
    requires items != [] && AreItems(items)
    ensures AreItems(items[..|items| - 1]) && AllWritable(items[|items| - 1].segs)
  {
    hide AllWritable, AllSpace;
  }

  lemma DenotedInit(items: seq<Item>)
    requires items != [] && AreItems(items) && AreItems(items[..|items| - 1])
    ensures AllDenoted(items) == AllDenoted(items[..|items| - 1]) + [Denoted(items[|items| - 1].segs)]
  {
    hide AllWritable, AllSpace, Denoted;
  }

  lemma NoItems(items: seq<Item>)
    requires items == []
    ensures WriteLine(items) == "" && AreItems(items) && AllDenoted(items) == [] && Fresh([]) == START
  {
  }

  /** The state after written items: in the last token, or before the first. */
  function After(tokens: seq<Token>): Scan {
    if tokens == [] then START else Open(tokens[..|tokens| - 1], tokens[|tokens| - 1])
  }

  lemma {:induction false} RunItems(items: seq<Item>, rest: string)
    requires AreItems(items)
    ensures Run(WriteLine(items) + rest, START) == Run(rest, After(AllDenoted(items)))
    decreases |items|
  {
    hide *;
    if items == [] {
      NoItems(items);
      AfterIs([]);
      assert "" + rest == rest;
    } else {
      ItemsInit(items);
      var m := |items| - 1;
      var init, last, more := AllDenoted(items[..m]), Denoted(items[m].segs), WriteSegments(items[m].segs) + rest;
      assert WriteLine(items) + rest == WriteLine(items[..m]) + (items[m].gap + more);
      RunItems(items[..m], items[m].gap + more);
      AfterIs(init);
      if m == 0 {
        NoItems(items[..m]);
        RunGap(items[m].gap, more, []);
      } else {
        RunGapAfter(items[m].gap, more, init[..m - 1], init[m - 1]);
        assert init[..m - 1] + [init[m - 1]] == init;
      }
      RunToken(items[m].segs, rest, init);
      AfterIs(init + [last]);
      assert (init + [last])[..m] == init;
    }
  }

  lemma AfterIs(tokens: seq<Token>)
    ensures After(tokens) == if tokens == [] then START else Open(tokens[..|tokens| - 1], tokens[|tokens| - 1])
  {
  }

  /** Tokenizing undoes writing: any segments, quoted either way or not, and any white space around tokens. */
  lemma TokensWritten(items: seq<Item>, end: string)
    requires AreItems(items) && AllSpace(end)
    ensures Tokens(WriteLine(items) + end) == Ok(AllDenoted(items))
  {
    hide Run, AreItems, AllDenoted, WriteLine, AllSpace;
    var tokens := AllDenoted(items);
    RunItems(items, end);
    assert end + "" == end;
    if tokens == [] {
      assert Fresh([]) == START;
      RunGap(end, "", []);
      RunNothing(START);
    } else {
      var m := |tokens| - 1;
      assert tokens[..m] + [tokens[m]] == tokens;
      if end == "" {
        RunNothing(After(tokens));
      } else {
        RunGapAfter(end, "", tokens[..m], tokens[m]);
        RunNothing(Fresh(tokens));
      }
    }
  }

  /** A line that ends inside quotes is turned down. */
  lemma Unterminated(items: seq<Item>, gap: string, q: char, text: string)
    requires AreItems(items) && AllSpace(gap) && (items != [] ==> gap != "")
    requires (q == '"' && DoubleRead(text).Some?) || (q == '\'' && '\'' !in text)
    ensures Tokens(WriteLine(items) + (gap + ([q] + text))) == Err(UnterminatedQuote)
  {
    hide Run, AreItems, AllDenoted, WriteLine, AllSpace, DoubleRead;
    var tokens := AllDenoted(items);
    RunItems(items, gap + ([q] + text));
    if tokens == [] {
      assert Fresh([]) == START;
      RunGap(gap, [q] + text, []);
    } else {
      var m := |tokens| - 1;
      assert tokens[..m] + [tokens[m]] == tokens;
      RunGapAfter(gap, [q] + text, tokens[..m], tokens[m]);
    }
    RunOpeningQuote(q, text, Fresh(tokens));
    var inside := Fresh(tokens).(mode := if q == '"' then Double else Single, quoted := true, started := true);
    assert text + "" == text;
    if q == '"' {
      RunDouble(text, "", inside);
      RunNothing(inside.(cur := inside.cur + DoubleRead(text).value));
    } else {
      RunSingle(text, "", inside);
      RunNothing(inside.(cur := inside.cur + text));
    }
  }

  /** One way to write a token: a word as it is, any other text escaped between double quotes. */
  function Plainly(t: Token): Segment { if t.quoted then InDouble(Escape(t.text)) else Bare(t.text) }

  lemma PlainlyDenotes(t: Token)
    requires t.quoted || IsWord(t.text)
    ensures AllWritable([Plainly(t)]) && Denoted([Plainly(t)]) == t
  {
    hide IsWord, DoubleRead, Escape;
    EscapedReads(t.text);
    SegmentsHead([Plainly(t)]);
    NoSegments([Plainly(t)][1..]);
  }

  /** The plain way to write tokens, with one space between neighbours. */
  function PlainItems(tokens: seq<Token>): (items: seq<Item>)
    ensures |items| == |tokens|
  {
    seq(|tokens|, i requires 0 <= i < |tokens| => Item(if i == 0 then "" else " ", [Plainly(tokens[i])]))
  }

  lemma PlainItemsDenote(tokens: seq<Token>)
    requires forall i :: 0 <= i < |tokens| ==> tokens[i].quoted || IsWord(tokens[i].text)
    ensures AreItems(PlainItems(tokens)) && AllDenoted(PlainItems(tokens)) == tokens
  {
    hide IsWord, AllWritable, Denoted, Plainly;
    forall i | 0 <= i < |tokens|
      ensures AllWritable([Plainly(tokens[i])]) && Denoted([Plainly(tokens[i])]) == tokens[i]
    {
      PlainlyDenotes(tokens[i]);
    }
  }

  /** Written with single spaces, the tokens of such a line tokenize to themselves. */
  lemma Retokenized(line: string)
    requires NestAll(OUTSIDE, line) != QuoteSeen && Tokens(line).Ok?
    ensures Tokens(WriteLine(PlainItems(Tokens(line).value))) == Tokens(line)
  {
    UnquotedLine(line);
    var tokens := Tokens(line).value;
    assert forall i :: 0 <= i < |tokens| ==> IsWordToken(tokens[i]) ==> IsWord(tokens[i].text);
    hide Tokens, WriteLine, IsWord, NestAll, AreItems, AllDenoted, PlainItems;
    PlainItemsDenote(tokens);
    TokensWritten(PlainItems(tokens), "");
    assert WriteLine(PlainItems(tokens)) + "" == WriteLine(PlainItems(tokens));
  }
}
