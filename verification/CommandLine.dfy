/** The console's command line: a four-mode tokenizer and the conversion of its tokens. */
module CommandLine {
  import opened Digits
  import opened Wrappers

  datatype Token = Token(text: string, quoted: bool)

  datatype Failure =
    | UnbalancedBracket(ch: char)
    | UnterminatedQuote
    | UnbalancedBrackets
    | NotAMethod
    | InvalidJson(text: string)

  /** Double and Single are quoted arguments; JString is a string inside bracketed JSON. */
  datatype Mode = Normal | Double | Single | JString

  datatype Scan = Scan(tokens: seq<Token>, cur: string, quoted: bool, started: bool, depth: nat, mode: Mode)

  const START: Scan := Scan([], "", false, false, 0, Normal)

  /** JavaScript white space. */
  predicate IsSpace(ch: char) {
    var c := ch as int;
    || 0x09 <= c <= 0x0d || c == 0x20 || c == 0xa0 || c == 0x1680 || 0x2000 <= c <= 0x200a
    || c == 0x2028 || c == 0x2029 || c == 0x202f || c == 0x205f || c == 0x3000 || c == 0xfeff
  }

  /** The same, character by character. */
  const SPACES: string := "\U{0009}\U{000A}\U{000B}\U{000C}\U{000D}\U{0020}\U{00A0}\U{1680}"
    + "\U{2000}\U{2001}\U{2002}\U{2003}\U{2004}\U{2005}\U{2006}\U{2007}\U{2008}\U{2009}\U{200A}"
    + "\U{2028}\U{2029}\U{202F}\U{205F}\U{3000}\U{FEFF}"

  lemma SpacesAre(c: char)
    ensures IsSpace(c) <==> c in SPACES
  {
  }

  predicate IsOpen(ch: char) { ch == '[' || ch == '{' }

  predicate IsClose(ch: char) { ch == ']' || ch == '}' }

  /** Brackets and braces nest; parentheses do not. */
  lemma BracketsAre(c: char)
    ensures IsOpen(c) <==> c in "[{"
    ensures IsClose(c) <==> c in "]}"
  {
  }

  // ---------------------------------------------------------------- tokenizing

  /** How many characters the scanner takes at the front of s, in the given mode. */
  function Width(s: string, mode: Mode): (n: nat)
    requires s != ""
    ensures 1 <= n <= |s|
  {
    if |s| >= 2 && s[0] == '\\' && (mode == JString || (mode == Double && (s[1] == '"' || s[1] == '\\')))
    then 2 else 1
  }

  /** One round of the scanner at the front of s. */
  function Step(s: string, st: Scan): Result<Scan, Failure>
    requires s != ""
  {
    var ch := s[0];
    match st.mode
    case Double =>
      if Width(s, Double) == 2 then Ok(st.(cur := st.cur + [s[1]]))
      else if ch == '"' then Ok(st.(mode := Normal))
      else Ok(st.(cur := st.cur + [ch]))
    case Single =>
      if ch == '\'' then Ok(st.(mode := Normal)) else Ok(st.(cur := st.cur + [ch]))
    case JString =>
      if ch == '\\' then Ok(st.(cur := st.cur + s[..Width(s, JString)]))
      else if ch == '"' then Ok(st.(cur := st.cur + [ch], mode := Normal))
      else Ok(st.(cur := st.cur + [ch]))
    case Normal =>
      if ch == '"' && st.depth > 0 then Ok(st.(mode := JString, cur := st.cur + [ch]))
      else if ch == '"' || ch == '\'' then
        Ok(st.(mode := if ch == '"' then Double else Single, quoted := true, started := true))
      else if IsSpace(ch) && st.depth == 0 then
        if st.started then Ok(st.(tokens := st.tokens + [Token(st.cur, st.quoted)], cur := "", quoted := false,
            started := false))
        else Ok(st)
      else if IsClose(ch) && st.depth == 0 then Err(UnbalancedBracket(ch))
      else
        var depth := if IsOpen(ch) then st.depth + 1 else if IsClose(ch) then st.depth - 1 else st.depth;
        Ok(st.(depth := depth, cur := st.cur + [ch], started := true))
  }

  function Run(s: string, st: Scan): Result<Scan, Failure>
    decreases |s|
  {
    if s == "" then Ok(st)
    else
      var next := Step(s, st);
      if next.Err? then next else Run(s[Width(s, st.mode)..], next.value)
  }

  function Finish(st: Scan): Result<seq<Token>, Failure> {
    if st.mode == Double || st.mode == Single then Err(UnterminatedQuote)
    else if st.mode == JString || st.depth != 0 then Err(UnbalancedBrackets)
    else if st.started then Ok(st.tokens + [Token(st.cur, st.quoted)])
    else Ok(st.tokens)
  }

  function Tokens(line: string): Result<seq<Token>, Failure> {
    var end := Run(line, START);
    if end.Err? then Err(end.error) else Finish(end.value)
  }

  /** One round of the console's loop at index i: the next state and the next index. */
  method Round(line: string, i: nat, st: Scan) returns (next: Result<Scan, Failure>, j: nat)
    requires i < |line|
    ensures next == Step(line[i..], st)
    ensures j == i + Width(line[i..], st.mode)
  {
    ghost var rest := line[i..];
    var Scan(tokens, cur, quoted, started, depth, mode) := st;
    var ch := line[i];
    j := i;
    if mode == Double {
      if ch == '\\' && i + 1 < |line| && (line[i + 1] == '"' || line[i + 1] == '\\') {
        cur := cur + [line[i + 1]];
        j := j + 1;
      } else if ch == '"' {
        mode := Normal;
      } else {
        cur := cur + [ch];
      }
    } else if mode == Single {
      if ch == '\'' { mode := Normal; } else { cur := cur + [ch]; }
    } else if mode == JString {
      if ch == '\\' {
        var ahead := if i + 1 < |line| then [line[i + 1]] else "";
        assert rest[..Width(rest, JString)] == [ch] + ahead;
        cur := cur + ([ch] + ahead);
        j := j + |ahead|;
      } else {
        cur := cur + [ch];
        if ch == '"' { mode := Normal; }
      }
    } else if ch == '"' && depth > 0 {
      mode := JString;
      cur := cur + [ch];
    } else if ch == '"' || ch == '\'' {
      mode := if ch == '"' then Double else Single;
      quoted := true;
      started := true;
    } else if IsSpace(ch) && depth == 0 {
      if started {
        tokens := tokens + [Token(cur, quoted)];
        cur, quoted, started := "", false, false;
      }
    } else {
      if IsOpen(ch) {
        depth := depth + 1;
      } else if IsClose(ch) {
        if depth == 0 { return Err(UnbalancedBracket(ch)), j + 1; }
        depth := depth - 1;
      }
      cur := cur + [ch];
      started := true;
    }
    next := Ok(Scan(tokens, cur, quoted, started, depth, mode));
    j := j + 1;
  }

  /** The scanner's loop over the line. */
  method Tokenize(line: string) returns (r: Result<seq<Token>, Failure>)
    ensures r == Tokens(line)
  {
    hide Step, Width;
    var st, i := START, 0;
    assert line[0..] == line;
    while i < |line|
      invariant 0 <= i <= |line|
      invariant Run(line, START) == Run(line[i..], st)
    {
      var next, j := Round(line, i, st);
      assert line[i..][j - i..] == line[j..];
      if next.Err? { return Err(next.error); }
      st, i := next.value, j;
    }
    r := Finish(st);
  }

  // --------------------------------------------------------- arguments, commands

  predicate IsMethodChar(c: char) {
    'a' <= c <= 'z' || 'A' <= c <= 'Z' || IsDigit(c) || c == '_' || c == '-'
  }

  predicate IsMethod(s: string) {
    s != "" && forall i :: 0 <= i < |s| ==> IsMethodChar(s[i])
  }

  function DropDigits(s: string): (r: string)
    ensures |r| <= |s|
  {
    if s != "" && IsDigit(s[0]) then DropDigits(s[1..]) else s
  }

  predicate IsExponent(s: string) {
    || s == ""
    || ((s[0] == 'e' || s[0] == 'E')
        && (var t := if |s| > 1 && (s[1] == '+' || s[1] == '-') then s[2..] else s[1..];
            t != "" && DropDigits(t) == ""))
  }

  predicate IsFraction(s: string) {
    if |s| > 1 && s[0] == '.' && IsDigit(s[1]) then IsExponent(DropDigits(s[1..])) else IsExponent(s)
  }

  /** A JSON number literal: no leading zeros, digits on both sides of a point. */
  predicate IsNumber(s: string) {
    var t := if s != "" && s[0] == '-' then s[1..] else s;
    t != "" && IsDigit(t[0]) && IsFraction(if t[0] == '0' then t[1..] else DropDigits(t))
  }

  datatype Param<J> = Text(text: string) | Bool(b: bool) | Null | Number(literal: string) | Json(value: J)

  /** One token as a parameter; json is the JSON parser, None when it throws. */
  function Convert<J>(token: Token, json: string -> Option<J>): Result<Param<J>, Failure> {
    var t := token.text;
    if token.quoted then Ok(Text(t))
    else if t == "true" then Ok(Bool(true))
    else if t == "false" then Ok(Bool(false))
    else if t == "null" then Ok(Null)
    else if IsNumber(t) then Ok(Number(t))
    else if t != "" && IsOpen(t[0]) then
      var v := json(t);
      if v.None? then Err(InvalidJson(t)) else Ok(Json(v.value))
    else Ok(Text(t))
  }

  function ConvertAll<J>(tokens: seq<Token>, json: string -> Option<J>): Result<seq<Param<J>>, Failure> {
    if tokens == [] then Ok([])
    else
      var head := Convert(tokens[0], json);
      if head.Err? then Err(head.error)
      else
        var rest := ConvertAll(tokens[1..], json);
        if rest.Err? then rest else Ok([head.value] + rest.value)
  }

  datatype Command<J> = Command(name: string, params: seq<Param<J>>)

  /** None for a blank line. */
  function ParseCommandLine<J>(line: string, json: string -> Option<J>): Result<Option<Command<J>>, Failure> {
    var tokens := Tokens(line);
    if tokens.Err? then Err(tokens.error)
    else if tokens.value == [] then Ok(None)
    else
      var head := tokens.value[0];
      if head.quoted || !IsMethod(head.text) then Err(NotAMethod)
      else
        var params := ConvertAll(tokens.value[1..], json);
        if params.Err? then Err(params.error) else Ok(Some(Command(head.text, params.value)))
  }

  // ------------------------------------------------------------------ single rounds

  lemma RunOne(line: string, st: Scan, next: Scan)
    requires line != "" && Step(line, st) == Ok(next)
    ensures Run(line, st) == Run(line[Width(line, st.mode)..], next)
  {
    hide Step, Width;
  }

  lemma RunNothing(st: Scan)
    ensures Run("", st) == Ok(st)
  {
  }
}
