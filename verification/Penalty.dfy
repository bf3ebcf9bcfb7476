/**
  The mask penalty: the encoder's counting loops against a declarative sum over maximal
  runs, one-colour blocks and finder-like windows, and its symmetry under transposition.
 */
module Penalty {
  import opened Grids

  type Line = seq<bool>

  function Transpose(g: Grid): (t: Grid)
    requires Square(g, |g|)
    ensures Square(t, |g|)
    ensures forall r, c :: Inside(|g|, r, c) ==> t[r][c] == g[c][r]
  {
    seq(|g|, r requires 0 <= r < |g| => seq(|g|, c requires 0 <= c < |g| => g[c][r]))
  }

  lemma TransposeTwice(g: Grid)
    requires Square(g, |g|)
    ensures Transpose(Transpose(g)) == g
  {
    var t := Transpose(Transpose(g));
    forall r | 0 <= r < |g|
      ensures t[r] == g[r]
    {
      forall c | 0 <= c < |g|
        ensures t[r][c] == g[r][c]
      {}
    }
  }

  // ------------------------------------------------------------- rule 1: runs

  /** How many modules from position i on have the colour of module i. */
  function RunLength(line: Line, i: nat): (n: nat)
    requires i < |line|
    ensures 1 <= n && i + n <= |line|
    decreases |line| - i
  {
    if i + 1 < |line| && line[i + 1] == line[i] then 1 + RunLength(line, i + 1) else 1
  }

  predicate RunStart(line: Line, i: nat)
    requires i < |line|
  {
    i == 0 || line[i - 1] != line[i]
  }

  /** A maximal run of at least five modules costs its length less two. */
  function RunCost(line: Line, i: nat): nat
    requires i < |line|
  {
    if RunStart(line, i) && RunLength(line, i) >= 5 then RunLength(line, i) - 2 else 0
  }

  /** The cost of the maximal runs that start before position n. */
  function RunsBefore(line: Line, n: nat): nat
    requires n <= |line|
  {
    if n == 0 then 0 else RunsBefore(line, n - 1) + RunCost(line, n - 1)
  }

  function RunScore(line: Line): nat {
    RunsBefore(line, |line|)
  }

  /** RunLength is the extent of the run: constant inside, broken at its end. */
  lemma {:induction false} RunLengthMaximal(line: Line, i: nat)
    requires i < |line|
    ensures forall k :: i <= k < i + RunLength(line, i) ==> line[k] == line[i]
    ensures i + RunLength(line, i) < |line| ==> line[i + RunLength(line, i)] != line[i]
    decreases |line| - i
  {
    if i + 1 < |line| && line[i + 1] == line[i] {
      RunLengthMaximal(line, i + 1);
    }
  }

  lemma RunLengthIs(line: Line, i: nat, n: nat)
    requires 1 <= n && i + n <= |line|
    requires forall k :: i <= k < i + n ==> line[k] == line[i]
    requires i + n < |line| ==> line[i + n] != line[i]
    ensures RunLength(line, i) == n
  {
    RunLengthMaximal(line, i);
  }

  lemma {:induction false} NoStartsInside(line: Line, i: nat, n: nat)
    requires 1 <= n && i + n <= |line|
    requires forall k :: i <= k < i + n ==> line[k] == line[i]
    ensures RunsBefore(line, i + n) == RunsBefore(line, i + 1)
  {
    if n > 1 {
      NoStartsInside(line, i, n - 1);
      assert line[i + n - 2] == line[i] == line[i + n - 1];
    }
  }

  /** Close the run of length n that starts at i: the loop adds exactly its cost. */
  lemma CloseRun(line: Line, i: nat, n: nat)
    requires 1 <= n && i + n <= |line|
    requires RunStart(line, i)
    requires forall k :: i <= k < i + n ==> line[k] == line[i]
    requires i + n < |line| ==> line[i + n] != line[i]
    ensures RunsBefore(line, i + n) == RunsBefore(line, i) + if n >= 5 then n - 2 else 0
  {
    RunLengthIs(line, i, n);
    NoStartsInside(line, i, n);
  }

  method ScoreRuns(line: Line) returns (score: nat)
    ensures score == RunScore(line)
  {
    score := 0;
    var run, prev := 0, false;   // a run of zero modules stands for the source's null colour
    for j := 0 to |line|
      invariant run <= j && (run == 0 <==> j == 0)
      invariant j > 0 ==> RunStart(line, j - run) && prev == line[j - run]
      invariant forall k :: j - run <= k < j ==> line[k] == prev
      invariant score == RunsBefore(line, j - run)
    {
      var m := line[j];
      if run > 0 && m == prev {
        run := run + 1;
      } else {
        if run > 0 { CloseRun(line, j - run, run); }
        if run >= 5 { score := score + (run - 2); }
        run := 1;
        prev := m;
      }
    }
    if run > 0 { CloseRun(line, |line| - run, run); }
    if run >= 5 { score := score + (run - 2); }
  }

  // ---------------------------------------------------- rule 3: finder windows

  const P1: Line := [true, false, true, true, true, false, true, false, false, false, false]
  const P2: Line := [false, false, false, false, true, false, true, true, true, false, true]

  /** One of the two 11-module patterns starts at position j. */
  predicate WindowAt(line: Line, j: nat)
    requires j + 11 <= |line|
  {
    line[j..j + 11] == P1 || line[j..j + 11] == P2
  }

  function WindowsBefore(line: Line, n: nat): nat
    requires n + 10 <= |line| || n == 0
  {
    if n == 0 then 0 else WindowsBefore(line, n - 1) + if WindowAt(line, n - 1) then 40 else 0
  }

  function WindowScore(line: Line): nat {
    WindowsBefore(line, if |line| < 10 then 0 else |line| - 10)
  }

  method MatchWindow(line: Line, j: nat, p1: Line, p2: Line) returns (match1: bool, match2: bool)
    requires j + 11 <= |line| && |p1| == |p2| == 11
    ensures match1 == (line[j..j + 11] == p1) && match2 == (line[j..j + 11] == p2)
  {
    match1, match2 := true, true;
    for k := 0 to 11
      invariant match1 == (forall q :: 0 <= q < k ==> line[j + q] == p1[q])
      invariant match2 == (forall q :: 0 <= q < k ==> line[j + q] == p2[q])
    {
      var m := line[j + k];
      if m != p1[k] { match1 := false; }
      if m != p2[k] { match2 := false; }
    }
    WindowEquals(line, j, p1);
    WindowEquals(line, j, p2);
  }

  lemma WindowEquals(line: Line, j: nat, p: Line)
    requires j + 11 <= |line| && |p| == 11
    ensures (line[j..j + 11] == p) == (forall q :: 0 <= q < 11 ==> line[j + q] == p[q])
  {
    var w := line[j..j + 11];
    if w == p {
      forall q | 0 <= q < 11
        ensures line[j + q] == p[q]
      {
        assert w[q] == p[q];
      }
    }
  }

  method ScoreWindows(line: Line) returns (score: nat)
    ensures score == WindowScore(line)
  {
    score := 0;
    var j := 0;
    while j + 10 < |line|
      invariant j == 0 || j + 10 <= |line|
      invariant score == WindowsBefore(line, j)
    {
      var match1, match2 := MatchWindow(line, j, P1, P2);
      if match1 || match2 { score := score + 40; }
      j := j + 1;
    }
  }

  // --------------------------------------------------------- sums over lines

  /** Rules 1 and 3 on the first n rows. */
  function RowRuns(g: Grid, n: nat): nat
    requires n <= |g|
  {
    if n == 0 then 0 else RowRuns(g, n - 1) + RunScore(g[n - 1])
  }

  function RowWindows(g: Grid, n: nat): nat
    requires n <= |g|
  {
    if n == 0 then 0 else RowWindows(g, n - 1) + WindowScore(g[n - 1])
  }

  // --------------------------------------------- rules 2 and 4: sums over cells

  type Weight = (int, int) -> nat

  function RowSum(f: Weight, r: int, n: nat): nat {
    if n == 0 then 0 else RowSum(f, r, n - 1) + f(r, n - 1)
  }

  function ColSum(f: Weight, c: int, n: nat): nat {
    if n == 0 then 0 else ColSum(f, c, n - 1) + f(n - 1, c)
  }

  function AreaSum(f: Weight, rows: nat, cols: nat): nat {
    if rows == 0 then 0 else AreaSum(f, rows - 1, cols) + RowSum(f, rows - 1, cols)
  }

  lemma {:induction false} AreaByColumns(f: Weight, rows: nat, cols: nat)
    requires cols > 0
    ensures AreaSum(f, rows, cols) == AreaSum(f, rows, cols - 1) + ColSum(f, cols - 1, rows)
  {
    if rows > 0 {
      AreaByColumns(f, rows - 1, cols);
    }
  }

  lemma {:induction false} AreaEmpty(f: Weight, rows: nat)
    ensures AreaSum(f, rows, 0) == 0
  {
    if rows > 0 {
      AreaEmpty(f, rows - 1);
    }
  }

  lemma {:induction false} ColIsRow(f: Weight, g: Weight, c: int, n: nat)
    requires forall r :: 0 <= r < n ==> f(r, c) == g(c, r)
    ensures ColSum(f, c, n) == RowSum(g, c, n)
  {
    if n > 0 {
      ColIsRow(f, g, c, n - 1);
    }
  }

  /** A sum over an area does not depend on which index is summed first. */
  lemma {:induction false} AreaTransposed(f: Weight, g: Weight, rows: nat, cols: nat)
    requires forall r, c :: 0 <= r < rows && 0 <= c < cols ==> f(r, c) == g(c, r)
    ensures AreaSum(f, rows, cols) == AreaSum(g, cols, rows)
    decreases cols
  {
    if cols == 0 {
      AreaEmpty(f, rows);
    } else {
      AreaTransposed(f, g, rows, cols - 1);
      AreaByColumns(f, rows, cols);
      ColIsRow(f, g, cols - 1, rows);
    }
  }

  /** Three points for a 2 by 2 block of one colour. */
  predicate OneColour(g: Grid, r: int, c: int)
    requires Square(g, |g|)
  {
    && 0 <= r < |g| - 1 && 0 <= c < |g| - 1
    && g[r][c] == g[r][c + 1] == g[r + 1][c] == g[r + 1][c + 1]
  }

  function BlockWeight(g: Grid): Weight
    requires Square(g, |g|)
  {
    (r, c) => if OneColour(g, r, c) then 3 else 0
  }

  function DarkWeight(g: Grid): Weight
    requires Square(g, |g|)
  {
    (r, c) => if Inside(|g|, r, c) && g[r][c] then 1 else 0
  }

  function BlockScore(g: Grid): nat
    requires Square(g, |g|) && |g| > 0
  {
    AreaSum(BlockWeight(g), |g| - 1, |g| - 1)
  }

  function DarkCount(g: Grid): nat
    requires Square(g, |g|)
  {
    AreaSum(DarkWeight(g), |g|, |g|)
  }

  function Abs(x: int): nat {
    if x < 0 then -x else x
  }

  function Quotient(x: nat, d: nat): nat
    requires d > 0
  {
    x / d
  }

  function Area(n: nat): (a: nat)
    ensures n > 0 ==> a > 0
  {
    n * n
  }

  /** Ten points per whole step of five per cent that the dark share is away from half. */
  function BalanceScore(dark: nat, n: nat): nat
    requires n > 0
  {
    var area := Area(n);
    10 * Quotient(Abs(100 * dark - 50 * area), 5 * area)
  }

  /** How far the dark share is from half, in hundredths of the area. */
  function OffBalance(dark: nat, n: nat): nat {
    if 100 * dark >= 50 * (n * n) then 100 * dark - 50 * (n * n) else 50 * (n * n) - 100 * dark
  }

  /** Ten points for every whole five per cent of the area, and no more. */
  ghost predicate BalanceLaw(points: int, dark: nat, n: nat) {
    exists k: nat :: points == 10 * k && StepsOff(k, dark, n)
  }

  /** The dark share is at least k and less than k + 1 steps of five per cent off half. */
  predicate StepsOff(k: nat, dark: nat, n: nat) {
    k * (5 * (n * n)) <= OffBalance(dark, n) < (k + 1) * (5 * (n * n))
  }

  lemma QuotientBounds(x: nat, d: nat)
    requires d > 0
    ensures Quotient(x, d) * d <= x < (Quotient(x, d) + 1) * d
  {
    assert x == (x / d) * d + x % d;
  }

  lemma BalanceExact(dark: nat, n: nat)
    requires n > 0
    ensures BalanceLaw(BalanceScore(dark, n), dark, n)
  {
    var off, step := Abs(100 * dark - 50 * Area(n)), 5 * Area(n);
    assert off == OffBalance(dark, n) && step == 5 * (n * n);
    hide *;
    QuotientBounds(off, step);
    BalanceUnfold(dark, n);
    StepsOffMeans(Quotient(off, step), dark, n);
    BalanceLawIntro(Quotient(off, step), dark, n);
  }

  lemma BalanceUnfold(dark: nat, n: nat)
    requires n > 0
    ensures BalanceScore(dark, n) == 10 * Quotient(Abs(100 * dark - 50 * Area(n)), 5 * Area(n))
  {
  }

  lemma StepsOffMeans(k: nat, dark: nat, n: nat)
    ensures StepsOff(k, dark, n) <==> k * (5 * (n * n)) <= OffBalance(dark, n) < (k + 1) * (5 * (n * n))
  {
  }

  lemma BalanceLawIntro(k: nat, dark: nat, n: nat)
    requires StepsOff(k, dark, n)
    ensures BalanceLaw(10 * k, dark, n)
  {
  }

  /** The law leaves no choice. */
  lemma BalanceUnique(points: int, points': int, dark: nat, n: nat)
    requires BalanceLaw(points, dark, n) && BalanceLaw(points', dark, n)
    ensures points == points'
  {
    var k: nat :| points == 10 * k && StepsOff(k, dark, n);
    var k': nat :| points' == 10 * k' && StepsOff(k', dark, n);
    StepsApart(k, k', 5 * (n * n), OffBalance(dark, n));
    StepsApart(k', k, 5 * (n * n), OffBalance(dark, n));
  }

  lemma StepsApart(k: nat, k': nat, step: nat, off: nat)
    requires k * step <= off < (k' + 1) * step
    ensures k <= k'
  {
    if k > k' {
      assert (k' + 1) * step <= k * step by { MulMonotone(k' + 1, k, step); }
    }
  }

  lemma {:induction false} MulMonotone(a: nat, b: nat, step: nat)
    requires a <= b
    ensures a * step <= b * step
  {
    if a < b {
      MulMonotone(a, b - 1, step);
      assert b * step == (b - 1) * step + step;
    }
  }

  /** Dark and light count alike. */
  lemma BalanceMirrored(dark: nat, n: nat)
    requires n > 0 && dark <= n * n
    ensures BalanceScore(n * n - dark, n) == BalanceScore(dark, n)
  {
    var area := Area(n);
    assert 100 * (area - dark) - 50 * area == -(100 * dark - 50 * area);
    hide Quotient;
  }

  /** The score by the first three rules: runs, blocks and finder-like windows. */
  function PatternScore(g: Grid): nat
    requires Square(g, |g|) && |g| > 0
  {
    RowRuns(g, |g|) + RowRuns(Transpose(g), |g|)
    + BlockScore(g)
    + RowWindows(g, |g|) + RowWindows(Transpose(g), |g|)
  }

  /** The declarative penalty. */
  function Score(g: Grid): nat
    requires Square(g, |g|) && |g| > 0
  {
    PatternScore(g) + BalanceScore(DarkCount(g), |g|)
  }

  /** The penalty of a symbol and of its transpose are equal. */
  lemma ScoreTransposed(g: Grid)
    requires Square(g, |g|) && |g| > 0
    ensures Score(Transpose(g)) == Score(g)
  {
    hide RowRuns, RowWindows, BalanceScore, AreaSum;
    var t := Transpose(g);
    TransposeTwice(g);
    AreaTransposed(BlockWeight(g), BlockWeight(t), |g| - 1, |g| - 1);
    AreaTransposed(DarkWeight(g), DarkWeight(t), |g|, |g|);
  }

  // ------------------------------------------------- the encoder's own loops

  /** A row, or a column, of the matrix. */
  function LineOf(g: Grid, axis: nat, i: nat): Line
    requires Square(g, |g|) && i < |g|
  {
    if axis == 0 then g[i] else Transpose(g)[i]
  }

  function AxisGrid(g: Grid, axis: nat): (a: Grid)
    requires Square(g, |g|)
    ensures Square(a, |g|)
  {
    if axis == 0 then g else Transpose(g)
  }

  method PenaltyRuns(g: Grid) returns (score: nat)
    requires Square(g, |g|)
    ensures score == RowRuns(g, |g|) + RowRuns(Transpose(g), |g|)
  {
    score := 0;
    for axis := 0 to 2
      invariant score == (if axis > 0 then RowRuns(g, |g|) else 0) + (if axis > 1 then RowRuns(Transpose(g),
          |g|) else 0)
    {
      ghost var before := score;
      for i := 0 to |g|
        invariant score == before + RowRuns(AxisGrid(g, axis), i)
      {
        var line := ScoreRuns(LineOf(g, axis, i));
        score := score + line;
      }
    }
  }

  method PenaltyBlocks(g: Grid) returns (score: nat)
    requires Square(g, |g|) && |g| > 0
    ensures score == BlockScore(g)
  {
    score := 0;
    for r := 0 to |g| - 1
      invariant score == AreaSum(BlockWeight(g), r, |g| - 1)
    {
      ghost var before := score;
      for c := 0 to |g| - 1
        invariant score == before + RowSum(BlockWeight(g), r, c)
      {
        var m := g[r][c];
        if m == g[r][c + 1] && m == g[r + 1][c] && m == g[r + 1][c + 1] { score := score + 3; }
      }
    }
  }

  method PenaltyWindows(g: Grid) returns (score: nat)
    requires Square(g, |g|)
    ensures score == RowWindows(g, |g|) + RowWindows(Transpose(g), |g|)
  {
    score := 0;
    for axis := 0 to 2
      invariant score == (if axis > 0 then RowWindows(g, |g|) else 0) + (if axis > 1 then RowWindows(Transpose(g),
          |g|) else 0)
    {
      ghost var before := score;
      for i := 0 to |g|
        invariant score == before + RowWindows(AxisGrid(g, axis), i)
      {
        var line := ScoreWindows(LineOf(g, axis, i));
        score := score + line;
      }
    }
  }

  method CountDark(g: Grid) returns (dark: nat)
    requires Square(g, |g|)
    ensures dark == DarkCount(g)
  {
    dark := 0;
    for r := 0 to |g|
      invariant dark == AreaSum(DarkWeight(g), r, |g|)
    {
      ghost var before := dark;
      for c := 0 to |g|
        invariant dark == before + RowSum(DarkWeight(g), r, c)
      {
        if g[r][c] { dark := dark + 1; }
      }
    }
  }

  /** The encoder's score of a matrix. */
  method ComputePenalty(g: Grid) returns (score: nat)
    requires Square(g, |g|) && |g| > 0
    ensures score == Score(g)
    ensures BalanceLaw(score - PatternScore(g), DarkCount(g), |g|)
  {
    hide RowRuns, RowWindows, BlockScore, DarkCount, BalanceLaw, BalanceScore;
    var runs := PenaltyRuns(g);
    var blocks := PenaltyBlocks(g);
    var windows := PenaltyWindows(g);
    var dark := CountDark(g);
    BalanceExact(dark, |g|);
    score := runs + blocks + windows + BalanceScore(dark, |g|);
  }
}
