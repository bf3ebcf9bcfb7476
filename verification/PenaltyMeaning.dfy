/**
  What the penalty counts: runs by the lengths of a line's bars, the two finder-like windows
  by their proportions, and blocks, windows and dark modules as sizes of sets of places.
 */
module PenaltyMeaning {
  import opened FiniteSets
  import opened Grids
  import opened Penalty

  // -------------------------------------------------------------- bars of a line

  /** n modules of one colour. */
  function Bar(n: nat, dark: bool): (line: Line)
    ensures |line| == n
  {
    seq(n, i => dark)
  }

  /** Bars of the given lengths, of alternating colours from the first. */
  function Bars(lengths: seq<nat>, dark: bool): Line {
    if lengths == [] then [] else Bar(lengths[0], dark) + Bars(lengths[1..], !dark)
  }

  predicate AllPositive(lengths: seq<nat>) {
    forall i :: 0 <= i < |lengths| ==> lengths[i] > 0
  }

  /** Three points for a bar of five modules and one for each module more. */
  function BarCosts(lengths: seq<nat>): nat {
    if lengths == [] then 0
    else (if lengths[0] >= 5 then 3 + (lengths[0] - 5) else 0) + BarCosts(lengths[1..])
  }

  lemma BarsHead(lengths: seq<nat>, dark: bool)
    requires lengths != [] && AllPositive(lengths)
    ensures var line, n := Bars(lengths, dark), lengths[0];
      && n > 0 && n <= |line| && line[n..] == Bars(lengths[1..], !dark)
      && (forall k :: 0 <= k < n ==> line[k] == dark)
      && AllPositive(lengths[1..])
  {
    assert AllPositive(lengths[1..]);
  }

  /** The bar that starts at i is a run of its own. */
  lemma FirstBar(line: Line, i: nat, lengths: seq<nat>, dark: bool)
    requires i <= |line| && line[i..] == Bars(lengths, dark) && AllPositive(lengths) && lengths != []
    ensures var n := lengths[0];
      && n > 0 && i + n <= |line| && line[i + n..] == Bars(lengths[1..], !dark) && AllPositive(lengths[1..])
      && (forall k :: i <= k < i + n ==> line[k] == dark)
      && (i + n < |line| ==> line[i + n] == !dark)
  {
    var n, rest := lengths[0], line[i..];
    BarsHead(lengths, dark);
    forall k | i <= k < i + n
      ensures line[k] == dark
    {
      assert line[k] == rest[k - i];
    }
    assert line[i + n..] == rest[n..];
    if lengths[1..] == [] {
      assert Bars(lengths[1..], !dark) == [];
    } else {
      BarsHead(lengths[1..], !dark);
      assert line[i + n] == rest[n..][0] == !dark;
    }
  }

  /** Scoring the rest of a line from the start of its next bar. */
  lemma {:induction false} BarsFrom(line: Line, i: nat, lengths: seq<nat>, dark: bool)
    requires i <= |line| && line[i..] == Bars(lengths, dark) && AllPositive(lengths)
    requires 0 < i < |line| ==> line[i - 1] != line[i]
    ensures RunScore(line) == RunsBefore(line, i) + BarCosts(lengths)
    decreases |lengths|
  {
    hide RunsBefore;
    if lengths != [] {
      hide Bars, AllPositive;
      FirstBar(line, i, lengths, dark);
      CloseRun(line, i, lengths[0]);
      BarsFrom(line, i + lengths[0], lengths[1..], !dark);
    }
  }

  /** The runs of a line cost what its bars of five or more modules do. */
  lemma RunScoreBars(lengths: seq<nat>, dark: bool)
    requires AllPositive(lengths)
    ensures RunScore(Bars(lengths, dark)) == BarCosts(lengths)
  {
    var line := Bars(lengths, dark);
    assert line[0..] == line;
    BarsFrom(line, 0, lengths, dark);
  }

  // ----------------------------------------------------------- finder-like windows

  lemma {:induction false} BarsConcat(a: nat, rest: seq<nat>, dark: bool)
    ensures Bars([a] + rest, dark) == Bar(a, dark) + Bars(rest, !dark)
  {
    assert ([a] + rest)[1..] == rest;
  }

  lemma FirstProportions()
    ensures P1 == Bars([1, 1, 3, 1, 1, 4], true)
  {
    assert Bars([], true) == [];
    BarsConcat(4, [], false);
    BarsConcat(1, [4], true);
    BarsConcat(1, [1, 4], false);
    BarsConcat(3, [1, 1, 4], true);
    BarsConcat(1, [3, 1, 1, 4], false);
    BarsConcat(1, [1, 3, 1, 1, 4], true);
    hide Bars;
    assert [4] + [] == [4] && [1] + [4] == [1, 4] && [1] + [1, 4] == [1, 1, 4] && [3] + [1, 1, 4] == [3, 1, 1, 4];
    assert [1] + [3, 1, 1, 4] == [1, 3, 1, 1, 4] && [1] + [1, 3, 1, 1, 4] == [1, 1, 3, 1, 1, 4];
  }

  lemma SecondProportions()
    ensures P2 == Bars([4, 1, 1, 3, 1, 1], false)
  {
    assert Bars([], false) == [];
    BarsConcat(1, [], true);
    BarsConcat(1, [1], false);
    BarsConcat(3, [1, 1], true);
    BarsConcat(1, [3, 1, 1], false);
    BarsConcat(1, [1, 3, 1, 1], true);
    BarsConcat(4, [1, 1, 3, 1, 1], false);
    hide Bars;
    assert [1] + [] == [1] && [1] + [1] == [1, 1] && [3] + [1, 1] == [3, 1, 1] && [1] + [3, 1, 1] == [1, 3, 1, 1];
    assert [1] + [1, 3, 1, 1] == [1, 1, 3, 1, 1] && [4] + [1, 1, 3, 1, 1] == [4, 1, 1, 3, 1, 1];
  }

  /** Dark and light in the proportions 1 : 1 : 3 : 1 : 1, with four light modules on one side. */
  lemma WindowProportions()
    ensures P1 == Bars([1, 1, 3, 1, 1, 4], true) && P2 == Bars([4, 1, 1, 3, 1, 1], false)
  {
    hide *;
    FirstProportions();
    SecondProportions();
  }

  /** A window with those proportions, or their mirror image, starts at j. */
  predicate FinderLike(line: Line, j: nat) {
    && j + 11 <= |line|
    && (line[j..j + 11] == Bars([1, 1, 3, 1, 1, 4], true) || line[j..j + 11] == Bars([4, 1, 1, 3, 1, 1], false))
  }

  function WindowPlaces(line: Line, n: nat): set<nat> {
    set j: nat | j < n && FinderLike(line, j)
  }

  function WindowCount(line: Line, n: nat): nat { |WindowPlaces(line, n)| }

  lemma {:induction false} WindowsCounted(line: Line, n: nat)
    requires n + 10 <= |line| || n == 0
    ensures WindowsBefore(line, n) == 40 * WindowCount(line, n)
  {
    hide *;
    WindowsUnfold(line, n);
    if n > 0 {
      WindowsCounted(line, n - 1);
      WindowPlacesGrow(line, n);
      WindowMeans(line, n - 1);
    }
  }

  lemma WindowsUnfold(line: Line, n: nat)
    requires n + 10 <= |line| || n == 0
    ensures n == 0 ==> WindowsBefore(line, n) == 0 == WindowCount(line, n)
    ensures n > 0 ==>
      WindowsBefore(line, n) == WindowsBefore(line, n - 1) + if WindowAt(line, n - 1) then 40 else 0
  {
    hide WindowAt, FinderLike;
  }

  lemma WindowPlacesGrow(line: Line, n: nat)
    requires n > 0
    ensures WindowCount(line, n) == WindowCount(line, n - 1) + if FinderLike(line, n - 1) then 1 else 0
  {
    hide FinderLike;
    var rest := WindowPlaces(line, n - 1);
    assert WindowPlaces(line, n) == if FinderLike(line, n - 1) then rest + {n - 1} else rest;
  }

  lemma WindowMeans(line: Line, j: nat)
    requires j + 11 <= |line|
    ensures WindowAt(line, j) <==> FinderLike(line, j)
  {
    WindowProportions();
    hide Bars, P1, P2;
  }

  /** Forty points for every such window of a line. */
  lemma WindowScoreCounts(line: Line)
    ensures WindowScore(line) == 40 * |WindowPlaces(line, |line|)|
  {
    var n := if |line| < 10 then 0 else |line| - 10;
    WindowsCounted(line, n);
    assert forall j: nat :: FinderLike(line, j) ==> j < n;
    hide FinderLike, WindowsBefore;
    assert WindowPlaces(line, |line|) == WindowPlaces(line, n);
  }

  // ------------------------------------------------------- places that are counted

  type Place = (int, int)

  function RowPlaces(p: Place -> bool, r: int, cols: nat): set<Place> {
    set c | 0 <= c < cols && p((r, c)) :: (r, c)
  }

  function Places(p: Place -> bool, rows: nat, cols: nat): set<Place> {
    set r, c | 0 <= r < rows && 0 <= c < cols && p((r, c)) :: (r, c)
  }

  lemma RowPlacesGrow(p: Place -> bool, r: int, cols: nat)
    requires cols > 0
    ensures |RowPlaces(p, r, cols)| == |RowPlaces(p, r, cols - 1)| + if p((r, cols - 1)) then 1 else 0
  {
    var rest, last := RowPlaces(p, r, cols - 1), (r, cols - 1);
    assert last !in rest;
    assert RowPlaces(p, r, cols) == if p(last) then rest + {last} else rest;
  }

  lemma {:induction false} RowCounted(f: Weight, w: nat, p: Place -> bool, r: int, cols: nat)
    requires forall c :: 0 <= c < cols ==> f(r, c) == if p((r, c)) then w else 0
    ensures RowSum(f, r, cols) == w * |RowPlaces(p, r, cols)|
  {
    if cols > 0 {
      hide RowPlaces;
      RowCounted(f, w, p, r, cols - 1);
      RowPlacesGrow(p, r, cols);
      OneMore(w, |RowPlaces(p, r, cols - 1)|);
    }
  }

  lemma OneMore(w: nat, n: nat)
    ensures w * (n + 1) == w * n + w
  {
  }

  lemma PlacesGrow(p: Place -> bool, rows: nat, cols: nat)
    requires rows > 0
    ensures |Places(p, rows, cols)| == |Places(p, rows - 1, cols)| + |RowPlaces(p, rows - 1, cols)|
  {
    var rest, last := Places(p, rows - 1, cols), RowPlaces(p, rows - 1, cols);
    assert Places(p, rows, cols) == rest + last;
    assert rest !! last;
  }

  /** A sum over cells that are worth w or nothing. */
  lemma {:induction false} AreaCounted(f: Weight, w: nat, p: Place -> bool, rows: nat, cols: nat)
    requires forall r, c :: 0 <= r < rows && 0 <= c < cols ==> f(r, c) == if p((r, c)) then w else 0
    ensures AreaSum(f, rows, cols) == w * |Places(p, rows, cols)|
  {
    if rows > 0 {
      AreaCounted(f, w, p, rows - 1, cols);
      RowCounted(f, w, p, rows - 1, cols);
      hide Places, RowPlaces;
      PlacesGrow(p, rows, cols);
      SumOfSizes(w, |Places(p, rows - 1, cols)|, |RowPlaces(p, rows - 1, cols)|);
    }
  }

  lemma SumOfSizes(w: nat, m: nat, n: nat)
    ensures w * (m + n) == w * m + w * n
  {
  }

  /** The colours of the two by two block whose first module is at (r, c). */
  function BlockColours(g: Grid, r: int, c: int): set<bool>
    requires Square(g, |g|) && 0 <= r < |g| - 1 && 0 <= c < |g| - 1
  {
    {g[r][c], g[r][c + 1], g[r + 1][c], g[r + 1][c + 1]}
  }

  function BlockPlaces(g: Grid): set<Place>
    requires Square(g, |g|)
  {
    set r, c | 0 <= r < |g| - 1 && 0 <= c < |g| - 1 && |BlockColours(g, r, c)| == 1 :: (r, c)
  }

  function DarkPlaces(g: Grid): set<Place>
    requires Square(g, |g|)
  {
    set r, c | 0 <= r < |g| && 0 <= c < |g| && g[r][c] :: (r, c)
  }

  lemma OneColourMeans(g: Grid, r: int, c: int)
    requires Square(g, |g|) && 0 <= r < |g| - 1 && 0 <= c < |g| - 1
    ensures OneColour(g, r, c) <==> |BlockColours(g, r, c)| == 1
  {
    var colours := BlockColours(g, r, c);
    if OneColour(g, r, c) {
      assert colours == {g[r][c]};
    } else {
      assert g[r][c] in colours && !g[r][c] in colours;
      assert {g[r][c], !g[r][c]} <= colours && |{g[r][c], !g[r][c]}| == 2;
      SubsetSize({g[r][c], !g[r][c]}, colours);
    }
  }

  function BlockAt(g: Grid): Place -> bool
    requires Square(g, |g|)
  {
    (x: Place) => OneColour(g, x.0, x.1)
  }

  lemma BlockPlacesAre(g: Grid)
    requires Square(g, |g|) && |g| > 0
    ensures Places(BlockAt(g), |g| - 1, |g| - 1) == BlockPlaces(g)
  {
    forall r, c | 0 <= r < |g| - 1 && 0 <= c < |g| - 1
      ensures BlockAt(g)((r, c)) <==> |BlockColours(g, r, c)| == 1
    {
      OneColourMeans(g, r, c);
    }
    hide OneColour, BlockColours, BlockAt;
  }

  lemma BlockWeights(g: Grid, r: int, c: int)
    requires Square(g, |g|)
    ensures BlockWeight(g)(r, c) == if BlockAt(g)((r, c)) then 3 else 0
  {
    hide OneColour;
  }

  /** Three points for every block of one colour, overlapping ones included. */
  lemma BlockScoreCounts(g: Grid)
    requires Square(g, |g|) && |g| > 0
    ensures BlockScore(g) == 3 * |BlockPlaces(g)|
  {
    hide BlockWeight, BlockAt, BlockPlaces, Places, AreaSum;
    BlockPlacesAre(g);
    forall r, c | 0 <= r < |g| - 1 && 0 <= c < |g| - 1
      ensures BlockWeight(g)(r, c) == if BlockAt(g)((r, c)) then 3 else 0
    {
      BlockWeights(g, r, c);
    }
    AreaCounted(BlockWeight(g), 3, BlockAt(g), |g| - 1, |g| - 1);
  }

  lemma DarkCountCounts(g: Grid)
    requires Square(g, |g|)
    ensures DarkCount(g) == |DarkPlaces(g)|
  {
    var p := (x: Place) => Inside(|g|, x.0, x.1) && g[x.0][x.1];
    AreaCounted(DarkWeight(g), 1, p, |g|, |g|);
    assert Places(p, |g|, |g|) == DarkPlaces(g);
  }
}
