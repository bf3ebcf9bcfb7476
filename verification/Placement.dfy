/**
  The zigzag placement of codeword bits: every cell outside the timing column is visited
  exactly once, and a reader that repeats the walk finds the bits in order.
 */
module Placement {
  import opened Bytes
  import opened Grids
  import opened Masks

  datatype Cell = Cell(row: int, col: int)

  // --------------------------------------------------------------------- walk

  predicate WalkSize(n: int) {
    n >= 7 && n % 2 == 1
  }

  /** The right-hand column of column pair p, shifted past the timing column. */
  function PairColumn(n: int, p: nat): int {
    var right := n - 1 - 2 * p;
    if right <= 6 then right - 1 else right
  }

  function PairRow(n: int, p: nat, s: int): int {
    if p % 2 == 0 then n - 1 - s else s
  }

  /** The 2n cells of one column pair, upwards or downwards. */
  function PairWalk(n: nat, p: nat): (w: seq<Cell>)
    ensures |w| == 2 * n
  {
    seq(2 * n, (i: nat) => Cell(PairRow(n, p, i / 2), PairColumn(n, p) - i % 2))
  }

  function WalkPairs(n: nat, p: nat): seq<Cell> {
    if p == 0 then [] else WalkPairs(n, p - 1) + PairWalk(n, p - 1)
  }

  /** The whole walk. */
  function Walk(n: nat): seq<Cell>
    requires WalkSize(n)
  {
    WalkPairs(n, (n - 1) / 2)
  }

  ghost predicate NoRepeats(w: seq<Cell>) {
    forall i, j :: 0 <= i < j < |w| ==> w[i] != w[j]
  }

  lemma PairWalkNoRepeats(n: nat, p: nat)
    ensures NoRepeats(PairWalk(n, p))
  {
    var w := PairWalk(n, p);
    forall i, j | 0 <= i < j < |w|
      ensures w[i] != w[j]
    {
      assert i / 2 != j / 2 || i % 2 != j % 2;
    }
  }

  lemma PairWalkCells(n: nat, p: nat, x: Cell)
    ensures x in PairWalk(n, p) <==>
      0 <= x.row < n && (x.col == PairColumn(n, p) || x.col == PairColumn(n, p) - 1)
  {
    var w := PairWalk(n, p);
    if 0 <= x.row < n && (x.col == PairColumn(n, p) || x.col == PairColumn(n, p) - 1) {
      var s := if p % 2 == 0 then n - 1 - x.row else x.row;
      var i := 2 * s + (PairColumn(n, p) - x.col);
      assert i / 2 == s && i % 2 == PairColumn(n, p) - x.col;
      assert w[i] == x;
    }
  }

  lemma {:induction false} WalkPairsColumns(n: nat, p: nat)
    requires WalkSize(n) && 2 * p < n
    ensures forall x :: x in WalkPairs(n, p) ==> x.col > PairColumn(n, p)
    ensures NoRepeats(WalkPairs(n, p))
  {
    if p > 0 {
      WalkPairsColumns(n, p - 1);
      PairWalkNoRepeats(n, p - 1);
      var head, tail := WalkPairs(n, p - 1), PairWalk(n, p - 1);
      forall x | x in tail
        ensures PairColumn(n, p) < x.col <= PairColumn(n, p - 1)
      {
        PairWalkCells(n, p - 1, x);
      }
      NoRepeatsConcat(head, tail);
    }
  }

  lemma NoRepeatsConcat(a: seq<Cell>, b: seq<Cell>)
    requires NoRepeats(a) && NoRepeats(b)
    requires forall x :: x in a ==> x !in b
    ensures NoRepeats(a + b)
  {
    forall i, j | 0 <= i < j < |a + b|
      ensures (a + b)[i] != (a + b)[j]
    {
      if i < |a| <= j {
        assert a[i] in a && b[j - |a|] in b;
      }
    }
  }

  lemma {:induction false} WalkPairsMember(n: nat, p: nat, q: nat, x: Cell)
    requires q < p && x in PairWalk(n, q)
    ensures x in WalkPairs(n, p)
    decreases p
  {
    if q < p - 1 {
      WalkPairsMember(n, p - 1, q, x);
    }
  }

  lemma {:induction false} WalkPairsInside(n: nat, p: nat)
    requires WalkSize(n) && 2 * p < n
    ensures forall x :: x in WalkPairs(n, p) ==> Inside(n, x.row, x.col) && x.col != 6
  {
    if p > 0 {
      WalkPairsInside(n, p - 1);
      forall x | x in PairWalk(n, p - 1)
        ensures Inside(n, x.row, x.col) && x.col != 6
      {
        PairWalkCells(n, p - 1, x);
      }
    }
  }

  /** The walk visits every cell outside column 6 exactly once, and no other cell. */
  lemma WalkVisitsOnce(n: nat)
    requires WalkSize(n)
    ensures NoRepeats(Walk(n))
    ensures forall x :: x in Walk(n) <==> Inside(n, x.row, x.col) && x.col != 6
  {
    var pairs := (n - 1) / 2;
    WalkPairsColumns(n, pairs);
    WalkPairsInside(n, pairs);
    forall x: Cell | Inside(n, x.row, x.col) && x.col != 6
      ensures x in Walk(n)
    {
      var right := if x.col > 6 then x.col + x.col % 2 else if x.col % 2 == 1 then x.col + 1 else x.col + 2;
      var q := (n - 1 - right) / 2;
      assert right % 2 == 0 && 2 <= right <= n - 1;
      assert n - 1 - 2 * q == right;
      PairWalkCells(n, q, x);
      WalkPairsMember(n, pairs, q, x);
    }
  }

  // ---------------------------------------------------------------- placement

  predicate Valid(modules: Grid, fn: Grid, n: nat) {
    Square(modules, n) && Square(fn, n)
  }

  predicate OnGrid(w: seq<Cell>, n: nat) {
    forall i :: 0 <= i < |w| ==> Inside(n, w[i].row, w[i].col)
  }

  /** How many cells of a walk may hold data. */
  function FreeCount(fn: Grid, w: seq<Cell>): nat
    requires Square(fn, |fn|) && OnGrid(w, |fn|)
  {
    if w == [] then 0
    else
      var x := w[|w| - 1];
      FreeCount(fn, w[..|w| - 1]) + (if fn[x.row][x.col] then 0 else 1)
  }

  /** Bit k of the codeword stream, most significant bits first; false past its end. */
  function StreamBit(codewords: seq<bv8>, k: nat): bool {
    k / 8 < |codewords| && ByteBits(codewords[k / 8])[k % 8]
  }

  /** The modules after the walk w: the k-th free cell holds stream bit k, masked. */
  function Placed(modules: Grid, fn: Grid, codewords: seq<bv8>, mask: nat, w: seq<Cell>): (g: Grid)
    requires Valid(modules, fn, |fn|) && OnGrid(w, |fn|) && mask < 8
    ensures Square(g, |fn|)
    decreases |w|
  {
    if w == [] then modules
    else
      var init, x := w[..|w| - 1], w[|w| - 1];
      var g := Placed(modules, fn, codewords, mask, init);
      if fn[x.row][x.col] then g
      else SetCell(g, x.row, x.col, StreamBit(codewords, FreeCount(fn, init)) != MaskAt(mask, x.row, x.col))
  }

  /** Placement leaves function modules and unvisited cells alone. */
  lemma {:induction false} PlacedElsewhere(modules: Grid, fn: Grid, codewords: seq<bv8>, mask: nat, w: seq<Cell>,
      r: int, c: int)
    requires Valid(modules, fn, |fn|) && OnGrid(w, |fn|) && mask < 8
    requires Inside(|fn|, r, c)
    requires fn[r][c] || Cell(r, c) !in w
    ensures Placed(modules, fn, codewords, mask, w)[r][c] == modules[r][c]
    decreases |w|
  {
    if w != [] {
      PlacedElsewhere(modules, fn, codewords, mask, w[..|w| - 1], r, c);
    }
  }

  /** On a walk without repeats, the i-th cell keeps the bit it was given. */
  lemma {:induction false} PlacedAt(modules: Grid, fn: Grid, codewords: seq<bv8>, mask: nat, w: seq<Cell>, i: nat)
    requires Valid(modules, fn, |fn|) && OnGrid(w, |fn|) && mask < 8
    requires NoRepeats(w) && i < |w| && !fn[w[i].row][w[i].col]
    ensures Placed(modules, fn, codewords, mask, w)[w[i].row][w[i].col]
         == (StreamBit(codewords, FreeCount(fn, w[..i])) != MaskAt(mask, w[i].row, w[i].col))
    decreases |w|
  {
    hide StreamBit, MaskAt;
    var m := |w| - 1;
    if i < m {
      PlacedAt(modules, fn, codewords, mask, w[..m], i);
      assert w[..m][..i] == w[..i];
      assert w[i] != w[m];
    }
  }

  // ------------------------------------------------------------------- reading

  /** The unmasked bits of the free cells, in walk order. */
  function ReadBits(modules: Grid, fn: Grid, mask: nat, w: seq<Cell>): (bits: seq<bool>)
    requires Valid(modules, fn, |fn|) && OnGrid(w, |fn|) && mask < 8
    ensures |bits| == FreeCount(fn, w)
    decreases |w|
  {
    if w == [] then []
    else
      var x := w[|w| - 1];
      ReadBits(modules, fn, mask, w[..|w| - 1])
      + (if fn[x.row][x.col] then [] else [modules[x.row][x.col] != MaskAt(mask, x.row, x.col)])
  }

  /** Reading sees only the cells that are not function modules. */
  lemma {:induction false} ReadBitsSame(a: Grid, b: Grid, fn: Grid, mask: nat, w: seq<Cell>)
    requires Valid(a, fn, |fn|) && Valid(b, fn, |fn|) && OnGrid(w, |fn|) && mask < 8
    requires forall r, c :: Inside(|fn|, r, c) && !fn[r][c] ==> a[r][c] == b[r][c]
    ensures ReadBits(a, fn, mask, w) == ReadBits(b, fn, mask, w)
    decreases |w|
  {
    hide MaskAt;
    if w != [] {
      ReadBitsSame(a, b, fn, mask, w[..|w| - 1]);
    }
  }

  lemma {:induction false} ReadPrefix(modules: Grid, fn: Grid, codewords: seq<bv8>, mask: nat, w: seq<Cell>, m: nat)
    requires Valid(modules, fn, |fn|) && OnGrid(w, |fn|) && mask < 8
    requires NoRepeats(w) && m <= |w|
    ensures var bits := ReadBits(Placed(modules, fn, codewords, mask, w), fn, mask, w[..m]);
            forall k :: 0 <= k < |bits| ==> bits[k] == StreamBit(codewords, k)
    decreases m
  {
    hide StreamBit, MaskAt, Placed;
    if m > 0 {
      ReadPrefix(modules, fn, codewords, mask, w, m - 1);
      assert w[..m][..m - 1] == w[..m - 1];
      var x := w[m - 1];
      if !fn[x.row][x.col] {
        PlacedAt(modules, fn, codewords, mask, w, m - 1);
      }
    }
  }

  /** Reading along the walk undoes placing along it: bit k read is stream bit k. */
  lemma ReadPlaced(modules: Grid, fn: Grid, codewords: seq<bv8>, mask: nat, w: seq<Cell>)
    requires Valid(modules, fn, |fn|) && OnGrid(w, |fn|) && mask < 8 && NoRepeats(w)
    ensures var bits := ReadBits(Placed(modules, fn, codewords, mask, w), fn, mask, w);
            forall k :: 0 <= k < |bits| ==> bits[k] == StreamBit(codewords, k)
  {
    assert w[..|w|] == w;
    ReadPrefix(modules, fn, codewords, mask, w, |w|);
  }
}
