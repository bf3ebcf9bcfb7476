/** Square grids of modules as nested sequences, row by row. */
module Grids {
  type Grid = seq<seq<bool>>

  predicate Square(g: Grid, n: nat) {
    |g| == n && forall r :: 0 <= r < n ==> |g[r]| == n
  }

  predicate Inside(n: nat, r: int, c: int) {
    0 <= r < n && 0 <= c < n
  }

  function Blank(n: nat): (g: Grid)
    ensures Square(g, n)
    ensures forall r, c :: Inside(n, r, c) ==> !g[r][c]
  {
    seq(n, r => seq(n, c => false))
  }

  function SetCell(g: Grid, r: int, c: int, v: bool): (s: Grid)
    requires Square(g, |g|) && Inside(|g|, r, c)
    ensures Square(s, |g|)
    ensures forall i, j :: Inside(|g|, i, j) ==> s[i][j] == if i == r && j == c then v else g[i][j]
  {
    g[r := g[r][c := v]]
  }

  lemma SetCellSame(g: Grid, r: int, c: int)
    requires Square(g, |g|) && Inside(|g|, r, c)
    ensures SetCell(g, r, c, g[r][c]) == g
  {
    assert g[r][c := g[r][c]] == g[r];
  }
}
