/**
  Every symbol has room for its codewords and no more: the function modules are tiled by
  rectangles whose sizes leave eight free modules per codeword on the walk, and less than eight
  over.
 */
module Capacity {
  import opened FiniteSets
  import opened Grids
  import opened Placement
  import opened QrMatrix
  import opened QrTables
  import opened QrBase
  import opened SymbolGeometry
  import opened CodewordStream

  // ------------------------------------------------------------------- counting

  function Rect(top: int, left: int, height: nat, width: nat): set<Cell> {
    set r, c | top <= r < top + height && left <= c < left + width :: Cell(r, c)
  }

  function Strip(row: int, left: int, width: nat): set<Cell> {
    set c | left <= c < left + width :: Cell(row, c)
  }

  lemma {:induction false} StripSize(row: int, left: int, width: nat)
    ensures |Strip(row, left, width)| == width
  {
    if width > 0 {
      StripSize(row, left, width - 1);
      var rest, last := Strip(row, left, width - 1), Cell(row, left + width - 1);
      assert last !in rest;
      assert Strip(row, left, width) == rest + {last};
    }
  }

  lemma RectGrows(top: int, left: int, height: nat, width: nat)
    requires height > 0
    ensures var rest, strip := Rect(top, left, height - 1, width), Strip(top + height - 1, left, width);
      && Rect(top, left, height, width) == rest + strip
      && forall x :: x in rest ==> x !in strip
  {
  }

  lemma {:induction false} RectSize(top: int, left: int, height: nat, width: nat)
    ensures |Rect(top, left, height, width)| == height * width
  {
    if height == 0 {
      assert Rect(top, left, 0, width) == {};
    } else {
      RectGrows(top, left, height, width);
      RectSize(top, left, height - 1, width);
      StripSize(top + height - 1, left, width);
      hide Rect, Strip;
      DisjointSize(Rect(top, left, height - 1, width), Strip(top + height - 1, left, width));
      assert height * width == (height - 1) * width + width;
    }
  }

  /** A walk without repeats offers its length less the function modules it meets. */
  lemma {:induction false} FreeCountExactly(fn: Grid, w: seq<Cell>, met: set<Cell>)
    requires Square(fn, |fn|) && OnGrid(w, |fn|) && NoRepeats(w)
    requires forall x :: x in met <==> x in w && fn[x.row][x.col]
    ensures FreeCount(fn, w) + |met| == |w|
    decreases |w|
  {
    if w == [] {
      assert met == {};
    } else {
      var init, x := w[..|w| - 1], w[|w| - 1];
      assert x !in init;
      InInit(w);
      if fn[x.row][x.col] {
        assert x in met;
        FreeCountExactly(fn, init, met - {x});
      } else {
        FreeCountExactly(fn, init, met);
      }
    }
  }

  lemma InInit(w: seq<Cell>)
    requires w != []
    ensures forall x :: x in w <==> x in w[..|w| - 1] || x == w[|w| - 1]
  {
    assert w == w[..|w| - 1] + [w[|w| - 1]];
  }

  lemma {:induction false} WalkPairsLength(n: nat, p: nat)
    ensures |WalkPairs(n, p)| == 2 * n * p
  {
    if p > 0 {
      WalkPairsLength(n, p - 1);
      assert 2 * n * p == 2 * n * (p - 1) + 2 * n;
    }
  }

  lemma WalkLength(n: nat)
    requires WalkSize(n)
    ensures |Walk(n)| == n * (n - 1)
  {
    WalkPairsLength(n, (n - 1) / 2);
    assert 2 * ((n - 1) / 2) == n - 1;
    assert 2 * n * ((n - 1) / 2) == n * (2 * ((n - 1) / 2));
  }

  // -------------------------------------------------------------- the cover

  /** Alignment patterns centred on row 6, without the timing row. */
  function RowPieces(cols: seq<int>): set<Cell> {
    if cols == [] then {}
    else
      var b := cols[|cols| - 1];
      RowPieces(cols[..|cols| - 1]) + (Rect(4, b - 2, 2, 5) + Rect(7, b - 2, 2, 5))
  }

  /** Alignment patterns centred on column 6, without the timing column. */
  function ColPieces(rows: seq<int>): set<Cell> {
    if rows == [] then {}
    else
      var a := rows[|rows| - 1];
      ColPieces(rows[..|rows| - 1]) + (Rect(a - 2, 4, 5, 2) + Rect(a - 2, 7, 5, 2))
  }

  function RowOfPatterns(a: int, cols: seq<int>): set<Cell> {
    if cols == [] then {}
    else RowOfPatterns(a, cols[..|cols| - 1]) + Rect(a - 2, cols[|cols| - 1] - 2, 5, 5)
  }

  /** All patterns with a centre in rows times cols. */
  function Patterns(rows: seq<int>, cols: seq<int>): set<Cell> {
    if rows == [] then {}
    else Patterns(rows[..|rows| - 1], cols) + RowOfPatterns(rows[|rows| - 1], cols)
  }

  /** Five or more apart, in ascending order. */
  predicate Apart(xs: seq<int>) {
    forall i, j :: 0 <= i < j < |xs| ==> xs[j] - xs[i] >= 5
  }

  lemma ApartInit(xs: seq<int>)
    requires Apart(xs) && xs != []
    ensures var init, last := xs[..|xs| - 1], xs[|xs| - 1];
      && Apart(init)
      && (forall x :: x in init ==> last - x >= 5)
      && (forall x :: x in xs <==> x in init || x == last)
  {
    assert xs == xs[..|xs| - 1] + [xs[|xs| - 1]];
  }

  ghost predicate NearRow(a: int, cols: seq<int>, x: Cell) {
    exists b :: b in cols && Near(Cell(a, b), x.row, x.col)
  }

  ghost predicate NearColumn(rows: seq<int>, b: int, x: Cell) {
    exists a :: a in rows && Near(Cell(a, b), x.row, x.col)
  }

  ghost predicate NearGrid(rows: seq<int>, cols: seq<int>, x: Cell) {
    exists a :: a in rows && NearRow(a, cols, x)
  }

  lemma NearRowInit(a: int, cols: seq<int>, x: Cell)
    requires cols != []
    ensures NearRow(a, cols, x) <==>
      NearRow(a, cols[..|cols| - 1], x) || Near(Cell(a, cols[|cols| - 1]), x.row, x.col)
  {
    hide Near;
    assert cols == cols[..|cols| - 1] + [cols[|cols| - 1]];
  }

  lemma NearColumnInit(rows: seq<int>, b: int, x: Cell)
    requires rows != []
    ensures NearColumn(rows, b, x) <==>
      NearColumn(rows[..|rows| - 1], b, x) || Near(Cell(rows[|rows| - 1], b), x.row, x.col)
  {
    hide Near;
    assert rows == rows[..|rows| - 1] + [rows[|rows| - 1]];
  }

  lemma NearGridInit(rows: seq<int>, cols: seq<int>, x: Cell)
    requires rows != []
    ensures NearGrid(rows, cols, x) <==>
      NearGrid(rows[..|rows| - 1], cols, x) || NearRow(rows[|rows| - 1], cols, x)
  {
    hide NearRow;
    assert rows == rows[..|rows| - 1] + [rows[|rows| - 1]];
  }

  lemma {:induction false} RowPiecesMember(cols: seq<int>, x: Cell)
    ensures x in RowPieces(cols) <==> NearRow(6, cols, x) && x.row != 6
  {
    if cols != [] {
      RowPiecesMember(cols[..|cols| - 1], x);
      NearRowInit(6, cols, x);
      hide NearRow;
    }
  }

  lemma {:induction false} ColPiecesMember(rows: seq<int>, x: Cell)
    ensures x in ColPieces(rows) <==> NearColumn(rows, 6, x) && x.col != 6
  {
    if rows != [] {
      ColPiecesMember(rows[..|rows| - 1], x);
      NearColumnInit(rows, 6, x);
      hide NearColumn;
    }
  }

  lemma {:induction false} RowOfPatternsMember(a: int, cols: seq<int>, x: Cell)
    ensures x in RowOfPatterns(a, cols) <==> NearRow(a, cols, x)
  {
    if cols != [] {
      RowOfPatternsMember(a, cols[..|cols| - 1], x);
      NearRowInit(a, cols, x);
      hide NearRow;
    }
  }

  lemma {:induction false} PatternsMember(rows: seq<int>, cols: seq<int>, x: Cell)
    ensures x in Patterns(rows, cols) <==> NearGrid(rows, cols, x)
  {
    if rows != [] {
      PatternsMember(rows[..|rows| - 1], cols, x);
      RowOfPatternsMember(rows[|rows| - 1], cols, x);
      NearGridInit(rows, cols, x);
      hide NearGrid, NearRow, RowOfPatterns;
    }
  }

  /** The two rectangles of a pattern centred on row 6. */
  function RowPiece(b: int): set<Cell> { Rect(4, b - 2, 2, 5) + Rect(7, b - 2, 2, 5) }

  function ColPiece(a: int): set<Cell> { Rect(a - 2, 4, 5, 2) + Rect(a - 2, 7, 5, 2) }

  lemma PieceSize(a: int)
    ensures |RowPiece(a)| == 20 && |ColPiece(a)| == 20
  {
    RectSize(4, a - 2, 2, 5);
    RectSize(7, a - 2, 2, 5);
    DisjointSize(Rect(4, a - 2, 2, 5), Rect(7, a - 2, 2, 5));
    RectSize(a - 2, 4, 5, 2);
    RectSize(a - 2, 7, 5, 2);
    DisjointSize(Rect(a - 2, 4, 5, 2), Rect(a - 2, 7, 5, 2));
  }

  lemma PieceIs(a: int, x: Cell)
    ensures x in RowPiece(a) ==> Near(Cell(6, a), x.row, x.col)
    ensures x in ColPiece(a) ==> Near(Cell(a, 6), x.row, x.col)
  {
  }

  lemma {:induction false} RowPiecesSize(cols: seq<int>)
    requires Apart(cols)
    ensures |RowPieces(cols)| == 20 * |cols|
  {
    if cols != [] {
      var init, b := cols[..|cols| - 1], cols[|cols| - 1];
      assert RowPieces(cols) == RowPieces(init) + RowPiece(b);
      hide RowPieces, RowPiece, Rect;
      ApartInit(cols);
      RowPiecesSize(init);
      PieceSize(b);
      forall x | x in RowPieces(init)
        ensures x !in RowPiece(b)
      {
        RowPiecesMember(init, x);
        PieceIs(b, x);
      }
      DisjointSize(RowPieces(init), RowPiece(b));
    }
  }

  lemma {:induction false} ColPiecesSize(rows: seq<int>)
    requires Apart(rows)
    ensures |ColPieces(rows)| == 20 * |rows|
  {
    if rows != [] {
      var init, a := rows[..|rows| - 1], rows[|rows| - 1];
      assert ColPieces(rows) == ColPieces(init) + ColPiece(a);
      hide ColPieces, ColPiece, Rect;
      ApartInit(rows);
      ColPiecesSize(init);
      PieceSize(a);
      forall x | x in ColPieces(init)
        ensures x !in ColPiece(a)
      {
        ColPiecesMember(init, x);
        PieceIs(a, x);
      }
      DisjointSize(ColPieces(init), ColPiece(a));
    }
  }

  lemma PatternIs(a: int, b: int, x: Cell)
    ensures x in Rect(a - 2, b - 2, 5, 5) <==> Near(Cell(a, b), x.row, x.col)
  {
  }

  lemma {:induction false} RowOfPatternsSize(a: int, cols: seq<int>)
    requires Apart(cols)
    ensures |RowOfPatterns(a, cols)| == 25 * |cols|
  {
    if cols != [] {
      var init, b := cols[..|cols| - 1], cols[|cols| - 1];
      assert RowOfPatterns(a, cols) == RowOfPatterns(a, init) + Rect(a - 2, b - 2, 5, 5);
      hide RowOfPatterns, Rect;
      ApartInit(cols);
      RowOfPatternsSize(a, init);
      RectSize(a - 2, b - 2, 5, 5);
      forall x | x in RowOfPatterns(a, init)
        ensures x !in Rect(a - 2, b - 2, 5, 5)
      {
        RowOfPatternsMember(a, init, x);
        PatternIs(a, b, x);
      }
      DisjointSize(RowOfPatterns(a, init), Rect(a - 2, b - 2, 5, 5));
    }
  }

  lemma {:induction false} PatternsSize(rows: seq<int>, cols: seq<int>)
    requires Apart(rows) && Apart(cols)
    ensures |Patterns(rows, cols)| == 25 * (|rows| * |cols|)
  {
    if rows != [] {
      var m := |rows| - 1;
      var init, a := rows[..m], rows[m];
      ApartInit(rows);
      PatternsSize(init, cols);
      RowOfPatternsSize(a, cols);
      forall x | x in Patterns(init, cols)
        ensures x !in RowOfPatterns(a, cols)
      {
        PatternsMember(init, cols, x);
        RowOfPatternsMember(a, cols, x);
        hide RowOfPatterns, Patterns;
      }
      hide RowOfPatterns;
      DisjointSize(Patterns(init, cols), RowOfPatterns(a, cols));
      MulStep(m, |cols|);
    }
  }

  lemma MulStep(m: nat, k: nat)
    ensures (m + 1) * k == m * k + k
  {}

  /** The finder corners off column 6: 56 + 56 + 64 cells. */
  function FinderCover(n: nat): set<Cell> {
    Rect(0, 0, 8, 6) + Rect(0, 7, 8, 1) + Rect(n - 8, 0, 8, 6) + Rect(n - 8, 7, 8, 1) + Rect(0, n - 8, 8, 8)
  }

  /** The format cells by the first finder, off column 6 and off the timing row: 15 cells. */
  function CornerCover(): set<Cell> {
    Rect(8, 0, 1, 6) + Rect(8, 7, 1, 2) + Rect(0, 8, 6, 1) + Rect(7, 8, 1, 1)
  }

  /** All format cells off column 6 and off the timing row: 31 cells. */
  function FormatCover(n: nat): set<Cell> {
    CornerCover() + Rect(n - 8, 8, 8, 1) + Rect(8, n - 8, 1, 8)
  }

  function VersionCover(n: nat): set<Cell> {
    Rect(0, n - 11, 6, 3) + Rect(n - 11, 0, 3, 6)
  }

  lemma FinderCoverSize(n: nat)
    requires n >= 21
    ensures |FinderCover(n)| == 176
  {
    RectSize(0, 0, 8, 6);
    RectSize(0, 7, 8, 1);
    RectSize(n - 8, 0, 8, 6);
    RectSize(n - 8, 7, 8, 1);
    RectSize(0, n - 8, 8, 8);
    var a, b, c, d, e := Rect(0, 0, 8, 6), Rect(0, 7, 8, 1), Rect(n - 8, 0, 8, 6), Rect(n - 8, 7, 8, 1), Rect(0,
        n - 8, 8, 8);
    DisjointSize(a, b);
    DisjointSize(a + b, c);
    DisjointSize(a + b + c, d);
    DisjointSize(a + b + c + d, e);
  }

  lemma CornerCoverSize()
    ensures |CornerCover()| == 15
  {
    RectSize(8, 0, 1, 6);
    RectSize(8, 7, 1, 2);
    RectSize(0, 8, 6, 1);
    RectSize(7, 8, 1, 1);
    var a, b, c, d := Rect(8, 0, 1, 6), Rect(8, 7, 1, 2), Rect(0, 8, 6, 1), Rect(7, 8, 1, 1);
    DisjointSize(a, b);
    DisjointSize(a + b, c);
    DisjointSize(a + b + c, d);
  }

  lemma CornerCoverIs(x: Cell)
    requires x in CornerCover()
    ensures 0 <= x.row <= 8 && 0 <= x.col <= 8
  {
  }

  lemma FormatCoverSize(n: nat)
    requires n >= 21
    ensures |FormatCover(n)| == 31
  {
    var corner, down, across := CornerCover(), Rect(n - 8, 8, 8, 1), Rect(8, n - 8, 1, 8);
    CornerCoverSize();
    RectSize(n - 8, 8, 8, 1);
    RectSize(8, n - 8, 1, 8);
    hide CornerCover;
    forall x | x in corner
      ensures x !in down && x !in across
    {
      CornerCoverIs(x);
    }
    DisjointSize(corner, down);
    DisjointSize(corner + down, across);
  }

  lemma VersionCoverSize(n: nat)
    requires n >= 21
    ensures |VersionCover(n)| == 36
  {
    RectSize(0, n - 11, 6, 3);
    RectSize(n - 11, 0, 3, 6);
    DisjointSize(Rect(0, n - 11, 6, 3), Rect(n - 11, 0, 3, 6));
  }

  /** Alignment positions run from 6 to n - 7; version 1 has none. */
  predicate FullAlignment(n: int, pos: seq<int>) {
    AlignmentShape(n, pos) && (pos == [] || (|pos| >= 2 && pos[0] == 6 && pos[|pos| - 1] == n - 7))
  }

  function AlignmentCover(n: nat, pos: seq<int>): set<Cell> {
    if |pos| < 2 then {}
    else RowPieces(pos[1..|pos| - 1]) + ColPieces(pos[1..|pos| - 1]) + Patterns(pos[1..], pos[1..])
  }

  /** The number of alignment modules off column 6 and off row 6. */
  function AlignmentCount(k: nat): nat {
    if k < 2 then 0 else 40 * (k - 2) + 25 * ((k - 1) * (k - 1))
  }

  lemma MidApart(n: nat, pos: seq<int>)
    requires FullAlignment(n, pos) && |pos| >= 2
    ensures var rest, mid := pos[1..], pos[1..|pos| - 1];
      && Apart(mid) && Apart(rest)
      && (forall x :: x in rest ==> x >= 11)
      && (forall x :: x in mid ==> 11 <= x <= n - 12)
      && (forall x :: x in pos <==> x == 6 || x in rest)
      && (forall x :: x in rest <==> x == n - 7 || x in mid)
  {
    var rest, mid := pos[1..], pos[1..|pos| - 1];
    assert pos == [6] + rest && rest == mid + [n - 7];
    assert forall i :: 0 <= i < |rest| ==> rest[i] == pos[i + 1];
    assert forall i :: 0 <= i < |mid| ==> mid[i] == pos[i + 1];
  }

  lemma AlignmentCoverSize(n: nat, pos: seq<int>)
    requires FullAlignment(n, pos)
    ensures |AlignmentCover(n, pos)| == AlignmentCount(|pos|)
  {
    if |pos| >= 2 {
      var mid, rest := pos[1..|pos| - 1], pos[1..];
      MidApart(n, pos);
      RowPiecesSize(mid);
      ColPiecesSize(mid);
      PatternsSize(rest, rest);
      forall x: Cell
        ensures !(x in RowPieces(mid) && x in ColPieces(mid))
        ensures !(x in RowPieces(mid) + ColPieces(mid) && x in Patterns(rest, rest))
      {
        RowPiecesMember(mid, x);
        ColPiecesMember(mid, x);
        PatternsMember(rest, rest, x);
        hide RowPieces, ColPieces, Patterns;
      }
      hide RowPieces, ColPieces, Patterns;
      DisjointSize(RowPieces(mid), ColPieces(mid));
      DisjointSize(RowPieces(mid) + ColPieces(mid), Patterns(rest, rest));
    }
  }

  /** Off column 6 and row 6 the alignment cover is what lies near a centre off the finders. */
  lemma AlignmentCoverIs(n: nat, pos: seq<int>, x: Cell)
    requires n >= 21 && FullAlignment(n, pos)
    ensures x in AlignmentCover(n, pos) <==>
      NearSome(Centers(n, pos, pos), x.row, x.col) && x.row != 6 && x.col != 6
  {
    if |pos| >= 2 {
      var mid, rest := pos[1..|pos| - 1], pos[1..];
      MidApart(n, pos);
      RowPiecesMember(mid, x);
      ColPiecesMember(mid, x);
      PatternsMember(rest, rest, x);
      hide RowPieces, ColPieces, Patterns;
      if x in AlignmentCover(n, pos) { CoverIsNear(n, pos, x); }
      if NearSome(Centers(n, pos, pos), x.row, x.col) && x.row != 6 && x.col != 6 { NearIsCover(n, pos, x); }
    }
  }

  lemma CentreHere(n: nat, pos: seq<int>, a: int, b: int, x: Cell)
    requires n >= 21 && FullAlignment(n, pos) && |pos| >= 2 && Near(Cell(a, b), x.row, x.col)
    requires (a == 6 && b in pos[1..|pos| - 1]) || (a in pos[1..|pos| - 1] && b == 6)
      || (a in pos[1..] && b in pos[1..])
    ensures NearSome(Centers(n, pos, pos), x.row, x.col)
    ensures a >= 11 ==> x.row != 6
    ensures b >= 11 ==> x.col != 6
    ensures (a == 6 || a >= 11) && (b == 6 || b >= 11) && (a != 6 || b != 6)
  {
    MidApart(n, pos);
    assert a in pos && b in pos && !InFinder(n, a, b);
    assert Cell(a, b) in Centers(n, pos, pos);
  }

  lemma CoverIsNear(n: nat, pos: seq<int>, x: Cell)
    requires n >= 21 && FullAlignment(n, pos) && |pos| >= 2
    requires (NearRow(6, pos[1..|pos| - 1], x) && x.row != 6) || (NearColumn(pos[1..|pos| - 1], 6, x) && x.col != 6)
      || NearGrid(pos[1..], pos[1..], x)
    ensures NearSome(Centers(n, pos, pos), x.row, x.col) && x.row != 6 && x.col != 6
  {
    hide FullAlignment, Near, Centers, NearSome;
    var mid, rest := pos[1..|pos| - 1], pos[1..];
    if NearRow(6, mid, x) && x.row != 6 {
      var b :| b in mid && Near(Cell(6, b), x.row, x.col);
      CentreHere(n, pos, 6, b, x);
    } else if NearColumn(mid, 6, x) && x.col != 6 {
      var a :| a in mid && Near(Cell(a, 6), x.row, x.col);
      CentreHere(n, pos, a, 6, x);
    } else {
      var a :| a in rest && NearRow(a, rest, x);
      var b :| b in rest && Near(Cell(a, b), x.row, x.col);
      CentreHere(n, pos, a, b, x);
      MidApart(n, pos);
    }
  }

  lemma NearIsCover(n: nat, pos: seq<int>, x: Cell)
    requires n >= 21 && FullAlignment(n, pos) && |pos| >= 2
    requires NearSome(Centers(n, pos, pos), x.row, x.col) && x.row != 6 && x.col != 6
    ensures NearRow(6, pos[1..|pos| - 1], x) || NearColumn(pos[1..|pos| - 1], 6, x) || NearGrid(pos[1..], pos[1..], x)
  {
    var mid, rest := pos[1..|pos| - 1], pos[1..];
    MidApart(n, pos);
    var d :| d in Centers(n, pos, pos) && Near(d, x.row, x.col);
    assert d.row in pos && d.col in pos && !InFinder(n, d.row, d.col);
    if d.row == 6 {
      assert d.col in mid;
      assert NearRow(6, mid, x);
    } else if d.col == 6 {
      assert d.row in mid;
      assert NearColumn(mid, 6, x);
    } else {
      assert NearRow(d.row, rest, x);
    }
  }

  function Cover(version: int): set<Cell>
    requires IsVersion(version)
  {
    var n := SizeOf(version);
    FinderCover(n) + Strip(6, 8, n - 16) + AlignmentCover(n, AlignPos(version)) + FormatCover(n)
    + if version >= 7 then VersionCover(n) else {}
  }

  /** The number of alignment positions grows by one every seven versions. */
  function AlignCount(version: int): nat
    requires IsVersion(version)
  {
    if version == 1 then 0 else version / 7 + 2
  }

  lemma AlignPosCount(v: int)
    requires IsVersion(v)
    ensures |AlignPos(v)| == AlignCount(v)
  {}

  /** The number of function modules off column 6. */
  function FunctionCount(version: int): nat
    requires IsVersion(version)
  {
    176 + (SizeOf(version) - 16) + AlignmentCount(AlignCount(version)) + 31 + (if version >= 7 then 36 else 0)
  }

  /** The other areas, by their cells. */
  lemma FixedAreasAre(n: nat, x: Cell)
    requires n >= 21
    ensures x in FinderCover(n) <==> Inside(n, x.row, x.col) && x.col != 6 && InFinder(n, x.row, x.col)
    ensures x in Strip(6, 8, n - 16) <==> x.row == 6 && 8 <= x.col < n - 8
    ensures x in VersionCover(n) <==> VersionCell(n, x.row, x.col)
  {
  }

  lemma FormatAreaIs(n: nat, x: Cell)
    requires n >= 21
    ensures x in FormatCover(n) <==>
      && Inside(n, x.row, x.col) && x.col != 6 && x.row != 6
      && ((x.row == 8 && x.col < 9) || (x.col == 8 && x.row < 9) || ReservedEdge(n, x.row, x.col))
  {
  }

  /** The alignment patterns stand clear of the other areas. */
  lemma AlignmentClear(version: int, x: Cell)
    requires IsVersion(version) && x in AlignmentCover(SizeOf(version), AlignPos(version))
    ensures x !in FinderCover(SizeOf(version)) && x !in Strip(6, 8, SizeOf(version) - 16)
    ensures x !in FormatCover(SizeOf(version)) && x !in VersionCover(SizeOf(version))
    ensures Inside(SizeOf(version), x.row, x.col)
  {
    hide AlignPos, AlignmentCover, Centers, Near, FinderCover, Strip, FormatCover, VersionCover, InFinder, VersionCell,
        ReservedEdge, FullAlignment;
    var n, pos := SizeOf(version), AlignPos(version);
    FullAlignPos(version);
    AlignmentCoverIs(n, pos, x);
    var d :| d in Centers(n, pos, pos) && Near(d, x.row, x.col);
    AlignmentAlone(version, d, x.row, x.col);
    NearCentre(version, d, x.row, x.col);
    FixedAreasAre(n, x);
    FormatAreaIs(n, x);
    if InFinder(n, x.row, x.col) { FinderAlone(version, d, x.row, x.col); }
  }

  lemma NearCentre(version: int, d: Cell, r: int, c: int)
    requires IsVersion(version) && d in Centers(SizeOf(version), AlignPos(version), AlignPos(version)) && Near(d, r, c)
    ensures Inside(SizeOf(version), r, c) && !(r == 8 && c < 9) && !(c == 8 && r < 9)
  {
    var n, pos := SizeOf(version), AlignPos(version);
    assert d.row in pos && d.col in pos && !InFinder(n, d.row, d.col);
    hide AlignPos;
    Spread(version, d.row);
    Spread(version, d.col);
  }

  lemma FixedAreasClear(n: nat, x: Cell)
    requires n >= 21
    ensures x in FinderCover(n) ==> x !in Strip(6, 8, n - 16) && x !in FormatCover(n) && x !in VersionCover(n)
    ensures x in Strip(6, 8, n - 16) ==> x !in FormatCover(n) && (n >= 45 ==> x !in VersionCover(n))
    ensures x in FormatCover(n) ==> x !in VersionCover(n)
  {
  }

  lemma CoverSize(version: int)
    requires IsVersion(version)
    ensures |Cover(version)| == FunctionCount(version)
  {
    hide Rect, Strip, AlignPos, AlignCount, FinderCover, FormatCover, VersionCover, AlignmentCover, AlignmentCount;
    var n := SizeOf(version);
    var a, b, c, d := FinderCover(n), Strip(6, 8, n - 16), AlignmentCover(n, AlignPos(version)), FormatCover(n);
    var e := if version >= 7 then VersionCover(n) else {};
    forall x: Cell
      ensures x in c ==> x !in a && x !in b && x !in d && x !in e
      ensures x in a ==> x !in b && x !in d && x !in e
      ensures x in b ==> x !in d && x !in e
      ensures x in d ==> x !in e
    {
      FixedAreasClear(n, x);
      if x in c { AlignmentClear(version, x); }
    }
    FullAlignPos(version);
    FinderCoverSize(n);
    StripSize(6, 8, n - 16);
    AlignmentCoverSize(n, AlignPos(version));
    AlignPosCount(version);
    FormatCoverSize(n);
    VersionCoverSize(n);
    DisjointSize(a, b);
    DisjointSize(a + b, c);
    DisjointSize(a + b + c, d);
    DisjointSize(a + b + c + d, e);
  }

  /** The cover is exactly the function modules off column 6. */
  lemma CoverIs(version: int, x: Cell)
    requires IsVersion(version)
    ensures x in Cover(version) <==>
      Inside(SizeOf(version), x.row, x.col) && x.col != 6 && IsFunctionCell(version, x.row, x.col)
  {
    hide AlignPos, AlignmentCover, Near, NearSome, Centers, FinderCover, Strip, FormatCover, VersionCover, InFinder,
        VersionCell, FullAlignment;
    var n, pos := SizeOf(version), AlignPos(version);
    FullAlignPos(version);
    AlignmentCoverIs(n, pos, x);
    FixedAreasAre(n, x);
    FormatAreaIs(n, x);
    VersionInside(n, x);
    if x in AlignmentCover(n, pos) { AlignmentClear(version, x); }
    if x.row == 6 && Inside(n, x.row, x.col) { OnStrip(n, x); }
  }

  lemma VersionInside(n: nat, x: Cell)
    requires n >= 21
    ensures VersionCell(n, x.row, x.col) ==> Inside(n, x.row, x.col) && x.col != 6
  {
  }

  /** Row 6 is finders and timing, but for one corner of the reserved column. */
  lemma OnStrip(n: nat, x: Cell)
    requires n >= 21 && x.row == 6 && Inside(n, x.row, x.col)
    ensures InFinder(n, x.row, x.col) || (8 <= x.col < n - 8)
  {
  }

  // ------------------------------------------------------------ the tables agree

  /** The number of modules left for data in the symbols of a version. */
  function RawModules(v: int): int
    requires IsVersion(v)
  {
    var k := v / 7 + 2;
    (16 * v + 128) * v + 64 - (if v >= 2 then (25 * k - 10) * k - 55 else 0) - (if v >= 7 then 36 else 0)
  }

  /** The walk's length less the function modules is the formula of the raw modules. */
  lemma RawModulesAre(v: int)
    requires IsVersion(v)
    ensures SizeOf(v) * (SizeOf(v) - 1) - FunctionCount(v) == RawModules(v)
  {
    var k := v / 7 + 2;
    assert (4 * v + 17) * (4 * v + 16) == 16 * (v * v) + 132 * v + 272;
    assert (16 * v + 128) * v == 16 * (v * v) + 128 * v;
    assert (25 * k - 10) * k == 25 * (k * k) - 10 * k;
    assert (k - 1) * (k - 1) == k * k - 2 * k + 1;
  }

  /** The codewords of the tables leave less than eight raw modules over. */
  predicate RoomIn(v: int)
    requires IsVersion(v)
  {
    var groups := RsBlocks(v);
    && 1 <= |groups| <= 2
    && 0 <= RawModules(v)
       - 8 * (groups[0].count * groups[0].total + if |groups| == 2 then groups[1].count * groups[1].total else 0) < 8
  }

  lemma RoomInAll(v: int)
    requires IsVersion(v)
    ensures RoomIn(v)
  {
    hide RoomIn;
    if v <= 5 {
      RoomIn5(v);
    } else if v <= 10 {
      RoomIn10(v);
    } else if v <= 15 {
      RoomIn15(v);
    } else if v <= 20 {
      RoomIn20(v);
    } else if v <= 25 {
      RoomIn25(v);
    } else if v <= 30 {
      RoomIn30(v);
    } else if v <= 35 {
      RoomIn35(v);
    } else {
      RoomIn40(v);
    }
  }

  lemma RoomIn5(v: int)
    requires 1 <= v <= 5
    ensures RoomIn(v)
  {
  }

  lemma RoomIn10(v: int)
    requires 6 <= v <= 10
    ensures RoomIn(v)
  {
  }

  lemma RoomIn15(v: int)
    requires 11 <= v <= 15
    ensures RoomIn(v)
  {
  }

  lemma RoomIn20(v: int)
    requires 16 <= v <= 20
    ensures RoomIn(v)
  {
  }

  lemma RoomIn25(v: int)
    requires 21 <= v <= 25
    ensures RoomIn(v)
  {
  }

  lemma RoomIn30(v: int)
    requires 26 <= v <= 30
    ensures RoomIn(v)
  {
  }

  lemma RoomIn35(v: int)
    requires 31 <= v <= 35
    ensures RoomIn(v)
  {
  }

  lemma RoomIn40(v: int)
    requires 36 <= v <= 40
    ensures RoomIn(v)
  {
  }

  lemma FullAlignPos(v: int)
    requires IsVersion(v)
    ensures FullAlignment(SizeOf(v), AlignPos(v))
  {
    hide AlignPos;
    AlignPosShape(v);
    AlignPosRow(v);
  }

  /**
    In every version the walk has exactly the raw modules of the version free: eight for every
    codeword, and less than eight over.
   */
  lemma RoomForCodewords(version: int, fn: Grid)
    requires IsVersion(version) && Square(fn, SizeOf(version))
    requires forall r, c :: Inside(SizeOf(version), r, c) ==> fn[r][c] == IsFunctionCell(version, r, c)
    ensures OnGrid(Walk(SizeOf(version)), SizeOf(version))
    ensures FreeCount(fn, Walk(SizeOf(version))) == RawModules(version)
    ensures 8 * TotalCodewords(RsBlocks(version)) <= RawModules(version) < 8 * TotalCodewords(RsBlocks(version)) + 8
  {
    hide AlignPos, RsBlocks, FunctionCount, IsFunctionCell, Cover, FullAlignment, Walk, FreeCount, RawModules;
    var n, groups := SizeOf(version), RsBlocks(version);
    var w := Walk(n);
    WalkOnGrid(n);
    WalkVisitsOnce(n);
    forall x: Cell
      ensures x in Cover(version) <==> x in w && fn[x.row][x.col]
    {
      CoverIs(version, x);
    }
    FreeCountExactly(fn, w, Cover(version));
    WalkLength(n);
    CoverSize(version);
    RawModulesAre(version);
    RoomInAll(version);
    assert TotalCodewords(groups[..1]) == groups[0].count * groups[0].total by { assert groups[..1][..0] == []; }
  }
}
