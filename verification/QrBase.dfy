/**
  The skeleton of a symbol: finder, alignment and timing patterns and the reserved areas,
  drawn in the encoder's order.
 */
module QrBase {
  import opened Grids
  import opened Placement
  import opened QrMatrix
  import opened QrTables

  function SizeOf(version: int): nat
    requires IsVersion(version)
  {
    version * 4 + 17
  }

  // ----------------------------------------------------------------- patterns

  /** The three 8 by 8 corners: finder patterns with their separators. */
  predicate InFinder(n: int, r: int, c: int) {
    (r < 8 && c < 8) || (r >= n - 8 && c < 8) || (r < 8 && c >= n - 8)
  }

  /** A finder pattern around its own top left module. */
  predicate FinderLocal(r: int, c: int) {
    || (0 <= r <= 6 && (c == 0 || c == 6))
    || (0 <= c <= 6 && (r == 0 || r == 6))
    || (2 <= r <= 4 && 2 <= c <= 4)
  }

  predicate FinderDark(n: int, r: int, c: int) {
    FinderLocal(if r < 8 then r else r - (n - 7), if c < 8 then c else c - (n - 7))
  }

  predicate Near(d: Cell, r: int, c: int) {
    -2 <= r - d.row <= 2 && -2 <= c - d.col <= 2
  }

  /** An alignment pattern around its centre: every ring is dark but the middle one. */
  predicate AlignLocal(r: int, c: int) {
    r == -2 || r == 2 || c == -2 || c == 2 || (r == 0 && c == 0)
  }

  /** The alignment centres that do not land on a finder pattern. */
  function Centers(n: int, rows: seq<int>, cols: seq<int>): set<Cell> {
    set a, b | a in rows && b in cols && !InFinder(n, a, b) :: Cell(a, b)
  }

  ghost predicate NearSome(centers: set<Cell>, r: int, c: int) {
    exists d :: d in centers && Near(d, r, c)
  }

  predicate TimingCell(n: int, r: int, c: int) {
    (c == 6 && 8 <= r < n - 8) || (r == 6 && 8 <= c < n - 8)
  }

  /** The reserved format cells around the top left finder. */
  predicate ReservedCorner(r: int, c: int) {
    (c == 8 && r < 9) || (r == 8 && c < 9)
  }

  /** The reserved format cells along the other two finders, and the dark module. */
  predicate ReservedEdge(n: int, r: int, c: int) {
    (c == 8 && r >= n - 8) || (r == 8 && c >= n - 8)
  }

  /** Positions far enough apart, and from the border, for 5 by 5 patterns around them. */
  predicate AlignmentShape(n: int, pos: seq<int>) {
    && (forall i :: 0 <= i < |pos| ==> 6 <= pos[i] <= n - 7)
    && (forall i, j :: 0 <= i < j < |pos| ==> pos[j] - pos[i] >= 5)
  }

  ghost predicate IsFunctionCell(version: int, r: int, c: int)
    requires IsVersion(version)
  {
    var n := SizeOf(version);
    || InFinder(n, r, c)
    || NearSome(Centers(n, AlignPos(version), AlignPos(version)), r, c)
    || TimingCell(n, r, c)
    || ReservedCorner(r, c)
    || ReservedEdge(n, r, c)
    || (version >= 7 && VersionCell(n, r, c))
  }

  /** The modules of the skeleton, region by region. */
  ghost predicate SkeletonModules(version: int, g: Grid)
    requires IsVersion(version) && Square(g, SizeOf(version))
  {
    var n := SizeOf(version);
    var centers := Centers(n, AlignPos(version), AlignPos(version));
    forall r, c :: Inside(n, r, c) ==>
      if ReservedEdge(n, r, c) || (version >= 7 && VersionCell(n, r, c)) then !g[r][c]
      else if NearSome(centers, r, c) then forall d :: d in centers && Near(d, r, c) ==>
        g[r][c] == AlignLocal(r - d.row, c - d.col)
      else if InFinder(n, r, c) then g[r][c] == FinderDark(n, r, c)
      else if TimingCell(n, r, c) then g[r][c] == ((if c == 6 then r else c) % 2 == 0)
      else !g[r][c]
  }

  ghost predicate SkeletonDark(version: int, r: int, c: int)
    requires IsVersion(version)
  {
    var n := SizeOf(version);
    var centers := Centers(n, AlignPos(version), AlignPos(version));
    if ReservedEdge(n, r, c) || (version >= 7 && VersionCell(n, r, c)) then false
    else if NearSome(centers, r, c) then exists d :: d in centers && Near(d, r, c) && AlignLocal(r - d.row, c - d.col)
    else if InFinder(n, r, c) then FinderDark(n, r, c)
    else TimingCell(n, r, c) && (if c == 6 then r else c) % 2 == 0
  }

  /** The function modules of a version. */
  ghost function FunctionGrid(version: int): (g: Grid)
    requires IsVersion(version)
    ensures Square(g, SizeOf(version))
  {
    var n := SizeOf(version);
    seq(n, r requires 0 <= r < n => seq(n, c requires 0 <= c < n => IsFunctionCell(version, r, c)))
  }

  /** The modules of a version before any data is placed. */
  ghost function Skeleton(version: int): (g: Grid)
    requires IsVersion(version)
    ensures Square(g, SizeOf(version))
  {
    var n := SizeOf(version);
    seq(n, r requires 0 <= r < n => seq(n, c requires 0 <= c < n => SkeletonDark(version, r, c)))
  }

  lemma SkeletonUnique(version: int, g: Grid, fn: Grid)
    requires IsVersion(version)
    requires Square(g, SizeOf(version)) && SkeletonModules(version, g)
    requires Square(fn, SizeOf(version))
    requires forall r, c :: Inside(SizeOf(version), r, c) ==> fn[r][c] == IsFunctionCell(version, r, c)
    ensures g == Skeleton(version) && fn == FunctionGrid(version)
  {
    hide AlignPos, Centers, AlignLocal, FinderDark, IsFunctionCell;
    var n := SizeOf(version);
    forall r, c | Inside(n, r, c)
      ensures g[r][c] == Skeleton(version)[r][c] && fn[r][c] == FunctionGrid(version)[r][c]
    {}
    GridsEqual(g, Skeleton(version));
    GridsEqual(fn, FunctionGrid(version));
  }

  lemma GridsEqual(a: Grid, b: Grid)
    requires |a| == |b| && Square(a, |a|) && Square(b, |a|)
    requires forall r, c :: Inside(|a|, r, c) ==> a[r][c] == b[r][c]
    ensures a == b
  {
    forall r | 0 <= r < |a|
      ensures a[r] == b[r]
    {
      forall c | 0 <= c < |a|
        ensures a[r][c] == b[r][c]
      {
        assert Inside(|a|, r, c);
      }
    }
  }

  // ------------------------------------------------------------------ drawing

  method Set(m: Matrix, r: int, c: int, dark: bool)
    requires m.Valid() && Inside(m.size, r, c)
    modifies m
    ensures m.Valid()
    ensures m.modules == SetCell(old(m.modules), r, c, dark)
    ensures m.isFunction == SetCell(old(m.isFunction), r, c, true)
  {
    m.modules := SetCell(m.modules, r, c, dark);
    m.isFunction := SetCell(m.isFunction, r, c, true);
  }

  /** Set a module unless it is a function module already. */
  method SetFree(m: Matrix, r: int, c: int, dark: bool)
    requires m.Valid() && Inside(m.size, r, c)
    modifies m
    ensures m.Valid()
    ensures m.modules == SetCell(old(m.modules), r, c, if old(m.isFunction[r][c]) then old(m.modules[r][c]) else dark)
    ensures m.isFunction == SetCell(old(m.isFunction), r, c, true)
  {
    if !m.isFunction[r][c] {
      Set(m, r, c, dark);
    } else {
      SetCellSame(m.modules, r, c);
      SetCellSame(m.isFunction, r, c);
    }
  }

  predicate FinderBox(fr: int, fc: int, r: int, c: int) {
    -1 <= r - fr <= 7 && -1 <= c - fc <= 7
  }

  method DrawFinder(m: Matrix, fr: int, fc: int)
    requires m.Valid()
    modifies m
    ensures m.Valid()
    ensures forall r, c :: Inside(m.size, r, c) ==>
      m.isFunction[r][c] == (old(m.isFunction[r][c]) || FinderBox(fr, fc, r, c))
    ensures forall r, c :: Inside(m.size, r, c) ==>
      m.modules[r][c] == if FinderBox(fr, fc, r, c) then FinderLocal(r - fr, c - fc) else old(m.modules[r][c])
  {
    hide FinderLocal;
    for r := -1 to 8
      invariant m.Valid()
      invariant forall i, j :: Inside(m.size, i, j) ==>
        m.isFunction[i][j] == (old(m.isFunction[i][j]) || (FinderBox(fr, fc, i, j) && i < fr + r))
      invariant forall i, j :: Inside(m.size, i, j) ==>
        m.modules[i][j] == if FinderBox(fr, fc, i, j) && i < fr + r then FinderLocal(i - fr,
            j - fc) else old(m.modules[i][j])
    {
      for c := -1 to 8
        invariant m.Valid()
        invariant forall i, j :: Inside(m.size, i, j) ==>
          m.isFunction[i][j] == (old(m.isFunction[i][j]) ||
            (FinderBox(fr, fc, i, j) && (i < fr + r || (i == fr + r && j < fc + c))))
        invariant forall i, j :: Inside(m.size, i, j) ==>
          m.modules[i][j] == if FinderBox(fr, fc, i, j) && (i < fr + r || (i == fr + r && j < fc + c))
                             then FinderLocal(i - fr, j - fc) else old(m.modules[i][j])
      {
        var rr, cc := fr + r, fc + c;
        if rr < 0 || rr >= m.size || cc < 0 || cc >= m.size { continue; }
        Set(m, rr, cc, FinderLocal(r, c));
      }
    }
  }

  method DrawFinders(m: Matrix)
    requires m.Valid() && m.size >= 21
    requires m.modules == Blank(m.size) && m.isFunction == Blank(m.size)
    modifies m
    ensures m.Valid()
    ensures forall r, c :: Inside(m.size, r, c) ==> m.isFunction[r][c] == InFinder(m.size, r, c)
    ensures forall r, c :: Inside(m.size, r, c) ==>
      m.modules[r][c] == (InFinder(m.size, r, c) && FinderDark(m.size, r, c))
  {
    hide FinderLocal;
    DrawFinder(m, 0, 0);
    DrawFinder(m, m.size - 7, 0);
    DrawFinder(m, 0, m.size - 7);
  }

  method DrawAlignment(m: Matrix, row: int, col: int)
    requires m.Valid() && 2 <= row < m.size - 2 && 2 <= col < m.size - 2
    modifies m
    ensures m.Valid()
    ensures forall r, c :: Inside(m.size, r, c) ==>
      m.isFunction[r][c] == (old(m.isFunction[r][c]) || Near(Cell(row, col), r, c))
    ensures forall r, c :: Inside(m.size, r, c) ==>
      m.modules[r][c] == if Near(Cell(row, col), r, c) then AlignLocal(r - row, c - col) else old(m.modules[r][c])
  {
    hide AlignLocal;
    var d := Cell(row, col);
    for r := -2 to 3
      invariant m.Valid()
      invariant forall i, j :: Inside(m.size, i, j) ==>
        m.isFunction[i][j] == (old(m.isFunction[i][j]) || (Near(d, i, j) && i < row + r))
      invariant forall i, j :: Inside(m.size, i, j) ==>
        m.modules[i][j] == if Near(d, i, j) && i < row + r then AlignLocal(i - row, j - col) else old(m.modules[i][j])
    {
      for c := -2 to 3
        invariant m.Valid()
        invariant forall i, j :: Inside(m.size, i, j) ==>
          m.isFunction[i][j] == (old(m.isFunction[i][j]) ||
            (Near(d, i, j) && (i < row + r || (i == row + r && j < col + c))))
        invariant forall i, j :: Inside(m.size, i, j) ==>
          m.modules[i][j] == if Near(d, i, j) && (i < row + r || (i == row + r && j < col + c))
                             then AlignLocal(i - row, j - col) else old(m.modules[i][j])
      {
        Set(m, row + r, col + c, AlignLocal(r, c));
      }
    }
  }

  // ------------------------------------------------------ alignment patterns

  /** Finders and the given alignment patterns, and nothing else, have been drawn. */
  ghost predicate AlignDrawn(n: nat, modules: Grid, fn: Grid, drawn: set<Cell>)
    requires Square(modules, n) && Square(fn, n)
  {
    forall r, c :: Inside(n, r, c) ==>
      && fn[r][c] == (InFinder(n, r, c) || NearSome(drawn, r, c))
      && if NearSome(drawn, r, c)
         then forall d :: d in drawn && Near(d, r, c) ==> modules[r][c] == AlignLocal(r - d.row, c - d.col)
         else modules[r][c] == (InFinder(n, r, c) && FinderDark(n, r, c))
  }

  ghost predicate OnPositions(drawn: set<Cell>, pos: seq<int>) {
    forall d :: d in drawn ==> d.row in pos && d.col in pos
  }

  lemma PositionsApart(n: int, pos: seq<int>, a: int, b: int)
    requires AlignmentShape(n, pos) && a in pos && b in pos && -4 <= a - b <= 4
    ensures a == b
  {}

  /** Patterns around different centres do not meet. */
  lemma CentersApart(n: int, pos: seq<int>, drawn: set<Cell>, d: Cell)
    requires AlignmentShape(n, pos) && OnPositions(drawn, pos)
    requires d.row in pos && d.col in pos && d !in drawn
    ensures forall e, r, c :: e in drawn && Near(e, r, c) ==> !Near(d, r, c)
  {
    forall e, r, c | e in drawn && Near(e, r, c)
      ensures !Near(d, r, c)
    {
      if Near(d, r, c) {
        NearBoth(n, pos, d, e, r, c);
      }
    }
  }

  lemma NearBoth(n: int, pos: seq<int>, d: Cell, e: Cell, r: int, c: int)
    requires AlignmentShape(n, pos)
    requires d.row in pos && d.col in pos && e.row in pos && e.col in pos
    requires Near(d, r, c) && Near(e, r, c)
    ensures d == e
  {
    PositionsApart(n, pos, d.row, e.row);
    PositionsApart(n, pos, d.col, e.col);
  }

  lemma NearSomeAdd(drawn: set<Cell>, d: Cell, r: int, c: int)
    ensures NearSome(drawn + {d}, r, c) == (NearSome(drawn, r, c) || Near(d, r, c))
  {
    if NearSome(drawn, r, c) {
      var e :| e in drawn && Near(e, r, c);
      assert e in drawn + {d};
    }
    if Near(d, r, c) {
      assert d in drawn + {d};
    }
  }

  lemma AlignDrawnStep(n: nat, pos: seq<int>, m0: Grid, f0: Grid, m1: Grid, f1: Grid, drawn: set<Cell>, d: Cell)
    requires AlignmentShape(n, pos) && OnPositions(drawn, pos)
    requires d.row in pos && d.col in pos && d !in drawn
    requires Square(m0, n) && Square(f0, n) && Square(m1, n) && Square(f1, n)
    requires AlignDrawn(n, m0, f0, drawn)
    requires forall r, c :: Inside(n, r, c) ==> f1[r][c] == (f0[r][c] || Near(d, r, c))
    requires forall r, c :: Inside(n, r, c) ==>
      m1[r][c] == if Near(d, r, c) then AlignLocal(r - d.row, c - d.col) else m0[r][c]
    ensures AlignDrawn(n, m1, f1, drawn + {d})
  {
    hide AlignLocal, FinderLocal, Near, NearSome, FinderDark, InFinder;
    CentersApart(n, pos, drawn, d);
    forall r, c | Inside(n, r, c)
      ensures f1[r][c] == (InFinder(n, r, c) || NearSome(drawn + {d}, r, c))
      ensures if NearSome(drawn + {d}, r, c)
              then forall e :: e in drawn + {d} && Near(e, r, c) ==> m1[r][c] == AlignLocal(r - e.row, c - e.col)
              else m1[r][c] == (InFinder(n, r, c) && FinderDark(n, r, c))
    {
      NearSomeAdd(drawn, d, r, c);
      forall e | e in drawn + {d} && Near(e, r, c)
        ensures m1[r][c] == AlignLocal(r - e.row, c - e.col)
      {
        if e in drawn { NearSomeIntro(drawn, e, r, c); }
      }
    }
  }

  lemma NearSomeIntro(drawn: set<Cell>, e: Cell, r: int, c: int)
    requires e in drawn && Near(e, r, c)
    ensures NearSome(drawn, r, c)
  {}

  /** Before its own pattern is drawn, a centre is a function module just if it is in a finder. */
  lemma CenterFree(n: nat, pos: seq<int>, modules: Grid, fn: Grid, drawn: set<Cell>, d: Cell)
    requires AlignmentShape(n, pos) && OnPositions(drawn, pos)
    requires d.row in pos && d.col in pos && d !in drawn
    requires Square(modules, n) && Square(fn, n) && Inside(n, d.row, d.col)
    requires AlignDrawn(n, modules, fn, drawn)
    ensures fn[d.row][d.col] == InFinder(n, d.row, d.col)
  {
    hide AlignLocal, FinderLocal, InFinder;
    CentersApart(n, pos, drawn, d);
    assert Near(d, d.row, d.col);
  }

  method DrawAlignments(m: Matrix, pos: seq<int>)
    requires m.Valid() && m.size >= 21 && AlignmentShape(m.size, pos)
    requires forall r, c :: Inside(m.size, r, c) ==> m.isFunction[r][c] == InFinder(m.size, r, c)
    requires forall r, c :: Inside(m.size, r, c) ==>
      m.modules[r][c] == (InFinder(m.size, r, c) && FinderDark(m.size, r, c))
    modifies m
    ensures m.Valid()
    ensures AlignDrawn(m.size, m.modules, m.isFunction, Centers(m.size, pos, pos))
  {
    hide AlignLocal, FinderLocal, InFinder, AlignDrawn;
    ghost var drawn: set<Cell> := {};
    NothingDrawn(m.size, m.modules, m.isFunction);
    for i := 0 to |pos|
      invariant m.Valid()
      invariant drawn == Centers(m.size, pos[..i], pos)
      invariant AlignDrawn(m.size, m.modules, m.isFunction, drawn)
    {
      for j := 0 to |pos|
        invariant m.Valid()
        invariant drawn == Centers(m.size, pos[..i], pos) + Centers(m.size, [pos[i]], pos[..j])
        invariant AlignDrawn(m.size, m.modules, m.isFunction, drawn)
      {
        var row, col := pos[i], pos[j];
        ghost var d := Cell(row, col);
        assert row !in pos[..i] && col !in pos[..j];
        assert OnPositions(drawn, pos);
        CenterFree(m.size, pos, m.modules, m.isFunction, drawn, d);
        CentersSnoc(m.size, [row], pos, j);
        if m.isFunction[row][col] { continue; }
        ghost var m0, f0 := m.modules, m.isFunction;
        DrawAlignment(m, row, col);
        AlignDrawnStep(m.size, pos, m0, f0, m.modules, m.isFunction, drawn, d);
        drawn := drawn + {d};
      }
      assert pos[..|pos|] == pos;
      CentersRow(m.size, pos, i);
    }
    assert pos[..|pos|] == pos;
  }

  lemma NothingDrawn(n: nat, modules: Grid, fn: Grid)
    requires Square(modules, n) && Square(fn, n)
    requires forall r, c :: Inside(n, r, c) ==> fn[r][c] == InFinder(n, r, c)
    requires forall r, c :: Inside(n, r, c) ==> modules[r][c] == (InFinder(n, r, c) && FinderDark(n, r, c))
    ensures AlignDrawn(n, modules, fn, {})
  {
    hide FinderLocal, FinderDark;
  }

  lemma CentersSnoc(n: int, rows: seq<int>, pos: seq<int>, j: nat)
    requires |rows| == 1 && j < |pos|
    ensures Centers(n, rows, pos[..j + 1])
         == Centers(n, rows, pos[..j]) + if InFinder(n, rows[0], pos[j]) then {} else {Cell(rows[0], pos[j])}
  {
    hide InFinder;
    assert pos[..j + 1] == pos[..j] + [pos[j]];
  }

  lemma CentersRow(n: int, pos: seq<int>, i: nat)
    requires i < |pos|
    ensures Centers(n, pos[..i + 1], pos) == Centers(n, pos[..i], pos) + Centers(n, [pos[i]], pos)
  {
    hide InFinder;
    assert pos[..i + 1] == pos[..i] + [pos[i]];
  }

  // -------------------------------------------------- timing, reserved areas

  method DrawTiming(m: Matrix)
    requires m.Valid() && m.size >= 21
    modifies m
    ensures m.Valid()
    ensures forall r, c :: Inside(m.size, r, c) ==>
      m.isFunction[r][c] == (old(m.isFunction[r][c]) || TimingCell(m.size, r, c))
    ensures forall r, c :: Inside(m.size, r, c) ==>
      m.modules[r][c] == if TimingCell(m.size, r, c) && !old(m.isFunction[r][c])
                         then (if c == 6 then r else c) % 2 == 0 else old(m.modules[r][c])
  {
    for i := 8 to m.size - 8
      invariant m.Valid()
      invariant forall r, c :: Inside(m.size, r, c) ==>
        m.isFunction[r][c] == (old(m.isFunction[r][c]) || (TimingCell(m.size, r, c) && r < i && c < i))
      invariant forall r, c :: Inside(m.size, r, c) ==>
        m.modules[r][c] == if TimingCell(m.size, r, c) && r < i && c < i && !old(m.isFunction[r][c])
                           then (if c == 6 then r else c) % 2 == 0 else old(m.modules[r][c])
    {
      SetFree(m, i, 6, i % 2 == 0);
      SetFree(m, 6, i, i % 2 == 0);
    }
  }

  method ReserveCorner(m: Matrix)
    requires m.Valid() && m.size >= 21
    modifies m
    ensures m.Valid()
    ensures forall r, c :: Inside(m.size, r, c) ==>
      m.isFunction[r][c] == (old(m.isFunction[r][c]) || ReservedCorner(r, c))
    ensures forall r, c :: Inside(m.size, r, c) ==>
      m.modules[r][c] == (old(m.modules[r][c]) && !(ReservedCorner(r, c) && !old(m.isFunction[r][c])))
  {
    for i := 0 to 9
      invariant m.Valid()
      invariant forall r, c :: Inside(m.size, r, c) ==>
        m.isFunction[r][c] == (old(m.isFunction[r][c]) || (c == 8 && r < i) || (r == 8 && c < i))
      invariant forall r, c :: Inside(m.size, r, c) ==>
        m.modules[r][c] ==
          (old(m.modules[r][c]) && !(((c == 8 && r < i) || (r == 8 && c < i)) && !old(m.isFunction[r][c])))
    {
      SetFree(m, i, 8, false);
      SetFree(m, 8, i, false);
    }
  }

  method ReserveEdge(m: Matrix)
    requires m.Valid() && m.size >= 21
    modifies m
    ensures m.Valid()
    ensures forall r, c :: Inside(m.size, r, c) ==>
      m.isFunction[r][c] == (old(m.isFunction[r][c]) || ReservedEdge(m.size, r, c))
    ensures forall r, c :: Inside(m.size, r, c) ==>
      m.modules[r][c] == (old(m.modules[r][c]) && !ReservedEdge(m.size, r, c))
  {
    var n := m.size;
    for i := 0 to 8
      invariant m.Valid()
      invariant forall r, c :: Inside(n, r, c) ==>
        m.isFunction[r][c] == (old(m.isFunction[r][c]) || (c == 8 && r >= n - i) || (r == 8 && c >= n - i))
      invariant forall r, c :: Inside(n, r, c) ==>
        m.modules[r][c] == (old(m.modules[r][c]) && !((c == 8 && r >= n - i) || (r == 8 && c >= n - i)))
    {
      Set(m, n - 1 - i, 8, false);
      Set(m, 8, n - 1 - i, false);
    }
  }

  /** The version cells of the first i version bits. */
  predicate VersionDone(n: int, i: int, r: int, c: int) {
    VersionCell(n, r, c) && (if r < 6 then 3 * r + (c - (n - 11)) else 3 * c + (r - (n - 11))) < i
  }

  method ReserveVersion(m: Matrix)
    requires m.Valid() && m.size >= 21
    modifies m
    ensures m.Valid()
    ensures forall r, c :: Inside(m.size, r, c) ==>
      m.isFunction[r][c] == (old(m.isFunction[r][c]) || VersionCell(m.size, r, c))
    ensures forall r, c :: Inside(m.size, r, c) ==>
      m.modules[r][c] == (old(m.modules[r][c]) && !VersionCell(m.size, r, c))
  {
    var n := m.size;
    for i := 0 to 18
      invariant m.Valid()
      invariant forall r, c :: Inside(n, r, c) ==>
        m.isFunction[r][c] == (old(m.isFunction[r][c]) || VersionDone(n, i, r, c))
      invariant forall r, c :: Inside(n, r, c) ==>
        m.modules[r][c] == (old(m.modules[r][c]) && !VersionDone(n, i, r, c))
    {
      Set(m, i / 3, i % 3 + n - 11, false);
      Set(m, i % 3 + n - 11, i / 3, false);
    }
  }

  /** Consecutive positions are at least 5 apart, from 6 to n - 7; version 1 has none. */
  predicate AlignmentRow(n: int, pos: seq<int>) {
    && |pos| <= 7 && |pos| != 1
    && (|pos| >= 2 ==> pos[0] == 6 && pos[|pos| - 1] == n - 7 && pos[1] - pos[0] >= 5)
    && (|pos| >= 3 ==> pos[2] - pos[1] >= 5)
    && (|pos| >= 4 ==> pos[3] - pos[2] >= 5)
    && (|pos| >= 5 ==> pos[4] - pos[3] >= 5)
    && (|pos| >= 6 ==> pos[5] - pos[4] >= 5)
    && (|pos| >= 7 ==> pos[6] - pos[5] >= 5)
  }

  lemma AlignPosRow(v: int)
    requires IsVersion(v)
    ensures AlignmentRow(SizeOf(v), AlignPos(v))
  {
    if v <= 20 { AlignPosRowLow(v); } else if v <= 30 { AlignPosRowMiddle(v); } else { AlignPosRowHigh(v); }
  }

  lemma AlignPosRowLow(v: int)
    requires 1 <= v <= 20
    ensures AlignmentRow(SizeOf(v), AlignPos(v))
  {}

  lemma AlignPosRowMiddle(v: int)
    requires 21 <= v <= 30
    ensures AlignmentRow(SizeOf(v), AlignPos(v))
  {}

  lemma AlignPosRowHigh(v: int)
    requires 31 <= v <= 40
    ensures AlignmentRow(SizeOf(v), AlignPos(v))
  {}

  lemma {:induction false} GapsAddUp(pos: seq<int>, i: nat, j: nat)
    requires i < j < |pos|
    requires forall k :: 0 <= k < |pos| - 1 ==> pos[k + 1] - pos[k] >= 5
    ensures pos[j] - pos[i] >= 5
  {
    if i < j - 1 {
      GapsAddUp(pos, i, j - 1);
      assert pos[j - 1 + 1] - pos[j - 1] >= 5;
    } else {
      assert pos[i + 1] - pos[i] >= 5;
    }
  }

  lemma AlignPosShape(v: int)
    requires IsVersion(v)
    ensures AlignmentShape(SizeOf(v), AlignPos(v))
  {
    hide AlignPos;
    AlignPosRow(v);
    var pos := AlignPos(v);
    forall i, j | 0 <= i < j < |pos|
      ensures pos[j] - pos[i] >= 5
    {
      GapsAddUp(pos, i, j);
    }
  }

  /** The skeleton of a version: exactly its function cells are marked, with their patterns. */
  method BaseMatrix(version: int) returns (m: Matrix)
    requires IsVersion(version)
    ensures fresh(m) && m.Valid() && m.size == SizeOf(version)
    ensures m.isFunction == FunctionGrid(version) && m.modules == Skeleton(version)
  {
    hide AlignLocal, FinderLocal, FinderDark, AlignPos, Centers, NearSome, FunctionGrid, Skeleton;
    AlignPosShape(version);
    m := new Matrix(SizeOf(version));
    DrawFinders(m);
    DrawAlignments(m, AlignPos(version));
    DrawTiming(m);
    ReserveCorner(m);
    ReserveEdge(m);
    if version >= 7 {
      ReserveVersion(m);
    }
    SkeletonUnique(version, m.modules, m.isFunction);
  }

  /** The timing column is all function modules, in every version. */
  lemma TimingColumnReserved(version: int, r: int)
    requires IsVersion(version) && 0 <= r < SizeOf(version)
    ensures FunctionGrid(version)[r][6]
  {
    hide AlignPos, NearSome;
  }
}
