/**
  The geometry of a symbol in words of distance, order and symmetry: rings of the finder and
  alignment patterns, the timing lines, the course of the walk, and the order of the format
  and version bits.
 */
module SymbolGeometry {
  import opened BinaryPolynomials
  import opened Grids
  import opened Placement
  import opened QrBase
  import opened QrMatrix
  import opened QrTables

  function Abs(x: int): nat { if x < 0 then -x else x }

  /** The greater of the distances in rows and in columns. */
  function Distance(r: int, c: int): nat { if Abs(r) < Abs(c) then Abs(c) else Abs(r) }

  // ------------------------------------------------------------------- patterns

  /** The centres of the three finder patterns. */
  predicate FinderCentre(n: int, d: Cell) {
    d == Cell(3, 3) || d == Cell(3, n - 4) || d == Cell(n - 4, 3)
  }

  lemma FinderRings(r: int, c: int)
    requires -1 <= r <= 7 && -1 <= c <= 7
    ensures FinderLocal(r, c) <==> Distance(r - 3, c - 3) != 2 && Distance(r - 3, c - 3) != 4
  {
  }

  lemma AlignRings(r: int, c: int)
    requires Distance(r, c) <= 2
    ensures AlignLocal(r, c) <==> Distance(r, c) != 1
  {
  }

  /** No alignment pattern touches a finder. */
  lemma FinderAlone(version: int, d: Cell, r: int, c: int)
    requires IsVersion(version) && d in Centers(SizeOf(version), AlignPos(version), AlignPos(version))
    requires InFinder(SizeOf(version), r, c) && Inside(SizeOf(version), r, c)
    ensures !Near(d, r, c)
  {
    AlignPosShape(version);
    hide AlignPos;
    var n, pos := SizeOf(version), AlignPos(version);
    assert d.row in pos && d.col in pos && !InFinder(n, d.row, d.col);
    Spread(version, d.row);
    Spread(version, d.col);
  }

  /** An alignment position is the first, the last, or well between them. */
  lemma Spread(version: int, x: int)
    requires IsVersion(version) && x in AlignPos(version)
    ensures x == 6 || x == SizeOf(version) - 7 || 11 <= x <= SizeOf(version) - 12
  {
    AlignPosShape(version);
    AlignPosRow(version);
    hide AlignPos;
    var pos := AlignPos(version);
    var i :| 0 <= i < |pos| && pos[i] == x;
    if 0 < i < |pos| - 1 {
      assert pos[i] - pos[0] >= 5 && pos[|pos| - 1] - pos[i] >= 5;
    }
  }

  /** Around a finder's centre the rings at distance 2 and 4 are light, and the others are dark. */
  lemma FindersStand(version: int, d: Cell, r: int, c: int)
    requires IsVersion(version) && FinderCentre(SizeOf(version), d)
    requires Inside(SizeOf(version), r, c) && Distance(r - d.row, c - d.col) <= 4
    ensures FunctionGrid(version)[r][c]
    ensures Skeleton(version)[r][c] <==> Distance(r - d.row, c - d.col) != 2 && Distance(r - d.row, c - d.col) != 4
  {
    hide AlignPos, Centers, Near, FinderLocal;
    var n := SizeOf(version);
    assert InFinder(n, r, c);
    if e :| e in Centers(n, AlignPos(version), AlignPos(version)) && Near(e, r, c) {
      FinderAlone(version, e, r, c);
    }
    FinderRings(if r < 8 then r else r - (n - 7), if c < 8 then c else c - (n - 7));
    assert SkeletonDark(version, r, c) == FinderDark(n, r, c);
  }

  // -------------------------------------------------- where alignment patterns stand

  /** The spacing of the patterns: the least even number that reaches from 6 to the last one, but 26 in version 32. */
  predicate Spacing(version: int, step: int)
    requires IsVersion(version) && version >= 2
  {
    var gaps := version / 7 + 1;
    if version == 32 then step == 26
    else step % 2 == 0 && step * gaps >= SizeOf(version) - 13 > (step - 2) * gaps
  }

  /** Counted back from the last position, they are a step apart; the first is 6. */
  predicate Spaced(version: int, pos: seq<int>, step: int)
    requires IsVersion(version)
  {
    && |pos| == version / 7 + 2 && pos[0] == 6
    && forall i :: 1 <= i < |pos| ==> pos[i] == SizeOf(version) - 7 - step * (|pos| - 1 - i)
  }

  function StepOf(version: int): int
    requires IsVersion(version) && version >= 2
  {
    var pos := AlignPos(version);
    if |pos| >= 3 then pos[2] - pos[1] else SizeOf(version) - 13
  }

  lemma AlignSpacing(v: int)
    requires IsVersion(v) && v >= 2
    ensures Spacing(v, StepOf(v)) && Spaced(v, AlignPos(v), StepOf(v)) && StepOf(v) >= 12
  {
    if v <= 6 {
      AlignSpacing6(v);
    } else if v <= 10 {
      AlignSpacing10(v);
    } else if v <= 13 {
      AlignSpacing13(v);
    } else if v <= 17 {
      AlignSpacing17(v);
    } else if v <= 20 {
      AlignSpacing20(v);
    } else if v <= 24 {
      AlignSpacing24(v);
    } else if v <= 27 {
      AlignSpacing27(v);
    } else if v <= 31 {
      AlignSpacing31(v);
    } else if v <= 34 {
      AlignSpacing34(v);
    } else if v <= 37 {
      AlignSpacing37(v);
    } else {
      AlignSpacing40(v);
    }
    hide *;
  }

  lemma AlignSpacing6(v: int)
    requires 2 <= v <= 6
    ensures Spacing(v, StepOf(v)) && Spaced(v, AlignPos(v), StepOf(v)) && StepOf(v) >= 12
  {
  }

  lemma AlignSpacing10(v: int)
    requires 7 <= v <= 10
    ensures Spacing(v, StepOf(v)) && Spaced(v, AlignPos(v), StepOf(v)) && StepOf(v) >= 12
  {
  }

  lemma AlignSpacing13(v: int)
    requires 11 <= v <= 13
    ensures Spacing(v, StepOf(v)) && Spaced(v, AlignPos(v), StepOf(v)) && StepOf(v) >= 12
  {
  }

  lemma AlignSpacing17(v: int)
    requires 14 <= v <= 17
    ensures Spacing(v, StepOf(v)) && Spaced(v, AlignPos(v), StepOf(v)) && StepOf(v) >= 12
  {
  }

  lemma AlignSpacing20(v: int)
    requires 18 <= v <= 20
    ensures Spacing(v, StepOf(v)) && Spaced(v, AlignPos(v), StepOf(v)) && StepOf(v) >= 12
  {
  }

  lemma AlignSpacing24(v: int)
    requires 21 <= v <= 24
    ensures Spacing(v, StepOf(v)) && Spaced(v, AlignPos(v), StepOf(v)) && StepOf(v) >= 12
  {
  }

  lemma AlignSpacing27(v: int)
    requires 25 <= v <= 27
    ensures Spacing(v, StepOf(v)) && Spaced(v, AlignPos(v), StepOf(v)) && StepOf(v) >= 12
  {
  }

  lemma AlignSpacing31(v: int)
    requires 28 <= v <= 31
    ensures Spacing(v, StepOf(v)) && Spaced(v, AlignPos(v), StepOf(v)) && StepOf(v) >= 12
  {
  }

  lemma AlignSpacing34(v: int)
    requires 32 <= v <= 34
    ensures Spacing(v, StepOf(v)) && Spaced(v, AlignPos(v), StepOf(v)) && StepOf(v) >= 12
  {
  }

  lemma AlignSpacing37(v: int)
    requires 35 <= v <= 37
    ensures Spacing(v, StepOf(v)) && Spaced(v, AlignPos(v), StepOf(v)) && StepOf(v) >= 12
  {
  }

  lemma AlignSpacing40(v: int)
    requires 38 <= v <= 40
    ensures Spacing(v, StepOf(v)) && Spaced(v, AlignPos(v), StepOf(v)) && StepOf(v) >= 12
  {
  }

  lemma StepEven(version: int)
    requires IsVersion(version) && version >= 2 && Spacing(version, StepOf(version))
    ensures StepOf(version) % 2 == 0
  {
    hide StepOf;
  }

  lemma SpacedAt(version: int, pos: seq<int>, step: int, x: int) returns (back: nat)
    requires IsVersion(version) && Spaced(version, pos, step) && x in pos
    ensures x == 6 || x == SizeOf(version) - 7 - step * back
  {
    var i :| 0 <= i < |pos| && pos[i] == x;
    back := |pos| - 1 - i;
  }

  lemma EvenTimes(half: nat, back: nat)
    ensures (2 * half) * back == 2 * (half * back)
  {
  }

  lemma AtLeastOnce(half: nat, back: nat)
    ensures if back == 0 then half * back == 0 else half * back >= half
  {
  }

  /** Every position is the first one, or the last but for an even number, of at least twelve if it is not zero. */
  lemma PositionOf(version: int, x: int) returns (half: nat)
    requires IsVersion(version) && version >= 2 && x in AlignPos(version)
    ensures x == 6 || x == SizeOf(version) - 7 - 2 * half
    ensures half == 0 || half >= 6
  {
    hide *;
    AlignSpacing(version);
    StepEven(version);
    var step := StepOf(version);
    var back := SpacedAt(version, AlignPos(version), step, x);
    EvenTimes(step / 2, back);
    AtLeastOnce(step / 2, back);
    half := step / 2 * back;
  }

  /** All positions but the last are at least a step before it. */
  lemma BeforeLast(version: int, x: int)
    requires IsVersion(version) && x in AlignPos(version) && x != SizeOf(version) - 7
    ensures x <= SizeOf(version) - 19
  {
    if version >= 2 {
      hide AlignPos;
      var half := PositionOf(version, x);
    }
  }

  /** No alignment pattern touches the reserved areas that are written over it. */
  lemma AlignmentAlone(version: int, d: Cell, r: int, c: int)
    requires IsVersion(version) && d in Centers(SizeOf(version), AlignPos(version), AlignPos(version)) && Near(d, r, c)
    ensures !ReservedEdge(SizeOf(version), r, c) && !VersionCell(SizeOf(version), r, c)
  {
    var n, pos := SizeOf(version), AlignPos(version);
    assert d.row in pos && d.col in pos && !InFinder(n, d.row, d.col);
    hide AlignPos;
    Spread(version, d.row);
    Spread(version, d.col);
    if d.row != n - 7 { BeforeLast(version, d.row); }
    if d.col != n - 7 { BeforeLast(version, d.col); }
  }

  /** Around every alignment centre off the finders the ring at distance 1 is light, the rest dark. */
  lemma AlignmentsStand(version: int, d: Cell, r: int, c: int)
    requires IsVersion(version) && d in Centers(SizeOf(version), AlignPos(version), AlignPos(version))
    requires Distance(r - d.row, c - d.col) <= 2
    ensures Inside(SizeOf(version), r, c) && FunctionGrid(version)[r][c]
    ensures Skeleton(version)[r][c] <==> Distance(r - d.row, c - d.col) != 1
  {
    var n, pos := SizeOf(version), AlignPos(version);
    AlignPosShape(version);
    assert d.row in pos && d.col in pos;
    hide AlignPos, Centers;
    assert Near(d, r, c) && NearSome(Centers(n, pos, pos), r, c);
    assert 6 <= d.row <= n - 7 && 6 <= d.col <= n - 7;
    AlignmentAlone(version, d, r, c);
    AlignRings(r - d.row, c - d.col);
    if e :| e in Centers(n, pos, pos) && Near(e, r, c) && AlignLocal(r - e.row, c - e.col) {
      SamePattern(version, d, e, r, c);
    }
  }

  lemma SamePattern(version: int, d: Cell, e: Cell, r: int, c: int)
    requires IsVersion(version)
    requires d in Centers(SizeOf(version), AlignPos(version), AlignPos(version)) && Near(d, r, c)
    requires e in Centers(SizeOf(version), AlignPos(version), AlignPos(version)) && Near(e, r, c)
    ensures d == e
  {
    AlignPosShape(version);
    hide AlignPos, Near, AlignmentShape, InFinder;
    NearBoth(SizeOf(version), AlignPos(version), d, e, r, c);
  }

  // -------------------------------------------------------- timing and symmetry

  /** Row 6 and column 6 between the finders alternate from a dark module to a dark module. */
  lemma TimingAlternates(version: int, k: int)
    requires IsVersion(version) && 8 <= k < SizeOf(version) - 8
    ensures var n, g := SizeOf(version), Skeleton(version);
      && g[6][8] && g[8][6] && g[6][n - 9] && g[n - 9][6]
      && (k + 1 < n - 8 ==> g[6][k + 1] != g[6][k] && g[k + 1][6] != g[k][6])
      && FunctionGrid(version)[6][k] && FunctionGrid(version)[k][6]
  {
    hide Skeleton, FunctionGrid;
    TimingAt(version, 8);
    TimingAt(version, SizeOf(version) - 9);
    TimingAt(version, k);
    if k + 1 < SizeOf(version) - 8 { TimingAt(version, k + 1); }
  }

  lemma TimingAt(version: int, k: int)
    requires IsVersion(version) && 8 <= k < SizeOf(version) - 8
    ensures Skeleton(version)[6][k] == Skeleton(version)[k][6] == (k % 2 == 0)
    ensures FunctionGrid(version)[6][k] && FunctionGrid(version)[k][6]
  {
    TimingDark(version, 6, k);
    TimingDark(version, k, 6);
    hide SkeletonDark, AlignPos, NearSome, Near;
  }

  /** Every alignment position is even. */
  lemma EvenPosition(version: int, x: int)
    requires IsVersion(version) && x in AlignPos(version)
    ensures x % 2 == 0
  {
    if version >= 2 {
      hide AlignPos;
      var half := PositionOf(version, x);
      assert SizeOf(version) - 7 == 2 * (2 * version + 5);
    }
  }

  /** A pattern on a timing line is centred on it. */
  lemma OnTiming(version: int, d: Cell, r: int, c: int)
    requires IsVersion(version) && TimingCell(SizeOf(version), r, c)
    requires d in Centers(SizeOf(version), AlignPos(version), AlignPos(version)) && Near(d, r, c)
    ensures d.row in AlignPos(version) && d.col in AlignPos(version)
    ensures if c == 6 then d.col == 6 else d.row == 6
  {
    assert d.row in AlignPos(version) && d.col in AlignPos(version);
    hide AlignPos, InFinder;
    Spread(version, d.row);
    Spread(version, d.col);
  }

  /** An alignment pattern on a timing line agrees with it. */
  lemma TimingUnder(version: int, d: Cell, r: int, c: int)
    requires IsVersion(version) && TimingCell(SizeOf(version), r, c)
    requires d in Centers(SizeOf(version), AlignPos(version), AlignPos(version)) && Near(d, r, c)
    ensures Inside(SizeOf(version), r, c) && Skeleton(version)[r][c] == ((if c == 6 then r else c) % 2 == 0)
  {
    hide AlignPos, Centers, Skeleton, FunctionGrid;
    OnTiming(version, d, r, c);
    EvenPosition(version, d.row);
    EvenPosition(version, d.col);
    AlignmentsStand(version, d, r, c);
  }

  lemma SkeletonAt(version: int, r: int, c: int)
    requires IsVersion(version) && Inside(SizeOf(version), r, c)
    ensures Skeleton(version)[r][c] == SkeletonDark(version, r, c)
  {
    hide SkeletonDark;
  }

  lemma TimingFree(version: int, r: int, c: int)
    requires IsVersion(version) && TimingCell(SizeOf(version), r, c)
    requires !NearSome(Centers(SizeOf(version), AlignPos(version), AlignPos(version)), r, c)
    ensures SkeletonDark(version, r, c) == ((if c == 6 then r else c) % 2 == 0)
  {
    hide AlignPos, NearSome, Centers;
  }

  lemma TimingDark(version: int, r: int, c: int)
    requires IsVersion(version) && TimingCell(SizeOf(version), r, c)
    ensures SkeletonDark(version, r, c) == ((if c == 6 then r else c) % 2 == 0)
  {
    hide AlignPos, Centers, SkeletonDark, Skeleton, Near;
    if d :| d in Centers(SizeOf(version), AlignPos(version), AlignPos(version)) && Near(d, r, c) {
      TimingUnder(version, d, r, c);
      SkeletonAt(version, r, c);
    } else {
      TimingFree(version, r, c);
    }
  }

  /** Turned over its main diagonal the skeleton is itself. */
  lemma SkeletonSymmetric(version: int, r: int, c: int)
    requires IsVersion(version) && Inside(SizeOf(version), r, c)
    ensures FunctionGrid(version)[r][c] == FunctionGrid(version)[c][r]
    ensures Skeleton(version)[r][c] == Skeleton(version)[c][r]
  {
    var n, pos := SizeOf(version), AlignPos(version);
    CentersSymmetric(n, pos, r, c);
    hide AlignPos, Centers, NearSome, Near, AlignLocal, FinderLocal;
    FinderSymmetric(n, r, c);
  }

  lemma FinderSymmetric(n: int, r: int, c: int)
    ensures InFinder(n, r, c) == InFinder(n, c, r)
    ensures InFinder(n, r, c) ==> FinderDark(n, r, c) == FinderDark(n, c, r)
  {
  }

  lemma CentersSymmetric(n: int, pos: seq<int>, r: int, c: int)
    ensures NearSome(Centers(n, pos, pos), r, c) == NearSome(Centers(n, pos, pos), c, r)
    ensures (exists d :: d in Centers(n, pos, pos) && Near(d, r, c) && AlignLocal(r - d.row, c - d.col))
         == (exists d :: d in Centers(n, pos, pos) && Near(d, c, r) && AlignLocal(c - d.row, r - d.col))
  {
    CentersTurned(n, pos, r, c);
    CentersTurned(n, pos, c, r);
  }

  lemma CentersTurned(n: int, pos: seq<int>, r: int, c: int)
    ensures NearSome(Centers(n, pos, pos), r, c) ==> NearSome(Centers(n, pos, pos), c, r)
    ensures (exists d :: d in Centers(n, pos, pos) && Near(d, r, c) && AlignLocal(r - d.row, c - d.col))
        ==> (exists d :: d in Centers(n, pos, pos) && Near(d, c, r) && AlignLocal(c - d.row, r - d.col))
  {
    if d :| d in Centers(n, pos, pos) && Near(d, r, c) {
      assert Cell(d.col, d.row) in Centers(n, pos, pos) && Near(Cell(d.col, d.row), c, r);
    }
    if d :| d in Centers(n, pos, pos) && Near(d, r, c) && AlignLocal(r - d.row, c - d.col) {
      assert Cell(d.col, d.row) in Centers(n, pos, pos) && Near(Cell(d.col, d.row), c, r);
      assert AlignLocal(c - d.col, r - d.row);
    }
  }

  // ------------------------------------------------------------------- the walk

  lemma {:induction false} PairsAt(n: nat, pairs: nat, q: nat, i: nat)
    requires q < pairs && i < 2 * n
    ensures |WalkPairs(n, q)| + i < |WalkPairs(n, pairs)|
    ensures WalkPairs(n, pairs)[|WalkPairs(n, q)| + i] == PairWalk(n, q)[i]
    decreases pairs
  {
    hide PairWalk;
    if q < pairs - 1 {
      PairsAt(n, pairs - 1, q, i);
    }
  }

  /** The column pair, and the place in it, of the k-th cell. */
  lemma {:induction false} Locate(n: nat, pairs: nat, k: nat) returns (q: nat, i: nat)
    requires k < |WalkPairs(n, pairs)|
    ensures q < pairs && i < 2 * n && k == |WalkPairs(n, q)| + i
    decreases pairs
  {
    hide PairWalk;
    if k >= |WalkPairs(n, pairs - 1)| {
      q, i := pairs - 1, k - |WalkPairs(n, pairs - 1)|;
    } else {
      q, i := Locate(n, pairs - 1, k);
    }
  }

  lemma {:induction false} PairsEven(n: nat, pairs: nat)
    ensures |WalkPairs(n, pairs)| % 2 == 0
  {
    hide PairWalk;
    if pairs > 0 { PairsEven(n, pairs - 1); }
  }

  /** From the right cell of a row to the left one; then to the next row, or at the edge to the next pair. */
  predicate StepsTo(n: nat, a: Cell, b: Cell, k: nat) {
    if k % 2 == 0 then b == Cell(a.row, a.col - 1)
    else if b.col == a.col + 1 then Abs(b.row - a.row) == 1
    else (a.row == 0 || a.row == n - 1) && b == Cell(a.row, if a.col == 7 then 5 else a.col - 1)
  }

  lemma StepInPair(n: nat, q: nat, i: nat)
    requires i + 1 < 2 * n
    ensures StepsTo(n, PairWalk(n, q)[i], PairWalk(n, q)[i + 1], i)
  {
  }

  lemma StepToPair(n: nat, q: nat, i: nat)
    requires WalkSize(n) && 2 * q + 4 < n && i == 2 * n - 1
    ensures StepsTo(n, PairWalk(n, q)[i], PairWalk(n, q + 1)[0], i)
  {
  }

  /** The walk starts in the bottom right corner and goes on by single steps. */
  lemma WalkSteps(n: nat, k: nat)
    requires WalkSize(n) && n > 7 && k + 1 < |Walk(n)|
    ensures Walk(n)[0] == Cell(n - 1, n - 1)
    ensures StepsTo(n, Walk(n)[k], Walk(n)[k + 1], k)
  {
    hide PairWalk, StepsTo;
    var pairs := (n - 1) / 2;
    assert WalkPairs(n, 0) == [];
    PairsAt(n, pairs, 0, 0);
    FirstCell(n);
    var q, i := Locate(n, pairs, k);
    PairsAt(n, pairs, q, i);
    PairsEven(n, q);
    if i + 1 < 2 * n {
      PairsAt(n, pairs, q, i + 1);
      StepInPair(n, q, i);
      SameParity(n, Walk(n)[k], Walk(n)[k + 1], i, k);
    } else {
      hide WalkPairs;
      PairsGrow(n, q);
      if q + 1 == pairs { assert false; }
      PairsAt(n, pairs, q + 1, 0);
      StepToPair(n, q, i);
      SameParity(n, Walk(n)[k], Walk(n)[k + 1], i, k);
    }
  }

  lemma PairsGrow(n: nat, q: nat)
    ensures |WalkPairs(n, q + 1)| == |WalkPairs(n, q)| + 2 * n
  {
    hide PairWalk;
  }

  lemma FirstCell(n: nat)
    requires WalkSize(n) && n > 7
    ensures PairWalk(n, 0)[0] == Cell(n - 1, n - 1)
  {
  }

  lemma SameParity(n: nat, a: Cell, b: Cell, i: nat, k: nat)
    requires i % 2 == k % 2 && StepsTo(n, a, b, i)
    ensures StepsTo(n, a, b, k)
  {
  }

  // --------------------------------------------------- format and version areas

  /** The rows of column 8 that are reserved, but for the timing row and the dark module. */
  predicate FormatRowCell(n: int, r: int) {
    0 <= r < n && (ReservedCorner(r, 8) || ReservedEdge(n, r, 8)) && r != 6 && r != n - 8
  }

  /** The columns of row 8 that are reserved, but for the timing column and the corner of the other copy. */
  predicate FormatColCell(n: int, c: int) {
    0 <= c < n && (ReservedCorner(8, c) || ReservedEdge(n, 8, c)) && c != 6 && c != 8
  }

  /** One copy of the format bits runs down column 8, the other leftwards along row 8, and each fills its cells. */
  lemma FormatOrder(n: int, i: int, j: int)
    requires n >= 21 && 0 <= i < j < 15
    ensures FormatRow(n, i) < FormatRow(n, j) && FormatCol(n, i) > FormatCol(n, j)
    ensures FormatRowCell(n, FormatRow(n, i)) && FormatRowCell(n, FormatRow(n, j))
    ensures FormatColCell(n, FormatCol(n, i)) && FormatColCell(n, FormatCol(n, j))
  {
  }

  /** The place of a row of column 8 in the one copy. */
  function RowBit(n: int, r: int): int {
    if r < 6 then r else if r < 9 then r - 1 else r - n + 15
  }

  function ColBit(n: int, c: int): int {
    if c >= n - 8 then n - 1 - c else if c == 7 then 8 else 14 - c
  }

  lemma FormatFills(n: int, x: int)
    requires n >= 21
    ensures FormatRowCell(n, x) ==> 0 <= RowBit(n, x) < 15 && FormatRow(n, RowBit(n, x)) == x
    ensures FormatColCell(n, x) ==> 0 <= ColBit(n, x) < 15 && FormatCol(n, ColBit(n, x)) == x
  {
  }

  /** The version word as a reader takes it from the area beside the top right finder, last row first. */
  function VersionRead(g: Grid, n: nat): nat
    requires Square(g, n) && n >= 21
  {
    Value(seq(18, j requires 0 <= j < 18 => g[5 - j / 3][n - 9 - j % 3]))
  }

  /** The same word from the area above the bottom left finder, last column first. */
  function VersionReadLeft(g: Grid, n: nat): nat
    requires Square(g, n) && n >= 21
  {
    Value(seq(18, j requires 0 <= j < 18 => g[n - 9 - j % 3][5 - j / 3]))
  }

  lemma VersionBits(g: Grid, n: nat, word: nat, j: nat)
    requires Square(g, n) && n >= 21 && HasVersion(g, n, word) && j < 18
    ensures g[5 - j / 3][n - 9 - j % 3] == Bit(word, 17 - j) == g[n - 9 - j % 3][5 - j / 3]
  {
    hide Bit;
    var i := 17 - j;
    assert i / 3 == 5 - j / 3 && i % 3 == 2 - j % 3;
    assert g[i / 3][i % 3 + n - 11] == Bit(word, i);
  }

  /** Both version areas give the written word back. */
  lemma VersionReadBack(g: Grid, n: nat, word: nat)
    requires Square(g, n) && n >= 21 && word < 0x40000
    requires HasVersion(g, n, word)
    ensures VersionRead(g, n) == word == VersionReadLeft(g, n)
  {
    hide Value, Bit, HasVersion;
    forall j: nat | j < 18
      ensures g[5 - j / 3][n - 9 - j % 3] == Bit(word, 17 - j) == g[n - 9 - j % 3][5 - j / 3]
    {
      VersionBits(g, n, word, j);
    }
    assert seq(18, j requires 0 <= j < 18 => g[5 - j / 3][n - 9 - j % 3]) == BitsOf(word, 18);
    assert seq(18, j requires 0 <= j < 18 => g[n - 9 - j % 3][5 - j / 3]) == BitsOf(word, 18);
    hide BitsOf;
    Pow2Small();
    ValueOfBits(word, 18);
  }
}
