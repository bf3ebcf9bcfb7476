/** What a finished symbol shows besides its data: its patterns, its dark module and its version. */
module FinishedSymbol {
  import opened BinaryPolynomials
  import opened CodewordStream
  import opened Grids
  import opened Placement
  import opened QrBase
  import opened QrEncode
  import opened QrMatrix
  import opened QrTables
  import opened SymbolGeometry
  import Bch

  /** Neither data nor information is written over the patterns. */
  lemma PatternsStand(bytes: seq<bv8>, version: int, mask: nat, g: Grid, r: int, c: int)
    requires IsVersion(version) && mask < 8 && IsFinished(bytes, version, mask, g)
    requires Inside(SizeOf(version), r, c)
    requires FunctionGrid(version)[r][c] && !InfoCell(SizeOf(version), version, r, c)
    ensures |g| == SizeOf(version) && Square(g, |g|) && g[r][c] == Skeleton(version)[r][c]
  {
    hide Codewords, FunctionGrid, Skeleton, Walk, InfoCell, HasFormat, HasVersion, Bch.FormatWord, Bch.VersionWord;
    WalkOnGrid(SizeOf(version));
    PlacedElsewhere(Skeleton(version), FunctionGrid(version), Codewords(bytes, version), mask, Walk(SizeOf(version)),
      r, c);
  }

  /** The rings of the three finders, in the finished symbol. */
  lemma FinishedFinders(bytes: seq<bv8>, version: int, mask: nat, g: Grid, d: Cell, r: int, c: int)
    requires IsVersion(version) && mask < 8 && IsFinished(bytes, version, mask, g)
    requires FinderCentre(SizeOf(version), d)
    requires Inside(SizeOf(version), r, c) && Distance(r - d.row, c - d.col) <= 4
    ensures |g| == SizeOf(version) && Square(g, |g|)
    ensures g[r][c] <==> Distance(r - d.row, c - d.col) != 2 && Distance(r - d.row, c - d.col) != 4
  {
    hide IsFinished, FunctionGrid, Skeleton;
    FindersStand(version, d, r, c);
    assert !InfoCell(SizeOf(version), version, r, c);
    PatternsStand(bytes, version, mask, g, r, c);
  }

  lemma FinishedAlignments(bytes: seq<bv8>, version: int, mask: nat, g: Grid, d: Cell, r: int, c: int)
    requires IsVersion(version) && mask < 8 && IsFinished(bytes, version, mask, g)
    requires d in Centers(SizeOf(version), AlignPos(version), AlignPos(version))
    requires Distance(r - d.row, c - d.col) <= 2
    ensures |g| == SizeOf(version) && Square(g, |g|) && Inside(SizeOf(version), r, c)
    ensures g[r][c] <==> Distance(r - d.row, c - d.col) != 1
  {
    hide IsFinished, FunctionGrid, Skeleton, Centers, AlignPos;
    AlignmentsStand(version, d, r, c);
    AlignmentOffInfo(version, d, r, c);
    PatternsStand(bytes, version, mask, g, r, c);
  }

  lemma AlignmentOffInfo(version: int, d: Cell, r: int, c: int)
    requires IsVersion(version) && d in Centers(SizeOf(version), AlignPos(version), AlignPos(version)) && Near(d, r, c)
    ensures !InfoCell(SizeOf(version), version, r, c)
  {
    var n := SizeOf(version);
    assert d.row in AlignPos(version) && d.col in AlignPos(version) && !InFinder(n, d.row, d.col);
    AlignmentAlone(version, d, r, c);
    hide AlignPos, Centers;
    Spread(version, d.row);
    Spread(version, d.col);
  }

  /** The dark module, and from version 7 on the version number in both areas. */
  lemma FinishedInfo(bytes: seq<bv8>, version: int, mask: nat, g: Grid)
    requires IsVersion(version) && mask < 8 && IsFinished(bytes, version, mask, g)
    ensures |g| == 4 * version + 17 && Square(g, |g|) && g[4 * version + 9][8]
    ensures version >= 7 ==>
      Shr(VersionRead(g, |g|), 12) == version && VersionReadLeft(g, |g|) == VersionRead(g, |g|)
  {
    hide Trial, Bch.FormatWord, Bch.VersionWord, InfoCell, Shr;
    if version >= 7 {
      hide HasVersion, HasFormat;
      Bch.VersionWordCode(version);
      VersionReadBack(g, |g|, Bch.VersionWord(version));
    }
  }
}
