/**
  The matrix under construction: placing codewords and writing format and version bits.
 */
module QrMatrix {
  import opened BinaryPolynomials
  import opened Bytes
  import opened Grids
  import opened Masks
  import opened Placement
  import Bch

  class Matrix {
    const size: nat
    var modules: Grid
    var isFunction: Grid

    ghost predicate Valid()
      reads this
    {
      Square(modules, size) && Square(isFunction, size)
    }

    constructor (n: nat)
      ensures Valid() && size == n
      ensures modules == Blank(n) && isFunction == Blank(n)
    {
      size := n;
      modules := Blank(n);
      isFunction := Blank(n);
    }

    /** Write the codeword bits along the zigzag. */
    method PlaceData(codewords: seq<bv8>, mask: nat)
      requires Valid() && WalkSize(size) && mask < 8
      modifies this`modules
      ensures Valid()
      ensures OnGrid(Walk(size), size)
      ensures modules == Placed(old(modules), isFunction, codewords, mask, Walk(size))
    {
      hide Walk, PairWalk, Placed, FreeCount, MaskAt;
      WalkOnGrid(size);
      var byteIndex, bitIndex := 0, 7;
      var row, inc := size as int - 1, -1;
      var right := size as int - 1;
      ghost var p := 0;
      StartCursor(codewords, mask);
      while right > 0
        invariant Valid() && bitIndex < 8
        invariant right == size - 1 - 2 * p && 2 * p < size
        invariant row == PairRow(size, p, 0) && inc == (if p % 2 == 0 then -1 else 1)
        invariant Cursor(old(modules), codewords, mask, WalkPairs(size, p), byteIndex, bitIndex)
      {
        var col := if right <= 6 then right - 1 else right;
        ghost var s := 0;
        assert WalkPairs(size, p) + PairWalk(size, p)[..0] == WalkPairs(size, p);
        while true
          invariant Valid() && bitIndex < 8
          invariant 0 <= s < size && row == PairRow(size, p, s)
          invariant inc == (if p % 2 == 0 then -1 else 1)
          invariant Cursor(old(modules), codewords, mask,
                           WalkPairs(size, p) + PairWalk(size, p)[..2 * s], byteIndex, bitIndex)
          decreases size - s
        {
          byteIndex, bitIndex := PlaceRow(old(modules), codewords, mask, p, s, row, col, byteIndex, bitIndex);
          row := row + inc;
          s := s + 1;
          if row < 0 || row >= size {
            row := row - inc;
            inc := -inc;
            break;
          }
        }
        assert PairWalk(size, p)[..2 * size] == PairWalk(size, p);
        p := p + 1;
        right := right - 2;
      }
      assert p == (size - 1) / 2;
      assert WalkPairs(size, p) == Walk(size) by { WalkUnfold(size); }
    }

    /** Write both format copies, the dark module and, from version 7 on, the version areas. */
    method WriteFormatAndVersion(version: nat, mask: nat)
      requires Valid() && size >= 21 && version < 64 && mask < 8
      modifies this`modules
      ensures Valid()
      ensures HasFormat(modules, size, Bch.FormatWord(mask))
      ensures version >= 7 ==> HasVersion(modules, size, Bch.VersionWord(version))
      ensures forall r, c :: Inside(size, r, c) && !InfoCell(size, version, r, c) ==>
        modules[r][c] == old(modules[r][c])
    {
      hide Bit, Bch.FormatWord, Bch.VersionWord;
      var bits := Bch.FormatBits(mask);
      WriteFormat(bits);
      if version >= 7 {
        var vbits := Bch.VersionBits(version);
        WriteVersion(vbits);
      }
    }

    method WriteFormat(bits: nat)
      requires Valid() && size >= 21
      modifies this`modules
      ensures Valid()
      ensures HasFormat(modules, size, bits)
      ensures forall r, c :: Inside(size, r, c) && !FormatCell(size, r, c) ==> modules[r][c] == old(modules[r][c])
    {
      hide Bit;
      for i := 0 to 15
        invariant Valid()
        invariant forall j :: 0 <= j < i ==>
          modules[FormatRow(size, j)][8] == Bit(bits, j) && modules[8][FormatCol(size, j)] == Bit(bits, j)
        invariant forall r, c :: Inside(size, r, c) && !FormatCell(size, r, c) ==> modules[r][c] == old(modules[r][c])
      {
        var bit := Bit(bits, i);
        if i < 6 { modules := SetCell(modules, i, 8, bit); }
        else if i < 8 { modules := SetCell(modules, i + 1, 8, bit); }
        else { modules := SetCell(modules, size - 15 + i, 8, bit); }
        if i < 8 { modules := SetCell(modules, 8, size - 1 - i, bit); }
        else if i < 9 { modules := SetCell(modules, 8, 15 - i, bit); }
        else { modules := SetCell(modules, 8, 14 - i, bit); }
      }
      modules := SetCell(modules, size - 8, 8, true);
    }

    method WriteVersion(vbits: nat)
      requires Valid() && size >= 21
      modifies this`modules
      ensures Valid()
      ensures HasVersion(modules, size, vbits)
      ensures forall r, c :: Inside(size, r, c) && !VersionCell(size, r, c) ==> modules[r][c] == old(modules[r][c])
    {
      hide Bit;
      for i := 0 to 18
        invariant Valid()
        invariant forall j :: 0 <= j < i ==>
          modules[j / 3][j % 3 + size - 11] == Bit(vbits, j) && modules[j % 3 + size - 11][j / 3] == Bit(vbits, j)
        invariant forall r, c :: Inside(size, r, c) && !VersionCell(size, r, c) ==> modules[r][c] == old(modules[r][c])
      {
        var dark := Bit(vbits, i);
        modules := SetCell(modules, i / 3, i % 3 + size - 11, dark);
        modules := SetCell(modules, i % 3 + size - 11, i / 3, dark);
      }
    }

    /** The modules are as placed along w, and the cursors stand after its free cells. */
    ghost predicate Cursor(start: Grid, codewords: seq<bv8>, mask: nat, w: seq<Cell>, byteIndex: nat, bitIndex: nat)
      requires Valid() && mask < 8 && bitIndex < 8
      reads this
    {
      && Square(start, size)
      && OnGrid(w, size)
      && modules == Placed(start, isFunction, codewords, mask, w)
      && FreeCount(isFunction, w) == 8 * byteIndex + 7 - bitIndex
    }

    lemma StartCursor(codewords: seq<bv8>, mask: nat)
      requires Valid() && mask < 8
      ensures Cursor(modules, codewords, mask, WalkPairs(size, 0), 0, 7)
    {}

    /** The two cells of one row of column pair p. */
    method PlaceRow(ghost start: Grid, codewords: seq<bv8>, mask: nat, ghost p: nat, ghost s: nat,
                    row: int, col: int, byteIndex: nat, bitIndex: nat)
        returns (byteIndex': nat, bitIndex': nat)
      requires Valid() && WalkSize(size) && mask < 8 && bitIndex < 8
      requires 2 * p < size - 1 && s < size
      requires row == PairRow(size, p, s) && col == PairColumn(size, p)
      requires Cursor(start, codewords, mask, WalkPairs(size, p) + PairWalk(size, p)[..2 * s], byteIndex, bitIndex)
      modifies this`modules
      ensures Valid() && bitIndex' < 8
      ensures Cursor(start, codewords, mask, WalkPairs(size, p) + PairWalk(size, p)[..2 * s + 2], byteIndex', bitIndex')
    {
      hide Walk, PairWalk, WalkPairs, Cursor, MaskAt;
      PairInside(size, p, s);
      hide PairRow, PairColumn;
      byteIndex', bitIndex' := byteIndex, bitIndex;
      for side := 0 to 2
        invariant Valid() && bitIndex' < 8
        invariant Cursor(start, codewords, mask, WalkPairs(size, p) + PairWalk(size, p)[..2 * s + side], byteIndex',
            bitIndex')
      {
        ghost var w := WalkPairs(size, p) + PairWalk(size, p)[..2 * s + side];
        PairPrefix(size, p, s, side);
        byteIndex', bitIndex' := PlaceCell(start, codewords, mask, w, row, col - side, byteIndex', bitIndex');
      }
    }

    /** One cell: a function module is skipped, any other takes the next bit. */
    method PlaceCell(ghost start: Grid, codewords: seq<bv8>, mask: nat, ghost w: seq<Cell>,
                     row: int, c: int, byteIndex: nat, bitIndex: nat)
        returns (byteIndex': nat, bitIndex': nat)
      requires Valid() && mask < 8 && bitIndex < 8
      requires Inside(size, row, c)
      requires Cursor(start, codewords, mask, w, byteIndex, bitIndex)
      modifies this`modules
      ensures Valid() && bitIndex' < 8
      ensures Cursor(start, codewords, mask, w + [Cell(row, c)], byteIndex', bitIndex')
    {
      hide BitAt, ByteBits, MaskAt;
      byteIndex', bitIndex' := byteIndex, bitIndex;
      assert (w + [Cell(row, c)])[..|w|] == w;
      if !isFunction[row][c] {
        var dark := false;
        if byteIndex < |codewords| {
          dark := BitAt(codewords[byteIndex], bitIndex);
          BitAtByteBits(codewords[byteIndex], bitIndex);
        }
        StreamBitAt(codewords, byteIndex, bitIndex);
        if MaskAt(mask, row, c) { dark := !dark; }
        modules := SetCell(modules, row, c, dark);
        if bitIndex == 0 {
          byteIndex' := byteIndex + 1;
          bitIndex' := 7;
        } else {
          bitIndex' := bitIndex - 1;
        }
      }
    }
  }

  // ------------------------------------------- format and version information

  /** Row of format bit i in the copy that runs along column 8. */
  function FormatRow(n: int, i: int): int {
    if i < 6 then i else if i < 8 then i + 1 else n - 15 + i
  }

  /** Column of format bit i in the copy that runs along row 8. */
  function FormatCol(n: int, i: int): int {
    if i < 8 then n - 1 - i else if i < 9 then 15 - i else 14 - i
  }

  /** The cells of both format copies and the dark module. */
  predicate FormatCell(n: int, r: int, c: int) {
    || (c == 8 && (0 <= r < 6 || r == 7 || r == 8 || n - 8 <= r < n))
    || (r == 8 && (0 <= c < 6 || c == 7 || n - 8 <= c < n))
  }

  /** The two 6 by 3 version areas. */
  predicate VersionCell(n: int, r: int, c: int) {
    || (0 <= r < 6 && n - 11 <= c < n - 8)
    || (0 <= c < 6 && n - 11 <= r < n - 8)
  }

  predicate InfoCell(n: int, version: int, r: int, c: int) {
    FormatCell(n, r, c) || (version >= 7 && VersionCell(n, r, c))
  }

  /** Both copies carry the low 15 bits of word, and the dark module is dark. */
  predicate HasFormat(g: Grid, n: nat, word: nat)
    requires Square(g, n) && n >= 21
  {
    && (forall i :: 0 <= i < 15 ==> g[FormatRow(n, i)][8] == Bit(word, i) && g[8][FormatCol(n, i)] == Bit(word, i))
    && g[n - 8][8]
  }

  /** Both version areas carry the low 18 bits of word. */
  predicate HasVersion(g: Grid, n: nat, word: nat)
    requires Square(g, n) && n >= 21
  {
    forall i :: 0 <= i < 18 ==>
      g[i / 3][i % 3 + n - 11] == Bit(word, i) && g[i % 3 + n - 11][i / 3] == Bit(word, i)
  }

  /** The format word as a reader takes it from column 8. */
  function FormatRead(g: Grid, n: nat): nat
    requires Square(g, n) && n >= 21
  {
    Value(seq(15, j requires 0 <= j < 15 => g[FormatRow(n, 14 - j)][8]))
  }

  lemma FormatReadBits(g: Grid, n: nat, i: nat)
    requires Square(g, n) && n >= 21 && i < 15
    ensures Bit(FormatRead(g, n), i) == g[FormatRow(n, i)][8]
  {
    hide Bit, Value;
    BitOfValue(seq(15, j requires 0 <= j < 15 => g[FormatRow(n, 14 - j)][8]), i);
  }

  lemma FormatReadBack(g: Grid, n: nat, word: nat)
    requires Square(g, n) && n >= 21 && word < 0x8000
    requires HasFormat(g, n, word)
    ensures FormatRead(g, n) == word
  {
    hide Value;
    assert seq(15, j requires 0 <= j < 15 => g[FormatRow(n, 14 - j)][8]) == BitsOf(word, 15) by {
      hide Bit;
    }
    Pow2Small();
    ValueOfBits(word, 15);
  }

  lemma WalkUnfold(n: nat)
    requires WalkSize(n)
    ensures Walk(n) == WalkPairs(n, (n - 1) / 2)
  {}

  lemma WalkOnGrid(n: nat)
    requires WalkSize(n)
    ensures OnGrid(Walk(n), n)
  {
    WalkVisitsOnce(n);
    forall i | 0 <= i < |Walk(n)|
      ensures Inside(n, Walk(n)[i].row, Walk(n)[i].col)
    {
      assert Walk(n)[i] in Walk(n);
    }
  }

  lemma PairInside(n: nat, p: nat, s: nat)
    requires WalkSize(n) && 2 * p < n - 1 && s < n
    ensures Inside(n, PairRow(n, p, s), PairColumn(n, p)) && Inside(n, PairRow(n, p, s), PairColumn(n, p) - 1)
  {
  }

  /** The walk one cell further. */
  lemma PairPrefix(n: nat, p: nat, s: nat, side: nat)
    requires s < n && side < 2
    ensures WalkPairs(n, p) + PairWalk(n, p)[..2 * s + side + 1]
         == WalkPairs(n, p) + PairWalk(n, p)[..2 * s + side] + [Cell(PairRow(n, p, s), PairColumn(n, p) - side)]
  {
    PairWalkAt(n, p, s, side);
    hide WalkPairs, PairWalk, PairRow, PairColumn;
    var w := PairWalk(n, p);
    assert w[..2 * s + side + 1] == w[..2 * s + side] + [w[2 * s + side]];
  }

  lemma PairWalkAt(n: nat, p: nat, s: nat, side: nat)
    requires s < n && side < 2
    ensures PairWalk(n, p)[2 * s + side] == Cell(PairRow(n, p, s), PairColumn(n, p) - side)
  {
    assert (2 * s + side) / 2 == s && (2 * s + side) % 2 == side;
  }

  lemma StreamBitAt(codewords: seq<bv8>, byteIndex: nat, bitIndex: nat)
    requires bitIndex < 8
    ensures StreamBit(codewords, 8 * byteIndex + 7 - bitIndex)
         == (byteIndex < |codewords| && ByteBits(codewords[byteIndex])[7 - bitIndex])
  {
    var k := 8 * byteIndex + 7 - bitIndex;
    assert k / 8 == byteIndex && k % 8 == 7 - bitIndex;
  }
}
