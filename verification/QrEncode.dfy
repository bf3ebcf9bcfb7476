/**
  The whole encoder, and the theorem that a reader of the finished symbol gets the message
  back for every byte string that fits some version.
 */
module QrEncode {
  import opened BinaryPolynomials
  import opened Bytes
  import opened CodewordStream
  import opened GfTables
  import opened Grids
  import opened Placement
  import opened QrBase
  import opened QrMatrix
  import opened QrTables
  import opened Wrappers
  import Bch
  import Capacity
  import Penalty

  datatype Symbol = Symbol(version: int, size: nat, mask: nat, modules: Grid)

  /** The symbol before its format and version information is written. */
  ghost function Trial(bytes: seq<bv8>, version: int, mask: nat): (g: Grid)
    requires IsVersion(version) && mask < 8
    ensures Square(g, SizeOf(version))
  {
    WalkOnGrid(SizeOf(version));
    Placed(Skeleton(version), FunctionGrid(version), Codewords(bytes, version), mask, Walk(SizeOf(version)))
  }

  /** g is the trial symbol with the format and version information written over it. */
  ghost predicate IsFinished(bytes: seq<bv8>, version: int, mask: nat, g: Grid)
    requires IsVersion(version) && mask < 8
  {
    var n := SizeOf(version);
    && Square(g, n)
    && HasFormat(g, n, Bch.FormatWord(mask))
    && (version >= 7 ==> HasVersion(g, n, Bch.VersionWord(version)))
    && (forall r, c :: Inside(n, r, c) && !InfoCell(n, version, r, c) ==>
          g[r][c] == Trial(bytes, version, mask)[r][c])
  }

  ghost function TrialScore(bytes: seq<bv8>, version: int, mask: nat): nat
    requires IsVersion(version) && mask < 8
  {
    Penalty.Score(Trial(bytes, version, mask))
  }

  /** The first mask of least penalty. */
  ghost predicate BestMask(bytes: seq<bv8>, version: int, mask: nat)
    requires IsVersion(version)
  {
    && mask < 8
    && (forall k: nat :: k < 8 ==> TrialScore(bytes, version, mask) <= TrialScore(bytes, version, k))
    && (forall k: nat :: k < mask ==> TrialScore(bytes, version, mask) < TrialScore(bytes, version, k))
  }

  // ------------------------------------------------------------------ reading

  predicate IsSize(n: nat) {
    21 <= n <= 177 && n % 4 == 1
  }

  /** The first n bytes of a bit stream. */
  function PackFirst(bits: seq<bool>, n: nat): seq<bv8>
    requires 8 * n <= |bits|
  {
    Pack(bits[..8 * n])
  }

  /** The unmasked bits along the walk over a symbol of the given version. */
  ghost function SymbolBits(g: Grid, version: int, mask: nat): seq<bool>
    requires IsVersion(version) && Square(g, SizeOf(version)) && mask < 8
  {
    WalkOnGrid(SizeOf(version));
    ReadBits(g, FunctionGrid(version), mask, Walk(SizeOf(version)))
  }

  datatype Received = Received(version: int, stream: seq<bv8>)

  /** The codewords in a symbol whose mask is known: version from the size, then the zigzag. */
  ghost function ReceiveMasked(g: Grid, mask: nat): (r: Option<Received>)
    requires Square(g, |g|) && mask < 8
    ensures r.Some? ==> IsVersion(r.value.version)
  {
    var n := |g|;
    if !IsSize(n) then None
    else
      var version := (n - 17) / 4;
      var bits, count := SymbolBits(g, version, mask), TotalCodewords(RsBlocks(version));
      if |bits| < 8 * count then None
      else Some(Received(version, PackFirst(bits, count)))
  }

  /** The codewords in a symbol, from its modules alone: the format cells give the mask. */
  ghost function Receive(g: Grid): (r: Option<Received>)
    requires Square(g, |g|)
    ensures r.Some? ==> IsVersion(r.value.version)
  {
    if |g| < 21 then None
    else
      var format := Shr(Xor(FormatRead(g, |g|), Bch.FORMAT_MASK), 10);
      if format >= 8 then None   // not error correction level M
      else ReceiveMasked(g, format)
  }

  /** Read an undamaged symbol: its codewords, the de-interleaving and the byte-mode header. */
  ghost function ReadSymbol(g: Grid): Option<seq<bv8>>
    requires Square(g, |g|)
  {
    var r := Receive(g);
    if r.None? then None else ReadStream(r.value.stream, r.value.version)
  }

  /** Format and version information lie on function modules only. */
  lemma InfoOnFunctionModules(version: int, r: int, c: int)
    requires IsVersion(version) && Inside(SizeOf(version), r, c)
    requires InfoCell(SizeOf(version), version, r, c)
    ensures FunctionGrid(version)[r][c]
  {
    hide AlignPos, NearSome;
  }

  lemma {:induction false} UnpackIsStream(codewords: seq<bv8>, k: nat)
    requires k < 8 * |codewords|
    ensures Unpack(codewords)[k] == StreamBit(codewords, k)
    decreases |codewords|
  {
    hide ByteBits;
    var m := |codewords| - 1;
    if k < 8 * m {
      UnpackIsStream(codewords[..m], k);
      assert codewords[..m][k / 8] == codewords[k / 8];
    } else {
      assert k / 8 == m && k % 8 == k - 8 * m;
    }
  }

  /** Bits that agree with a codeword stream, read off a long enough walk, are the stream. */
  lemma BitsAreStream(bits: seq<bool>, codewords: seq<bv8>)
    requires |bits| >= 8 * |codewords|
    requires forall k :: 0 <= k < |bits| ==> bits[k] == StreamBit(codewords, k)
    ensures PackFirst(bits, |codewords|) == codewords
  {
    hide StreamBit, Pack, Unpack;
    forall k | 0 <= k < 8 * |codewords|
      ensures bits[k] == Unpack(codewords)[k]
    {
      UnpackIsStream(codewords, k);
    }
    assert bits[..8 * |codewords|] == Unpack(codewords);
    PackUnpack(codewords);
  }

  /** The walk over a finished symbol reads the codeword stream that was placed. */
  lemma ReadFinished(bytes: seq<bv8>, version: int, mask: nat, g: Grid)
    requires IsVersion(version) && mask < 8 && IsFinished(bytes, version, mask, g)
    ensures |SymbolBits(g, version, mask)| >= 8 * |Codewords(bytes, version)|
    ensures PackFirst(SymbolBits(g, version, mask), |Codewords(bytes, version)|) == Codewords(bytes, version)
  {
    hide RsBlocks, Codewords, FunctionGrid, Trial, ReadBits, Walk, StreamBit, IsFinished, Pack, FreeCount, PackFirst,
      IsFunctionCell, TotalCodewords;
    var n, fn, w := SizeOf(version), FunctionGrid(version), Walk(SizeOf(version));
    var trial := Trial(bytes, version, mask);
    WalkOnGrid(n);
    FinishedAgrees(bytes, version, mask, g);
    ReadBitsSame(g, trial, fn, mask, w);
    TrialRead(bytes, version, mask);
    CodewordsLength(bytes, version);
    FunctionGridCells(version);
    Capacity.RoomForCodewords(version, fn);
    BitsAreStream(ReadBits(g, fn, mask, w), Codewords(bytes, version));
  }

  /** Off the function modules a finished symbol is its trial symbol. */
  lemma FinishedAgrees(bytes: seq<bv8>, version: int, mask: nat, g: Grid)
    requires IsVersion(version) && mask < 8 && IsFinished(bytes, version, mask, g)
    ensures Square(g, SizeOf(version))
    ensures forall r, c :: Inside(SizeOf(version), r, c) && !FunctionGrid(version)[r][c] ==>
      g[r][c] == Trial(bytes, version, mask)[r][c]
  {
    hide Codewords, FunctionGrid, Trial, HasFormat, HasVersion, InfoCell;
    forall r, c | Inside(SizeOf(version), r, c) && !FunctionGrid(version)[r][c]
      ensures g[r][c] == Trial(bytes, version, mask)[r][c]
    {
      if InfoCell(SizeOf(version), version, r, c) {
        InfoOnFunctionModules(version, r, c);
      }
    }
  }

  lemma TrialRead(bytes: seq<bv8>, version: int, mask: nat)
    requires IsVersion(version) && mask < 8
    ensures var bits := SymbolBits(Trial(bytes, version, mask), version, mask);
      forall k :: 0 <= k < |bits| ==> bits[k] == StreamBit(Codewords(bytes, version), k)
  {
    hide Codewords, FunctionGrid, Skeleton, Placed, ReadBits, Walk, StreamBit;
    WalkOnGrid(SizeOf(version));
    WalkVisitsOnce(SizeOf(version));
    ReadPlaced(Skeleton(version), FunctionGrid(version), Codewords(bytes, version), mask, Walk(SizeOf(version)));
  }

  lemma FunctionGridCells(version: int)
    requires IsVersion(version)
    ensures forall r, c :: Inside(SizeOf(version), r, c) ==> FunctionGrid(version)[r][c] == IsFunctionCell(version,
        r, c)
  {
    hide IsFunctionCell;
  }

  lemma FormatReveals(bytes: seq<bv8>, version: int, mask: nat, g: Grid)
    requires IsVersion(version) && mask < 8 && IsFinished(bytes, version, mask, g)
    ensures Shr(Xor(FormatRead(g, |g|), Bch.FORMAT_MASK), 10) == mask
  {
    hide *;
    FinishedFormat(bytes, version, mask, g);
    Bch.FormatWordCode(mask);
    FormatReadBack(g, |g|, Bch.FormatWord(mask));
  }

  lemma FinishedFormat(bytes: seq<bv8>, version: int, mask: nat, g: Grid)
    requires IsVersion(version) && mask < 8 && IsFinished(bytes, version, mask, g)
    ensures |g| == SizeOf(version) >= 21 && Square(g, |g|)
    ensures HasFormat(g, |g|, Bch.FormatWord(mask))
  {
    hide HasFormat, HasVersion, Trial, Bch.FormatWord, Bch.VersionWord, InfoCell;
  }

  /** End to end: reading a finished symbol returns the message it was made from. */
  lemma ReadSymbolRoundTrip(bytes: seq<bv8>, version: int, mask: nat, g: Grid)
    requires IsVersion(version) && mask < 8 && Fits(|bytes|, version)
    requires IsFinished(bytes, version, mask, g)
    ensures Square(g, |g|) && ReadSymbol(g) == Some(bytes)
  {
    hide *;
    FinishedFormat(bytes, version, mask, g);
    FormatReveals(bytes, version, mask, g);
    ReadFinished(bytes, version, mask, g);
    CodewordsLength(bytes, version);
    ReceiveAt(g, version, mask);
    ReceiveIs(g, mask);
    ReadReceived(g);
    ReadStreamRoundTrip(bytes, version, []);
    assert Codewords(bytes, version) + [] == Codewords(bytes, version);
  }

  lemma ReadReceived(g: Grid)
    requires Square(g, |g|) && Receive(g).Some?
    ensures ReadSymbol(g) == ReadStream(Receive(g).value.stream, Receive(g).value.version)
  {
    hide Receive, ReadStream;
  }

  lemma ReceiveAt(g: Grid, version: int, mask: nat)
    requires IsVersion(version) && mask < 8 && Square(g, |g|) && |g| == SizeOf(version)
    requires |SymbolBits(g, version, mask)| >= 8 * TotalCodewords(RsBlocks(version))
    ensures ReceiveMasked(g, mask)
         == Some(Received(version, PackFirst(SymbolBits(g, version, mask), TotalCodewords(RsBlocks(version)))))
  {
    hide SymbolBits, PackFirst, RsBlocks, TotalCodewords;
  }

  lemma ReceiveIs(g: Grid, mask: nat)
    requires Square(g, |g|) && |g| >= 21 && mask < 8
    requires Shr(Xor(FormatRead(g, |g|), Bch.FORMAT_MASK), 10) == mask
    ensures Receive(g) == ReceiveMasked(g, mask)
  {
    hide ReceiveMasked, FormatRead, Xor, Shr;
  }

  // ----------------------------------------------------------------- encoding

  method TrialMatrix(version: int, bytes: seq<bv8>, codewords: seq<bv8>, mask: nat) returns (m: Matrix)
    requires IsVersion(version) && mask < 8 && codewords == Codewords(bytes, version)
    ensures fresh(m) && m.Valid() && m.size == SizeOf(version)
    ensures m.modules == Trial(bytes, version, mask)
  {
    hide Codewords, FunctionGrid, Skeleton, Placed, Walk;
    m := BaseMatrix(version);
    m.PlaceData(codewords, mask);
  }

  /** The penalty of one trial matrix. */
  method ScoreMask(version: int, bytes: seq<bv8>, codewords: seq<bv8>, mask: nat) returns (p: nat)
    requires IsVersion(version) && mask < 8 && codewords == Codewords(bytes, version)
    ensures p == TrialScore(bytes, version, mask)
  {
    hide Codewords, Trial, Penalty.Score;
    var trial := TrialMatrix(version, bytes, codewords, mask);
    p := Penalty.ComputePenalty(trial.modules);
  }

  method ChooseMask(version: int, bytes: seq<bv8>, codewords: seq<bv8>) returns (mask: nat)
    requires IsVersion(version) && codewords == Codewords(bytes, version)
    ensures BestMask(bytes, version, mask)
  {
    hide Codewords, Trial, TrialScore;
    mask := 0;
    var best := 0;   // read only once m > 0: stands for the source's Infinity
    for m := 0 to 8
      invariant m > 0 ==> mask < m && best == TrialScore(bytes, version, mask)
      invariant forall k: nat :: k < m ==> best <= TrialScore(bytes, version, k)
      invariant forall k: nat :: m > 0 && k < mask ==> best < TrialScore(bytes, version, k)
    {
      var p := ScoreMask(version, bytes, codewords, m);
      if m == 0 || p < best {
        best := p;
        mask := m;
      }
    }
  }

  /**
    Encode a byte string in the least version that fits, with the forced mask or the best one.
    The reader gets the message back from the modules alone.
   */
  method Encode(t: Tables, bytes: seq<bv8>, forcedMask: Option<nat>) returns (symbol: Option<Symbol>)
    requires t.Valid()
    requires forcedMask.Some? ==> forcedMask.value < 8
    ensures symbol.None? <==> forall v :: IsVersion(v) ==> !Fits(|bytes|, v)
    ensures symbol.Some? ==>
      var s := symbol.value;
      && IsVersion(s.version) && Fits(|bytes|, s.version)
      && (forall v :: 1 <= v < s.version ==> !Fits(|bytes|, v))
      && s.size == SizeOf(s.version)
      && s.mask < 8 && (if forcedMask.Some? then s.mask == forcedMask.value else BestMask(bytes, s.version, s.mask))
      && IsFinished(bytes, s.version, s.mask, s.modules)
    ensures symbol.Some? ==>
      Square(symbol.value.modules, |symbol.value.modules|) && ReadSymbol(symbol.value.modules) == Some(bytes)
  {
    hide Fits, Codewords, BestMask, Trial, ReadSymbol, HasFormat, HasVersion, Bch.FormatWord, Bch.VersionWord, InfoCell;
    var version := PickVersion(|bytes|);
    if version.None? {
      return None;
    }
    var v := version.value;
    var codewords := BuildCodewords(t, bytes, v);
    var mask;
    if forcedMask.Some? {
      mask := forcedMask.value;
    } else {
      mask := ChooseMask(v, bytes, codewords);
      BestMaskRange(bytes, v, mask);
    }
    var matrix := TrialMatrix(v, bytes, codewords, mask);
    matrix.WriteFormatAndVersion(v, mask);
    ReadSymbolRoundTrip(bytes, v, mask, matrix.modules);
    symbol := Some(Symbol(v, matrix.size, mask, matrix.modules));
  }

  lemma BestMaskRange(bytes: seq<bv8>, version: int, mask: nat)
    requires IsVersion(version) && BestMask(bytes, version, mask)
    ensures mask < 8
  {}
}
