/**
  What the parity is for: a reader that takes the format bits and each block to the nearest
  codeword recovers the message from a damaged symbol, as long as no block has more wrong bytes
  than half its parity and at most three of the format bits are wrong.
 */
module ErrorCorrection {
  import opened BchWords
  import opened BinaryPolynomials
  import opened CodewordStream
  import opened Grids
  import opened QrBase
  import opened QrEncode
  import opened QrMatrix
  import opened QrTables
  import opened Wrappers
  import Bch
  import RS = ReedSolomon

  // ------------------------------------------------------------------ one block

  /** c is a codeword, and word is c but for at most n / 2 bytes. */
  ghost predicate Near(word: seq<bv8>, c: seq<bv8>, n: nat) {
    |c| == |word| && RS.IsCodeword(c, n) && 2 * |RS.Differences(word, c)| <= n
  }

  /** The codeword near word, or word itself if there is none. */
  ghost function Nearest(word: seq<bv8>, n: nat): (c: seq<bv8>)
    ensures |c| == |word|
  {
    if exists c :: Near(word, c, n) then
      var c :| Near(word, c, n);
      c
    else word
  }

  lemma NearestIs(word: seq<bv8>, c: seq<bv8>, n: nat)
    requires Near(word, c, n) && |word| <= 255
    ensures Nearest(word, n) == c
  {
    hide RS.IsCodeword;
    var d := Nearest(word, n);
    assert Near(word, d, n);
    RS.UniqueNearest(word, c, d, n);
  }

  // ------------------------------------------------------------------ the stream

  /** Block k of a stream, its data followed by its parity. */
  function Block(stream: seq<bv8>, version: int, k: nat): (block: seq<bv8>)
    requires IsVersion(version) && |stream| == TotalCodewords(RsBlocks(version))
    requires k < |VersionSpecs(version)|
    ensures |block| == VersionSpecs(version)[k].data + VersionSpecs(version)[k].ec <= 255
  {
    var specs := VersionSpecs(version);
    StreamParts(version);
    BlockLengths(version, k);
    var dataLens, ecLens := DataLens(specs), EcLens(specs);
    DeinterleavedLength(stream[..Sum(dataLens)], dataLens, k);
    DeinterleavedLength(stream[Sum(dataLens)..], ecLens, k);
    Deinterleave(stream[..Sum(dataLens)], dataLens)[k] + Deinterleave(stream[Sum(dataLens)..], ecLens)[k]
  }

  lemma StreamParts(version: int)
    requires IsVersion(version)
    ensures var specs := VersionSpecs(version);
      Sum(DataLens(specs)) + Sum(EcLens(specs)) == TotalCodewords(RsBlocks(version))
  {
    hide RsBlocks, TotalData, TotalCodewords, TotalEc, Specs, DataLens, EcLens, Sum;
    RsBlocksWellFormed(version);
    BlocksPartitionEc(RsBlocks(version));
    TotalSplits(RsBlocks(version));
  }

  lemma DeinterleavedLength(stream: seq<bv8>, lens: seq<nat>, k: nat)
    requires Sum(lens) <= |stream| && k < |lens|
    ensures |Deinterleave(stream, lens)[k]| == lens[k]
  {
  }

  lemma {:induction false} SpecsBound(groups: seq<Group>, k: nat)
    requires WellFormed(groups) && k < |Specs(groups)|
    ensures Specs(groups)[k].data + Specs(groups)[k].ec <= 255
  {
    var m := |groups| - 1;
    if k < |Specs(groups[..m])| { SpecsBound(groups[..m], k); }
  }

  lemma BlockLengths(version: int, k: nat)
    requires IsVersion(version) && k < |VersionSpecs(version)|
    ensures VersionSpecs(version)[k].data + VersionSpecs(version)[k].ec <= 255
  {
    hide RsBlocks, Specs;
    RsBlocksWellFormed(version);
    SpecsBound(RsBlocks(version), k);
  }

  /** The data of every block, corrected. */
  ghost function Corrected(stream: seq<bv8>, version: int): (blocks: seq<seq<bv8>>)
    requires IsVersion(version) && |stream| == TotalCodewords(RsBlocks(version))
    ensures |blocks| == |VersionSpecs(version)|
  {
    var specs := VersionSpecs(version);
    seq(|specs|, k requires 0 <= k < |specs| => Nearest(Block(stream, version, k), specs[k].ec)[..specs[k].data])
  }

  /** Correct every block, then read the message from the data. */
  ghost function ReadCorrected(stream: seq<bv8>, version: int): Option<seq<bv8>>
    requires IsVersion(version)
  {
    if |stream| != TotalCodewords(RsBlocks(version)) then None
    else Parse(Flatten(Corrected(stream, version)), version)
  }

  /** Every block of the stream is its block as sent but for at most half its parity. */
  ghost predicate Correctable(stream: seq<bv8>, bytes: seq<bv8>, version: int)
    requires IsVersion(version)
  {
    && |stream| == |Codewords(bytes, version)| == TotalCodewords(RsBlocks(version))
    && forall k :: 0 <= k < |VersionSpecs(version)| ==>
         2 * |RS.Differences(Block(stream, version, k), Block(Codewords(bytes, version), version, k))|
           <= VersionSpecs(version)[k].ec
  }

  /** A block of the encoder's stream is a codeword that starts with the data block. */
  lemma BlockSent(bytes: seq<bv8>, version: int, k: nat)
    requires IsVersion(version) && k < |VersionSpecs(version)|
    ensures |Codewords(bytes, version)| == TotalCodewords(RsBlocks(version)) && k < |ParityBlocks(bytes, version)|
    ensures Block(Codewords(bytes, version), version, k)
         == DataBlocks(bytes, version)[k] + ParityBlocks(bytes, version)[k]
    ensures |DataBlocks(bytes, version)[k]| == VersionSpecs(version)[k].data
  {
    hide RsBlocks, TotalCodewords, Interleave, Deinterleave, Parse, RS.Parity, VersionSpecs, Sum, DataCodewords;
    CodewordsLength(bytes, version);
    var specs, data, parity := VersionSpecs(version), DataBlocks(bytes, version), ParityBlocks(bytes, version);
    var a, b := Interleave(data), Interleave(parity);
    DataCodewordsEnough(bytes, version);
    SplitLengths(DataCodewords(bytes, version), DataLens(specs));
    assert Lengths(data) == DataLens(specs) && Lengths(parity) == EcLens(specs);
    DeinterleaveInterleave(data, []);
    DeinterleaveInterleave(parity, []);
    assert a + [] == a && b + [] == b;
    assert (a + b)[..|a|] == a && (a + b)[|a|..] == b;
    assert data[k] == Split(DataCodewords(bytes, version), DataLens(specs))[k];
  }

  /** A correctable stream is read as the message that was sent. */
  lemma StreamCorrected(stream: seq<bv8>, bytes: seq<bv8>, version: int)
    requires IsVersion(version) && Fits(|bytes|, version) && Correctable(stream, bytes, version)
    ensures ReadCorrected(stream, version) == Some(bytes)
  {
    hide RsBlocks, Parse, Flatten, Codewords, Block, Nearest, RS.Differences, RS.IsCodeword, VersionSpecs, DataBlocks,
      ParityBlocks, TotalCodewords, Fits;
    var specs := VersionSpecs(version);
    forall k | 0 <= k < |specs|
      ensures Corrected(stream, version)[k] == DataBlocks(bytes, version)[k]
    {
      var sent := Block(Codewords(bytes, version), version, k);
      BlockSent(bytes, version, k);
      BlocksAreCodewords(bytes, version, k);
      assert Near(Block(stream, version, k), sent, specs[k].ec);
      NearestIs(Block(stream, version, k), sent, specs[k].ec);
      assert sent[..specs[k].data] == DataBlocks(bytes, version)[k];
    }
    assert Corrected(stream, version) == DataBlocks(bytes, version);
    DataBlocksParse(bytes, version);
  }

  lemma DataBlocksParse(bytes: seq<bv8>, version: int)
    requires IsVersion(version) && Fits(|bytes|, version)
    ensures Parse(Flatten(DataBlocks(bytes, version)), version) == Some(bytes)
  {
    hide RsBlocks, Parse, Flatten, Split, Fits, DataCodewords, TotalData, Sum;
    var words, lens := DataCodewords(bytes, version), DataLens(VersionSpecs(version));
    DataCodewordsLength(bytes, version);
    FlattenSplit(words, lens);
    assert words[..Sum(lens)] == words;
    ParseDataCodewords(bytes, version);
  }

  // ------------------------------------------------------------------ the symbol

  /** The mask whose format word is within three bits of word, if there is one. */
  ghost function NearestMask(word: nat): (mask: Option<nat>)
    ensures mask.Some? ==> mask.value < 8
  {
    if exists m: nat :: m < 8 && NearFormat(word, m) then
      var m: nat :| m < 8 && NearFormat(word, m);
      Some(m)
    else None
  }

  ghost predicate NearFormat(word: nat, mask: nat) {
    |Differing(word, Bch.FormatWord(mask))| <= 3
  }

  lemma NearestMaskIs(word: nat, mask: nat)
    requires mask < 8 && NearFormat(word, mask)
    ensures NearestMask(word) == Some(mask)
  {
    hide Bch.FormatWord, Differing;
    var m := NearestMask(word).value;
    assert NearFormat(word, m);
    FormatNearest(word, mask, m);
  }

  /** Receive a symbol that may be damaged anywhere: the nearest format word gives the mask. */
  ghost function ReceiveDamaged(g: Grid): (r: Option<Received>)
    requires Square(g, |g|)
    ensures r.Some? ==> IsVersion(r.value.version)
  {
    if |g| < 21 || NearestMask(FormatRead(g, |g|)).None? then None
    else ReceiveMasked(g, NearestMask(FormatRead(g, |g|)).value)
  }

  ghost function ReadDamaged(g: Grid): Option<seq<bv8>>
    requires Square(g, |g|)
  {
    var r := ReceiveDamaged(g);
    if r.None? then None else ReadCorrected(r.value.stream, r.value.version)
  }

  /** The format bits whose modules differ in two grids. */
  function WrongFormat(f: Grid, g: Grid): set<nat>
    requires |g| == |f| >= 21 && Square(g, |g|) && Square(f, |f|)
  {
    set i: nat | i < 15 && g[FormatRow(|g|, i)][8] != f[FormatRow(|f|, i)][8]
  }

  lemma WrongFormatIs(f: Grid, g: Grid)
    requires |g| == |f| >= 21 && Square(g, |g|) && Square(f, |f|)
    ensures Differing(FormatRead(g, |g|), FormatRead(f, |f|)) == WrongFormat(f, g)
  {
    forall i: nat | i < 15
      ensures Bit(FormatRead(g, |g|), i) == g[FormatRow(|g|, i)][8]
      ensures Bit(FormatRead(f, |f|), i) == f[FormatRow(|f|, i)][8]
    {
      FormatReadBits(g, |g|, i);
      FormatReadBits(f, |f|, i);
    }
    hide FormatRead, Bit, FormatRow;
  }

  lemma FormatFound(bytes: seq<bv8>, version: int, mask: nat, f: Grid, g: Grid)
    requires IsVersion(version) && mask < 8 && IsFinished(bytes, version, mask, f)
    requires |g| == |f| >= 21 && Square(g, |g|) && Square(f, |f|) && |WrongFormat(f, g)| <= 3
    ensures NearestMask(FormatRead(g, |g|)) == Some(mask)
  {
    hide *;
    FinishedFormat(bytes, version, mask, f);
    Bch.FormatWordCode(mask);
    FormatReadBack(f, |f|, Bch.FormatWord(mask));
    WrongFormatIs(f, g);
    NearFormatIs(FormatRead(g, |g|), mask);
    NearestMaskIs(FormatRead(g, |g|), mask);
  }

  lemma NearFormatIs(word: nat, mask: nat)
    ensures NearFormat(word, mask) <==> |Differing(word, Bch.FormatWord(mask))| <= 3
  {
  }

  /**
    A damaged copy g of a finished symbol gives the message back if at most three of the format
    modules of one copy are wrong and each block has at most half as many wrong bytes as parity
    bytes.
   */
  lemma DamagedSymbolRead(bytes: seq<bv8>, version: int, mask: nat, f: Grid, g: Grid)
    requires IsVersion(version) && mask < 8 && Fits(|bytes|, version) && IsFinished(bytes, version, mask, f)
    requires |g| == |f| && Square(g, |g|) && |g| >= 21 && Square(f, |f|)
    requires |WrongFormat(f, g)| <= 3
    requires ReceiveDamaged(g).Some? ==> Correctable(ReceiveDamaged(g).value.stream, bytes, version)
    ensures ReadDamaged(g) == Some(bytes)
  {
    hide *;
    FinishedFormat(bytes, version, mask, f);
    FormatFound(bytes, version, mask, f, g);
    ReadFinished(bytes, version, mask, f);
    CodewordsLength(bytes, version);
    SameRoom(f, g, version, mask);
    ReceiveAt(g, version, mask);
    ReceiveDamagedIs(g, mask);
    StreamCorrected(ReceiveDamaged(g).value.stream, bytes, version);
    ReadDamagedIs(g);
  }

  lemma ReceiveDamagedIs(g: Grid, mask: nat)
    requires Square(g, |g|) && |g| >= 21 && mask < 8 && NearestMask(FormatRead(g, |g|)) == Some(mask)
    ensures ReceiveDamaged(g) == ReceiveMasked(g, mask)
  {
    hide ReceiveMasked, NearestMask, FormatRead;
  }

  lemma SameRoom(f: Grid, g: Grid, version: int, mask: nat)
    requires IsVersion(version) && mask < 8 && Square(f, SizeOf(version)) && Square(g, SizeOf(version))
    ensures |SymbolBits(f, version, mask)| == |SymbolBits(g, version, mask)|
  {
    hide FunctionGrid;
  }

  lemma ReadDamagedIs(g: Grid)
    requires Square(g, |g|) && ReceiveDamaged(g).Some?
    ensures ReadDamaged(g) == ReadCorrected(ReceiveDamaged(g).value.stream, ReceiveDamaged(g).value.version)
  {
    hide ReceiveDamaged, ReadCorrected;
  }
}
