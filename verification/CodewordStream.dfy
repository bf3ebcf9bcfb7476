/**
  From message bytes to the interleaved codeword stream, and the reader that undoes it.
 */
module CodewordStream {
  import opened BinaryPolynomials
  import opened Bytes
  import opened GfTables
  import opened QrTables
  import opened Wrappers
  import RS = ReedSolomon

  // ----------------------------------------------------------- bytes and bits

  /** All bits of a byte string, most significant first. */
  function Unpack(bytes: seq<bv8>): (bits: seq<bool>)
    ensures |bits| == 8 * |bytes|
  {
    if bytes == [] then [] else Unpack(bytes[..|bytes| - 1]) + ByteBits(bytes[|bytes| - 1])
  }

  function Pack(bits: seq<bool>): (bytes: seq<bv8>)
    requires |bits| % 8 == 0
    ensures 8 * |bytes| == |bits|
  {
    if bits == [] then []
    else Pack(bits[..|bits| - 8]) + [PackByte(bits[|bits| - 8..])]
  }

  lemma {:induction false} UnpackPack(bits: seq<bool>)
    requires |bits| % 8 == 0
    ensures Unpack(Pack(bits)) == bits
  {
    hide PackByte, ByteBits;
    if bits != [] {
      var init, last := bits[..|bits| - 8], bits[|bits| - 8..];
      UnpackPack(init);
      ByteBitsPack(last);
      assert bits == init + last;
    }
  }

  lemma {:induction false} PackUnpack(bytes: seq<bv8>)
    ensures Pack(Unpack(bytes)) == bytes
  {
    hide PackByte, ByteBits;
    if bytes != [] {
      var init, last := bytes[..|bytes| - 1], bytes[|bytes| - 1];
      PackUnpack(init);
      PackByteBits(last);
      var bits := Unpack(bytes);
      assert bits[..|bits| - 8] == Unpack(init) && bits[|bits| - 8..] == ByteBits(last);
    }
  }

  lemma {:induction false} UnpackConcat(a: seq<bv8>, b: seq<bv8>)
    ensures Unpack(a + b) == Unpack(a) + Unpack(b)
    decreases |b|
  {
    if b == [] {
      assert a + b == a;
    } else {
      var init := b[..|b| - 1];
      UnpackConcat(a, init);
      hide ByteBits;
      var whole := a + b;
      assert whole[..|whole| - 1] == a + init && whole[|whole| - 1] == b[|b| - 1];
      assert Unpack(whole) == Unpack(a + init) + ByteBits(b[|b| - 1]);
    }
  }

  // ------------------------------------------------------------- the bit stream

  function TotalData(groups: seq<Group>): nat {
    if groups == [] then 0
    else
      var g := groups[|groups| - 1];
      TotalData(groups[..|groups| - 1]) + g.count * g.data
  }

  function TotalCodewords(groups: seq<Group>): nat {
    if groups == [] then 0
    else
      var g := groups[|groups| - 1];
      TotalCodewords(groups[..|groups| - 1]) + g.count * g.total
  }

  function DataCount(version: int): nat
    requires IsVersion(version)
  {
    TotalData(RsBlocks(version))
  }

  /** The width of the byte count field. */
  function CountWidth(version: int): nat {
    if version < 10 then 8 else 16
  }

  predicate Fits(byteLength: nat, version: int)
    requires IsVersion(version)
  {
    4 + CountWidth(version) + 8 * byteLength <= DataCount(version) * 8
  }

  function Header(byteLength: nat, version: int): seq<bool> {
    BitsOf(4, 4) + BitsOf(byteLength, CountWidth(version))
  }

  /** The padding codewords, 0xEC and 0x11 alternating. */
  function Fill(n: nat): (f: seq<bv8>)
    ensures |f| == n
  {
    seq(n, i => if i % 2 == 0 then 0xec else 0x11)
  }

  function Min(a: int, b: int): int { if a < b then a else b }

  function ZeroBits(n: int): seq<bool> {
    if n <= 0 then [] else BitsOf(0, n)
  }

  /** The terminator and the bits that complete the last byte. */
  function Terminated(bits: seq<bool>, dataCount: nat): (r: seq<bool>)
    ensures |r| % 8 == 0 && bits <= r
  {
    var closed := bits + ZeroBits(Min(4, dataCount * 8 - |bits|));
    if |closed| % 8 == 0 then closed else closed + ZeroBits(8 - |closed| % 8)
  }

  function DataCodewords(bytes: seq<bv8>, version: int): seq<bv8>
    requires IsVersion(version)
  {
    var words := Pack(Terminated(Header(|bytes|, version) + Unpack(bytes), DataCount(version)));
    if |words| < DataCount(version) then words + Fill(DataCount(version) - |words|) else words
  }

  /** The count bytes that start at a position of a bit list. */
  function PackAt(bits: seq<bool>, start: nat, count: nat): seq<bv8>
    requires start + 8 * count <= |bits|
  {
    var body := bits[start..start + 8 * count];
    assert |body| == 8 * count;
    Pack(body)
  }

  /** Read mode, count and bytes back from the data codewords. */
  function Parse(words: seq<bv8>, version: int): Option<seq<bv8>> {
    var bits, start := Unpack(words), 4 + CountWidth(version);
    if |bits| < start || Value(bits[..4]) != 4 then None
    else
      var count := Value(bits[4..start]);
      if |bits| < start + 8 * count then None
      else Some(PackAt(bits, start, count))
  }

  lemma DataCountBound(version: int)
    requires IsVersion(version)
    ensures DataCount(version) <= if version < 10 then 182 else 2334
  {
    hide RsBlocks;
    var groups := RsBlocks(version);
    RsBlocksShape(version);
    assert TotalData(groups[..1]) == groups[0].count * groups[0].data by { assert groups[..1][..0] == []; }
  }

  /** The tables keep the byte count inside its field: 8 bits below version 10, else 16. */
  lemma CountFieldSuffices(byteLength: nat, version: int)
    requires IsVersion(version) && Fits(byteLength, version)
    ensures byteLength < Pow2(CountWidth(version))
  {
    Pow2Small();
    DataCountBound(version);
  }

  /** A message yields exactly the version's number of data codewords if and only if it fits. */
  lemma DataCodewordsLength(bytes: seq<bv8>, version: int)
    requires IsVersion(version)
    ensures |DataCodewords(bytes, version)| == DataCount(version) <==> Fits(|bytes|, version)
  {
    hide RsBlocks, TotalData;
    hide Unpack, BitsOf, Pack;
    var n := DataCount(version);
    var bits := Header(|bytes|, version) + Unpack(bytes);
    var closed := bits + ZeroBits(Min(4, n * 8 - |bits|));
    if Fits(|bytes|, version) {
      assert |closed| <= n * 8;
      assert |Terminated(bits, n)| <= n * 8;
    } else {
      assert |Terminated(bits, n)| >= |bits| > n * 8;
    }
  }

  lemma ParsePrefix(words: seq<bv8>, bytes: seq<bv8>, version: int)
    requires Header(|bytes|, version) + Unpack(bytes) <= Unpack(words)
    requires |bytes| < Pow2(CountWidth(version))
    ensures Parse(words, version) == Some(bytes)
  {
    hide Value, BitsOf, Pow2, Unpack, Pack;
    var all, width := Unpack(words), CountWidth(version);
    var mode, count, payload := BitsOf(4, 4), BitsOf(|bytes|, width), Unpack(bytes);
    var bits := Header(|bytes|, version) + payload;
    assert bits == all[..|bits|];
    assert all[..4] == bits[..4] == mode;
    assert all[4..4 + width] == bits[4..4 + width] == count;
    Pow2Small();
    ValueOfBits(4, 4);
    ValueOfBits(|bytes|, width);
    assert all[4 + width..4 + width + 8 * |bytes|] == bits[4 + width..] == payload;
    PackUnpack(bytes);
  }

  /** Parsing the padded stream of a message that fits returns the message. */
  lemma ParseDataCodewords(bytes: seq<bv8>, version: int)
    requires IsVersion(version) && Fits(|bytes|, version)
    ensures Parse(DataCodewords(bytes, version), version) == Some(bytes)
  {
    hide RsBlocks, TotalData, Value, BitsOf, Pow2, Terminated, Unpack, Pack;
    var n := DataCount(version);
    var closed := Terminated(Header(|bytes|, version) + Unpack(bytes), n);
    var words := Pack(closed);
    UnpackPack(closed);
    if |words| < n {
      UnpackConcat(words, Fill(n - |words|));
    }
    CountFieldSuffices(|bytes|, version);
    ParsePrefix(DataCodewords(bytes, version), bytes, version);
  }

  // ---------------------------------------------------------- blocks, interleaving

  /** Data and parity lengths of the blocks, group by group. */
  datatype Spec = Spec(data: nat, ec: nat)

  function Repeat(s: Spec, n: nat): (specs: seq<Spec>)
    ensures |specs| == n
  {
    seq(n, i => s)
  }

  predicate WellFormed(groups: seq<Group>) {
    forall g :: g in groups ==> g.data < g.total <= 255
  }

  function SpecOf(g: Group): Spec
    requires g.data < g.total
  {
    Spec(g.data, g.total - g.data)
  }

  function Specs(groups: seq<Group>): (specs: seq<Spec>)
    requires WellFormed(groups)
    ensures forall k :: 0 <= k < |specs| ==> 1 <= specs[k].ec <= 255
  {
    if groups == [] then []
    else
      var g := groups[|groups| - 1];
      Specs(groups[..|groups| - 1]) + Repeat(SpecOf(g), g.count)
  }

  function DataLens(specs: seq<Spec>): (lens: seq<nat>)
    ensures |lens| == |specs|
  {
    seq(|specs|, k requires 0 <= k < |specs| => specs[k].data)
  }

  function Sum(lens: seq<nat>): nat {
    if lens == [] then 0 else Sum(lens[..|lens| - 1]) + lens[|lens| - 1]
  }

  function Max(lens: seq<nat>): (m: nat)
    ensures forall i :: 0 <= i < |lens| ==> lens[i] <= m
  {
    if lens == [] then 0
    else
      var m := Max(lens[..|lens| - 1]);
      if m < lens[|lens| - 1] then lens[|lens| - 1] else m
  }

  function Lengths<T>(blocks: seq<seq<T>>): (lens: seq<nat>)
    ensures |lens| == |blocks|
  {
    seq(|blocks|, k requires 0 <= k < |blocks| => |blocks[k]|)
  }

  /** The i-th elements of the blocks that have one. */
  function Column<T>(blocks: seq<seq<T>>, i: nat): seq<T> {
    if blocks == [] then []
    else
      var last := blocks[|blocks| - 1];
      Column(blocks[..|blocks| - 1], i) + (if i < |last| then [last[i]] else [])
  }

  /** The first n columns, one after the other. */
  function Columns<T>(blocks: seq<seq<T>>, n: nat): seq<T> {
    if n == 0 then [] else Columns(blocks, n - 1) + Column(blocks, n - 1)
  }

  function Interleave<T>(blocks: seq<seq<T>>): seq<T> {
    Columns(blocks, Max(Lengths(blocks)))
  }

  /** How many of the first k lengths exceed i. */
  function Rank(lens: seq<nat>, k: nat, i: nat): nat
    requires k <= |lens|
  {
    if k == 0 then 0 else Rank(lens, k - 1, i) + (if i < lens[k - 1] then 1 else 0)
  }

  /** The total size of the first i columns. */
  function Before(lens: seq<nat>, i: nat): nat {
    if i == 0 then 0 else Before(lens, i - 1) + Rank(lens, |lens|, i - 1)
  }

  /** Where the interleaved stream holds element i of block k. */
  function Position(lens: seq<nat>, k: nat, i: nat): nat
    requires k < |lens|
  {
    Before(lens, i) + Rank(lens, k, i)
  }

  /** Collect the blocks of the given lengths from an interleaved stream. */
  function Deinterleave<T>(stream: seq<T>, lens: seq<nat>): (blocks: seq<seq<T>>)
    requires Sum(lens) <= |stream|
    ensures |blocks| == |lens|
  {
    seq(|lens|, k requires 0 <= k < |lens| =>
      seq(lens[k], i requires 0 <= i < lens[k] =>
        PositionBound(lens, k, i); stream[Position(lens, k, i)]))
  }

  lemma PositionBound(lens: seq<nat>, k: nat, i: nat)
    requires k < |lens| && i < lens[k]
    ensures Position(lens, k, i) < Sum(lens)
  {
    var blank := seq(|lens|, j requires 0 <= j < |lens| => seq(lens[j], x => 0));
    assert Lengths(blank) == lens;
    ColumnsElements(blank, Max(lens), k, i);
    InterleaveLength(blank);
  }

  lemma {:induction false} RankPrefix(lens: seq<nat>, m: nat, k: nat, i: nat)
    requires k <= m <= |lens|
    ensures Rank(lens[..m], k, i) == Rank(lens, k, i)
  {
    if k > 0 {
      RankPrefix(lens, m, k - 1, i);
    }
  }

  lemma {:induction false} ColumnLength<T>(blocks: seq<seq<T>>, i: nat)
    ensures |Column(blocks, i)| == Rank(Lengths(blocks), |blocks|, i)
  {
    if blocks != [] {
      var m := |blocks| - 1;
      ColumnLength(blocks[..m], i);
      assert Lengths(blocks)[..m] == Lengths(blocks[..m]);
      RankPrefix(Lengths(blocks), m, m, i);
    }
  }

  lemma {:induction false} ColumnElement<T>(blocks: seq<seq<T>>, k: nat, i: nat)
    requires k < |blocks| && i < |blocks[k]|
    ensures Rank(Lengths(blocks), k, i) < |Column(blocks, i)|
    ensures Column(blocks, i)[Rank(Lengths(blocks), k, i)] == blocks[k][i]
  {
    var m := |blocks| - 1;
    var init := blocks[..m];
    assert Lengths(blocks)[..m] == Lengths(init);
    RankPrefix(Lengths(blocks), m, k, i);
    if k < m {
      ColumnElement(init, k, i);
    } else {
      ColumnLength(init, i);
    }
  }

  lemma ConcatAt<T>(a: seq<T>, b: seq<T>, j: nat)
    ensures j < |a| ==> (a + b)[j] == a[j]
    ensures j < |b| ==> (a + b)[|a| + j] == b[j]
  {}

  lemma ColumnsUnfold<T>(blocks: seq<seq<T>>, n: nat)
    requires n > 0
    ensures Columns(blocks, n) == Columns(blocks, n - 1) + Column(blocks, n - 1)
  {}

  lemma {:induction false} ColumnsElements<T>(blocks: seq<seq<T>>, n: nat, k: nat, i: nat)
    requires k < |blocks| && i < |blocks[k]| && i < n
    ensures Position(Lengths(blocks), k, i) < |Columns(blocks, n)|
    ensures Columns(blocks, n)[Position(Lengths(blocks), k, i)] == blocks[k][i]
    decreases n
  {
    hide Columns, Column, Rank, Before, Lengths;
    var head, tail, p := Columns(blocks, n - 1), Column(blocks, n - 1), Position(Lengths(blocks), k, i);
    ColumnsUnfold(blocks, n);
    if i == n - 1 {
      ColumnsLength(blocks, n - 1);
      ColumnElement(blocks, k, i);
      ConcatAt(head, tail, Rank(Lengths(blocks), k, i));
    } else {
      ColumnsElements(blocks, n - 1, k, i);
      ConcatAt(head, tail, p);
    }
  }

  lemma {:induction false} ColumnsLength<T>(blocks: seq<seq<T>>, n: nat)
    ensures |Columns(blocks, n)| == Before(Lengths(blocks), n)
  {
    hide Column, Rank;
    if n > 0 {
      ColumnsLength(blocks, n - 1);
      ColumnLength(blocks, n - 1);
    }
  }

  /** Interleaving ragged blocks loses nothing: every element is where Deinterleave looks. */
  lemma DeinterleaveInterleave<T>(blocks: seq<seq<T>>, rest: seq<T>)
    ensures |Interleave(blocks)| == Sum(Lengths(blocks))
    ensures Deinterleave(Interleave(blocks) + rest, Lengths(blocks)) == blocks
  {
    InterleaveLength(blocks);
    var lens, stream := Lengths(blocks), Interleave(blocks) + rest;
    forall k, i | 0 <= k < |blocks| && 0 <= i < lens[k]
      ensures Position(lens, k, i) < |stream| && stream[Position(lens, k, i)] == blocks[k][i]
    {
      ColumnsElements(blocks, Max(lens), k, i);
    }
    var out := Deinterleave(stream, lens);
    forall k | 0 <= k < |blocks|
      ensures out[k] == blocks[k]
    {
      assert |out[k]| == |blocks[k]|;
    }
  }

  lemma {:induction false} BeforeIsCappedSum(lens: seq<nat>, n: nat)
    ensures Before(lens, n) == Sum(Capped(lens, n))
  {
    if n == 0 {
      SumZero(Capped(lens, 0));
    } else {
      BeforeIsCappedSum(lens, n - 1);
      SumCapped(lens, n);
    }
  }

  /** The interleaved stream is as long as the blocks together. */
  lemma InterleaveLength<T>(blocks: seq<seq<T>>)
    ensures |Interleave(blocks)| == Sum(Lengths(blocks))
  {
    var lens := Lengths(blocks);
    ColumnsLength(blocks, Max(lens));
    BeforeIsCappedSum(lens, Max(lens));
    assert Capped(lens, Max(lens)) == lens;
  }

  lemma {:induction false} SumZero(lens: seq<nat>)
    requires forall i :: 0 <= i < |lens| ==> lens[i] == 0
    ensures Sum(lens) == 0
  {
    if lens != [] {
      SumZero(lens[..|lens| - 1]);
    }
  }

  function Capped(lens: seq<nat>, n: nat): (c: seq<nat>)
    ensures |c| == |lens|
  {
    seq(|lens|, j requires 0 <= j < |lens| => Min(lens[j], n) as nat)
  }

  lemma {:induction false} SumCapped(lens: seq<nat>, n: nat)
    requires n > 0
    ensures Sum(Capped(lens, n)) == Sum(Capped(lens, n - 1)) + Rank(lens, |lens|, n - 1)
  {
    if lens != [] {
      var m := |lens| - 1;
      SumCapped(lens[..m], n);
      RankPrefix(lens, m, m, n - 1);
      assert Capped(lens, n)[..m] == Capped(lens[..m], n);
      assert Capped(lens, n - 1)[..m] == Capped(lens[..m], n - 1);
    }
  }

  // ------------------------------------------------------------ splitting, parity

  lemma {:induction false} SumConcat(a: seq<nat>, b: seq<nat>)
    ensures Sum(a + b) == Sum(a) + Sum(b)
    decreases |b|
  {
    if b == [] {
      assert a + b == a;
    } else {
      assert (a + b)[..|a + b| - 1] == a + b[..|b| - 1];
      SumConcat(a, b[..|b| - 1]);
    }
  }

  lemma {:induction false} SumRepeat(s: Spec, n: nat)
    ensures Sum(DataLens(Repeat(s, n))) == n * s.data
  {
    if n > 0 {
      SumRepeat(s, n - 1);
      assert DataLens(Repeat(s, n))[..n - 1] == DataLens(Repeat(s, n - 1));
    }
  }

  /** The blocks take exactly the version's data codewords. */
  lemma {:induction false} BlocksPartitionData(groups: seq<Group>)
    requires WellFormed(groups)
    ensures Sum(DataLens(Specs(groups))) == TotalData(groups)
  {
    if groups != [] {
      var m := |groups| - 1;
      var init, g := Specs(groups[..m]), groups[m];
      BlocksPartitionData(groups[..m]);
      var run := Repeat(SpecOf(g), g.count);
      assert DataLens(init + run) == DataLens(init) + DataLens(run);
      SumConcat(DataLens(init), DataLens(run));
      SumRepeat(SpecOf(g), g.count);
    }
  }

  /** Consecutive pieces of the given lengths. */
  function Split<T>(data: seq<T>, lens: seq<nat>): (blocks: seq<seq<T>>)
    requires Sum(lens) <= |data|
    ensures |blocks| == |lens|
  {
    if lens == [] then []
    else
      var m := |lens| - 1;
      Split(data, lens[..m]) + [data[Sum(lens[..m])..Sum(lens)]]
  }

  function Flatten<T>(blocks: seq<seq<T>>): seq<T> {
    if blocks == [] then [] else Flatten(blocks[..|blocks| - 1]) + blocks[|blocks| - 1]
  }

  lemma {:induction false} SplitLengths<T>(data: seq<T>, lens: seq<nat>)
    requires Sum(lens) <= |data|
    ensures Lengths(Split(data, lens)) == lens
  {
    if lens != [] {
      var m := |lens| - 1;
      SplitLengths(data, lens[..m]);
      var blocks := Split(data, lens);
      assert lens == lens[..m] + [lens[m]];
      assert Lengths(blocks) == Lengths(Split(data, lens[..m])) + [|blocks[m]|];
    }
  }

  lemma {:induction false} FlattenSplit<T>(data: seq<T>, lens: seq<nat>)
    requires Sum(lens) <= |data|
    ensures Flatten(Split(data, lens)) == data[..Sum(lens)]
  {
    if lens != [] {
      var m := |lens| - 1;
      FlattenSplit(data, lens[..m]);
      var blocks := Split(data, lens);
      assert blocks[..m] == Split(data, lens[..m]);
    }
  }

  function EcBlocks(blocks: seq<seq<bv8>>, specs: seq<Spec>): (ec: seq<seq<bv8>>)
    requires |blocks| == |specs|
    requires forall k :: 0 <= k < |specs| ==> specs[k].ec >= 1
    ensures |ec| == |blocks|
  {
    seq(|blocks|, k requires 0 <= k < |blocks| => RS.Parity(blocks[k], specs[k].ec))
  }

  lemma RsBlocksWellFormed(version: int)
    requires IsVersion(version)
    ensures WellFormed(RsBlocks(version))
    ensures RsBlocks(version) != []
  {
    hide RsBlocks;
    RsBlocksShape(version);
  }

  function VersionSpecs(version: int): (specs: seq<Spec>)
    requires IsVersion(version)
    ensures Sum(DataLens(specs)) == DataCount(version)
    ensures forall k :: 0 <= k < |specs| ==> 1 <= specs[k].ec <= 255
  {
    RsBlocksWellFormed(version);
    BlocksPartitionData(RsBlocks(version));
    Specs(RsBlocks(version))
  }

  lemma DataCodewordsEnough(bytes: seq<bv8>, version: int)
    requires IsVersion(version)
    ensures |DataCodewords(bytes, version)| >= DataCount(version)
  {
    hide RsBlocks, TotalData;
  }

  function DataBlocks(bytes: seq<bv8>, version: int): (blocks: seq<seq<bv8>>)
    requires IsVersion(version)
    ensures |blocks| == |VersionSpecs(version)|
  {
    DataCodewordsEnough(bytes, version);
    Split(DataCodewords(bytes, version), DataLens(VersionSpecs(version)))
  }

  function ParityBlocks(bytes: seq<bv8>, version: int): seq<seq<bv8>>
    requires IsVersion(version)
  {
    EcBlocks(DataBlocks(bytes, version), VersionSpecs(version))
  }

  /** The codeword stream of the encoder: data columns, then parity columns. */
  function Codewords(bytes: seq<bv8>, version: int): seq<bv8>
    requires IsVersion(version)
  {
    Interleave(DataBlocks(bytes, version)) + Interleave(ParityBlocks(bytes, version))
  }

  /** De-interleave the data blocks of a codeword stream and parse their contents. */
  function ReadStream(stream: seq<bv8>, version: int): Option<seq<bv8>>
    requires IsVersion(version)
  {
    var lens := DataLens(VersionSpecs(version));
    if |stream| < Sum(lens) then None
    else Parse(Flatten(Deinterleave(stream, lens)), version)
  }

  /** The reader recovers every message that fits, whatever follows the data columns. */
  lemma ReadStreamRoundTrip(bytes: seq<bv8>, version: int, rest: seq<bv8>)
    requires IsVersion(version) && Fits(|bytes|, version)
    ensures ReadStream(Codewords(bytes, version) + rest, version) == Some(bytes)
  {
    hide RsBlocks, TotalData, Parse, Interleave, Deinterleave, Split, EcBlocks, Specs, Terminated;
    var words, lens := DataCodewords(bytes, version), DataLens(VersionSpecs(version));
    var blocks := DataBlocks(bytes, version);
    DataCodewordsLength(bytes, version);
    assert blocks == Split(words, lens);
    FlattenSplit(words, lens);
    SplitLengths(words, lens);
    var suffix := Interleave(ParityBlocks(bytes, version)) + rest;
    assert Codewords(bytes, version) + rest == Interleave(blocks) + suffix;
    DeinterleaveInterleave(blocks, suffix);
    assert words[..Sum(lens)] == words;
    ParseDataCodewords(bytes, version);
  }

  /** Every block of the stream, data followed by parity, is a Reed-Solomon codeword. */
  lemma BlocksAreCodewords(bytes: seq<bv8>, version: int, k: nat)
    requires IsVersion(version) && k < |VersionSpecs(version)|
    ensures var block := DataBlocks(bytes, version)[k] + ParityBlocks(bytes, version)[k];
            RS.IsCodeword(block, VersionSpecs(version)[k].ec)
  {
    hide RsBlocks, TotalData, DataBlocks, VersionSpecs;
    RS.ParityMakesCodeword(DataBlocks(bytes, version)[k], VersionSpecs(version)[k].ec);
  }

  function EcLens(specs: seq<Spec>): (lens: seq<nat>)
    ensures |lens| == |specs|
  {
    seq(|specs|, k requires 0 <= k < |specs| => specs[k].ec)
  }

  lemma {:induction false} SumRepeatEc(s: Spec, n: nat)
    ensures Sum(EcLens(Repeat(s, n))) == n * s.ec
  {
    if n > 0 {
      SumRepeatEc(s, n - 1);
      assert EcLens(Repeat(s, n))[..n - 1] == EcLens(Repeat(s, n - 1));
    }
  }

  function TotalEc(groups: seq<Group>): nat
    requires WellFormed(groups)
  {
    if groups == [] then 0
    else
      var g := groups[|groups| - 1];
      TotalEc(groups[..|groups| - 1]) + g.count * SpecOf(g).ec
  }

  lemma {:induction false} BlocksPartitionEc(groups: seq<Group>)
    requires WellFormed(groups)
    ensures Sum(EcLens(Specs(groups))) == TotalEc(groups)
  {
    if groups != [] {
      var m := |groups| - 1;
      var init, g := Specs(groups[..m]), groups[m];
      BlocksPartitionEc(groups[..m]);
      var run := Repeat(SpecOf(g), g.count);
      assert EcLens(init + run) == EcLens(init) + EcLens(run);
      SumConcat(EcLens(init), EcLens(run));
      SumRepeatEc(SpecOf(g), g.count);
    }
  }

  lemma {:induction false} TotalSplits(groups: seq<Group>)
    requires WellFormed(groups)
    ensures TotalCodewords(groups) == TotalData(groups) + TotalEc(groups)
  {
    if groups != [] {
      var g := groups[|groups| - 1];
      TotalSplits(groups[..|groups| - 1]);
      SplitProduct(g.count, g.data, g.total - g.data);
    }
  }

  lemma SplitProduct(n: nat, a: nat, b: nat)
    ensures n * (a + b) == n * a + n * b
  {}

  /** The stream holds all codewords of the version. */
  lemma CodewordsLength(bytes: seq<bv8>, version: int)
    requires IsVersion(version)
    ensures |Codewords(bytes, version)| == TotalCodewords(RsBlocks(version))
  {
    hide RsBlocks, TotalData, TotalCodewords, TotalEc, DataCodewords, Interleave, RS.Parity, Specs;
    RsBlocksWellFormed(version);
    BlocksPartitionEc(RsBlocks(version));
    TotalSplits(RsBlocks(version));
    var specs, blocks := VersionSpecs(version), DataBlocks(bytes, version);
    DataCodewordsEnough(bytes, version);
    SplitLengths(DataCodewords(bytes, version), DataLens(specs));
    InterleaveLength(blocks);
    assert Lengths(ParityBlocks(bytes, version)) == EcLens(specs);
    InterleaveLength(ParityBlocks(bytes, version));
  }

  // ------------------------------------------------- the encoder's own loops

  /** Append the low count bits of value; a count of zero or less appends nothing. */
  method PutBits(bits: seq<bool>, value: nat, count: int) returns (out: seq<bool>)
    ensures out == if count <= 0 then bits else bits + BitsOf(value, count)
  {
    out := bits;
    var i := count - 1;
    while i >= 0
      invariant count > 0 ==> -1 <= i < count && out == bits + BitsOf(value, count)[..count - 1 - i]
      invariant count <= 0 ==> i < 0 && out == bits
    {
      out := out + [Bit(value, i)];
      i := i - 1;
    }
  }

  method PutByte(bits: seq<bool>, b: bv8) returns (out: seq<bool>)
    ensures out == bits + ByteBits(b)
  {
    hide ByteBits, BitAt;
    out := bits;
    var i := 7;
    while i >= 0
      invariant -1 <= i <= 7
      invariant out == bits + ByteBits(b)[..7 - i]
    {
      BitAtByteBits(b, i);
      out := out + [BitAt(b, i)];
      i := i - 1;
    }
  }

  lemma PackNothing()
    ensures Pack([]) == []
  {
  }

  lemma PackSnoc(bits: seq<bool>, i: nat)
    requires i + 8 <= |bits| && i % 8 == 0
    ensures Pack(bits[..i + 8]) == Pack(bits[..i]) + [PackByte(bits[i..i + 8])]
  {
    hide PackByte;
    assert bits[..i + 8][..i] == bits[..i] && bits[..i + 8][i..] == bits[i..i + 8];
  }

  /** Gather whole bytes from the bit list. */
  method PackLoop(bits: seq<bool>) returns (codewords: seq<bv8>)
    requires |bits| % 8 == 0
    ensures codewords == Pack(bits)
  {
    hide PackByte, PushBit, Pack;
    codewords := [];
    var i := 0;
    PackNothing();
    assert bits[..0] == [];
    while i < |bits|
      invariant 0 <= i <= |bits| && i % 8 == 0
      invariant codewords == Pack(bits[..i])
    {
      var byte := bits[i..i + 8];
      var b: bv8 := 0;
      for j := 0 to 8
        invariant b == PushAll(byte, j)
      {
        b := PushBit(b, bits[i + j]);
      }
      PushEight(byte);
      PackSnoc(bits, i);
      codewords := codewords + [b];
      i := i + 8;
    }
    assert bits[..|bits|] == bits;
  }

  method PutBytes(bits: seq<bool>, bytes: seq<bv8>) returns (out: seq<bool>)
    ensures out == bits + Unpack(bytes)
  {
    hide ByteBits;
    out := bits;
    assert bytes[..0] == [];
    for k := 0 to |bytes|
      invariant out == bits + Unpack(bytes[..k])
    {
      out := PutByte(out, bytes[k]);
      assert bytes[..k + 1][..k] == bytes[..k];
      assert Unpack(bytes[..k + 1]) == Unpack(bytes[..k]) + ByteBits(bytes[k]);
    }
    assert bytes[..|bytes|] == bytes;
  }

  /** Append the terminator and complete the last byte. */
  method Terminate(bits: seq<bool>, dataCount: nat) returns (out: seq<bool>)
    ensures out == Terminated(bits, dataCount)
  {
    hide BitsOf;
    out := PutBits(bits, 0, Min(4, dataCount * 8 - |bits|));
    if |out| % 8 != 0 {
      out := PutBits(out, 0, 8 - |out| % 8);
    }
  }

  method PutHeader(byteLength: nat, version: int) returns (bits: seq<bool>)
    ensures bits == Header(byteLength, version)
  {
    hide BitsOf;
    bits := PutBits([], 4, 4);
    bits := PutBits(bits, byteLength, CountWidth(version));
  }

  /** The data codewords, padded to the version's capacity. */
  method BuildData(bytes: seq<bv8>, version: int) returns (codewords: seq<bv8>)
    requires IsVersion(version)
    ensures codewords == DataCodewords(bytes, version)
  {
    hide RsBlocks, TotalData, Terminated, Pack, Unpack, Header;
    var dataCount := DataCount(version);
    var bits := PutHeader(|bytes|, version);
    bits := PutBytes(bits, bytes);
    bits := Terminate(bits, dataCount);
    codewords := PackLoop(bits);
    ghost var words := codewords;
    var i := 0;
    while |codewords| < dataCount
      invariant codewords == words + Fill(i)
      invariant i > 0 ==> |words| + i <= dataCount
    {
      codewords := codewords + [if i % 2 == 0 then 0xec else 0x11];
      i := i + 1;
    }
  }

  /** Append the columns of the blocks, one element per block that is long enough. */
  /** The inner loop: one column. */
  method PushColumn(out: seq<bv8>, blocks: seq<seq<bv8>>, i: nat) returns (r: seq<bv8>)
    ensures r == out + Column(blocks, i)
  {
    r := out;
    assert blocks[..0] == [];
    for k := 0 to |blocks|
      invariant r == out + Column(blocks[..k], i)
    {
      assert blocks[..k + 1][..k] == blocks[..k];
      if i < |blocks[k]| { r := r + [blocks[k][i]]; }
    }
    assert blocks[..|blocks|] == blocks;
  }

  method PushColumns(out: seq<bv8>, blocks: seq<seq<bv8>>) returns (r: seq<bv8>)
    ensures r == out + Interleave(blocks)
  {
    hide Column, Max;
    r := out;
    var longest := Max(Lengths(blocks));
    for i := 0 to longest
      invariant r == out + Columns(blocks, i)
    {
      r := PushColumn(r, blocks, i);
    }
  }

  /** Data and parity blocks, interleaved column by column. */
  method BuildCodewords(t: Tables, bytes: seq<bv8>, version: int) returns (out: seq<bv8>)
    requires t.Valid() && IsVersion(version)
    ensures out == Codewords(bytes, version)
  {
    hide RsBlocks, TotalData, DataCodewords, Interleave, BlocksDone, Specs, Sum, DataLens, Repeat, Codewords;
    var codewords := BuildData(bytes, version);
    DataCodewordsEnough(bytes, version);
    var groups := RsBlocks(version);
    RsBlocksWellFormed(version);
    var dcBlocks, ecBlocks, offset := [], [], 0;
    assert groups[..0] == [];
    NoBlocksDone(codewords);
    for g := 0 to |groups|
      invariant BlocksDone(codewords, Specs(groups[..g]), dcBlocks, ecBlocks, offset)
    {
      GroupFits(groups, g);
      dcBlocks, ecBlocks, offset := PushGroup(t, codewords, Specs(groups[..g]), groups[g], dcBlocks, ecBlocks, offset);
    }
    assert groups[..|groups|] == groups;
    AllBlocksDone(bytes, version, dcBlocks, ecBlocks, offset);
    out := PushColumns([], dcBlocks);
    out := PushColumns(out, ecBlocks);
    assert [] + Interleave(dcBlocks) == Interleave(dcBlocks);
  }

  lemma NoBlocksDone(words: seq<bv8>)
    ensures Specs([]) == [] && BlocksDone(words, [], [], [], 0)
  {
  }

  /** One more group of blocks fits in the data codewords. */
  lemma GroupFits(groups: seq<Group>, g: nat)
    requires g < |groups| && WellFormed(groups)
    ensures Specs(groups[..g + 1]) == Specs(groups[..g]) + Repeat(SpecOf(groups[g]), groups[g].count)
    ensures Sum(DataLens(Specs(groups[..g + 1]))) <= TotalData(groups)
  {
    assert groups[..g + 1][..g] == groups[..g];
    BlocksPartitionData(groups[..g + 1]);
    hide Sum, DataLens, Repeat;
    TotalDataPrefix(groups, g + 1);
  }

  lemma AllBlocksDone(bytes: seq<bv8>, version: int, dc: seq<seq<bv8>>, ec: seq<seq<bv8>>, offset: nat)
    requires IsVersion(version) && WellFormed(RsBlocks(version))
    requires BlocksDone(DataCodewords(bytes, version), Specs(RsBlocks(version)), dc, ec, offset)
    ensures Codewords(bytes, version) == Interleave(dc) + Interleave(ec)
  {
    hide RsBlocks, DataCodewords, Interleave, Split, EcBlocks, Sum, DataLens;
  }

  /** The blocks for the given specs have been cut off the front of the data codewords. */
  ghost predicate BlocksDone(words: seq<bv8>, specs: seq<Spec>,
                             dc: seq<seq<bv8>>, ec: seq<seq<bv8>>, offset: nat) {
    && (forall k :: 0 <= k < |specs| ==> specs[k].ec >= 1)
    && offset == Sum(DataLens(specs)) <= |words|
    && dc == Split(words, DataLens(specs))
    && ec == EcBlocks(dc, specs)
  }

  lemma {:induction false} TotalDataPrefix(groups: seq<Group>, g: nat)
    requires g <= |groups|
    ensures TotalData(groups[..g]) <= TotalData(groups)
  {
    var m := |groups| - 1;
    if g <= m {
      TotalDataPrefix(groups[..m], g);
      assert groups[..m][..g] == groups[..g];
    } else {
      assert groups[..g] == groups;
    }
  }

  method PushGroup(t: Tables, words: seq<bv8>, ghost specs: seq<Spec>, g: Group,
                   dc: seq<seq<bv8>>, ec: seq<seq<bv8>>, offset: nat)
      returns (dcBlocks: seq<seq<bv8>>, ecBlocks: seq<seq<bv8>>, end: nat)
    requires t.Valid()
    requires g.data < g.total <= 255
    requires BlocksDone(words, specs, dc, ec, offset)
    requires Sum(DataLens(specs + Repeat(SpecOf(g), g.count))) <= |words|
    ensures BlocksDone(words, specs + Repeat(SpecOf(g), g.count), dcBlocks, ecBlocks, end)
  {
    hide BlocksDone, RS.Parity;
    dcBlocks, ecBlocks, end := dc, ec, offset;
    assert specs + Repeat(SpecOf(g), 0) == specs;
    for k := 0 to g.count
      invariant BlocksDone(words, specs + Repeat(SpecOf(g), k), dcBlocks, ecBlocks, end)
    {
      ghost var now := specs + Repeat(SpecOf(g), k);
      assert specs + Repeat(SpecOf(g), k + 1) == now + [SpecOf(g)];
      RepeatSumMonotone(specs, SpecOf(g), k + 1, g.count);
      BlocksDoneStep(words, now, SpecOf(g), dcBlocks, ecBlocks, end);
      var block := words[end..end + g.data];
      end := end + g.data;
      dcBlocks := dcBlocks + [block];
      var parity := RS.RsEcBytes(t, block, g.total - g.data);
      ecBlocks := ecBlocks + [parity[..]];
    }
  }

  lemma RepeatSumMonotone(specs: seq<Spec>, s: Spec, k: nat, n: nat)
    requires k <= n
    ensures Sum(DataLens(specs + Repeat(s, k))) <= Sum(DataLens(specs + Repeat(s, n)))
  {
    assert specs + Repeat(s, n) == (specs + Repeat(s, k)) + Repeat(s, n - k);
    var a, b := specs + Repeat(s, k), Repeat(s, n - k);
    assert DataLens(a + b) == DataLens(a) + DataLens(b);
    SumConcat(DataLens(a), DataLens(b));
  }

  lemma BlocksDoneStep(words: seq<bv8>, specs: seq<Spec>, s: Spec,
                       dc: seq<seq<bv8>>, ec: seq<seq<bv8>>, offset: nat)
    requires s.ec >= 1
    requires BlocksDone(words, specs, dc, ec, offset)
    requires Sum(DataLens(specs + [s])) <= |words|
    ensures offset + s.data == Sum(DataLens(specs + [s]))
    ensures var block := words[offset..offset + s.data];
            BlocksDone(words, specs + [s], dc + [block], ec + [RS.Parity(block, s.ec)], offset + s.data)
  {
    hide RS.Parity;
    var lens := DataLens(specs);
    assert DataLens(specs + [s]) == lens + [s.data];
    assert (lens + [s.data])[..|lens|] == lens;
    var block := words[offset..offset + s.data];
    assert Split(words, lens + [s.data]) == dc + [block];
    assert EcBlocks(dc + [block], specs + [s]) == ec + [RS.Parity(block, s.ec)];
  }

  /** The least version whose capacity holds the message, if there is one. */
  method PickVersion(byteLength: nat) returns (version: Option<int>)
    ensures version.Some? ==> IsVersion(version.value) && Fits(byteLength, version.value)
    ensures version.Some? ==> forall v :: 1 <= v < version.value ==> !Fits(byteLength, v)
    ensures version.None? ==> forall v :: IsVersion(v) ==> !Fits(byteLength, v)
  {
    hide RsBlocks, TotalData;
    for v := 1 to 41
      invariant forall u :: 1 <= u < v ==> !Fits(byteLength, u)
    {
      var bits := 4 + (if v < 10 then 8 else 16) + 8 * byteLength;
      if bits <= DataCount(v) * 8 {
        return Some(v);
      }
    }
    return None;
  }
}
