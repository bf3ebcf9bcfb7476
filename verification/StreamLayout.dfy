/** Where everything stands in the codeword stream: header, message, terminator, fill, blocks and columns. */
module StreamLayout {
  import opened BinaryPolynomials
  import opened Bytes
  import opened CodewordStream
  import opened Gf256
  import opened GfPolynomials
  import opened QrTables

  // -------------------------------------------------------------- data codewords

  /** The codewords that the header, the message and the terminator take. */
  function Used(byteLength: nat, version: int): nat {
    byteLength + if version < 10 then 2 else 3
  }

  lemma ZeroNibble()
    ensures BitsOf(0, 4) == [false, false, false, false] && BitsOf(4, 4) == [false, true, false, false]
  {
    assert Bit(4, 2) && !Bit(4, 0) && !Bit(4, 1) && !Bit(4, 3) by { assert Bit(4, 2) == Bit(2, 1) == Bit(1, 0); }
  }

  lemma TerminatedFits(bits: seq<bool>, dataCount: nat)
    requires |bits| % 8 == 4 && |bits| <= 8 * dataCount
    ensures Terminated(bits, dataCount) == bits + BitsOf(0, 4)
  {
    hide BitsOf;
  }

  lemma UnpackPrefix(words: seq<bv8>, more: seq<bv8>)
    ensures (words + more)[..|words|] == words
  {
  }

  /**
    A message that fits is laid out as the mode 0100, its length, its bytes and four zeros, which
    are whole codewords together; 0xEC and 0x11 in turn fill the version up.
   */
  lemma DataLayout(bytes: seq<bv8>, version: int)
    requires IsVersion(version) && Fits(|bytes|, version)
    ensures var words, used := DataCodewords(bytes, version), Used(|bytes|, version);
      && used <= |words| == DataCount(version)
      && Unpack(words[..used]) == [false, true, false, false] + BitsOf(|bytes|, if version < 10 then 8 else 16)
           + Unpack(bytes) + [false, false, false, false]
      && forall i :: used <= i < |words| ==> words[i] == if (i - used) % 2 == 0 then 0xec else 0x11
  {
    hide RsBlocks, TotalData, BitsOf, Pack, Unpack, Terminated;
    DataCodewordsLength(bytes, version);
    ZeroNibble();
    var n := DataCount(version);
    var bits := Header(|bytes|, version) + Unpack(bytes);
    TerminatedFits(bits, n);
    var head := Pack(bits + BitsOf(0, 4));
    UnpackPack(bits + BitsOf(0, 4));
    var words := DataCodewords(bytes, version);
    assert |head| == Used(|bytes|, version);
    assert words == head + Fill(n - |head|);
    UnpackPrefix(head, Fill(n - |head|));
  }

  // ------------------------------------------------------------ bytes and numbers

  lemma ShiftedOnce(b: bv8, k: nat)
    requires k < 8
    ensures (b >> k) >> 1 == b >> (k + 1) && BitAt(b, k) == ((b >> k) & 1 == 1)
  {
  }

  lemma NoBits(b: bv8)
    ensures Index(b >> 8) == 0 && b >> 0 == b && Value([]) == 0
  {
  }

  lemma ValueInit(bits: seq<bool>, n: nat)
    requires n < |bits|
    ensures Value(bits[..n + 1]) == 2 * Value(bits[..n]) + if bits[n] then 1 else 0
  {
    assert bits[..n + 1][..n] == bits[..n];
  }

  lemma {:induction false} TopBits(b: bv8, k: nat)
    requires k <= 8
    ensures Value(ByteBits(b)[..8 - k]) == Index(b >> k)
    decreases 8 - k
  {
    hide *;
    NoBits(b);
    if k == 8 {
      assert ByteBits(b)[..0] == [];
    } else {
      TopBits(b, k + 1);
      ShiftedOnce(b, k);
      IndexHalves(b >> k);
      BitAtByteBits(b, k);
      ValueInit(ByteBits(b), 7 - k);
    }
  }

  /** The bits of a byte, most significant first, are its number in binary. */
  lemma ByteBitsValue(b: bv8)
    ensures Value(ByteBits(b)) == Index(b)
  {
    hide ByteBits, Value, Index;
    NoBits(b);
    TopBits(b, 0);
    assert ByteBits(b)[..8] == ByteBits(b);
  }

  // ---------------------------------------------------------------------- blocks

  /** The blocks of the first group come first; all blocks of a group are alike. */
  lemma SpecsAt(version: int, k: nat)
    requires IsVersion(version) && k < |VersionSpecs(version)|
    ensures var groups := RsBlocks(version);
      && |VersionSpecs(version)| == groups[0].count + (if |groups| == 2 then groups[1].count else 0)
      && (k < groups[0].count ==> VersionSpecs(version)[k] == Spec(groups[0].data, groups[0].total - groups[0].data))
      && (k >= groups[0].count ==>
           |groups| == 2 && VersionSpecs(version)[k] == Spec(groups[1].data, groups[1].total - groups[1].data))
  {
    hide RsBlocks;
    RsBlocksShape(version);
    RsBlocksWellFormed(version);
    var groups := RsBlocks(version);
    assert groups[..1] == [groups[0]] && groups[..1][..0] == [];
    assert Specs(groups[..1]) == Repeat(SpecOf(groups[0]), groups[0].count) by {
      assert Specs([]) == [];
    }
    if |groups| == 1 {
      assert groups == groups[..1];
    }
  }

  // --------------------------------------------------------------------- columns

  lemma {:induction false} RankGrows(lens: seq<nat>, k: nat, k': nat, i: nat)
    requires k <= k' <= |lens|
    ensures Rank(lens, k, i) <= Rank(lens, k', i)
    ensures k < k' && i < lens[k] ==> Rank(lens, k, i) < Rank(lens, k', i)
    decreases k'
  {
    if k < k' - 1 {
      RankGrows(lens, k, k' - 1, i);
    }
  }

  lemma {:induction false} BeforeGrows(lens: seq<nat>, i: nat, i': nat)
    requires i <= i'
    ensures Before(lens, i) <= Before(lens, i')
    ensures i < i' ==> Before(lens, i) + Rank(lens, |lens|, i) <= Before(lens, i')
  {
    if i < i' - 1 {
      BeforeGrows(lens, i, i' - 1);
    }
  }

  /** The interleaved stream goes by columns, and in a column by blocks. */
  lemma PositionOrder(lens: seq<nat>, k: nat, i: nat, k': nat, i': nat)
    requires k < |lens| && i < lens[k] && k' < |lens| && i' < lens[k']
    requires i < i' || (i == i' && k < k')
    ensures Position(lens, k, i) < Position(lens, k', i')
  {
    if i < i' {
      BeforeGrows(lens, i, i');
      RankGrows(lens, k, |lens|, i);
    } else {
      RankGrows(lens, k, k', i);
    }
  }
}
