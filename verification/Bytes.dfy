/** Bytes as the bits that are shifted out of and into them. */
module Bytes {

  function Flag(b: bool, m: bv8): bv8 {
    if b then m else 0
  }

  /** The byte whose bits, most significant first, are given. */
  function PackByte(s: seq<bool>): bv8
    requires |s| == 8
  {
    Flag(s[0], 0x80) | Flag(s[1], 0x40) | Flag(s[2], 0x20) | Flag(s[3], 0x10)
    | Flag(s[4], 0x08) | Flag(s[5], 0x04) | Flag(s[6], 0x02) | Flag(s[7], 0x01)
  }

  /** The bits of a byte, most significant first. */
  function ByteBits(b: bv8): (s: seq<bool>)
    ensures |s| == 8
  {
    [b & 0x80 != 0, b & 0x40 != 0, b & 0x20 != 0, b & 0x10 != 0,
     b & 0x08 != 0, b & 0x04 != 0, b & 0x02 != 0, b & 0x01 != 0]
  }

  /** (b >> i) & 1. */
  function BitAt(b: bv8, i: nat): bool
    requires i < 8
  {
    (b >> i) & 1 != 0
  }

  /** (b << 1) | bit. */
  function PushBit(b: bv8, bit: bool): bv8 {
    (b << 1) | (if bit then 1 else 0)
  }

  lemma PackByteBits(b: bv8)
    ensures PackByte(ByteBits(b)) == b
  {}

  lemma ByteBitsPack(s: seq<bool>)
    requires |s| == 8
    ensures ByteBits(PackByte(s)) == s
  {}

  lemma BitAtByteBits(b: bv8, i: nat)
    requires i < 8
    ensures BitAt(b, i) == ByteBits(b)[7 - i]
  {}

  /** The first n bits of s pushed into a zero byte, one after the other. */
  function PushAll(s: seq<bool>, n: nat): bv8
    requires n <= |s|
  {
    if n == 0 then 0 else PushBit(PushAll(s, n - 1), s[n - 1])
  }

  /** Pushing eight bits packs them. */
  lemma PushEight(s: seq<bool>)
    requires |s| == 8
    ensures PushAll(s, 8) == PackByte(s)
  {
    PushEightFlat(s);
    hide PushBit, PackByte;
    assert PushAll(s, 1) == PushBit(PushAll(s, 0), s[0]);
    assert PushAll(s, 2) == PushBit(PushAll(s, 1), s[1]);
    assert PushAll(s, 4) == PushBit(PushBit(PushAll(s, 2), s[2]), s[3]);
    assert PushAll(s, 6) == PushBit(PushBit(PushAll(s, 4), s[4]), s[5]);
  }

  lemma PushEightFlat(s: seq<bool>)
    requires |s| == 8
    ensures PushBit(PushBit(PushBit(PushBit(PushBit(PushBit(PushBit(PushBit(0,
              s[0]), s[1]), s[2]), s[3]), s[4]), s[5]), s[6]), s[7]) == PackByte(s)
  {}
}
