/** The BCH codes of the format and version information. */
module Bch {
  import opened BinaryPolynomials

  /** r is the remainder of value on division by generator over GF(2)[x]. */
  ghost predicate IsRemainder(value: nat, generator: nat, r: nat) {
    BitLen(r) < BitLen(generator) && exists q: nat :: value == Xor(Clmul(q, generator), r)
  }

  lemma RemainderUnique(value: nat, generator: nat, r: nat, r': nat)
    requires IsRemainder(value, generator, r) && IsRemainder(value, generator, r')
    ensures r == r'
  {
    var q: nat :| value == Xor(Clmul(q, generator), r);
    var q': nat :| value == Xor(Clmul(q', generator), r');
    DivisionUnique(q, r, q', r', generator);
  }

  /** Cancel the leading bit of a value at least as long as the generator. */
  function CancelLead(v: nat, generator: nat): (w: nat)
    requires BitLen(v) >= BitLen(generator) > 0
    ensures BitLen(w) < BitLen(v)
  {
    var shift := BitLen(v) - BitLen(generator);
    BitLenShl(generator, shift);
    BitLenXor(v, Shl(generator, shift));
    Xor(v, Shl(generator, shift))
  }

  function Remainder(v: nat, generator: nat): nat
    requires generator != 0
    decreases BitLen(v)
  {
    if BitLen(v) < BitLen(generator) then v
    else Remainder(CancelLead(v, generator), generator)
  }

  /** The division loop computes the remainder over GF(2)[x]. */
  lemma {:induction false} RemainderDivides(v: nat, generator: nat)
    requires generator != 0
    ensures IsRemainder(v, generator, Remainder(v, generator))
    decreases BitLen(v)
  {
    if BitLen(v) < BitLen(generator) {
      XorZero(v);
      assert v == Xor(Clmul(0, generator), v);
    } else {
      var w, r := CancelLead(v, generator), Remainder(v, generator);
      RemainderDivides(w, generator);
      var q: nat :| w == Xor(Clmul(q, generator), r);
      var shift := BitLen(v) - BitLen(generator);
      var term := Shl(generator, shift);
      XorCancel(v, term);
      ClmulShl(shift, generator);
      ClmulXorLeft(Shl(1, shift), q, generator);
      XorCommutes(w, term);
      XorAssociates(term, Clmul(q, generator), r);
      assert v == Xor(Clmul(Xor(Shl(1, shift), q), generator), r);
    }
  }

  /** Cancel leading bits until the value is shorter than the generator. */
  method BchRemainder(value: nat, generator: nat) returns (v: nat)
    requires BitLen(value) <= 32 && BitLen(generator) <= 32
    requires generator != 0
    ensures v == Remainder(value, generator)
  {
    var genBits := BitLen(generator);
    v := value;
    while BitLen(v) >= genBits
      invariant BitLen(v) <= 32
      invariant Remainder(v, generator) == Remainder(value, generator)
      decreases BitLen(v)
    {
      ghost var w := CancelLead(v, generator);
      v := Xor(v, Shl(generator, BitLen(v) - genBits));
    }
  }

  const FORMAT_GENERATOR: nat := 0x537
  const FORMAT_MASK: nat := 0x5412
  const VERSION_GENERATOR: nat := 0x1f25

  lemma GeneratorLengths()
    ensures FORMAT_GENERATOR != 0 && VERSION_GENERATOR != 0
    ensures BitLen(FORMAT_GENERATOR) == 11
    ensures BitLen(FORMAT_MASK) == 15
    ensures BitLen(VERSION_GENERATOR) == 13
  {
    Pow2Small();
    assert Pow2(11) == 2048 && Pow2(14) == 16384;
    BitLenBound(FORMAT_GENERATOR, 11);
    BitLenBound(FORMAT_GENERATOR, 10);
    BitLenBound(FORMAT_MASK, 15);
    BitLenBound(FORMAT_MASK, 14);
    BitLenBound(VERSION_GENERATOR, 13);
    BitLenBound(VERSION_GENERATOR, 12);
  }

  /** The value shifted left by n, with its remainder in the freed bits. */
  function Systematic(data: nat, n: nat, generator: nat): nat
    requires generator != 0
  {
    Or(Shl(data, n), Remainder(Shl(data, n), generator))
  }

  /** A systematic word is a multiple of the generator and carries the data on top. */
  lemma SystematicWord(data: nat, n: nat, generator: nat)
    requires BitLen(generator) == n + 1
    ensures var w := Systematic(data, n, generator);
            && Shr(w, n) == data
            && BitLen(w) <= BitLen(data) + n
            && exists q: nat :: w == Clmul(q, generator)
  {
    var top := Shl(data, n);
    var r := Remainder(top, generator);
    RemainderDivides(top, generator);
    BitLenBound(r, n);
    DisjointBits(data, r, n);
    var q: nat :| top == Xor(Clmul(q, generator), r);
    hide BitLen, Xor, Or, Shl, Shr, Clmul, Remainder, Pow2;
    XorCancel(Clmul(q, generator), r);
    assert Systematic(data, n, generator) == Clmul(q, generator);
    ShrUndoesShl(data, r, n);
    SystematicLength(data, n, r);
  }

  lemma SystematicLength(data: nat, n: nat, r: nat)
    requires BitLen(r) <= n
    ensures BitLen(Xor(Shl(data, n), r)) <= BitLen(data) + n
  {
    if data == 0 {
      ShlIsProduct(0, n);
    } else {
      BitLenShl(data, n);
    }
    hide Xor, Shl, BitLen;
    BitLenXor(Shl(data, n), r);
    BitLenZero();
  }

  lemma BitLenZero()
    ensures BitLen(0) == 0
  {
  }

  lemma SmallLength(a: nat, n: nat)
    requires (n == 3 && a < 8) || (n == 6 && a < 64)
    ensures BitLen(a) <= n
  {
    assert Pow2(3) == 8 && Pow2(6) == 64;
    BitLenBound(a, n);
  }

  lemma FormatWordUnfold(mask: nat)
    ensures FormatWord(mask) == Xor(Systematic(mask, 10, FORMAT_GENERATOR), FORMAT_MASK) % 0x8000
  {}

  lemma VersionWordUnfold(version: nat)
    ensures VersionWord(version) == Systematic(version, 12, VERSION_GENERATOR) % 0x40000
  {}

  /** The 15 format bits of level M with the given mask pattern. */
  method FormatBits(mask: nat) returns (bits: nat)
    requires mask < 8
    ensures bits == FormatWord(mask)
  {
    GeneratorLengths();
    Pow2Small();
    BitLenBound(mask, 4);
    if mask != 0 {
      BitLenShl(mask, 10);
    }
    var data := Or(Shl(0, 3), mask);
    var r := BchRemainder(Shl(data, 10), FORMAT_GENERATOR);
    bits := Xor(Or(Shl(data, 10), r), FORMAT_MASK) % 0x8000;
  }

  function FormatWord(mask: nat): nat {
    Xor(Systematic(mask, 10, FORMAT_GENERATOR), FORMAT_MASK) % 0x8000
  }

  /** Unmasked, the format word is a multiple of its generator with the mask number on top. */
  lemma FormatWordCode(mask: nat)
    requires mask < 8
    ensures FormatWord(mask) < 0x8000
    ensures Shr(Xor(FormatWord(mask), FORMAT_MASK), 10) == mask
    ensures exists q: nat :: Xor(FormatWord(mask), FORMAT_MASK) == Clmul(q, FORMAT_GENERATOR)
  {
    hide *;
    GeneratorLengths();
    SmallLength(mask, 3);
    FormatWordUnfold(mask);
    Pow2Small();
    SystematicWord(mask, 10, FORMAT_GENERATOR);
    var w := Systematic(mask, 10, FORMAT_GENERATOR);
    BitLenXor(w, FORMAT_MASK);
    BitLenBound(Xor(w, FORMAT_MASK), 15);
    XorCancel(w, FORMAT_MASK);
  }

  /** The 18 version bits. */
  method VersionBits(version: nat) returns (bits: nat)
    requires version < 64
    ensures bits == VersionWord(version)
  {
    GeneratorLengths();
    assert Pow2(6) == 64;
    BitLenBound(version, 6);
    if version != 0 {
      BitLenShl(version, 12);
    }
    var r := BchRemainder(Shl(version, 12), VERSION_GENERATOR);
    bits := Or(Shl(version, 12), r) % 0x40000;
  }

  function VersionWord(version: nat): nat {
    Systematic(version, 12, VERSION_GENERATOR) % 0x40000
  }

  /** The version word is a multiple of its generator with the version number on top. */
  lemma VersionWordCode(version: nat)
    requires version < 64
    ensures VersionWord(version) < 0x40000
    ensures Shr(VersionWord(version), 12) == version
    ensures exists q: nat :: VersionWord(version) == Clmul(q, VERSION_GENERATOR)
  {
    hide *;
    GeneratorLengths();
    SmallLength(version, 6);
    VersionWordUnfold(version);
    Pow2Small();
    SystematicWord(version, 12, VERSION_GENERATOR);
    BitLenBound(Systematic(version, 12, VERSION_GENERATOR), 18);
  }
}
