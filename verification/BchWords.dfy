/** The format and version words that the standard publishes, and how far apart the format words are. */
module BchWords {
  import opened BinaryPolynomials
  import opened Bch
  import opened FiniteSets

  // --------------------------------------------------------- hexadecimal digits

  lemma XorBit(a: nat, i: nat, c: nat, j: nat)
    requires i < 2 && j < 2
    ensures Xor(2 * a + i, 2 * c + j) == 2 * Xor(a, c) + (if i == j then 0 else 1)
  {
    hide Xor;
    XorUnfold(2 * a + i, 2 * c + j);
    Halves(a, i);
    Halves(c, j);
  }

  lemma Halves(a: nat, i: nat)
    requires i < 2
    ensures (2 * a + i) / 2 == a && (2 * a + i) % 2 == i
  {
  }

  /** Exclusive or of two digits below sixteen. */
  function XorDigit(b: nat, d: nat): nat
    requires b < 16 && d < 16
  {
    8 * (if b / 8 == d / 8 then 0 else 1) + 4 * (if b / 4 % 2 == d / 4 % 2 then 0 else 1)
    + 2 * (if b / 2 % 2 == d / 2 % 2 then 0 else 1) + (if b % 2 == d % 2 then 0 else 1)
  }

  lemma Binary(b: nat) returns (b3: nat, b2: nat, b1: nat, b0: nat)
    requires b < 16
    ensures b3 == b / 8 && b2 == b / 4 % 2 && b1 == b / 2 % 2 && b0 == b % 2
    ensures b3 < 2 && b2 < 2 && b1 < 2 && b0 < 2 && b == 2 * (2 * (2 * b3 + b2) + b1) + b0
  {
    b3, b2, b1, b0 := b / 8, b / 4 % 2, b / 2 % 2, b % 2;
  }

  /** Exclusive or goes digit by digit. */
  lemma XorHex(a: nat, b: nat, c: nat, d: nat)
    requires b < 16 && d < 16
    ensures Xor(16 * a + b, 16 * c + d) == 16 * Xor(a, c) + XorDigit(b, d)
  {
    hide Xor;
    var b3, b2, b1, b0 := Binary(b);
    var d3, d2, d1, d0 := Binary(d);
    XorBit(a, b3, c, d3);
    XorBit(2 * a + b3, b2, 2 * c + d3, d2);
    XorBit(2 * (2 * a + b3) + b2, b1, 2 * (2 * c + d3) + d2, d1);
    XorBit(2 * (2 * (2 * a + b3) + b2) + b1, b0, 2 * (2 * (2 * c + d3) + d2) + d1, d0);
  }

  /** Four digits each. */
  function Hex(a: nat, b: nat, c: nat, d: nat): nat { 16 * (16 * (16 * a + b) + c) + d }

  lemma XorWords(a: nat, b: nat, c: nat, d: nat, e: nat, f: nat, g: nat, h: nat)
    requires a < 16 && b < 16 && c < 16 && d < 16 && e < 16 && f < 16 && g < 16 && h < 16
    ensures Xor(Hex(a, b, c, d), Hex(e, f, g, h))
         == Hex(XorDigit(a, e), XorDigit(b, f), XorDigit(c, g), XorDigit(d, h))
  {
    hide Xor, XorDigit;
    XorZero(0);
    XorHex(0, a, 0, e);
    XorHex(a, b, e, f);
    XorHex(16 * a + b, c, 16 * e + f, g);
    XorHex(16 * (16 * a + b) + c, d, 16 * (16 * e + f) + g, h);
  }

  // ------------------------------------------------------------ the format words

  lemma Sum3()
    ensures Xor(0x537, 0xa6e) == 0xf59
  {
    hide Xor;
    XorWords(0x0, 0x5, 0x3, 0x7, 0x0, 0xa, 0x6, 0xe);
  }

  lemma Sum5()
    ensures Xor(0x537, 0x14dc) == 0x11eb
  {
    hide Xor;
    XorWords(0x0, 0x5, 0x3, 0x7, 0x1, 0x4, 0xd, 0xc);
  }

  lemma Sum7()
    ensures Xor(0x537, 0x1eb2) == 0x1b85
  {
    hide Xor;
    XorWords(0x0, 0x5, 0x3, 0x7, 0x1, 0xe, 0xb, 0x2);
  }

  lemma Masked1()
    ensures Xor(0x537, 0x5412) == 0x5125
  {
    hide Xor;
    XorWords(0x0, 0x5, 0x3, 0x7, 0x5, 0x4, 0x1, 0x2);
  }

  lemma Masked2()
    ensures Xor(0xa6e, 0x5412) == 0x5e7c
  {
    hide Xor;
    XorWords(0x0, 0xa, 0x6, 0xe, 0x5, 0x4, 0x1, 0x2);
  }

  lemma Masked3()
    ensures Xor(0xf59, 0x5412) == 0x5b4b
  {
    hide Xor;
    XorWords(0x0, 0xf, 0x5, 0x9, 0x5, 0x4, 0x1, 0x2);
  }

  lemma Masked4()
    ensures Xor(0x11eb, 0x5412) == 0x45f9
  {
    hide Xor;
    XorWords(0x1, 0x1, 0xe, 0xb, 0x5, 0x4, 0x1, 0x2);
  }

  lemma Masked5()
    ensures Xor(0x14dc, 0x5412) == 0x40ce
  {
    hide Xor;
    XorWords(0x1, 0x4, 0xd, 0xc, 0x5, 0x4, 0x1, 0x2);
  }

  lemma Masked6()
    ensures Xor(0x1b85, 0x5412) == 0x4f97
  {
    hide Xor;
    XorWords(0x1, 0xb, 0x8, 0x5, 0x5, 0x4, 0x1, 0x2);
  }

  lemma Masked7()
    ensures Xor(0x1eb2, 0x5412) == 0x4aa0
  {
    hide Xor;
    XorWords(0x1, 0xe, 0xb, 0x2, 0x5, 0x4, 0x1, 0x2);
  }

  lemma MultipleUnfold(q: nat)
    ensures Clmul(0, 0x537) == 0
    ensures Clmul(2 * q, 0x537) == 2 * Clmul(q, 0x537)
    ensures Clmul(2 * q + 1, 0x537) == Xor(0x537, 2 * Clmul(q, 0x537))
  {
    ClmulUnfold(2 * q, 0x537);
    ClmulUnfold(2 * q + 1, 0x537);
    XorZero(2 * Clmul(q, 0x537));
  }

  /** The multiples of the format generator by polynomials of at most three terms. */
  lemma FormatMultiples()
    ensures Clmul(1, 0x537) == 0x537 && Clmul(2, 0x537) == 0xa6e && Clmul(3, 0x537) == 0xf59
    ensures Clmul(4, 0x537) == 0x14dc && Clmul(5, 0x537) == 0x11eb
    ensures Clmul(6, 0x537) == 0x1eb2 && Clmul(7, 0x537) == 0x1b85
  {
    hide Xor, Clmul;
    MultipleUnfold(0);
    MultipleUnfold(1);
    MultipleUnfold(2);
    MultipleUnfold(3);
    XorZero(0x537);
    Sum3();
    Sum5();
    Sum7();
  }

  /** A multiple of the generator with the data on top is the systematic word of the data. */
  lemma SystematicUnique(q: nat, data: nat, n: nat, generator: nat, low: nat)
    requires BitLen(generator) == n + 1 && low < Pow2(n)
    requires Clmul(q, generator) == Xor(Shl(data, n), low)
    ensures Systematic(data, n, generator) == Clmul(q, generator)
  {
    hide BitLen, Xor, Or, Shl, Clmul, Remainder, Pow2;
    var top := Shl(data, n);
    BitLenZero();
    BitLenBound(low, n);
    XorCancel(top, low);
    XorCancel(Clmul(q, generator), low);
    RemainderDivides(top, generator);
    SameRemainder(top, generator, q, low);
    DisjointBits(data, low, n);
  }

  lemma SameRemainder(top: nat, generator: nat, q: nat, low: nat)
    requires generator != 0 && BitLen(low) < BitLen(generator) && top == Xor(Clmul(q, generator), low)
    ensures Remainder(top, generator) == low
  {
    hide BitLen, Xor, Clmul, Remainder;
    RemainderDivides(top, generator);
    RemainderUnique(top, generator, Remainder(top, generator), low);
  }

  /** A multiple of the format generator, by the data on top of it. */
  lemma FormatWordIs(mask: nat, q: nat, w: nat)
    requires mask < 8 && Clmul(q, FORMAT_GENERATOR) == w && w / 1024 == mask
    ensures FormatWord(mask) == Xor(w, FORMAT_MASK) % 0x8000
  {
    hide BitLen, Xor, Or, Shl, Clmul, Systematic, Pow2;
    GeneratorLengths();
    Pow2Small();
    DisjointBits(mask, w % 1024, 10);
    ShlIsProduct(mask, 10);
    SystematicUnique(q, mask, 10, FORMAT_GENERATOR, w % 1024);
    FormatWordUnfold(mask);
  }

  /** The eight format words of level M. */
  lemma FormatWords()
    ensures FormatWord(0) == 0x5412 && FormatWord(1) == 0x5125 && FormatWord(2) == 0x5e7c && FormatWord(3) == 0x5b4b
    ensures FormatWord(4) == 0x45f9 && FormatWord(5) == 0x40ce && FormatWord(6) == 0x4f97 && FormatWord(7) == 0x4aa0
  {
    hide Xor, Clmul, FormatWord;
    FormatMultiples();
    MultipleUnfold(0);
    XorZero(0x5412);
    FormatWordIs(0, 0, 0x0);
    Masked1();
    FormatWordIs(1, 1, 0x537);
    Masked2();
    FormatWordIs(2, 2, 0xa6e);
    Masked3();
    FormatWordIs(3, 3, 0xf59);
    Masked4();
    FormatWordIs(4, 5, 0x11eb);
    Masked5();
    FormatWordIs(5, 4, 0x14dc);
    Masked6();
    FormatWordIs(6, 7, 0x1b85);
    Masked7();
    FormatWordIs(7, 6, 0x1eb2);
  }

  /** The version word of version 7. */
  lemma VersionWordSeven()
    ensures VersionWord(7) == 0x7c94
  {
    hide BitLen, Xor, Or, Shl, Clmul, Systematic, Pow2;
    GeneratorLengths();
    Pow2Small();
    FourTimes();
    DisjointBits(7, 0xc94, 12);
    ShlIsProduct(7, 12);
    SystematicUnique(4, 7, 12, VERSION_GENERATOR, 0xc94);
    VersionWordUnfold(7);
  }

  lemma FourTimes()
    ensures Clmul(4, VERSION_GENERATOR) == 4 * VERSION_GENERATOR
  {
    hide Xor, Clmul;
    NoTimes();
    ClmulUnfold(4, VERSION_GENERATOR);
    ClmulUnfold(2, VERSION_GENERATOR);
    ClmulUnfold(1, VERSION_GENERATOR);
    XorZero(VERSION_GENERATOR);
    XorZero(2 * VERSION_GENERATOR);
    XorZero(4 * VERSION_GENERATOR);
  }

  lemma NoTimes()
    ensures Clmul(0, VERSION_GENERATOR) == 0
  {
  }

  // -------------------------------------------------- distance of the format words

  /** Where two words of fifteen bits differ. */
  function Differing(a: nat, b: nat): set<nat> {
    set i: nat | i < 15 && Bit(a, i) != Bit(b, i)
  }

  function Ones(a: nat): set<nat> {
    set i: nat | i < 15 && Bit(a, i)
  }

  lemma {:induction false} BitXor(a: nat, b: nat, i: nat)
    ensures Bit(Xor(a, b), i) <==> Bit(a, i) != Bit(b, i)
    decreases i
  {
    XorHalves(a, b);
    if i > 0 {
      hide Xor;
      BitXor(a / 2, b / 2, i - 1);
    }
  }

  lemma DifferingIsOnes(a: nat, b: nat)
    ensures Differing(a, b) == Ones(Xor(a, b))
  {
    forall i: nat
      ensures Bit(Xor(a, b), i) <==> Bit(a, i) != Bit(b, i)
    {
      BitXor(a, b, i);
    }
    hide Xor, Bit;
  }

  lemma BitTwo(a: nat, i: nat)
    ensures Bit(a, i + 2) == Bit(a / 4, i)
  {
    assert Bit(a, i + 2) == Bit(a / 2, i + 1);
    assert Bit(a / 2, i + 1) == Bit(a / 2 / 2, i);
    assert a / 2 / 2 == a / 4;
  }

  /** Bits of the digits of a word, sixteen to the second, to the first and to none. */
  lemma BitHex(a: nat, i: nat)
    ensures Bit(a, i + 4) == Bit(a / 16, i)
  {
    hide Bit;
    BitTwo(a, i + 2);
    BitTwo(a / 4, i);
    assert a / 4 / 4 == a / 16;
  }

  lemma BitByte(a: nat, i: nat)
    ensures Bit(a, i + 8) == Bit(a / 256, i)
  {
    hide Bit;
    BitHex(a, i + 4);
    BitHex(a / 16, i);
    assert a / 16 / 16 == a / 256;
  }

  lemma LowBits(a: nat)
    ensures Bit(a, 0) <==> a % 2 == 1
    ensures Bit(a, 1) <==> a / 2 % 2 == 1
    ensures Bit(a, 2) <==> a / 4 % 2 == 1
    ensures Bit(a, 3) <==> a / 8 % 2 == 1
  {
    BitTwo(a, 0);
    BitTwo(a, 1);
    assert a / 4 / 2 == a / 8;
  }

  /** The thirteen low bits of a word, by division. */
  lemma WordBits(a: nat)
    ensures (Bit(a, 0) <==> a % 2 == 1) && (Bit(a, 1) <==> a / 2 % 2 == 1)
    ensures (Bit(a, 2) <==> a / 4 % 2 == 1) && (Bit(a, 3) <==> a / 8 % 2 == 1)
    ensures (Bit(a, 4) <==> a / 16 % 2 == 1) && (Bit(a, 5) <==> a / 16 / 2 % 2 == 1)
    ensures (Bit(a, 6) <==> a / 16 / 4 % 2 == 1) && (Bit(a, 7) <==> a / 16 / 8 % 2 == 1)
    ensures (Bit(a, 8) <==> a / 256 % 2 == 1) && (Bit(a, 9) <==> a / 256 / 2 % 2 == 1)
    ensures (Bit(a, 10) <==> a / 256 / 4 % 2 == 1) && (Bit(a, 11) <==> a / 256 / 8 % 2 == 1)
    ensures Bit(a, 12) <==> a / 256 / 16 % 2 == 1
  {
    hide Bit;
    LowBits(a);
    LowBits(a / 16);
    LowBits(a / 256);
    LowBits(a / 256 / 16);
    BitHex(a, 0);
    BitHex(a, 1);
    BitHex(a, 2);
    BitHex(a, 3);
    BitByte(a, 0);
    BitByte(a, 1);
    BitByte(a, 2);
    BitByte(a, 3);
    BitByte(a, 4);
    BitHex(a / 256, 0);
  }

  lemma SevenOnes(w: nat, seven: set<nat>)
    requires |seven| == 7 && forall i :: i in seven ==> i < 15 && Bit(w, i)
    ensures |Ones(w)| >= 7
  {
    hide Bit;
    assert seven <= Ones(w);
    SubsetSize(seven, Ones(w));
  }

  lemma Bits1()
    ensures Bit(0x537, 0) && Bit(0x537, 1) && Bit(0x537, 2)
    ensures Bit(0x537, 4) && Bit(0x537, 5)
    ensures Bit(0x537, 8) && Bit(0x537, 10)
  {
    hide Bit;
    WordBits(0x537);
  }

  lemma Ones1()
    ensures |Ones(0x537)| >= 7
  {
    hide Bit, Ones;
    Bits1();
    SevenOnes(0x537, {0, 1, 2, 4, 5, 8, 10});
  }

  lemma Bits2()
    ensures Bit(0xa6e, 1) && Bit(0xa6e, 2) && Bit(0xa6e, 3)
    ensures Bit(0xa6e, 5) && Bit(0xa6e, 6)
    ensures Bit(0xa6e, 9) && Bit(0xa6e, 11)
  {
    hide Bit;
    WordBits(0xa6e);
  }

  lemma Ones2()
    ensures |Ones(0xa6e)| >= 7
  {
    hide Bit, Ones;
    Bits2();
    SevenOnes(0xa6e, {1, 2, 3, 5, 6, 9, 11});
  }

  lemma Bits3()
    ensures Bit(0xf59, 0) && Bit(0xf59, 3)
    ensures Bit(0xf59, 4) && Bit(0xf59, 6)
    ensures Bit(0xf59, 8) && Bit(0xf59, 9) && Bit(0xf59, 10)
  {
    hide Bit;
    WordBits(0xf59);
  }

  lemma Ones3()
    ensures |Ones(0xf59)| >= 7
  {
    hide Bit, Ones;
    Bits3();
    SevenOnes(0xf59, {0, 3, 4, 6, 8, 9, 10});
  }

  lemma Bits4()
    ensures Bit(0x14dc, 2) && Bit(0x14dc, 3)
    ensures Bit(0x14dc, 4) && Bit(0x14dc, 6) && Bit(0x14dc, 7)
    ensures Bit(0x14dc, 10)
    ensures Bit(0x14dc, 12)
  {
    hide Bit;
    WordBits(0x14dc);
  }

  lemma Ones4()
    ensures |Ones(0x14dc)| >= 7
  {
    hide Bit, Ones;
    Bits4();
    SevenOnes(0x14dc, {2, 3, 4, 6, 7, 10, 12});
  }

  lemma Bits5()
    ensures Bit(0x11eb, 0) && Bit(0x11eb, 1) && Bit(0x11eb, 3)
    ensures Bit(0x11eb, 5) && Bit(0x11eb, 6) && Bit(0x11eb, 7)
    ensures Bit(0x11eb, 8)
  {
    hide Bit;
    WordBits(0x11eb);
  }

  lemma Ones5()
    ensures |Ones(0x11eb)| >= 7
  {
    hide Bit, Ones;
    Bits5();
    SevenOnes(0x11eb, {0, 1, 3, 5, 6, 7, 8});
  }

  lemma Bits6()
    ensures Bit(0x1eb2, 1)
    ensures Bit(0x1eb2, 4) && Bit(0x1eb2, 5) && Bit(0x1eb2, 7)
    ensures Bit(0x1eb2, 9) && Bit(0x1eb2, 10) && Bit(0x1eb2, 11)
  {
    hide Bit;
    WordBits(0x1eb2);
  }

  lemma Ones6()
    ensures |Ones(0x1eb2)| >= 7
  {
    hide Bit, Ones;
    Bits6();
    SevenOnes(0x1eb2, {1, 4, 5, 7, 9, 10, 11});
  }

  lemma Bits7()
    ensures Bit(0x1b85, 0) && Bit(0x1b85, 2)
    ensures Bit(0x1b85, 7)
    ensures Bit(0x1b85, 8) && Bit(0x1b85, 9) && Bit(0x1b85, 11)
    ensures Bit(0x1b85, 12)
  {
    hide Bit;
    WordBits(0x1b85);
  }

  lemma Ones7()
    ensures |Ones(0x1b85)| >= 7
  {
    hide Bit, Ones;
    Bits7();
    SevenOnes(0x1b85, {0, 2, 7, 8, 9, 11, 12});
  }

  lemma OnesOfMultiple(q: nat)
    requires 1 <= q < 8
    ensures |Ones(Clmul(q, 0x537))| >= 7
  {
    hide Clmul, Ones;
    FormatMultiples();
    Ones1();
    Ones2();
    Ones3();
    Ones4();
    Ones5();
    Ones6();
    Ones7();
  }

  /** The polynomial that the generator is multiplied by for a format word, without the mask. */
  lemma FormatFactor(mask: nat) returns (q: nat)
    requires mask < 8
    ensures q < 8 && Xor(FormatWord(mask), FORMAT_MASK) == Clmul(q, 0x537) && Clmul(q, 0x537) / 1024 == mask
  {
    hide Xor, Clmul, FormatWord;
    FormatMultiples();
    MultipleUnfold(0);
    FormatUnmasked(mask, if mask == 4 then 5 else if mask == 5 then 4 else if mask == 6 then 7
      else if mask == 7 then 6 else mask);
    q := if mask == 4 then 5 else if mask == 5 then 4 else if mask == 6 then 7 else if mask == 7 then 6 else mask;
  }

  lemma FormatUnmasked(mask: nat, q: nat)
    requires mask < 8 && Clmul(q, FORMAT_GENERATOR) / 1024 == mask && Clmul(q, FORMAT_GENERATOR) < 0x8000
    ensures Xor(FormatWord(mask), FORMAT_MASK) == Clmul(q, FORMAT_GENERATOR)
  {
    hide Xor, Clmul, FormatWord, BitLen, Pow2;
    var w := Clmul(q, FORMAT_GENERATOR);
    FormatWordIs(mask, q, w);
    Pow2Small();
    GeneratorLengths();
    BitLenBound(w, 15);
    BitLenXor(w, FORMAT_MASK);
    BitLenBound(Xor(w, FORMAT_MASK), 15);
    XorCancel(w, FORMAT_MASK);
  }

  lemma {:induction false} XorNonzero(a: nat, b: nat)
    requires a != b
    ensures Xor(a, b) != 0
  {
    if Xor(a, b) == 0 {
      XorCancel(a, b);
      XorZero(b);
    }
  }

  lemma SmallFactors(a: nat, b: nat)
    requires a < 8 && b < 8
    ensures Xor(a, b) < 8
  {
    Pow2Small();
    assert Pow2(3) == 8;
    hide Xor, Pow2, BitLen;
    BitLenBound(a, 3);
    BitLenBound(b, 3);
    BitLenXor(a, b);
    BitLenBound(Xor(a, b), 3);
  }

  /** Two format words differ in at least seven of their fifteen bits. */
  lemma FormatDistance(a: nat, b: nat)
    requires a < 8 && b < 8 && a != b
    ensures |Differing(FormatWord(a), FormatWord(b))| >= 7
  {
    hide *;
    var p := FormatFactor(a);
    var q := FormatFactor(b);
    var x, y := FormatWord(a), FormatWord(b);
    XorSwap(x, FORMAT_MASK, y, FORMAT_MASK);
    XorSelf(FORMAT_MASK);
    XorZero(Xor(x, y));
    ClmulXorLeft(p, q, 0x537);
    XorNonzero(p, q);
    SmallFactors(p, q);
    OnesOfMultiple(Xor(p, q));
    DifferingIsOnes(x, y);
  }

  lemma DifferingTriangle(a: nat, b: nat, w: nat)
    ensures |Differing(a, b)| <= |Differing(w, a)| + |Differing(w, b)|
  {
    hide Bit;
    UnionSize(Differing(w, a), Differing(w, b));
    SubsetSize(Differing(a, b), Differing(w, a) + Differing(w, b));
  }

  /** So at most three wrong bits leave one format word nearest. */
  lemma FormatNearest(word: nat, a: nat, b: nat)
    requires a < 8 && b < 8
    requires |Differing(word, FormatWord(a))| <= 3 && |Differing(word, FormatWord(b))| <= 3
    ensures a == b
  {
    hide *;
    if a != b {
      FormatDistance(a, b);
      DifferingTriangle(FormatWord(a), FormatWord(b), word);
    }
  }
}
