/**
  The field product is the product of polynomials over GF(2), reduced modulo 0x11d: the
  multiplication of the tables and the division of the format codes are the same arithmetic.
 */
module GfPolynomials {
  import opened BinaryPolynomials
  import opened Gf256
  import Bch

  const MODULUS: nat := 0x11d

  // ------------------------------------------------------- bytes as polynomials

  /** A byte below 2^k loses its lowest bit when halved. */
  lemma IndexHalves(a: bv8)
    ensures Index(a) == 2 * Index(a >> 1) + (if a & 1 == 1 then 1 else 0)
  {
    assert a == ((a >> 1) << 1) | (a & 1);
  }

  lemma IndexDigits(a: bv8)
    ensures Index(a) / 2 == Index(a >> 1) && (Index(a) % 2 == 1 <==> a & 1 == 1)
  {
    IndexHalves(a);
    hide Index;
  }

  lemma AddHalves(a: bv8, b: bv8)
    ensures Add(a, b) >> 1 == Add(a >> 1, b >> 1)
    ensures Add(a, b) & 1 == 1 <==> (a & 1 == 1) != (b & 1 == 1)
  {
  }

  lemma ZeroAdds(b: bv8)
    ensures Index(Add(0, b)) == Xor(Index(0), Index(b))
  {
    AddLaws(b, 0, 0);
    XorZero(Index(b));
    XorCommutes(Index(b), 0);
  }

  /** Adding bytes is adding polynomials. */
  lemma {:induction false} IndexAdd(a: bv8, b: bv8)
    ensures Index(Add(a, b)) == Xor(Index(a), Index(b))
    decreases Index(a)
  {
    hide *;
    if a == 0 {
      ZeroAdds(b);
    } else {
      HalfIsLess(a);
      IndexAdd(a >> 1, b >> 1);
      IndexDigits(a);
      IndexDigits(b);
      IndexDigits(Add(a, b));
      AddHalves(a, b);
      XorUnfold(Index(a), Index(b));
    }
  }

  lemma HalfIsLess(a: bv8)
    requires a != 0
    ensures Index(a >> 1) < Index(a)
  {
    IndexHalves(a);
    IndexNonzero(a);
  }

  lemma Length(a: bv8)
    ensures BitLen(Index(a)) <= 8 && Pow2(8) == 256
  {
    assert Pow2(4) == 16 && Pow2(8) == 256;
    BitLenBound(Index(a), 8);
  }

  lemma ModulusLength()
    ensures BitLen(MODULUS) == 9
  {
    assert Pow2(4) == 16 && Pow2(8) == 256 && Pow2(9) == 512;
    BitLenBound(MODULUS, 9);
    BitLenBound(MODULUS, 8);
  }

  // ----------------------------------------------------------- multiplication by x

  lemma DoubleIndex(a: bv8)
    ensures Index(a << 1) == if Index(a) < 128 then 2 * Index(a) else 2 * Index(a) - 256
    ensures a & 0x80 != 0 <==> Index(a) >= 128
  {
  }

  lemma TopBit(m: nat)
    requires m < 256
    ensures Xor(256, m) == 256 + m
  {
    assert Pow2(4) == 16 && Pow2(8) == 256;
    DisjointBits(1, m, 8);
    ShlIsProduct(1, 8);
  }

  lemma XtimeIs(a: bv8)
    ensures Xtime(a) == if a & 0x80 != 0 then Add(a << 1, 0x1d) else a << 1
    ensures Index(0x1d) == 0x1d
  {
  }

  /** Multiplying by x doubles the polynomial, less the modulus if it has become too long. */
  lemma XtimeReduces(a: bv8)
    ensures 2 * Index(a) == Xor(if Index(a) >= 128 then MODULUS else 0, Index(Xtime(a)))
  {
    assert MODULUS == 256 + 0x1d;
    hide *;
    DoubleIndex(a);
    XtimeIs(a);
    if Index(a) < 128 {
      XorZero(2 * Index(a));
    } else {
      var low := Index(a << 1);
      IndexAdd(a << 1, 0x1d);
      TopBit(low);
      TopBit(0x1d);
      XorSwap(256, 0x1d, low, 0x1d);
      XorSelf(0x1d);
      XorZero(2 * Index(a));
    }
  }

  // --------------------------------------------------------------- multiplication

  lemma ClmulEnds(g: nat)
    ensures Clmul(0, g) == 0 && Clmul(1, g) == g
  {
    assert Clmul(0, g) == 0;
    XorZero(g);
  }

  lemma ClmulDouble(q: nat, g: nat)
    ensures Clmul(2 * q, g) == 2 * Clmul(q, g)
  {
    ClmulEnds(g);
    if q != 0 { XorZero(2 * Clmul(q, g)); }
  }

  /** If v is a multiple of the modulus plus r, then 2 * v is one plus r times x. */
  lemma DoubleReduces(v: nat, q: nat, r: bv8) returns (p: nat)
    requires v == Xor(Clmul(q, MODULUS), Index(r))
    ensures 2 * v == Xor(Clmul(p, MODULUS), Index(Xtime(r)))
  {
    hide *;
    var h := if Index(r) >= 128 then 1 else 0;
    XorDouble(Clmul(q, MODULUS), Index(r));
    ClmulDouble(q, MODULUS);
    XtimeReduces(r);
    ClmulEnds(MODULUS);
    XorAssociates(Clmul(2 * q, MODULUS), Clmul(h, MODULUS), Index(Xtime(r)));
    ClmulXorLeft(2 * q, h, MODULUS);
    return Xor(2 * q, h);
  }

  lemma AddsTo(v: nat, q: nat, r: bv8, a: bv8)
    requires v == Xor(Clmul(q, MODULUS), Index(r))
    ensures Xor(Index(a), v) == Xor(Clmul(q, MODULUS), Index(Add(a, r)))
  {
    hide *;
    IndexAdd(a, r);
    XorCommutes(Index(a), v);
    XorAssociates(Clmul(q, MODULUS), Index(r), Index(a));
    XorCommutes(Index(r), Index(a));
  }

  lemma MulHead(a: bv8, b: bv8)
    requires b != 0
    ensures var rest := Xtime(Mul(a, b >> 1)); Mul(a, b) == if b & 1 == 1 then Add(a, rest) else rest
    ensures Clmul(Index(b), Index(a)) ==
      Xor(if Index(b) % 2 == 1 then Index(a) else 0, 2 * Clmul(Index(b) / 2, Index(a)))
  {
    IndexNonzero(b);
    assert b & 1 == 0 || b & 1 == 1;
    hide Index, Add, Xtime;
  }

  lemma MulNothing(a: bv8)
    ensures Mul(a, 0) == 0 && Index(0) == 0 && Clmul(Index(0), Index(a)) == 0
    ensures Xor(Clmul(0, MODULUS), Index(0)) == 0
  {
  }

  /** The carry-less product is the field product plus a multiple of the modulus. */
  lemma {:induction false} ProductCongruent(a: bv8, b: bv8) returns (q: nat)
    ensures Clmul(Index(b), Index(a)) == Xor(Clmul(q, MODULUS), Index(Mul(a, b)))
    decreases Index(b)
  {
    hide *;
    if b == 0 {
      MulNothing(a);
      return 0;
    }
    HalfIsLess(b);
    IndexDigits(b);
    MulHead(a, b);
    q := ProductCongruent(a, b >> 1);
    var v := Clmul(Index(b >> 1), Index(a));
    q := DoubleReduces(v, q, Mul(a, b >> 1));
    AddsTo(2 * v, q, Xtime(Mul(a, b >> 1)), a);
    XorZero(2 * v);
  }

  /** Two bytes multiply in the field as their polynomials do, divided by 0x11d. */
  lemma MulIsRemainder(a: bv8, b: bv8)
    ensures Index(Mul(a, b)) == Bch.Remainder(Clmul(Index(a), Index(b)), MODULUS)
  {
    ModulusLength();
    Length(Mul(b, a));
    var q := ProductCongruent(b, a);
    MulCommutes(a, b);
    var v := Clmul(Index(a), Index(b));
    assert Bch.IsRemainder(v, MODULUS, Index(Mul(b, a)));
    hide Mul, Index, Clmul, Xor, BitLen, Bch.IsRemainder;
    Bch.RemainderDivides(v, MODULUS);
    Bch.RemainderUnique(v, MODULUS, Index(Mul(b, a)), Bch.Remainder(v, MODULUS));
  }
}
