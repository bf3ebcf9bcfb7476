/**
  Polynomials over GF(2) as natural numbers: bit i is the coefficient of x^i, addition is
  exclusive or, and multiplication is carry-less.
 */
module BinaryPolynomials {

  function Xor(a: nat, b: nat): nat {
    if a == 0 then b
    else if b == 0 then a
    else 2 * Xor(a / 2, b / 2) + (if a % 2 == b % 2 then 0 else 1)
  }

  /** Bitwise or. */
  function Or(a: nat, b: nat): nat {
    if a == 0 then b
    else if b == 0 then a
    else 2 * Or(a / 2, b / 2) + (if a % 2 == 1 || b % 2 == 1 then 1 else 0)
  }

  /** The number of significant bits: one more than the degree. */
  function BitLen(a: nat): nat {
    if a == 0 then 0 else 1 + BitLen(a / 2)
  }

  function Pow2(n: nat): (p: nat)
    ensures p >= 1
  {
    if n == 0 then 1 else 2 * Pow2(n - 1)
  }

  /** a shifted left by n bits. */
  function Shl(a: nat, n: nat): nat {
    if n == 0 then a else 2 * Shl(a, n - 1)
  }

  /** a shifted right by n bits. */
  function Shr(a: nat, n: nat): nat {
    if n == 0 then a else Shr(a / 2, n - 1)
  }

  /** The carry-less product. */
  function Clmul(q: nat, g: nat): nat {
    if q == 0 then 0
    else Xor(if q % 2 == 1 then g else 0, 2 * Clmul(q / 2, g))
  }

  // -------------------------------------------------------------- exclusive or

  lemma XorUnfold(a: nat, b: nat)
    ensures Xor(a, b) == 2 * Xor(a / 2, b / 2) + (if a % 2 == b % 2 then 0 else 1)
  {}

  lemma XorHalves(a: nat, b: nat)
    ensures Xor(a, b) / 2 == Xor(a / 2, b / 2)
    ensures Xor(a, b) % 2 == (if a % 2 == b % 2 then 0 else 1)
  {
    XorUnfold(a, b);
  }

  lemma {:induction false} XorCommutes(a: nat, b: nat)
    ensures Xor(a, b) == Xor(b, a)
  {
    if a != 0 && b != 0 {
      XorCommutes(a / 2, b / 2);
    }
  }

  lemma {:induction false} XorSelf(a: nat)
    ensures Xor(a, a) == 0
  {
    if a != 0 {
      XorSelf(a / 2);
    }
  }

  lemma {:induction false} XorAssociates(a: nat, b: nat, c: nat)
    ensures Xor(Xor(a, b), c) == Xor(a, Xor(b, c))
    decreases a + b + c
  {
    if a == 0 || b == 0 || c == 0 {
      XorCommutes(a, 0);
    } else {
      hide Xor;
      XorAssociates(a / 2, b / 2, c / 2);
      XorHalves(a, b);
      XorHalves(b, c);
      XorUnfold(Xor(a, b), c);
      XorUnfold(a, Xor(b, c));
    }
  }

  lemma XorCancel(a: nat, b: nat)
    ensures Xor(Xor(a, b), b) == a && Xor(a, Xor(a, b)) == b
  {
    XorAssociates(a, b, b);
    XorSelf(b);
    XorCommutes(a, 0);
    XorAssociates(a, a, b);
    XorSelf(a);
  }

  lemma XorSwap(a: nat, b: nat, c: nat, d: nat)
    ensures Xor(Xor(a, b), Xor(c, d)) == Xor(Xor(a, c), Xor(b, d))
  {
    XorAssociates(a, b, Xor(c, d));
    XorAssociates(b, c, d);
    XorCommutes(b, c);
    XorAssociates(c, b, d);
    XorAssociates(a, c, Xor(b, d));
  }

  lemma {:induction false} ShlXor(a: nat, b: nat, n: nat)
    ensures Shl(Xor(a, b), n) == Xor(Shl(a, n), Shl(b, n))
  {
    if n > 0 {
      var p, q := Shl(a, n - 1), Shl(b, n - 1);
      assert Shl(a, n) == 2 * p && Shl(b, n) == 2 * q && Shl(Xor(a, b), n) == 2 * Shl(Xor(a, b), n - 1);
      hide Shl, Xor;
      ShlXor(a, b, n - 1);
      XorDouble(p, q);
    }
  }

  lemma XorDouble(p: nat, q: nat)
    ensures Xor(2 * p, 2 * q) == 2 * Xor(p, q)
  {
    hide Xor;
    XorUnfold(2 * p, 2 * q);
  }

  // ------------------------------------------------------------------ lengths

  lemma {:induction false} BitLenBound(a: nat, n: nat)
    ensures BitLen(a) <= n <==> a < Pow2(n)
    decreases a
  {
    if a != 0 && n > 0 {
      BitLenBound(a / 2, n - 1);
    }
  }

  lemma {:induction false} BitLenXor(a: nat, b: nat)
    ensures BitLen(Xor(a, b)) <= if BitLen(a) < BitLen(b) then BitLen(b) else BitLen(a)
    ensures BitLen(a) != BitLen(b) ==> BitLen(Xor(a, b)) == if BitLen(a) < BitLen(b) then BitLen(b) else BitLen(a)
    ensures BitLen(a) == BitLen(b) > 0 ==> BitLen(Xor(a, b)) < BitLen(a)
    decreases a
  {
    if a != 0 && b != 0 {
      BitLenXor(a / 2, b / 2);
      XorHalves(a, b);
    }
  }

  lemma {:induction false} BitLenShl(a: nat, n: nat)
    requires a != 0
    ensures Shl(a, n) != 0
    ensures BitLen(Shl(a, n)) == BitLen(a) + n
  {
    if n > 0 {
      BitLenShl(a, n - 1);
    }
  }

  lemma {:induction false} ShlIsProduct(a: nat, n: nat)
    ensures Shl(a, n) == a * Pow2(n)
  {
    if n > 0 {
      ShlIsProduct(a, n - 1);
    }
  }

  /** Shifted above b, the bits of a do not meet those of b: or, xor and sum agree. */
  lemma {:induction false} DisjointBits(a: nat, b: nat, n: nat)
    requires b < Pow2(n)
    ensures Or(Shl(a, n), b) == Xor(Shl(a, n), b) == Shl(a, n) + b
  {
    if n == 0 {
      XorCommutes(a, 0);
    } else {
      DisjointBits(a, b / 2, n - 1);
      assert Shl(a, n) == 2 * Shl(a, n - 1);
    }
  }

  lemma {:induction false} ShrUndoesShl(a: nat, r: nat, n: nat)
    requires r < Pow2(n)
    ensures Shr(Shl(a, n) + r, n) == a
  {
    if n > 0 {
      ShrUndoesShl(a, r / 2, n - 1);
      assert (Shl(a, n) + r) / 2 == Shl(a, n - 1) + r / 2;
    }
  }

  // ------------------------------------------------------------------ product

  lemma {:induction false} ClmulXorLeft(p: nat, q: nat, g: nat)
    ensures Clmul(Xor(p, q), g) == Xor(Clmul(p, g), Clmul(q, g))
    decreases p + q
  {
    if p == 0 || q == 0 {
      XorZero(Clmul(p, g));
      XorZero(Clmul(q, g));
      XorZero(p);
      XorZero(q);
    } else {
      hide Xor, Clmul;
      ClmulXorLeft(p / 2, q / 2, g);
      XorHalves(p, q);
      ClmulUnfold(Xor(p, q), g);
      ClmulUnfold(p, g);
      ClmulUnfold(q, g);
      ClmulXorParts(p % 2 == 1, Clmul(p / 2, g), q % 2 == 1, Clmul(q / 2, g), g);
    }
  }

  lemma ClmulXorParts(i: bool, a: nat, j: bool, b: nat, g: nat)
    ensures Xor(Xor(if i then g else 0, 2 * a), Xor(if j then g else 0, 2 * b))
         == Xor(if i != j then g else 0, 2 * Xor(a, b))
  {
    hide Xor;
    var ig, jg := if i then g else 0, if j then g else 0;
    XorSwap(ig, 2 * a, jg, 2 * b);
    XorUnfold(2 * a, 2 * b);
    XorSelf(g);
    XorZero(0);
    XorZero(g);
  }

  lemma XorZero(a: nat)
    ensures Xor(a, 0) == a && Xor(0, a) == a
  {}

  lemma ClmulUnfold(q: nat, g: nat)
    ensures Clmul(q, g) == Xor(if q % 2 == 1 then g else 0, 2 * Clmul(q / 2, g))
  {}

  lemma {:induction false} ClmulShl(n: nat, g: nat)
    ensures Clmul(Shl(1, n), g) == Shl(g, n)
  {
    if n == 0 {
      assert Clmul(0, g) == 0;
      XorCommutes(g, 0);
    } else {
      ClmulShl(n - 1, g);
      BitLenShl(1, n);
    }
  }

  lemma {:induction false} ClmulLength(q: nat, g: nat)
    requires q != 0 && g != 0
    ensures BitLen(Clmul(q, g)) == BitLen(q) + BitLen(g) - 1
    ensures Clmul(q, g) != 0
  {
    if q == 1 {
      assert Clmul(0, g) == 0;
      XorCommutes(g, 0);
    } else {
      var rest, term := Clmul(q / 2, g), if q % 2 == 1 then g else 0;
      assert Clmul(q, g) == Xor(term, 2 * rest) && BitLen(q) == 1 + BitLen(q / 2) >= 2;
      assert BitLen(term) <= BitLen(g);
      ClmulLength(q / 2, g);
      hide Clmul, Xor;
      assert BitLen(2 * rest) == 1 + BitLen(rest);
      hide BitLen;
      BitLenXor(term, 2 * rest);
      BitLenPositive(Xor(term, 2 * rest));
    }
  }

  lemma BitLenPositive(a: nat)
    ensures a != 0 <==> BitLen(a) > 0
  {
  }

  /** Over GF(2)[x], quotient and remainder of a division are unique. */
  lemma DivisionUnique(q: nat, r: nat, q': nat, r': nat, g: nat)
    requires BitLen(r) < BitLen(g) && BitLen(r') < BitLen(g)
    requires Xor(Clmul(q, g), r) == Xor(Clmul(q', g), r')
    ensures q == q' && r == r'
  {
    var a, b := Clmul(q, g), Clmul(q', g);
    // Clmul(q xor q', g) = r xor r', which is too short for a nonzero multiple
    XorSwap(a, r, b, r');
    XorSelf(Xor(a, r));
    ClmulXorLeft(q, q', g);
    var d := Xor(q, q');
    XorCancel(Xor(a, b), Xor(r, r'));
    BitLenXor(r, r');
    if d != 0 {
      ClmulLength(d, g);
    }
    XorCancel(q, q');
    XorCancel(r, r');
    XorCommutes(q, 0);
    XorCommutes(r, 0);
  }

  // ---------------------------------------------------------- bits of a number

  /** Bit i of a: (a >> i) & 1. */
  function Bit(a: nat, i: nat): bool {
    if i == 0 then a % 2 == 1 else Bit(a / 2, i - 1)
  }

  /** The low count bits of a, most significant first. */
  function BitsOf(a: nat, count: nat): (bits: seq<bool>)
    ensures |bits| == count
  {
    seq(count, i requires 0 <= i < count => Bit(a, count - 1 - i))
  }

  /** The number that a big-endian sequence of bits denotes. */
  function Value(bits: seq<bool>): nat {
    if bits == [] then 0
    else 2 * Value(bits[..|bits| - 1]) + (if bits[|bits| - 1] then 1 else 0)
  }

  lemma BitsOfInit(a: nat, count: nat)
    requires count > 0
    ensures BitsOf(a, count) == BitsOf(a / 2, count - 1) + [a % 2 == 1]
  {
    forall i | 0 <= i < count - 1
      ensures BitsOf(a, count)[i] == BitsOf(a / 2, count - 1)[i]
    {
      assert Bit(a, count - 1 - i) == Bit(a / 2, count - 2 - i);
    }
    assert BitsOf(a, count)[count - 1] == Bit(a, 0) == (a % 2 == 1);
  }

  lemma {:induction false} ValueOfBits(a: nat, count: nat)
    requires a < Pow2(count)
    ensures Value(BitsOf(a, count)) == a
  {
    if count > 0 {
      ValueOfBits(a / 2, count - 1);
      BitsOfInit(a, count);
    }
  }

  lemma {:induction false} ValueBound(bits: seq<bool>)
    ensures Value(bits) < Pow2(|bits|)
  {
    if bits != [] {
      ValueBound(bits[..|bits| - 1]);
    }
  }

  lemma {:induction false} BitsOfValue(bits: seq<bool>)
    ensures BitsOf(Value(bits), |bits|) == bits
  {
    if bits != [] {
      var init := bits[..|bits| - 1];
      BitsOfValue(init);
      BitsOfInit(Value(bits), |bits|);
      assert bits == init + [bits[|bits| - 1]];
    }
  }

  /** The bits of a number are those it is written with. */
  lemma {:induction false} BitOfValue(bits: seq<bool>, i: nat)
    requires i < |bits|
    ensures Bit(Value(bits), i) == bits[|bits| - 1 - i]
  {
    var init := bits[..|bits| - 1];
    assert Value(bits) / 2 == Value(init);
    if i > 0 {
      BitOfValue(init, i - 1);
    }
  }

  lemma Pow2Small()
    ensures Pow2(4) == 16 && Pow2(8) == 256 && Pow2(16) == 65536
    ensures Pow2(10) == 1024 && Pow2(12) == 4096 && Pow2(15) == 32768 && Pow2(18) == 262144
  {
    assert Pow2(4) == 16;
    assert Pow2(8) == 256;
    assert Pow2(12) == 4096;
    assert Pow2(16) == 65536;
  }
}
