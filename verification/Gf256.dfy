/**
  GF(256) with the primitive polynomial 0x11d, as used by the QR encoder.

  Multiplication is defined without tables: a carry-less product, reduced one shift at a
  time. The field laws are proved about that definition, and the log/exp tables the encoder
  computes with are then proved to represent it.
 */
module Gf256 {
  import opened FiniteSets

  /** Addition and subtraction of field elements: bytewise exclusive or. */
  function Add(a: bv8, b: bv8): bv8 { a ^ b }

  /** Multiplication by x, that is by the byte 2, reduced modulo 0x11d. */
  function Xtime(a: bv8): bv8 {
    if a & 0x80 != 0 then (a << 1) ^ 0x1d else a << 1
  }

  /** The carry-less product of a and b modulo 0x11d, by Horner's rule on the bits of b. */
  function Mul(a: bv8, b: bv8): bv8
    decreases b
  {
    if b == 0 then 0
    else
      var rest := Xtime(Mul(a, b >> 1));
      if b & 1 != 0 then Add(a, rest) else rest
  }

  function Pow(x: bv8, n: nat): bv8 {
    if n == 0 then 1 else Mul(Pow(x, n - 1), x)
  }

  /** The generator of the multiplicative group. */
  const ALPHA: bv8 := 2

  // ---------------------------------------------------------------- addition

  lemma AddLaws(a: bv8, b: bv8, c: bv8)
    ensures Add(a, b) == Add(b, a)
    ensures Add(a, Add(b, c)) == Add(Add(a, b), c)
    ensures Add(a, 0) == a && Add(0, a) == a && Add(a, a) == 0
    ensures Add(a, Add(a, b)) == b
  {}

  lemma AddZeroIffEqual(a: bv8, b: bv8)
    ensures Add(a, b) == 0 <==> a == b
  {}

  lemma AddSwap(a: bv8, b: bv8, c: bv8, d: bv8)
    ensures Add(Add(a, b), Add(c, d)) == Add(Add(a, c), Add(b, d))
  {
    hide Add;
    AddLaws(Add(a, b), c, d);
    AddLaws(a, b, c);
    AddLaws(c, b, 0);
    AddLaws(a, c, b);
    AddLaws(Add(a, c), b, d);
  }

  // ---------------------------------------------------------- multiplication

  lemma ShiftAdd(a: bv8, b: bv8)
    ensures Add(a, b) << 1 == Add(a << 1, b << 1)
    ensures Add(a, b) >> 1 == Add(a >> 1, b >> 1)
  {}

  lemma BitAdd(a: bv8, b: bv8)
    ensures (Add(a, b) & 0x80 != 0) == ((a & 0x80 != 0) != (b & 0x80 != 0))
    ensures (Add(a, b) & 1 != 0) == ((a & 1 != 0) != (b & 1 != 0))
  {}

  lemma XtimeAdd(a: bv8, b: bv8)
    ensures Xtime(Add(a, b)) == Add(Xtime(a), Xtime(b))
  {
    var r: bv8 := 0x1d;
    ShiftAdd(a, b);
    BitAdd(a, b);
    var ta, tb := if a & 0x80 != 0 then r else 0, if b & 0x80 != 0 then r else 0;
    XtimeAsAdd(a);
    XtimeAsAdd(b);
    XtimeAsAdd(Add(a, b));
    hide Add, Xtime;
    AddLaws(r, r, r);
    AddLaws(r, 0, 0);
    AddLaws(0, 0, 0);
    AddSwap(a << 1, ta, b << 1, tb);
  }

  lemma XtimeAsAdd(a: bv8)
    ensures Xtime(a) == Add(a << 1, if a & 0x80 != 0 then 0x1d else 0)
  {}

  /** Every byte is its low bit plus x times its upper half. */
  lemma Halve(b: bv8)
    ensures b == if b & 1 != 0 then Add(1, Xtime(b >> 1)) else Xtime(b >> 1)
  {}

  lemma MulUnfold(a: bv8, b: bv8)
    requires b != 0
    ensures Mul(a, b) == if b & 1 != 0 then Add(a, Xtime(Mul(a, b >> 1))) else Xtime(Mul(a, b >> 1))
  {}

  lemma MulZero(a: bv8)
    ensures Mul(a, 0) == 0 && Mul(0, a) == 0
  {
    MulZeroLeft(a);
  }

  lemma {:induction false} MulZeroLeft(b: bv8)
    ensures Mul(0, b) == 0
    decreases b
  {
    if b != 0 {
      MulZeroLeft(b >> 1);
    }
  }

  lemma {:induction false} MulOneLeft(b: bv8)
    ensures Mul(1, b) == b
    decreases b
  {
    if b != 0 {
      MulOneLeft(b >> 1);
      Halve(b);
    }
  }

  lemma MulOne(a: bv8)
    ensures Mul(a, 1) == a && Mul(1, a) == a
  {
    MulOneLeft(a);
    MulAlphaUnfold(a);
  }

  lemma MulAlphaUnfold(a: bv8)
    ensures Mul(a, 1) == a && Mul(a, ALPHA) == Xtime(a)
  {
    assert Mul(a, 0) == 0;
    assert Mul(a, 1) == Add(a, Xtime(0));
  }

  lemma {:induction false} MulAddLeft(a: bv8, b: bv8, c: bv8)
    ensures Mul(Add(a, b), c) == Add(Mul(a, c), Mul(b, c))
    decreases c
  {
    hide Add, Xtime;
    if c == 0 {
      AddLaws(0, 0, 0);
    } else {
      MulAddLeft(a, b, c >> 1);
      var p, q := Mul(a, c >> 1), Mul(b, c >> 1);
      XtimeAdd(p, q);
      AddSwap(a, b, Xtime(p), Xtime(q));
    }
  }

  lemma {:induction false} MulXtimeLeft(a: bv8, b: bv8)
    ensures Mul(Xtime(a), b) == Xtime(Mul(a, b))
    decreases b
  {
    hide Add;
    if b == 0 {
      assert Xtime(0) == 0;
    } else {
      hide Xtime;
      MulXtimeLeft(a, b >> 1);
      XtimeAdd(a, Xtime(Mul(a, b >> 1)));
    }
  }

  /** GF(256) multiplication is commutative. */
  lemma {:induction false} MulCommutes(a: bv8, b: bv8)
    ensures Mul(a, b) == Mul(b, a)
    decreases b
  {
    hide Add, Xtime, Mul;
    MulZero(a);
    if b != 0 {
      MulUnfold(a, b);
      MulCommutes(a, b >> 1);
      Halve(b);
      MulAddLeft(1, Xtime(b >> 1), a);
      MulXtimeLeft(b >> 1, a);
      MulOne(a);
    }
  }

  /** Multiplication distributes over exclusive or. */
  lemma MulAddRight(a: bv8, b: bv8, c: bv8)
    ensures Mul(a, Add(b, c)) == Add(Mul(a, b), Mul(a, c))
  {
    hide Add, Xtime, Mul;
    MulCommutes(a, Add(b, c));
    MulAddLeft(b, c, a);
    MulCommutes(a, b);
    MulCommutes(a, c);
  }

  lemma MulXtimeRight(a: bv8, b: bv8)
    ensures Mul(a, Xtime(b)) == Xtime(Mul(a, b))
  {
    hide Add, Xtime, Mul;
    MulCommutes(a, Xtime(b));
    MulXtimeLeft(b, a);
    MulCommutes(a, b);
  }

  /** GF(256) multiplication is associative. */
  lemma {:induction false} MulAssociates(a: bv8, b: bv8, c: bv8)
    ensures Mul(Mul(a, b), c) == Mul(a, Mul(b, c))
    decreases c
  {
    hide Add, Xtime;
    if c == 0 {
      MulZero(a);
    } else {
      MulAssociates(a, b, c >> 1);
      var rest := Mul(b, c >> 1);
      MulXtimeRight(a, rest);
      MulAddRight(a, b, Xtime(rest));
    }
  }

  // ------------------------------------------------------------------ powers

  lemma {:induction false} PowAdd(x: bv8, m: nat, n: nat)
    ensures Pow(x, m + n) == Mul(Pow(x, m), Pow(x, n))
    decreases n
  {
    hide Add, Xtime, Mul;
    if n == 0 {
      MulOne(Pow(x, m));
    } else {
      PowAdd(x, m, n - 1);
      MulAssociates(Pow(x, m), Pow(x, n - 1), x);
    }
  }

  lemma {:induction false} PowOfOne(n: nat)
    ensures Pow(1, n) == 1
  {
    hide Add, Xtime, Mul;
    if n > 0 {
      PowOfOne(n - 1);
      MulOne(1);
    }
  }

  lemma {:induction false} PowMul(x: bv8, m: nat, n: nat)
    ensures Pow(x, m * n) == Pow(Pow(x, m), n)
    decreases n
  {
    hide Add, Xtime, Mul;
    if n == 0 {
    } else {
      PowMul(x, m, n - 1);
      assert m * n == m * (n - 1) + m;
      PowAdd(x, m * (n - 1), m);
    }
  }

  // ------------------------------------------------- the order of the generator

  lemma PowAlphaStep(n: nat)
    ensures Pow(ALPHA, n + 1) == Xtime(Pow(ALPHA, n))
  {
    MulAlphaUnfold(Pow(ALPHA, n));
  }

  lemma PowAlphaSmall()
    ensures Pow(ALPHA, 1) == 0x02 && Pow(ALPHA, 8) == 0x1d && Pow(ALPHA, 15) == 0x26 && Pow(ALPHA, 17) == 0x98
  {
    hide Mul, Pow, Xtime;
    assert Pow(ALPHA, 0) == 1 by { PowZero(ALPHA); }
    XtimeTable();
    for i := 0 to 17
      invariant Pow(ALPHA, i) == [0x01, 0x02, 0x04, 0x08, 0x10, 0x20, 0x40, 0x80, 0x1d, 0x3a,
                                  0x74, 0xe8, 0xcd, 0x87, 0x13, 0x26, 0x4c, 0x98][i]
      invariant i >= 1 ==> Pow(ALPHA, 1) == 0x02
      invariant i >= 8 ==> Pow(ALPHA, 8) == 0x1d
      invariant i >= 15 ==> Pow(ALPHA, 15) == 0x26
    {
      PowAlphaStep(i);
    }
  }

  lemma PowZero(x: bv8)
    ensures Pow(x, 0) == 1
  {}

  lemma XtimeTable()
    ensures Xtime(0x01) == 0x02 && Xtime(0x02) == 0x04 && Xtime(0x04) == 0x08 && Xtime(0x08) == 0x10
    ensures Xtime(0x10) == 0x20 && Xtime(0x20) == 0x40 && Xtime(0x40) == 0x80 && Xtime(0x80) == 0x1d
    ensures Xtime(0x1d) == 0x3a && Xtime(0x3a) == 0x74 && Xtime(0x74) == 0xe8 && Xtime(0xe8) == 0xcd
    ensures Xtime(0xcd) == 0x87 && Xtime(0x87) == 0x13 && Xtime(0x13) == 0x26 && Xtime(0x26) == 0x4c
    ensures Xtime(0x4c) == 0x98
  {}

  lemma MulTable()
    ensures Mul(0x98, 0x98) == 0x4e
    ensures Mul(0x4e, 0x98) == 0x0a
    ensures Mul(0x4e, 0x0a) == 0xd6
    ensures Mul(0xd6, 0xd6) == 0xd7
    ensures Mul(0xd7, 0xd6) == 1
  {
    assert Mul(0x98, 0x01) == 0x98 && Mul(0x98, 0x02) == 0x2d && Mul(0x98, 0x04) == 0x5a && Mul(0x98, 0x09) == 0x2c;
    assert Mul(0x98, 0x13) == 0xc0 && Mul(0x98, 0x26) == 0x9d && Mul(0x98, 0x4c) == 0x27;
    assert Mul(0x4e, 0x01) == 0x4e && Mul(0x4e, 0x02) == 0x9c && Mul(0x4e, 0x04) == 0x25 && Mul(0x4e, 0x09) == 0x04;
    assert Mul(0x4e, 0x13) == 0x46 && Mul(0x4e, 0x26) == 0x8c && Mul(0x4e, 0x4c) == 0x05;
    assert Mul(0x4e, 0x01) == 0x4e && Mul(0x4e, 0x02) == 0x9c && Mul(0x4e, 0x05) == 0x6b;
    assert Mul(0xd6, 0x01) == 0xd6 && Mul(0xd6, 0x03) == 0x67 && Mul(0xd6, 0x06) == 0xce && Mul(0xd6, 0x0d) == 0x57;
    assert Mul(0xd6, 0x1a) == 0xae && Mul(0xd6, 0x35) == 0x97 && Mul(0xd6, 0x6b) == 0xe5;
    assert Mul(0xd7, 0x01) == 0xd7 && Mul(0xd7, 0x03) == 0x64 && Mul(0xd7, 0x06) == 0xc8 && Mul(0xd7, 0x0d) == 0x5a;
    assert Mul(0xd7, 0x1a) == 0xb4 && Mul(0xd7, 0x35) == 0xa2 && Mul(0xd7, 0x6b) == 0x8e;
  }

  lemma PowAlphaOrder()
    ensures Pow(ALPHA, 15) != 1 && Pow(ALPHA, 51) != 1 && Pow(ALPHA, 85) != 1
    ensures Pow(ALPHA, 255) == 1
  {
    hide Mul, Pow, Xtime;
    PowAlphaSmall();
    MulTable();
    PowAdd(ALPHA, 17, 17);
    PowAdd(ALPHA, 34, 17);
    PowAdd(ALPHA, 34, 51);
    PowAdd(ALPHA, 85, 85);
    PowAdd(ALPHA, 170, 85);
  }

  lemma PowRemainder(n: nat, d: nat)
    requires d > 0 && Pow(ALPHA, d) == 1
    ensures Pow(ALPHA, n) == Pow(ALPHA, n % d)
  {
    hide Mul, Pow, Xtime;
    assert n == d * (n / d) + n % d;
    PowAdd(ALPHA, d * (n / d), n % d);
    PowMul(ALPHA, d, n / d);
    PowOfOne(n / d);
    MulOne(Pow(ALPHA, n % d));
  }

  /** A proper divisor of 255 = 3 * 5 * 17 divides one of 15, 51 and 85. */
  lemma ProperDivisorOf255(d: nat)
    requires 0 < d < 255 && 255 % d == 0
    ensures d == 1 || d == 3 || d == 5 || d == 15 || d == 17 || d == 51 || d == 85
  {
    var k := 255 / d;
    assert d * k == 255;
    if d >= 16 && k >= 16 {
      assert false;
    }
    if d >= 16 {
      assert k == 1 || k == 2 || k == 3 || k == 4 || k == 5 || k == 6 || k == 7 || k == 8
        || k == 9 || k == 10 || k == 11 || k == 12 || k == 13 || k == 14 || k == 15;
    }
  }

  /** ALPHA generates a group of order exactly 255. */
  lemma {:induction false} AlphaPrimitive(d: nat)
    requires 0 < d < 255
    ensures Pow(ALPHA, d) != 1
    decreases d
  {
    hide Mul, Pow, Xtime;
    PowAlphaOrder();
    if Pow(ALPHA, d) == 1 {
      PowRemainder(255, d);
      if 255 % d > 0 {
        AlphaPrimitive(255 % d);
      } else {
        ProperDivisorOf255(d);
        PowZero(ALPHA);
        PowRemainder(if 15 % d == 0 then 15 else if 51 % d == 0 then 51 else 85, d);
      }
    }
  }

  lemma PowAlphaWraps(n: nat)
    ensures Pow(ALPHA, n + 255) == Pow(ALPHA, n)
  {
    hide Mul, Pow, Xtime;
    PowAlphaOrder();
    PowAdd(ALPHA, n, 255);
    MulOne(Pow(ALPHA, n));
  }

  lemma PowAlphaNonzero(n: nat)
    ensures Pow(ALPHA, n) != 0
    decreases n
  {
    hide Mul, Pow, Xtime;
    PowAlphaOrder();
    PowRemainder(n, 255);
    var m := n % 255;
    PowAdd(ALPHA, m, 255 - m);
    MulZero(Pow(ALPHA, 255 - m));
  }

  /** The powers with exponents below 255 are pairwise distinct. */
  lemma PowAlphaInjective(i: nat, j: nat)
    requires i < j < 255
    ensures Pow(ALPHA, i) != Pow(ALPHA, j)
  {
    hide Mul, Pow, Xtime;
    if Pow(ALPHA, i) == Pow(ALPHA, j) {
      PowAlphaOrder();
      PowAdd(ALPHA, i, 255 - i);
      PowAdd(ALPHA, j, 255 - i);
      PowAlphaWraps(j - i);
      AlphaPrimitive(j - i);
    }
  }

  // --------------------------------------------------- discrete logarithms

  function UpTo(n: nat): set<int> {
    if n == 0 then {} else UpTo(n - 1) + {n}
  }

  lemma {:induction false} UpToRange(n: nat)
    ensures |UpTo(n)| == n
    ensures forall v :: v in UpTo(n) <==> 1 <= v <= n
  {
    if n > 0 {
      UpToRange(n - 1);
    }
  }

  lemma {:induction false} DistinctSize(s: seq<int>)
    requires forall i, j :: 0 <= i < j < |s| ==> s[i] != s[j]
    ensures |set v | v in s| == |s|
  {
    if s != [] {
      var init := s[..|s| - 1];
      DistinctSize(init);
      assert s == init + [s[|s| - 1]];
      assert (set v | v in s) == (set v | v in init) + {s[|s| - 1]};
    }
  }

  /** A sequence of n distinct numbers from 1..n lists all of them. */
  lemma Pigeonhole(s: seq<int>, v: int)
    requires forall i, j :: 0 <= i < j < |s| ==> s[i] != s[j]
    requires forall i :: 0 <= i < |s| ==> 1 <= s[i] <= |s|
    requires 1 <= v <= |s|
    ensures v in s
  {
    var range, elems := UpTo(|s|), set v | v in s;
    UpToRange(|s|);
    DistinctSize(s);
    assert elems <= range;
    if v !in elems {
      assert elems <= range - {v};
      SubsetSize(elems, range - {v});
    }
  }

  /** A byte as a table index. */
  function Index(a: bv8): (i: nat)
    ensures i < 256
  {
    a as int
  }

  lemma IndexNonzero(a: bv8)
    ensures a != 0 <==> 1 <= Index(a)
  {}

  lemma IndexInjective(a: bv8, b: bv8)
    requires Index(a) == Index(b)
    ensures a == b
  {}

  /** Every nonzero field element is a power of ALPHA. */
  lemma DiscreteLog(a: bv8) returns (i: nat)
    requires a != 0
    ensures i < 255 && Pow(ALPHA, i) == a
  {
    hide Mul, Pow, Xtime, Index;
    var powers := seq(255, (i: nat) => Index(Pow(ALPHA, i)));
    forall i, j | 0 <= i < j < 255
      ensures powers[i] != powers[j]
    {
      PowAlphaInjective(i, j);
      if powers[i] == powers[j] {
        IndexInjective(Pow(ALPHA, i), Pow(ALPHA, j));
      }
    }
    forall i: nat | i < 255
      ensures 1 <= powers[i] <= 255
    {
      PowAlphaNonzero(i);
      IndexNonzero(Pow(ALPHA, i));
    }
    IndexNonzero(a);
    Pigeonhole(powers, Index(a));
    i :| 0 <= i < 255 && powers[i] == Index(a);
    IndexInjective(Pow(ALPHA, i), a);
  }

  /** GF(256) is a field: every nonzero element has an inverse. */
  lemma MulInverse(a: bv8) returns (inv: bv8)
    requires a != 0
    ensures Mul(a, inv) == 1
  {
    hide Mul, Pow, Xtime;
    var i := DiscreteLog(a);
    inv := Pow(ALPHA, 255 - i);
    PowAdd(ALPHA, i, 255 - i);
    PowAlphaOrder();
  }

  lemma NoZeroDivisors(a: bv8, b: bv8)
    ensures Mul(a, b) == 0 <==> a == 0 || b == 0
  {
    hide Mul, Pow, Xtime;
    MulZero(a);
    MulZero(b);
    if a != 0 && b != 0 {
      var inv := MulInverse(a);
      MulAssociates(inv, a, b);
      MulCommutes(inv, a);
      MulOne(b);
      MulZero(inv);
    }
  }
}
