/**
  What the twist, the tempering and the seeding do to single bits, and that no two seeds
  leave the same state.
 */
module TwisterLaws {
  import opened BinaryPolynomials
  import opened MersenneTwister

  /** The words with a single bit, lowest first. */
  const BITS: seq<bv32> := [
    0x00000001, 0x00000002, 0x00000004, 0x00000008, 0x00000010, 0x00000020, 0x00000040, 0x00000080,
    0x00000100, 0x00000200, 0x00000400, 0x00000800, 0x00001000, 0x00002000, 0x00004000, 0x00008000,
    0x00010000, 0x00020000, 0x00040000, 0x00080000, 0x00100000, 0x00200000, 0x00400000, 0x00800000,
    0x01000000, 0x02000000, 0x04000000, 0x08000000, 0x10000000, 0x20000000, 0x40000000, 0x80000000]

  // -------------------------------------------------------------------- the twist

  lemma JoinedSees(u: bv32, l: bv32, u': bv32, l': bv32)
    requires u & 0x80000000 == u' & 0x80000000 && l & 0x7fffffff == l' & 0x7fffffff
    ensures Joined(u, l) == Joined(u', l')
  {
  }

  lemma OtherBits(u: bv32)
    ensures (u ^ 0x7fffffff) & 0x80000000 == u & 0x80000000 && (u ^ 0x80000000) & 0x7fffffff == u & 0x7fffffff
  {
  }

  /** The twist sees the top bit of its first word and the other bits of its second, and nothing else. */
  lemma TwistSees(u: bv32, l: bv32, u': bv32, l': bv32)
    ensures u & 0x80000000 == u' & 0x80000000 && l & 0x7fffffff == l' & 0x7fffffff ==>
      Twist(u, l) == Twist(u', l')
    ensures Twist(u ^ 0x7fffffff, l) == Twist(u, l) == Twist(u, l ^ 0x80000000)
  {
    hide Joined, Half, Reduction, Exclusive;
    OtherBits(u);
    OtherBits(l);
    JoinedSees(u, l, u ^ 0x7fffffff, l);
    JoinedSees(u, l, u, l ^ 0x80000000);
    if u & 0x80000000 == u' & 0x80000000 && l & 0x7fffffff == l' & 0x7fffffff {
      JoinedSees(u, l, u', l');
    }
  }

  lemma TwistParts(u: bv32, l: bv32)
    ensures Twist(u, l) == Exclusive(Half(Joined(u, l)), Reduction(Joined(u, l)))
  {
    hide Half, Joined, Reduction, Exclusive;
  }

  lemma JoinedLinear(u: bv32, l: bv32, u': bv32, l': bv32)
    ensures Joined(Exclusive(u, u'), Exclusive(l, l')) == Exclusive(Joined(u, l), Joined(u', l'))
  {
  }

  lemma HalfLinear(y: bv32, z: bv32)
    ensures Half(Exclusive(y, z)) == Exclusive(Half(y), Half(z))
  {
  }

  lemma ReductionLinear(y: bv32, z: bv32)
    ensures Reduction(Exclusive(y, z)) == Exclusive(Reduction(y), Reduction(z))
  {
    assert (y ^ z) & 1 != 0 <==> ((y & 1 != 0) != (z & 1 != 0));
  }

  lemma ExclusiveSwap(a: bv32, b: bv32, c: bv32, d: bv32)
    ensures Exclusive(Exclusive(a, b), Exclusive(c, d)) == Exclusive(Exclusive(a, c), Exclusive(b, d))
  {
    hide Exclusive;
    ExclusiveAssociates(a, b, Exclusive(c, d));
    ExclusiveAssociates(b, c, d);
    ExclusiveLaws(b, c);
    ExclusiveAssociates(c, b, d);
    ExclusiveAssociates(a, c, Exclusive(b, d));
  }

  /** The twist is linear over exclusive or. */
  lemma TwistLinear(u: bv32, l: bv32, u': bv32, l': bv32)
    ensures Twist(Exclusive(u, u'), Exclusive(l, l')) == Exclusive(Twist(u, l), Twist(u', l'))
  {
    hide *;
    var y, z := Joined(u, l), Joined(u', l');
    TwistParts(u, l);
    TwistParts(u', l');
    TwistParts(Exclusive(u, u'), Exclusive(l, l'));
    JoinedLinear(u, l, u', l');
    HalfLinear(y, z);
    ReductionLinear(y, z);
    ExclusiveSwap(Half(y), Half(z), Reduction(y), Reduction(z));
  }

  lemma EvenJoined(b: bv32)
    requires b & 0xc0000000 == 0
    ensures Joined(0, b << 1) == b << 1 && Half(b << 1) == b && Reduction(b << 1) == 0
  {
  }

  lemma TopJoined()
    ensures Joined(0x80000000, 0) == 0x80000000 && Half(0x80000000) == 0x40000000 && Reduction(0x80000000) == 0
    ensures Joined(0, 1) == 1 && Half(1) == 0 && Reduction(1) == 0x9908b0df
  {
  }

  /** The top bit moves to bit 30, the lowest becomes the constant, and every other moves one down. */
  lemma TwistBits(b: bv32)
    ensures Twist(0x80000000, 0) == 0x40000000 && Twist(0, 1) == 0x9908b0df
    ensures b & 0xc0000000 == 0 ==> Twist(0, b << 1) == b
  {
    hide Joined, Half, Reduction, Exclusive;
    TopJoined();
    ExclusiveLaws(0x40000000, 0);
    ExclusiveLaws(0, 0x9908b0df);
    ExclusiveLaws(0x9908b0df, 0);
    if b & 0xc0000000 == 0 {
      EvenJoined(b);
      ExclusiveLaws(b, 0);
    }
  }

  /** The recurrence: x(k + 624) = x(k + 397) xor twist(x(k), x(k + 1)). */
  lemma Recurrence(init: seq<bv32>, k: nat)
    requires |init| == 624
    ensures k < 624 ==> X(init, k) == init[k]
    ensures X(init, k + 624) == Exclusive(X(init, k + 397), Twist(X(init, k), X(init, k + 1)))
  {
    hide Twist;
  }

  // ---------------------------------------------------------------- the tempering

  lemma Right11Linear(x: bv32, y: bv32)
    ensures Right11(Exclusive(x, y)) == Exclusive(Right11(x), Right11(y))
  {
    hide Exclusive, Down11;
    DownExclusive(x, y);
    ExclusiveSwap(x, y, Down11(x), Down11(y));
  }

  lemma Right18Linear(x: bv32, y: bv32)
    ensures Right18(Exclusive(x, y)) == Exclusive(Right18(x), Right18(y))
  {
    hide Exclusive, Down18;
    DownExclusive(x, y);
    ExclusiveSwap(x, y, Down18(x), Down18(y));
  }

  lemma UpLinear(x: bv32, y: bv32)
    ensures Up7(Exclusive(x, y)) == Exclusive(Up7(x), Up7(y))
    ensures Up15(Exclusive(x, y)) == Exclusive(Up15(x), Up15(y))
  {
  }

  lemma LeftParts(x: bv32)
    ensures Left7(x) == Exclusive(x, Up7(x)) && Left15(x) == Exclusive(x, Up15(x))
  {
    hide Exclusive, Up7, Up15;
  }

  lemma LeftLinear(x: bv32, y: bv32)
    ensures Left7(Exclusive(x, y)) == Exclusive(Left7(x), Left7(y))
    ensures Left15(Exclusive(x, y)) == Exclusive(Left15(x), Left15(y))
  {
    hide *;
    LeftParts(x);
    LeftParts(y);
    LeftParts(Exclusive(x, y));
    UpLinear(x, y);
    ExclusiveSwap(x, y, Up7(x), Up7(y));
    ExclusiveSwap(x, y, Up15(x), Up15(y));
  }

  lemma TemperParts(x: bv32)
    ensures Temper(x) == Right18(Left15(Left7(Right11(x))))
  {
    hide Right18, Left15, Left7, Right11;
  }

  /** Tempering is linear over exclusive or. */
  lemma TemperLinear(x: bv32, y: bv32)
    ensures Temper(Exclusive(x, y)) == Exclusive(Temper(x), Temper(y))
  {
    hide *;
    TemperParts(x);
    TemperParts(y);
    TemperParts(Exclusive(x, y));
    Right11Linear(x, y);
    LeftLinear(Right11(x), Right11(y));
    LeftLinear(Left7(Right11(x)), Left7(Right11(y)));
    Right18Linear(Left15(Left7(Right11(x))), Left15(Left7(Right11(y))));
  }

  /** What tempering makes of each bit, lowest first. */
  const TEMPERED: seq<bv32> := [
    0x00400091, 0x00000002, 0x01020244, 0x02040489, 0x00000010, 0x08001220, 0x00000040, 0x20404890,
    0x00800120, 0x01000240, 0x02000480, 0x04440990, 0x08081200, 0x01022244, 0x22244c81, 0x40009010,
    0x88013220, 0x01020000, 0x20444891, 0x04880022, 0x09100044, 0x12200088, 0x04440911, 0x08881222,
    0x81000040, 0x22204888, 0x44009100, 0x88012200, 0x11020440, 0x20040801, 0x44081102, 0x88102204]

  lemma TemperBits(k: nat)
    requires k < 32
    ensures Temper(BITS[k]) == TEMPERED[k]
  {
    hide Temper;
    if k < 8 {
      TemperLow();
    } else if k < 16 {
      TemperMiddle();
    } else if k < 24 {
      TemperHigh();
    } else {
      TemperTop();
    }
  }

  lemma TemperLow()
    ensures Temper(0x00000001) == 0x00400091 && Temper(0x00000002) == 0x00000002
    ensures Temper(0x00000004) == 0x01020244 && Temper(0x00000008) == 0x02040489
    ensures Temper(0x00000010) == 0x00000010 && Temper(0x00000020) == 0x08001220
    ensures Temper(0x00000040) == 0x00000040 && Temper(0x00000080) == 0x20404890
  {
  }

  lemma TemperMiddle()
    ensures Temper(0x00000100) == 0x00800120 && Temper(0x00000200) == 0x01000240
    ensures Temper(0x00000400) == 0x02000480 && Temper(0x00000800) == 0x04440990
    ensures Temper(0x00001000) == 0x08081200 && Temper(0x00002000) == 0x01022244
    ensures Temper(0x00004000) == 0x22244c81 && Temper(0x00008000) == 0x40009010
  {
  }

  lemma TemperHigh()
    ensures Temper(0x00010000) == 0x88013220 && Temper(0x00020000) == 0x01020000
    ensures Temper(0x00040000) == 0x20444891 && Temper(0x00080000) == 0x04880022
    ensures Temper(0x00100000) == 0x09100044 && Temper(0x00200000) == 0x12200088
    ensures Temper(0x00400000) == 0x04440911 && Temper(0x00800000) == 0x08881222
  {
  }

  lemma TemperTop()
    ensures Temper(0x01000000) == 0x81000040 && Temper(0x02000000) == 0x22204888
    ensures Temper(0x04000000) == 0x44009100 && Temper(0x08000000) == 0x88012200
    ensures Temper(0x10000000) == 0x11020440 && Temper(0x20000000) == 0x20040801
    ensures Temper(0x40000000) == 0x44081102 && Temper(0x80000000) == 0x88102204
  {
  }

  // ------------------------------------------------------------------ the seeding

  lemma FoldTopIs(x: bv32)
    ensures FoldTop(x) == x ^ (x >> 30)
  {
  }

  lemma NoTop(x: bv32)
    requires x & 0xc0000000 == 0
    ensures FoldTop(x) == x
  {
  }

  lemma Top1(x: bv32)
    requires x & 0xc0000000 == 0
    ensures FoldTop(x ^ 0x40000000) == x ^ 0x40000001
  {
    Shifted1(x);
    hide FoldTop;
    FoldTopIs(x ^ 0x40000000);
  }

  lemma Shifted1(x: bv32)
    requires x & 0xc0000000 == 0
    ensures (x ^ 0x40000000) ^ ((x ^ 0x40000000) >> 30) == x ^ 0x40000001
  {
  }

  lemma Top2(x: bv32)
    requires x & 0xc0000000 == 0
    ensures FoldTop(x ^ 0x80000000) == x ^ 0x80000002
  {
    Shifted2(x);
    hide FoldTop;
    FoldTopIs(x ^ 0x80000000);
  }

  lemma Shifted2(x: bv32)
    requires x & 0xc0000000 == 0
    ensures (x ^ 0x80000000) ^ ((x ^ 0x80000000) >> 30) == x ^ 0x80000002
  {
  }

  lemma Top3(x: bv32)
    requires x & 0xc0000000 == 0
    ensures FoldTop(x ^ 0xc0000000) == x ^ 0xc0000003
  {
    Shifted3(x);
    hide FoldTop;
    FoldTopIs(x ^ 0xc0000000);
  }

  lemma Shifted3(x: bv32)
    requires x & 0xc0000000 == 0
    ensures (x ^ 0xc0000000) ^ ((x ^ 0xc0000000) >> 30) == x ^ 0xc0000003
  {
  }

  /** Multiplication by the factor, after the two top bits have been added to the two lowest. */
  lemma MixBits(x: bv32, factor: bv32)
    requires x & 0xc0000000 == 0
    ensures Mix(x, factor) == Product(x, factor)
    ensures Mix(x ^ 0x40000000, factor) == Product(x ^ 0x40000001, factor)
    ensures Mix(x ^ 0x80000000, factor) == Product(x ^ 0x80000002, factor)
    ensures Mix(x ^ 0xc0000000, factor) == Product(x ^ 0xc0000003, factor)
  {
    hide Product, FoldTop;
    NoTop(x);
    Top1(x);
    Top2(x);
    Top3(x);
  }

  lemma MixSmall(factor: bv32)
    ensures Mix(0, factor) == 0 && Mix(1, factor) == factor
  {
  }

  /** The two passes: the factors, what is exclusive and what is added or taken away. */
  lemma PassesFixed(x: bv32, i: nat)
    requires i < 624
    ensures Fold(x, 0) == x && Fold(x, 1) == Exclusive(x, 1664525)
    ensures Unfold(x, 0, i) == Minus(x, Word(i)) && Unfold(x, 1, i) == Minus(Exclusive(x, 1566083941), Word(i))
  {
    hide Mix, Exclusive, Minus, Word;
    MixSmall(1664525);
    MixSmall(1566083941);
    ExclusiveLaws(x, 0);
  }

  /** The first cells of the first filling. */
  lemma FillingStarts()
    ensures Base(0) == 19650218 && Base(1) == 2194844435 && Base(2) == 874550967
  {
    FirstCell();
    SecondCell();
    hide Mix, Plus, Word;
  }

  lemma FirstCell()
    ensures Plus(Mix(19650218, 1812433253), Word(1)) == 2194844435
  {
  }

  lemma SecondCell()
    ensures Plus(Mix(2194844435, 1812433253), Word(2)) == 874550967
  {
  }

  // Sums and differences cancel. Equality is hidden, for the solver takes sums apart.

  predicate Same(a: bv32, b: bv32) { a == b }

  lemma SameIs(a: bv32, b: bv32)
    requires a == b
    ensures Same(a, b)
  {
  }

  lemma SumsCancel(x: bv32, a: bv32, b: bv32)
    requires Same(x + a, x + b)
    ensures a == b
  {
  }

  lemma DifferencesCancel(a: bv32, b: bv32, w: bv32)
    requires Same(a - w, b - w)
    ensures a == b
  {
  }

  lemma PlusIs(x: bv32, a: bv32)
    ensures Plus(x, a) == x + a
  {
  }

  lemma MinusIs(x: bv32, a: bv32)
    ensures Minus(x, a) == x - a
  {
  }

  lemma PlusCancels(x: bv32, a: bv32, b: bv32)
    requires Plus(x, a) == Plus(x, b)
    ensures a == b
  {
    hide Plus, Same;
    PlusIs(x, a);
    PlusIs(x, b);
    SameIs(Plus(x, a), Plus(x, b));
    SumsCancel(x, a, b);
  }

  lemma MinusCancels(a: bv32, b: bv32, w: bv32)
    requires Minus(a, w) == Minus(b, w)
    ensures a == b
  {
    hide Minus, Same;
    MinusIs(a, w);
    MinusIs(b, w);
    SameIs(Minus(a, w), Minus(b, w));
    DifferencesCancel(a, b, w);
  }

  lemma UnfoldCancels(x: bv32, y: bv32, before: bv32, i: nat)
    requires i < N && Unfold(x, before, i) == Unfold(y, before, i)
    ensures x == y
  {
    hide Exclusive, Minus, Mix, Word;
    var m := Mix(before, 1566083941);
    MinusCancels(Exclusive(x, m), Exclusive(y, m), Word(i));
    ExclusiveLaws(x, m);
    ExclusiveLaws(y, m);
  }

  lemma SecondFollows(seed: bv32, i: nat)
    requires 2 <= i < N
    ensures Second(seed, i) == Unfold(First(seed, i), Second(seed, i - 1), i)
  {
    hide Unfold, First;
  }

  lemma FirstFollows(seed: bv32)
    ensures First(seed, 3) == Plus(Fold(Base(3), First(seed, 2)), seed)
  {
    hide Fold, Plus, Base;
  }

  /** Different seeds leave different states: the state shows its seed. */
  lemma SeedsDiffer(a: bv32, b: bv32)
    requires Seeded(a) == Seeded(b)
    ensures a == b
  {
    hide Seeded, First, FirstOne, Second, Unfold, Fold, Plus, Base;
    SeededAt(a);
    SeededAt(b);
    var s := Seeded(a);
    assert s[623] == Second(a, 623) == Second(b, 623) && s[2] == Second(a, 2) == Second(b, 2);
    assert s[3] == Second(a, 3) == Second(b, 3);
    UnfoldCancels(Second(a, 1), Second(b, 1), s[623], 1);
    SecondFollows(a, 2);
    SecondFollows(b, 2);
    UnfoldCancels(First(a, 2), First(b, 2), Second(a, 1), 2);
    SecondFollows(a, 3);
    SecondFollows(b, 3);
    UnfoldCancels(First(a, 3), First(b, 3), s[2], 3);
    FirstFollows(a);
    FirstFollows(b);
    PlusCancels(Fold(Base(3), First(a, 2)), a, b);
  }

  // ----------------------------------------------------------------- drawing bits

  lemma {:induction false} ShrBrackets(a: nat, n: nat)
    ensures Shr(a, n) * Pow2(n) <= a < (Shr(a, n) + 1) * Pow2(n)
  {
    if n > 0 {
      var q, p := Shr(a / 2, n - 1), Pow2(n - 1);
      assert Shr(a, n) == q && Pow2(n) == 2 * p;
      hide Shr, Pow2;
      ShrBrackets(a / 2, n - 1);
      TwiceAsWide(q, p);
      TwiceAsWide(q + 1, p);
    }
  }

  lemma TwiceAsWide(q: nat, p: nat)
    ensures q * (2 * p) == 2 * (q * p)
  {
  }

  /** A draw of at most 32 bits is the top of one word; a longer one is a whole word below the top of the next. */
  lemma DrawExactly(init: seq<bv32>, p: nat, k: nat)
    requires |init| == N && 1 <= k <= 64
    ensures k <= 32 ==> var w := WordValue(Output(init, p));
      Draw(init, p, k) * Pow2(32 - k) <= w < (Draw(init, p, k) + 1) * Pow2(32 - k)
    ensures k > 32 ==> var w := WordValue(Output(init, p + 1));
      exists top: nat :: top * Pow2(64 - k) <= w < (top + 1) * Pow2(64 - k)
        && Draw(init, p, k) == WordValue(Output(init, p)) + top * 0x1_0000_0000
  {
    hide Output, WordValue, Pow2, Shr, Shl, Or;
    var lo := WordValue(Output(init, p));
    if k <= 32 {
      ShrBrackets(lo, 32 - k);
    } else {
      var w := WordValue(Output(init, p + 1));
      var top := Shr(w, 64 - k);
      ShrBrackets(w, 64 - k);
      Pow2Of32();
      DisjointBits(top, lo, 32);
      ShlIsProduct(top, 32);
      assert Draw(init, p, k) == lo + top * 0x1_0000_0000;
    }
  }
}
