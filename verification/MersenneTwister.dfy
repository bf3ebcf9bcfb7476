/**
  CPython's generator as the vector tool reimplements it: the in-place block update draws
  the infinite linear recurrence, and tempering loses nothing.
 */
module MersenneTwister {
  import opened BinaryPolynomials

  const N: nat := 624
  const M: nat := 397

  // ------------------------------------------------------------------- recurrence

  function Exclusive(a: bv32, b: bv32): bv32 { a ^ b }

  /** The upper bit of u and the lower bits of l. */
  function Joined(u: bv32, l: bv32): bv32 { (u & 0x80000000) | (l & 0x7fffffff) }

  function Half(y: bv32): bv32 { y >> 1 }

  function Reduction(y: bv32): bv32 { if y & 1 != 0 then 0x9908b0df else 0 }

  /** The joined word, shifted, and reduced if it is odd. */
  function Twist(u: bv32, l: bv32): bv32 {
    Exclusive(Half(Joined(u, l)), Reduction(Joined(u, l)))
  }

  function Next(x0: bv32, x1: bv32, xm: bv32): bv32 {
    Exclusive(xm, Twist(x0, x1))
  }

  /** The infinite sequence x(k+624) = x(k+397) xor twist(x(k), x(k+1)). */
  function X(init: seq<bv32>, k: nat): bv32
    requires |init| == N
  {
    if k < N then init[k]
    else Next(X(init, k - N), X(init, k - N + 1), X(init, k - N + M))
  }

  function Down11(x: bv32): bv32 { x >> 11 }

  function Down18(x: bv32): bv32 { x >> 18 }

  function Right11(x: bv32): bv32 { Exclusive(x, Down11(x)) }

  function Up7(x: bv32): bv32 { (x << 7) & 0x9d2c5680 }

  function Up15(x: bv32): bv32 { (x << 15) & 0xefc60000 }

  function Left7(x: bv32): bv32 { Exclusive(x, Up7(x)) }

  function Left15(x: bv32): bv32 { Exclusive(x, Up15(x)) }

  function Right18(x: bv32): bv32 { Exclusive(x, Down18(x)) }

  function Temper(x: bv32): bv32 {
    Right18(Left15(Left7(Right11(x))))
  }

  /** The k-th number the generator produces, counted from the first draw. */
  function Output(init: seq<bv32>, k: nat): bv32
    requires |init| == N
  {
    Temper(X(init, N + k))
  }

  // ------------------------------------------------------ tempering is invertible

  function Undo7Step(y: bv32, z: bv32): bv32 {
    y ^ ((z << 7) & 0x9d2c5680)
  }

  function Undo7(y: bv32): bv32 {
    Undo7Step(y, Undo7Step(y, Undo7Step(y, Undo7Step(y, y))))
  }

  function Undo11(y: bv32): bv32 {
    Exclusive(Exclusive(y, Down11(y)), Down11(Down11(y)))
  }

  /** Undo the four tempering steps, last first. */
  function Untemper(z: bv32): bv32 {
    Undo11(Undo7(Left15(Right18(z))))
  }

  lemma ExclusiveLaws(a: bv32, b: bv32)
    ensures Exclusive(Exclusive(a, b), b) == a
    ensures Exclusive(a, b) == Exclusive(b, a)
    ensures Exclusive(a, 0) == a && Exclusive(a, a) == 0
  {}

  lemma ExclusiveAssociates(a: bv32, b: bv32, c: bv32)
    ensures Exclusive(Exclusive(a, b), c) == Exclusive(a, Exclusive(b, c))
  {}

  lemma DownExclusive(a: bv32, b: bv32)
    ensures Down18(Exclusive(a, b)) == Exclusive(Down18(a), Down18(b))
    ensures Down11(Exclusive(a, b)) == Exclusive(Down11(a), Down11(b))
  {}

  lemma DownVanishes(a: bv32)
    ensures Down18(Down18(a)) == 0 && Down11(Down11(Down11(a))) == 0
  {}

  lemma Right18Inverse(x: bv32)
    ensures Right18(Right18(x)) == x
  {
    hide Exclusive, Down18;
    var s := Down18(x);
    DownExclusive(x, s);
    DownVanishes(x);
    ExclusiveLaws(s, 0);
    ExclusiveLaws(x, s);
  }

  lemma Right11Inverse(x: bv32)
    ensures Undo11(Right11(x)) == x
  {
    hide Exclusive, Down11;
    var s, t := Down11(x), Down11(Down11(x));
    DownExclusive(x, s);
    DownExclusive(s, t);
    DownVanishes(x);
    ExclusiveLaws(t, 0);
    // y = x ^ s, y >> 11 = s ^ t, y >> 22 = t
    ExclusiveAssociates(x, s, Exclusive(s, t));
    ExclusiveAssociates(s, s, t);
    ExclusiveLaws(s, s);
    ExclusiveLaws(t, 0);
    ExclusiveLaws(0, t);
    ExclusiveLaws(x, t);
  }

  lemma Left15Inverse(x: bv32)
    ensures Left15(Left15(x)) == x
  {}

  lemma Left7Inverse(x: bv32)
    ensures Undo7(Left7(x)) == x
  {}

  /** Tempering is a bijection on 32-bit words. */
  lemma UntemperTemper(x: bv32)
    ensures Untemper(Temper(x)) == x
  {
    hide Right18, Left15, Left7, Right11, Undo7, Undo11;
    Right18Inverse(Left15(Left7(Right11(x))));
    Left15Inverse(Left7(Right11(x)));
    Left7Inverse(Right11(x));
    Right11Inverse(x);
  }

  ghost predicate SameOutput(a: seq<bv32>, p: nat, b: seq<bv32>, q: nat, j: nat)
    requires |a| == |b| == N
  {
    Output(a, p + j) == Output(b, q + j)
  }

  /**
    Any 624 consecutive outputs determine every later one, whatever states and positions
    they came from.
   */
  lemma {:induction false} OutputsDetermined(a: seq<bv32>, p: nat, b: seq<bv32>, q: nat, k: nat)
    requires |a| == |b| == N
    requires forall j: nat :: j < N ==> SameOutput(a, p, b, q, j)
    ensures X(a, N + p + k) == X(b, N + q + k)
    ensures SameOutput(a, p, b, q, k)
  {
    hide Temper, Untemper, Next, X;
    if k < N {
      assert SameOutput(a, p, b, q, k);
      UntemperTemper(X(a, N + (p + k)));
      UntemperTemper(X(b, N + (q + k)));
    } else {
      OutputsDetermined(a, p, b, q, k - N);
      OutputsDetermined(a, p, b, q, k - N + 1);
      OutputsDetermined(a, p, b, q, k - N + M);
      XStep(a, p + k);
      XStep(b, q + k);
    }
  }

  // ---------------------------------------------------------------------- seeding

  function Plus(a: bv32, b: bv32): bv32 { a + b }

  function Minus(a: bv32, b: bv32): bv32 { a - b }

  function Product(a: bv32, b: bv32): bv32 { a * b }

  /** The two top bits are added to the two lowest. */
  function FoldTop(x: bv32): bv32 { Exclusive(x, x >> 30) }

  function Mix(x: bv32, factor: bv32): bv32 {
    Product(FoldTop(x), factor)
  }

  function Word(i: nat): bv32
    requires i < 0x1_0000_0000
  {
    i as bv32
  }

  /** init_genrand(19650218). */
  function Base(i: nat): bv32
    requires i < N
  {
    if i == 0 then 19650218 else Plus(Mix(Base(i - 1), 1812433253), Word(i))
  }

  function Fold(x: bv32, before: bv32): bv32 {
    Exclusive(x, Mix(before, 1664525))
  }

  /** The first pass of init_by_array for the one-word key, on cells 0 to 623. */
  function First(seed: bv32, i: nat): bv32
    requires i < N
  {
    if i == 0 then Base(0) else Plus(Fold(Base(i), First(seed, i - 1)), seed)
  }

  /** The first pass wraps around and ends on cell 1. */
  function FirstOne(seed: bv32): bv32 {
    Plus(Fold(First(seed, 1), First(seed, N - 1)), seed)
  }

  function Unfold(x: bv32, before: bv32, i: nat): bv32
    requires i < N
  {
    Minus(Exclusive(x, Mix(before, 1566083941)), Word(i))
  }

  /** The second pass, on cells 2 to 623. */
  function Second(seed: bv32, i: nat): bv32
    requires 1 <= i < N
  {
    if i == 1 then FirstOne(seed) else Unfold(First(seed, i), Second(seed, i - 1), i)
  }

  /** The state that random.seed(seed) leaves. */
  function Seeded(seed: bv32): (s: seq<bv32>)
    ensures |s| == N
  {
    [0x80000000, Unfold(Second(seed, 1), Second(seed, N - 1), 1)]
    + seq(N - 2, (j: nat) requires j < N - 2 => Second(seed, j + 2))
  }

  /** The first pass has reached cell i. */
  ghost predicate FirstReached(mt: seq<bv32>, seed: bv32, i: nat) {
    && |mt| == N
    && (forall j: nat :: j < i && j < N ==> mt[j] == First(seed, j))
    && (forall j: nat :: i <= j < N ==> mt[j] == Base(j))
  }

  lemma FirstStep(mt: seq<bv32>, seed: bv32, i: nat)
    requires 1 <= i < N && FirstReached(mt, seed, i)
    ensures FirstReached(mt[i := Plus(Fold(mt[i], mt[i - 1]), seed)], seed, i + 1)
  {
    hide Fold, Plus, Base;
  }

  ghost predicate FirstWrapped(mt: seq<bv32>, seed: bv32) {
    && |mt| == N
    && mt[0] == First(seed, N - 1)
    && forall j: nat :: 1 <= j < N ==> mt[j] == First(seed, j)
  }

  lemma FirstWraps(mt: seq<bv32>, seed: bv32)
    requires FirstReached(mt, seed, N)
    ensures |mt| == N && FirstWrapped(mt[0 := mt[N - 1]], seed)
  {
    hide First, Base;
  }

  lemma FirstWrappedCells(mt: seq<bv32>, seed: bv32)
    requires FirstWrapped(mt, seed)
    ensures Plus(Fold(mt[1], mt[0]), seed) == FirstOne(seed)
  {
    hide Fold, Plus, First;
  }

  ghost predicate SecondWrapped(mt: seq<bv32>, seed: bv32) {
    && |mt| == N
    && mt[0] == Second(seed, N - 1)
    && forall j: nat :: 1 <= j < N ==> mt[j] == Second(seed, j)
  }

  lemma SecondWraps(mt: seq<bv32>, seed: bv32)
    requires SecondReached(mt, seed, N)
    ensures |mt| == N && SecondWrapped(mt[0 := mt[N - 1]], seed)
  {
    hide First, Second;
  }

  /** The second pass has reached cell i. */
  ghost predicate SecondReached(mt: seq<bv32>, seed: bv32, i: nat) {
    && |mt| == N
    && (forall j: nat :: 1 <= j < i && j < N ==> mt[j] == Second(seed, j))
    && (forall j: nat :: 2 <= j < N && i <= j ==> mt[j] == First(seed, j))
  }

  lemma SecondStep(mt: seq<bv32>, seed: bv32, i: nat)
    requires 2 <= i < N && SecondReached(mt, seed, i)
    ensures SecondReached(mt[i := Unfold(mt[i], mt[i - 1], i)], seed, i + 1)
  {
    hide Unfold, First, FirstOne;
  }

  // --------------------------------------------------------------- drawing bits

  function WordValue(w: bv32): (v: nat)
    ensures v < 0x1_0000_0000
  {
    w as int
  }

  /** How many words a draw of k bits takes. */
  function WordsFor(k: nat): nat {
    if k <= 32 then 1 else 2
  }

  /** The k-bit number drawn at position p of the output. */
  function Draw(init: seq<bv32>, p: nat, k: nat): nat
    requires |init| == N && 1 <= k <= 64
  {
    var lo := WordValue(Output(init, p));
    if k <= 32 then Shr(lo, 32 - k)
    else Or(Shl(Shr(WordValue(Output(init, p + 1)), 64 - k), 32), lo)
  }

  lemma {:induction false} ShrBound(a: nat, m: nat, n: nat)
    requires a < Pow2(m + n)
    ensures Shr(a, m) < Pow2(n)
  {
    if m > 0 {
      ShrBound(a / 2, m - 1, n);
    }
  }

  lemma Pow2Of32()
    ensures Pow2(32) == 0x1_0000_0000
  {
    assert Pow2(8) == 256;
    assert Pow2(16) == 65536;
    assert Pow2(24) == 16777216;
  }

  lemma {:induction false} Pow2Add(m: nat, n: nat)
    ensures Pow2(m + n) == Pow2(m) * Pow2(n)
  {
    if m > 0 {
      Pow2Add(m - 1, n);
    }
  }

  /** A draw of k bits is below 2^k. */
  lemma DrawBound(init: seq<bv32>, p: nat, k: nat)
    requires |init| == N && 1 <= k <= 64
    ensures Draw(init, p, k) < Pow2(k)
  {
    hide Output, WordValue, Pow2, Shr, Shl, Or;
    Pow2Of32();
    if k <= 32 {
      ShrBound(WordValue(Output(init, p)), 32 - k, k);
    } else {
      var lo, hi := WordValue(Output(init, p)), Shr(WordValue(Output(init, p + 1)), 64 - k);
      ShrBound(WordValue(Output(init, p + 1)), 64 - k, k - 32);
      DisjointBits(hi, lo, 32);
      ShlIsProduct(hi, 32);
      Pow2Add(k - 32, 32);
      Carry(hi, lo, Pow2(32), Pow2(k - 32));
    }
  }

  lemma Carry(hi: nat, lo: nat, m: nat, n: nat)
    requires lo < m && hi < n
    ensures hi * m + lo < n * m
  {
    assert (hi + 1) * m <= n * m;
  }

  lemma BitLenRange(n: nat)
    requires 0 < n < 0x1_0000_0000_0000_0000
    ensures 1 <= BitLen(n) <= 64 && Pow2(BitLen(n) - 1) <= n < Pow2(BitLen(n))
  {
    Pow2Of32();
    Pow2Add(32, 32);
    hide Pow2;
    BitLenBound(n, 64);
    BitLenBound(n, BitLen(n));
    BitLenBound(n, BitLen(n) - 1);
  }

  /** The bit length of a bound, 64 less its leading zeros. */
  function BoundBits(n: nat): (k: nat)
    requires 0 < n < 0x1_0000_0000_0000_0000
    ensures 1 <= k <= 64 && Pow2(k - 1) <= n < Pow2(k)
  {
    BitLenRange(n);
    BitLen(n)
  }

  /** The first draws from position p for the bound n are all at least n. */
  ghost predicate Rejected(init: seq<bv32>, p: nat, n: nat, draws: nat)
    requires |init| == N && 0 < n < 0x1_0000_0000_0000_0000
  {
    forall t: nat :: t < draws ==> Draw(init, p + t * WordsFor(BoundBits(n)), BoundBits(n)) >= n
  }

  // -------------------------------------------------------------- the generator

  /** mt is the block of the sequence that starts at term base. */
  ghost predicate HoldsBlock(mt: seq<bv32>, init: seq<bv32>, base: nat) {
    |mt| == |init| == N && forall j: nat :: j < N ==> mt[j] == X(init, base + j)
  }

  class PyRandom {
    var mt: array<bv32>
    var mti: nat
    ghost var init: seq<bv32>   // the seeded state
    ghost var drawn: nat        // outputs so far
    ghost var block: nat        // block updates so far

    ghost predicate Valid()
      reads this, mt
    {
      && mt.Length == N && |init| == N && mti <= N
      && drawn + N == N * block + mti
      && HoldsBlock(mt[..], init, N * block)
    }

    /** random.seed(seed) for one 32-bit word. */
    constructor (seed: bv32)
      ensures Valid() && fresh(mt)
      ensures init == Seeded(seed) && drawn == 0
    {
      mt := new bv32[N];
      mti := N;
      init, drawn, block := Seeded(seed), 0, 0;
      new;
      hide X, Seeded, HoldsBlock;
      InitByArray(seed);
    }

    /** init_by_array for the one-word key. */
    method InitByArray(seed: bv32)
      requires mt.Length == N
      modifies mt, `mti
      ensures mti == N && HoldsBlock(mt[..], Seeded(seed), 0)
    {
      hide X, Unfold, Seeded, First, FirstOne, Second, Base, FirstReached, SecondReached;
      InitGenrand();
      FirstStart(mt[..], seed);
      FirstPass(seed);
      SecondStart(mt[..], seed);
      SecondPass(seed);
      mt[0] := 0x80000000;
      SeededAt(seed);
      StartOfX(Seeded(seed));
    }

    method InitGenrand()
      requires mt.Length == N
      modifies mt, `mti
      ensures mti == N && forall j: nat :: j < N ==> mt[j] == Base(j)
    {
      hide Mix, Word, Plus;
      mt[0] := 19650218;
      mti := 1;
      while mti < N
        invariant 1 <= mti <= N
        invariant forall j: nat :: j < mti ==> mt[j] == Base(j)
      {
        mt[mti] := Plus(Mix(mt[mti - 1], 1812433253), Word(mti));
        mti := mti + 1;
      }
    }

    method FirstPass(seed: bv32)
      requires mt.Length == N && FirstReached(mt[..], seed, 1)
      modifies mt
      ensures mt[1] == FirstOne(seed)
      ensures forall j: nat :: 2 <= j < N ==> mt[j] == First(seed, j)
    {
      hide Fold, Plus, First, Base, FirstReached, FirstOne;
      var i, k := 1, N;
      while k > 0
        invariant 0 <= k <= N && 1 <= i < N
        invariant k > 1 ==> i == N - k + 1 && FirstReached(mt[..], seed, i)
        invariant k == 1 ==> i == 1 && FirstWrapped(mt[..], seed)
        invariant k == 0 ==> mt[1] == FirstOne(seed) && forall j: nat :: 2 <= j < N ==> mt[j] == First(seed, j)
      {
        if k > 1 { FirstStep(mt[..], seed, i); } else { FirstWrappedCells(mt[..], seed); }
        mt[i] := Plus(Fold(mt[i], mt[i - 1]), seed);
        i := i + 1;
        if i >= N {
          FirstWraps(mt[..], seed);
          mt[0] := mt[N - 1];
          i := 1;
        }
        k := k - 1;
      }
    }

    method SecondPass(seed: bv32)
      requires mt.Length == N && SecondReached(mt[..], seed, 2)
      modifies mt
      ensures mt[1] == Unfold(Second(seed, 1), Second(seed, N - 1), 1)
      ensures forall j: nat :: 2 <= j < N ==> mt[j] == Second(seed, j)
    {
      hide Unfold, First, FirstOne, Second, SecondReached;
      var i, k := 2, N - 1;
      while k > 0
        invariant 0 <= k <= N - 1 && 1 <= i < N
        invariant k > 1 ==> i == N - k + 1 && SecondReached(mt[..], seed, i)
        invariant k == 1 ==> i == 1 && SecondWrapped(mt[..], seed)
        invariant k == 0 ==> mt[1] == Unfold(Second(seed, 1), Second(seed, N - 1), 1)
        invariant k == 0 ==> forall j: nat :: 2 <= j < N ==> mt[j] == Second(seed, j)
      {
        if k > 1 { SecondStep(mt[..], seed, i); }
        mt[i] := Unfold(mt[i], mt[i - 1], i);
        i := i + 1;
        if i >= N {
          SecondWraps(mt[..], seed);
          mt[0] := mt[N - 1];
          i := 1;
        }
        k := k - 1;
      }
    }

    /** Replace the block in place by the next 624 terms of the recurrence. */
    method Regenerate()
      requires mt.Length == N && |init| == N && HoldsBlock(mt[..], init, N * block)
      modifies mt, `mti, `block
      ensures mti == 0 && block == old(block) + 1
      ensures HoldsBlock(mt[..], init, N * block)
    {
      hide Next, X;
      ghost var base := N * block;
      var kk := 0;
      while kk < N - M
        invariant 0 <= kk <= N - M && block == old(block)
        invariant forall j: nat :: j < kk ==> mt[j] == X(init, base + N + j)
        invariant forall j: nat :: kk <= j < N ==> mt[j] == X(init, base + j)
      {
        XStep(init, base + kk);
        mt[kk] := Next(mt[kk], mt[kk + 1], mt[kk + M]);
        kk := kk + 1;
      }
      while kk < N - 1
        invariant N - M <= kk <= N - 1 && block == old(block)
        invariant forall j: nat :: j < kk ==> mt[j] == X(init, base + N + j)
        invariant forall j: nat :: kk <= j < N ==> mt[j] == X(init, base + j)
      {
        XStep(init, base + kk);
        mt[kk] := Next(mt[kk], mt[kk + 1], mt[kk + M - N]);
        kk := kk + 1;
      }
      XStep(init, base + N - 1);
      assert mt[0] == X(init, base + N) && mt[M - 1] == X(init, base + N - 1 + M);
      mt[N - 1] := Next(mt[N - 1], mt[0], mt[M - 1]);
      mti := 0;
      block := block + 1;
    }

    /** The next 32-bit output. */
    method Genrand() returns (y: bv32)
      requires Valid()
      modifies this, mt
      ensures Valid() && mt == old(mt) && init == old(init)
      ensures drawn == old(drawn) + 1
      ensures y == Output(init, old(drawn))
    {
      hide X, Right11, Left7, Left15, Right18;
      if mti >= N {
        Regenerate();
      }
      y := mt[mti];
      mti := mti + 1;
      drawn := drawn + 1;
      y := Right11(y);
      y := Left7(y);
      y := Left15(y);
      y := Right18(y);
    }

    /** k random bits, low word first. */
    method GetRandBits(k: nat) returns (r: nat)
      requires Valid() && 1 <= k <= 64
      modifies this, mt
      ensures Valid() && mt == old(mt) && init == old(init)
      ensures drawn == old(drawn) + WordsFor(k)
      ensures r == Draw(init, old(drawn), k) < Pow2(k)
    {
      hide X, Output, Shr, Shl, Or, Pow2, WordValue;
      DrawBound(init, drawn, k);
      var w := Genrand();
      if k <= 32 { return Shr(WordValue(w), 32 - k); }
      var lo := WordValue(w);
      w := Genrand();
      var hi := Shr(WordValue(w), 64 - k);
      return Or(Shl(hi, 32), lo);
    }

    /**
      Redraw until the number is below n. The ghost argument promises that the stream has
      such a draw, tries draws ahead; without one the loop does not end.
     */
    method RandBelow(n: nat, ghost tries: nat) returns (r: nat, ghost used: nat)
      requires Valid() && 0 < n < 0x1_0000_0000_0000_0000
      requires Draw(init, drawn + tries * WordsFor(BoundBits(n)), BoundBits(n)) < n
      modifies this, mt
      ensures Valid() && mt == old(mt) && init == old(init)
      ensures used <= tries && drawn == old(drawn) + (used + 1) * WordsFor(BoundBits(n))
      ensures r == Draw(init, old(drawn) + used * WordsFor(BoundBits(n)), BoundBits(n)) < n
      ensures Rejected(init, old(drawn), n, used)
    {
      hide X, Draw, BoundBits, Pow2;
      var k := BoundBits(n);
      ghost var start := drawn;
      r := GetRandBits(k);
      used := 0;
      while r >= n
        invariant Valid() && mt == old(mt) && init == old(init)
        invariant used <= tries && drawn == start + (used + 1) * WordsFor(k)
        invariant r == Draw(init, start + used * WordsFor(k), k)
        invariant forall t: nat :: t < used ==> Draw(init, start + t * WordsFor(k), k) >= n
        decreases tries - used
      {
        r := GetRandBits(k);
        used := used + 1;
      }
    }

    /** A number from start up to but not including stop. */
    method RandRange(start: nat, stop: nat, ghost tries: nat) returns (r: nat, ghost used: nat)
      requires Valid() && start < stop < 0x1_0000_0000_0000_0000
      requires Draw(init, drawn + tries * WordsFor(BoundBits(stop - start)), BoundBits(stop - start)) < stop - start
      modifies this, mt
      ensures Valid() && mt == old(mt) && init == old(init)
      ensures used <= tries && drawn == old(drawn) + (used + 1) * WordsFor(BoundBits(stop - start))
      ensures start <= r < stop
      ensures r - start == Draw(init, old(drawn) + used * WordsFor(BoundBits(stop - start)), BoundBits(stop - start))
      ensures Rejected(init, old(drawn), stop - start, used)
    {
      hide X, Draw, BoundBits, Pow2, WordsFor;
      r, used := RandBelow(stop - start, tries);
      r := start + r;
    }
  }

  lemma XStep(init: seq<bv32>, k: nat)
    requires |init| == N
    ensures X(init, k + N) == Next(X(init, k), X(init, k + 1), X(init, k + M))
  {}

  lemma StartOfX(init: seq<bv32>)
    requires |init| == N
    ensures forall j: nat :: j < N ==> X(init, j) == init[j]
  {}

  lemma FirstStart(mt: seq<bv32>, seed: bv32)
    requires |mt| == N && forall j: nat :: j < N ==> mt[j] == Base(j)
    ensures FirstReached(mt, seed, 1)
  {
    hide Base;
  }

  lemma SecondStart(mt: seq<bv32>, seed: bv32)
    requires |mt| == N && mt[1] == FirstOne(seed)
    requires forall j: nat :: 2 <= j < N ==> mt[j] == First(seed, j)
    ensures SecondReached(mt, seed, 2)
  {
    hide First, FirstOne;
  }

  lemma SeededAt(seed: bv32)
    ensures Seeded(seed)[0] == 0x80000000
    ensures Seeded(seed)[1] == Unfold(Second(seed, 1), Second(seed, N - 1), 1)
    ensures forall j: nat :: 2 <= j < N ==> Seeded(seed)[j] == Second(seed, j)
  {
    hide Unfold, Second;
    var s := Seeded(seed);
    forall j: nat | 2 <= j < N
      ensures s[j] == Second(seed, j)
    {}
  }
}
