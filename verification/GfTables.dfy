/** The doubled exponent table and the logarithm table of the encoder. */
module GfTables {
  import opened Gf256

  class Tables {
    const exp: array<bv8>
    const log: array<nat>

    /** exp lists the powers of ALPHA, twice over; log inverts it on the nonzero bytes. */
    ghost predicate Valid()
      reads exp, log
    {
      && exp.Length == 512
      && log.Length == 256
      && (forall i: nat :: i < 512 ==> exp[i] == Pow(ALPHA, i))
      && (forall a: bv8 :: a != 0 ==> LogOf(a, log[Index(a)]))
    }

    /** Writes to other arrays leave the tables valid. */
    twostate lemma Kept()
      requires old(Valid()) && unchanged(exp) && unchanged(log)
      ensures Valid()
    {
    }

    constructor ()
      ensures Valid() && fresh(exp) && fresh(log)
    {
      exp := new bv8[512];
      log := new nat[256];
      new;
      FillPowers();
      RepeatPowers();
      LogsCover(log[..]);
    }

    method FillPowers()
      requires exp.Length == 512 && log.Length == 256
      modifies exp, log
      ensures forall j: nat :: j < 255 ==> exp[j] == Pow(ALPHA, j)
      ensures forall j: nat :: j < 255 ==> log[Index(Pow(ALPHA, j))] == j
    {
      hide Mul, Pow, Xtime, Index, Low, Double;
      var x: bv16 := 1;
      assert Low(x) == Pow(ALPHA, 0) by { LowOne(); PowZero(ALPHA); }
      for i := 0 to 255
        invariant x < 256 && Low(x) == Pow(ALPHA, i)
        invariant forall j: nat :: j < i ==> exp[j] == Pow(ALPHA, j)
        invariant forall j: nat :: j < i ==> log[Index(Pow(ALPHA, j))] == j
      {
        forall j: nat | j < i
          ensures Index(Pow(ALPHA, j)) != Index(Low(x))
        {
          PowAlphaInjective(j, i);
          if Index(Pow(ALPHA, j)) == Index(Low(x)) {
            IndexInjective(Pow(ALPHA, j), Low(x));
          }
        }
        exp[i] := Low(x);
        log[Index(Low(x))] := i;
        DoubleIsXtime(x);
        PowAlphaStep(i);
        x := Double(x);
      }
    }

    method RepeatPowers()
      requires exp.Length == 512
      requires forall j: nat :: j < 255 ==> exp[j] == Pow(ALPHA, j)
      modifies exp
      ensures forall j: nat :: j < 512 ==> exp[j] == Pow(ALPHA, j)
    {
      hide Mul, Pow, Xtime;
      for i := 255 to 512
        invariant forall j: nat :: j < i ==> exp[j] == Pow(ALPHA, j)
      {
        exp[i] := exp[i - 255];
        PowAlphaWraps(i - 255);
      }
    }

    /** a * ALPHA^i by adding to the table logarithm, which stays inside the doubled table. */
    method TimesPower(a: bv8, i: nat) returns (p: bv8)
      requires Valid()
      requires i < 255
      ensures p == Mul(a, Pow(ALPHA, i))
    {
      hide Mul, Pow, Xtime, Index;
      if a == 0 {
        MulZero(Pow(ALPHA, i));
        p := 0;
      } else {
        assert LogOf(a, log[Index(a)]);
        PowAdd(ALPHA, log[Index(a)], i);
        p := exp[log[Index(a)] + i];
      }
    }

    /** The table product of two bytes is their carry-less product modulo 0x11d. */
    method Times(a: bv8, b: bv8) returns (p: bv8)
      requires Valid()
      requires b != 0
      ensures p == Mul(a, b)
    {
      hide Mul, Pow, Xtime, Index;
      assert LogOf(b, log[Index(b)]);
      p := TimesPower(a, log[Index(b)]);
    }
  }

  /** n is the discrete logarithm of a, in the range of the log table's entries. */
  ghost predicate LogOf(a: bv8, n: nat) {
    n < 255 && Pow(ALPHA, n) == a
  }

  /** What a byte array keeps of a number. */
  function Low(x: bv16): bv8 {
    (x & 0xff) as bv8
  }

  /** One step of the table loop: double, and reduce if the ninth bit is set. */
  function Double(x: bv16): bv16 {
    if (x << 1) & 0x100 != 0 then (x << 1) ^ 0x11d else x << 1
  }

  lemma LogsCover(log: seq<nat>)
    requires |log| == 256
    requires forall j: nat :: j < 255 ==> log[Index(Pow(ALPHA, j))] == j
    ensures forall a: bv8 :: a != 0 ==> LogOf(a, log[Index(a)])
  {
    hide Mul, Pow, Xtime, Index;
    forall a: bv8 | a != 0
      ensures LogOf(a, log[Index(a)])
    {
      var i := DiscreteLog(a);
    }
  }

  lemma LowOne()
    ensures Low(1) == 1
  {}

  lemma DoubleIsXtime(x: bv16)
    requires x < 256
    ensures Double(x) < 256 && Low(Double(x)) == Xtime(Low(x))
  {}
}
