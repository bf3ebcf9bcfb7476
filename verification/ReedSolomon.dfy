/**
  The Reed-Solomon parity computation of the encoder: correctness (the parity completes the
  data to a multiple of the generator polynomial), uniqueness, and minimum distance.

  A polynomial is the sequence of its coefficients, highest degree first, which is the order
  of the bytes in the encoder's arrays.
 */
module ReedSolomon {
  import opened FiniteSets
  import opened Gf256
  import opened GfTables

  type Poly = seq<bv8>

  // ------------------------------------------------------- polynomial algebra

  function Eval(p: Poly, x: bv8): bv8 {
    if p == [] then 0 else Add(Mul(Eval(p[..|p| - 1], x), x), p[|p| - 1])
  }

  function Sum(p: Poly, q: Poly): (s: Poly)
    requires |p| == |q|
    ensures |s| == |p|
  {
    seq(|p|, i requires 0 <= i < |p| => Add(p[i], q[i]))
  }

  function Scale(c: bv8, p: Poly): (s: Poly)
    ensures |s| == |p|
  {
    seq(|p|, i requires 0 <= i < |p| => Mul(c, p[i]))
  }

  function Zeros(n: nat): (z: Poly)
    ensures |z| == n
  {
    seq(n, i => 0)
  }

  lemma EvalSnoc(p: Poly, c: bv8, x: bv8)
    ensures Eval(p + [c], x) == Add(Mul(Eval(p, x), x), c)
  {
    assert (p + [c])[..|p|] == p;
  }

  lemma {:induction false} EvalConcat(p: Poly, q: Poly, x: bv8)
    ensures Eval(p + q, x) == Add(Mul(Eval(p, x), Pow(x, |q|)), Eval(q, x))
    decreases |q|
  {
    hide Add, Mul;
    if q == [] {
      assert p + q == p;
      MulOne(Eval(p, x));
      AddLaws(Eval(p, x), 0, 0);
    } else {
      var init, last := q[..|q| - 1], q[|q| - 1];
      assert p + q == (p + init) + [last];
      EvalSnoc(p + init, last, x);
      EvalConcat(p, init, x);
      var a := Mul(Eval(p, x), Pow(x, |init|));
      MulAddLeft(a, Eval(init, x), x);
      MulAssociates(Eval(p, x), Pow(x, |init|), x);
      AddLaws(Mul(a, x), Mul(Eval(init, x), x), last);
    }
  }

  lemma EvalSingle(c: bv8, x: bv8)
    ensures Eval([c], x) == c
  {
    hide Add, Mul;
    EvalSnoc([], c, x);
    MulZero(x);
    AddLaws(c, 0, 0);
  }

  lemma EvalCons(c: bv8, p: Poly, x: bv8)
    ensures Eval([c] + p, x) == Add(Mul(c, Pow(x, |p|)), Eval(p, x))
  {
    EvalConcat([c], p, x);
    EvalSingle(c, x);
  }

  lemma {:induction false} EvalZeros(n: nat, x: bv8)
    ensures Eval(Zeros(n), x) == 0
  {
    hide Add, Mul;
    if n > 0 {
      EvalZeros(n - 1, x);
      assert Zeros(n)[..n - 1] == Zeros(n - 1);
      MulZero(x);
      AddLaws(0, 0, 0);
    }
  }

  lemma {:induction false} EvalSum(p: Poly, q: Poly, x: bv8)
    requires |p| == |q|
    ensures Eval(Sum(p, q), x) == Add(Eval(p, x), Eval(q, x))
  {
    hide Add, Mul;
    if p == [] {
      AddLaws(0, 0, 0);
    } else {
      var p0, q0 := p[..|p| - 1], q[..|q| - 1];
      EvalSum(p0, q0, x);
      assert Sum(p, q)[..|p| - 1] == Sum(p0, q0);
      MulAddLeft(Eval(p0, x), Eval(q0, x), x);
      AddSwap(Mul(Eval(p0, x), x), Mul(Eval(q0, x), x), p[|p| - 1], q[|q| - 1]);
    }
  }

  lemma {:induction false} EvalScale(c: bv8, p: Poly, x: bv8)
    ensures Eval(Scale(c, p), x) == Mul(c, Eval(p, x))
  {
    hide Add, Mul;
    if p == [] {
      MulZero(c);
    } else {
      var p0 := p[..|p| - 1];
      EvalScale(c, p0, x);
      assert Scale(c, p)[..|p| - 1] == Scale(c, p0);
      MulAssociates(c, Eval(p0, x), x);
      MulAddRight(c, Mul(Eval(p0, x), x), p[|p| - 1]);
    }
  }

  // ------------------------------------------------------ generator polynomial

  /** p times (x - r). */
  function MulLinear(p: Poly, r: bv8): (q: Poly)
    ensures |q| == |p| + 1
  {
    Sum(p + [0], [0] + Scale(r, p))
  }

  lemma EvalMulLinear(p: Poly, r: bv8, x: bv8)
    ensures Eval(MulLinear(p, r), x) == Mul(Eval(p, x), Add(x, r))
  {
    hide Add, Mul;
    EvalSum(p + [0], [0] + Scale(r, p), x);
    EvalSnoc(p, 0, x);
    EvalCons(0, Scale(r, p), x);
    EvalScale(r, p, x);
    MulZero(Pow(x, |p|));
    AddLaws(Mul(Eval(p, x), x), 0, 0);
    AddLaws(Mul(r, Eval(p, x)), 0, 0);
    MulCommutes(r, Eval(p, x));
    MulAddRight(Eval(p, x), x, r);
  }

  function GenPoly(n: nat): (g: Poly)
    ensures |g| == n + 1
  {
    if n == 0 then [1] else MulLinear(GenPoly(n - 1), Pow(ALPHA, n - 1))
  }

  /** The product of the linear factors x - ALPHA^i for i below n, at a point. */
  function RootProduct(n: nat, x: bv8): bv8 {
    if n == 0 then 1 else Mul(RootProduct(n - 1, x), Add(x, Pow(ALPHA, n - 1)))
  }

  lemma {:induction false} GenPolyIsProduct(n: nat, x: bv8)
    ensures Eval(GenPoly(n), x) == RootProduct(n, x)
  {
    hide Add, Mul;
    if n == 0 {
      EvalSingle(1, x);
    } else {
      GenPolyIsProduct(n - 1, x);
      EvalMulLinear(GenPoly(n - 1), Pow(ALPHA, n - 1), x);
    }
  }

  ghost predicate IsRoot(n: nat, x: bv8) {
    exists i: nat :: i < n && x == Pow(ALPHA, i)
  }

  lemma IsRootStep(n: nat, x: bv8)
    ensures IsRoot(n + 1, x) <==> IsRoot(n, x) || x == Pow(ALPHA, n)
  {
    hide Mul, Pow;
  }

  /** The generator vanishes at the first n powers of ALPHA and nowhere else. */
  lemma {:induction false} GenPolyRoots(n: nat, x: bv8)
    ensures Eval(GenPoly(n), x) == 0 <==> IsRoot(n, x)
  {
    hide Add, Mul, Pow, IsRoot, Eval, GenPoly;
    GenPolyIsProduct(n, x);
    if n > 0 {
      GenPolyIsProduct(n - 1, x);
      GenPolyRoots(n - 1, x);
      IsRootStep(n - 1, x);
      NoZeroDivisors(RootProduct(n - 1, x), Add(x, Pow(ALPHA, n - 1)));
      AddZeroIffEqual(x, Pow(ALPHA, n - 1));
    } else {
      assert !IsRoot(0, x) by { NoRoots(x); }
    }
  }

  lemma NoRoots(x: bv8)
    ensures !IsRoot(0, x)
  {}

  lemma {:induction false} GenPolyMonic(n: nat)
    ensures GenPoly(n)[0] == 1
  {
    hide Add, Mul;
    if n > 0 {
      GenPolyMonic(n - 1);
      AddLaws(1, 0, 0);
    }
  }

  // ------------------------------------------------------------ long division

  /** One step of the shift register: bring down a byte and cancel the leading term. */
  function RemStep(rem: Poly, byte: bv8, gen: Poly): (r: Poly)
    requires |gen| == |rem| + 1 >= 2
    ensures |r| == |rem|
  {
    Sum(rem[1..] + [0], Scale(Add(byte, rem[0]), gen[1..]))
  }

  function Remainder(data: Poly, gen: Poly): (r: Poly)
    requires |gen| >= 2
    ensures |r| == |gen| - 1
    decreases |data|
  {
    if data == [] then Zeros(|gen| - 1)
    else RemStep(Remainder(data[..|data| - 1], gen), data[|data| - 1], gen)
  }

  function Quotient(data: Poly, gen: Poly): (q: Poly)
    requires |gen| >= 2
    ensures |q| == |data|
    decreases |data|
  {
    if data == [] then []
    else
      var init := data[..|data| - 1];
      Quotient(init, gen) + [Add(data[|data| - 1], Remainder(init, gen)[0])]
  }

  lemma EvalRemStep(rem: Poly, byte: bv8, gen: Poly, x: bv8)
    requires |gen| == |rem| + 1 >= 2 && gen[0] == 1
    ensures Eval(RemStep(rem, byte, gen), x)
         == Add(Add(Mul(Eval(rem, x), x), Mul(byte, Pow(x, |rem|))),
                Mul(Add(byte, rem[0]), Eval(gen, x)))
  {
    hide Add, Mul;
    var n, f := |rem|, Add(byte, rem[0]);
    var xn, lead := Pow(x, n), Mul(rem[0], Pow(x, n));
    var tail, gtail := Eval(rem[1..], x), Eval(gen[1..], x);
    // the new remainder is x * tail + f * gtail
    EvalSum(rem[1..] + [0], Scale(f, gen[1..]), x);
    EvalSnoc(rem[1..], 0, x);
    AddLaws(Mul(tail, x), 0, 0);
    EvalScale(f, gen[1..], x);
    // gen = x^n + gtail, x * rem = rem[0] * x^n + x * tail
    EvalMonic(gen, x);
    EvalTimesX(rem, x);
    MulAddRight(f, xn, gtail);
    MulAddLeft(byte, rem[0], xn);
    hide Eval, Pow, Sum, Scale;
    CollectRemStep(lead, Mul(tail, x), Mul(byte, xn), Mul(f, gtail));
  }

  lemma EvalMonic(gen: Poly, x: bv8)
    requires gen != [] && gen[0] == 1
    ensures Eval(gen, x) == Add(Pow(x, |gen| - 1), Eval(gen[1..], x))
  {
    hide Add, Mul;
    assert gen == [1] + gen[1..];
    EvalCons(1, gen[1..], x);
    MulOne(Pow(x, |gen| - 1));
  }

  lemma EvalTimesX(rem: Poly, x: bv8)
    requires rem != []
    ensures Mul(Eval(rem, x), x) == Add(Mul(rem[0], Pow(x, |rem|)), Mul(Eval(rem[1..], x), x))
  {
    hide Add, Mul;
    var n := |rem|;
    assert rem == [rem[0]] + rem[1..];
    EvalCons(rem[0], rem[1..], x);
    MulAddLeft(Mul(rem[0], Pow(x, n - 1)), Eval(rem[1..], x), x);
    MulAssociates(rem[0], Pow(x, n - 1), x);
  }

  lemma CollectRemStep(lead: bv8, shifted: bv8, down: bv8, cancel: bv8)
    ensures Add(shifted, cancel)
         == Add(Add(Add(lead, shifted), down), Add(Add(down, lead), cancel))
  {
    hide Add;
    var carry := Add(down, lead);
    AddLaws(lead, shifted, down);
    AddLaws(shifted, lead, down);
    AddLaws(lead, down, 0);
    assert Add(Add(lead, shifted), down) == Add(shifted, carry);
    AddLaws(shifted, carry, Add(carry, cancel));
    AddLaws(carry, cancel, 0);
  }

  /** Division with remainder: data * x^n = quotient * gen + remainder, at every point. */
  lemma {:induction false} Division(data: Poly, gen: Poly, x: bv8)
    requires |gen| >= 2 && gen[0] == 1
    ensures Add(Mul(Eval(data, x), Pow(x, |gen| - 1)), Eval(Remainder(data, gen), x))
         == Mul(Eval(Quotient(data, gen), x), Eval(gen, x))
    decreases |data|
  {
    hide *;
    var n, g := |gen| - 1, Eval(gen, x);
    var xn := Pow(x, n);
    if data == [] {
      DivisionOfNothing(gen, x);
    } else {
      var init, byte := data[..|data| - 1], data[|data| - 1];
      var rem := Remainder(init, gen);
      var f := Add(byte, rem[0]);
      DivisionUnfold(data, gen, x);
      Division(init, gen, x);
      EvalRemStep(rem, byte, gen, x);
      EvalSnoc(Quotient(init, gen), f, x);
      DivisionStep(Eval(init, x), x, byte, xn, Eval(rem, x), f, Eval(Quotient(init, gen), x), g);
    }
  }

  lemma DivisionOfNothing(gen: Poly, x: bv8)
    requires |gen| >= 2
    ensures Add(Mul(Eval([], x), Pow(x, |gen| - 1)), Eval(Remainder([], gen), x))
         == Mul(Eval(Quotient([], gen), x), Eval(gen, x))
  {
    hide Add, Mul;
    MulZero(Pow(x, |gen| - 1));
    MulZero(Eval(gen, x));
    EvalZeros(|gen| - 1, x);
    AddLaws(0, 0, 0);
  }

  lemma DivisionUnfold(data: Poly, gen: Poly, x: bv8)
    requires data != [] && |gen| >= 2
    ensures var init, byte := data[..|data| - 1], data[|data| - 1];
      && Eval(data, x) == Add(Mul(Eval(init, x), x), byte)
      && Remainder(data, gen) == RemStep(Remainder(init, gen), byte, gen)
      && Quotient(data, gen) == Quotient(init, gen) + [Add(byte, Remainder(init, gen)[0])]
  {
    hide Add, Mul, RemStep;
  }

  /** If d * xn + r = q * g, one more byte keeps the division: the two sides change alike. */
  lemma DivisionStep(d: bv8, x: bv8, byte: bv8, xn: bv8, r: bv8, f: bv8, q: bv8, g: bv8)
    requires Add(Mul(d, xn), r) == Mul(q, g)
    ensures Add(Mul(Add(Mul(d, x), byte), xn), Add(Add(Mul(r, x), Mul(byte, xn)), Mul(f, g)))
         == Mul(Add(Mul(q, x), f), g)
  {
    hide Add, Mul;
    // left side: (d * x + byte) * xn + new remainder
    MulAddLeft(Mul(d, x), byte, xn);
    MulAssociates(d, x, xn);
    MulCommutes(x, xn);
    MulAssociates(d, xn, x);
    // right side: (q * x + f) * g, with q * g = d * xn + r
    MulAddLeft(Mul(q, x), f, g);
    MulAssociates(q, x, g);
    MulCommutes(x, g);
    MulAssociates(q, g, x);
    MulAddLeft(Mul(d, xn), r, x);
    CollectDivision(Mul(Mul(d, xn), x), Mul(byte, xn), Mul(r, x), Mul(f, g));
  }

  lemma CollectDivision(a: bv8, b: bv8, c: bv8, d: bv8)
    ensures Add(Add(a, b), Add(Add(c, b), d)) == Add(Add(a, c), d)
  {
    hide Add;
    AddLaws(Add(a, b), Add(c, b), d);
    AddSwap(a, b, c, b);
    AddLaws(Add(a, c), 0, 0);
    AddLaws(b, b, b);
  }

  // ------------------------------------------------------------------- parity

  function Parity(data: Poly, n: nat): (p: Poly)
    requires n >= 1
    ensures |p| == n
  {
    Remainder(data, GenPoly(n))
  }

  /** c vanishes at ALPHA^0 .. ALPHA^(n-1): it is a codeword with n parity bytes. */
  ghost predicate IsCodeword(c: Poly, n: nat) {
    forall i: nat :: i < n ==> Eval(c, Pow(ALPHA, i)) == 0
  }

  /** Reed-Solomon correctness: data followed by its parity is a codeword. */
  lemma ParityMakesCodeword(data: Poly, n: nat)
    requires n >= 1
    ensures IsCodeword(data + Parity(data, n), n)
  {
    hide Parity, Eval, Pow;
    forall i: nat | i < n
      ensures Eval(data + Parity(data, n), Pow(ALPHA, i)) == 0
    {
      ParityVanishes(data, n, i);
    }
  }

  lemma ParityVanishes(data: Poly, n: nat, i: nat)
    requires i < n
    ensures Eval(data + Parity(data, n), Pow(ALPHA, i)) == 0
  {
    hide Add, Mul, Eval, Pow, GenPoly, Quotient, Remainder;
    var x := Pow(ALPHA, i);
    GenPolyRoots(n, x);
    GenPolyMonic(n);
    Division(data, GenPoly(n), x);
    EvalConcat(data, Parity(data, n), x);
    MulZero(Eval(Quotient(data, GenPoly(n)), x));
  }

  // --------------------------------------------------------- minimum distance

  /** The j-th power sum of the locators xs weighted by cs. */
  function PowerSum(xs: Poly, cs: Poly, j: nat): bv8
    requires |xs| == |cs|
  {
    if xs == [] then 0
    else Add(Mul(cs[0], Pow(xs[0], j)), PowerSum(xs[1..], cs[1..], j))
  }

  ghost predicate Distinct(xs: Poly) {
    forall i, j :: 0 <= i < j < |xs| ==> xs[i] != xs[j]
  }

  function Support(cs: Poly): set<nat> {
    set i | 0 <= i < |cs| && cs[i] != 0
  }

  /** Multiply each weight by its locator's distance from x, which cancels the weight at x. */
  function Eliminate(xs: Poly, cs: Poly, x: bv8): (es: Poly)
    requires |xs| == |cs|
    ensures |es| == |cs|
  {
    seq(|cs|, i requires 0 <= i < |cs| => Mul(cs[i], Add(xs[i], x)))
  }

  lemma {:induction false} PowerSumEliminate(xs: Poly, cs: Poly, x: bv8, j: nat)
    requires |xs| == |cs|
    ensures PowerSum(xs, Eliminate(xs, cs, x), j)
         == Add(PowerSum(xs, cs, j + 1), Mul(x, PowerSum(xs, cs, j)))
  {
    hide Add, Mul;
    if xs == [] {
      MulZero(x);
      AddLaws(0, 0, 0);
    } else {
      var c, y, yj := cs[0], xs[0], Pow(xs[0], j);
      PowerSumEliminate(xs[1..], cs[1..], x, j);
      assert Eliminate(xs, cs, x)[1..] == Eliminate(xs[1..], cs[1..], x);
      MulAssociates(c, Add(y, x), yj);
      MulAddLeft(y, x, yj);
      MulCommutes(y, yj);
      MulAddRight(c, Mul(yj, y), Mul(x, yj));
      MulAssociates(c, x, yj);
      MulCommutes(c, x);
      MulAssociates(x, c, yj);
      MulAddRight(x, Mul(c, yj), PowerSum(xs[1..], cs[1..], j));
      AddSwap(Mul(c, Mul(yj, y)), Mul(x, Mul(c, yj)),
              PowerSum(xs[1..], cs[1..], j + 1), Mul(x, PowerSum(xs[1..], cs[1..], j)));
    }
  }

  lemma EliminateSupport(xs: Poly, cs: Poly, p: nat)
    requires |xs| == |cs| && Distinct(xs) && p in Support(cs)
    ensures Support(Eliminate(xs, cs, xs[p])) == Support(cs) - {p}
    ensures |Support(Eliminate(xs, cs, xs[p]))| == |Support(cs)| - 1
  {
    hide Add, Mul;
    var es := Eliminate(xs, cs, xs[p]);
    forall i | 0 <= i < |cs|
      ensures es[i] != 0 <==> cs[i] != 0 && i != p
    {
      AddZeroIffEqual(xs[i], xs[p]);
      NoZeroDivisors(cs[i], Add(xs[i], xs[p]));
    }
    assert Support(es) == Support(cs) - {p};
  }

  lemma {:induction false} PowerSumSingle(xs: Poly, cs: Poly, p: nat)
    requires |xs| == |cs| && p < |cs|
    requires forall i :: 0 <= i < |cs| && i != p ==> cs[i] == 0
    ensures PowerSum(xs, cs, 0) == cs[p]
  {
    hide Add, Mul;
    MulOne(cs[0]);
    AddLaws(cs[0], 0, 0);
    if p == 0 {
      PowerSumZero(xs[1..], cs[1..]);
    } else {
      PowerSumSingle(xs[1..], cs[1..], p - 1);
      AddLaws(cs[p], 0, 0);
    }
  }

  lemma {:induction false} PowerSumZero(xs: Poly, cs: Poly)
    requires |xs| == |cs|
    requires forall i :: 0 <= i < |cs| ==> cs[i] == 0
    ensures PowerSum(xs, cs, 0) == 0
  {
    hide Add, Mul;
    if cs != [] {
      PowerSumZero(xs[1..], cs[1..]);
      MulOne(0);
      AddLaws(0, 0, 0);
    }
  }

  /**
    Weights of at most n nonzero entries whose first n power sums vanish are all zero: one
    position is eliminated per step, at the cost of one power sum.
   */
  lemma {:induction false} FewWeightsVanish(xs: Poly, cs: Poly, n: nat)
    requires |xs| == |cs| && Distinct(xs)
    requires |Support(cs)| <= n
    requires forall j: nat :: j < n ==> PowerSum(xs, cs, j) == 0
    ensures Support(cs) == {}
    decreases n
  {
    hide Add, Mul;
    if Support(cs) != {} {
      var p :| p in Support(cs);
      var es := Eliminate(xs, cs, xs[p]);
      EliminateSupport(xs, cs, p);
      forall j: nat | j < n - 1
        ensures PowerSum(xs, es, j) == 0
      {
        PowerSumEliminate(xs, cs, xs[p], j);
        MulZero(xs[p]);
        AddLaws(0, 0, 0);
      }
      FewWeightsVanish(xs, es, n - 1);
      assert Support(cs) == {p};
      forall i | 0 <= i < |cs| && i != p
        ensures cs[i] == 0
      {
        assert i !in Support(cs);
      }
      PowerSumSingle(xs, cs, p);
    }
  }

  /** The locators of a word of length n: ALPHA^(n-1) down to ALPHA^0. */
  function Locators(n: nat): (xs: Poly)
    ensures |xs| == n
  {
    seq(n, i requires 0 <= i < n => Pow(ALPHA, n - 1 - i))
  }

  lemma LocatorsDistinct(n: nat)
    requires n <= 255
    ensures Distinct(Locators(n))
  {
    hide Mul, Pow;
    forall i, j | 0 <= i < j < n
      ensures Locators(n)[i] != Locators(n)[j]
    {
      PowAlphaInjective(n - 1 - j, n - 1 - i);
    }
  }

  lemma {:induction false} SyndromeIsPowerSum(c: Poly, j: nat)
    ensures Eval(c, Pow(ALPHA, j)) == PowerSum(Locators(|c|), c, j)
  {
    hide Add, Mul, Pow;
    if c != [] {
      var rest := c[1..];
      SyndromeIsPowerSum(rest, j);
      assert c == [c[0]] + rest;
      EvalCons(c[0], rest, Pow(ALPHA, j));
      assert Locators(|c|)[1..] == Locators(|rest|);
      PowMul(ALPHA, j, |rest|);
      PowMul(ALPHA, |rest|, j);
      assert j * |rest| == |rest| * j;
    }
  }

  /** The positions in which two words differ. */
  function Differences(a: Poly, b: Poly): set<nat>
    requires |a| == |b|
  {
    set i | 0 <= i < |a| && a[i] != b[i]
  }

  /** Minimum distance: different codewords of length at most 255 differ in n+1 places. */
  lemma MinimumDistance(a: Poly, b: Poly, n: nat)
    requires |a| == |b| <= 255 && a != b
    requires IsCodeword(a, n) && IsCodeword(b, n)
    ensures |Differences(a, b)| >= n + 1
  {
    hide Add, Mul, Pow;
    var d := Sum(a, b);
    forall i | 0 <= i < |a|
      ensures d[i] == 0 <==> a[i] == b[i]
    {
      AddZeroIffEqual(a[i], b[i]);
    }
    assert Support(d) == Differences(a, b);
    if |Support(d)| <= n {
      forall j: nat | j < n
        ensures PowerSum(Locators(|d|), d, j) == 0
      {
        EvalSum(a, b, Pow(ALPHA, j));
        AddLaws(0, 0, 0);
        SyndromeIsPowerSum(d, j);
      }
      LocatorsDistinct(|d|);
      FewWeightsVanish(Locators(|d|), d, n);
      forall i | 0 <= i < |a|
        ensures a[i] == b[i]
      {
        assert i !in Support(d);
      }
    }
  }

  /** Encoded blocks of different data differ in at least n+1 positions. */
  lemma EncodedDistance(a: Poly, b: Poly, n: nat)
    requires n >= 1 && |a| == |b| && |a| + n <= 255 && a != b
    ensures |Differences(a + Parity(a, n), b + Parity(b, n))| >= n + 1
  {
    ParityMakesCodeword(a, n);
    ParityMakesCodeword(b, n);
    assert (a + Parity(a, n))[..|a|] == a && (b + Parity(b, n))[..|b|] == b;
    MinimumDistance(a + Parity(a, n), b + Parity(b, n), n);
  }

  /** Up to half as many errors as parity bytes leave one codeword nearest: it can be corrected. */
  lemma UniqueNearest(word: Poly, a: Poly, b: Poly, n: nat)
    requires |a| == |b| == |word| <= 255
    requires IsCodeword(a, n) && IsCodeword(b, n)
    requires 2 * |Differences(word, a)| <= n && 2 * |Differences(word, b)| <= n
    ensures a == b
  {
    hide IsCodeword;
    var c, d := Differences(word, a), Differences(word, b);
    if a != b {
      MinimumDistance(a, b, n);
      assert Differences(a, b) <= c + d;
      SubsetSize(Differences(a, b), c + d);
      UnionSize(c, d);
      assert false;
    }
  }

  /** The parity is the only suffix of its length that makes a codeword. */
  lemma ParityUnique(data: Poly, p: Poly, n: nat)
    requires 1 <= n <= 255 && |p| == n
    ensures IsCodeword(data + p, n) <==> p == Parity(data, n)
  {
    hide Add, Mul, Pow;
    var q := Parity(data, n);
    ParityMakesCodeword(data, n);
    if IsCodeword(data + p, n) && p != q {
      forall j: nat | j < n
        ensures Eval(Sum(p, q), Pow(ALPHA, j)) == 0
      {
        var x := Pow(ALPHA, j);
        EvalConcat(data, p, x);
        EvalConcat(data, q, x);
        var head := Mul(Eval(data, x), Pow(x, n));
        AddZeroIffEqual(head, Eval(p, x));
        AddZeroIffEqual(head, Eval(q, x));
        EvalSum(p, q, x);
        AddZeroIffEqual(Eval(p, x), Eval(q, x));
      }
      EvalZerosCodeword(n);
      var i :| 0 <= i < n && p[i] != q[i];
      AddZeroIffEqual(p[i], q[i]);
      assert Sum(p, q)[i] != Zeros(n)[i];
      MinimumDistance(Sum(p, q), Zeros(n), n);
      DifferencesBound(Sum(p, q), Zeros(n));
    }
  }

  lemma EvalZerosCodeword(n: nat)
    ensures IsCodeword(Zeros(n), n)
  {
    forall i: nat | i < n
      ensures Eval(Zeros(n), Pow(ALPHA, i)) == 0
    {
      EvalZeros(n, Pow(ALPHA, i));
    }
  }

  lemma {:induction false} DifferencesBound(a: Poly, b: Poly)
    requires |a| == |b|
    ensures |Differences(a, b)| <= |a|
  {
    if a != [] {
      var m := |a| - 1;
      DifferencesBound(a[..m], b[..m]);
      var here: set<nat> := if a[m] != b[m] then {m} else {};
      assert Differences(a, b) == Differences(a[..m], b[..m]) + here;
    }
  }

  // ------------------------------------------------- the encoder's own loops

  /** The generator polynomial, one linear factor per round. */
  method BuildGenerator(t: Tables, ecCount: nat) returns (gen: array<bv8>)
    requires t.Valid() && ecCount <= 255
    ensures fresh(gen) && gen[..] == GenPoly(ecCount)
  {
    hide Add, Mul, Pow, Index, Eval;
    gen := new bv8[ecCount + 1](_ => 0);
    gen[0] := 1;
    assert gen[..1] == GenPoly(0);
    for i := 0 to ecCount
      invariant fresh(gen) && gen.Length == ecCount + 1
      invariant gen[..i + 1] == GenPoly(i)
      invariant gen[i + 1..] == Zeros(ecCount - i)
    {
      assert gen[i + 1] == gen[i + 1..][0];
      assert gen[i + 2..] == gen[i + 1..][1..] == Zeros(ecCount - i)[1..] == Zeros(ecCount - (i + 1));
      MultiplyIn(t, gen, i);
    }
    assert gen[..] == gen[..ecCount + 1];
  }

  /** Multiply the polynomial in gen[..i+1] by x - ALPHA^i, in place from the low end. */
  method MultiplyIn(t: Tables, gen: array<bv8>, i: nat)
    requires t.Valid() && gen != t.exp && gen as object != t.log
    requires i < 255 && i + 1 < gen.Length && gen[i + 1] == 0
    modifies gen
    ensures gen[..i + 2] == MulLinear(old(gen[..i + 1]), Pow(ALPHA, i))
    ensures gen[i + 2..] == old(gen[i + 2..])
  {
    hide Add, Mul, Pow, Index, MulLinear, Tables.Valid;
    ghost var p, r := gen[..i + 1], Pow(ALPHA, i);
    ghost var product := MulLinear(p, r);
    var j := i + 1;
    while j > 0
      invariant 0 <= j <= i + 1 && t.Valid()
      invariant gen[..j] == p[..j]
      invariant gen[j] == (p + [0])[j]
      invariant gen[j + 1..i + 2] == product[j + 1..]
      invariant gen[i + 2..] == old(gen[i + 2..])
    {
      var step := t.TimesPower(gen[j - 1], i);
      MulLinearAt(p, r, j);
      label Before:
      gen[j] := Add(gen[j], step);
      t.Kept@Before();
      j := j - 1;
    }
    MulLinearAt(p, r, 0);
    assert gen[0] == product[0];
    assert gen[..i + 2][1..] == gen[1..i + 2] == product[1..];
    HeadAndTail(gen[..i + 2], product);
  }

  lemma HeadAndTail(p: Poly, q: Poly)
    requires |p| == |q| > 0 && p[0] == q[0] && p[1..] == q[1..]
    ensures p == q
  {
    assert p == [p[0]] + p[1..] && q == [q[0]] + q[1..];
  }

  lemma MulLinearAt(p: Poly, r: bv8, j: nat)
    requires p != [] && j <= |p|
    ensures MulLinear(p, r)[j] == if j == 0 then p[0] else Add((p + [0])[j], Mul(p[j - 1], r))
  {
    hide Add, Mul;
    if j == 0 {
      AddLaws(p[0], 0, 0);
    } else {
      MulCommutes(p[j - 1], r);
    }
  }

  /** The parity bytes of the encoder, computed in its shift register. */
  method RsEcBytes(t: Tables, data: seq<bv8>, ecCount: nat) returns (rem: array<bv8>)
    requires t.Valid() && 1 <= ecCount <= 255
    ensures fresh(rem) && rem[..] == Parity(data, ecCount)
  {
    hide Add, Mul, Pow, Index, Eval, GenPoly;
    var gen := BuildGenerator(t, ecCount);
    rem := new bv8[ecCount](_ => 0);
    ghost var g := GenPoly(ecCount);
    assert data[..0] == [] && rem[..] == Zeros(ecCount);
    for b := 0 to |data|
      invariant fresh(rem) && rem.Length == ecCount && gen[..] == g && rem != gen
      invariant rem[..] == Remainder(data[..b], g)
    {
      ghost var before := rem[..];
      var factor := Add(data[b], rem[0]);
      ShiftLeft(rem);
      rem[ecCount - 1] := 0;
      assert rem[..] == before[1..] + [0];
      if factor != 0 {
        Cancel(t, rem, gen, factor);
      } else {
        ScaleByZero(rem[..], g[1..]);
      }
      assert rem[..] == RemStep(before, data[b], g);
      assert data[..b + 1][..b] == data[..b];
    }
    assert data[..|data|] == data;
  }

  lemma ScaleByZero(rem: Poly, p: Poly)
    requires |rem| == |p|
    ensures Sum(rem, Scale(0, p)) == rem
  {
    hide Add, Mul;
    forall k | 0 <= k < |p|
      ensures Sum(rem, Scale(0, p))[k] == rem[k]
    {
      MulZero(p[k]);
      AddLaws(rem[k], 0, 0);
    }
  }

  /** Add a nonzero multiple of the generator's tail to the register. */
  method Cancel(t: Tables, rem: array<bv8>, gen: array<bv8>, factor: bv8)
    requires t.Valid() && rem != gen && rem != t.exp && rem as object != t.log
    requires gen.Length == rem.Length + 1 && factor != 0
    modifies rem
    ensures rem[..] == Sum(old(rem[..]), Scale(factor, gen[1..]))
  {
    hide Add, Mul, Pow, Index, Tables.Valid;
    ghost var r, g := rem[..], gen[1..];
    for j := 0 to rem.Length
      invariant t.Valid()
      invariant rem[..j] == Sum(r, Scale(factor, g))[..j]
      invariant rem[j..] == r[j..]
    {
      var step := t.Times(gen[j + 1], factor);
      MulCommutes(g[j], factor);
      label Before:
      rem[j] := Add(rem[j], step);
      t.Kept@Before();
    }
  }

  method ShiftLeft(a: array<bv8>)
    requires a.Length > 0
    modifies a
    ensures a[..a.Length - 1] == old(a[1..])
  {
    for k := 0 to a.Length - 1
      invariant a[..k] == old(a[1..k + 1])
      invariant a[k..] == old(a[k..])
    {
      a[k] := a[k + 1];
    }
  }
}
