/**
  The eight mask patterns, and the laws that fix each of them without its formula.
 */
module Masks {

  /** Is the module in row r and column c inverted? */
  predicate MaskAt(mask: nat, r: nat, c: nat)
    requires mask < 8
  {
    match mask
    case 0 => (r + c) % 2 == 0
    case 1 => r % 2 == 0
    case 2 => c % 3 == 0
    case 3 => (r + c) % 3 == 0
    case 4 => (r / 2 + c / 3) % 2 == 0
    case 5 => (r * c) % 2 + (r * c) % 3 == 0
    case 6 => ((r * c) % 2 + (r * c) % 3) % 2 == 0
    case _ => ((r * c) % 3 + (r + c) % 2) % 2 == 0
  }

  type Pattern = (nat, nat) -> bool

  // ---------------------------------------------------------------------- laws

  /** How the pattern changes by a step down, or across, at one place. */
  predicate StepLaw(mask: nat, p: Pattern, r: nat, c: nat) {
    match mask
    case 0 => p(r + 1, c) != p(r, c) && p(r, c + 1) != p(r, c)   // a checkerboard
    case 1 => p(r + 1, c) != p(r, c) && p(r, c + 1) == p(r, c)   // rows in turn
    case 2 => p(r + 1, c) == p(r, c) && p(r, c + 3) == p(r, c)   // one column in three
    case 3 => p(r + 1, c) == p(r, c + 1) && p(r, c + 3) == p(r, c)   // one diagonal in three
    case 4 => p(r + 2, c) != p(r, c) && p(r, c + 3) != p(r, c)   // tiles of two rows by three columns
    case 5 => true
    case _ => p(r + 6, c) == p(r, c) && p(r, c + 6) == p(r, c)   // squares of six by six
  }

  /** One square of pattern 6, row by row. */
  predicate Square6(r: nat, c: nat) {
    match r
    case 0 => true                          // ######
    case 1 => c < 3                         // ###...
    case 2 => c != 2 && c != 5              // ##.##.
    case 3 => c == 0 || c == 2 || c == 4    // #.#.#.
    case 4 => c != 1 && c != 4              // #.##.#
    case _ => c == 0 || c > 3               // #...##
  }

  /** One square of pattern 7. */
  predicate Square7(r: nat, c: nat) {
    match r
    case 0 => c == 0 || c == 2 || c == 4    // #.#.#.
    case 1 => c >= 3                        // ...###
    case 2 => c == 0 || c > 3               // #...##
    case 3 => c == 1 || c == 3 || c == 5    // .#.#.#
    case 4 => c < 3                         // ###...
    case _ => 1 <= c <= 3                   // .###..
  }

  /** The values at the origin that the steps start from. */
  predicate StartLaw(mask: nat, p: Pattern) {
    match mask
    case 0 => p(0, 0)
    case 1 => p(0, 0)
    case 2 => p(0, 0) && !p(0, 1) && !p(0, 2)
    case 3 => p(0, 0) && !p(0, 1) && !p(0, 2)
    case 4 => forall r: nat, c: nat :: r < 2 && c < 3 ==> p(r, c)
    case 5 => true
    case 6 => forall r: nat, c: nat :: r < 6 && c < 6 ==> p(r, c) == Square6(r, c)
    case _ => forall r: nat, c: nat :: r < 6 && c < 6 ==> p(r, c) == Square7(r, c)
  }

  /** Pattern 5 is dark where two and three both divide a coordinate. */
  predicate ProductLaw(p: Pattern, r: nat, c: nat) {
    p(r, c) == ((r % 2 == 0 || c % 2 == 0) && (r % 3 == 0 || c % 3 == 0))
  }

  ghost predicate IsMask(mask: nat, p: Pattern)
    requires mask < 8
  {
    && StartLaw(mask, p)
    && (forall r: nat, c: nat :: StepLaw(mask, p, r, c))
    && (mask == 5 ==> forall r: nat, c: nat :: ProductLaw(p, r, c))
  }

  function MaskPattern(mask: nat): Pattern
    requires mask < 8
  {
    (r: nat, c: nat) => MaskAt(mask, r, c)
  }

  // -------------------------------------------------------- the laws are kept

  /** The product, hidden from arithmetic. */
  function Times(a: nat, b: nat): nat { a * b }

  lemma TimesSplits(r: nat, c: nat)
    ensures Times(r, c) == 2 * Times(r / 2, c) + (if r % 2 == 0 then 0 else c)
    ensures Times(r, c)
         == 3 * Times(r / 3, c) + (if r % 3 == 0 then 0 else if r % 3 == 1 then c else 2 * c)
  {
    SplitBy(r / 2, r % 2, 2, c);
    SplitBy(r / 3, r % 3, 3, c);
    hide Times;
  }

  lemma SplitBy(a: nat, i: nat, k: nat, c: nat)
    ensures Times(k * a + i, c) == k * Times(a, c) + i * c
  {
    assert (k * a + i) * c == (k * a) * c + i * c;
    assert (k * a) * c == k * (a * c);
  }

  lemma RestByTwo(x: nat, h: nat, y: nat)
    requires x == 2 * h + y
    ensures x % 2 == y % 2
  {
  }

  lemma RestByThree(x: nat, h: nat, y: nat)
    requires x == 3 * h + y
    ensures x % 3 == y % 3
  {
  }

  /** A product modulo 2 and modulo 3, from the remainders of its factors. */
  lemma TimesModulo(r: nat, c: nat)
    ensures Times(r, c) % 2 == if r % 2 == 0 then 0 else c % 2
    ensures Times(r, c) % 3 == if r % 3 == 0 then 0 else if r % 3 == 1 then c % 3 else (2 * c) % 3
  {
    TimesSplits(r, c);
    RestByTwo(Times(r, c), Times(r / 2, c), if r % 2 == 0 then 0 else c);
    RestByThree(Times(r, c), Times(r / 3, c), if r % 3 == 0 then 0 else if r % 3 == 1 then c else 2 * c);
    hide Times;
  }

  lemma MaskByTimes(r: nat, c: nat)
    ensures MaskAt(5, r, c) == (Times(r, c) % 2 + Times(r, c) % 3 == 0)
    ensures MaskAt(6, r, c) == ((Times(r, c) % 2 + Times(r, c) % 3) % 2 == 0)
    ensures MaskAt(7, r, c) == ((Times(r, c) % 3 + (r + c) % 2) % 2 == 0)
  {
  }

  lemma StepsBySix(mask: nat, r: nat, c: nat)
    requires mask == 6 || mask == 7
    ensures MaskAt(mask, r + 6, c) == MaskAt(mask, r, c) == MaskAt(mask, r, c + 6)
  {
    hide Times, MaskAt;
    MaskByTimes(r, c);
    MaskByTimes(r + 6, c);
    MaskByTimes(r, c + 6);
    SixMore(r, c);
  }

  /** A step of six changes no remainder of the product. */
  lemma SixMore(r: nat, c: nat)
    ensures Times(r + 6, c) % 2 == Times(r, c) % 2 == Times(r, c + 6) % 2
    ensures Times(r + 6, c) % 3 == Times(r, c) % 3 == Times(r, c + 6) % 3
  {
    TimesAdds(r, c);
    hide Times;
    RestByTwo(Times(r + 6, c), 3 * c, Times(r, c));
    RestByThree(Times(r + 6, c), 2 * c, Times(r, c));
    RestByTwo(Times(r, c + 6), 3 * r, Times(r, c));
    RestByThree(Times(r, c + 6), 2 * r, Times(r, c));
  }

  lemma TimesAdds(r: nat, c: nat)
    ensures Times(r + 6, c) == Times(r, c) + 6 * c && Times(r, c + 6) == Times(r, c) + 6 * r
  {
  }

  lemma StepsByTile(r: nat, c: nat)
    ensures MaskAt(4, r + 2, c) != MaskAt(4, r, c) && MaskAt(4, r, c + 3) != MaskAt(4, r, c)
  {
    assert (r + 2) / 2 == r / 2 + 1 && (c + 3) / 3 == c / 3 + 1;
  }

  lemma StepsByOne(r: nat, c: nat)
    ensures MaskAt(0, r + 1, c) != MaskAt(0, r, c) && MaskAt(0, r, c + 1) != MaskAt(0, r, c)
    ensures MaskAt(1, r + 1, c) != MaskAt(1, r, c) && MaskAt(1, r, c + 1) == MaskAt(1, r, c)
  {
  }

  lemma StepsByThree(r: nat, c: nat)
    ensures MaskAt(2, r + 1, c) == MaskAt(2, r, c) && MaskAt(2, r, c + 3) == MaskAt(2, r, c)
    ensures MaskAt(3, r + 1, c) == MaskAt(3, r, c + 1) && MaskAt(3, r, c + 3) == MaskAt(3, r, c)
  {
  }

  lemma MaskSteps(mask: nat, r: nat, c: nat)
    requires mask < 8
    ensures StepLaw(mask, MaskPattern(mask), r, c)
  {
    hide MaskAt;
    if mask >= 6 {
      StepsBySix(mask, r, c);
    } else if mask == 4 {
      StepsByTile(r, c);
    } else if mask >= 2 {
      StepsByThree(r, c);
    } else {
      StepsByOne(r, c);
    }
  }

  lemma MaskProduct(r: nat, c: nat)
    ensures ProductLaw(MaskPattern(5), r, c)
  {
    hide Times, MaskAt;
    MaskByTimes(r, c);
    TimesModulo(r, c);
  }

  lemma SquareAt(r: nat, c: nat)
    requires r < 6 && c < 6
    ensures MaskAt(6, r, c) == Square6(r, c) && MaskAt(7, r, c) == Square7(r, c)
  {
    hide *;
    MaskByTimes(r, c);
    TimesModulo(r, c);
    SmallRemainders(r);
    SquareRow(r, c, Times(r, c) % 2, Times(r, c) % 3);
  }

  lemma SmallRemainders(r: nat)
    requires r < 6
    ensures r % 2 == (if r == 0 || r == 2 || r == 4 then 0 else 1)
    ensures r % 3 == (if r == 0 || r == 3 then 0 else if r == 1 || r == 4 then 1 else 2)
  {
  }

  /** The squares from the remainders of the product modulo 2 and 3. */
  lemma SquareRow(r: nat, c: nat, two: nat, three: nat)
    requires r < 6 && c < 6
    requires two == if r == 0 || r == 2 || r == 4 then 0 else c % 2
    requires three == if r == 0 || r == 3 then 0 else if r == 1 || r == 4 then c % 3 else (2 * c) % 3
    ensures Square6(r, c) == ((two + three) % 2 == 0) && Square7(r, c) == ((three + (r + c) % 2) % 2 == 0)
  {
    match r
    case 0 =>
    case 1 =>
    case 2 =>
    case 3 =>
    case 4 =>
    case _ =>
  }

  lemma MaskStarts(mask: nat)
    requires mask < 8
    ensures StartLaw(mask, MaskPattern(mask))
  {
    if mask >= 6 {
      forall r: nat, c: nat | r < 6 && c < 6
        ensures MaskAt(6, r, c) == Square6(r, c) && MaskAt(7, r, c) == Square7(r, c)
      {
        SquareAt(r, c);
      }
      hide MaskAt, Square6, Square7;
    }
  }

  /** Every mask keeps its laws. */
  lemma MaskIs(mask: nat)
    requires mask < 8
    ensures IsMask(mask, MaskPattern(mask))
  {
    MaskStarts(mask);
    forall r: nat, c: nat
      ensures StepLaw(mask, MaskPattern(mask), r, c)
    {
      MaskSteps(mask, r, c);
    }
    if mask == 5 {
      forall r: nat, c: nat
        ensures ProductLaw(MaskPattern(5), r, c)
      {
        MaskProduct(r, c);
      }
    }
  }

  // ------------------------------------------------------- the laws leave no choice

  /** Two patterns that keep the laws of a mask are equal everywhere. */
  lemma {:induction false} MaskUnique(mask: nat, p: Pattern, q: Pattern, r: nat, c: nat)
    requires mask < 8 && IsMask(mask, p) && IsMask(mask, q)
    ensures p(r, c) == q(r, c)
    decreases r + c, r
  {
    var down := if mask < 4 then 1 else if mask == 4 then 2 else 6;
    var across := if mask < 2 then 1 else if mask < 5 then 3 else 6;
    if mask == 5 {
      assert ProductLaw(p, r, c) && ProductLaw(q, r, c);
    } else if r >= down {
      assert StepLaw(mask, p, r - down, c) && StepLaw(mask, q, r - down, c);
      if mask == 3 { MaskUnique(mask, p, q, r - 1, c + 1); } else { MaskUnique(mask, p, q, r - down, c); }
    } else if c >= across {
      assert StepLaw(mask, p, r, c - across) && StepLaw(mask, q, r, c - across);
      MaskUnique(mask, p, q, r, c - across);
    } else {
      assert StartLaw(mask, p) && StartLaw(mask, q);
    }
  }
}
