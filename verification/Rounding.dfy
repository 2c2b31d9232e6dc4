/**
 What it means for an integer to be a rational number rounded: independent of any algorithm, and
 shown to pin the integer down.
 */
module Rounding {
  import opened Arithmetic

  /** r is within half a unit of num / den. */
  ghost predicate Nearest(num: int, den: int, r: int) {
    den > 0 && -den <= 2 * (num - r * den) <= den
  }

  /** num / den is r + 1/2. */
  ghost predicate TieAbove(num: int, den: int, r: int) {
    2 * (num - r * den) == den
  }

  /** num / den is r - 1/2. */
  ghost predicate TieBelow(num: int, den: int, r: int) {
    2 * (num - r * den) == -den
  }

  ghost predicate Tie(num: int, den: int, r: int) {
    TieAbove(num, den, r) || TieBelow(num, den, r)
  }

  /** n1 / d1 <= n2 / d2, for positive denominators. */
  ghost predicate RatioLe(n1: int, d1: int, n2: int, d2: int) {
    n1 * d2 <= n2 * d1
  }

  /** ROUND_HALF_EVEN. */
  ghost predicate IsHalfEven(num: int, den: int, r: int) {
    Nearest(num, den, r) && (Tie(num, den, r) ==> r % 2 == 0)
  }

  /** ROUND_HALF_DOWN: a tie goes to the neighbour of smaller magnitude. */
  ghost predicate IsHalfDown(num: int, den: int, r: int) {
    && Nearest(num, den, r)
    && (Tie(num, den, r) ==> if num >= 0 then r * den < num else num < r * den)
  }

  /** k <= n / d, scaled by e; strictly so when n / d exceeds k. */
  lemma Scaled(n: int, k: int, d: int, e: int)
    requires e > 0
    ensures k * d <= n <==> k * (d * e) <= n * e
    ensures n <= k * d <==> n * e <= k * (d * e)
  {
    Associate(k, d, e);
    ScaleCompare(k * d, n, e);
    ScaleCompare(n, k * d, e);
  }

  lemma ScaleCompare(a: int, b: int, factor: int)
    requires factor > 0
    ensures a <= b <==> a * factor <= b * factor
    ensures a == b <==> a * factor == b * factor
  {
    if a < b { MulStrict(a, b, factor); } else if a > b { MulStrict(b, a, factor); }
  }

  lemma NearestBounds(num: int, den: int, r: int)
    requires Nearest(num, den, r)
    ensures (2 * r - 1) * den <= 2 * num <= (2 * r + 1) * den
    ensures TieBelow(num, den, r) <==> 2 * num == (2 * r - 1) * den
    ensures TieAbove(num, den, r) <==> 2 * num == (2 * r + 1) * den
  {
    Distribute(2 * r, -1, den);
    Distribute(2 * r, 1, den);
    Associate(2, r, den);
  }

  /** Two nearest integers of ordered rationals are ordered, unless both sit on the same tie. */
  lemma NearestOrder(n1: int, d1: int, r1: int, n2: int, d2: int, r2: int)
    requires Nearest(n1, d1, r1) && Nearest(n2, d2, r2)
    requires RatioLe(n1, d1, n2, d2)
    requires r1 > r2
    ensures r1 == r2 + 1 && TieBelow(n1, d1, r1) && TieAbove(n2, d2, r2)
  {
    var p := d1 * d2;
    assert p == d2 * d1 && p > 0 by { MulStrict(0, d1, d2); }
    NearestBounds(n1, d1, r1);
    NearestBounds(n2, d2, r2);
    Scaled(2 * n1, 2 * r1 - 1, d1, d2);
    Scaled(2 * n2, 2 * r2 + 1, d2, d1);
    Associate(2, n1, d2);
    Associate(2, n2, d1);
    ScaleCompare(2 * r1 - 1, 2 * r2 + 1, p);
  }

  lemma HalfEvenMonotone(n1: int, d1: int, r1: int, n2: int, d2: int, r2: int)
    requires IsHalfEven(n1, d1, r1) && IsHalfEven(n2, d2, r2)
    requires RatioLe(n1, d1, n2, d2)
    ensures r1 <= r2
  {
    if r1 > r2 { NearestOrder(n1, d1, r1, n2, d2, r2); }
  }

  lemma HalfDownMonotone(n1: int, d1: int, r1: int, n2: int, d2: int, r2: int)
    requires IsHalfDown(n1, d1, r1) && IsHalfDown(n2, d2, r2)
    requires RatioLe(n1, d1, n2, d2)
    ensures r1 <= r2
  {
    if r1 > r2 {
      NearestOrder(n1, d1, r1, n2, d2, r2);
      // r1's tie lies below it, so n1 is negative; r2's lies above it, so n2 is not.
      assert n1 < r1 * d1 && r2 * d2 < n2;
      assert n1 < 0 <= n2;
      if r2 >= 0 {
        MulMonotone(1, r1, d1);
      } else {
        MulMonotone(r2, -1, d2);
      }
    }
  }

  /** There is one half-even rounding of a rational, however it is written. */
  lemma HalfEvenUnique(n1: int, d1: int, r1: int, n2: int, d2: int, r2: int)
    requires IsHalfEven(n1, d1, r1) && IsHalfEven(n2, d2, r2)
    requires RatioLe(n1, d1, n2, d2) && RatioLe(n2, d2, n1, d1)
    ensures r1 == r2
  {
    HalfEvenMonotone(n1, d1, r1, n2, d2, r2);
    HalfEvenMonotone(n2, d2, r2, n1, d1, r1);
  }

  lemma HalfDownUnique(n1: int, d1: int, r1: int, n2: int, d2: int, r2: int)
    requires IsHalfDown(n1, d1, r1) && IsHalfDown(n2, d2, r2)
    requires RatioLe(n1, d1, n2, d2) && RatioLe(n2, d2, n1, d1)
    ensures r1 == r2
  {
    HalfDownMonotone(n1, d1, r1, n2, d2, r2);
    HalfDownMonotone(n2, d2, r2, n1, d1, r1);
  }

  lemma RescaleResidue(num: int, den: int, factor: int, r: int)
    ensures num * factor - r * (den * factor) == (num - r * den) * factor
  {
    Distribute(num, -(r * den), factor);
    Associate(r, den, factor);
  }

  /** A residue and its denominator keep their relations when both are scaled. */
  lemma RescaleRelations(diff: int, den: int, factor: int)
    requires factor > 0
    ensures -den <= 2 * diff <= den <==> -(den * factor) <= 2 * (diff * factor) <= den * factor
    ensures 2 * diff == den <==> 2 * (diff * factor) == den * factor
    ensures 2 * diff == -den <==> 2 * (diff * factor) == -(den * factor)
    ensures (0 < diff <==> 0 < diff * factor) && (diff < 0 <==> diff * factor < 0)
    ensures 0 < den <==> 0 < den * factor
  {
    var minus := 0 - den;
    assert minus * factor == -(den * factor);
    Associate(2, diff, factor);
    ScaleCompare(2 * diff, den, factor);
    ScaleCompare(minus, 2 * diff, factor);
    ScaleCompare(diff, 0, factor);
    ScaleCompare(0, diff, factor);
    ScaleCompare(den, 0, factor);
  }

  /** Multiplying numerator and denominator by the same factor changes no rounding. */
  lemma Rescale(num: int, den: int, factor: int, r: int)
    requires factor > 0
    ensures IsHalfEven(num, den, r) <==> IsHalfEven(num * factor, den * factor, r)
    ensures IsHalfDown(num, den, r) <==> IsHalfDown(num * factor, den * factor, r)
  {
    RescaleResidue(num, den, factor, r);
    RescaleRelations(num - r * den, den, factor);
    ScaleCompare(0, num, factor);
  }

  lemma Negate(num: int, den: int, r: int)
    ensures IsHalfEven(num, den, r) <==> IsHalfEven(-num, den, -r)
    ensures IsHalfDown(num, den, r) <==> IsHalfDown(-num, den, -r)
  {
    assert (-r) * den == -(r * den);
  }
}
