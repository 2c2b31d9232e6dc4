/** Products and JavaScript's truncating division, in the small steps the other proofs use. */
module Arithmetic {

  function Abs(x: int): nat { if x < 0 then -x else x }

  /** BigInt division by a positive divisor truncates toward zero. */
  function TruncDiv(a: int, d: int): int
    requires d > 0
  {
    if a >= 0 then a / d else -(-a / d)
  }

  /** q is a / d without what is behind the point. */
  predicate Truncated(a: int, d: int, q: int) {
    if a >= 0 then q * d <= a < q * d + d else q * d - d < a <= q * d
  }

  lemma TruncDivExactly(a: int, d: int)
    requires d > 0
    ensures Truncated(a, d, TruncDiv(a, d))
  {
    var b := if a >= 0 then a else -a;
    var q := b / d;
    assert b == q * d + b % d;
    assert (-q) * d == -(q * d);
  }

  lemma Distribute(a: int, b: int, c: int)
    ensures (a + b) * c == a * c + b * c
  {
  }

  lemma Associate(a: int, b: int, c: int)
    ensures a * (b * c) == (a * b) * c
  {
  }

  lemma MulMonotone(a: int, b: int, c: int)
    requires a <= b && 0 <= c
    ensures a * c <= b * c
  {
    Distribute(a, b - a, c);
  }

  lemma MulStrict(a: int, b: int, c: int)
    requires a < b && 0 < c
    ensures a * c < b * c
  {
    MulMonotone(a + 1, b, c);
    Distribute(a, 1, c);
  }
}
