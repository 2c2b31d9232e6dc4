/**
 Decimal digit strings: what they denote, how BigInt prints them, and why comparing two of equal
 length character by character compares the numbers.
 */
module Digits {
  import opened Arithmetic

  predicate IsDigit(c: char) { '0' <= c <= '9' }

  predicate AllDigits(s: string) { forall i | 0 <= i < |s| :: IsDigit(s[i]) }

  function DigitValue(c: char): nat
    requires IsDigit(c)
  {
    c as int - '0' as int
  }

  function Digit(n: nat): char
    requires n < 10
  {
    ('0' as int + n) as char
  }

  function Pow10(n: nat): (p: nat)
    ensures p >= 1
  {
    if n == 0 then 1 else 10 * Pow10(n - 1)
  }

  /** The number a digit string denotes; the empty string denotes zero. */
  function Value(s: string): nat
    requires AllDigits(s)
  {
    if s == "" then 0 else 10 * Value(s[..|s| - 1]) + DigitValue(s[|s| - 1])
  }

  /** BigInt.prototype.toString for a non-negative integer. */
  function Show(n: nat): (s: string)
    ensures AllDigits(s) && |s| >= 1
  {
    if n < 10 then [Digit(n)] else Show(n / 10) + [Digit(n % 10)]
  }

  function Zeros(n: nat): (s: string)
    ensures |s| == n && AllDigits(s) && forall i | 0 <= i < n :: s[i] == '0'
  {
    seq(n, _ => '0')
  }

  /** String.prototype.padStart(width, '0'). */
  function PadStart(s: string, width: nat): string {
    if |s| >= width then s else Zeros(width - |s|) + s
  }

  /** JavaScript's < on strings. */
  predicate LexLess(a: string, b: string) {
    b != "" && (a == "" || (if a[0] != b[0] then a[0] < b[0] else LexLess(a[1..], b[1..])))
  }

  // ----- lemmas -------------------------------------------------------------------------------

  lemma {:induction false} Pow10Add(a: nat, b: nat)
    ensures Pow10(a + b) == Pow10(a) * Pow10(b)
  {
    if a > 0 {
      Pow10Add(a - 1, b);
      Associate(10, Pow10(a - 1), Pow10(b));
    }
  }

  lemma ShiftDigit(a: nat, p: nat, v: nat, d: nat)
    ensures 10 * (a * p + v) + d == a * (10 * p) + (10 * v + d)
  {
    Associate(a, 10, p);
    Associate(10, a, p);
  }

  lemma {:induction false} ValueConcat(a: string, b: string)
    requires AllDigits(a) && AllDigits(b)
    ensures AllDigits(a + b) && Value(a + b) == Value(a) * Pow10(|b|) + Value(b)
    decreases |b|
  {
    if b == "" {
      assert a + b == a;
    } else {
      var n := |b| - 1;
      var b' := b[..n];
      ValueConcat(a, b');
      assert (a + b)[..|a + b| - 1] == a + b';
      assert (a + b)[|a + b| - 1] == b[n];
      ShiftDigit(Value(a), Pow10(n), Value(b'), DigitValue(b[n]));
    }
  }

  lemma {:induction false} ValueBound(s: string)
    requires AllDigits(s)
    ensures Value(s) < Pow10(|s|)
    decreases |s|
  {
    if s != "" { ValueBound(s[..|s| - 1]); }
  }

  lemma {:induction false} ValueZeros(n: nat)
    ensures Value(Zeros(n)) == 0
  {
    if n > 0 {
      assert Zeros(n)[..n - 1] == Zeros(n - 1);
      ValueZeros(n - 1);
    }
  }

  /** Printing and reading an integer are inverse. */
  lemma {:induction false} ValueOfShow(n: nat)
    ensures Value(Show(n)) == n
  {
    if n < 10 {
      assert [Digit(n)][..0] == "";
    } else {
      ValueOfShow(n / 10);
      assert Show(n)[..|Show(n)| - 1] == Show(n / 10);
    }
  }

  lemma ValueOfPadStart(s: string, width: nat)
    requires AllDigits(s)
    ensures AllDigits(PadStart(s, width)) && Value(PadStart(s, width)) == Value(s)
    ensures |PadStart(s, width)| == if |s| >= width then |s| else width
  {
    if |s| < width {
      ValueConcat(Zeros(width - |s|), s);
      ValueZeros(width - |s|);
    }
  }

  /** A number below 10^w prints in at most w digits (one digit at least). */
  lemma {:induction false} ShowWidth(n: nat, w: nat)
    requires w >= 1 && n < Pow10(w)
    ensures |Show(n)| <= w
  {
    if n >= 10 {
      assert w >= 2;
      ShowWidth(n / 10, w - 1);
    }
  }

  /** A power of ten prints as a one followed by its exponent's worth of zeros. */
  lemma {:induction false} ShowPow10(e: nat)
    ensures |Show(Pow10(e))| == e + 1
  {
    if e > 0 {
      assert Pow10(e) / 10 == Pow10(e - 1) && Pow10(e) >= 10;
      ShowPow10(e - 1);
    }
  }

  lemma ValueHeadTail(s: string)
    requires AllDigits(s) && s != ""
    ensures AllDigits(s[1..]) && Value(s) == DigitValue(s[0]) * Pow10(|s| - 1) + Value(s[1..])
  {
    var head, tail := [s[0]], s[1..];
    assert s == head + tail;
    assert Value(head) == DigitValue(s[0]) by { assert head[..0] == ""; }
    hide Value, Pow10;
    ValueConcat(head, tail);
  }

  lemma LeadingDigitDecides(x: nat, y: nat, u: nat, v: nat, p: nat)
    requires x < y && u < p && v < p
    ensures x * p + u < y * p + v
  {
    MulMonotone(x + 1, y, p);
    Distribute(x, 1, p);
  }

  /** On digit strings of one length, character order is numeric order. */
  lemma {:induction false} LexIsNumeric(a: string, b: string)
    requires AllDigits(a) && AllDigits(b) && |a| == |b|
    ensures LexLess(a, b) <==> Value(a) < Value(b)
    decreases |a|
  {
    if a != "" {
      var p := Pow10(|a| - 1);
      ValueHeadTail(a);
      ValueHeadTail(b);
      var x, y, u, v := DigitValue(a[0]), DigitValue(b[0]), Value(a[1..]), Value(b[1..]);
      assert u < p && v < p by {
        ValueBound(a[1..]);
        ValueBound(b[1..]);
      }
      LexIsNumeric(a[1..], b[1..]);
      assert a[0] < b[0] <==> x < y;
      assert a[0] == b[0] <==> x == y;
      LexUnfold(a, b);
      if x < y {
        LeadingDigitDecides(x, y, u, v, p);
      } else if y < x {
        LeadingDigitDecides(y, x, v, u, p);
      }
    }
  }

  lemma LexUnfold(a: string, b: string)
    requires a != "" && b != ""
    ensures LexLess(a, b) <==> a[0] < b[0] || (a[0] == b[0] && LexLess(a[1..], b[1..]))
  {
  }
}
