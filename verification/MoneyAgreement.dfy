/**
 The Python converter as Decimal arithmetic, when the two converters agree, and what follows for
 the TypeScript one: order, oddness, indifference to trailing zeros.
 */
module MoneyAgreement {
  import opened Arithmetic
  import opened Digits
  import opened Rounding
  import opened MoneyConvert

  // ----- pylibs/brain_metrics/brain_metrics/convert.py ------------------------------------------

  /** A finite decimal.Decimal: (-1)^negative * coefficient * 10^exponent. */
  datatype Decimal = Decimal(negative: bool, coefficient: nat, exponent: int)

  /** The default context keeps 28 significant digits. */
  const CONTEXT_LIMIT: nat := 10_000_000_000_000_000_000_000_000_000

  lemma ContextIs28Digits()
    ensures CONTEXT_LIMIT == Pow10(28)
  {
    assert Pow10(4) == 10_000;
    Pow10Add(4, 3);
    Pow10Add(7, 7);
    Pow10Add(14, 14);
  }

  function ParseDecimal(d: Numeral): Decimal
    requires WellFormed(d)
  {
    Decimal(d.sign.Minus?, Value(d.whole + d.frac), -(|d.frac| as int))
  }

  /** The product is exact as long as its coefficient fits into the context's precision. */
  function Times(x: Decimal, multiplier: nat): Decimal
    requires x.coefficient * multiplier < CONTEXT_LIMIT
  {
    Decimal(x.negative, x.coefficient * multiplier, x.exponent)
  }

  /** Dropping the digits below a unit, ROUND_HALF_EVEN. */
  function RoundDown(coefficient: nat, unit: nat): nat
    requires unit > 0
  {
    var kept, dropped := coefficient / unit, coefficient % unit;
    if 2 * dropped > unit || (2 * dropped == unit && kept % 2 == 1) then kept + 1 else kept
  }

  /** quantize(Decimal("1"), ROUND_HALF_EVEN), read back with int(). */
  function Quantize(x: Decimal): int {
    var magnitude: int :=
      if x.exponent > 0 then x.coefficient * Pow10(x.exponent)
      else RoundDown(x.coefficient, Pow10(-x.exponent));
    if x.negative then -magnitude else magnitude
  }

  predicate InContext(d: Numeral, multiplier: nat)
    requires WellFormed(d)
  {
    Value(d.whole + d.frac) * multiplier < CONTEXT_LIMIT
  }

  function PythonToMinorUnits(d: Numeral, multiplier: nat): int
    requires WellFormed(d) && InContext(d, multiplier)
  {
    Quantize(Times(ParseDecimal(d), multiplier))
  }

  lemma RoundDownRounds(n: nat, p: nat)
    requires p > 0
    ensures IsHalfEven(n, p, RoundDown(n, p))
  {
    var q, r := n / p, n % p;
    assert n == q * p + r;
    RoundQuotient(q, r, p, RoundDown(n, p) == q + 1);
  }

  /** Python rounds the exact product half to even, whatever the multiplier. */
  lemma PythonIsHalfEven(d: Numeral, multiplier: nat)
    requires WellFormed(d) && InContext(d, multiplier)
    ensures IsHalfEven(Num(d) * multiplier, Den(d), PythonToMinorUnits(d, multiplier))
  {
    hide IsHalfEven, RoundDown, Value;
    var n := Value(d.whole + d.frac) * multiplier;
    RoundDownRounds(n, Den(d));
    Negate(n, Den(d), RoundDown(n, Den(d)));
    assert Num(d) * multiplier == if d.sign.Minus? then -n else n by {
      Distribute(0, 0 - Value(d.whole + d.frac), multiplier);
    }
  }

  // ----- agreement ------------------------------------------------------------------------------

  /** The part after the point is exactly one half. */
  predicate ExactHalf(d: Numeral)
    requires WellFormed(d)
  {
    2 * Value(d.frac) == Pow10(|d.frac|)
  }

  lemma RatioLeRefl(n: int, d: int)
    ensures RatioLe(n, d, n, d)
  {
  }

  /** Off the ties both rounding modes give the same integer. */
  lemma ModesAgreeOffTies(num: int, den: int, even: int, down: int)
    requires IsHalfEven(num, den, even) && IsHalfDown(num, den, down) && !Tie(num, den, down)
    ensures even == down
  {
    RatioLeRefl(num, den);
    HalfEvenUnique(num, den, even, num, den, down);
  }

  /** On a tie between q and q + 1 the modes agree exactly when q is even. */
  lemma ModesOnTie(q: nat, r: nat, p: nat, even: int, down: int)
    requires 2 * r == p && p > 0
    requires IsHalfEven(q * p + r, p, even) && IsHalfDown(q * p + r, p, down)
    ensures down == q && even == if q % 2 == 0 then q else q + 1
  {
    var num := q * p + r;
    RatioLeRefl(num, p);
    MulMonotone(0, q, p);
    RoundQuotient(q, r, p, false);
    HalfDownUnique(num, p, q, num, p, down);
    RoundQuotient(q, r, p, q % 2 == 1);
    HalfEvenUnique(num, p, if q % 2 == 0 then q else q + 1, num, p, even);
  }

  /**
   For a numeral whose scaled coefficient fits into 28 digits and a multiplier 10^e, the two
   converters disagree on exactly one family: no subunit decimals, a fraction of exactly one half,
   an odd whole part.
   */
  lemma AgreeIff(amount: string, d: Numeral, e: nat)
    requires WellFormed(d) && Trim(amount) == Text(d) && InContext(d, Pow10(e))
    ensures
      DecimalToMinorUnits(amount, Pow10(e)) == Ok(PythonToMinorUnits(d, Pow10(e)))
      <==> !(e == 0 && ExactHalf(d) && Value(d.whole) % 2 == 1)
  {
    hide DecimalToMinorUnits, PythonToMinorUnits, IsHalfEven, IsHalfDown, RatioLe, Value, Num, ExactHalf;
    var ts := Converts(amount, d, e);
    var py := PythonToMinorUnits(d, Pow10(e));
    PythonIsHalfEven(d, Pow10(e));
    var num := Num(d) * Pow10(e);
    RatioLeRefl(num, Den(d));
    if e >= 1 {
      HalfEvenUnique(num, Den(d), ts, num, Den(d), py);
    } else {
      assert num == Num(d);
      AgreeOnUnits(d, ts, py);
    }
  }

  lemma AgreeOnUnits(d: Numeral, ts: int, py: int)
    requires WellFormed(d) && IsHalfDown(Num(d), Den(d), ts) && IsHalfEven(Num(d), Den(d), py)
    ensures ts == py <==> !(ExactHalf(d) && Value(d.whole) % 2 == 1)
  {
    hide IsHalfEven, IsHalfDown, Value;
    var q, r, p := Value(d.whole), Value(d.frac), Den(d);
    ValueConcat(d.whole, d.frac);
    ValueBound(d.frac);
    if d.sign.Minus? {
      Negate(Num(d), p, ts);
      Negate(Num(d), p, py);
      AgreeOnQuotient(q, r, p, -ts, -py);
    } else {
      AgreeOnQuotient(q, r, p, ts, py);
    }
  }

  lemma AgreeOnQuotient(q: nat, r: nat, p: nat, ts: int, py: int)
    requires r < p && IsHalfDown(q * p + r, p, ts) && IsHalfEven(q * p + r, p, py)
    ensures ts == py <==> !(2 * r == p && q % 2 == 1)
  {
    if 2 * r == p {
      ModesOnTie(q, r, p, py, ts);
    } else {
      NoTie(q, r, p, ts);
      ModesAgreeOffTies(q * p + r, p, py, ts);
    }
  }

  lemma NoTie(q: nat, r: nat, p: nat, m: int)
    requires r < p && 2 * r != p && Nearest(q * p + r, p, m)
    ensures !Tie(q * p + r, p, m)
  {
    RoundQuotient(q, r, p, 2 * r > p);
    var best := if 2 * r > p then q + 1 else q;
    var n := q * p + r;
    assert !Tie(n, p, best);
    if m > best {
      NearestOrder(n, p, m, n, p, best);
    } else if m < best {
      NearestOrder(n, p, best, n, p, m);
    }
  }

  /** The disagreement is real: "1.5" in a currency without subunits is 1 in TypeScript, 2 in Python. */
  lemma DisagreeOnYen() returns (d: Numeral)
    ensures WellFormed(d) && Text(d) == "1.5" && InContext(d, 1)
    ensures DecimalToMinorUnits("1.5", 1) == Ok(1) && PythonToMinorUnits(d, 1) == 2
  {
    hide DecimalToMinorUnits, PythonToMinorUnits, IsHalfEven, IsHalfDown, Trim;
    d := Numeral(Unsigned, "1", true, "5");
    assert Text(d) == "1.5";
    TextIsTrimmed(d);
    assert Value("15") == 15 && "1" + "5" == "15" by { assert "15"[..1] == "1" && "1"[..0] == ""; }
    assert Num(d) == 15 && Den(d) == 10;
    var ts := Converts("1.5", d, 0);
    PythonIsHalfEven(d, 1);
    ModesOnTie(1, 5, 10, PythonToMinorUnits(d, 1), ts);
  }

  // ----- consequences for the TypeScript converter -----------------------------------------------

  /** The result is within half a minor unit of the exact amount, for every multiplier 10^e. */
  lemma WithinHalfUnit(amount: string, d: Numeral, e: nat)
    requires WellFormed(d) && Trim(amount) == Text(d)
    ensures DecimalToMinorUnits(amount, Pow10(e)).Ok?
    ensures Nearest(Num(d) * Pow10(e), Den(d), DecimalToMinorUnits(amount, Pow10(e)).value)
  {
    var minor := Converts(amount, d, e);
  }

  /** A larger amount never converts to fewer minor units. */
  lemma Monotone(a1: string, d1: Numeral, a2: string, d2: Numeral, e: nat)
    requires WellFormed(d1) && Trim(a1) == Text(d1) && WellFormed(d2) && Trim(a2) == Text(d2)
    requires RatioLe(Num(d1), Den(d1), Num(d2), Den(d2))
    ensures DecimalToMinorUnits(a1, Pow10(e)).Ok? && DecimalToMinorUnits(a2, Pow10(e)).Ok?
    ensures DecimalToMinorUnits(a1, Pow10(e)).value <= DecimalToMinorUnits(a2, Pow10(e)).value
  {
    var m1 := Converts(a1, d1, e);
    var m2 := Converts(a2, d2, e);
    var p := Pow10(e);
    assert RatioLe(Num(d1) * p, Den(d1), Num(d2) * p, Den(d2)) by { RatioScale(Num(d1), Den(d1), Num(d2), Den(d2), p); }
    if e == 0 {
      HalfDownMonotone(Num(d1) * p, Den(d1), m1, Num(d2) * p, Den(d2), m2);
    } else {
      HalfEvenMonotone(Num(d1) * p, Den(d1), m1, Num(d2) * p, Den(d2), m2);
    }
  }

  lemma RatioScale(n1: int, d1: int, n2: int, d2: int, p: int)
    requires RatioLe(n1, d1, n2, d2) && p > 0
    ensures RatioLe(n1 * p, d1, n2 * p, d2)
  {
    ScaleCompare(n1 * d2, n2 * d1, p);
    assert n1 * p * d2 == n1 * d2 * p by { Associate(n1, p, d2); Associate(n1, d2, p); }
    assert n2 * p * d1 == n2 * d1 * p by { Associate(n2, p, d1); Associate(n2, d1, p); }
  }

  /** Changing the sign changes only the sign. */
  lemma OddUnderNegation(d: Numeral, e: nat)
    requires WellFormed(d)
    ensures DecimalToMinorUnits(Text(d), Pow10(e)).Ok? && DecimalToMinorUnits(Text(Negated(d)), Pow10(e)).Ok?
    ensures DecimalToMinorUnits(Text(Negated(d)), Pow10(e)).value == -DecimalToMinorUnits(Text(d), Pow10(e)).value
  {
    hide ConvertMagnitude, DecimalToMinorUnits;
    TextIsTrimmed(d);
    TextIsTrimmed(Negated(d));
    var minor := Converts(Text(d), d, e);
    ConvertsSigned(Text(d), d, Pow10(e));
    ConvertsSigned(Text(Negated(d)), Negated(d), Pow10(e));
  }

  /** Zeros after the last decimal change nothing. */
  lemma TrailingZeros(d: Numeral, n: nat, e: nat)
    requires WellFormed(d)
    ensures
      var longer := d.(dot := true, frac := d.frac + Zeros(n));
      DecimalToMinorUnits(Text(longer), Pow10(e)) == DecimalToMinorUnits(Text(d), Pow10(e))
  {
    hide DecimalToMinorUnits, IsHalfEven, IsHalfDown, Num, Den, Text;
    var longer := d.(dot := true, frac := d.frac + Zeros(n));
    TextIsTrimmed(d);
    TextIsTrimmed(longer);
    var m1 := Converts(Text(d), d, e);
    var m2 := Converts(Text(longer), longer, e);
    var p, f := Pow10(e), Pow10(n);
    LongerDenotes(d, n);
    assert Num(longer) * p == (Num(d) * p) * f by { Associate(Num(d), f, p); Associate(Num(d), p, f); }
    Rescale(Num(d) * p, Den(d), f, m1);
    var num, den := (Num(d) * p) * f, Den(d) * f;
    RatioLeRefl(num, den);
    if e == 0 {
      HalfDownUnique(num, den, m1, num, den, m2);
    } else {
      HalfEvenUnique(num, den, m1, num, den, m2);
    }
  }

  lemma LongerDenotes(d: Numeral, n: nat)
    requires WellFormed(d)
    ensures
      var longer := d.(dot := true, frac := d.frac + Zeros(n));
      WellFormed(longer) && Num(longer) == Num(d) * Pow10(n) && Den(longer) == Den(d) * Pow10(n)
  {
    hide Value, Pow10;
    assert d.whole + (d.frac + Zeros(n)) == (d.whole + d.frac) + Zeros(n);
    ValueConcat(d.whole + d.frac, Zeros(n));
    ValueZeros(n);
    Pow10Add(|d.frac|, n);
    var v := Value(d.whole + d.frac);
    assert (0 - v) * Pow10(n) == 0 - v * Pow10(n);
  }
}
