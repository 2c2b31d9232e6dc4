/**
 Decimal strings to integer minor units: the TypeScript converter, which slices strings and
 compares characters, and the Python one, which quantizes an exact Decimal.
 */
module MoneyConvert {
  import opened Arithmetic
  import opened Digits
  import opened Rounding

  datatype Error = RangeError | SyntaxError

  datatype Result<+T> = Ok(value: T) | Err(error: Error) {
    predicate IsFailure() { Err? }
    function PropagateFailure<U>(): Result<U>
      requires Err?
    {
      Err(error)
    }
    function Extract(): T
      requires Ok?
    {
      value
    }
  }

  // ----- the JavaScript string operations in use ------------------------------------------------

  predicate IsSpace(c: char) {
    || c == ' ' || '\t' <= c <= '\r' || c == '\U{A0}' || c == '\U{1680}' || '\U{2000}' <= c <= '\U{200A}'
    || c == '\U{2028}' || c == '\U{2029}' || c == '\U{202F}' || c == '\U{205F}' || c == '\U{3000}' || c == '\U{FEFF}'
  }

  function TrimStart(s: string): string {
    if s != "" && IsSpace(s[0]) then TrimStart(s[1..]) else s
  }

  function TrimEnd(s: string): string {
    if s != "" && IsSpace(s[|s| - 1]) then TrimEnd(s[..|s| - 1]) else s
  }

  function Trim(s: string): string { TrimEnd(TrimStart(s)) }

  function IndexOf(s: string, c: char): int
    ensures -1 <= IndexOf(s, c) < |s|
  {
    if s == "" then -1
    else if s[0] == c then 0
    else if IndexOf(s[1..], c) == -1 then -1
    else 1 + IndexOf(s[1..], c)
  }

  function Take(s: string, n: nat): string { if |s| <= n then s else s[..n] }

  function Drop(s: string, n: nat): string { if |s| <= n then "" else s[n..] }

  function PadEnd(s: string, width: nat): string {
    if |s| >= width then s else s + Zeros(width - |s|)
  }

  /** The base a literal names, 0x, 0o or 0b; 0 for none. */
  function Base(t: string): nat {
    if |t| < 2 || t[0] != '0' then 0
    else if t[1] == 'x' || t[1] == 'X' then 16
    else if t[1] == 'o' || t[1] == 'O' then 8
    else if t[1] == 'b' || t[1] == 'B' then 2
    else 0
  }

  /** The value of a digit or letter; 16 for any other character. */
  function DigitIn(c: char): nat {
    if IsDigit(c) then DigitValue(c)
    else if 'a' <= c <= 'f' then 10 + (c as int - 'a' as int)
    else if 'A' <= c <= 'F' then 10 + (c as int - 'A' as int)
    else 16
  }

  predicate AllDigitsIn(base: nat, s: string) { forall i | 0 <= i < |s| :: DigitIn(s[i]) < base }

  function ValueIn(base: nat, s: string): nat {
    if s == "" then 0 else base * ValueIn(base, s[..|s| - 1]) + DigitIn(s[|s| - 1])
  }

  /**
   BigInt(s): blank is zero; behind 0x, 0o or 0b come digits of that base, without a sign; otherwise
   one sign is allowed and anything else must be digits.
   */
  function ParseBigInt(s: string): Result<int> {
    var t := Trim(s);
    if t == "" then Ok(0)
    else if Base(t) > 0 then
      if |t| > 2 && AllDigitsIn(Base(t), t[2..]) then Ok(ValueIn(Base(t), t[2..])) else Err(SyntaxError)
    else
      var digits := if t[0] == '-' || t[0] == '+' then t[1..] else t;
      if digits == "" || !AllDigits(digits) then Err(SyntaxError)
      else if t[0] == '-' then Ok(0 - Value(digits))
      else Ok(Value(digits))
  }

  // ----- packages/lib-metrics/src/convert.ts ----------------------------------------------------

  function RoundRemainder(mu: int, remainder: string): bool {
    if remainder == "" then false
    else
      var half := "5" + Zeros(|remainder| - 1);
      if LexLess(half, remainder) then true
      else if LexLess(remainder, half) then false
      else mu > 0 && mu % 2 == 1  // BigInt's remainder of a negative odd number is -1
  }

  function RoundHalfEvenFraction(frac: string, exponent: nat): Result<int> {
    if exponent == 0 then
      if frac == "" then Ok(0)
      else Ok(if RoundRemainder(0, frac) then 1 else 0)
    else
      var mu :- ParseBigInt(PadEnd(Take(frac, exponent), exponent));
      Ok(if RoundRemainder(mu, Drop(frac, exponent)) then mu + 1 else mu)
  }

  function ConvertMagnitude(magnitude: string, multiplier: int): Result<int>
    requires multiplier >= 1
  {
    var dot := IndexOf(magnitude, '.');
    var integerStr := if dot == -1 then magnitude else magnitude[..dot];
    var fracStr := if dot == -1 then "" else magnitude[dot + 1..];
    var exponent := |Show(multiplier)| - 1;
    var whole :- ParseBigInt(if integerStr == "" then "0" else integerStr);
    var fraction :- RoundHalfEvenFraction(fracStr, exponent);
    Ok(whole * multiplier + fraction)
  }

  function DecimalToMinorUnits(amount: string, multiplier: int): Result<int> {
    if multiplier < 1 then Err(RangeError)
    else
      var trimmed := Trim(amount);
      if trimmed == "" || trimmed == "-" || trimmed == "+" then Err(RangeError)
      else
        var negative := trimmed[0] == '-';
        var magnitude := if negative || trimmed[0] == '+' then trimmed[1..] else trimmed;
        var minor :- ConvertMagnitude(magnitude, multiplier);
        Ok(if negative then -minor else minor)
  }

  // ----- decimal strings and what they denote ---------------------------------------------------

  datatype Sign = Unsigned | Plus | Minus

  /** A signed decimal string, taken apart. */
  datatype Numeral = Numeral(sign: Sign, whole: string, dot: bool, frac: string)

  predicate WellFormed(d: Numeral) {
    AllDigits(d.whole) && AllDigits(d.frac) && (!d.dot ==> d.frac == "") && (d.whole != "" || d.frac != "")
  }

  function Magnitude(d: Numeral): string {
    d.whole + (if d.dot then "." + d.frac else "")
  }

  function Text(d: Numeral): string {
    (match d.sign case Unsigned => "" case Plus => "+" case Minus => "-") + Magnitude(d)
  }

  /** The numeral denotes exactly Num(d) / Den(d). */
  function Num(d: Numeral): int
    requires WellFormed(d)
  {
    if d.sign.Minus? then 0 - Value(d.whole + d.frac) else Value(d.whole + d.frac)
  }

  function Den(d: Numeral): nat { Pow10(|d.frac|) }

  function Negated(d: Numeral): Numeral {
    d.(sign := if d.sign.Minus? then Plus else Minus)
  }

  // ----- slicing the string apart ---------------------------------------------------------------

  lemma DigitsAreNotSpaces(s: string)
    requires AllDigits(s)
    ensures Trim(s) == s
  {
    if s != "" { assert IsDigit(s[0]) && IsDigit(s[|s| - 1]); }
  }

  lemma ParseDigits(s: string)
    requires AllDigits(s)
    ensures ParseBigInt(s) == Ok(Value(s))
  {
    DigitsAreNotSpaces(s);
    if s != "" { assert IsDigit(s[0]); }
    if |s| > 1 { assert IsDigit(s[1]); }
  }

  lemma {:induction false} DotIndex(whole: string, rest: string)
    requires AllDigits(whole)
    ensures IndexOf(whole, '.') == -1
    ensures IndexOf(whole + "." + rest, '.') == |whole|
    decreases |whole|
  {
    if whole == "" {
      assert whole + "." + rest == "." + rest;
    } else {
      assert IsDigit(whole[0]);
      assert (whole + "." + rest)[1..] == whole[1..] + "." + rest;
      DotIndex(whole[1..], rest);
    }
  }

  lemma MagnitudeEnds(d: Numeral)
    requires WellFormed(d)
    ensures
      var m := Magnitude(d);
      m != "" && (m[0] == '.' || IsDigit(m[0])) && (m[|m| - 1] == '.' || IsDigit(m[|m| - 1]))
  {
    var m := Magnitude(d);
    if d.whole != "" { assert m[0] == d.whole[0]; }
    if d.frac != "" { assert m[|m| - 1] == d.frac[|d.frac| - 1]; }
    if !d.dot { assert m == d.whole; }
  }

  lemma TextIsTrimmed(d: Numeral)
    requires WellFormed(d)
    ensures Trim(Text(d)) == Text(d)
  {
    var m, t := Magnitude(d), Text(d);
    MagnitudeEnds(d);
    assert t[|t| - 1] == m[|m| - 1];
    assert t[0] == m[0] || t[0] == '+' || t[0] == '-';
  }

  /** The sign comes off the text, and the magnitude behind it is converted. */
  lemma ConvertsSigned(amount: string, d: Numeral, multiplier: int)
    requires WellFormed(d) && Trim(amount) == Text(d) && multiplier >= 1
    ensures
      DecimalToMinorUnits(amount, multiplier) ==
      match ConvertMagnitude(Magnitude(d), multiplier)
      case Err(e) => Err(e)
      case Ok(minor) => Ok(if d.sign.Minus? then -minor else minor)
  {
    hide ConvertMagnitude, Trim;
    var t, m := Text(d), Magnitude(d);
    MagnitudeEnds(d);
    if d.sign.Unsigned? {
      assert t == m;
    } else {
      assert t[1..] == m && |t| >= 2;
    }
  }

  /** The converter sees the whole part and the fraction that the text shows. */
  lemma ConvertsParts(d: Numeral, multiplier: int)
    requires WellFormed(d) && multiplier >= 1
    ensures
      ConvertMagnitude(Magnitude(d), multiplier) ==
      match RoundHalfEvenFraction(d.frac, |Show(multiplier)| - 1)
      case Err(e) => Err(e)
      case Ok(f) => Ok(Value(d.whole) * multiplier + f)
  {
    hide ParseBigInt, RoundHalfEvenFraction;
    var m := Magnitude(d);
    DotIndex(d.whole, d.frac);
    if d.dot {
      assert m == d.whole + "." + d.frac;
      assert m[..|d.whole|] == d.whole && m[|d.whole| + 1..] == d.frac;
    } else {
      assert m == d.whole;
    }
    ParseDigits(d.whole);
    ParseDigits("0");
    assert Value("0") == 0 == Value("") by { assert "0"[..0] == ""; }
  }

  // ----- the rounding decision ------------------------------------------------------------------

  lemma HalfValue(n: nat)
    requires n >= 1
    ensures AllDigits("5" + Zeros(n - 1)) && 2 * Value("5" + Zeros(n - 1)) == Pow10(n)
  {
    ValueConcat("5", Zeros(n - 1));
    ValueZeros(n - 1);
    assert "5"[..0] == "" && Value("5") == 5;
  }

  /** Comparing characters with "500..0" decides which side of one half the remainder is on. */
  lemma RemainderDecision(mu: int, remainder: string)
    requires AllDigits(remainder)
    ensures
      var twice, unit := 2 * Value(remainder), Pow10(|remainder|);
      RoundRemainder(mu, remainder) <==> twice > unit || (twice == unit && mu > 0 && mu % 2 == 1)
  {
    if remainder != "" {
      hide LexLess, Value, Pow10;
      var half := "5" + Zeros(|remainder| - 1);
      HalfValue(|remainder|);
      LexIsNumeric(half, remainder);
      LexIsNumeric(remainder, half);
    } else {
      assert Value("") == 0 && Pow10(0) == 1;
    }
  }

  /** Rounding q + r/p to q or q + 1 by comparing 2r with p. */
  lemma RoundQuotient(q: int, r: int, p: int, up: bool)
    requires 0 <= r < p
    requires 2 * r > p ==> up
    requires 2 * r < p ==> !up
    ensures Nearest(q * p + r, p, if up then q + 1 else q)
    ensures Tie(q * p + r, p, if up then q + 1 else q) <==> 2 * r == p
    ensures TieAbove(q * p + r, p, q) <==> 2 * r == p
  {
    Distribute(q, 1, p);
  }

  /** minor is num / den rounded the way the converter rounds for a subunit of e decimals. */
  ghost predicate Converted(num: int, den: int, e: nat, minor: int) {
    if e == 0 then IsHalfDown(num, den, minor) else IsHalfEven(num, den, minor)
  }

  /** The whole part plus the rounded fraction is the value rounded at the e-th decimal. */
  lemma FractionRounds(whole: string, frac: string, e: nat) returns (f: int)
    requires AllDigits(whole) && AllDigits(frac)
    ensures RoundHalfEvenFraction(frac, e) == Ok(f)
    ensures Converted(Value(whole + frac) * Pow10(e), Pow10(|frac|), e, Value(whole) * Pow10(e) + f)
  {
    hide RoundHalfEvenFraction;
    if |frac| <= e {
      f := ShortFraction(whole, frac, e);
    } else {
      f := LongFraction(whole, frac, e);
    }
  }

  /** A fraction that fits into the subunit is only padded. */
  lemma PadsFraction(frac: string, e: nat)
    requires AllDigits(frac) && |frac| <= e
    ensures RoundHalfEvenFraction(frac, e) == Ok(Value(frac) * Pow10(e - |frac|))
  {
    var pad := Zeros(e - |frac|);
    ValueConcat(frac, pad);
    ValueZeros(e - |frac|);
    ParseDigits(frac + pad);
    if |frac| == e { assert frac + pad == frac; }
    if e == 0 { assert frac == ""; }
  }

  lemma ShortFraction(whole: string, frac: string, e: nat) returns (f: int)
    requires AllDigits(whole) && AllDigits(frac) && |frac| <= e
    ensures RoundHalfEvenFraction(frac, e) == Ok(f)
    ensures Converted(Value(whole + frac) * Pow10(e), Pow10(|frac|), e, Value(whole) * Pow10(e) + f)
  {
    hide RoundHalfEvenFraction;
    PadsFraction(frac, e);
    ValueConcat(whole, frac);
    Pow10Add(e - |frac|, |frac|);
    f := Value(frac) * Pow10(e - |frac|);
    ExactFraction(Value(whole), Value(frac), Pow10(|frac|), Pow10(e - |frac|), Pow10(e));
  }

  lemma ExactFraction(i: int, f: int, pk: int, pd: int, pe: int)
    requires pe == pd * pk && pk > 0
    ensures IsHalfEven((i * pk + f) * pe, pk, i * pe + f * pd)
    ensures IsHalfDown((i * pk + f) * pe, pk, i * pe + f * pd)
  {
    calc {
      (i * pk + f) * pe;
      { Associate(i * pk + f, pd, pk); }
      ((i * pk + f) * pd) * pk;
      { Distribute(i * pk, f, pd); Associate(i, pk, pd); }
      (i * pe + f * pd) * pk;
    }
  }

  /** The kept digits and the decision on the rest. */
  lemma SplitsFraction(frac: string, e: nat)
    requires AllDigits(frac) && |frac| > e
    ensures
      var mu, up := Value(frac[..e]), RoundRemainder(Value(frac[..e]), frac[e..]);
      RoundHalfEvenFraction(frac, e) == Ok(if up then mu + 1 else mu)
  {
    ParseDigits(frac[..e]);
    if e == 0 { assert frac[..e] == "" && frac[e..] == frac; }
  }

  lemma LongFraction(whole: string, frac: string, e: nat) returns (f: int)
    requires AllDigits(whole) && AllDigits(frac) && |frac| > e
    ensures RoundHalfEvenFraction(frac, e) == Ok(f)
    ensures Converted(Value(whole + frac) * Pow10(e), Pow10(|frac|), e, Value(whole) * Pow10(e) + f)
  {
    hide RoundHalfEvenFraction, RoundRemainder, Converted, Value, Pow10;
    var low, rest := frac[..e], frac[e..];
    var mu, r, p, pe := Value(low), Value(rest), Pow10(|rest|), Pow10(e);
    var up := RoundRemainder(mu, rest);
    SplitsFraction(frac, e);
    f := if up then mu + 1 else mu;
    RemainderDecision(mu, rest);
    ValueBound(rest);
    var q := Value(whole) * pe + mu;
    assert Value(whole + frac) == q * p + r by {
      assert whole + frac == (whole + low) + rest;
      SplitValue(whole, low, rest);
    }
    KeptParity(Value(whole), low);
    DecidedQuotient(q, mu, r, p, e, up);
    RescaleConverted(q * p + r, p, e, pe, if up then q + 1 else q);
    Pow10Add(|rest|, e);
  }

  lemma SplitValue(whole: string, low: string, rest: string)
    requires AllDigits(whole) && AllDigits(low) && AllDigits(rest)
    ensures Value((whole + low) + rest) == (Value(whole) * Pow10(|low|) + Value(low)) * Pow10(|rest|) + Value(rest)
  {
    ValueConcat(whole, low);
    ValueConcat(whole + low, rest);
  }

  /** The parity of the low digits is the parity of the whole number. */
  lemma KeptParity(n: nat, low: string)
    requires AllDigits(low)
    ensures
      var q := n * Pow10(|low|) + Value(low);
      q >= 0 && if low == "" then Value(low) == 0 else q % 2 == Value(low) % 2
  {
    MulMonotone(0, n, Pow10(|low|));
    if low != "" { EvenPower(n, |low|); }
  }

  lemma RescaleConverted(num: int, den: int, e: nat, factor: int, minor: int)
    requires Converted(num, den, e, minor) && factor > 0
    ensures Converted(num * factor, den * factor, e, minor)
  {
    Rescale(num, den, factor, minor);
  }

  lemma DecidedQuotient(q: int, mu: int, r: int, p: int, e: nat, up: bool)
    requires 0 <= r < p && q >= 0
    requires up <==> 2 * r > p || (2 * r == p && mu % 2 == 1)
    requires if e == 0 then mu == 0 else q % 2 == mu % 2
    ensures Converted(q * p + r, p, e, if up then q + 1 else q)
  {
    RoundQuotient(q, r, p, up);
    MulMonotone(0, q, p);
  }

  lemma EvenPower(n: int, e: nat)
    requires e >= 1
    ensures (n * Pow10(e)) % 2 == 0
  {
    var h := 5 * Pow10(e - 1);
    assert n * Pow10(e) == 2 * (n * h) by { Associate(n, 2, h); Associate(2, n, h); }
  }

  // ----- main results ---------------------------------------------------------------------------

  /** Every signed decimal string converts, to its exact value rounded at the subunit. */
  lemma Converts(amount: string, d: Numeral, e: nat) returns (minor: int)
    requires WellFormed(d) && Trim(amount) == Text(d)
    ensures DecimalToMinorUnits(amount, Pow10(e)) == Ok(minor)
    ensures Converted(Num(d) * Pow10(e), Den(d), e, minor)
  {
    hide ConvertMagnitude, RoundHalfEvenFraction, DecimalToMinorUnits, Trim;
    ConvertsSigned(amount, d, Pow10(e));
    ConvertsParts(d, Pow10(e));
    ShowPow10(e);
    var f := FractionRounds(d.whole, d.frac, e);
    var m, n := Value(d.whole) * Pow10(e) + f, Value(d.whole + d.frac);
    Negate(n * Pow10(e), Den(d), m);
    assert (-n) * Pow10(e) == -(n * Pow10(e));
    minor := if d.sign.Minus? then -m else m;
  }

  /** With e >= 1 subunit decimals: the exact value times 10^e, rounded half to even. */
  lemma ConvertsHalfEven(amount: string, d: Numeral, e: nat)
    requires WellFormed(d) && Trim(amount) == Text(d) && e >= 1
    ensures DecimalToMinorUnits(amount, Pow10(e)).Ok?
    ensures IsHalfEven(Num(d) * Pow10(e), Den(d), DecimalToMinorUnits(amount, Pow10(e)).value)
  {
    var minor := Converts(amount, d, e);
  }

  /** For the multiplier 1 a tie is not sent to the even neighbour but towards zero. */
  lemma ConvertsHalfDown(amount: string, d: Numeral)
    requires WellFormed(d) && Trim(amount) == Text(d)
    ensures DecimalToMinorUnits(amount, 1).Ok?
    ensures IsHalfDown(Num(d), Den(d), DecimalToMinorUnits(amount, 1).value)
  {
    var minor := Converts(amount, d, 0);
    assert Pow10(0) == 1 && Num(d) * 1 == Num(d);
  }
}
