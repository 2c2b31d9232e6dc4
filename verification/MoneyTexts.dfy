/**
 Texts that only one of the two converters takes, or that both take and read differently.
 */
module MoneyTexts {
  import opened Arithmetic
  import opened Digits
  import opened MoneyConvert
  import opened MoneyMalformed
  import opened MoneyAgreement

  // ----- what Decimal(str) reads ----------------------------------------------------------------

  /** Nothing, or e and an integer. */
  predicate IsExponent(x: string) {
    x == "" || ((x[0] == 'e' || x[0] == 'E') && Unsign(x[1..]) != "" && AllDigits(Unsign(x[1..])))
  }

  function WithoutUnderscores(s: string): string {
    if s == "" then "" else (if s[0] == '_' then "" else [s[0]]) + WithoutUnderscores(s[1..])
  }

  /** amount is, blanks and underscores aside, a decimal number with perhaps an exponent. */
  ghost predicate PythonReads(amount: string) {
    exists d: Numeral, x: string :: WellFormed(d) && IsExponent(x) && WithoutUnderscores(Trim(amount)) == Text(d) + x
  }

  /** No underscore, and no e. */
  predicate Unmarked(s: string) { forall i | 0 <= i < |s| :: s[i] != '_' && s[i] != 'e' && s[i] != 'E' }

  lemma {:induction false} NothingRemoved(s: string)
    requires forall i | 0 <= i < |s| :: s[i] != '_'
    ensures WithoutUnderscores(s) == s
    decreases |s|
  {
    if s != "" { NothingRemoved(s[1..]); }
  }

  /** Without underscores and exponents Python reads exactly the decimal numbers. */
  lemma ReadsPlain(amount: string)
    requires Unmarked(Trim(amount))
    ensures PythonReads(amount) <==> IsDecimal(amount)
  {
    hide Trim, WellFormed, Text, WithoutUnderscores;
    var t := Trim(amount);
    NothingRemoved(t);
    if PythonReads(amount) {
      var d: Numeral, x: string :| WellFormed(d) && IsExponent(x) && WithoutUnderscores(t) == Text(d) + x;
      if x != "" { MarkInside(Text(d), x); }
      assert t == Text(d) + "" == Text(d);
    }
    if IsDecimal(amount) {
      var d: Numeral :| WellFormed(d) && t == Text(d);
      assert t == Text(d) + "" && IsExponent("");
    }
  }

  lemma MarkInside(w: string, x: string)
    requires x != "" && IsExponent(x)
    ensures !Unmarked(w + x)
  {
    assert (w + x)[|w|] == x[0];
  }

  /**
   On such texts the TypeScript converter takes all that Python reads; and what it takes beyond that are
   exactly the texts that get through although they are no decimal numbers.
   */
  lemma OneSidedExactly(amount: string, e: nat)
    requires Unmarked(Trim(amount))
    ensures PythonReads(amount) ==> DecimalToMinorUnits(amount, Pow10(e)).Ok?
    ensures
      var t, ts := Trim(amount), DecimalToMinorUnits(amount, Pow10(e)).Ok?;
      ts && !PythonReads(amount) <==>
      !NothingToConvert(t) && Taken(Unsign(t), e) && !DecimalParts(Unsign(t))
  {
    hide DecimalToMinorUnits, Trim, PythonReads, Text, WellFormed, Taken, DecimalParts;
    ReadsPlain(amount);
    GetsThroughExactly(amount, e);
    if IsDecimal(amount) {
      var d: Numeral :| WellFormed(d) && Trim(amount) == Text(d);
      var ts := Converts(amount, d, e);
    }
  }

  // ----- families -------------------------------------------------------------------------------

  /** A second sign: converted by one, refused by the other. */
  lemma SecondSignRefused(first: char, second: char, digits: string)
    requires IsSign(first) && IsSign(second) && AllDigits(digits) && digits != ""
    ensures !PythonReads([first, second] + digits)
  {
    hide IsDecimal, Trim, PythonReads, DecimalToMinorUnits;
    var t := [first, second] + digits;
    SecondSignAccepted(first, second, digits, 1);
    assert t[|t| - 1] == digits[|digits| - 1] && IsDigit(digits[|digits| - 1]);
    PlainIsTrimmed(t);
    ReadsPlain(t);
  }

  /** A literal in base 16, 8 or 2: the same. */
  lemma LiteralRefused(t: string)
    requires IsLiteral(t)
    ensures !PythonReads(t)
  {
    LiteralChars(t);
    PlainIsTrimmed(t);
    NoUnderscoreInLiteral(t);
    NothingRemoved(t);
    hide Trim, WithoutUnderscores, WellFormed, Text;
    if PythonReads(t) {
      var d: Numeral, x: string :| WellFormed(d) && IsExponent(x) && WithoutUnderscores(t) == Text(d) + x;
      LetterNotInside(d, x);
    }
  }

  lemma NoUnderscoreInLiteral(t: string)
    requires IsLiteral(t)
    ensures forall i | 0 <= i < |t| :: t[i] != '_'
  {
    assert forall i | 2 <= i < |t| :: t[i] == t[2..][i - 2];
  }

  /** The second character of what Python reads is no x, o or b. */
  lemma LetterNotInside(d: Numeral, x: string)
    requires WellFormed(d) && IsExponent(x)
    ensures |Text(d) + x| > 1 ==> (Text(d) + x)[1] !in "xXoObB"
  {
    hide Text, WellFormed;
    var t, n := Text(d) + x, |Text(d)|;
    TextIsNotEmpty(d);
    if |t| > 1 {
      if n > 1 { OnlyDigitsAndADot(d, 1); } else { assert t[1] == x[0]; }
    }
  }

  lemma TextIsNotEmpty(d: Numeral)
    requires WellFormed(d)
    ensures Text(d) != ""
  {
    UnsignedText(d);
  }

  /** Product and result keep to 28 digits. */
  predicate ExponentInContext(whole: string, low: string, x: nat)
    requires AllDigits(whole + low)
  {
    Value(whole + low) * Pow10(|low|) < CONTEXT_LIMIT && Value(whole + low) * Pow10(x) < CONTEXT_LIMIT
  }

  /** What Python makes of whole.low with the exponent x, for a currency of as many decimals as low has. */
  function PythonExponent(whole: string, low: string, x: nat): int
    requires AllDigits(whole + low) && ExponentInContext(whole, low, x)
  {
    Quantize(Times(Decimal(false, Value(whole + low), x - |low|), Pow10(|low|)))
  }

  /**
   An exponent behind the counted digits: both converters take it, one as junk that rounds up, the other as
   a power of ten, and they never agree.
   */
  lemma ExponentNeverAgrees(whole: string, low: string, digits: string)
    requires AllDigits(whole) && whole != "" && AllDigits(low) && AllDigits(digits) && digits != ""
    requires ExponentInContext(whole, low, Value(digits))
    ensures
      var amount, v := whole + "." + (low + ("e" + digits)), Value(whole + low);
      && PythonReads(amount)
      && DecimalToMinorUnits(amount, Pow10(|low|)) == Ok(v + 1)
      && PythonExponent(whole, low, Value(digits)) == v * Pow10(Value(digits)) != v + 1
  {
    hide DecimalToMinorUnits, PythonReads, PythonExponent, RoundRemainder, Value;
    var junk := "e" + digits;
    assert junk[|junk| - 1] == digits[|digits| - 1] && IsDigit(digits[|digits| - 1]);
    JunkBehindSubunit(whole, low, junk);
    LetterRoundsUp(Value(low), junk);
    ValueConcat(whole, low);
    ReadsExponent(whole, low, digits);
    PythonScales(whole, low, Value(digits));
    NeverOneMore(Value(whole + low), Value(digits));
  }

  lemma LetterRoundsUp(v: int, junk: string)
    requires junk != "" && junk[0] == 'e'
    ensures RoundRemainder(v, junk)
  {
    assert ("5" + Zeros(|junk| - 1))[0] == '5';
  }

  lemma ReadsExponent(whole: string, low: string, digits: string)
    requires AllDigits(whole) && whole != "" && AllDigits(low) && AllDigits(digits) && digits != ""
    ensures PythonReads(whole + "." + (low + ("e" + digits)))
  {
    hide Trim, WithoutUnderscores;
    var t, d, x := whole + "." + (low + ("e" + digits)), Numeral(Unsigned, whole, true, low), "e" + digits;
    assert t == Text(d) + x && t[0] == whole[0] && t[|t| - 1] == digits[|digits| - 1];
    assert IsDigit(whole[0]) && IsDigit(digits[|digits| - 1]) && x[1..] == digits && IsDigit(digits[0]);
    PlainIsTrimmed(t);
    NothingRemoved(t);
    assert Unsign(digits) == digits && IsExponent(x) && WellFormed(d);
    assert WithoutUnderscores(Trim(t)) == Text(d) + x;
  }

  lemma PythonScales(whole: string, low: string, x: nat)
    requires AllDigits(whole) && AllDigits(low) && ExponentInContext(whole, low, x)
    ensures PythonExponent(whole, low, x) == Value(whole + low) * Pow10(x)
  {
    hide Value, Pow10;
    var v, n := Value(whole + low), |low|;
    if x > n {
      Pow10Add(n, x - n);
      Associate(v, Pow10(n), Pow10(x - n));
    } else {
      Pow10Add(x, n - x);
      Associate(v, Pow10(x), Pow10(n - x));
      WholeUnits(v * Pow10(x), Pow10(n - x));
    }
  }

  lemma WholeUnits(k: nat, unit: nat)
    requires unit > 0
    ensures RoundDown(k * unit, unit) == k
  {
    var q, r := (k * unit) / unit, (k * unit) % unit;
    assert k * unit == q * unit + r;
    if q < k {
      MulMonotone(q + 1, k, unit);
      Distribute(q, 1, unit);
    } else if q > k {
      MulMonotone(k + 1, q, unit);
      Distribute(k, 1, unit);
    }
  }

  lemma NeverOneMore(v: nat, x: nat)
    ensures v * Pow10(x) != v + 1
  {
    if x > 0 {
      assert Pow10(x) == 10 * Pow10(x - 1);
      MulMonotone(1, Pow10(x - 1), 10 * v);
      assert v * Pow10(x) == (10 * v) * Pow10(x - 1) by { Associate(v, 10, Pow10(x - 1)); }
    }
  }
}
