/**
 Which texts the converter accepts, exactly, and so which it accepts although they are no decimal
 numbers.
 */
module MoneyMalformed {
  import opened Arithmetic
  import opened Digits
  import opened MoneyConvert

  /** amount is, blanks aside, a signed decimal string. */
  ghost predicate IsDecimal(amount: string) {
    exists d: Numeral :: WellFormed(d) && Trim(amount) == Text(d)
  }

  predicate NothingToConvert(t: string) { t == "" || t == "-" || t == "+" }

  /** The text behind a leading sign. */
  function Unsign(t: string): string {
    if t != "" && (t[0] == '-' || t[0] == '+') then t[1..] else t
  }

  /** What stands in front of the first dot, and what behind it. */
  function Whole(m: string): string {
    var dot := IndexOf(m, '.');
    if dot == -1 then m else m[..dot]
  }

  function Fraction(m: string): string {
    var dot := IndexOf(m, '.');
    if dot == -1 then "" else m[dot + 1..]
  }

  /** The digits of the fraction that count, as many as the subunit has decimals. */
  function Counted(f: string, e: nat): string { PadEnd(Take(f, e), e) }

  /** BigInt takes the whole part (an empty one is zero) and, where there is a subunit, the counted digits. */
  predicate Taken(m: string, e: nat) {
    && ParseBigInt(if Whole(m) == "" then "0" else Whole(m)).Ok?
    && (e == 0 || ParseBigInt(Counted(Fraction(m), e)).Ok?)
  }

  /** 0x, 0o or 0b, and digits of that base behind it. */
  predicate IsLiteral(t: string) { Base(t) > 0 && |t| > 2 && AllDigitsIn(Base(t), t[2..]) }

  /** What BigInt takes: blanks, or digits behind at most one sign, or a literal, between blanks. */
  lemma BigIntExactly(s: string)
    ensures ParseBigInt(s).Ok? <==>
      Trim(s) == "" || (Unsign(Trim(s)) != "" && AllDigits(Unsign(Trim(s)))) || IsLiteral(Trim(s))
  {
    var t := Trim(s);
    hide Trim, Value, ValueIn;
    if Base(t) > 0 { assert !IsDigit(t[1]) && Unsign(t)[1] == t[1]; }
  }

  // ----- acceptance -----------------------------------------------------------------------------

  /** Every text is refused with a RangeError, refused with a SyntaxError, or converted. */
  lemma AcceptsExactly(amount: string, multiplier: int)
    requires multiplier >= 1
    ensures
      var t, r := Trim(amount), DecimalToMinorUnits(amount, multiplier);
      && (r == Err(RangeError) <==> NothingToConvert(t))
      && (r.Ok? <==> !NothingToConvert(t) && Taken(Unsign(t), |Show(multiplier)| - 1))
  {
    hide Trim, Taken, Show;
    if !NothingToConvert(Trim(amount)) { TakenExactly(Unsign(Trim(amount)), multiplier); }
  }

  lemma TakenExactly(m: string, multiplier: int)
    requires multiplier >= 1
    ensures ConvertMagnitude(m, multiplier).Ok? <==> Taken(m, |Show(multiplier)| - 1)
    ensures ConvertMagnitude(m, multiplier) != Err(RangeError)
  {
    hide Trim, AllDigits, RoundRemainder, PadEnd, Take, Drop, Show, IndexOf;
  }

  /** For the multiplier 10^e, the e first characters of the fraction count. */
  lemma AcceptsExactlyForPow10(amount: string, e: nat)
    ensures
      var t := Trim(amount);
      DecimalToMinorUnits(amount, Pow10(e)).Ok? <==> !NothingToConvert(t) && Taken(Unsign(t), e)
  {
    ShowPow10(e);
    AcceptsExactly(amount, Pow10(e));
  }

  /** A RangeError means a bad multiplier, or nothing to convert. */
  lemma RangeErrorExactly(amount: string, multiplier: int)
    ensures DecimalToMinorUnits(amount, multiplier) == Err(RangeError) <==>
      multiplier < 1 || NothingToConvert(Trim(amount))
  {
    if multiplier >= 1 { AcceptsExactly(amount, multiplier); }
  }

  // ----- decimal numbers ------------------------------------------------------------------------

  predicate DecimalParts(m: string) {
    AllDigits(Whole(m)) && AllDigits(Fraction(m)) && (Whole(m) != "" || Fraction(m) != "")
  }

  lemma {:induction false} FirstDot(s: string)
    ensures IndexOf(s, '.') >= 0 ==> s[IndexOf(s, '.')] == '.'
    decreases |s|
  {
    if s != "" && s[0] != '.' { FirstDot(s[1..]); }
  }

  lemma MagnitudeParts(d: Numeral)
    requires WellFormed(d)
    ensures Whole(Magnitude(d)) == d.whole && Fraction(Magnitude(d)) == d.frac
  {
    hide AllDigits, IndexOf;
    DotIndex(d.whole, d.frac);
    var m := Magnitude(d);
    if d.dot {
      assert m == d.whole + "." + d.frac;
      assert m[..|d.whole|] == d.whole && m[|d.whole| + 1..] == d.frac;
    } else {
      assert m == d.whole;
    }
  }

  lemma UnsignedText(d: Numeral)
    requires WellFormed(d)
    ensures Unsign(Text(d)) == Magnitude(d) && !NothingToConvert(Text(d))
  {
    var m := Magnitude(d);
    MagnitudeEnds(d);
    match d.sign
    case Unsigned => assert Text(d) == m;
    case Plus => assert Text(d)[1..] == m;
    case Minus => assert Text(d)[1..] == m;
  }

  /** The numeral a text of digits and one dot stands for. */
  lemma NumeralOf(t: string) returns (d: Numeral)
    requires DecimalParts(Unsign(t))
    ensures WellFormed(d) && Text(d) == t
  {
    hide AllDigits, IndexOf;
    var m := Unsign(t);
    FirstDot(m);
    var sign := if t != "" && t[0] == '-' then Minus else if t != "" && t[0] == '+' then Plus else Unsigned;
    d := Numeral(sign, Whole(m), IndexOf(m, '.') != -1, Fraction(m));
    assert Magnitude(d) == m;
    assert sign != Unsigned ==> t == [t[0]] + m;
  }

  /** A text is a decimal number exactly when its parts are digits, not both missing. */
  lemma IsDecimalExactly(amount: string)
    ensures IsDecimal(amount) <==> DecimalParts(Unsign(Trim(amount)))
  {
    hide Trim, WellFormed, Text, DecimalParts, Unsign, Whole, Fraction;
    if DecimalParts(Unsign(Trim(amount))) {
      var d := NumeralOf(Trim(amount));
    }
    if IsDecimal(amount) {
      var d: Numeral :| WellFormed(d) && Trim(amount) == Text(d);
      TextHasDecimalParts(d);
    }
  }

  lemma TextHasDecimalParts(d: Numeral)
    requires WellFormed(d)
    ensures DecimalParts(Unsign(Text(d)))
  {
    hide AllDigits, Whole, Fraction, Text, Unsign, Magnitude;
    UnsignedText(d);
    MagnitudeParts(d);
  }

  /** What gets through although it is no number: taken by BigInt part by part, but not made of digits. */
  lemma GetsThroughExactly(amount: string, e: nat)
    ensures
      var t := Trim(amount);
      DecimalToMinorUnits(amount, Pow10(e)).Ok? && !IsDecimal(amount) <==>
      !NothingToConvert(t) && Taken(Unsign(t), e) && !DecimalParts(Unsign(t))
  {
    hide *;
    AcceptsExactlyForPow10(amount, e);
    IsDecimalExactly(amount);
  }

  // ----- four ways through ---------------------------------------------------------------------

  lemma OnlyDigitsAndADot(d: Numeral, i: nat)
    requires WellFormed(d) && i < |Text(d)|
    ensures var c := Text(d)[i]; IsDigit(c) || c == '.' || (i == 0 && (c == '+' || c == '-'))
  {
  }

  lemma NotDecimal(amount: string, i: nat)
    requires i < |Trim(amount)|
    requires var c := Trim(amount)[i]; !IsDigit(c) && c != '.' && (i > 0 || (c != '+' && c != '-'))
    ensures !IsDecimal(amount)
  {
    hide Trim, WellFormed, Text;
    if IsDecimal(amount) {
      var d: Numeral :| WellFormed(d) && Trim(amount) == Text(d);
      OnlyDigitsAndADot(d, i);
    }
  }

  lemma PlainIsTrimmed(s: string)
    requires s != "" && !IsSpace(s[0]) && !IsSpace(s[|s| - 1])
    ensures Trim(s) == s
  {
  }

  function Applied(sign: char, n: int): int { if sign == '-' then 0 - n else n }

  predicate IsSign(c: char) { c == '-' || c == '+' }

  lemma SignedDigits(sign: char, digits: string)
    requires IsSign(sign) && AllDigits(digits) && digits != ""
    ensures ParseBigInt([sign] + digits) == Ok(Applied(sign, Value(digits)))
  {
    hide Value, Trim;
    var t := [sign] + digits;
    assert t[|t| - 1] == digits[|digits| - 1] && t[1..] == digits;
    assert IsDigit(digits[|digits| - 1]);
    PlainIsTrimmed(t);
  }

  lemma WithoutADot(m: string, v: int, multiplier: int)
    requires m != "" && IndexOf(m, '.') == -1 && ParseBigInt(m) == Ok(v) && multiplier >= 1
    ensures ConvertMagnitude(m, multiplier) == Ok(v * multiplier)
  {
    hide ParseBigInt, IndexOf, Show, RoundHalfEvenFraction;
    EmptyFraction(|Show(multiplier)| - 1);
  }

  lemma SignedMagnitude(sign: char, digits: string, multiplier: int)
    requires IsSign(sign) && AllDigits(digits) && digits != "" && multiplier >= 1
    ensures ConvertMagnitude([sign] + digits, multiplier) == Ok(Applied(sign, Value(digits)) * multiplier)
  {
    hide *;
    SignedDigits(sign, digits);
    DotIndex(digits, "");
    NoDotBehindSign(sign, digits);
    WithoutADot([sign] + digits, Applied(sign, Value(digits)), multiplier);
  }

  lemma NoDotBehindSign(sign: char, digits: string)
    requires IsSign(sign) && IndexOf(digits, '.') == -1
    ensures IndexOf([sign] + digits, '.') == -1
  {
    assert ([sign] + digits)[1..] == digits;
  }

  lemma EmptyFraction(e: nat)
    ensures RoundHalfEvenFraction("", e) == Ok(0)
  {
    hide Trim, Value;
    if e > 0 {
      assert PadEnd(Take("", e), e) == Zeros(e) && Drop("", e) == "";
      ParseDigits(Zeros(e));
      ValueZeros(e);
    }
  }

  /** A second sign is taken by BigInt: the text is no number, and is converted with both signs applied. */
  lemma SecondSignAccepted(first: char, second: char, digits: string, multiplier: int)
    requires IsSign(first) && IsSign(second) && AllDigits(digits) && digits != "" && multiplier >= 1
    ensures !IsDecimal([first, second] + digits)
    ensures DecimalToMinorUnits([first, second] + digits, multiplier) ==
            Ok(Applied(first, Applied(second, Value(digits)) * multiplier))
  {
    hide IsDecimal, Trim, ConvertMagnitude, Value;
    var t := [first, second] + digits;
    assert t[|t| - 1] == digits[|digits| - 1] && IsDigit(digits[|digits| - 1]);
    assert t[1..] == [second] + digits;
    PlainIsTrimmed(t);
    NotDecimal(t, 1);
    SignedMagnitude(second, digits, multiplier);
  }

  /** A literal in base 16, 8 or 2 is taken too. */
  lemma LiteralAccepted(t: string, multiplier: int)
    requires IsLiteral(t) && multiplier >= 1
    ensures !IsDecimal(t) && DecimalToMinorUnits(t, multiplier) == Ok(ValueIn(Base(t), t[2..]) * multiplier)
  {
    LiteralChars(t);
    PlainIsTrimmed(t);
    hide IsDecimal, Trim, ConvertMagnitude, ValueIn, IndexOf;
    NotDecimal(t, 1);
    LiteralHasNoDot(t);
    WithoutADot(t, ValueIn(Base(t), t[2..]), multiplier);
  }

  lemma LiteralChars(t: string)
    requires IsLiteral(t)
    ensures t[0] == '0' && !IsDigit(t[1]) && t[1] != '.' && t[1] != '+' && t[1] != '-'
    ensures forall i | 0 <= i < |t| :: !IsSpace(t[i]) && t[i] != '.'
  {
    forall i | 0 <= i < |t| ensures !IsSpace(t[i]) && t[i] != '.' {
      if i >= 2 { assert t[i] == t[2..][i - 2]; }
    }
  }

  lemma LiteralHasNoDot(t: string)
    requires forall i | 0 <= i < |t| :: t[i] != '.'
    ensures IndexOf(t, '.') == -1
  {
    FirstDot(t);
  }

  lemma SplitAtDot(whole: string, rest: string)
    requires AllDigits(whole)
    ensures
      var m := whole + "." + rest;
      IndexOf(m, '.') == |whole| && m[..|whole|] == whole && m[|whole| + 1..] == rest
  {
    DotIndex(whole, rest);
  }

  lemma ConvertsAroundDot(whole: string, frac: string, e: nat, minor: int)
    requires AllDigits(whole) && whole != "" && RoundHalfEvenFraction(frac, e) == Ok(minor)
    ensures ConvertMagnitude(whole + "." + frac, Pow10(e)) == Ok(Value(whole) * Pow10(e) + minor)
  {
    hide ParseBigInt, Value, IndexOf, RoundHalfEvenFraction, Pow10, Show, AllDigits;
    SplitAtDot(whole, frac);
    ParseDigits(whole);
    ShowPow10(e);
  }

  /** A text with digits in front and no blank at its end is converted as it stands. */
  lemma ConvertsUnsigned(t: string, multiplier: int)
    requires t != "" && IsDigit(t[0]) && !IsSpace(t[|t| - 1]) && multiplier >= 1
    ensures DecimalToMinorUnits(t, multiplier) == ConvertMagnitude(t, multiplier)
  {
    hide Trim, ConvertMagnitude;
    PlainIsTrimmed(t);
  }

  lemma CountsFirst(low: string, junk: string)
    ensures Take(low + junk, |low|) == low && Drop(low + junk, |low|) == junk && PadEnd(low, |low|) == low
  {
  }

  lemma BadFraction(whole: string, frac: string, i: nat)
    requires AllDigits(whole) && whole != "" && i < |frac| && !IsDigit(frac[i]) && !IsSpace(frac[|frac| - 1])
    ensures !IsDecimal(whole + "." + frac)
  {
    hide IsDecimal, Trim;
    var t := whole + "." + frac;
    assert t[0] == whole[0] && t[|t| - 1] == frac[|frac| - 1];
    PlainIsTrimmed(t);
    SplitAtDot(whole, frac);
    IsDecimalExactly(t);
    assert Unsign(t) == t && Fraction(t) == frac;
  }

  /**
   Behind the digits that count, anything goes: it is compared with "500..0" character by character
   and never read.
   */
  lemma JunkBehindSubunit(whole: string, low: string, junk: string)
    requires AllDigits(whole) && whole != "" && AllDigits(low)
    requires junk != "" && !IsDigit(junk[0]) && !IsSpace(junk[|junk| - 1])
    ensures !IsDecimal(whole + "." + (low + junk))
    ensures
      var up := RoundRemainder(Value(low), junk);
      DecimalToMinorUnits(whole + "." + (low + junk), Pow10(|low|)) ==
      Ok(Value(whole) * Pow10(|low|) + Value(low) + if up then 1 else 0)
  {
    hide IsDecimal, Trim, ConvertMagnitude, Value, Pow10, RoundRemainder, ParseBigInt;
    var frac := low + junk;
    var t := whole + "." + frac;
    assert t[0] == whole[0] && t[|t| - 1] == junk[|junk| - 1];
    assert frac[|low|] == junk[0] && frac[|frac| - 1] == junk[|junk| - 1];
    BadFraction(whole, frac, |low|);
    ConvertsUnsigned(t, Pow10(|low|));
    JunkRounds(low, junk);
    ConvertsAroundDot(whole, frac, |low|, Value(low) + if RoundRemainder(Value(low), junk) then 1 else 0);
  }

  lemma JunkRounds(low: string, junk: string)
    requires AllDigits(low) && junk != ""
    ensures RoundHalfEvenFraction(low + junk, |low|) ==
            Ok(Value(low) + if RoundRemainder(Value(low), junk) then 1 else 0)
  {
    hide *;
    if low == "" {
      NoDigits();
      assert low + junk == junk;
      RoundsUncounted(junk);
    } else {
      CountsFirst(low, junk);
      ParseDigits(low);
      RoundsCounted(low + junk, |low|, Value(low));
    }
  }

  lemma RoundsUncounted(junk: string)
    requires junk != ""
    ensures RoundHalfEvenFraction(junk, 0) == Ok(if RoundRemainder(0, junk) then 1 else 0)
  {
    hide RoundRemainder;
  }

  lemma RoundsCounted(frac: string, e: nat, v: int)
    requires e > 0 && ParseBigInt(PadEnd(Take(frac, e), e)) == Ok(v)
    ensures RoundHalfEvenFraction(frac, e) == Ok(v + if RoundRemainder(v, Drop(frac, e)) then 1 else 0)
  {
    hide RoundRemainder, ParseBigInt, PadEnd, Take, Drop;
  }

  lemma NoDigits()
    ensures Value("") == 0
  {
  }

  /** A minus sign behind the dot is taken too: the digits behind it are subtracted. */
  lemma SignInFraction(whole: string, digits: string)
    requires AllDigits(whole) && whole != "" && AllDigits(digits) && digits != ""
    ensures !IsDecimal(whole + "." + ("-" + digits))
    ensures DecimalToMinorUnits(whole + "." + ("-" + digits), Pow10(|digits| + 1)) ==
            Ok(Value(whole) * Pow10(|digits| + 1) - Value(digits))
  {
    hide IsDecimal, Trim, ConvertMagnitude, Value, Pow10, ParseBigInt, RoundHalfEvenFraction;
    var frac := "-" + digits;
    var t := whole + "." + frac;
    assert t[0] == whole[0] && t[|t| - 1] == digits[|digits| - 1] && t[|whole| + 1] == '-';
    assert IsDigit(whole[0]) && IsDigit(digits[|digits| - 1]);
    PlainIsTrimmed(t);
    NotDecimal(t, |whole| + 1);
    ConvertsUnsigned(t, Pow10(|frac|));
    SignedFraction(digits);
    ConvertsAroundDot(whole, frac, |frac|, 0 - Value(digits));
  }

  lemma SignedFraction(digits: string)
    requires AllDigits(digits) && digits != ""
    ensures RoundHalfEvenFraction("-" + digits, |digits| + 1) == Ok(0 - Value(digits))
  {
    hide Value, ParseBigInt;
    SignedDigits('-', digits);
    var frac := "-" + digits;
    assert ['-'] + digits == frac;
    assert Take(frac, |frac|) == frac && Drop(frac, |frac|) == "" && PadEnd(frac, |frac|) == frac;
  }
}
