/**
 The canonical money printer, and the converter as its inverse: what is printed exactly can be read
 back, and what is printed in lakh or crore is a truncation of known size.
 */
module MoneyFormat {
  import opened Arithmetic
  import opened Digits
  import opened Rounding
  import opened MoneyConvert

  // ----- packages/lib-metrics/src/subunits.ts ---------------------------------------------------

  function UpperChar(c: char): char {
    if 'a' <= c <= 'z' then (c as int - 'a' as int + 'A' as int) as char else c
  }

  function Upper(s: string): string {
    seq(|s|, i requires 0 <= i < |s| => UpperChar(s[i]))
  }

  const THREE_DECIMALS: set<string> := {"KWD", "BHD", "OMR", "TND"}
  const NO_DECIMALS: set<string> := {"JPY", "KRW", "VND", "IDR", "HUF", "ISK", "TWD"}

  function SubunitMultiplier(code: string): (m: nat)
    ensures m > 0
  {
    var c := Upper(code);
    if c in THREE_DECIMALS then 1000 else if c in NO_DECIMALS then 1 else 100
  }

  // ----- packages/lib-metrics/src/format-money.ts -----------------------------------------------

  function CurrencySymbol(code: string): string {
    match Upper(code)
    case "INR" => "₹"
    case "AED" => "AED "
    case "SAR" => "SAR "
    case "USD" => "$"
    case "EUR" => "€"
    case "GBP" => "£"
    case "JPY" => "¥"
    case "KWD" => "KWD "
    case "BHD" => "BHD "
    case other => other + " "
  }

  /** Digit grouping of toLocaleString('en-US'): threes from the right. */
  function GroupThrees(s: string): string {
    if |s| <= 3 then s else GroupThrees(s[..|s| - 3]) + "," + s[|s| - 3..]
  }

  function GroupPairs(s: string): string {
    if |s| <= 2 then s else GroupPairs(s[..|s| - 2]) + "," + s[|s| - 2..]
  }

  /** Digit grouping of toLocaleString('en-IN'): one three from the right, then pairs. */
  function GroupIndian(s: string): string {
    if |s| <= 3 then s else GroupPairs(s[..|s| - 3]) + "," + s[|s| - 3..]
  }

  const RUPEES_PER_LAKH: nat := 100_000
  const RUPEES_PER_CRORE: nat := 10_000_000

  function Quotient(n: nat, d: nat): (q: nat)
    requires d > 0
    ensures q * d <= n < q * d + d
  {
    n / d
  }

  function Point(whole: string, minor: string): string { whole + "." + minor }

  function WithSign(negative: bool, s: string): string { if negative then "-" + s else s }

  /** The part of an INR string behind sign and symbol. */
  function InrBody(magnitude: nat): string {
    var rupees, paise := magnitude / 100, magnitude % 100;
    if rupees >= RUPEES_PER_CRORE then
      Point(Show(rupees / RUPEES_PER_CRORE), PadStart(Show(rupees % RUPEES_PER_CRORE / 100_000), 2)) + " Cr"
    else if rupees >= RUPEES_PER_LAKH then
      Point(Show(rupees / RUPEES_PER_LAKH), PadStart(Show(rupees % RUPEES_PER_LAKH / 1_000), 2)) + " L"
    else
      Point(GroupIndian(Show(rupees)), PadStart(Show(paise), 2))
  }

  function NonInrBody(magnitude: nat, code: string): string {
    var multiplier := SubunitMultiplier(code);
    var major := Quotient(magnitude, multiplier);
    var minor := magnitude - major * multiplier;
    if multiplier == 1 then GroupThrees(Show(major))
    else Point(GroupThrees(Show(major)), PadStart(Show(minor), if multiplier == 1000 then 3 else 2))
  }

  /** formatMoney under its default locale. */
  function FormatMoney(minorUnits: int, code: string): string {
    var body := if Upper(code) == "INR" then InrBody(Abs(minorUnits)) else NonInrBody(Abs(minorUnits), code);
    WithSign(minorUnits < 0, CurrencySymbol(code) + body)
  }

  // ----- reading a printed amount back ----------------------------------------------------------

  function StripCommas(s: string): string {
    if s == "" then "" else (if s[0] == ',' then "" else [s[0]]) + StripCommas(s[1..])
  }

  /** Removes the currency symbol and the grouping; a minus sign in front of the symbol stays. */
  function Strip(text: string, code: string): string {
    var symbol := CurrencySymbol(code);
    if symbol <= text then StripCommas(text[|symbol|..])
    else if |text| > |symbol| then WithSign(true, StripCommas(text[1 + |symbol|..]))
    else text
  }

  /** Text without its last n characters. */
  function Chop(text: string, n: nat): string {
    if n <= |text| then text[..|text| - n] else ""
  }

  // ----- lemmas ---------------------------------------------------------------------------------

  lemma {:induction false} StripConcat(a: string, b: string)
    ensures StripCommas(a + b) == StripCommas(a) + StripCommas(b)
    decreases |a|
  {
    if a == "" {
      assert a + b == b;
    } else {
      assert (a + b)[1..] == a[1..] + b;
      StripConcat(a[1..], b);
    }
  }

  lemma {:induction false} StripPlain(s: string)
    requires forall i | 0 <= i < |s| :: s[i] != ','
    ensures StripCommas(s) == s
    decreases |s|
  {
    if s != "" { StripPlain(s[1..]); }
  }

  lemma StripGroup(front: string, back: string, grouped: string)
    requires AllDigits(back) && StripCommas(grouped) == front
    ensures StripCommas(grouped + "," + back) == front + back
  {
    StripConcat(grouped + ",", back);
    StripConcat(grouped, ",");
    StripPlain(back);
    assert StripCommas(",") == "";
  }

  /** Grouping only inserts separators. */
  lemma {:induction false} UngroupThrees(s: string)
    requires AllDigits(s)
    ensures StripCommas(GroupThrees(s)) == s
    decreases |s|
  {
    if |s| <= 3 {
      StripPlain(s);
    } else {
      var front, back := s[..|s| - 3], s[|s| - 3..];
      UngroupThrees(front);
      StripGroup(front, back, GroupThrees(front));
      assert front + back == s;
    }
  }

  lemma {:induction false} UngroupPairs(s: string)
    requires AllDigits(s)
    ensures StripCommas(GroupPairs(s)) == s
    decreases |s|
  {
    if |s| <= 2 {
      StripPlain(s);
    } else {
      var front, back := s[..|s| - 2], s[|s| - 2..];
      UngroupPairs(front);
      StripGroup(front, back, GroupPairs(front));
      assert front + back == s;
    }
  }

  lemma UngroupIndian(s: string)
    requires AllDigits(s)
    ensures StripCommas(GroupIndian(s)) == s
  {
    if |s| <= 3 {
      StripPlain(s);
    } else {
      var front, back := s[..|s| - 3], s[|s| - 3..];
      UngroupPairs(front);
      StripGroup(front, back, GroupPairs(front));
      assert front + back == s;
    }
  }

  lemma SymbolEndsWithoutDash(code: string)
    ensures CurrencySymbol(code) != "" && CurrencySymbol(code)[|CurrencySymbol(code)| - 1] != '-'
  {
  }

  /** A string that starts with itself shifted by a dash is made of dashes. */
  lemma {:induction false} DashShift(symbol: string, rest: string, i: nat)
    requires i < |symbol| && symbol <= "-" + (symbol + rest)
    ensures symbol[i] == '-'
  {
    assert symbol[i] == ("-" + (symbol + rest))[i];
    if i > 0 { DashShift(symbol, rest, i - 1); }
  }

  lemma StripsSignAndSymbol(negative: bool, code: string, body: string)
    ensures Strip(WithSign(negative, CurrencySymbol(code) + body), code) == WithSign(negative, StripCommas(body))
  {
    var symbol := CurrencySymbol(code);
    hide CurrencySymbol, StripCommas;
    SymbolEndsWithoutDash(code);
    var text := WithSign(negative, symbol + body);
    if negative {
      if symbol <= text { DashShift(symbol, body, |symbol| - 1); }
      assert text[1 + |symbol|..] == body;
    } else {
      assert symbol <= text && text[|symbol|..] == body;
    }
  }

  lemma ExactRounds(n: int, p: int, m: int)
    requires p > 0 && Nearest(n * p, p, m)
    ensures m == n
  {
    Distribute(n, -m, p);
    if n > m { MulMonotone(1, n - m, p); } else if n < m { MulMonotone(n - m, -1, p); }
  }

  function Signed(negative: bool, n: nat): int { if negative then 0 - n else n }

  /** Major units and e minor digits convert to the minor units they show. */
  lemma ReadsExact(negative: bool, major: nat, minor: string, e: nat)
    requires AllDigits(minor) && |minor| == e
    ensures
      var numeral := if e == 0 then Show(major) else Point(Show(major), minor);
      DecimalToMinorUnits(WithSign(negative, numeral), Pow10(e)) ==
        Ok(Signed(negative, major * Pow10(e) + Value(minor)))
  {
    hide DecimalToMinorUnits, IsHalfDown, IsHalfEven, Show, Value, Pow10;
    var d := Numeral(if negative then Minus else Unsigned, Show(major), e > 0, minor);
    TextIsTrimmed(d);
    var m := Converts(Text(d), d, e);
    ValueConcat(Show(major), minor);
    ValueOfShow(major);
    ConvertedIsNearest(Num(d) * Pow10(e), Pow10(e), e, m);
    ExactRounds(Num(d), Pow10(e), m);
    assert Num(d) == Signed(negative, major * Pow10(e) + Value(minor));
    assert Text(d) == WithSign(negative, if e == 0 then Show(major) else Point(Show(major), minor)) by {
      assert Show(major) + ("." + minor) == Point(Show(major), minor);
    }
  }

  lemma ConvertedIsNearest(num: int, den: int, e: nat, m: int)
    requires Converted(num, den, e, m)
    ensures Nearest(num, den, m) && den > 0
  {
  }

  lemma StripsPoint(grouped: string, digits: string, minor: string)
    requires StripCommas(grouped) == digits && AllDigits(minor)
    ensures StripCommas(Point(grouped, minor)) == Point(digits, minor)
  {
    StripConcat(grouped + ".", minor);
    StripConcat(grouped, ".");
    StripPlain(".");
    StripPlain(minor);
  }

  lemma PaddedMinor(minor: nat, e: nat)
    requires e >= 1 && minor < Pow10(e)
    ensures AllDigits(PadStart(Show(minor), e)) && |PadStart(Show(minor), e)| == e
    ensures Value(PadStart(Show(minor), e)) == minor
  {
    ShowWidth(minor, e);
    ValueOfPadStart(Show(minor), e);
    ValueOfShow(minor);
  }

  /** How many decimals the subunit of a currency has. */
  function SubunitDecimals(code: string): (e: nat)
    ensures SubunitMultiplier(code) == Pow10(e)
    ensures e == 0 <==> SubunitMultiplier(code) == 1
    ensures e == 3 <==> SubunitMultiplier(code) == 1000
    ensures e == 2 || e == 3 || e == 0
  {
    assert Pow10(1) == 10 && Pow10(2) == 100 && Pow10(3) == 1000;
    if SubunitMultiplier(code) == 1000 then 3 else if SubunitMultiplier(code) == 1 then 0 else 2
  }

  // ----- main results ---------------------------------------------------------------------------

  /** Printing any amount outside INR and reading it back returns the amount. */
  lemma NonInrRoundTrip(minorUnits: int, code: string)
    requires Upper(code) != "INR"
    ensures DecimalToMinorUnits(Strip(FormatMoney(minorUnits, code), code), SubunitMultiplier(code)) == Ok(minorUnits)
  {
    hide DecimalToMinorUnits, CurrencySymbol, SubunitDecimals, SubunitMultiplier, Strip, Show, Pow10, GroupThrees,
      PadStart, Quotient, Point, WithSign, StripCommas;
    var e, multiplier, magnitude := SubunitDecimals(code), SubunitMultiplier(code), Abs(minorUnits);
    var major := Quotient(magnitude, multiplier);
    var minor := magnitude - major * multiplier;
    StripsSignAndSymbol(minorUnits < 0, code, NonInrBody(magnitude, code));
    UngroupThrees(Show(major));
    if e == 0 {
      ReadsExact(minorUnits < 0, major, "", 0);
      assert Value("") == 0;
    } else {
      var digits := PadStart(Show(minor), e);
      PaddedMinor(minor, e);
      StripsPoint(GroupThrees(Show(major)), Show(major), digits);
      ReadsExact(minorUnits < 0, major, digits, e);
    }
  }

  /** The same for rupees below one lakh. */
  lemma InrRoundTrip(minorUnits: int, code: string)
    requires Upper(code) == "INR" && Abs(minorUnits) / 100 < RUPEES_PER_LAKH
    ensures DecimalToMinorUnits(Strip(FormatMoney(minorUnits, code), code), SubunitMultiplier(code)) == Ok(minorUnits)
  {
    hide DecimalToMinorUnits, CurrencySymbol, SubunitDecimals, SubunitMultiplier, Strip, Show, Pow10, GroupIndian,
      PadStart, Upper, Point, WithSign, StripCommas;
    var magnitude := Abs(minorUnits);
    var rupees, paise := magnitude / 100, magnitude % 100;
    var digits := PadStart(Show(paise), 2);
    InrHasPaise(code);
    HundredIsPow10();
    StripsSignAndSymbol(minorUnits < 0, code, InrBody(magnitude));
    UngroupIndian(Show(rupees));
    PaddedMinor(paise, 2);
    StripsPoint(GroupIndian(Show(rupees)), Show(rupees), digits);
    ReadsExact(minorUnits < 0, rupees, digits, 2);
  }

  /** hundredths * unit is minorUnits cut off towards zero, short of it by less than one unit. */
  ghost predicate Truncates(minorUnits: int, hundredths: int, unit: nat) {
    if minorUnits < 0 then hundredths * unit >= minorUnits > (hundredths - 1) * unit && hundredths <= 0
    else hundredths * unit <= minorUnits < (hundredths + 1) * unit && hundredths >= 0
  }

  lemma HundredIsPow10()
    ensures Pow10(2) == 100
  {
    assert Pow10(1) == 10;
  }

  lemma InrHasPaise(code: string)
    requires Upper(code) == "INR"
    ensures SubunitMultiplier(code) == 100
  {
  }

  lemma SignBeforeSuffix(negative: bool, s: string, suffix: string)
    ensures WithSign(negative, s + suffix) == WithSign(negative, s) + suffix
  {
    assert "-" + (s + suffix) == ("-" + s) + suffix;
  }

  lemma BandReads(negative: bool, whole: nat, hundredths: nat, suffix: string)
    requires hundredths < 100 && forall i | 0 <= i < |suffix| :: suffix[i] != ','
    ensures
      var shown := Point(Show(whole), PadStart(Show(hundredths), 2));
      && WithSign(negative, StripCommas(shown + suffix)) == WithSign(negative, shown) + suffix
      && DecimalToMinorUnits(WithSign(negative, shown), 100) == Ok(Signed(negative, whole * 100 + hundredths))
  {
    hide *;
    HundredIsPow10();
    var digits := PadStart(Show(hundredths), 2);
    PaddedMinor(hundredths, 2);
    var shown := Point(Show(whole), digits);
    PointIsPlain(Show(whole), digits);
    StripConcat(shown, suffix);
    StripPlain(shown);
    StripPlain(suffix);
    SignBeforeSuffix(negative, shown, suffix);
    ReadsExact(negative, whole, digits, 2);
  }

  lemma PointIsPlain(whole: string, minor: string)
    requires AllDigits(whole) && AllDigits(minor)
    ensures forall i | 0 <= i < |Point(whole, minor)| :: Point(whole, minor)[i] != ','
  {
  }

  /** From one lakh rupees the text shows hundredths of a lakh, 1,000 rupees each, cut off. */
  lemma LakhTruncates(minorUnits: int, code: string)
    requires Upper(code) == "INR" && RUPEES_PER_LAKH <= Abs(minorUnits) / 100 < RUPEES_PER_CRORE
    ensures
      var stripped := Strip(FormatMoney(minorUnits, code), code);
      && stripped == Chop(stripped, 2) + " L"
      && DecimalToMinorUnits(Chop(stripped, 2), 100).Ok?
      && Truncates(minorUnits, DecimalToMinorUnits(Chop(stripped, 2), 100).value, 1_000 * 100)
  {
    var magnitude := Abs(minorUnits);
    var rupees := magnitude / 100;
    hide DecimalToMinorUnits, CurrencySymbol, Strip, Show, PadStart, Point, WithSign, StripCommas;
    StripsSignAndSymbol(minorUnits < 0, code, InrBody(magnitude));
    BandReads(minorUnits < 0, rupees / RUPEES_PER_LAKH, rupees % RUPEES_PER_LAKH / 1_000, " L");
  }

  /** From one crore rupees the text shows hundredths of a crore, 100,000 rupees each, cut off. */
  lemma CroreTruncates(minorUnits: int, code: string)
    requires Upper(code) == "INR" && RUPEES_PER_CRORE <= Abs(minorUnits) / 100
    ensures
      var stripped := Strip(FormatMoney(minorUnits, code), code);
      && stripped == Chop(stripped, 3) + " Cr"
      && DecimalToMinorUnits(Chop(stripped, 3), 100).Ok?
      && Truncates(minorUnits, DecimalToMinorUnits(Chop(stripped, 3), 100).value, 100_000 * 100)
  {
    var magnitude := Abs(minorUnits);
    var rupees := magnitude / 100;
    hide DecimalToMinorUnits, CurrencySymbol, Strip, Show, PadStart, Point, WithSign, StripCommas;
    StripsSignAndSymbol(minorUnits < 0, code, InrBody(magnitude));
    BandReads(minorUnits < 0, rupees / RUPEES_PER_CRORE, rupees % RUPEES_PER_CRORE / 100_000, " Cr");
  }
}
