/**
 What a printed amount looks like, told without the printer: symbol, separators, point and digits, for
 every amount and every currency code.
 */
module MoneyShape {
  import opened Arithmetic
  import opened Digits
  import opened MoneyConvert
  import opened MoneyFormat

  /** u is code in capitals. */
  predicate FoldsTo(code: string, u: string) {
    && |u| == |code|
    && forall i | 0 <= i < |code| ::
         u[i] == if 'a' <= code[i] <= 'z' then (code[i] as int - 32) as char else code[i]
  }

  /** The symbols that are not the code and a space. */
  const SYMBOLS: map<string, string> :=
    map["INR" := "₹", "USD" := "$", "EUR" := "€", "GBP" := "£", "JPY" := "¥"]

  predicate SymbolOf(u: string, symbol: string) {
    if u in SYMBOLS then symbol == SYMBOLS[u] else symbol == u + " "
  }

  /** Digits behind the point: none for seven codes, three for four, else two. */
  function Decimals(u: string): nat {
    match u
    case "JPY" | "KRW" | "VND" | "IDR" | "HUF" | "ISK" | "TWD" => 0
    case "KWD" | "BHD" | "OMR" | "TND" => 3
    case _ => 2
  }

  /** Counted from the right, every fourth character and no other is a separator, the first one never. */
  predicate InThrees(g: string) {
    && g != "" && g[0] != ','
    && forall i | 0 <= i < |g| :: if (|g| - i) % 4 == 0 then g[i] == ',' else IsDigit(g[i])
  }

  /** Counted from the right, the fourth character, then every third, is a separator. */
  predicate InIndianGroups(g: string) {
    && g != "" && g[0] != ','
    && forall i | 0 <= i < |g| :: if |g| - i > 1 && (|g| - i) % 3 == 1 then g[i] == ',' else IsDigit(g[i])
  }

  /** No leading zero. */
  predicate Plainly(g: string) { g != "" && (g[0] == '0' ==> |g| == 1) }

  /** The number a group of digits and separators shows. */
  ghost predicate Tells(g: string, n: nat) { AllDigits(StripCommas(g)) && Value(StripCommas(g)) == n }

  // ----- grouping -------------------------------------------------------------------------------

  lemma {:induction false} GroupsInThrees(s: string)
    requires AllDigits(s) && s != ""
    ensures InThrees(GroupThrees(s)) && GroupThrees(s)[0] == s[0] && (|GroupThrees(s)| == 1 <==> |s| == 1)
    decreases |s|
  {
    if |s| > 3 {
      var front, back := s[..|s| - 3], s[|s| - 3..];
      GroupsInThrees(front);
      Joined(GroupThrees(front), back);
    }
  }

  lemma Joined(g: string, back: string)
    requires InThrees(g) && AllDigits(back) && |back| == 3
    ensures InThrees(g + "," + back)
  {
    var all := g + "," + back;
    forall i | 0 <= i < |all| ensures if (|all| - i) % 4 == 0 then all[i] == ',' else IsDigit(all[i]) {
      if i < |g| { assert all[i] == g[i] && (|g| + 4 - i) % 4 == (|g| - i) % 4; }
    }
  }

  /** Counted from the right, every third character and no other is a separator. */
  predicate InPairs(g: string) {
    && g != "" && g[0] != ','
    && forall i | 0 <= i < |g| :: if (|g| - i) % 3 == 0 then g[i] == ',' else IsDigit(g[i])
  }

  lemma {:induction false} GroupsInPairs(s: string)
    requires AllDigits(s) && s != ""
    ensures InPairs(GroupPairs(s)) && GroupPairs(s)[0] == s[0]
    decreases |s|
  {
    if |s| > 2 {
      var front, back := s[..|s| - 2], s[|s| - 2..];
      GroupsInPairs(front);
      PairJoined(GroupPairs(front), back);
    }
  }

  lemma PairJoined(g: string, back: string)
    requires InPairs(g) && AllDigits(back) && |back| == 2
    ensures InPairs(g + "," + back)
  {
    var all := g + "," + back;
    forall i | 0 <= i < |all| ensures if (|all| - i) % 3 == 0 then all[i] == ',' else IsDigit(all[i]) {
      if i < |g| { assert all[i] == g[i] && (|g| + 3 - i) % 3 == (|g| - i) % 3; }
    }
  }

  lemma GroupsIndian(s: string)
    requires AllDigits(s) && s != ""
    ensures InIndianGroups(GroupIndian(s)) && GroupIndian(s)[0] == s[0] && (|GroupIndian(s)| == 1 <==> |s| == 1)
  {
    if |s| > 3 {
      var front, back := s[..|s| - 3], s[|s| - 3..];
      GroupsInPairs(front);
      IndianJoined(GroupPairs(front), back);
    }
  }

  lemma IndianJoined(g: string, back: string)
    requires InPairs(g) && AllDigits(back) && |back| == 3
    ensures InIndianGroups(g + "," + back)
  {
    var all := g + "," + back;
    forall i | 0 <= i < |all|
      ensures if |all| - i > 1 && (|all| - i) % 3 == 1 then all[i] == ',' else IsDigit(all[i])
    {
      if i < |g| { assert all[i] == g[i] && (|g| + 4 - i) % 3 == (|g| - i + 1) % 3; }
    }
  }

  lemma {:induction false} ShowsPlainly(n: nat)
    ensures Plainly(Show(n)) && (Show(n)[0] == '0' ==> n == 0)
  {
    if n >= 10 {
      ShowsPlainly(n / 10);
    }
  }

  // ----- codes ----------------------------------------------------------------------------------

  lemma UpperFolds(code: string, u: string)
    requires FoldsTo(code, u)
    ensures Upper(code) == u
  {
    assert forall i | 0 <= i < |code| :: Upper(code)[i] == u[i];
  }

  lemma SymbolIs(code: string, u: string)
    requires FoldsTo(code, u)
    ensures SymbolOf(u, CurrencySymbol(code))
  {
    UpperFolds(code, u);
  }

  lemma MultiplierIs(code: string, u: string)
    requires FoldsTo(code, u)
    ensures SubunitMultiplier(code) == Pow10(Decimals(u))
    ensures SubunitMultiplier(code) == match Decimals(u) case 0 => 1 case 3 => 1000 case _ => 100
  {
    UpperFolds(code, u);
    assert Pow10(1) == 10 && Pow10(2) == 100 && Pow10(3) == 1000;
  }

  // ----- the printed text -----------------------------------------------------------------------

  /**
   Outside INR: a sign, the code's symbol, the whole units in groups of three and, where the currency has
   decimals, a point and exactly so many digits. Together they tell the amount.
   */
  lemma PrintsExactly(minorUnits: int, code: string, u: string)
    returns (symbol: string, whole: string, minor: string, major: nat)
    requires FoldsTo(code, u) && u != "INR"
    ensures FormatMoney(minorUnits, code) ==
            (if minorUnits < 0 then "-" else "") +
            (symbol + (whole + if Decimals(u) == 0 then "" else "." + minor))
    ensures SymbolOf(u, symbol) && InThrees(whole) && Plainly(whole) && Tells(whole, major)
    ensures AllDigits(minor) && |minor| == Decimals(u)
    ensures Abs(minorUnits) == major * Pow10(Decimals(u)) + Value(minor)
  {
    hide CurrencySymbol, SubunitMultiplier, Upper, GroupThrees, PadStart, Show, Value, StripCommas, InThrees, Decimals;
    UpperFolds(code, u);
    SymbolIs(code, u);
    MultiplierIs(code, u);
    DecimalsAre(u);
    var m, d := SubunitMultiplier(code), Decimals(u);
    symbol := CurrencySymbol(code);
    major := Quotient(Abs(minorUnits), m);
    whole := GroupThrees(Show(major));
    WholeUnits(major);
    var rest := Abs(minorUnits) - major * m;
    if d == 0 {
      minor := "";
      NoDigits();
      assert whole + "" == whole;
    } else {
      minor := PadStart(Show(rest), d);
      PaddedMinor(rest, d);
      assert Point(whole, minor) == whole + ("." + minor);
    }
    SignFirst(minorUnits < 0, symbol + (whole + if d == 0 then "" else "." + minor));
  }

  lemma DecimalsAre(u: string)
    ensures Decimals(u) == 0 || Decimals(u) == 2 || Decimals(u) == 3
  {
  }

  lemma NoDigits()
    ensures Value("") == 0
  {
  }

  lemma SignFirst(negative: bool, s: string)
    ensures WithSign(negative, s) == (if negative then "-" else "") + s
  {
  }

  lemma WholeUnits(major: nat)
    ensures var whole := GroupThrees(Show(major)); InThrees(whole) && Plainly(whole) && Tells(whole, major)
  {
    ValueOfShow(major);
    ShowsPlainly(major);
    GroupsInThrees(Show(major));
    UngroupThrees(Show(major));
    hide GroupThrees, Show, InThrees, Value, StripCommas;
  }

  /** In INR below 100,000 rupees: the rupees in Indian groups, a point, two digits of paise. */
  lemma PrintsRupees(minorUnits: int, code: string) returns (whole: string, minor: string, rupees: nat)
    requires FoldsTo(code, "INR") && Abs(minorUnits) < 100_000_00
    ensures FormatMoney(minorUnits, code) == (if minorUnits < 0 then "-" else "") + ("₹" + (whole + ("." + minor)))
    ensures InIndianGroups(whole) && Plainly(whole) && Tells(whole, rupees) && AllDigits(minor) && |minor| == 2
    ensures Abs(minorUnits) == rupees * 100 + Value(minor)
  {
    hide CurrencySymbol, Upper, GroupIndian, PadStart, Show, Value, StripCommas, InIndianGroups;
    UpperFolds(code, "INR");
    SymbolIs(code, "INR");
    rupees := Abs(minorUnits) / 100;
    whole, minor := GroupIndian(Show(rupees)), PadStart(Show(Abs(minorUnits) % 100), 2);
    WholeRupees(rupees);
    HundredIsPow10();
    PaddedMinor(Abs(minorUnits) % 100, 2);
    assert Point(whole, minor) == whole + ("." + minor);
    SignFirst(minorUnits < 0, "₹" + (whole + ("." + minor)));
  }

  lemma WholeRupees(rupees: nat)
    ensures var whole := GroupIndian(Show(rupees)); InIndianGroups(whole) && Plainly(whole) && Tells(whole, rupees)
  {
    ValueOfShow(rupees);
    ShowsPlainly(rupees);
    GroupsIndian(Show(rupees));
    UngroupIndian(Show(rupees));
    hide GroupIndian, Show, InIndianGroups, Value, StripCommas;
  }

  /** From 100,000 rupees on: lakhs, from 10,000,000 on crores, two digits behind the point, the rest cut off. */
  lemma PrintsLakhsAndCrores(minorUnits: int, code: string)
    returns (whole: string, hundredths: string, count: nat)
    requires FoldsTo(code, "INR") && Abs(minorUnits) >= 100_000_00
    ensures
      var crores := Abs(minorUnits) >= 10_000_000_00;
      && FormatMoney(minorUnits, code) ==
         (if minorUnits < 0 then "-" else "") +
         ("₹" + (whole + ("." + (hundredths + if crores then " Cr" else " L"))))
      && AllDigits(whole) && Plainly(whole) && Value(whole) == count && AllDigits(hundredths) && |hundredths| == 2
      && var unit := if crores then 10_000_000_00 else 100_000_00;
         count * unit + Value(hundredths) * (unit / 100) <= Abs(minorUnits)
           < count * unit + Value(hundredths) * (unit / 100) + unit / 100
  {
    hide CurrencySymbol, Upper, PadStart, Show, Value, Plainly, Point, WithSign;
    var a := Abs(minorUnits);
    var crores := a >= 10_000_000_00;
    var unit := if crores then 10_000_000 else 100_000;
    count := a / 100 / unit;
    var h := a / 100 % unit / (unit / 100);
    BandParts(a, unit, count, h);
    HundredIsPow10();
    whole, hundredths := Show(count), PadStart(Show(h), 2);
    ValueOfShow(count);
    ShowsPlainly(count);
    PaddedMinor(h, 2);
    BandText(minorUnits, code, whole, hundredths);
  }

  /** Whole units and hundredths, the rest cut off. */
  lemma BandParts(a: nat, unit: nat, count: nat, h: nat)
    requires unit == 10_000_000 || unit == 100_000
    requires count == a / 100 / unit && h == a / 100 % unit / (unit / 100)
    ensures h < 100 && count * (unit * 100) + h * unit <= a < count * (unit * 100) + h * unit + unit
  {
  }

  lemma BandText(minorUnits: int, code: string, whole: string, hundredths: string)
    requires FoldsTo(code, "INR") && Abs(minorUnits) >= 100_000_00
    requires
      var unit := if Abs(minorUnits) >= 10_000_000_00 then 10_000_000 else 100_000;
      var rupees := Abs(minorUnits) / 100;
      whole == Show(rupees / unit) && hundredths == PadStart(Show(rupees % unit / (unit / 100)), 2)
    ensures
      FormatMoney(minorUnits, code) ==
      (if minorUnits < 0 then "-" else "") +
      ("₹" + (whole + ("." + (hundredths + if Abs(minorUnits) >= 10_000_000_00 then " Cr" else " L"))))
  {
    hide CurrencySymbol, Upper, PadStart, Show, Point;
    UpperFolds(code, "INR");
    SymbolIs(code, "INR");
    var suffix := if Abs(minorUnits) >= 10_000_000_00 then " Cr" else " L";
    PointThen(whole, hundredths, suffix);
    assert InrBody(Abs(minorUnits)) == Point(whole, hundredths) + suffix;
    hide InrBody;
    SignFirst(minorUnits < 0, "₹" + (whole + ("." + (hundredths + suffix))));
  }

  lemma PointThen(whole: string, hundredths: string, suffix: string)
    ensures Point(whole, hundredths) + suffix == whole + ("." + (hundredths + suffix))
  {
  }
}
