/**
 The five patterns of the narration gate, character by character: what each matches at a place in the
 text, and the left-to-right scan that collects its matches.

 Every optional part is taken as far as it goes. Giving some of it back never helps the first four
 patterns, as what has to follow cannot begin inside it; the fifth does give back, and so does this.
 */
module NumberPatterns {
  import opened Options
  import opened Digits
  import MoneyConvert

  datatype Pattern = LakhPattern | CrorePattern | PercentPattern | CurrencyPattern | PlainPattern

  /** A match: the signed value it registers and its length. */
  datatype Hit = Hit(number: int, length: nat)

  /** A number found, and its span. */
  datatype Found = Found(value: int, start: nat, end: nat)

  predicate IsSpace(c: char) { MoneyConvert.IsSpace(c) }

  predicate IsLetter(c: char) { 'a' <= c <= 'z' || 'A' <= c <= 'Z' }

  predicate IsWordChar(c: char) { IsLetter(c) || IsDigit(c) || c == '_' }

  predicate IsSign(c: char) { c == '-' || c == '−' }

  // ----- runs -----------------------------------------------------------------------------------

  function SpaceRun(s: string): (n: nat)
    ensures n <= |s| && (forall i | 0 <= i < n :: IsSpace(s[i])) && (n < |s| ==> !IsSpace(s[n]))
  {
    if s == "" || !IsSpace(s[0]) then 0 else 1 + SpaceRun(s[1..])
  }

  function DigitRun(s: string): (n: nat)
    ensures n <= |s| && (forall i | 0 <= i < n :: IsDigit(s[i])) && (n < |s| ==> !IsDigit(s[n]))
  {
    if s == "" || !IsDigit(s[0]) then 0 else 1 + DigitRun(s[1..])
  }

  /** Digits and commas. */
  function GroupRun(s: string): (n: nat)
    ensures n <= |s| && (forall i | 0 <= i < n :: IsDigit(s[i]) || s[i] == ',')
    ensures n < |s| ==> !IsDigit(s[n]) && s[n] != ','
  {
    if s == "" || !(IsDigit(s[0]) || s[0] == ',') then 0 else 1 + GroupRun(s[1..])
  }

  function SignRun(s: string): (n: nat)
    ensures n <= |s|
  {
    if s != "" && IsSign(s[0]) then 1 else 0
  }

  /** The digits behind a point at place n, when there are any. */
  function FractionRun(s: string, n: nat): (f: nat)
    ensures f > 0 ==> n + 1 + f <= |s| && s[n] == '.'
  {
    if n < |s| && s[n] == '.' then DigitRun(s[n + 1..]) else 0
  }

  function Pointed(f: nat): nat { if f > 0 then 1 + f else 0 }

  /** Digits, and a point with digits. */
  function NumberRun(s: string): (n: nat)
    ensures n <= |s|
  {
    if DigitRun(s) == 0 then 0 else DigitRun(s) + Pointed(FractionRun(s, DigitRun(s)))
  }

  predicate StartsWith(s: string, word: string) {
    |word| <= |s| && forall i | 0 <= i < |word| :: s[i] == word[i]
  }

  /** approximately, approx or approx. with spaces behind, or a tilde. */
  function ApproxRun(s: string): (n: nat)
    ensures n <= |s|
  {
    if StartsWith(s, "approximately") && SpaceRun(s[13..]) > 0 then 13 + SpaceRun(s[13..])
    else if StartsWith(s, "approx.") && SpaceRun(s[7..]) > 0 then 7 + SpaceRun(s[7..])
    else if StartsWith(s, "approx") && SpaceRun(s[6..]) > 0 then 6 + SpaceRun(s[6..])
    else if StartsWith(s, "~") then 1 + SpaceRun(s[1..])
    else 0
  }

  predicate StartsRs(s: string, anyCase: bool) {
    |s| >= 2 && (s[0] == 'R' || (anyCase && s[0] == 'r')) && (s[1] == 's' || (anyCase && s[1] == 'S'))
  }

  predicate StartsInr(s: string, anyCase: bool) {
    && |s| >= 3 && (s[0] == 'I' || (anyCase && s[0] == 'i')) && (s[1] == 'N' || (anyCase && s[1] == 'n'))
    && (s[2] == 'R' || (anyCase && s[2] == 'r'))
  }

  /** A rupee sign, Rs with or without a point, or INR. */
  function CurrencyRun(s: string, anyCase: bool): (n: nat)
    ensures n <= |s|
  {
    if StartsWith(s, "₹") then 1
    else if StartsRs(s, anyCase) then 2 + (if |s| > 2 && s[2] == '.' then 1 else 0)
    else if StartsInr(s, anyCase) then 3 + SpaceRun(s[3..])
    else 0
  }

  /** No letter may follow a unit. */
  predicate EndsWord(s: string) { s == "" || !IsLetter(s[0]) }

  function LakhUnit(s: string): (n: nat)
    ensures n <= |s|
  {
    if s == "" || !(s[0] == 'L' || s[0] == 'l') then 0
    else if StartsWith(s[1..], "akhs") && EndsWord(s[5..]) then 5
    else if StartsWith(s[1..], "akh") && EndsWord(s[4..]) then 4
    else if EndsWord(s[1..]) then 1
    else 0
  }

  function CroreUnit(s: string): (n: nat)
    ensures n <= |s|
  {
    if s == "" || !(s[0] == 'C' || s[0] == 'c') then 0
    else if StartsWith(s[1..], "rores") && EndsWord(s[6..]) then 6
    else if StartsWith(s[1..], "rore") && EndsWord(s[5..]) then 5
    else if StartsWith(s[1..], "r") && EndsWord(s[2..]) then 2
    else 0
  }

  // ----- values ---------------------------------------------------------------------------------

  /** v / den times scale, rounded half up. */
  function RoundScaled(v: nat, scale: nat, den: nat): int
    requires den > 0
  {
    (2 * (v * scale) + den) / (2 * den)
  }

  /** scaledToBigint of the number at the head: times scale, rounded when it has a point. */
  function ScaledToBigint(s: string, scale: nat): int {
    var n := DigitRun(s);
    var f := FractionRun(s, n);
    if f == 0 then Value(s[..n]) * scale
    else RoundScaled(Value(s[..n] + s[n + 1..n + 1 + f]), scale, Pow10(f))
  }

  function WithoutCommas(s: string): (t: string)
    requires forall i | 0 <= i < |s| :: IsDigit(s[i]) || s[i] == ','
    ensures AllDigits(t)
  {
    if s == "" then "" else (if s[0] == ',' then "" else [s[0]]) + WithoutCommas(s[1..])
  }

  function Negated(negative: bool, v: int): int { if negative then 0 - v else v }

  // ----- the patterns at one place --------------------------------------------------------------

  /** Sign, spaces, an approximation word and a currency, all optional. */
  function PrefixRun(s: string): (n: nat)
    ensures n <= |s|
  {
    var a := SignRun(s) + SpaceRun(s[SignRun(s)..]);
    var b := a + ApproxRun(s[a..]);
    b + CurrencyRun(s[b..], false)
  }

  function UnitLength(p: Pattern, s: string): (n: nat)
    ensures n <= |s|
  {
    match p
    case LakhPattern => LakhUnit(s)
    case CrorePattern => CroreUnit(s)
    case _ => if StartsWith(s, "%") then 1 else 0
  }

  const LAKH: nat := 100_000
  const CRORE: nat := 10_000_000

  function Scale(p: Pattern): nat {
    match p
    case LakhPattern => LAKH
    case CrorePattern => CRORE
    case _ => 100
  }

  /** Lakh, crore and per cent: a prefix, a number, spaces, the unit. */
  function UnitAt(p: Pattern, s: string): (h: Option<Hit>)
    ensures h.Some? ==> 0 < h.value.length <= |s|
  {
    var a := if p.PercentPattern? then SignRun(s) + SpaceRun(s[SignRun(s)..]) else PrefixRun(s);
    var n := NumberRun(s[a..]);
    if n == 0 then None
    else
      var b := a + n + SpaceRun(s[a + n..]);
      var u := UnitLength(p, s[b..]);
      if u == 0 then None
      else Some(Hit(Negated(SignRun(s) == 1, ScaledToBigint(s[a..], Scale(p))), b + u))
  }

  /** A currency and a number with commas, cut off at the point. */
  function CurrencyAt(s: string): (h: Option<Hit>)
    ensures h.Some? ==> 0 < h.value.length <= |s|
  {
    var a := SignRun(s) + SpaceRun(s[SignRun(s)..]);
    var c := CurrencyRun(s[a..], true);
    var rest := s[a + c..];
    if c == 0 || rest == "" || !IsDigit(rest[0]) then None
    else
      var n := GroupRun(rest);
      var value := Value(WithoutCommas(rest[..n]));
      Some(Hit(Negated(SignRun(s) == 1, value), a + c + n + Pointed(FractionRun(rest, n))))
  }

  /** What must not follow a plain number: spaces, perhaps, and a per cent sign or the letter of a unit. */
  predicate UnitFollows(s: string) {
    var n := SpaceRun(s);
    n < |s| && (s[n] == '%' || s[n] == 'L' || s[n] == 'l' || s[n] == 'C' || s[n] == 'c')
  }

  /** The longest end from least to most that no unit follows; 0 when there is none. */
  function BackOff(s: string, least: nat, most: nat): (n: nat)
    requires most <= |s|
    ensures n == 0 || least <= n <= most
  {
    if most < least || most == 0 then 0
    else if UnitFollows(s[most..]) then BackOff(s, least, most - 1)
    else most
  }

  /** Where a plain number at the head ends, giving back decimals first and digits then. */
  function PlainEnd(s: string): (n: nat)
    requires s != "" && IsDigit(s[0])
    ensures n <= GroupRun(s) + Pointed(FractionRun(s, GroupRun(s)))
  {
    var g := GroupRun(s);
    var f := FractionRun(s, g);
    var decimals := if f == 0 then 0 else BackOff(s, g + 2, g + 1 + f);
    if decimals > 0 then decimals else BackOff(s, 1, g)
  }

  /**
   A number on its own, not behind a rupee sign or a word. A minus sign counts twice: the text is read
   with it, and then negated for it.
   */
  function PlainAt(prev: Option<char>, s: string): (h: Option<Hit>)
    ensures h.Some? ==> 0 < h.value.length <= |s|
  {
    var a := SignRun(s);
    if (prev.Some? && (prev.value == '₹' || IsWordChar(prev.value))) || a == |s| || !IsDigit(s[a]) then None
    else
      var n := PlainEnd(s[a..]);
      if n == 0 then None
      else
        var g := GroupRun(s[a..]);
        var v := Value(WithoutCommas(s[a..][..if n < g then n else g]));
        Some(Hit(Negated(a == 1, Negated(a == 1, v)), a + n))
  }

  function At(p: Pattern, prev: Option<char>, s: string): (h: Option<Hit>)
    ensures h.Some? ==> 0 < h.value.length <= |s|
  {
    match p
    case CurrencyPattern => CurrencyAt(s)
    case PlainPattern => PlainAt(prev, s)
    case _ => UnitAt(p, s)
  }

  /** All matches in s, which starts at place at of the text, behind the character prev. */
  function Scan(p: Pattern, prev: Option<char>, s: string, at: nat): seq<Found>
    decreases |s|
  {
    if s == "" then []
    else
      match At(p, prev, s)
      case None => Scan(p, Some(s[0]), s[1..], at + 1)
      case Some(h) =>
        [Found(h.number, at, at + h.length)] + Scan(p, Some(s[h.length - 1]), s[h.length..], at + h.length)
  }

  const PATTERNS: seq<Pattern> := [LakhPattern, CrorePattern, PercentPattern, CurrencyPattern, PlainPattern]
}
