/**
 What the gate registers for money and for plain numbers, each somewhere in calm prose.
 */
module WrittenMoney {
  import opened Options
  import opened Digits
  import opened MoneyFormat
  import opened NumberPatterns
  import opened NumberExtraction
  import opened FigureScan
  import opened TextScan
  import opened TokenScan
  import opened TokenText
  import opened WrittenNumbers

  function MoneyToken(lead: string, sign: string, cur: string, g: string, frac: string): string {
    lead + (sign + (cur + (g + FracStr(frac))))
  }

  lemma MoneyThen(lead: string, sign: string, cur: string, number: string, k: string)
    ensures (lead + (sign + (cur + number))) + k == lead + (sign + (cur + (number + k)))
    ensures |lead + (sign + (cur + number))| == |lead| + |sign| + |cur| + |number|
  {
    Shift(cur, number, k);
    Shift(sign, cur + number, k);
    Shift(lead, sign + (cur + number), k);
  }

  /** The digits of a group and of the decimals: no unit letter, no space, a digit at the end. */
  lemma NumberChars(g: string, frac: string)
    requires IsGroup(g) && AllDigits(frac)
    ensures
      var n := g + FracStr(frac);
      && n != "" && (IsDigit(n[|n| - 1]) || n[|n| - 1] == ',')
      && forall i | 0 <= i < |n| :: IsDigit(n[i]) || n[i] in {',', '.'}
    ensures
      var n := g + FracStr(frac);
      (frac != "" || IsDigit(g[|g| - 1])) ==> IsDigit(n[|n| - 1])
  {
  }

  predicate EndsInDigit(g: string, frac: string) { frac != "" || (g != "" && IsDigit(g[|g| - 1])) }

  /** In front of the digits there is none, and no unit of any pattern matters; behind them there is no unit. */
  lemma TokenChars(q: Pattern, front: string, number: string)
    requires ByUnit(q) && (forall i | 0 <= i < |front| :: !IsDigit(front[i]))
    requires number != "" && IsDigit(number[|number| - 1])
    requires forall i | 0 <= i < |number| :: IsDigit(number[i]) || number[i] in {',', '.'}
    ensures
      var w := front + number;
      Unspelt(q, w) && w != "" && IsDigit(w[|w| - 1])
  {
    var w := front + number;
    forall d: nat, j: nat | d < j < |w| && IsDigit(w[d]) ensures !UnitChar(q, w[j]) {
      assert w[j] == number[j - |front|];
    }
  }

  /** In such a token the unit patterns find nothing. */
  lemma NoUnits(q: Pattern, before: string, w: string, after: string)
    requires ByUnit(q) && IsCalm(before) && FollowsNumber(after) && (before != "" ==> NoLetterFirst(w + after))
    requires Unspelt(q, w) && w != "" && IsDigit(w[|w| - 1])
    ensures Scan(q, None, before + (w + after), 0) == []
  {
    hide *;
    FollowsParts(after);
    var prev := LastOr(None, before);
    ByUnitOnly(q);
    DigitNoSpace(w[|w| - 1]);
    UnitNever(q, w, after);
    NeverFinds(q, prev, w, after, |before|);
    NothingMore(q, LastOr(prev, w), after, |before| + |w|);
    Around(q, before, w, after, []);
  }

  lemma DigitNoSpace(c: char)
    requires IsDigit(c)
    ensures !IsSpace(c) && !IsSign(c)
  {
  }

  lemma FollowsParts(after: string)
    requires FollowsNumber(after)
    ensures IsCalm(after) && NoLetterFirst(after) && !UnitFollows(after) && NoMoreGroup(after)
  {
    CalmGoesOn(after);
    hide IsCalm, UnitFollows;
  }

  /** The number closes at the end of the token. */
  lemma NumberCloses(w: string, k: string)
    requires FollowsNumber(k)
    ensures Closes(w + k, |w|)
  {
    FollowsParts(k);
    CalmHasNoDigit(k);
    hide IsCalm, UnitFollows;
    assert (w + k)[|w|..] == k;
  }

  // ----- money ----------------------------------------------------------------------------------

  predicate IsMoney(lead: string, sign: string, cur: string, g: string, frac: string) {
    && IsLead(lead) && IsSignStr(sign) && IsAnyCurrency(cur) && IsGroup(g) && AllDigits(frac) && EndsInDigit(g, frac)
  }

  lemma MoneyChars(q: Pattern, lead: string, sign: string, cur: string, g: string, frac: string)
    requires ByUnit(q) && IsMoney(lead, sign, cur, g, frac)
    ensures
      var w := MoneyToken(lead, sign, cur, g, frac);
      Unspelt(q, w) && w != "" && IsDigit(w[|w| - 1])
  {
    hide Unspelt, FracStr;
    NumberChars(g, frac);
    var front, number := lead + (sign + cur), g + FracStr(frac);
    CurrencyChars(cur);
    Shift(sign, cur, number);
    Shift(lead, sign + cur, number);
    assert forall i | 0 <= i < |lead| :: !IsDigit(lead[i]);
    assert forall i | 0 <= i < |sign| :: !IsDigit(sign[i]);
    TokenChars(q, front, number);
  }

  lemma CurrencyChars(cur: string)
    requires IsAnyCurrency(cur)
    ensures forall i | 0 <= i < |cur| :: !IsDigit(cur[i])
  {
  }

  lemma UnsignedMoneyFound(prev: Option<char>, lead: string, cur: string, g: string, frac: string, w: string, k: string,
                           at: nat)
    requires IsMoney(lead, "", cur, g, frac) && FollowsNumber(k) && AllDigits(w) && StripCommas(g) == w
    ensures
      var tok := MoneyToken(lead, "", cur, g, frac);
      Scan(CurrencyPattern, prev, tok + k, at) ==
      [Found(Value(w), at, at + |tok|)] + Scan(CurrencyPattern, LastOr(prev, tok), k, at + |tok|)
  {
    hide *;
    MoneyParts2(lead, "", cur, g, frac);
    FollowsParts(k);
    LakhIsByUnit();
    MoneyChars(LakhPattern, lead, "", cur, g, frac);
    var number, tok := g + FracStr(frac), MoneyToken(lead, "", cur, g, frac);
    MoneyTokenIs(lead, "", cur, g, frac);
    MoneyThen(lead, "", cur, number, k);
    Shift(g, FracStr(frac), k);
    MoneyTokenAt(prev, lead, "", cur, g, frac, w, k);
    ScanSome(CurrencyPattern, prev, tok, k, at, Value(w));
    LastIs(prev, tok);
  }

  lemma MoneyParts2(lead: string, sign: string, cur: string, g: string, frac: string)
    requires IsMoney(lead, sign, cur, g, frac)
    ensures IsLead(lead) && IsSignStr(sign) && IsAnyCurrency(cur) && IsGroup(g) && AllDigits(frac)
    ensures (lead == "" || lead == " ") && IsMoney("", sign, cur, g, frac)
  {
  }

  lemma MoneyTokenIs(lead: string, sign: string, cur: string, g: string, frac: string)
    ensures MoneyToken(lead, sign, cur, g, frac) == lead + (sign + (cur + (g + FracStr(frac))))
  {
  }

  lemma SignedMoneyFound(prev: Option<char>, sign: string, cur: string, g: string, frac: string, w: string, k: string,
                         at: nat)
    requires IsMoney("", sign, cur, g, frac) && sign != "" && FollowsNumber(k) && AllDigits(w) && StripCommas(g) == w
    ensures
      var tok := MoneyToken("", sign, cur, g, frac);
      Scan(CurrencyPattern, prev, tok + k, at) ==
      [Found(0 - Value(w), at, at + |tok|)] + Scan(CurrencyPattern, LastOr(prev, tok), k, at + |tok|)
  {
    hide *;
    MoneyParts2("", sign, cur, g, frac);
    FollowsParts(k);
    LakhIsByUnit();
    MoneyChars(LakhPattern, "", sign, cur, g, frac);
    var number, tok := g + FracStr(frac), MoneyToken("", sign, cur, g, frac);
    MoneyTokenIs("", sign, cur, g, frac);
    MoneyThen("", sign, cur, number, k);
    Shift(g, FracStr(frac), k);
    MoneyTokenAt(prev, "", sign, cur, g, frac, w, k);
    ScanSome(CurrencyPattern, prev, tok, k, at, 0 - Value(w));
    LastIs(prev, tok);
  }

  lemma BareMoney(lead: string, sign: string, cur: string, g: string, frac: string)
    requires sign != ""
    ensures
      var bare := MoneyToken("", sign, cur, g, frac);
      && bare != "" && bare == sign + (cur + (g + FracStr(frac)))
      && MoneyToken(lead, sign, cur, g, frac) == lead + bare && (lead == "" ==> lead + bare == bare)
  {
    hide FracStr;
    Nothing(sign + (cur + (g + FracStr(frac))));
  }

  lemma MoneyFound(prev: Option<char>, lead: string, sign: string, cur: string, g: string, frac: string, w: string,
                   k: string, at: nat) returns (f: Found)
    requires IsMoney(lead, sign, cur, g, frac) && FollowsNumber(k) && AllDigits(w) && StripCommas(g) == w
    ensures
      var tok := MoneyToken(lead, sign, cur, g, frac);
      && f == Found(if sign == "" then Value(w) else 0 - Value(w), at + (if sign == "" then 0 else |lead|), at + |tok|)
      && Scan(CurrencyPattern, prev, tok + k, at) == [f] + Scan(CurrencyPattern, LastOr(prev, tok), k, at + |tok|)
  {
    hide *;
    MoneyParts2(lead, sign, cur, g, frac);
    var tok := MoneyToken(lead, sign, cur, g, frac);
    f := Found(if sign == "" then Value(w) else 0 - Value(w), at + (if sign == "" then 0 else |lead|), at + |tok|);
    if sign == "" {
      UnsignedMoneyFound(prev, lead, cur, g, frac, w, k, at);
    } else {
      BareMoney(lead, sign, cur, g, frac);
      var bare := MoneyToken("", sign, cur, g, frac);
      if lead == "" {
        SignedMoneyFound(prev, sign, cur, g, frac, w, k, at);
      } else {
        SignedMoneyFound(Some(' '), sign, cur, g, frac, w, k, at + 1);
        var words := cur + (g + FracStr(frac));
        Shift(sign, words, k);
        Shift(" ", bare, k);
        SpaceBeforeSign(CurrencyPattern, prev, sign, words + k, at);
        SameLast(prev, bare);
      }
    }
  }

  /**
   Money, with or without separators and decimals: in calm prose the gate registers the whole units that
   are written, under their sign, and nothing else.
   */
  lemma MoneyRegisters(before: string, lead: string, sign: string, cur: string, g: string, frac: string, w: string,
                       after: string) returns (f: Found)
    requires IsMoney(lead, sign, cur, g, frac) && AllDigits(w) && StripCommas(g) == w
    requires IsCalm(before) && FollowsNumber(after) && (before != "" ==> lead == " ")
    ensures f.value == if sign == "" then Value(w) else 0 - Value(w)
    ensures Chosen(Candidates(Whole(before, MoneyToken(lead, sign, cur, g, frac), after))) == [f]
  {
    hide *;
    FollowsParts(after);
    MoneyParts2(lead, sign, cur, g, frac);
    var tok := MoneyToken(lead, sign, cur, g, frac);
    var text, prev, at := Whole(before, tok, after), LastOr(None, before), |before|;
    WholeIs(before, tok, after);
    MoneyStarts(before, lead, sign, cur, g, frac, after);
    f := MoneyFound(prev, lead, sign, cur, g, frac, w, after, at);
    Around(CurrencyPattern, before, tok, after, [f]);
    forall q: Pattern | ByUnit(q) ensures Scan(q, None, text, 0) == [] {
      MoneyChars(q, lead, sign, cur, g, frac);
      NoUnits(q, before, tok, after);
    }
    NumberCloses(tok, after);
    var skip := if sign == "" then 0 else |lead|;
    var e := OthersOverlap(PlainPattern, prev, tok, after, at, |tok|, skip, f);
    Around(PlainPattern, before, tok, after, e);
    MoneyOrder(text, f, e);
  }

  lemma MoneyStarts(before: string, lead: string, sign: string, cur: string, g: string, frac: string, after: string)
    requires (before != "" ==> lead == " ") && (lead == "" || lead == " ") && IsGroup(g)
    ensures
      var w := MoneyToken(lead, sign, cur, g, frac);
      && (before != "" ==> NoLetterFirst(w + after)) && |w| > |lead| && (lead != "" ==> w[0] == ' ')
  {
  }

  lemma MoneyOrder(text: string, f: Found, e: seq<Found>)
    requires Scan(CurrencyPattern, None, text, 0) == [f]
    requires forall q: Pattern | ByUnit(q) :: Scan(q, None, text, 0) == []
    requires Scan(PlainPattern, None, text, 0) == e && forall x | x in e :: Overlap(x, f)
    ensures Chosen(Candidates(text)) == [f]
  {
    hide Scan, Overlap, Chosen, Candidates;
    assert PATTERNS[3] == CurrencyPattern && PATTERNS[4] == PlainPattern;
    forall i | 0 <= i < 3 ensures Scan(PATTERNS[i], None, text, 0) == [] { assert ByUnit(PATTERNS[i]); }
    Alone(text, 3, f);
  }

  // ----- plain numbers --------------------------------------------------------------------------

  predicate IsPlain(lead: string, sign: string, g: string, frac: string) {
    IsLead(lead) && IsSignStr(sign) && IsGroup(g) && AllDigits(frac) && EndsInDigit(g, frac)
  }

  function PlainToken(lead: string, sign: string, g: string, frac: string): string {
    lead + (sign + (g + FracStr(frac)))
  }

  lemma PlainTokenChars(q: Pattern, lead: string, sign: string, g: string, frac: string)
    requires ByUnit(q) && IsPlain(lead, sign, g, frac)
    ensures
      var w := PlainToken(lead, sign, g, frac);
      && Unspelt(q, w) && w != "" && IsDigit(w[|w| - 1])
      && forall i | 0 <= i < |w| :: !CurrencyLetter(w[i])
  {
    hide *;
    PlainParts2(lead, sign, g, frac);
    PlainTokenIs(lead, sign, g, frac);
    NumberChars(g, frac);
    EndsWell(lead, sign, g, frac);
    var front, number := lead + sign, g + FracStr(frac);
    Shift(lead, sign, number);
    SignChars(lead, sign);
    TokenChars(q, front, number);
    NoLetters(front, number);
  }

  predicate CurrencyLetter(c: char) { c == '₹' || c == 'R' || c == 'r' || c == 'I' || c == 'i' }

  lemma PlainTokenIs(lead: string, sign: string, g: string, frac: string)
    ensures PlainToken(lead, sign, g, frac) == lead + (sign + (g + FracStr(frac)))
  {
  }

  lemma EndsWell(lead: string, sign: string, g: string, frac: string)
    requires IsPlain(lead, sign, g, frac)
    ensures frac != "" || IsDigit(g[|g| - 1])
  {
  }

  lemma SignChars(lead: string, sign: string)
    requires (lead == "" || lead == " ") && IsSignStr(sign)
    ensures forall i | 0 <= i < |lead + sign| :: !IsDigit((lead + sign)[i]) && !CurrencyLetter((lead + sign)[i])
  {
    assert forall i | 0 <= i < |lead| :: lead[i] == ' ';
    assert forall i | 0 <= i < |sign| :: IsSign(sign[i]);
  }

  lemma NoLetters(front: string, number: string)
    requires forall i | 0 <= i < |front| :: !CurrencyLetter(front[i])
    requires forall i | 0 <= i < |number| :: IsDigit(number[i]) || number[i] in {',', '.'}
    ensures forall i | 0 <= i < |front + number| :: !CurrencyLetter((front + number)[i])
  {
  }

  lemma BareFound(prev: Option<char>, sign: string, g: string, frac: string, w: string, k: string, at: nat)
    requires IsPlain("", sign, g, frac) && FollowsNumber(k) && AllDigits(w) && StripCommas(g) == w && OnItsOwn(prev)
    ensures
      var tok := sign + (g + FracStr(frac));
      && tok != ""
      && Scan(PlainPattern, prev, tok + k, at) ==
         [Found(Value(w), at, at + |tok|)] + Scan(PlainPattern, Some(tok[|tok| - 1]), k, at + |tok|)
  {
    hide *;
    FollowsParts(k);
    PlainParts2("", sign, g, frac);
    var number := g + FracStr(frac);
    var tok := sign + number;
    Shift(g, FracStr(frac), k);
    Shift(sign, number, k);
    PlainTokenAt(prev, sign, g, frac, w, k);
    NotEmptyToken(sign, g, FracStr(frac));
    ScanSome(PlainPattern, prev, tok, k, at, Value(w));
  }

  lemma NotEmptyToken(sign: string, g: string, d: string)
    requires |g| > 0
    ensures sign + (g + d) != "" && |sign + (g + d)| == |sign| + |g| + |d|
  {
  }

  lemma PlainParts2(lead: string, sign: string, g: string, frac: string)
    requires IsPlain(lead, sign, g, frac)
    ensures IsSignStr(sign) && IsGroup(g) && |g| > 0 && AllDigits(frac) && (lead == "" || lead == " ")
    ensures IsPlain("", sign, g, frac)
  {
  }

  lemma SpaceIsNoNumber(prev: Option<char>, r: string, at: nat)
    ensures Scan(PlainPattern, prev, " " + r, at) == Scan(PlainPattern, Some(' '), r, at + 1)
  {
    assert [' '] + r == " " + r;
    NoPlainSpace(prev, r);
    ScanNone(PlainPattern, prev, ' ', r, at);
  }

  lemma NoPlainSpace(prev: Option<char>, r: string)
    ensures At(PlainPattern, prev, " " + r) == None
  {
    assert (" " + r)[0] == ' ';
  }

  /**
   A plain number: in calm prose the gate registers the whole units that are written, without their sign,
   and nothing else.
   */
  lemma PlainRegisters(before: string, lead: string, sign: string, g: string, frac: string, w: string, after: string)
    returns (f: Found)
    requires IsPlain(lead, sign, g, frac) && AllDigits(w) && StripCommas(g) == w
    requires IsCalm(before) && FollowsNumber(after) && (before != "" ==> lead == " ")
    ensures f.value == Value(w)
    ensures Chosen(Candidates(Whole(before, PlainToken(lead, sign, g, frac), after))) == [f]
  {
    hide *;
    FollowsParts(after);
    PlainParts2(lead, sign, g, frac);
    var tok := PlainToken(lead, sign, g, frac);
    var text, prev, at := Whole(before, tok, after), LastOr(None, before), |before|;
    WholeIs(before, tok, after);
    PlainStarts(before, lead, sign, g, frac, after);
    var bare := sign + (g + FracStr(frac));
    f := Found(Value(w), at + |lead|, at + |tok|);
    if lead == "" {
      Nothing(bare);
      BareFound(prev, sign, g, frac, w, after, at);
    } else {
      SpaceIsAlone();
      BareFound(Some(' '), sign, g, frac, w, after, at + 1);
      Shift(" ", bare, after);
      SpaceIsNoNumber(prev, bare + after, at);
      SameLast(prev, bare);
    }
    LastIs(prev, tok);
    LastIs(Some(' '), bare);
    Around(PlainPattern, before, tok, after, [f]);
    forall q: Pattern | ByUnit(q) ensures Scan(q, None, text, 0) == [] {
      PlainTokenChars(q, lead, sign, g, frac);
      NoUnits(q, before, tok, after);
    }
    LakhIsByUnit();
    PlainTokenChars(LakhPattern, lead, sign, g, frac);
    DigitNoSpace(tok[|tok| - 1]);
    NoCurrencyLetters(tok);
    MoneyNever(tok, after);
    NeverFinds(CurrencyPattern, prev, tok, after, at);
    NothingMore(CurrencyPattern, LastOr(prev, tok), after, at + |tok|);
    Around(CurrencyPattern, before, tok, after, []);
    PlainOrder(text, f);
  }

  lemma LakhIsByUnit()
    ensures ByUnit(LakhPattern)
  {
  }

  lemma NoCurrencyLetters(w: string)
    requires forall i | 0 <= i < |w| :: !CurrencyLetter(w[i])
    ensures forall i | 0 <= i < |w| :: w[i] !in {'₹', 'R', 'r', 'I', 'i'}
  {
  }

  lemma SpaceIsAlone()
    ensures OnItsOwn(Some(' ')) && OnItsOwn(None)
  {
  }

  lemma PlainStarts(before: string, lead: string, sign: string, g: string, frac: string, after: string)
    requires (before != "" ==> lead == " ") && (lead == "" || lead == " ") && |g| > 0
    ensures
      var w := PlainToken(lead, sign, g, frac);
      && (before != "" ==> NoLetterFirst(w + after)) && w == lead + (sign + (g + FracStr(frac))) && w != ""
    ensures lead == "" ==> OnItsOwn(LastOr(None, before))
  {
  }

  lemma PlainOrder(text: string, f: Found)
    requires Scan(PlainPattern, None, text, 0) == [f] && Scan(CurrencyPattern, None, text, 0) == []
    requires forall q: Pattern | ByUnit(q) :: Scan(q, None, text, 0) == []
    ensures Chosen(Candidates(text)) == [f]
  {
    hide Scan, Overlap, Chosen, Candidates;
    assert PATTERNS[3] == CurrencyPattern && PATTERNS[4] == PlainPattern;
    forall i | 0 <= i < 4 ensures Scan(PATTERNS[i], None, text, 0) == [] {
      if i < 3 { assert ByUnit(PATTERNS[i]); }
    }
    Alone(text, 4, f);
  }
}
