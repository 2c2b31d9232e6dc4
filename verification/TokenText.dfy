/**
 A calm text around one written number: the gate registers that number, and nothing else.
 */
module TokenText {
  import opened Options
  import opened Digits
  import opened MoneyFormat
  import opened NumberPatterns
  import opened NumberExtraction
  import opened FigureScan
  import opened TextScan
  import opened PieceScan
  import opened TokenScan

  /** Nothing, or prose without digits, currencies and approximations that ends in neither space nor sign. */
  predicate IsCalm(s: string) { s == "" || (Quiet(s) && Ends(s)) }

  /** Calm prose goes on with neither letter, digit, separator nor unit. */
  predicate FollowsNumber(s: string) { IsCalm(s) && NoLetterFirst(s) && (s == "" || s[0] != ',') && !UnitFollows(s) }

  lemma CalmHasNoDigit(s: string)
    requires IsCalm(s)
    ensures forall i | 0 <= i < |s| :: !IsDigit(s[i])
  {
    QuietEverywhere(s);
    hide Quiet;
    forall i: nat | i < |s| ensures !IsDigit(s[i]) { assert QuietAt(s, i); }
  }

  lemma CalmGoesOn(s: string)
    requires IsCalm(s)
    ensures NoMoreNumber(s) && (s == "" || s[0] != ',' ==> NoMoreGroup(s))
  {
    CalmHasNoDigit(s);
    hide Quiet, Ends;
  }

  // ----- hits in one stretch of the text --------------------------------------------------------

  /** m is a match that begins inside w, which stands at at in front of k. */
  ghost predicate IsHit(p: Pattern, w: string, k: string, at: nat, m: Found) {
    m.end > m.start &&
    exists i: nat, prev ::
      i < |w| && At(p, prev, w[i..] + k) == Some(Hit(m.value, m.end - m.start)) && m.start == at + i
  }

  /** Matches that begin inside w end inside it. */
  ghost predicate Stays(p: Pattern, w: string, k: string) {
    forall i: nat, prev | i < |w| && At(p, prev, w[i..] + k).Some? :: At(p, prev, w[i..] + k).value.length <= |w| - i
  }

  lemma StaysFrom(p: Pattern, w: string, k: string, n: nat)
    requires Stays(p, w, k) && n <= |w|
    ensures Stays(p, w[n..], k)
  {
    hide At;
    forall i: nat, prev | i < |w[n..]| && At(p, prev, w[n..][i..] + k).Some?
      ensures At(p, prev, w[n..][i..] + k).value.length <= |w[n..]| - i
    {
      assert w[n..][i..] == w[n + i..];
    }
  }

  lemma HitFrom(p: Pattern, w: string, k: string, at: nat, n: nat, m: Found)
    requires n <= |w| && IsHit(p, w[n..], k, at + n, m)
    ensures IsHit(p, w, k, at, m)
  {
    hide At;
    var i: nat, prev :|
      i < |w[n..]| && At(p, prev, w[n..][i..] + k) == Some(Hit(m.value, m.end - m.start)) && m.start == at + n + i;
    assert w[n..][i..] == w[n + i..];
  }

  /** The scan passes w, collecting such matches, and goes on behind it. */
  lemma {:induction false} ScanInside(p: Pattern, prev: Option<char>, w: string, k: string, at: nat)
    returns (ms: seq<Found>)
    requires Stays(p, w, k)
    ensures Scan(p, prev, w + k, at) == ms + Scan(p, LastOr(prev, w), k, at + |w|)
    ensures forall m | m in ms :: IsHit(p, w, k, at, m) && m.end <= at + |w|
    decreases |w|
  {
    hide *;
    if w == "" {
      ms := [];
      NothingPassed(p, prev, k, at);
    } else {
      StaysNow(p, prev, w, k);
      match At(p, prev, w + k)
      case None =>
        HeadAndTail(w, k);
        ScanNone(p, prev, w[0], w[1..] + k, at);
        StaysFrom(p, w, k, 1);
        ms := ScanInside(p, Some(w[0]), w[1..], k, at + 1);
        LastOfTail(prev, w, 1);
        forall m | m in ms ensures IsHit(p, w, k, at, m) { HitFrom(p, w, k, at, 1, m); }
      case Some(h) =>
        var n := h.length;
        SplitAt(w, k, n);
        ScanSome(p, prev, w[..n], w[n..] + k, at, h.number);
        StaysFrom(p, w, k, n);
        var more := ScanInside(p, Some(w[..n][n - 1]), w[n..], k, at + n);
        LastOfTail(prev, w, n);
        ms := [Found(h.number, at, at + n)] + more;
        FirstIsHit(p, prev, w, k, at);
        forall m | m in ms ensures IsHit(p, w, k, at, m) && m.end <= at + |w| {
          if m in more { HitFrom(p, w, k, at, n, m); }
        }
        Regrouped(Found(h.number, at, at + n), more, Scan(p, LastOr(prev, w), k, at + |w|));
    }
  }

  function LastOr(prev: Option<char>, w: string): Option<char> { if w == "" then prev else Some(w[|w| - 1]) }

  lemma NothingPassed(p: Pattern, prev: Option<char>, k: string, at: nat)
    ensures Scan(p, prev, "" + k, at) == [] + Scan(p, LastOr(prev, ""), k, at + 0)
  {
    assert "" + k == k;
    hide Scan;
  }

  lemma StaysNow(p: Pattern, prev: Option<char>, w: string, k: string)
    requires w != "" && Stays(p, w, k)
    ensures At(p, prev, w + k).Some? ==> At(p, prev, w + k).value.length <= |w|
  {
    hide At;
    assert w[0..] == w;
  }

  lemma LastOfTail(prev: Option<char>, w: string, n: nat)
    requires 0 < n <= |w|
    ensures LastOr(Some(w[..n][n - 1]), w[n..]) == LastOr(prev, w) && |w[n..]| == |w| - n && w[..1][0] == w[0]
  {
  }

  lemma SplitAt(w: string, k: string, n: nat)
    requires 0 < n <= |w|
    ensures w + k == w[..n] + (w[n..] + k) && w[..n] != "" && |w[..n]| == n
  {
  }

  lemma FirstIsHit(p: Pattern, prev: Option<char>, w: string, k: string, at: nat)
    requires w != "" && At(p, prev, w + k).Some?
    ensures var h := At(p, prev, w + k).value; IsHit(p, w, k, at, Found(h.number, at, at + h.length))
  {
    hide At;
    assert w[0..] == w;
  }

  lemma Regrouped(f: Found, more: seq<Found>, rest: seq<Found>)
    ensures [f] + (more + rest) == ([f] + more) + rest
  {
  }

  // ----- three patterns that need a unit --------------------------------------------------------

  predicate UnitChar(p: Pattern, c: char) {
    match p
    case LakhPattern => c == 'L' || c == 'l'
    case CrorePattern => c == 'C' || c == 'c'
    case PercentPattern => c == '%'
    case _ => false
  }

  lemma NumberEndsInDigit(s: string)
    requires NumberRun(s) > 0
    ensures IsDigit(s[NumberRun(s) - 1])
  {
    var n := DigitRun(s);
    var f := FractionRun(s, n);
    if f > 0 { assert s[n + 1..][f - 1] == s[n + f]; }
  }

  lemma UnitBegins(p: Pattern, s: string)
    requires UnitLength(p, s) > 0 && !p.CurrencyPattern? && !p.PlainPattern?
    ensures s != "" && UnitChar(p, s[0])
  {
  }

  /** A match of such a pattern holds a digit, spaces perhaps, and the beginning of its unit. */
  lemma UnitNeedsDigit(p: Pattern, s: string) returns (d: nat, j: nat)
    requires UnitAt(p, s).Some? && !p.CurrencyPattern? && !p.PlainPattern?
    ensures d < j < |s| && IsDigit(s[d]) && UnitChar(p, s[j]) && forall i | d < i < j :: IsSpace(s[i])
  {
    var a := if p.PercentPattern? then SignRun(s) + SpaceRun(s[SignRun(s)..]) else PrefixRun(s);
    UnitAtParts(p, s, a);
    hide *;
    d, j := UnitPlaces(p, s, a);
  }

  lemma UnitPlaces(p: Pattern, s: string, a: nat) returns (d: nat, j: nat)
    requires !p.CurrencyPattern? && !p.PlainPattern? && a <= |s| && NumberRun(s[a..]) > 0
    requires
      var n := NumberRun(s[a..]);
      UnitLength(p, s[a + n + SpaceRun(s[a + n..])..]) > 0
    ensures d < j < |s| && IsDigit(s[d]) && UnitChar(p, s[j]) && forall i | d < i < j :: IsSpace(s[i])
  {
    hide NumberRun, UnitLength, SpaceRun, UnitChar;
    var n := NumberRun(s[a..]);
    NumberEndsInDigit(s[a..]);
    d := a + n - 1;
    assert s[a..][n - 1] == s[d];
    j := a + n + SpaceRun(s[a + n..]);
    UnitBegins(p, s[j..]);
    assert s[j..][0] == s[j];
    forall i | d < i < j ensures IsSpace(s[i]) { assert s[a + n..][i - a - n] == s[i]; }
  }

  /** No unit of p begins in w behind a digit. */
  predicate Unspelt(p: Pattern, w: string) {
    forall d: nat, j: nat | d < j < |w| && IsDigit(w[d]) :: !UnitChar(p, w[j])
  }

  lemma UnspeltFrom(p: Pattern, w: string, n: nat)
    requires Unspelt(p, w) && n <= |w|
    ensures Unspelt(p, w[n..])
  {
  }

  /** No unit of p in w behind a digit, and none behind w when it ends in one. */
  lemma UnitNever(p: Pattern, w: string, k: string)
    requires !p.CurrencyPattern? && !p.PlainPattern? && w != "" && !IsSpace(w[|w| - 1]) && IsCalm(k)
    requires Unspelt(p, w) && (IsDigit(w[|w| - 1]) ==> !UnitFollows(k))
    ensures forall i: nat, prev | i < |w| :: At(p, prev, w[i..] + k) == None
  {
    hide UnitAt, Quiet, Ends;
    CalmHasNoDigit(k);
    forall i: nat | i < |w| ensures UnitAt(p, w[i..] + k) == None {
      if UnitAt(p, w[i..] + k).Some? {
        var d, j := UnitNeedsDigit(p, w[i..] + k);
        UnspeltFrom(p, w, i);
        UnitTooFar(p, w[i..], k, d, j);
      }
    }
  }

  lemma UnitTooFar(p: Pattern, w: string, k: string, d: nat, j: nat)
    requires w != "" && !IsSpace(w[|w| - 1]) && (forall i | 0 <= i < |k| :: !IsDigit(k[i]))
    requires d < j < |w + k| && IsDigit((w + k)[d]) && UnitChar(p, (w + k)[j])
    requires forall i | d < i < j :: IsSpace((w + k)[i])
    requires Unspelt(p, w)
    ensures IsDigit(w[|w| - 1]) && UnitFollows(k)
  {
    var s, e := w + k, |w| - 1;
    assert s[e] == w[e] && forall i | 0 <= i < |w| :: s[i] == w[i];
    assert j > e && d <= e;
    DigitIsLast(s, d, e, j);
    assert forall i | 0 <= i < j - |w| :: k[i] == s[|w| + i];
    assert k[j - |w|] == s[j];
    SpacesEnd(k, j - |w|);
  }

  lemma DigitIsLast(s: string, d: nat, e: int, j: nat)
    requires d <= e < j < |s| && !IsSpace(s[e]) && forall i | d < i < j :: IsSpace(s[i])
    ensures d == e
  {
  }

  lemma SpacesEnd(s: string, n: nat)
    requires n < |s| && (forall i | 0 <= i < n :: IsSpace(s[i])) && !IsSpace(s[n])
    ensures SpaceRun(s) == n
  {
  }

  lemma NeverFinds(p: Pattern, prev: Option<char>, w: string, k: string, at: nat)
    requires forall i: nat, pr | i < |w| :: At(p, pr, w[i..] + k) == None
    ensures Scan(p, prev, w + k, at) == Scan(p, LastOr(prev, w), k, at + |w|)
  {
    hide *;
    NoneStays(p, w, k);
    var ms := ScanInside(p, prev, w, k, at);
    if ms != [] { NoHit(p, w, k, at, ms[0]); }
    assert [] + Scan(p, LastOr(prev, w), k, at + |w|) == Scan(p, LastOr(prev, w), k, at + |w|);
  }

  lemma NoneStays(p: Pattern, w: string, k: string)
    requires forall i: nat, pr | i < |w| :: At(p, pr, w[i..] + k) == None
    ensures Stays(p, w, k)
  {
    hide At;
  }

  lemma NoHit(p: Pattern, w: string, k: string, at: nat, m: Found)
    requires forall i: nat, pr | i < |w| :: At(p, pr, w[i..] + k) == None
    ensures !IsHit(p, w, k, at, m)
  {
    hide At;
  }

  // ----- the two patterns without a unit --------------------------------------------------------

  /** Behind place n there is no more of a number. */
  predicate Closes(s: string, n: nat) {
    n <= |s| && NoMoreGroup(s[n..]) && forall i | n <= i < |s| :: !IsDigit(s[i])
  }

  lemma GroupBound(r: string, n: nat)
    requires Closes(r, n) && StartsWithDigit(r)
    ensures GroupRun(r) + Pointed(FractionRun(r, GroupRun(r))) <= n
  {
    var g := GroupRun(r);
    assert n < |r| ==> r[n..][0] == r[n];
    assert g <= n;
    if FractionRun(r, g) > 0 {
      var f := DigitRun(r[g + 1..]);
      assert IsDigit(r[g + 1..][f - 1]) && r[g + 1..][f - 1] == r[g + f];
    }
  }

  lemma ClosesBehind(s: string, n: nat, a: nat)
    requires Closes(s, n) && a < |s| && IsDigit(s[a])
    ensures a < n && Closes(s[a..], n - a) && StartsWithDigit(s[a..])
  {
    var r := s[a..];
    assert r[n - a..] == s[n..] && r[0] == s[a];
  }

  lemma PlainBound(prev: Option<char>, s: string, n: nat)
    requires Closes(s, n) && PlainAt(prev, s).Some?
    ensures PlainAt(prev, s).value.length <= n && (IsDigit(s[0]) || IsSign(s[0]))
  {
    PlainChars(prev, s);
    var a := SignRun(s);
    ClosesBehind(s, n, a);
    GroupBound(s[a..], n - a);
    hide GroupRun, FractionRun, WithoutCommas, Value, Closes;
  }

  lemma MoneyBound(s: string, n: nat)
    requires Closes(s, n) && CurrencyAt(s).Some?
    ensures 2 <= CurrencyAt(s).value.length <= n
  {
    var a := SignRun(s) + SpaceRun(s[SignRun(s)..]);
    var c := CurrencyRun(s[a..], true);
    assert s[a + c..][0] == s[a + c];
    ClosesBehind(s, n, a + c);
    GroupBound(s[a + c..], n - a - c);
    hide CurrencyRun, SpaceRun, SignRun, FractionRun, WithoutCommas, Value, Closes;
  }

  /** w closes at b: what is behind that place, k included, is no more of a number. */
  lemma ClosesFrom(w: string, k: string, b: nat, i: nat)
    requires b <= |w| && Closes(w + k, b) && i <= b
    ensures Closes(w[i..] + k, b - i)
  {
    assert w[i..] + k == (w + k)[i..];
    assert (w + k)[i..][b - i..] == (w + k)[b..];
  }

  /** Money and plain numbers in w stay in front of place b, which is its end or its last character. */
  lemma MoneyStays(w: string, k: string, b: nat)
    requires b <= |w| <= b + 1 && Closes(w + k, b)
    ensures Stays(CurrencyPattern, w, k)
    ensures forall i: nat, prev | i < |w| && At(CurrencyPattern, prev, w[i..] + k).Some? ::
              At(CurrencyPattern, prev, w[i..] + k).value.length >= 2
  {
    hide CurrencyAt, Closes;
    forall i: nat, prev | i < |w| && At(CurrencyPattern, prev, w[i..] + k).Some?
      ensures 2 <= At(CurrencyPattern, prev, w[i..] + k).value.length <= |w| - i
    {
      ClosesFrom(w, k, b, i);
      AtIsCurrencyAt(prev, w[i..] + k);
      MoneyBound(w[i..] + k, b - i);
    }
  }

  lemma PlainStays(w: string, k: string, b: nat)
    requires b <= |w| <= b + 1 && Closes(w + k, b)
    ensures Stays(PlainPattern, w, k)
    ensures forall i: nat, prev | i < |w| && At(PlainPattern, prev, w[i..] + k).Some? :: IsDigit(w[i]) || IsSign(w[i])
  {
    hide PlainAt, Closes;
    forall i: nat, prev | i < |w| && At(PlainPattern, prev, w[i..] + k).Some?
      ensures At(PlainPattern, prev, w[i..] + k).value.length <= |w| - i && (IsDigit(w[i]) || IsSign(w[i]))
    {
      ClosesFrom(w, k, b, i);
      PlainBound(prev, w[i..] + k, b - i);
      assert (w[i..] + k)[0] == w[i];
    }
  }

  /** What these two find in w overlaps a find that ends with w and begins with it, or behind a space in front. */
  lemma OthersOverlap(p: Pattern, prev: Option<char>, w: string, k: string, at: nat, b: nat, skip: nat, f: Found)
    returns (ms: seq<Found>)
    requires p.CurrencyPattern? || p.PlainPattern?
    requires b <= |w| <= b + 1 && Closes(w + k, b) && skip <= 1 && skip < |w| && (skip == 1 ==> w[0] == ' ')
    requires f.start == at + skip && f.end == at + |w|
    ensures Scan(p, prev, w + k, at) == ms + Scan(p, LastOr(prev, w), k, at + |w|)
    ensures forall m | m in ms :: Overlap(m, f)
  {
    if p.CurrencyPattern? { MoneyStays(w, k, b); } else { PlainStays(w, k, b); }
    ms := ScanInside(p, prev, w, k, at);
    hide At, Scan, Stays, Closes;
    forall m | m in ms ensures Overlap(m, f) {
      var i: nat, pr :| i < |w| && At(p, pr, w[i..] + k) == Some(Hit(m.value, m.end - m.start)) && m.start == at + i;
      assert At(p, pr, w[i..] + k).Some?;
    }
  }

  /** Where no currency is written none is found. */
  lemma MoneyNever(w: string, k: string)
    requires w != "" && !IsSpace(w[|w| - 1]) && !IsSign(w[|w| - 1])
    requires forall i | 0 <= i < |w| :: w[i] !in {'₹', 'R', 'r', 'I', 'i'}
    ensures forall i: nat, prev | i < |w| :: At(CurrencyPattern, prev, w[i..] + k) == None
  {
    hide At;
    forall i: nat, prev | i < |w| ensures At(CurrencyPattern, prev, w[i..] + k) == None {
      NoMoneyHere(w[i..], k);
      AtIsCurrencyAt(prev, w[i..] + k);
    }
  }

  lemma NoMoneyHere(w: string, k: string)
    requires w != "" && !IsSpace(w[|w| - 1]) && !IsSign(w[|w| - 1])
    requires forall i | 0 <= i < |w| :: w[i] !in {'₹', 'R', 'r', 'I', 'i'}
    ensures CurrencyAt(w + k) == None
  {
    SpacesEndInside(w, k);
    var s := w + k;
    var a := SignRun(s) + SpaceRun(s[SignRun(s)..]);
    assert s[a..][0] == w[a];
    NoCurrencyHere(s[a..]);
    hide CurrencyRun, SpaceRun, SignRun, GroupRun, FractionRun;
  }

  lemma NoCurrencyHere(s: string)
    requires s != "" && s[0] !in {'₹', 'R', 'r', 'I', 'i'}
    ensures CurrencyRun(s, true) == 0
  {
  }

  // ----- the whole text -------------------------------------------------------------------------

  /** The scan of the whole is what it finds in w: calm prose in front and behind adds nothing. */
  lemma Around(p: Pattern, before: string, w: string, after: string, ms: seq<Found>)
    requires IsCalm(before) && IsCalm(after) && (before != "" ==> NoLetterFirst(w + after)) && NoLetterFirst(after)
    requires Scan(p, LastOr(None, before), w + after, |before|) ==
             ms + Scan(p, LastOr(LastOr(None, before), w), after, |before| + |w|)
    ensures Scan(p, None, before + (w + after), 0) == ms
  {
    hide Scan, Quiet, Ends;
    if before != "" { SkipsProse(p, None, before, w + after, 0); } else { assert before + (w + after) == w + after; }
    NothingBehind(p, LastOr(LastOr(None, before), w), after, |before| + |w|);
  }

  lemma NothingBehind(p: Pattern, prev: Option<char>, after: string, at: nat)
    requires IsCalm(after)
    ensures Scan(p, prev, after, at) == []
  {
    if after != "" {
      SkipsProse(p, prev, after, "", at);
      assert after + "" == after;
    }
  }

  /** One find, nothing for the patterns before its own, and for those behind only what overlaps it. */
  lemma Alone(text: string, m: nat, f: Found)
    requires m < |PATTERNS| && Scan(PATTERNS[m], None, text, 0) == [f]
    requires forall i | 0 <= i < m :: Scan(PATTERNS[i], None, text, 0) == []
    requires forall i | m < i < |PATTERNS| :: forall x | x in Scan(PATTERNS[i], None, text, 0) :: Overlap(x, f)
    ensures Chosen(Candidates(text)) == [f]
  {
    hide Scan, Overlap, Chosen, Candidates;
    FivePasses(text);
    var a, b := Scan(LakhPattern, None, text, 0), Scan(CrorePattern, None, text, 0);
    var c := Scan(PercentPattern, None, text, 0);
    var d, e := Scan(CurrencyPattern, None, text, 0), Scan(PlainPattern, None, text, 0);
    assert a == Scan(PATTERNS[0], None, text, 0) && b == Scan(PATTERNS[1], None, text, 0);
    assert c == Scan(PATTERNS[2], None, text, 0) && d == Scan(PATTERNS[3], None, text, 0);
    assert e == Scan(PATTERNS[4], None, text, 0);
    var rest :=
      match m
      case 0 => b + (c + (d + e))
      case 1 => c + (d + e)
      case 2 => d + e
      case 3 => e
      case _ => [];
    assert Candidates(text) == [f] + rest;
    forall x | x in rest ensures Covered(x, [f]) { assert Overlap(x, [f][0]); }
    OneIsChosen(f);
    CoveredAreSkipped([f], rest);
  }

  lemma OneIsChosen(f: Found)
    ensures Chosen([f]) == [f]
  {
    assert [f][..0] == [];
  }
}
