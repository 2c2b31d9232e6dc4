/**
 The order-value distribution: most frequent rounded value, and the 60-bucket histogram with its
 densities in basis points.
 */
module Distributions {
  import opened Arithmetic
  import opened Cohorts

  // ----- the mode -------------------------------------------------------------------------------

  /** To whole rupees, in paise. */
  function RoundRupee(v: int): int { TruncDiv(v + 50, 100) * 100 }

  /** Nearest whole rupee, halves up, just when the value is not a loss of over half a rupee, or ends in 50. */
  lemma RoundsToNearestExactly(v: int)
    ensures RoundRupee(v) % 100 == 0
    ensures RoundRupee(v) - 50 <= v <= RoundRupee(v) + 50 <==> v >= -50 || v % 100 == 50
    ensures v >= -50 ==> v < RoundRupee(v) + 50
    ensures v < -50 ==> 50 <= RoundRupee(v) - v < 150
  {
  }

  function Rounded(values: seq<int>): seq<int> {
    if values == [] then [] else Rounded(values[..|values| - 1]) + [RoundRupee(values[|values| - 1])]
  }

  /** m is the smallest of the most frequent elements. */
  ghost predicate IsMode(ms: multiset<int>, m: int) {
    m in ms && forall x | x in ms :: ms[x] < ms[m] || (ms[x] == ms[m] && m <= x)
  }

  lemma ModeIsUnique(ms: multiset<int>, m1: int, m2: int)
    requires IsMode(ms, m1) && IsMode(ms, m2)
    ensures m1 == m2
  {
    assert ms[m1] <= ms[m2] && ms[m2] <= ms[m1];
  }

  /** rounded is Rounded(values), computed by the map in _modeMu. */
  method RoundAll(values: seq<int>) returns (rounded: seq<int>)
    ensures rounded == Rounded(values)
  {
    rounded := [];
    for i := 0 to |values|
      invariant rounded == Rounded(values[..i])
    {
      assert values[..i + 1][..i] == values[..i];
      rounded := rounded + [RoundRupee(values[i])];
    }
    assert values[..|values|] == values;
  }

  /** The map of counts, and the order its keys were first set in. */
  method Frequencies(s: seq<int>) returns (freq: map<int, nat>, order: seq<int>)
    ensures forall x :: x in freq <==> x in multiset(s)
    ensures forall x | x in freq :: freq[x] == multiset(s)[x]
    ensures forall x :: x in order <==> x in freq
  {
    freq, order := map[], [];
    for i := 0 to |s|
      invariant forall x :: x in freq <==> x in multiset(s[..i])
      invariant forall x | x in freq :: freq[x] == multiset(s[..i])[x]
      invariant forall x :: x in order <==> x in freq
    {
      assert s[..i + 1] == s[..i] + [s[i]];
      if s[i] !in freq { order := order + [s[i]]; }
      freq := freq[s[i] := (if s[i] in freq then freq[s[i]] else 0) + 1];
    }
    assert s[..|s|] == s;
  }

  /** mode and count are the winner among the keys seen, or the start values before any. */
  ghost predicate Winner(freq: map<int, nat>, seen: seq<int>, first: int, mode: int, count: nat) {
    && (forall x | x in seen :: x in freq)
    && (if seen == [] then count == 0 && mode == first else mode in seen && count == freq[mode])
    && forall x | x in seen :: freq[x] < count || (freq[x] == count && mode <= x)
  }

  lemma WinnerStep(freq: map<int, nat>, seen: seq<int>, first: int, mode: int, count: nat, val: int)
    requires Winner(freq, seen, first, mode, count) && val in freq && freq[val] > 0
    ensures
      if freq[val] > count || (freq[val] == count && val < mode)
      then Winner(freq, seen + [val], first, val, freq[val])
      else Winner(freq, seen + [val], first, mode, count)
  {
  }

  /** The walk over the map. */
  method MostFrequent(freq: map<int, nat>, order: seq<int>, first: int) returns (mode: int)
    requires order != [] && forall x | x in order :: x in freq && freq[x] > 0
    ensures mode in order && forall x | x in order :: freq[x] < freq[mode] || (freq[x] == freq[mode] && mode <= x)
  {
    mode := first;
    var bestCount: nat := 0;
    for i := 0 to |order|
      invariant Winner(freq, order[..i], first, mode, bestCount)
    {
      var val := order[i];
      var count := freq[val];
      WinnerStep(freq, order[..i], first, mode, bestCount, val);
      assert order[..i + 1] == order[..i] + [val];
      if count > bestCount || (count == bestCount && val < mode) {
        mode, bestCount := val, count;
      }
    }
    assert order[..|order|] == order;
  }

  /** The smallest most frequent rounded value. */
  method ModeMu(values: seq<int>) returns (mode: int)
    ensures values == [] ==> mode == 0
    ensures values != [] ==> IsMode(multiset(Rounded(values)), mode)
  {
    if values == [] { return 0; }
    var rounded := RoundAll(values);
    var freq, order := Frequencies(rounded);
    assert rounded[0] in multiset(rounded);
    mode := MostFrequent(freq, order, rounded[0]);
  }

  // ----- independence of order ------------------------------------------------------------------

  lemma {:induction false} RoundedAppend(a: seq<int>, b: seq<int>)
    ensures Rounded(a + b) == Rounded(a) + Rounded(b)
    decreases |b|
  {
    if b == [] {
      assert a + b == a;
    } else {
      var n := |b| - 1;
      RoundedAppend(a, b[..n]);
      assert (a + b)[..|a| + n] == a + b[..n];
    }
  }

  lemma RoundedOne(v: int)
    ensures Rounded([v]) == [RoundRupee(v)]
  {
  }

  lemma MoveToEnd(a: seq<int>, v: int, b: seq<int>)
    ensures multiset(a + [v] + b) == multiset(a + b + [v])
    ensures multiset(Rounded(a + [v] + b)) == multiset(Rounded(a + b)) + multiset{RoundRupee(v)}
  {
    RoundedAppend(a + [v], b);
    RoundedAppend(a, [v]);
    RoundedAppend(a, b);
    RoundedOne(v);
  }

  /** Takes one v out of s. */
  lemma TakeOut(s: seq<int>, v: int) returns (rest: seq<int>)
    requires v in multiset(s)
    ensures multiset(s) == multiset(rest) + multiset{v} && |rest| < |s|
    ensures multiset(Rounded(s)) == multiset(Rounded(rest)) + multiset{RoundRupee(v)}
  {
    hide Rounded, RoundRupee;
    var i: nat :| i < |s| && s[i] == v;
    rest := s[..i] + s[i + 1..];
    assert s == s[..i] + [v] + s[i + 1..];
    MoveToEnd(s[..i], v, s[i + 1..]);
  }

  /** Rounding turns permutations into permutations. */
  lemma {:induction false} RoundedPermutes(s: seq<int>, t: seq<int>)
    requires multiset(s) == multiset(t)
    ensures multiset(Rounded(s)) == multiset(Rounded(t))
    decreases |s|
  {
    assert |multiset(s)| == |s| && |multiset(t)| == |t|;
    if s != [] {
      hide Rounded, RoundRupee;
      var restS := TakeOut(s, s[0]);
      var restT := TakeOut(t, s[0]);
      assert multiset(restS) == multiset(s) - multiset{s[0]} == multiset(restT);
      RoundedPermutes(restS, restT);
    }
  }

  /** The mode does not depend on the order the values come in. */
  lemma ModeIgnoresOrder(s: seq<int>, t: seq<int>, m1: int, m2: int)
    requires multiset(s) == multiset(t)
    requires IsMode(multiset(Rounded(s)), m1) && IsMode(multiset(Rounded(t)), m2)
    ensures m1 == m2
  {
    RoundedPermutes(s, t);
    ModeIsUnique(multiset(Rounded(s)), m1, m2);
  }

  // ----- the histogram --------------------------------------------------------------------------

  function Width(lo: int, hi: int): (width: int)
    ensures width > 0
  {
    var range := if hi - lo > 0 then hi - lo else 1;
    if TruncDiv(range, 60) > 0 then TruncDiv(range, 60) else 1
  }

  function Bucket(v: int, lo: int, width: int): int
    requires width > 0
  {
    var idx := TruncDiv(v - lo, width);
    if idx < 0 then 0 else if idx >= 60 then 59 else idx
  }

  function CountIn(values: seq<int>, lo: int, width: int, i: int): nat
    requires width > 0
  {
    if values == [] then 0
    else
      CountIn(values[..|values| - 1], lo, width, i) +
      if Bucket(values[|values| - 1], lo, width) == i then 1 else 0
  }

  function Sum(s: seq<int>): int {
    if s == [] then 0 else Sum(s[..|s| - 1]) + s[|s| - 1]
  }

  method Extremes(values: seq<int>) returns (lo: int, hi: int)
    requires values != []
    ensures lo in values && hi in values
    ensures forall i :: 0 <= i < |values| ==> lo <= values[i] <= hi
  {
    lo, hi := values[0], values[0];
    for i := 0 to |values|
      invariant lo in values && hi in values
      invariant forall j :: 0 <= j < i ==> lo <= values[j] <= hi
      invariant lo <= values[0] <= hi
    {
      if values[i] < lo { lo := values[i]; }
      if values[i] > hi { hi := values[i]; }
    }
  }

  lemma {:induction false} SumUpdate(s: seq<int>, i: nat, x: int)
    requires i < |s|
    ensures Sum(s[i := x]) == Sum(s) - s[i] + x
    decreases |s|
  {
    var n := |s| - 1;
    if i < n {
      assert s[i := x][..n] == s[..n][i := x];
      SumUpdate(s[..n], i, x);
    } else {
      assert s[i := x][..n] == s[..n];
    }
  }

  lemma {:induction false} SumZeros(s: seq<int>)
    requires forall i :: 0 <= i < |s| ==> s[i] == 0
    ensures Sum(s) == 0
  {
    if s != [] { SumZeros(s[..|s| - 1]); }
  }

  lemma CountNext(values: seq<int>, i: nat, lo: int, width: int, b: int)
    requires i < |values| && width > 0
    ensures CountIn(values[..i + 1], lo, width, b) ==
            CountIn(values[..i], lo, width, b) + if Bucket(values[i], lo, width) == b then 1 else 0
  {
    hide Bucket;
    assert values[..i + 1][..i] == values[..i];
  }

  /** The loop over counts: each bucket counts its values, and every value is in one. */
  method CountBuckets(values: seq<int>, lo: int, width: int) returns (counts: array<int>)
    requires width > 0
    ensures fresh(counts) && counts.Length == 60
    ensures forall b :: 0 <= b < 60 ==> counts[b] == CountIn(values, lo, width, b)
    ensures Sum(counts[..]) == |values|
  {
    counts := new int[60](_ => 0);
    SumZeros(counts[..]);
    hide Sum, CountIn, TruncDiv;
    NoneCounted(lo, width);
    for i := 0 to |values|
      invariant forall b :: 0 <= b < 60 ==> counts[b] == CountIn(values[..i], lo, width, b)
      invariant Sum(counts[..]) == i
    {
      var idx := TruncDiv(values[i] - lo, width);
      if idx < 0 { idx := 0; }
      if idx >= 60 { idx := 59; }
      SumUpdate(counts[..], idx, counts[idx] + 1);
      ghost var updated := counts[..][idx := counts[idx] + 1];
      counts[idx] := counts[idx] + 1;
      assert counts[..] == updated;
      forall b | 0 <= b < 60 { CountNext(values, i, lo, width, b); }
    }
    assert values[..|values|] == values;
  }

  lemma NoneCounted(lo: int, width: int)
    requires width > 0
    ensures forall b :: CountIn([], lo, width, b) == 0
  {
  }

  datatype Point = Point(value: int, density: int)

  function Densities(points: seq<Point>): seq<int> {
    seq(|points|, i requires 0 <= i < |points| => points[i].density)
  }

  lemma FloorShare(count: int, total: int)
    requires total > 0
    ensures 10000 * count - total < (count * 10000 / total) * total <= 10000 * count
  {
  }

  /** Flooring 60 shares of a whole loses less than 60 basis points and never gains any. */
  lemma {:induction false} FlooredShares(counts: seq<int>, densities: seq<int>, total: int)
    requires total > 0 && |densities| == |counts|
    requires forall i :: 0 <= i < |counts| ==> densities[i] == counts[i] * 10000 / total
    ensures 10000 * Sum(counts) - total * |counts| <= total * Sum(densities) <= 10000 * Sum(counts)
    ensures counts != [] ==> 10000 * Sum(counts) - total * |counts| < total * Sum(densities)
  {
    if counts != [] {
      var n := |counts| - 1;
      FlooredShares(counts[..n], densities[..n], total);
      FloorShare(counts[n], total);
      ShareStep(Sum(counts[..n]), counts[n], Sum(densities[..n]), densities[n], total, n);
    }
  }

  lemma ShareStep(c: int, count: int, d: int, density: int, total: int, n: nat)
    requires 10000 * c - total * n <= total * d <= 10000 * c
    requires 10000 * count - total < density * total <= 10000 * count
    ensures 10000 * (c + count) - total * (n + 1) < total * (d + density) <= 10000 * (c + count)
  {
    Distribute(d, density, total);
    Distribute(n, 1, total);
  }

  /**
   The 60 points: labels are bucket midpoints, counts are of the clamped buckets, and the densities
   add up to more than 9,940 and at most 10,000 basis points.
   */
  method Histogram(values: seq<int>) returns (points: seq<Point>, lo: int, hi: int, width: int)
    ensures values == [] ==> points == []
    ensures values != [] ==> lo in values && hi in values && forall i :: 0 <= i < |values| ==> lo <= values[i] <= hi
    ensures values != [] ==> width == Width(lo, hi) > 0 && |points| == 60
    ensures values != [] ==> forall i :: 0 <= i < 60 ==>
      points[i] == Point(lo + i * width + width / 2, CountIn(values, lo, width, i) * 10000 / |values|)
    ensures values != [] ==> 9940 < Sum(Densities(points)) <= 10000
  {
    points, lo, hi, width := [], 0, 0, 1;
    if values == [] { return; }
    lo, hi := Extremes(values);
    width := Width(lo, hi);
    hide Sum, CountIn, Bucket, Width;
    var counts := CountBuckets(values, lo, width);
    var total := |values|;
    for i := 0 to 60
      invariant |points| == i
      invariant forall j :: 0 <= j < i ==> points[j] == Point(lo + j * width + width / 2, counts[j] * 10000 / total)
    {
      points := points + [Point(lo + i * width + width / 2, counts[i] * 10000 / total)];
    }
    TotalDensity(counts[..], Densities(points), total);
  }

  lemma TotalDensity(counts: seq<int>, densities: seq<int>, total: int)
    requires total > 0 && |densities| == |counts| == 60 && Sum(counts) == total
    requires forall i :: 0 <= i < |counts| ==> densities[i] == counts[i] * 10000 / total
    ensures 9940 < Sum(densities) <= 10000
  {
    FlooredShares(counts, densities, total);
    hide Sum;
    if Sum(densities) <= 9940 { MulMonotone(Sum(densities), 9940, total); }
    if Sum(densities) >= 10001 { MulMonotone(10001, Sum(densities), total); }
  }

  /** What the buckets hold: equal intervals from the smallest value up, the first and the last one open. */
  lemma BucketMembers(v: int, lo: int, width: int, i: int)
    requires width > 0 && 0 <= i < 60
    ensures Bucket(v, lo, width) == i <==>
      (i > 0 ==> lo + i * width <= v) && (i < 59 ==> v < lo + (i + 1) * width)
  {
    if v < lo {
      MulMonotone(0, i, width);
      BucketBelow(v, lo, width);
    } else {
      BucketAbove(v, lo, width, i);
    }
  }

  lemma BucketBelow(v: int, lo: int, width: int)
    requires width > 0 && v < lo
    ensures Bucket(v, lo, width) == 0
  {
    assert (lo - v) / width >= 0;
  }

  lemma BucketAbove(v: int, lo: int, width: int, i: int)
    requires width > 0 && lo <= v && 0 <= i < 60
    ensures Bucket(v, lo, width) == i <==>
      (i > 0 ==> lo + i * width <= v) && (i < 59 ==> v < lo + (i + 1) * width)
  {
    var q := (v - lo) / width;
    assert q * width <= v - lo < q * width + width;
    Distribute(q, 1, width);
    if i <= q { MulMonotone(i, q, width); } else { MulMonotone(q + 1, i, width); }
    if i < q { MulMonotone(i + 1, q, width); } else { MulMonotone(q + 1, i + 1, width); }
  }

  /** Sixty buckets of this width fill the range and sixty wider ones do not; it is one where the range has no sixty. */
  lemma WidthExactly(lo: int, hi: int)
    requires lo <= hi
    ensures
      var w := Width(lo, hi);
      if hi - lo < 60 then w == 1 else 60 * w <= hi - lo < 60 * (w + 1)
  {
  }

  /** The last bucket takes what the floored width leaves over: at most 59 paise more than a bucket. */
  lemma LastBucketSpan(lo: int, hi: int)
    requires lo <= hi
    ensures hi - (lo + 59 * Width(lo, hi)) <= Width(lo, hi) + 59
    ensures hi - lo < 60 ==> hi < lo + 60 * Width(lo, hi)
  {
  }
}
