/**
 The webhook route's rate limiter: token buckets refilled on demand, one per vendor, created the
 first time a vendor is seen. Time is in milliseconds; token counts are exact.
 */
module RateLimiter {

  datatype Limits = Limits(capacity: real, refillPerSecond: real)

  /** Limits under which the bounds below make sense. */
  predicate Sane(l: Limits) { l.capacity >= 0.0 && l.refillPerSecond >= 0.0 }

  datatype Bucket = Bucket(tokens: real, lastRefillMs: int)

  function Min(a: real, b: real): real { if a <= b then a else b }

  /** Tokens added between two moments. */
  function Earned(l: Limits, from: int, to: int): real {
    ((to - from) as real / 1000.0) * l.refillPerSecond
  }

  function Full(l: Limits, now: int): Bucket { Bucket(l.capacity, now) }

  function Refilled(l: Limits, b: Bucket, now: int): real {
    Min(l.capacity, b.tokens + Earned(l, b.lastRefillMs, now))
  }

  function ConsumeAt(l: Limits, b: Bucket, now: int): (Bucket, bool) {
    var tokens := Refilled(l, b, now);
    if tokens < 1.0 then (Bucket(tokens, now), false) else (Bucket(tokens - 1.0, now), true)
  }

  /** One bucket object. */
  class TokenBucket {
    const limits: Limits
    var tokens: real
    var lastRefillMs: int

    function State(): Bucket
      reads this
    {
      Bucket(tokens, lastRefillMs)
    }

    constructor (limits: Limits, nowMs: int)
      ensures this.limits == limits && State() == Full(limits, nowMs)
    {
      this.limits := limits;
      tokens := limits.capacity;
      lastRefillMs := nowMs;
    }

    method Consume(nowMs: int) returns (allowed: bool)
      modifies this
      ensures (State(), allowed) == ConsumeAt(limits, old(State()), nowMs)
    {
      var elapsedSec := (nowMs - lastRefillMs) as real / 1000.0;
      tokens := Min(limits.capacity, tokens + elapsedSec * limits.refillPerSecond);
      lastRefillMs := nowMs;
      if tokens < 1.0 {
        return false;
      }
      tokens := tokens - 1.0;
      return true;
    }
  }

  // ----- runs of one bucket ---------------------------------------------------------------------

  /** The bucket after requests at the given times, oldest first. */
  function After(l: Limits, b: Bucket, times: seq<int>): Bucket
    decreases |times|
  {
    if times == [] then b else ConsumeAt(l, After(l, b, times[..|times| - 1]), times[|times| - 1]).0
  }

  /** What each of those requests was answered. */
  function Decisions(l: Limits, b: Bucket, times: seq<int>): (ds: seq<bool>)
    ensures |ds| == |times|
    decreases |times|
  {
    if times == [] then []
    else
      var init, last := times[..|times| - 1], times[|times| - 1];
      Decisions(l, b, init) + [ConsumeAt(l, After(l, b, init), last).1]
  }

  /** How many requests j <= i < n were allowed. */
  function Successes(ds: seq<bool>, j: nat, n: nat): nat
    requires n <= |ds|
    decreases n
  {
    if n <= j then 0 else Successes(ds, j, n - 1) + if ds[n - 1] then 1 else 0
  }

  predicate Sorted(times: seq<int>) {
    forall i, j | 0 <= i <= j < |times| :: times[i] <= times[j]
  }

  // ----- the reference: which requests a bucket should allow -------------------------------------

  /**
   Request n fits: counted from any earlier request on, it and the ones allowed since then stay
   within the burst plus what time has earned.
   */
  ghost predicate Fits(l: Limits, times: seq<int>, ds: seq<bool>, n: nat)
    requires n < |times| && n <= |ds|
  {
    forall j: nat | j <= n :: Successes(ds, j, n) as real + 1.0 <= l.capacity + Earned(l, times[j], times[n])
  }

  /** What the requests from j on leave of the budget just before request n is answered. */
  function Budget(l: Limits, times: seq<int>, ds: seq<bool>, j: nat, n: nat): real
    requires j <= n < |times| && n <= |ds|
  {
    l.capacity + Earned(l, times[j], times[n]) - Successes(ds, j, n) as real
  }

  // ----- lemmas ---------------------------------------------------------------------------------

  lemma EarnedAdds(l: Limits, a: int, b: int, c: int)
    ensures Earned(l, a, b) + Earned(l, b, c) == Earned(l, a, c)
  {
    var x, y := (b - a) as real / 1000.0, (c - b) as real / 1000.0;
    assert x + y == (c - a) as real / 1000.0;
    assert (x + y) * l.refillPerSecond == x * l.refillPerSecond + y * l.refillPerSecond;
  }

  lemma EarnedGrows(l: Limits, a: int, b: int)
    requires Sane(l) && a <= b
    ensures Earned(l, a, b) >= 0.0
  {
    var x := (b - a) as real / 1000.0;
    assert x >= 0.0;
    assert x * l.refillPerSecond >= 0.0;
  }

  lemma EarnedNothing(l: Limits, a: int)
    ensures Earned(l, a, a) == 0.0
  {
  }

  lemma {:induction false} SuccessesPrefix(ds: seq<bool>, more: seq<bool>, j: nat, n: nat)
    requires n <= |ds|
    ensures Successes(ds + more, j, n) == Successes(ds, j, n)
    decreases n
  {
    if n > j { SuccessesPrefix(ds, more, j, n - 1); }
  }

  /** The stored token count is the least of all budgets. */
  ghost predicate LeastBudget(l: Limits, times: seq<int>, ds: seq<bool>, n: nat, tokens: real)
    requires n < |times| && n <= |ds|
  {
    && (forall j: nat | j <= n :: tokens <= Budget(l, times, ds, j, n))
    && exists j: nat :: j <= n && tokens == Budget(l, times, ds, j, n)
  }

  lemma BudgetStep(l: Limits, times: seq<int>, ds: seq<bool>, j: nat, n: nat)
    requires j < n < |times| && n <= |ds|
    ensures
      Budget(l, times, ds, j, n) ==
      Budget(l, times, ds, j, n - 1) - (if ds[n - 1] then 1.0 else 0.0) + Earned(l, times[n - 1], times[n])
  {
    EarnedAdds(l, times[j], times[n - 1], times[n]);
  }

  lemma FreshBudget(l: Limits, times: seq<int>, ds: seq<bool>, n: nat)
    requires n < |times| && n <= |ds|
    ensures Budget(l, times, ds, n, n) == l.capacity
  {
    EarnedNothing(l, times[n]);
  }

  lemma LeastBudgetStep(l: Limits, times: seq<int>, ds: seq<bool>, n: nat, tokens: real)
    requires 0 < n < |times| && n <= |ds| && LeastBudget(l, times, ds, n - 1, tokens)
    ensures
      var left := tokens - if ds[n - 1] then 1.0 else 0.0;
      LeastBudget(l, times, ds, n, Min(l.capacity, left + Earned(l, times[n - 1], times[n])))
  {
    hide Budget;
    var left := tokens - if ds[n - 1] then 1.0 else 0.0;
    var grown := left + Earned(l, times[n - 1], times[n]);
    FreshBudget(l, times, ds, n);
    forall j: nat | j <= n ensures Min(l.capacity, grown) <= Budget(l, times, ds, j, n) {
      if j < n { BudgetStep(l, times, ds, j, n); }
    }
    var j: nat :| j <= n - 1 && tokens == Budget(l, times, ds, j, n - 1);
    BudgetStep(l, times, ds, j, n);
    var best := if grown <= l.capacity then j else n;
    assert Min(l.capacity, grown) == Budget(l, times, ds, best, n);
  }

  lemma {:induction false} RefilledIsLeastBudget(l: Limits, b: Bucket, times: seq<int>, n: nat)
    requires Sane(l) && n < |times|
    requires b.tokens == l.capacity && b.lastRefillMs <= times[0]
    ensures LeastBudget(l, times, Decisions(l, b, times[..n]), n, Refilled(l, After(l, b, times[..n]), times[n]))
    decreases n
  {
    var ds := Decisions(l, b, times[..n]);
    if n == 0 {
      EarnedGrows(l, b.lastRefillMs, times[0]);
      FreshBudget(l, times, ds, 0);
      assert Refilled(l, b, times[0]) == Budget(l, times, ds, 0, 0);
    } else {
      var before := times[..n - 1];
      assert times[..n][..n - 1] == before;
      RefilledIsLeastBudget(l, b, times, n - 1);
      var tokens := Refilled(l, After(l, b, before), times[n - 1]);
      LeastBudgetPrefix(l, times, Decisions(l, b, before), ds, n - 1, tokens);
      LeastBudgetStep(l, times, ds, n, tokens);
    }
  }

  lemma LeastBudgetPrefix(l: Limits, times: seq<int>, ds: seq<bool>, longer: seq<bool>, n: nat, tokens: real)
    requires n < |times| && n == |ds| && ds <= longer && LeastBudget(l, times, ds, n, tokens)
    ensures LeastBudget(l, times, longer, n, tokens)
  {
    assert longer == ds + longer[n..];
    forall j: nat | j <= n ensures Budget(l, times, ds, j, n) == Budget(l, times, longer, j, n) {
      SuccessesPrefix(ds, longer[n..], j, n);
    }
  }

  lemma {:induction false} DecisionsPrefix(l: Limits, b: Bucket, times: seq<int>, n: nat)
    requires n <= |times|
    ensures Decisions(l, b, times)[..n] == Decisions(l, b, times[..n])
    ensures n < |times| ==> Decisions(l, b, times)[n] == ConsumeAt(l, After(l, b, times[..n]), times[n]).1
    decreases |times|
  {
    if n == |times| {
      assert times[..n] == times;
    } else {
      var init := times[..|times| - 1];
      assert init[..n] == times[..n];
      if n < |init| { assert init[n] == times[n]; } else { assert times[..n] == init; }
      DecisionsPrefix(l, b, init, n);
    }
  }

  // ----- main results ---------------------------------------------------------------------------

  /**
   A bucket that started full allows a request exactly when it fits: the lazily refilled counter
   is the budget reference, no stricter and no laxer.
   */
  lemma AllowsIffFits(l: Limits, b: Bucket, times: seq<int>, n: nat)
    requires Sane(l) && n < |times|
    requires b.tokens == l.capacity && b.lastRefillMs <= times[0]
    ensures Decisions(l, b, times)[n] <==> Fits(l, times, Decisions(l, b, times), n)
  {
    var ds, prefix := Decisions(l, b, times), Decisions(l, b, times[..n]);
    DecisionsPrefix(l, b, times, n);
    RefilledIsLeastBudget(l, b, times, n);
    var tokens := Refilled(l, After(l, b, times[..n]), times[n]);
    assert prefix <= ds;
    LeastBudgetPrefix(l, times, prefix, ds, n, tokens);
    LeastBudgetDecides(l, times, ds, n, tokens);
  }

  /** At least one token is there exactly when every budget has room for one more request. */
  lemma LeastBudgetDecides(l: Limits, times: seq<int>, ds: seq<bool>, n: nat, tokens: real)
    requires n < |times| && n <= |ds| && LeastBudget(l, times, ds, n, tokens)
    ensures tokens >= 1.0 <==> Fits(l, times, ds, n)
  {
    if tokens < 1.0 {
      var j: nat :| j <= n && tokens == Budget(l, times, ds, j, n);
      assert Successes(ds, j, n) as real + 1.0 > l.capacity + Earned(l, times[j], times[n]);
    } else {
      forall j: nat | j <= n ensures Successes(ds, j, n) as real + 1.0 <= l.capacity + Earned(l, times[j], times[n]) {
        assert tokens <= Budget(l, times, ds, j, n);
      }
    }
  }

  /** How many of the first n requests fell into the window and were allowed. */
  function AllowedWithin(times: seq<int>, ds: seq<bool>, t1: int, t2: int, n: nat): nat
    requires n <= |times| == |ds|
  {
    if n == 0 then 0
    else AllowedWithin(times, ds, t1, t2, n - 1) + if t1 <= times[n - 1] <= t2 && ds[n - 1] then 1 else 0
  }

  lemma {:induction false} WithinIsSuccesses(times: seq<int>, ds: seq<bool>, t1: int, t2: int, j: nat, n: nat)
    requires j <= n <= |times| == |ds|
    requires forall i | 0 <= i < j :: times[i] < t1
    requires forall i | j <= i < n :: t1 <= times[i] <= t2
    ensures AllowedWithin(times, ds, t1, t2, n) == Successes(ds, j, n)
    decreases n
  {
    if n > j {
      WithinIsSuccesses(times, ds, t1, t2, j, n - 1);
    } else if n > 0 {
      assert times[n - 1] < t1;
      WithinIsSuccesses(times, ds, t1, t2, n - 1, n - 1);
    }
  }

  lemma {:induction false} WindowStart(times: seq<int>, t1: int, n: nat) returns (j: nat)
    requires n <= |times| && Sorted(times)
    ensures j <= n && (forall i | 0 <= i < j :: times[i] < t1) && forall i | j <= i < n :: t1 <= times[i]
  {
    if n == 0 || times[n - 1] < t1 {
      j := n;
    } else {
      j := WindowStart(times, t1, n - 1);
    }
  }

  /** In every window of every run, at most the burst plus the refill of the window is allowed. */
  lemma {:induction false} WindowBound(l: Limits, b: Bucket, times: seq<int>, t1: int, t2: int, n: nat)
    requires Sane(l) && Sorted(times) && n <= |times| && t1 <= t2
    requires b.tokens == l.capacity && (times != [] ==> b.lastRefillMs <= times[0])
    ensures AllowedWithin(times, Decisions(l, b, times), t1, t2, n) as real <= l.capacity + Earned(l, t1, t2)
    decreases n
  {
    var ds := Decisions(l, b, times);
    EarnedGrows(l, t1, t2);
    if n > 0 {
      WindowBound(l, b, times, t1, t2, n - 1);
      var m := n - 1;
      if t1 <= times[m] <= t2 && ds[m] {
        var j := WindowStart(times, t1, m);
        WithinIsSuccesses(times, ds, t1, t2, j, m);
        AllowsIffFits(l, b, times, m);
        assert Successes(ds, j, m) as real + 1.0 <= l.capacity + Earned(l, times[j], times[m]);
        EarnedAdds(l, t1, times[j], t2);
        EarnedAdds(l, times[j], times[m], t2);
        EarnedGrows(l, t1, times[j]);
        EarnedGrows(l, times[m], t2);
      }
    }
  }

  // ----- one bucket per vendor ------------------------------------------------------------------

  type Buckets = map<string, Bucket>

  const DEFAULT_LIMITS: Limits := Limits(100.0, 50.0)

  /** The vendor's bucket, made full on first sight. */
  function BucketOf(l: Limits, m: Buckets, vendor: string, now: int): Bucket {
    if vendor in m then m[vendor] else Full(l, now)
  }

  function ConsumeFor(l: Limits, m: Buckets, vendor: string, now: int): (Buckets, bool) {
    var (b, allowed) := ConsumeAt(l, BucketOf(l, m, vendor, now), now);
    (m[vendor := b], allowed)
  }

  /** The map of buckets, filled as vendors appear. */
  class VendorLimiter {
    var buckets: map<string, TokenBucket>

    /** Every vendor has a bucket object of its own. */
    ghost predicate Valid()
      reads this, set v | v in buckets :: buckets[v]
    {
      && (forall v | v in buckets :: buckets[v].limits == DEFAULT_LIMITS)
      && forall v, w | v in buckets && w in buckets && v != w :: buckets[v] != buckets[w]
    }

    ghost function State(): Buckets
      reads this, set v | v in buckets :: buckets[v]
    {
      map v | v in buckets :: buckets[v].State()
    }

    constructor ()
      ensures Valid() && State() == map[]
    {
      buckets := map[];
    }

    method ConsumeToken(vendor: string, nowMs: int) returns (allowed: bool)
      requires Valid()
      modifies this, set v | v in buckets :: buckets[v]
      ensures Valid() && (State(), allowed) == ConsumeFor(DEFAULT_LIMITS, old(State()), vendor, nowMs)
      ensures forall v | v in buckets :: (v in old(buckets) && buckets[v] == old(buckets)[v]) || fresh(buckets[v])
    {
      if vendor !in buckets {
        var bucket := new TokenBucket(DEFAULT_LIMITS, nowMs);
        buckets := buckets[vendor := bucket];
      }
      ghost var before := BucketOf(DEFAULT_LIMITS, old(State()), vendor, nowMs);
      assert buckets[vendor].State() == before;
      allowed := buckets[vendor].Consume(nowMs);
      assert (buckets[vendor].State(), allowed) == ConsumeAt(DEFAULT_LIMITS, before, nowMs);
      assert forall v | v in buckets && v != vendor :: v in old(buckets) && buckets[v].State() == old(State())[v];
      assert State() == old(State())[vendor := buckets[vendor].State()];
    }
  }

  datatype Request = Request(vendor: string, at: int)

  function AfterAll(l: Limits, rs: seq<Request>): Buckets
    decreases |rs|
  {
    if rs == [] then map[]
    else ConsumeFor(l, AfterAll(l, rs[..|rs| - 1]), rs[|rs| - 1].vendor, rs[|rs| - 1].at).0
  }

  /** The answers one vendor's requests get in a run of everybody's. */
  function AnswersTo(l: Limits, rs: seq<Request>, vendor: string): seq<bool>
    decreases |rs|
  {
    if rs == [] then []
    else
      var init, last := rs[..|rs| - 1], rs[|rs| - 1];
      AnswersTo(l, init, vendor) +
      if last.vendor == vendor then [ConsumeFor(l, AfterAll(l, init), vendor, last.at).1] else []
  }

  function TimesOf(rs: seq<Request>, vendor: string): seq<int>
    decreases |rs|
  {
    if rs == [] then []
    else
      TimesOf(rs[..|rs| - 1], vendor) + if rs[|rs| - 1].vendor == vendor then [rs[|rs| - 1].at] else []
  }

  /** It does not matter when a bucket nobody has used was made. */
  lemma FullIsFull(l: Limits, created: int, now: int)
    requires Sane(l) && created <= now
    ensures ConsumeAt(l, Full(l, created), now) == ConsumeAt(l, Full(l, now), now)
  {
    EarnedGrows(l, created, now);
    EarnedNothing(l, now);
  }

  /**
   Each vendor is answered as by a bucket of its own, made at any moment before its first request,
   whatever the other vendors do.
   */
  lemma {:induction false} VendorsAreIsolated(l: Limits, rs: seq<Request>, vendor: string, created: int)
    requires Sane(l) && forall i | 0 <= i < |rs| :: created <= rs[i].at
    ensures AnswersTo(l, rs, vendor) == Decisions(l, Full(l, created), TimesOf(rs, vendor))
    ensures vendor in AfterAll(l, rs) <==> TimesOf(rs, vendor) != []
    ensures vendor in AfterAll(l, rs) ==> AfterAll(l, rs)[vendor] == After(l, Full(l, created), TimesOf(rs, vendor))
    decreases |rs|
  {
    if rs != [] {
      var init, last := rs[..|rs| - 1], rs[|rs| - 1];
      forall i | 0 <= i < |init| ensures created <= init[i].at { assert init[i] == rs[i]; }
      VendorsAreIsolated(l, init, vendor, created);
      if last.vendor == vendor {
        var before, times := TimesOf(init, vendor), TimesOf(rs, vendor);
        assert times[..|times| - 1] == before && times[|times| - 1] == last.at;
        FullIsFull(l, created, last.at);
      } else {
        assert TimesOf(rs, vendor) == TimesOf(init, vendor);
      }
    }
  }

  /**
   With the limits that every vendor has, a request is allowed exactly when, counted from any earlier request
   of the vendor on, it and those allowed since are at most 100 plus 50 for each second gone by.
   */
  lemma VendorAllowsExactly(rs: seq<Request>, vendor: string, n: nat)
    requires n < |TimesOf(rs, vendor)|
    ensures
      var times, answers := TimesOf(rs, vendor), AnswersTo(DEFAULT_LIMITS, rs, vendor);
      && |answers| == |times|
      && (answers[n] <==> forall j: nat | j <= n ::
            Successes(answers, j, n) as real + 1.0 <= 100.0 + 50.0 * (times[n] - times[j]) as real / 1000.0)
  {
    var created := Earliest(rs);
    VendorsAreIsolated(DEFAULT_LIMITS, rs, vendor, created);
    TimesAreRequests(rs, vendor, created);
    var times, answers := TimesOf(rs, vendor), AnswersTo(DEFAULT_LIMITS, rs, vendor);
    AllowsIffFits(DEFAULT_LIMITS, Full(DEFAULT_LIMITS, created), times, n);
    forall j: nat | j <= n
      ensures Earned(DEFAULT_LIMITS, times[j], times[n]) == 50.0 * (times[n] - times[j]) as real / 1000.0
    {
    }
  }

  /** Hence no vendor gets more than its own burst and refill, in any window. */
  lemma VendorWindowBound(rs: seq<Request>, vendor: string, t1: int, t2: int)
    requires t1 <= t2 && Sorted(TimesOf(rs, vendor))
    ensures
      |AnswersTo(DEFAULT_LIMITS, rs, vendor)| == |TimesOf(rs, vendor)| &&
      AllowedWithin(TimesOf(rs, vendor), AnswersTo(DEFAULT_LIMITS, rs, vendor), t1, t2, |TimesOf(rs, vendor)|) as real
      <= 100.0 + 50.0 * (t2 - t1) as real / 1000.0
  {
    var created := Earliest(rs);
    VendorsAreIsolated(DEFAULT_LIMITS, rs, vendor, created);
    var times := TimesOf(rs, vendor);
    if times != [] { TimesAreRequests(rs, vendor, created); }
    WindowBound(DEFAULT_LIMITS, Full(DEFAULT_LIMITS, created), times, t1, t2, |times|);
  }

  function Earliest(rs: seq<Request>): (t: int)
    ensures forall i | 0 <= i < |rs| :: t <= rs[i].at
  {
    if rs == [] then 0
    else
      var rest := Earliest(rs[1..]);
      assert forall i | 1 <= i < |rs| :: rs[i] == rs[1..][i - 1];
      if rest <= rs[0].at then rest else rs[0].at
  }

  lemma {:induction false} TimesAreRequests(rs: seq<Request>, vendor: string, created: int)
    requires forall i | 0 <= i < |rs| :: created <= rs[i].at
    ensures forall i | 0 <= i < |TimesOf(rs, vendor)| :: created <= TimesOf(rs, vendor)[i]
    decreases |rs|
  {
    if rs != [] {
      var init := rs[..|rs| - 1];
      forall i | 0 <= i < |init| ensures created <= init[i].at { assert init[i] == rs[i]; }
      TimesAreRequests(init, vendor, created);
    }
  }
}
