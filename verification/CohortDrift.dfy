/**
 The local-db cohort pipeline: cumulative totals to increments to per-customer months, and what
 flooring each month costs.
 */
module CohortDrift {
  import opened Arithmetic
  import opened Cohorts

  /** local-db-data-plane recovers increments from the cumulative totals it reads. */
  function Increments(cum: seq<int>): (incr: seq<int>)
    ensures |incr| == |cum|
  {
    seq(|cum|, i requires 0 <= i < |cum| => if i == 0 then cum[0] else cum[i] - cum[i - 1])
  }

  function PrefixSums(incr: seq<int>): seq<int> {
    seq(|incr|, i requires 0 <= i < |incr| => Running(0, incr, i + 1))
  }

  lemma {:induction false} RunningOfIncrements(cum: seq<int>, k: nat)
    requires k <= |cum|
    ensures Running(0, Increments(cum), k) == if k == 0 then 0 else cum[k - 1]
  {
    if k > 0 { RunningOfIncrements(cum, k - 1); }
  }

  /** Increments and prefix sums undo each other, in both orders. */
  lemma IncrementsInvertPrefixSums(s: seq<int>)
    ensures PrefixSums(Increments(s)) == s
    ensures Increments(PrefixSums(s)) == s
  {
    var there, back := PrefixSums(Increments(s)), Increments(PrefixSums(s));
    forall i: nat | i < |s| ensures there[i] == s[i] {
      RunningOfIncrements(s, i + 1);
    }
    forall i: nat | i < |s| ensures back[i] == s[i] {
      assert Running(0, s, 0) == 0 && Running(0, s, i + 1) == Running(0, s, i) + s[i];
    }
  }

  /** n customers at x each come within k floorings of total. */
  ghost predicate Within(n: int, x: int, total: int, k: nat) {
    Abs(n * x - total) <= k * (n - 1)
  }

  lemma TruncDivOff(a: int, n: int)
    requires n > 0
    ensures Within(n, TruncDiv(a, n), a, 1)
  {
  }

  lemma DriftStep(n: int, run: int, step: int, total: int, incr: int, k: nat)
    requires n > 0 && Within(n, run, total, k) && Within(n, step, incr, 1)
    ensures Within(n, run + step, total + incr, k + 1)
  {
    Distribute(run, step, n);
    Distribute(k, 1, n - 1);
  }

  /** How far n customers' floored months stray from the cumulative total: under n for each month. */
  lemma {:induction false} FlooringDrift(incr: seq<int>, n: int, k: nat)
    requires n > 0 && k <= |incr|
    ensures Within(n, Running(0, PerCustomer(incr, n), k), Running(0, incr, k), k)
  {
    if k > 0 {
      FlooringDrift(incr, n, k - 1);
      TruncDivOff(incr[k - 1], n);
      hide Within, TruncDiv;
      DriftStep(n, Running(0, PerCustomer(incr, n), k - 1), TruncDiv(incr[k - 1], n), Running(0, incr, k - 1),
                incr[k - 1], k - 1);
    }
  }

  /** The same, against the totals the increments were recovered from. */
  lemma CumulativeDrift(cum: seq<int>, n: int, k: nat)
    requires n > 0 && 0 < k <= |cum|
    ensures Within(n, Running(0, PerCustomer(Increments(cum), n), k), cum[k - 1], k)
  {
    hide Within;
    FlooringDrift(Increments(cum), n, k);
    RunningOfIncrements(cum, k);
  }

  /** The bound is met: months that each fall one short of a whole unit per customer. */
  lemma {:induction false} DriftIsAttained(n: int, incr: seq<int>, k: nat)
    requires n > 0 && k <= |incr| && forall i :: 0 <= i < |incr| ==> incr[i] == n - 1
    ensures Running(0, PerCustomer(incr, n), k) == 0 && Running(0, incr, k) == k * (n - 1)
  {
    if k > 0 {
      DriftIsAttained(n, incr, k - 1);
      ZeroQuotient(n - 1, n);
      hide *;
      LastMonth(incr, n, k);
      Distribute(k - 1, 1, n - 1);
    }
  }

  lemma LastMonth(incr: seq<int>, n: int, k: nat)
    requires n > 0 && 0 < k <= |incr|
    ensures Running(0, incr, k) == Running(0, incr, k - 1) + incr[k - 1]
    ensures Running(0, PerCustomer(incr, n), k) == Running(0, PerCustomer(incr, n), k - 1) + TruncDiv(incr[k - 1], n)
    ensures incr[k - 1] == n - 1 ==> TruncDiv(incr[k - 1], n) == 0
  {
  }

  lemma CloseQuotients(n: int, x: int, y: int, k: nat)
    requires n > 0 && Abs(n * x - n * y) <= (k + 1) * (n - 1)
    ensures Abs(x - y) <= k
  {
    var d := Abs(x - y);
    if d > k {
      MulMonotone(k + 1, d, n);
      Distribute(n - 1, 1, k + 1);
      Distribute(x, 0 - y, n);
    }
  }

  lemma CloseToOneTotal(n: int, card: int, run: int, total: int, k: nat)
    requires n > 0 && Within(n, card, total, 1) && Within(n, run, total, k)
    ensures Abs(card - run) <= k
  {
    Distribute(k, 1, n - 1);
    CloseQuotients(n, card, run, k);
  }

  /** The lifetime value card and the last running month differ by at most one unit a month. */
  lemma LtvCardIsClose(cum: seq<int>, n: int)
    requires n > 0 && cum != []
    ensures Abs(TruncDiv(cum[|cum| - 1], n) - Running(0, PerCustomer(Increments(cum), n), |cum|)) <= |cum|
  {
    hide *;
    CumulativeDrift(cum, n, |cum|);
    TruncDivOff(cum[|cum| - 1], n);
    CloseToOneTotal(n, TruncDiv(cum[|cum| - 1], n), Running(0, PerCustomer(Increments(cum), n), |cum|), cum[|cum| - 1],
                    |cum|);
  }

  /**
   local-db's first-order value is the first month's increment, which the increments hold as well: a
   cumulative cell counts it twice, and is the running total exactly when it is zero.
   */
  lemma FirstMonthCountedTwice(metric: Metric, cum: seq<int>, n: int, k: nat)
    requires (metric.Cm3? || metric.Revenue?) && n > 0 && k < |cum|
    ensures
      var incr := PerCustomer(Increments(cum), n);
      var cell := Cell(metric, Cumulative, incr[0], incr[0], 0, incr, k);
      && cell == Running(0, incr, k + 1) + incr[0]
      && (cell == Running(0, incr, k + 1) <==> Abs(cum[0]) < n)
  {
    var incr := PerCustomer(Increments(cum), n);
    StartShifts(incr[0], 0, incr, k + 1);
    ZeroQuotient(Abs(cum[0]), n);
  }
}
