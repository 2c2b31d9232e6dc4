/**
 The cohort heat map of the loopback data plane: per-customer flooring, the six row modes, lifetime
 value, and the payback walk.
 */
module Cohorts {
  import opened Options
  import opened Arithmetic

  datatype Metric = Cm3 | Revenue | Repeat | Repurchase
  datatype Mode = Incr | Post | Cumulative | Pct | LtvCac | OtherMode

  function AvgInt(total: int, n: int): int {
    if n > 0 then TruncDiv(total, n) else 0
  }

  function RatioBp(num: int, denom: int): Option<int> {
    if denom <= 0 then None else Some(TruncDiv(num * 10000, denom))
  }

  function PerCustomer(totals: seq<int>, n: int): (each: seq<int>)
    ensures |each| == |totals|
  {
    seq(|totals|, i requires 0 <= i < |totals| => AvgInt(totals[i], n))
  }

  /** The value accumulated from start through the first k months. */
  function Running(start: int, incr: seq<int>, k: nat): int
    requires k <= |incr|
  {
    if k == 0 then start else Running(start, incr, k - 1) + incr[k - 1]
  }

  lemma {:induction false} StartShifts(a: int, b: int, incr: seq<int>, k: nat)
    requires k <= |incr|
    ensures Running(a + b, incr, k) == a + Running(b, incr, k)
  {
    if k > 0 { StartShifts(a, b, incr, k - 1); }
  }

  // ----- the row modes --------------------------------------------------------------------------

  method RunningSums(start: int, incr: seq<int>) returns (cells: seq<int>)
    ensures |cells| == |incr|
    ensures forall k :: 0 <= k < |cells| ==> cells[k] == Running(start, incr, k + 1)
  {
    cells := [];
    var s := start;
    for i := 0 to |incr|
      invariant |cells| == i && s == Running(start, incr, i)
      invariant forall k :: 0 <= k < i ==> cells[k] == Running(start, incr, k + 1)
    {
      s := s + incr[i];
      cells := cells + [s];
    }
  }

  /** RunningSums, each scaled to basis points of denom. */
  method RunningBp(start: int, incr: seq<int>, denom: int) returns (cells: seq<int>)
    requires denom > 0
    ensures |cells| == |incr|
    ensures forall k :: 0 <= k < |cells| ==> cells[k] == TruncDiv(Running(start, incr, k + 1) * 10000, denom)
  {
    cells := [];
    var s := start;
    for i := 0 to |incr|
      invariant |cells| == i && s == Running(start, incr, i)
      invariant forall k :: 0 <= k < i ==> cells[k] == TruncDiv(Running(start, incr, k + 1) * 10000, denom)
    {
      s := s + incr[i];
      cells := cells + [TruncDiv(s * 10000, denom)];
    }
  }

  function AtLeastOne(x: int): int { if x > 0 then x else 1 }

  function FirstOrderOf(metric: Metric, firstOrder: int, realized: int): int {
    if metric.Cm3? then realized else firstOrder
  }

  /** The kth cell of a row: what the reader of the heat map is shown. */
  function Cell(metric: Metric, mode: Mode, firstOrder: int, realized: int, cac: int, incr: seq<int>, k: nat): int
    requires k < |incr|
  {
    var fo := FirstOrderOf(metric, firstOrder, realized);
    var money := metric.Cm3? || metric.Revenue?;
    match mode
    case Post => if metric.Cm3? then incr[k] else Running(0, incr, k + 1)
    case Cumulative => if money then Running(fo, incr, k + 1) else incr[k]
    case Pct => if money then TruncDiv(Running(fo, incr, k + 1) * 10000, AtLeastOne(Abs(fo))) else incr[k]
    case LtvCac => if money then TruncDiv(Running(fo, incr, k + 1) * 10000, AtLeastOne(cac)) else incr[k]
    case _ => incr[k]
  }

  method ApplyCohortMode(metric: Metric, mode: Mode, firstOrder: int, realized: int, cac: int, incr: seq<int>)
    returns (cells: seq<int>)
    ensures |cells| == |incr|
    ensures forall k :: 0 <= k < |cells| ==> cells[k] == Cell(metric, mode, firstOrder, realized, cac, incr, k)
  {
    if metric.Cm3? || metric.Revenue? {
      var fo := if metric.Cm3? then realized else firstOrder;
      match mode
      case Incr => cells := incr;
      case Post => if metric.Cm3? { cells := incr; } else { cells := RunningSums(0, incr); }
      case Cumulative => cells := RunningSums(fo, incr);
      case Pct => cells := RunningBp(fo, incr, AtLeastOne(Abs(fo)));
      case LtvCac => cells := RunningBp(fo, incr, AtLeastOne(cac));
      case OtherMode => cells := incr;
    } else if mode.Post? {
      cells := RunningSums(0, incr);
    } else {
      cells := incr;
    }
  }

  /** The denominator a cell is divided by: what it is meant to be, or one. */
  function Denominator(wanted: int): int { if wanted <= 1 then 1 else wanted }

  /** A money cell of each mode, told by the running total and the denominators. */
  lemma MoneyCellExactly(metric: Metric, mode: Mode, firstOrder: int, realized: int, cac: int, incr: seq<int>, k: nat)
    returns (d: int)
    requires (metric == Cm3 || metric == Revenue) && k < |incr|
    ensures
      var cell := Cell(metric, mode, firstOrder, realized, cac, incr, k);
      var fo := if metric == Cm3 then realized else firstOrder;
      && (mode == Incr || mode == OtherMode || (mode == Post && metric == Cm3) ==> cell == incr[k])
      && (mode == Post && metric == Revenue ==> cell == Running(0, incr, k) + incr[k])
      && (mode == Cumulative ==> cell == Running(fo, incr, k) + incr[k])
      && (mode == Pct || mode == LtvCac ==>
            && d == Denominator(if mode == LtvCac then cac else if fo < 0 then -fo else fo)
            && Truncated((Running(fo, incr, k) + incr[k]) * 10000, d, cell))
  {
    var fo := if metric == Cm3 then realized else firstOrder;
    d := if mode == Pct then AtLeastOne(Abs(fo)) else AtLeastOne(cac);
    TruncDivExactly(Running(fo, incr, k + 1) * 10000, d);
    hide Truncated, TruncDiv;
  }

  /** A count cell: summed up for post, as it is for every other mode. */
  lemma CountCellExactly(metric: Metric, mode: Mode, firstOrder: int, realized: int, cac: int, incr: seq<int>, k: nat)
    requires (metric == Repeat || metric == Repurchase) && k < |incr|
    ensures Cell(metric, mode, firstOrder, realized, cac, incr, k) ==
            if mode == Post then Running(0, incr, k) + incr[k] else incr[k]
  {
  }

  // ----- payback --------------------------------------------------------------------------------

  const MONTHS := 12

  /** Month k (from 1) is the first whose accumulated value reaches cac. */
  ghost predicate ReachedAt(fo: int, incr: seq<int>, cac: int, k: nat) {
    && 1 <= k <= |incr| && k <= MONTHS
    && Running(fo, incr, k) >= cac
    && forall j: nat :: j < k ==> Running(fo, incr, j) < cac
  }

  ghost predicate NeverReached(fo: int, incr: seq<int>, cac: int) {
    forall j: nat :: j <= |incr| && j <= MONTHS ==> Running(fo, incr, j) < cac
  }

  /** How far into month k the shortfall left at its start is earned, in whole centi-months. */
  function Fraction(fo: int, incr: seq<int>, cac: int, k: nat): int
    requires 1 <= k <= |incr|
  {
    if incr[k - 1] <= 0 then 0 else TruncDiv(100 * (cac - Running(fo, incr, k - 1)), incr[k - 1])
  }

  /** What the payback of a row of accumulated values is; with fractional, the month is interpolated. */
  ghost predicate IsPayback(fo: int, incr: seq<int>, cac: int, fractional: bool, months: Option<int>) {
    && (fo >= cac ==> months == Some(0))
    && (NeverReached(fo, incr, cac) ==> months.None?)
    && (forall k: nat :: ReachedAt(fo, incr, cac, k) ==>
          months == Some(if fractional then 100 * (k - 1) + Fraction(fo, incr, cac, k) else 100 * k))
  }

  method PaybackCentimonths(foRealized: int, cac: int, incrCm3: seq<int>, n: int, metric: Metric, mode: Mode)
    returns (months: Option<int>)
    ensures (!metric.Cm3? && !metric.Revenue?) || n <= 0 ==> months.None?
    ensures (metric.Cm3? || metric.Revenue?) && n > 0 ==>
      IsPayback(AvgInt(foRealized, n), PerCustomer(incrCm3, n), cac, metric.Cm3? && mode.Post?, months)
  {
    if !metric.Cm3? && !metric.Revenue? { return None; }
    if n <= 0 { return None; }
    var incr := PerCustomer(incrCm3, n);
    ghost var fo := AvgInt(foRealized, n);
    var cum := TruncDiv(foRealized, n) - cac;
    AtTheStart(fo, incr);
    hide Running, PerCustomer, TruncDiv, IsPayback, ReachedAt, NeverReached;
    if cum >= 0 {
      CoveredAtOnce(fo, incr, cac, metric.Cm3? && mode.Post?);
      return Some(0);
    }
    for k := 1 to 13
      invariant cum == Running(fo, incr, Min(k - 1, |incr|)) - cac && cum < 0
      invariant forall j: nat :: j < k && j <= |incr| ==> Running(fo, incr, j) < cac
    {
      var incrVal := if k - 1 < |incr| then incr[k - 1] else 0;
      var prevCum := cum;
      cum := cum + incrVal;
      if k <= |incr| { NextMonth(fo, incr, k); }
      if cum >= 0 {
        months := if metric.Cm3? && mode.Post? && incrVal > 0 && prevCum < 0
          then Some((k - 1) * 100 + TruncDiv(100 * -prevCum, incrVal))
          else Some(k * 100);
        if k <= |incr| { ReachedNow(fo, incr, cac, k); }
        PaidInMonth(fo, incr, cac, metric.Cm3? && mode.Post?, k);
        return;
      }
    }
    months := None;
    NotPaid(fo, incr, cac, metric.Cm3? && mode.Post?);
  }

  lemma ReachedNow(fo: int, incr: seq<int>, cac: int, k: nat)
    requires 1 <= k <= |incr| && k <= MONTHS && Running(fo, incr, k) >= cac
    requires forall j: nat :: j < k && j <= |incr| ==> Running(fo, incr, j) < cac
    ensures ReachedAt(fo, incr, cac, k)
  {
    hide Running;
  }

  lemma NotPaid(fo: int, incr: seq<int>, cac: int, fractional: bool)
    requires forall j: nat :: j < 13 && j <= |incr| ==> Running(fo, incr, j) < cac
    ensures IsPayback(fo, incr, cac, fractional, None)
  {
    AtTheStart(fo, incr);
    hide Running, Fraction;
  }

  lemma AtTheStart(fo: int, incr: seq<int>)
    ensures Running(fo, incr, 0) == fo
  {
  }

  lemma NextMonth(fo: int, incr: seq<int>, k: nat)
    requires 1 <= k <= |incr|
    ensures Running(fo, incr, k) == Running(fo, incr, k - 1) + incr[k - 1]
  {
  }

  lemma CoveredAtOnce(fo: int, incr: seq<int>, cac: int, fractional: bool)
    requires fo >= cac
    ensures IsPayback(fo, incr, cac, fractional, Some(0))
  {
    assert Running(fo, incr, 0) == fo;
  }

  lemma PaidInMonth(fo: int, incr: seq<int>, cac: int, fractional: bool, k: nat)
    requires ReachedAt(fo, incr, cac, k)
    ensures IsPayback(fo, incr, cac, fractional,
                      Some(if fractional then 100 * (k - 1) + Fraction(fo, incr, cac, k) else 100 * k))
  {
    OneFirstMonth(fo, incr, cac, k);
  }

  function Min(a: int, b: int): int { if a < b then a else b }

  lemma OneFirstMonth(fo: int, incr: seq<int>, cac: int, k: nat)
    requires ReachedAt(fo, incr, cac, k)
    ensures fo < cac && !NeverReached(fo, incr, cac)
    ensures forall j: nat :: ReachedAt(fo, incr, cac, j) ==> j == k
  {
    assert Running(fo, incr, 0) == fo;
  }

  /** Paid at once, in exactly one month, or never. */
  lemma OnceOrNever(fo: int, incr: seq<int>, cac: int)
    requires fo < cac && !NeverReached(fo, incr, cac)
    ensures exists k: nat :: ReachedAt(fo, incr, cac, k)
  {
    var j: nat :| j <= |incr| && j <= MONTHS && Running(fo, incr, j) >= cac;
    var k := FirstMonth(fo, incr, cac, j);
  }

  lemma {:induction false} FirstMonth(fo: int, incr: seq<int>, cac: int, j: nat) returns (k: nat)
    requires fo < cac && j <= |incr| && j <= MONTHS && Running(fo, incr, j) >= cac
    ensures ReachedAt(fo, incr, cac, k) && k <= j
  {
    if i: nat :| i < j && Running(fo, incr, i) >= cac {
      k := FirstMonth(fo, incr, cac, i);
    } else {
      k := j;
    }
  }

  lemma DivMonotone(a: int, b: int, d: int)
    requires a <= b && d > 0
    ensures a / d <= b / d
  {
    if b / d + 1 <= a / d { MulMonotone(b / d + 1, a / d, d); Distribute(b / d, 1, d); }
  }

  lemma DivAtMost(a: int, q: int, d: int)
    requires a <= q * d && d > 0
    ensures a / d <= q
  {
    if q + 1 <= a / d { MulMonotone(q + 1, a / d, d); Distribute(q, 1, d); }
  }

  /** In the month it is earned, the shortfall takes between none and all of the month. */
  lemma FractionIsPartOfAMonth(fo: int, incr: seq<int>, cac: int, k: nat)
    requires ReachedAt(fo, incr, cac, k)
    ensures incr[k - 1] > 0 && 0 <= Fraction(fo, incr, cac, k) <= 100
    ensures Fraction(fo, incr, cac, k) == 0 <==> 100 * (cac - Running(fo, incr, k - 1)) < incr[k - 1]
  {
    assert Running(fo, incr, k - 1) < cac;
    var shortfall, gain := cac - Running(fo, incr, k - 1), incr[k - 1];
    DivAtMost(100 * shortfall, 100, gain);
    ZeroQuotient(100 * shortfall, gain);
  }

  lemma ZeroQuotient(a: nat, d: int)
    requires d > 0
    ensures a / d >= 0
    ensures a / d == 0 <==> a < d
  {
    if a / d >= 1 { MulMonotone(1, a / d, d); }
  }

  /** Only what the definition says: any two paybacks of one row are the same. */
  lemma PaybackIsUnique(fo: int, incr: seq<int>, cac: int, fractional: bool, m1: Option<int>, m2: Option<int>)
    requires IsPayback(fo, incr, cac, fractional, m1) && IsPayback(fo, incr, cac, fractional, m2)
    ensures m1 == m2
  {
    if fo < cac && !NeverReached(fo, incr, cac) {
      OnceOrNever(fo, incr, cac);
      var k: nat :| ReachedAt(fo, incr, cac, k);
    }
  }

  /** The heat map's cumulative cell of month k, counted from 0. */
  function CumulativeCell(realized: int, incr: seq<int>, cac: int, k: nat): int
    requires k < |incr|
  {
    Cell(Cm3, Cumulative, 0, realized, cac, incr, k)
  }

  /** No cell of the twelve months reaches cac. */
  ghost predicate NoCellReaches(realized: int, incr: seq<int>, cac: int) {
    forall k: nat :: k < |incr| && k < MONTHS ==> CumulativeCell(realized, incr, cac, k) < cac
  }

  /** Cell k is the first that reaches cac. */
  ghost predicate FirstCell(realized: int, incr: seq<int>, cac: int, k: nat) {
    && k < |incr| && k < MONTHS && CumulativeCell(realized, incr, cac, k) >= cac
    && forall j: nat :: j < k ==> CumulativeCell(realized, incr, cac, j) < cac
  }

  lemma NeverMeansNoCell(realized: int, incr: seq<int>, cac: int)
    requires realized < cac
    ensures NeverReached(realized, incr, cac) <==> NoCellReaches(realized, incr, cac)
  {
    if NeverReached(realized, incr, cac) {
      forall k: nat | k < |incr| && k < MONTHS ensures CumulativeCell(realized, incr, cac, k) < cac {
        assert Running(realized, incr, k + 1) < cac;
      }
    }
    if NoCellReaches(realized, incr, cac) {
      forall j: nat | j <= |incr| && j <= MONTHS ensures Running(realized, incr, j) < cac {
        if j > 0 { assert CumulativeCell(realized, incr, cac, j - 1) < cac; }
      }
    }
  }

  lemma ReachedMeansFirstCell(realized: int, incr: seq<int>, cac: int, k: nat)
    requires ReachedAt(realized, incr, cac, k)
    ensures k >= 1 && FirstCell(realized, incr, cac, k - 1)
  {
    forall j: nat | j < k - 1 ensures CumulativeCell(realized, incr, cac, j) < cac {
      assert Running(realized, incr, j + 1) < cac;
    }
  }

  /**
   Payback against the heat map: none exactly when first order and all the cells stay below cac, and
   otherwise within the month whose cell is the first to reach it.
   */
  lemma PaybackAgreesWithCells(realized: int, incr: seq<int>, cac: int, fractional: bool, months: Option<int>)
    requires IsPayback(realized, incr, cac, fractional, months)
    ensures months.None? <==> realized < cac && NoCellReaches(realized, incr, cac)
    ensures realized < cac && months.Some? ==>
      exists k: nat :: FirstCell(realized, incr, cac, k)
        && 100 * k <= months.value <= 100 * (k + 1) && (!fractional ==> months.value == 100 * (k + 1))
  {
    hide Fraction, ReachedAt, NeverReached, NoCellReaches, FirstCell;
    if realized < cac {
      NeverMeansNoCell(realized, incr, cac);
      if !NeverReached(realized, incr, cac) {
        OnceOrNever(realized, incr, cac);
        var k: nat :| ReachedAt(realized, incr, cac, k);
        ReachedMeansFirstCell(realized, incr, cac, k);
        FractionIsPartOfAMonth(realized, incr, cac, k);
        assert FirstCell(realized, incr, cac, k - 1);
      }
    }
  }

  /**
   Zero means covered by the first order, except when interpolating: then a shortfall below one
   hundredth of the first month's gain also shows as zero.
   */
  lemma ZeroPaybackExactly(fo: int, incr: seq<int>, cac: int, fractional: bool, months: Option<int>)
    requires IsPayback(fo, incr, cac, fractional, months)
    ensures months == Some(0) <==>
      fo >= cac || (fractional && |incr| > 0 && 100 * (cac - fo) < incr[0])
  {
    if fo < cac {
      assert Running(fo, incr, 0) == fo;
      if fractional && |incr| > 0 && 100 * (cac - fo) < incr[0] {
        assert Running(fo, incr, 1) == fo + incr[0];
        assert ReachedAt(fo, incr, cac, 1);
        FractionIsPartOfAMonth(fo, incr, cac, 1);
      } else if !NeverReached(fo, incr, cac) {
        OnceOrNever(fo, incr, cac);
        var k: nat :| ReachedAt(fo, incr, cac, k);
        FractionIsPartOfAMonth(fo, incr, cac, k);
      }
    }
  }

  /** A cohort that shows zero payback without having been covered. */
  lemma ZeroWithoutCover()
    ensures IsPayback(499, [1000], 500, true, Some(0)) && 499 < 500
  {
    assert Running(499, [1000], 0) == 499 && Running(499, [1000], 1) == 1499;
    assert Fraction(499, [1000], 500, 1) == 0;
    forall k: nat | ReachedAt(499, [1000], 500, k) ensures k == 1 {}
    assert !NeverReached(499, [1000], 500);
  }

  ghost predicate NoLater(m1: Option<int>, m2: Option<int>) {
    m2.Some? ==> m1.Some? && m1.value <= m2.value
  }

  /** Dearer acquisition never pays back sooner. */
  lemma PaybackMonotone(fo: int, incr: seq<int>, cac1: int, cac2: int, fractional: bool, m1: Option<int>,
                        m2: Option<int>)
    requires cac1 <= cac2
    requires IsPayback(fo, incr, cac1, fractional, m1) && IsPayback(fo, incr, cac2, fractional, m2)
    ensures NoLater(m1, m2)
  {
    hide Fraction;
    assert Running(fo, incr, 0) == fo;
    if fo < cac2 && !NeverReached(fo, incr, cac2) {
      OnceOrNever(fo, incr, cac2);
      var k2: nat :| ReachedAt(fo, incr, cac2, k2);
      FractionIsPartOfAMonth(fo, incr, cac2, k2);
      if fo < cac1 {
        var k1 := FirstMonth(fo, incr, cac1, k2);
        FractionIsPartOfAMonth(fo, incr, cac1, k1);
        if k1 == k2 { FractionMonotone(fo, incr, cac1, cac2, k1); }
      }
    }
  }

  lemma FractionMonotone(fo: int, incr: seq<int>, cac1: int, cac2: int, k: nat)
    requires cac1 <= cac2 && ReachedAt(fo, incr, cac1, k) && ReachedAt(fo, incr, cac2, k)
    ensures Fraction(fo, incr, cac1, k) <= Fraction(fo, incr, cac2, k)
  {
    FractionIsPartOfAMonth(fo, incr, cac1, k);
    assert Running(fo, incr, k - 1) < cac1;
    DivMonotone(100 * (cac1 - Running(fo, incr, k - 1)), 100 * (cac2 - Running(fo, incr, k - 1)), incr[k - 1]);
  }

  // ----- a whole row ----------------------------------------------------------------------------

  datatype Cohort = Cohort(
    newCustomers: int, monthSpend: int, sumFo: int, sumFoRealized: int,
    incrCm3: seq<int>, incrRevenue: seq<int>, incrRepeatCustomers: seq<int>, incrRepurchaseOrders: seq<int>)

  datatype CohortRow = CohortRow(
    cac: Option<int>, payback: Option<int>, firstOrder: int, firstOrderRealized: int,
    ltv: int, ltvCacBp: Option<int>, cells: seq<int>)

  function CacOf(c: Cohort): Option<int> {
    if c.newCustomers > 0 then Some(TruncDiv(c.monthSpend, c.newCustomers)) else None
  }

  function OrZero(x: Option<int>): int { if x.Some? then x.value else 0 }

  function IncrementsFor(c: Cohort, metric: Metric): seq<int> {
    match metric
    case Cm3 => PerCustomer(c.incrCm3, c.newCustomers)
    case Revenue => PerCustomer(c.incrRevenue, c.newCustomers)
    case Repeat =>
      seq(|c.incrRepeatCustomers|, i requires 0 <= i < |c.incrRepeatCustomers| =>
        OrZero(RatioBp(c.incrRepeatCustomers[i], c.newCustomers)))
    case Repurchase => PerCustomer(c.incrRepurchaseOrders, c.newCustomers)
  }

  /** Each metric has its own totals; repeats are counted in basis points of the new customers. */
  predicate TotalFor(c: Cohort, metric: Metric, i: nat, total: int) {
    match metric
    case Cm3 => i < |c.incrCm3| && total == c.incrCm3[i]
    case Revenue => i < |c.incrRevenue| && total == c.incrRevenue[i]
    case Repeat => i < |c.incrRepeatCustomers| && total == c.incrRepeatCustomers[i] * 10000
    case Repurchase => i < |c.incrRepurchaseOrders| && total == c.incrRepurchaseOrders[i]
  }

  /** The increments of a row are its metric's own totals per new customer, cut off; nothing for no customers. */
  lemma IncrementsExactly(c: Cohort, metric: Metric, i: nat, total: int)
    ensures i < |IncrementsFor(c, metric)| <==> exists t :: TotalFor(c, metric, i, t)
    ensures TotalFor(c, metric, i, total) ==>
      if c.newCustomers > 0 then Truncated(total, c.newCustomers, IncrementsFor(c, metric)[i])
      else IncrementsFor(c, metric)[i] == 0
  {
    if c.newCustomers > 0 { TruncDivExactly(total, c.newCustomers); }
    hide Truncated, TruncDiv;
    match metric
    case Cm3 => if i < |c.incrCm3| { assert TotalFor(c, metric, i, c.incrCm3[i]); }
    case Revenue => if i < |c.incrRevenue| { assert TotalFor(c, metric, i, c.incrRevenue[i]); }
    case Repeat =>
      if i < |c.incrRepeatCustomers| { assert TotalFor(c, metric, i, c.incrRepeatCustomers[i] * 10000); }
    case Repurchase => if i < |c.incrRepurchaseOrders| { assert TotalFor(c, metric, i, c.incrRepurchaseOrders[i]); }
  }

  /** Acquisition cost and the averages of a row: per new customer, cut off; no cost and zero for no customers. */
  lemma AveragesExactly(c: Cohort)
    ensures
      if c.newCustomers > 0 then
        && CacOf(c).Some? && Truncated(c.monthSpend, c.newCustomers, CacOf(c).value)
        && Truncated(c.sumFo, c.newCustomers, AvgInt(c.sumFo, c.newCustomers))
        && Truncated(c.sumFoRealized, c.newCustomers, AvgInt(c.sumFoRealized, c.newCustomers))
      else CacOf(c).None? && AvgInt(c.sumFo, c.newCustomers) == 0 == AvgInt(c.sumFoRealized, c.newCustomers)
  {
    if c.newCustomers > 0 {
      TruncDivExactly(c.monthSpend, c.newCustomers);
      TruncDivExactly(c.sumFo, c.newCustomers);
      TruncDivExactly(c.sumFoRealized, c.newCustomers);
    }
  }

  /**
   The row's parts agree with each other: in cm3 the last cumulative cell is the lifetime value, the
   last LTV:CAC cell is the row's LTV:CAC, and the payback is that of the cumulative cells.
   */
  method BuildRow(c: Cohort, metric: Metric, mode: Mode) returns (row: CohortRow)
    ensures row.cac == CacOf(c)
    ensures row.firstOrder == AvgInt(c.sumFo, c.newCustomers)
    ensures row.firstOrderRealized == AvgInt(c.sumFoRealized, c.newCustomers)
    ensures |row.cells| == |IncrementsFor(c, metric)|
    ensures forall k :: 0 <= k < |row.cells| ==>
      row.cells[k] == Cell(metric, mode, row.firstOrder, row.firstOrderRealized, OrZero(row.cac),
                           IncrementsFor(c, metric), k)
    ensures metric.Cm3? && mode.Cumulative? && row.cells != [] ==> row.cells[|row.cells| - 1] == row.ltv
    ensures metric.Cm3? && mode.LtvCac? && row.cells != [] && row.cac.Some? && row.cac.value > 0 ==>
      Some(row.cells[|row.cells| - 1]) == row.ltvCacBp
    ensures row.ltvCacBp.Some? <==> row.cac.Some? && row.cac.value > 0
    ensures (metric.Cm3? || metric.Revenue?) && c.newCustomers > 0 ==>
      IsPayback(row.firstOrderRealized, IncrementsFor(c, Cm3), row.cac.value, metric.Cm3? && mode.Post?, row.payback)
    ensures !((metric.Cm3? || metric.Revenue?) && c.newCustomers > 0) ==> row.payback.None?
  {
    hide IsPayback;
    var n := c.newCustomers;
    var cac := CacOf(c);
    var firstOrder, firstOrderR := AvgInt(c.sumFo, n), AvgInt(c.sumFoRealized, n);
    var cm3Per := PerCustomer(c.incrCm3, n);
    var ltv := firstOrderR;
    for i := 0 to |cm3Per|
      invariant ltv == Running(firstOrderR, cm3Per, i)
    {
      ltv := ltv + cm3Per[i];
    }
    var ltvCac := if cac.Some? && cac.value > 0 then RatioBp(ltv, cac.value) else None;
    var payback := PaybackCentimonths(c.sumFoRealized, OrZero(cac), c.incrCm3, n, metric, mode);
    var cells := ApplyCohortMode(metric, mode, firstOrder, firstOrderR, OrZero(cac), IncrementsFor(c, metric));
    row := CohortRow(cac, payback, firstOrder, firstOrderR, ltv, ltvCac, cells);
  }
}
