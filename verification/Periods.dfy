/**
 Period windows (`backend/app/periods.py`) and the month boundaries that billing and
 savings share (`month_start`, `month_end`, `previous_month_period`).
 */
module Periods {
  import opened Calendar

  datatype Period = Month | Quarter | Year
  datatype Granularity = ByDay | ByWeek | ByMonth

  datatype PeriodWindow = PeriodWindow(
    period: Period, start: int, end: int, prevStart: int, prevEnd: int, granularity: Granularity)
  {
    /** The same-elapsed prior window as a window in its own right. */
    function Prior(): PeriodWindow {
      PeriodWindow(period, prevStart, prevEnd, prevStart, prevStart, granularity)
    }
  }

  function ChartGranularity(p: Period): Granularity {
    match p case Month => ByDay case Quarter => ByWeek case Year => ByMonth
  }

  // ----- the code, on calendar fields -----

  function MonthStart(now: int): int {
    Midnight(DateOf(now).(day := 1))
  }

  function PeriodStart(now: int, p: Period): int {
    var d := DateOf(now);
    match p
    case Month => MonthStart(now)
    case Quarter => Midnight(d.(month := (d.month - 1) / 3 * 3 + 1, day := 1))
    case Year => Midnight(d.(month := 1, day := 1))
  }

  /** Step back a day and re-anchor; for a year, the same date one year earlier. */
  function PreviousStart(start: int, p: Period): int {
    if p == Year then
      var d := DateOf(start);
      Midnight(d.(year := d.year - 1)) + start % DAY
    else PeriodStart(start - DAY, p)
  }

  function ResolvePeriod(now: int, p: Period): PeriodWindow {
    var start := PeriodStart(now, p);
    var prevStart := PreviousStart(start, p);
    var prevEnd := if prevStart + (now - start) <= start then prevStart + (now - start) else start;
    PeriodWindow(p, start, now, prevStart, prevEnd, ChartGranularity(p))
  }

  function MonthEnd(now: int): int {
    var later := MonthStart(now) + 32 * DAY;
    Midnight(DateOf(later).(day := 1)) + later % DAY - SECOND
  }

  function PreviousMonthPeriod(now: int): (int, int) {
    var thisMonth := MonthStart(now);
    (MonthStart(thisMonth - DAY), thisMonth)
  }

  // ----- the reference: boundaries on the month line -----

  function Months(p: Period): (n: int)
    ensures n >= 1
  {
    match p case Month => 1 case Quarter => 3 case Year => 12
  }

  /** The `j`-th period boundary: the first instant of every first, third or twelfth month. */
  function Boundary(p: Period, j: int): int {
    MonthFirst(Months(p) * j) * DAY
  }

  /** The number of the period that contains `t`. */
  function PeriodOf(t: int, p: Period): int {
    MonthOf(t / DAY) / Months(p)
  }

  lemma BoundaryIncreasing(p: Period, i: int, j: int)
    requires i < j
    ensures Boundary(p, i) + DAY <= Boundary(p, j)
  {
    hide MonthFirst, MonthOf;
    var a, b := Months(p) * i, Months(p) * j;
    assert a < b;
    MonthFirstIncreasing(a, b);
  }

  lemma PeriodOfBounds(t: int, p: Period)
    ensures Boundary(p, PeriodOf(t, p)) <= t < Boundary(p, PeriodOf(t, p) + 1)
  {
    hide MonthFirst, MonthOf;
    var k, j := MonthOf(t / DAY), PeriodOf(t, p);
    assert Months(p) * j <= k < Months(p) * (j + 1);
    MonthFirstIncreasing(Months(p) * j, k);
    MonthFirstIncreasing(k + 1, Months(p) * (j + 1));
  }

  lemma PeriodOfUnique(t: int, p: Period, j: int)
    requires Boundary(p, j) <= t < Boundary(p, j + 1)
    ensures PeriodOf(t, p) == j
  {
    hide Boundary, PeriodOf;
    PeriodOfBounds(t, p);
    var i := PeriodOf(t, p);
    if i < j {
      assert i + 1 == j || i + 1 < j;
      if i + 1 < j { BoundaryIncreasing(p, i + 1, j); }
    } else if j < i {
      if j + 1 < i { BoundaryIncreasing(p, j + 1, i); }
    }
  }

  /** Re-anchoring calendar fields lands on the boundary of the period that contains the instant. */
  lemma PeriodStartIsBoundary(now: int, p: Period)
    ensures PeriodStart(now, p) == Boundary(p, PeriodOf(now, p))
  {
    hide MonthFirst, MonthOf, DateOf, IsLeap;
    var d := DateOf(now);
    DateOfMeaning(now);
    var k := MonthIndex(d);
    match p {
      case Month =>
      case Quarter =>
        assert k / 3 == 4 * d.year + (d.month - 1) / 3;
      case Year =>
        assert k / 12 == d.year;
    }
  }

  /** The period start is the greatest boundary at or before the instant. */
  lemma PeriodStartIsGreatestBoundary(now: int, p: Period)
    ensures exists j :: PeriodStart(now, p) == Boundary(p, j)
    ensures PeriodStart(now, p) <= now
    ensures forall i :: Boundary(p, i) <= now ==> Boundary(p, i) <= PeriodStart(now, p)
  {
    hide Boundary, PeriodOf, PeriodStart;
    var j := PeriodOf(now, p);
    PeriodStartIsBoundary(now, p);
    PeriodOfBounds(now, p);
    forall i | Boundary(p, i) <= now
      ensures Boundary(p, i) <= PeriodStart(now, p)
    {
      if j + 1 < i {
        BoundaryIncreasing(p, j + 1, i);
      } else if i < j {
        BoundaryIncreasing(p, i, j);
      }
    }
  }

  lemma BoundaryDate(k: int)
    ensures DateOf(MonthFirst(k) * DAY) == Date(k / 12, k % 12 + 1, 1)
  {
    hide MonthFirst, MonthOf, DateOf, IsLeap;
    DateRoundTrip(Date(k / 12, k % 12 + 1, 1), 0);
  }

  /** Which months begin a period. */
  predicate BeginsPeriod(month: int, p: Period) {
    (p == Quarter ==> month in {1, 4, 7, 10}) && (p == Year ==> month == 1)
  }

  lemma BeginsPeriodIff(d: Date, p: Period)
    requires 1 <= d.month <= 12
    ensures BeginsPeriod(d.month, p) <==> MonthIndex(d) % Months(p) == 0
  {
  }

  /** The boundaries are the midnights that begin a month, a calendar quarter or a year. */
  lemma BoundariesAreCalendar(t: int, p: Period)
    ensures (exists j :: t == Boundary(p, j)) <==>
              t % DAY == 0 && DateOf(t).day == 1 && BeginsPeriod(DateOf(t).month, p)
  {
    hide MonthFirst, MonthOf, DateOf, IsLeap, BeginsPeriod, Months;
    var d := DateOf(t);
    DateOfMeaning(t);
    BeginsPeriodIff(d, p);
    var k, n := MonthIndex(d), Months(p);
    if j :| t == Boundary(p, j) {
      BoundaryDate(n * j);
      assert k == n * j;
      MultipleOf(n, j);
    }
    if t % DAY == 0 && d.day == 1 && k % n == 0 {
      assert k == n * (k / n);
      assert t == Boundary(p, k / n);
    }
  }

  lemma MultipleOf(n: int, j: int)
    requires n > 0
    ensures n * j % n == 0
  {
    var q, r := n * j / n, n * j % n;
    assert n * (j - q) == r;
    assert j - q >= 1 ==> n * (j - q) >= n;
    assert j - q <= -1 ==> n * (j - q) <= -n;
  }

  /** Stepping back a day from a boundary lands in the period before it. */
  lemma DayBeforeBoundary(p: Period, j: int)
    ensures PeriodStart(Boundary(p, j) - DAY, p) == Boundary(p, j - 1)
  {
    hide Boundary, PeriodOf, PeriodStart;
    var t := Boundary(p, j) - DAY;
    BoundaryIncreasing(p, j - 1, j);
    PeriodOfUnique(t, p, j - 1);
    PeriodStartIsBoundary(t, p);
  }

  /** For every period the previous start is the immediately preceding boundary, and the
      year shortcut agrees with the general step-back-and-re-anchor recipe. */
  lemma PreviousStartIsPrecedingBoundary(p: Period, j: int)
    ensures PreviousStart(Boundary(p, j), p) == Boundary(p, j - 1)
    ensures PreviousStart(Boundary(p, j), p) == PeriodStart(Boundary(p, j) - DAY, p)
  {
    hide MonthFirst, MonthOf, DateOf, PeriodStart;
    DayBeforeBoundary(p, j);
    if p == Year {
      BoundaryDate(12 * j);
    }
  }

  /** The resolved window: to-date from the enclosing boundary, compared with the period
      immediately before it over the same elapsed time, cut at that period's own end. */
  lemma ResolvePeriodMeaning(now: int, p: Period)
    ensures
      var w, j := ResolvePeriod(now, p), PeriodOf(now, p);
      && w.period == p && w.start == Boundary(p, j) && w.end == now
      && (p == Month ==> w.granularity == ByDay) && (p == Quarter ==> w.granularity == ByWeek)
      && (p == Year ==> w.granularity == ByMonth)
      && w.start <= w.end < Boundary(p, j + 1)
      && w.prevStart == Boundary(p, j - 1)
      && w.prevStart <= w.prevEnd <= w.start
      && w.prevEnd - w.prevStart ==
           (if now - w.start <= Boundary(p, j) - Boundary(p, j - 1) then now - w.start
            else Boundary(p, j) - Boundary(p, j - 1))
  {
    hide Boundary, PeriodOf, PeriodStart, PreviousStart;
    var j := PeriodOf(now, p);
    PeriodStartIsBoundary(now, p);
    PeriodOfBounds(now, p);
    PreviousStartIsPrecedingBoundary(p, j);
    BoundaryIncreasing(p, j - 1, j);
  }

  /** The prior window is itself the resolved window of the instant the same time into the
      previous period, whenever that instant still lies inside it; its own prior window is empty. */
  lemma PriorIsResolvedWindow(now: int, p: Period)
    ensures
      var w := ResolvePeriod(now, p);
      && w.Prior().period == p && w.Prior().prevStart == w.Prior().prevEnd == w.Prior().start
      && (w.prevEnd < w.start ==>
            var v := ResolvePeriod(w.prevEnd, p);
            w.Prior().start == v.start && w.Prior().end == v.end && w.Prior().granularity == v.granularity)
  {
    hide Boundary, PeriodOf, PeriodStart, PreviousStart;
    var w, j := ResolvePeriod(now, p), PeriodOf(now, p);
    ResolvePeriodMeaning(now, p);
    if w.prevEnd < w.start {
      PeriodOfUnique(w.prevEnd, p, j - 1);
      PeriodStartIsBoundary(w.prevEnd, p);
    }
  }

  // ----- months: invoices and month ends -----

  /** `month_end` adds 32 days, re-anchors and steps back: always one second before the next month. */
  lemma MonthEndIsSecondBeforeNextMonth(now: int)
    ensures
      var k := PeriodOf(now, Month);
      MonthStart(now) == Boundary(Month, k) && MonthEnd(now) == Boundary(Month, k + 1) - SECOND
  {
    hide MonthFirst, MonthOf, DateOf, PeriodOf;
    var k := PeriodOf(now, Month);
    PeriodStartIsBoundary(now, Month);
    MonthStep(k);
    MonthStep(k + 1);
    var later := MonthStart(now) + 32 * DAY;
    PeriodOfUnique(later, Month, k + 1);
    PeriodStartIsBoundary(later, Month);
    assert later % DAY == 0;
  }

  /** The invoice window is the whole month before the current one. */
  lemma InvoiceWindowIsPreviousMonth(now: int)
    ensures
      var k := PeriodOf(now, Month);
      PreviousMonthPeriod(now) == (Boundary(Month, k - 1), Boundary(Month, k))
  {
    hide MonthFirst, MonthOf, DateOf, PeriodOf, Boundary;
    var k := PeriodOf(now, Month);
    PeriodStartIsBoundary(now, Month);
    DayBeforeBoundary(Month, k);
  }

  /** Invoice windows tile time: two of them coincide or are disjoint, consecutive months'
      windows abut, and every instant is billed by exactly the windows resolved in the
      month after it. */
  lemma InvoiceWindowsTileTime(now: int, other: int, t: int)
    ensures
      var (s1, e1), (s2, e2) := PreviousMonthPeriod(now), PreviousMonthPeriod(other);
      var k1, k2 := PeriodOf(now, Month), PeriodOf(other, Month);
      && (k1 == k2 ==> (s1, e1) == (s2, e2))
      && (k1 < k2 ==> e1 <= s2)
      && (k2 == k1 + 1 ==> e1 == s2)
      && (s1 <= t < e1 <==> PeriodOf(t, Month) == k1 - 1)
  {
    hide Boundary, PeriodOf, PreviousMonthPeriod;
    var k1, k2 := PeriodOf(now, Month), PeriodOf(other, Month);
    InvoiceWindowIsPreviousMonth(now);
    InvoiceWindowIsPreviousMonth(other);
    if k1 < k2 - 1 {
      BoundaryIncreasing(Month, k1, k2 - 1);
    }
    PeriodOfBounds(t, Month);
    if Boundary(Month, k1 - 1) <= t < Boundary(Month, k1) {
      PeriodOfUnique(t, Month, k1 - 1);
    }
  }

  /** The live preview's window `[month_start, month_end)` is the invoice window of that month
      without its last second: exactly the instants of that second are previewed by no window. */
  lemma PreviewWindowMissesLastSecond(now: int, later: int, t: int)
    requires PeriodOf(later, Month) == PeriodOf(now, Month) + 1
    ensures
      var (s, e) := PreviousMonthPeriod(later);
      && MonthStart(now) == s
      && (s <= t < e <==> MonthStart(now) <= t < MonthEnd(now) || e - SECOND <= t < e)
      && MonthEnd(now) == e - SECOND
  {
    hide Boundary, PeriodOf, PreviousMonthPeriod, MonthEnd, MonthStart;
    MonthEndIsSecondBeforeNextMonth(now);
    InvoiceWindowIsPreviousMonth(later);
    BoundaryIncreasing(Month, PeriodOf(now, Month), PeriodOf(later, Month));
  }
}
