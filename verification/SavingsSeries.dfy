/**
 The dashboard chart (`_bucket_starts` and `measured_savings_series` in
 `backend/app/savings.py`): a gap-filled axis of day, week or month buckets, and the
 cost and savings that fall in each. Dates are day numbers.
 */
module SavingsSeries {
  import opened Money
  import opened Calendar
  import opened Periods
  import opened Ledger

  // ----- the reference axis: bucket j covers days [First(g, j), First(g, j + 1)) -----

  function First(g: Granularity, j: int): int {
    match g
    case ByDay => j
    case ByWeek => 7 * j + 1  // day 1 is a Monday
    case ByMonth => MonthFirst(j)
  }

  function Index(g: Granularity, n: int): int {
    match g
    case ByDay => n
    case ByWeek => (n - 1) / 7
    case ByMonth => MonthOf(n)
  }

  /** `date_trunc(granularity, t)` as a day number. */
  function Trunc(g: Granularity, t: int): int {
    First(g, Index(g, t / DAY))
  }

  /** The buckets numbered `lo` to `hi`, in order. */
  function Axis(g: Granularity, lo: int, hi: int): (s: seq<int>)
    ensures |s| == if hi < lo then 0 else hi - lo + 1
    ensures forall i :: 0 <= i < |s| ==> s[i] == First(g, lo + i)
    decreases hi - lo + 1
  {
    if hi < lo then [] else Axis(g, lo, hi - 1) + [First(g, hi)]
  }

  lemma IndexBounds(g: Granularity, n: int)
    ensures First(g, Index(g, n)) <= n < First(g, Index(g, n) + 1)
  {
    hide MonthFirst, MonthOf;
  }

  lemma FirstIncreasing(g: Granularity, i: int, j: int)
    requires i < j
    ensures First(g, i) < First(g, j)
  {
    hide MonthFirst;
    if g == ByMonth {
      MonthFirstIncreasing(i, j);
    }
  }

  lemma IndexMonotone(g: Granularity, m: int, n: int)
    requires m <= n
    ensures Index(g, m) <= Index(g, n)
  {
    hide First, Index;
    IndexBounds(g, m);
    IndexBounds(g, n);
    var i, j := Index(g, m), Index(g, n);
    if j < i {
      if j + 1 < i { FirstIncreasing(g, j + 1, i); }
    }
  }

  /** The axis is strictly increasing. */
  lemma AxisStrictlyIncreasing(g: Granularity, lo: int, hi: int, i: int, j: int)
    requires 0 <= i < j < |Axis(g, lo, hi)|
    ensures Axis(g, lo, hi)[i] < Axis(g, lo, hi)[j]
  {
    hide First;
    FirstIncreasing(g, lo + i, lo + j);
  }

  /** The axis of a window carries the truncation of every instant in it. */
  lemma AxisCoversWindow(w: PeriodWindow, t: int)
    requires w.start <= t < w.end
    ensures
      var g := w.granularity;
      Trunc(g, t) in Axis(g, Index(g, w.start / DAY), Index(g, w.end / DAY))
  {
    hide First, Index;
    var g := w.granularity;
    var lo, j, hi := Index(g, w.start / DAY), Index(g, t / DAY), Index(g, w.end / DAY);
    IndexMonotone(g, w.start / DAY, t / DAY);
    IndexMonotone(g, t / DAY, w.end / DAY);
    assert Axis(g, lo, hi)[j - lo] == Trunc(g, t);
  }

  /** The axis is one bucket longer than the window needs exactly when the exclusive window
      end is itself a bucket boundary. */
  lemma LastBucketIsPhantom(w: PeriodWindow)
    requires w.start < w.end
    ensures
      var g := w.granularity;
      (forall t :: w.start <= t < w.end ==> Trunc(g, t) != Trunc(g, w.end))
        <==> w.end == Trunc(g, w.end) * DAY
  {
    hide First, Index;
    var g := w.granularity;
    var j := Index(g, w.end / DAY);
    IndexBounds(g, w.end / DAY);
    if w.end == First(g, j) * DAY {
      forall t | w.start <= t < w.end
        ensures Trunc(g, t) != Trunc(g, w.end)
      {
        IndexBounds(g, t / DAY);
      }
    } else {
      var t := if w.start <= First(g, j) * DAY then First(g, j) * DAY else w.end - 1;
      assert w.start <= t < w.end;
      assert First(g, j) <= t / DAY < First(g, j + 1);
      IndexUnique(g, t / DAY, j);
      assert Trunc(g, t) == Trunc(g, w.end);
    }
  }

  lemma IndexUnique(g: Granularity, n: int, j: int)
    requires First(g, j) <= n < First(g, j + 1)
    ensures Index(g, n) == j
  {
    hide First, Index;
    IndexBounds(g, n);
    var i := Index(g, n);
    if i < j {
      if i + 1 < j { FirstIncreasing(g, i + 1, j); }
    } else if j < i {
      if j + 1 < i { FirstIncreasing(g, j + 1, i); }
    }
  }

  // ----- the code: three loops -----

  function Weekday(t: int): int {
    (t / DAY + 6) % 7
  }

  function NextMonth(d: Date): Date {
    if d.month == 12 then d.(year := d.year + 1, month := 1) else d.(month := d.month + 1)
  }

  lemma NextMonthStepsTheAxis(d: Date)
    requires Valid(d) && d.day == 1
    ensures Valid(NextMonth(d)) && NextMonth(d).day == 1
    ensures MonthIndex(NextMonth(d)) == MonthIndex(d) + 1
  {
  }

  lemma MondayOf(t: int)
    ensures (t - Weekday(t) * DAY) / DAY == First(ByWeek, Index(ByWeek, t / DAY))
  {
    var n, w := t / DAY, Weekday(t);
    InstantSplit(n - w, t % DAY);
    assert t - w * DAY == (n - w) * DAY + t % DAY;
  }

  method BucketStarts(w: PeriodWindow) returns (out: seq<int>)
    ensures out == Axis(w.granularity, Index(w.granularity, w.start / DAY), Index(w.granularity, w.end / DAY))
  {
    hide MonthFirst, MonthOf, DateOf;
    out := [];
    match w.granularity {
      case ByDay =>
        var cur, last := w.start / DAY, w.end / DAY;
        while cur <= last
          invariant out == Axis(ByDay, w.start / DAY, cur - 1)
          invariant cur <= last + 1 || cur == w.start / DAY
          decreases last + 1 - cur
        {
          out := out + [cur];
          cur := cur + 1;
        }
      case ByWeek =>
        var cur, last := (w.start - Weekday(w.start) * DAY) / DAY, (w.end - Weekday(w.end) * DAY) / DAY;
        MondayOf(w.start);
        MondayOf(w.end);
        ghost var lo, j, hi := Index(ByWeek, w.start / DAY), Index(ByWeek, w.start / DAY), Index(ByWeek, w.end / DAY);
        while cur <= last
          invariant cur == First(ByWeek, j)
          invariant out == Axis(ByWeek, lo, j - 1)
          invariant j <= hi + 1 || j == lo
          decreases last + 7 - cur
        {
          out := out + [cur];
          cur := cur + 7;
          j := j + 1;
        }
      case ByMonth =>
        var cur, last := DateOf(w.start).(day := 1), DateOf(w.end).(day := 1);
        DateOfMeaning(w.start);
        DateOfMeaning(w.end);
        ghost var lo, hi := MonthIndex(cur), MonthIndex(last);
        while Ordinal(cur) <= Ordinal(last)
          invariant Valid(cur) && cur.day == 1
          invariant out == Axis(ByMonth, lo, MonthIndex(cur) - 1)
          invariant MonthIndex(cur) <= hi + 1 || MonthIndex(cur) == lo
          decreases hi + 1 - MonthIndex(cur)
        {
          MonthLineOrder(MonthIndex(cur), hi);
          out := out + [Ordinal(cur)];
          NextMonthStepsTheAxis(cur);
          cur := NextMonth(cur);
        }
        MonthLineOrder(MonthIndex(cur), hi);
    }
  }

  lemma MonthLineOrder(i: int, j: int)
    ensures MonthFirst(i) <= MonthFirst(j) <==> i <= j
  {
    if i < j { MonthFirstIncreasing(i, j); }
    if j < i { MonthFirstIncreasing(j, i); }
  }

  // ----- the series -----

  /** `sum(column)` over the events grouped under bucket `d`. */
  function BucketSum(es: seq<Event>, g: Granularity, d: int, c: Column): real {
    if es == [] then 0.0
    else (if Trunc(g, es[0].at) == d then Amount(es[0], c) else 0.0) + BucketSum(es[1..], g, d, c)
  }

  /** `group by date_trunc(...)`: a row for every bucket that has an event, and no other. */
  function GroupByBucket(es: seq<Event>, g: Granularity): map<int, (real, real)> {
    map d | d in BucketDays(es, g) :: (BucketSum(es, g, d, Cost), BucketSum(es, g, d, Saved))
  }

  function BucketDays(es: seq<Event>, g: Granularity): (r: set<int>)
    ensures forall e :: e in es ==> Trunc(g, e.at) in r
  {
    if es == [] then {} else {Trunc(g, es[0].at)} + BucketDays(es[1..], g)
  }

  lemma {:induction false} EmptyBucketSumsToZero(es: seq<Event>, g: Granularity, d: int, c: Column)
    requires d !in BucketDays(es, g)
    ensures BucketSum(es, g, d, c) == 0.0
  {
    hide Trunc;
    if es != [] {
      EmptyBucketSumsToZero(es[1..], g, d, c);
    }
  }

  datatype Bar = Bar(date: int, optimized: int, saved: int, baseline: int)

  function BarAt(es: seq<Event>, g: Granularity, d: int): Bar {
    var optimized, saved := RoundHalfUp(BucketSum(es, g, d, Cost)), RoundHalfUp(BucketSum(es, g, d, Saved));
    Bar(d, optimized, saved, optimized + saved)
  }

  /** No bars without traffic, else one bar per axis bucket carrying that bucket's rounded
      sums, with a baseline built from the displayed segments. */
  ghost predicate IsChart(series: seq<Bar>, ledger: seq<Event>, w: PeriodWindow) {
    var es, g := InWindow(ledger, w.start, w.end), w.granularity;
    var axis := Axis(g, Index(g, w.start / DAY), Index(g, w.end / DAY));
    if es == [] then series == []
    else |series| == |axis| && forall i :: 0 <= i < |axis| ==> series[i] == BarAt(es, g, axis[i])
  }

  method MeasuredSavingsSeries(ledger: seq<Event>, w: PeriodWindow) returns (series: seq<Bar>)
    ensures IsChart(series, ledger, w)
  {
    hide Index, Trunc, RoundHalfUp;
    var es := InWindow(ledger, w.start, w.end);
    if es == [] {
      return [];
    }
    var byBucket := GroupByBucket(es, w.granularity);
    var axis := BucketStarts(w);
    series := [];
    for i := 0 to |axis|
      invariant |series| == i
      invariant forall k :: 0 <= k < i ==> series[k] == BarAt(es, w.granularity, axis[k])
    {
      var (optimized, saved) := if axis[i] in byBucket then byBucket[axis[i]] else (0.0, 0.0);
      if axis[i] !in byBucket {
        EmptyBucketSumsToZero(es, w.granularity, axis[i], Cost);
        EmptyBucketSumsToZero(es, w.granularity, axis[i], Saved);
      }
      var optimizedUsd, savedUsd := RoundHalfUp(optimized), RoundHalfUp(saved);
      series := series + [Bar(axis[i], optimizedUsd, savedUsd, optimizedUsd + savedUsd)];
    }
  }

  // ----- conservation -----

  function AxisSum(es: seq<Event>, g: Granularity, lo: int, hi: int, c: Column): real
    decreases hi - lo + 1
  {
    if hi < lo then 0.0 else AxisSum(es, g, lo, hi - 1, c) + BucketSum(es, g, First(g, hi), c)
  }

  /** An event adds its amount to exactly one bucket of any axis that reaches it. */
  lemma {:induction false} AxisSumCons(e: Event, es: seq<Event>, g: Granularity, lo: int, hi: int, c: Column)
    ensures
      var j := Index(g, e.at / DAY);
      AxisSum([e] + es, g, lo, hi, c) == AxisSum(es, g, lo, hi, c) + (if lo <= j <= hi then Amount(e, c) else 0.0)
    decreases hi - lo + 1
  {
    hide First, Index, Amount;
    if lo <= hi {
      AxisSumCons(e, es, g, lo, hi - 1, c);
      assert ([e] + es)[1..] == es;
      var j := Index(g, e.at / DAY);
      if j < hi { FirstIncreasing(g, j, hi); }
      if hi < j { FirstIncreasing(g, hi, j); }
    }
  }

  /** Nothing lost, nothing invented: if the axis reaches every event, its buckets sum to the total. */
  lemma {:induction false} AxisSumIsTotal(es: seq<Event>, g: Granularity, lo: int, hi: int, c: Column)
    requires forall e :: e in es ==> lo <= Index(g, e.at / DAY) <= hi
    ensures AxisSum(es, g, lo, hi, c) == Total(es, c)
  {
    hide Index, Amount;
    if es == [] {
      EmptyAxisSum(g, lo, hi, c);
    } else {
      AxisSumIsTotal(es[1..], g, lo, hi, c);
      assert es == [es[0]] + es[1..];
      AxisSumCons(es[0], es[1..], g, lo, hi, c);
    }
  }

  lemma {:induction false} EmptyAxisSum(g: Granularity, lo: int, hi: int, c: Column)
    ensures AxisSum([], g, lo, hi, c) == 0.0
    decreases hi - lo + 1
  {
    hide First;
    if lo <= hi {
      EmptyAxisSum(g, lo, hi - 1, c);
    }
  }

  /** Conservation before rounding: over every window and granularity the buckets of the
      chart sum to exactly the ledger's cost and saved totals. */
  lemma SeriesConservesLedger(ledger: seq<Event>, w: PeriodWindow, c: Column)
    ensures
      var es, g := InWindow(ledger, w.start, w.end), w.granularity;
      AxisSum(es, g, Index(g, w.start / DAY), Index(g, w.end / DAY), c) == Total(es, c)
  {
    hide Index, Amount;
    var es, g := InWindow(ledger, w.start, w.end), w.granularity;
    forall e | e in es
      ensures Index(g, w.start / DAY) <= Index(g, e.at / DAY) <= Index(g, w.end / DAY)
    {
      IndexMonotone(g, w.start / DAY, e.at / DAY);
      IndexMonotone(g, e.at / DAY, w.end / DAY);
    }
    AxisSumIsTotal(es, g, Index(g, w.start / DAY), Index(g, w.end / DAY), c);
  }

  /** A bucket holds the events of its half-open stretch of time, and no other. */
  lemma {:induction false} BucketSumIsIntervalTotal(es: seq<Event>, g: Granularity, j: int, c: Column)
    ensures BucketSum(es, g, First(g, j), c) == Total(InWindow(es, First(g, j) * DAY, First(g, j + 1) * DAY), c)
  {
    hide First, Index, Amount;
    if es != [] {
      BucketSumIsIntervalTotal(es[1..], g, j, c);
      InBucketIff(g, j, es[0].at);
      var rest := InWindow(es[1..], First(g, j) * DAY, First(g, j + 1) * DAY);
      assert ([es[0]] + rest)[1..] == rest && [] + rest == rest;
    }
  }

  lemma InBucketIff(g: Granularity, j: int, t: int)
    ensures Trunc(g, t) == First(g, j) <==> First(g, j) * DAY <= t < First(g, j + 1) * DAY
  {
    hide First, Index;
    var n := t / DAY;
    var i := Index(g, n);
    IndexBounds(g, n);
    if i < j {
      FirstIncreasing(g, i, j);
      if i + 1 < j { FirstIncreasing(g, i + 1, j); }
    } else if j < i {
      FirstIncreasing(g, j, i);
      if j + 1 < i { FirstIncreasing(g, j + 1, i); }
    }
  }

  /** The stretches are days, weeks from Monday and calendar months, and truncation goes to the first
      day of the one an instant falls in. */
  lemma BucketsAreCalendarUnits(t: int)
    ensures Trunc(ByDay, t) == t / DAY
    ensures t / DAY - 6 <= Trunc(ByWeek, t) <= t / DAY && IsMonday(Trunc(ByWeek, t))
    ensures Trunc(ByMonth, t) == Ordinal(DateOf(t).(day := 1))
  {
    hide Trunc, IsMonday, Ordinal, DateOf;
    DayBucket(t);
    WeekBucket(t);
    MonthBucket(t);
  }

  lemma DayBucket(t: int)
    ensures Trunc(ByDay, t) == t / DAY
  {
  }

  lemma WeekBucket(t: int)
    ensures t / DAY - 6 <= Trunc(ByWeek, t) <= t / DAY && IsMonday(Trunc(ByWeek, t))
  {
    hide IsMonday;
    MondayIsAWeekOn(Trunc(ByWeek, t));
  }

  lemma MonthBucket(t: int)
    ensures Trunc(ByMonth, t) == Ordinal(DateOf(t).(day := 1))
  {
    hide MonthFirst, MonthOf, DateOf;
    DateOfMeaning(t);
  }

  /** A whole number of weeks from Monday, 1 January 2024. */
  ghost predicate IsMonday(n: int) {
    (n - Ordinal(Date(2024, 1, 1))) % 7 == 0
  }

  lemma MondayIsAWeekOn(n: int)
    ensures IsMonday(n) <==> (n - 1) % 7 == 0
  {
    hide MonthFirst;
    OrdinalClosedForm(Date(2024, 1, 1));
    assert Ordinal(Date(2024, 1, 1)) == 738_886;
  }

  /** A window without traffic has no bars; any other has one for every bucket it meets and the one it
      ends in. */
  lemma ChartLength(series: seq<Bar>, ledger: seq<Event>, w: PeriodWindow)
    requires IsChart(series, ledger, w)
    ensures (forall e :: e in ledger ==> !(w.start <= e.at < w.end)) ==> series == []
    ensures (exists e :: e in ledger && w.start <= e.at < w.end) ==>
              |series| == Index(w.granularity, w.end / DAY) - Index(w.granularity, w.start / DAY) + 1
  {
    hide First, Index;
    var es := InWindow(ledger, w.start, w.end);
    if es != [] {
      assert es[0] in es;
      IndexMonotone(w.granularity, w.start / DAY, w.end / DAY);
    }
  }

  /** What the chart shows: one bar per day, week or month from the one the window starts in to the one
      it ends in, each with the rounded cost and savings of the window's events in it, and a baseline
      of both. */
  lemma BarsAreIntervalTotals(series: seq<Bar>, ledger: seq<Event>, w: PeriodWindow, i: nat)
    requires IsChart(series, ledger, w) && i < |series|
    ensures
      var g := w.granularity;
      var j := Index(g, w.start / DAY) + i;
      var es := InWindow(InWindow(ledger, w.start, w.end), First(g, j) * DAY, First(g, j + 1) * DAY);
      && j <= Index(g, w.end / DAY)
      && series[i] == Bar(First(g, j), RoundHalfUp(Total(es, Cost)), RoundHalfUp(Total(es, Saved)),
                          RoundHalfUp(Total(es, Cost)) + RoundHalfUp(Total(es, Saved)))
  {
    hide First, Index, RoundHalfUp, BucketSum, Total;
    var es, g := InWindow(ledger, w.start, w.end), w.granularity;
    var j := Index(g, w.start / DAY) + i;
    BucketSumIsIntervalTotal(es, g, j, Cost);
    BucketSumIsIntervalTotal(es, g, j, Saved);
  }

  // ----- after rounding -----

  function BarSum(es: seq<Event>, g: Granularity, lo: int, hi: int, c: Column): int
    decreases hi - lo + 1
  {
    if hi < lo then 0 else BarSum(es, g, lo, hi - 1, c) + RoundHalfUp(BucketSum(es, g, First(g, hi), c))
  }

  /** The number of buckets on the axis that have an event. */
  function NonEmptyBuckets(es: seq<Event>, g: Granularity, lo: int, hi: int): nat
    decreases hi - lo + 1
  {
    if hi < lo then 0
    else NonEmptyBuckets(es, g, lo, hi - 1) + (if First(g, hi) in BucketDays(es, g) then 1 else 0)
  }

  function SavedBars(series: seq<Bar>): seq<int> {
    seq(|series|, i requires 0 <= i < |series| => series[i].saved)
  }

  function OptimizedBars(series: seq<Bar>): seq<int> {
    seq(|series|, i requires 0 <= i < |series| => series[i].optimized)
  }

  /** `BarSum` is the sum of the displayed bars of the chart. */
  lemma {:induction false} BarSumIsSeriesSum(es: seq<Event>, g: Granularity, lo: int, hi: int, series: seq<Bar>)
    requires |series| == |Axis(g, lo, hi)|
    requires forall i :: 0 <= i < |series| ==> series[i] == BarAt(es, g, First(g, lo + i))
    ensures SumInt(SavedBars(series)) == BarSum(es, g, lo, hi, Saved)
    ensures SumInt(OptimizedBars(series)) == BarSum(es, g, lo, hi, Cost)
    decreases |series|
  {
    hide First, BucketSum, RoundHalfUp;
    if lo <= hi {
      var n := |series| - 1;
      var rest, last := series[..n], series[n];
      BarSumIsSeriesSum(es, g, lo, hi - 1, rest);
      assert SavedBars(series) == SavedBars(rest) + [last.saved];
      SumIntAppend(SavedBars(rest), [last.saved]);
      assert OptimizedBars(series) == OptimizedBars(rest) + [last.optimized];
      SumIntAppend(OptimizedBars(rest), [last.optimized]);
      assert lo + n == hi;
    }
  }

  /** Only buckets with traffic can round, each by at most half a cent. */
  lemma {:induction false} BarSumError(es: seq<Event>, g: Granularity, lo: int, hi: int, c: Column)
    ensures
      var bound := 0.5 * NonEmptyBuckets(es, g, lo, hi) as real;
      -bound <= BarSum(es, g, lo, hi, c) as real - AxisSum(es, g, lo, hi, c) <= bound
    decreases hi - lo + 1
  {
    hide First, BucketSum;
    if lo <= hi {
      BarSumError(es, g, lo, hi - 1, c);
      if First(g, hi) !in BucketDays(es, g) {
        EmptyBucketSumsToZero(es, g, First(g, hi), c);
      }
    }
  }

  /** The displayed bars differ from the ledger totals by at most half a cent per bucket with
      traffic, however long the gap-filled axis is. */
  lemma ChartWithinHalfCentPerBucket(series: seq<Bar>, ledger: seq<Event>, w: PeriodWindow)
    requires IsChart(series, ledger, w)
    ensures
      var es, g := InWindow(ledger, w.start, w.end), w.granularity;
      var bound := 0.5 * NonEmptyBuckets(es, g, Index(g, w.start / DAY), Index(g, w.end / DAY)) as real;
      && -bound <= SumInt(SavedBars(series)) as real - Total(es, Saved) <= bound
      && -bound <= SumInt(OptimizedBars(series)) as real - Total(es, Cost) <= bound
  {
    hide Index, Amount, First, BucketSum, RoundHalfUp;
    var es, g := InWindow(ledger, w.start, w.end), w.granularity;
    var lo, hi := Index(g, w.start / DAY), Index(g, w.end / DAY);
    if es != [] {
      BarSumIsSeriesSum(es, g, lo, hi, series);
      SeriesConservesLedger(ledger, w, Saved);
      SeriesConservesLedger(ledger, w, Cost);
      BarSumError(es, g, lo, hi, Saved);
      BarSumError(es, g, lo, hi, Cost);
    }
  }
}
