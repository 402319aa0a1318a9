/**
 Recording applied recommendations: `record_applied_savings`, `_refresh_lever_savings` and the
 attribution totals of `compute_savings_summary` in `backend/app/savings.py`, for one project.
 */
module Attributions {
  import opened Money
  import opened Periods
  import opened Billing
  import WindowSavings

  type Lever = WindowSavings.Lever

  datatype Recommendation = Recommendation(id: nat, lever: Option<Lever>, estimate: Option<real>, measured: bool)

  datatype Attribution = Attribution(
    recommendation: nat, lever: Lever, measured: bool, start: int, end: int, gross: int, fee: int, net: int)

  /** One application: the recommendation as it stands, the organization's rate, and the time. */
  datatype Apply = Apply(rec: Recommendation, percent: real, now: int)

  /** Whether an application carries dollar savings to attribute. */
  predicate Attributable(a: Apply) {
    a.rec.lever.Some? && a.rec.estimate.Some? && a.rec.estimate.value > 0.0
  }

  /** The row an attributable application writes. */
  function RowFor(a: Apply): Attribution
    requires Attributable(a)
  {
    var gross := RoundHalfUp(a.rec.estimate.value);
    var fee := Share(gross, DashboardPercent(a.percent));
    Attribution(a.rec.id, a.rec.lever.value, a.rec.measured, MonthStart(a.now), MonthEnd(a.now),
                gross, fee, gross - fee)
  }

  /** What an attribution must show of the application that wrote it: the estimate to the cent, halves
      up, the rounded fee at the rate up to 25%, the rest as net, in the application's month. */
  ghost predicate Shows(r: Attribution, a: Apply)
    requires a.rec.estimate.Some?
  {
    var rate := if a.percent <= 0.25 then a.percent else 0.25;
    var exact := r.gross as real * rate;
    && r.recommendation == a.rec.id && r.measured == a.rec.measured
    && r.start == MonthStart(a.now) && r.end == MonthEnd(a.now)
    && -0.5 < r.gross as real - a.rec.estimate.value <= 0.5
    && -0.5 <= r.fee as real - exact <= 0.5 && (exact >= 0.0 ==> -0.5 < r.fee as real - exact)
    && r.net == r.gross - r.fee
  }

  lemma RowForShows(a: Apply)
    requires Attributable(a)
    ensures Shows(RowFor(a), a) && Some(RowFor(a).lever) == a.rec.lever
  {
    hide MonthStart, MonthEnd;
  }

  predicate SameSlot(r: Attribution, s: Attribution) {
    r.recommendation == s.recommendation && r.start == s.start && r.end == s.end
  }

  /** The first row for the same recommendation and period. */
  function Find(rows: seq<Attribution>, r: Attribution): (i: nat)
    ensures i <= |rows| && (i < |rows| ==> SameSlot(rows[i], r))
    ensures forall j :: 0 <= j < i ==> !SameSlot(rows[j], r)
  {
    if rows == [] || SameSlot(rows[0], r) then 0 else 1 + Find(rows[1..], r)
  }

  /** Refresh the slot's row, keeping the lever it was created with, or append a new one. */
  function Upsert(rows: seq<Attribution>, r: Attribution): seq<Attribution> {
    var i := Find(rows, r);
    if i < |rows| then rows[i := r.(lever := rows[i].lever)] else rows + [r]
  }

  /** `sum(gross)` over a lever's rows of one period. */
  function LeverTotal(rows: seq<Attribution>, l: Lever, start: int, end: int): int {
    if rows == [] then 0
    else (if rows[0].lever == l && rows[0].start == start && rows[0].end == end then rows[0].gross else 0)
         + LeverTotal(rows[1..], l, start, end)
  }

  /** The attributions, and the savings-to-date of every configured lever. */
  datatype Book = Book(rows: seq<Attribution>, toDate: map<Lever, int>)

  function Applied(b: Book, a: Apply): Book {
    if !Attributable(a) then b
    else
      var r := RowFor(a);
      var rows := Upsert(b.rows, r);
      var total := LeverTotal(rows, r.lever, r.start, r.end);
      Book(rows, if r.lever in b.toDate then b.toDate[r.lever := total] else b.toDate)
  }

  datatype Action = Action(recommendation: nat, estimate: Option<real>, realized: Option<int>, now: int)

  class SavingsBook {
    var rows: seq<Attribution>
    var toDate: map<Lever, int>
    var actions: seq<Action>

    function AsBook(): Book
      reads this
    {
      Book(rows, toDate)
    }

    constructor (levers: set<Lever>)
      ensures rows == [] && actions == [] && toDate == map l | l in levers :: 0
    {
      rows, actions := [], [];
      toDate := map l | l in levers :: 0;
    }

    /** Set a lever's savings-to-date to the sum of its rows for the period, if it is configured. */
    method RefreshLeverSavings(l: Lever, start: int, end: int)
      modifies this`toDate
      ensures toDate == if l in old(toDate) then old(toDate)[l := LeverTotal(rows, l, start, end)] else old(toDate)
    {
      var total := 0;
      for i := 0 to |rows|
        invariant total + LeverTotal(rows[i..], l, start, end) == LeverTotal(rows, l, start, end)
        invariant toDate == old(toDate)
      {
        assert rows[i..][1..] == rows[i + 1..];
        if rows[i].lever == l && rows[i].start == start && rows[i].end == end {
          total := total + rows[i].gross;
        }
      }
      if l in toDate {
        toDate := toDate[l := total];
      }
    }

    /** Record an application: an action always; an attribution and a refreshed lever total when
        it carries savings. */
    method RecordAppliedSavings(a: Apply) returns (written: Option<Attribution>)
      modifies this
      ensures AsBook() == Applied(old(AsBook()), a)
      ensures written.Some? <==> a.rec.lever.Some? && a.rec.estimate.Some? && a.rec.estimate.value > 0.0
      ensures written.Some? ==> written.value in rows && Shows(written.value, a)
      ensures
        var realized := if written.Some? then Some(written.value.net) else None;
        actions == old(actions) + [Action(a.rec.id, a.rec.estimate, realized, a.now)]
    {
      hide RowFor, MonthStart, MonthEnd;
      if !Attributable(a) {
        actions := actions + [Action(a.rec.id, a.rec.estimate, None, a.now)];
        return None;
      }
      var entry := RowFor(a);
      var i := Find(rows, entry);
      if i < |rows| {
        entry := entry.(lever := rows[i].lever);
        rows := rows[i := entry];
      } else {
        rows := rows + [entry];
      }
      assert entry == rows[i];
      actions := actions + [Action(a.rec.id, a.rec.estimate, Some(entry.net), a.now)];
      RefreshLeverSavings(a.rec.lever.value, RowFor(a).start, RowFor(a).end);
      RowForLever(a);
      RowForShows(a);
      return Some(entry);
    }
  }

  lemma RowForLever(a: Apply)
    requires Attributable(a)
    ensures RowFor(a).lever == a.rec.lever.value && RowFor(a).recommendation == a.rec.id
    ensures RowFor(a).gross == RowFor(a).fee + RowFor(a).net
  {
  }

  /** The attributed fee is never negative and never above 25% of the attributed gross. */
  lemma AttributedFeeIsCapped(a: Apply)
    requires Attributable(a) && a.percent >= 0.0
    ensures 0 <= RowFor(a).fee <= Share(RowFor(a).gross, MAX_SHARE) && RowFor(a).net >= 0
  {
    hide MonthStart, MonthEnd, Share;
    var gross, rate := RowFor(a).gross, DashboardPercent(a.percent);
    ShareIsGentle(0, gross, rate);
    ShareGrowsWithRate(gross, rate, MAX_SHARE);
    ShareGrowsWithRate(gross, MAX_SHARE, 1.0);
    WholeShareIsGross(gross);
  }

  // ----- runs -----

  function AppliedAll(b: Book, run: seq<Apply>): Book {
    if run == [] then b else Applied(AppliedAll(b, run[..|run| - 1]), run[|run| - 1])
  }

  /** A recommendation keeps its lever throughout a run. */
  ghost predicate LeversFixed(run: seq<Apply>) {
    forall i, j :: 0 <= i < |run| && 0 <= j < |run| && run[i].rec.id == run[j].rec.id ==>
      run[i].rec.lever == run[j].rec.lever
  }

  ghost predicate OneRowPerSlot(rows: seq<Attribution>) {
    forall i, j :: 0 <= i < j < |rows| ==> !SameSlot(rows[i], rows[j])
  }

  ghost predicate Balanced(rows: seq<Attribution>) {
    forall r :: r in rows ==> r.gross == r.fee + r.net
  }

  /** A refreshed row keeps its place and the lever it was created with; a new one comes last. */
  lemma UpsertKeepsLevers(rows: seq<Attribution>, r: Attribution)
    ensures |rows| <= |Upsert(rows, r)| <= |rows| + 1
    ensures forall j :: 0 <= j < |rows| ==> Upsert(rows, r)[j].lever == rows[j].lever
    ensures |Upsert(rows, r)| > |rows| ==> Upsert(rows, r)[|rows|] == r
  {
  }

  lemma UpsertKeepsSlots(rows: seq<Attribution>, r: Attribution)
    requires OneRowPerSlot(rows)
    ensures OneRowPerSlot(Upsert(rows, r))
  {
    var after, i := Upsert(rows, r), Find(rows, r);
    if i < |rows| {
      assert forall j :: 0 <= j < |rows| ==> SameSlot(after[j], rows[j]);
    }
  }

  /** Over every run each recommendation has at most one row per month, and on every row the gross
      is the fee plus the net. */
  lemma {:induction false} RowsStayUniqueAndBalanced(run: seq<Apply>, toDate: map<Lever, int>)
    ensures
      var b := AppliedAll(Book([], toDate), run);
      OneRowPerSlot(b.rows) && Balanced(b.rows)
  {
    hide RowFor, Upsert;
    if run != [] {
      var n := |run| - 1;
      var before := AppliedAll(Book([], toDate), run[..n]);
      RowsStayUniqueAndBalanced(run[..n], toDate);
      if Attributable(run[n]) {
        UpsertKeepsSlots(before.rows, RowFor(run[n]));
        RowForLever(run[n]);
        UpsertKeepsBalance(before.rows, RowFor(run[n]));
      }
    }
  }

  lemma UpsertKeepsBalance(rows: seq<Attribution>, r: Attribution)
    requires Balanced(rows) && r.gross == r.fee + r.net
    ensures Balanced(Upsert(rows, r))
  {
  }

  datatype Column = Gross | Fee | Net

  function Amount(r: Attribution, c: Column): int {
    match c
    case Gross => r.gross
    case Fee => r.fee
    case Net => r.net
  }

  /** `sum(column)` over the rows of one month. */
  function MonthTotal(rows: seq<Attribution>, start: int, end: int, c: Column): int {
    if rows == [] then 0
    else (if rows[0].start == start && rows[0].end == end then Amount(rows[0], c) else 0)
         + MonthTotal(rows[1..], start, end, c)
  }

  /** A row adds its own column to its month's total, and its gross to its lever's. */
  lemma {:induction false} TotalsAppend(rows: seq<Attribution>, r: Attribution, l: Lever, start: int, end: int)
    ensures
      var all, inMonth := rows + [r], r.start == start && r.end == end;
      && MonthTotal(all, start, end, Gross) == MonthTotal(rows, start, end, Gross) + (if inMonth then r.gross else 0)
      && MonthTotal(all, start, end, Fee) == MonthTotal(rows, start, end, Fee) + (if inMonth then r.fee else 0)
      && MonthTotal(all, start, end, Net) == MonthTotal(rows, start, end, Net) + (if inMonth then r.net else 0)
      && LeverTotal(all, l, start, end)
         == LeverTotal(rows, l, start, end) + (if inMonth && r.lever == l then r.gross else 0)
  {
    if rows == [] {
      assert (rows + [r])[1..] == [];
    } else {
      assert (rows + [r])[1..] == rows[1..] + [r];
      TotalsAppend(rows[1..], r, l, start, end);
    }
  }

  /** The levers split a month's gross among them. */
  lemma {:induction false} LeversPartitionMonth(rows: seq<Attribution>, start: int, end: int)
    ensures
      MonthTotal(rows, start, end, Gross)
      == LeverTotal(rows, WindowSavings.SemanticCache, start, end)
       + LeverTotal(rows, WindowSavings.ModelDownshift, start, end)
       + LeverTotal(rows, WindowSavings.Batching, start, end) + LeverTotal(rows, WindowSavings.TokenTrim, start, end)
       + LeverTotal(rows, WindowSavings.SmartRouting, start, end)
       + LeverTotal(rows, WindowSavings.PromptCompression, start, end)
  {
    if rows != [] {
      LeversPartitionMonth(rows[1..], start, end);
    }
  }

  /** So the monthly totals that the summary reports add up exactly too. */
  lemma {:induction false} MonthTotalsAddUp(rows: seq<Attribution>, start: int, end: int)
    requires Balanced(rows)
    ensures MonthTotal(rows, start, end, Gross) == MonthTotal(rows, start, end, Fee) + MonthTotal(rows, start, end, Net)
  {
    if rows != [] {
      assert rows[0] in rows;
      assert forall r :: r in rows[1..] ==> r in rows;
      MonthTotalsAddUp(rows[1..], start, end);
    }
  }

  // ----- savings to date -----

  /** Every row carries the lever its recommendation has in the run. */
  ghost predicate LeversAgree(rows: seq<Attribution>, run: seq<Apply>) {
    forall r :: r in rows ==>
      exists i :: 0 <= i < |run| && run[i].rec.id == r.recommendation && run[i].rec.lever == Some(r.lever)
  }

  lemma {:induction false} RowsKeepLevers(run: seq<Apply>, toDate: map<Lever, int>)
    ensures LeversAgree(AppliedAll(Book([], toDate), run).rows, run)
  {
    hide RowFor;
    if run != [] {
      var n := |run| - 1;
      var before, after := AppliedAll(Book([], toDate), run[..n]).rows, AppliedAll(Book([], toDate), run).rows;
      RowsKeepLevers(run[..n], toDate);
      if Attributable(run[n]) {
        RowForLever(run[n]);
      }
      forall r | r in after
        ensures exists i :: 0 <= i < |run| && run[i].rec.id == r.recommendation && run[i].rec.lever == Some(r.lever)
      {
        if r in before {
          var i :| 0 <= i < n && run[..n][i].rec.id == r.recommendation && run[..n][i].rec.lever == Some(r.lever);
          assert run[i] == run[..n][i];
        } else {
          var entry := RowFor(run[n]);
          var i := Find(before, entry);
          if i < |before| {
            assert before[i] in before;
            var k :| 0 <= k < n && run[..n][k].rec.id == before[i].recommendation
                     && run[..n][k].rec.lever == Some(before[i].lever);
            assert run[k] == run[..n][k] && r == entry.(lever := before[i].lever);
          } else {
            assert r == entry;
            assert run[n].rec.lever == Some(r.lever);
          }
        }
      }
    }
  }

  /** The last attributable application of a lever. */
  function LastFor(run: seq<Apply>, l: Lever): Option<Apply> {
    if run == [] then None
    else
      var a := run[|run| - 1];
      if Attributable(a) && a.rec.lever == Some(l) then Some(a) else LastFor(run[..|run| - 1], l)
  }

  lemma {:induction false} LeverTotalAppend(a: seq<Attribution>, b: seq<Attribution>, l: Lever, start: int, end: int)
    ensures LeverTotal(a + b, l, start, end) == LeverTotal(a, l, start, end) + LeverTotal(b, l, start, end)
  {
    if a == [] {
      assert a + b == b;
    } else {
      assert (a + b)[1..] == a[1..] + b;
      LeverTotalAppend(a[1..], b, l, start, end);
    }
  }

  /** Writing a row of one lever leaves every other lever's totals alone. */
  lemma UpsertKeepsOtherLevers(rows: seq<Attribution>, r: Attribution, l: Lever, start: int, end: int)
    requires l != r.lever
    requires Find(rows, r) < |rows| ==> rows[Find(rows, r)].lever == r.lever
    ensures LeverTotal(Upsert(rows, r), l, start, end) == LeverTotal(rows, l, start, end)
  {
    hide Find;
    var i := Find(rows, r);
    if i < |rows| {
      var s := r.(lever := rows[i].lever);
      assert rows == rows[..i] + [rows[i]] + rows[i + 1..];
      assert Upsert(rows, r) == rows[..i] + [s] + rows[i + 1..];
      LeverTotalAppend(rows[..i] + [rows[i]], rows[i + 1..], l, start, end);
      LeverTotalAppend(rows[..i], [rows[i]], l, start, end);
      LeverTotalAppend(rows[..i] + [s], rows[i + 1..], l, start, end);
      LeverTotalAppend(rows[..i], [s], l, start, end);
    } else {
      LeverTotalAppend(rows, [r], l, start, end);
    }
  }

  /** At every point of every run, a configured lever's savings-to-date is the sum of its rows for
      the month it was last applied in: applications of other levers never disturb it. */
  lemma {:induction false} ToDateIsMonthTotal(run: seq<Apply>, toDate: map<Lever, int>, l: Lever)
    requires LeversFixed(run) && l in toDate && LastFor(run, l).Some?
    ensures
      var b, a := AppliedAll(Book([], toDate), run), LastFor(run, l).value;
      l in b.toDate && b.toDate[l] == LeverTotal(b.rows, l, MonthStart(a.now), MonthEnd(a.now))
  {
    hide RowFor, MonthStart, MonthEnd;
    var n := |run| - 1;
    var before, a := AppliedAll(Book([], toDate), run[..n]), run[n];
    ConfiguredLeversStay(run[..n], toDate, l);
    if Attributable(a) {
      RowForLever(a);
      RowForMonth(a);
      if a.rec.lever != Some(l) {
        ToDateIsMonthTotal(run[..n], toDate, l);
        var r := RowFor(a);
        var last := LastFor(run[..n], l).value;
        FoundRowHasSameLever(run, toDate);
        UpsertKeepsOtherLevers(before.rows, r, l, MonthStart(last.now), MonthEnd(last.now));
      }
    } else {
      ToDateIsMonthTotal(run[..n], toDate, l);
    }
  }

  lemma RowForMonth(a: Apply)
    requires Attributable(a)
    ensures RowFor(a).start == MonthStart(a.now) && RowFor(a).end == MonthEnd(a.now)
  {
    hide MonthStart, MonthEnd;
  }

  lemma {:induction false} ConfiguredLeversStay(run: seq<Apply>, toDate: map<Lever, int>, l: Lever)
    ensures l in AppliedAll(Book([], toDate), run).toDate <==> l in toDate
  {
    hide RowFor, Upsert, LeverTotal;
    if run != [] {
      ConfiguredLeversStay(run[..|run| - 1], toDate, l);
    }
  }

  lemma FoundRowHasSameLever(run: seq<Apply>, toDate: map<Lever, int>)
    requires run != [] && LeversFixed(run) && Attributable(run[|run| - 1])
    ensures
      var rows, r := AppliedAll(Book([], toDate), run[..|run| - 1]).rows, RowFor(run[|run| - 1]);
      Find(rows, r) < |rows| ==> rows[Find(rows, r)].lever == r.lever
  {
    hide RowFor, AppliedAll;
    var n := |run| - 1;
    var rows, r := AppliedAll(Book([], toDate), run[..n]).rows, RowFor(run[n]);
    RowForLever(run[n]);
    RowsKeepLevers(run[..n], toDate);
    var i := Find(rows, r);
    if i < |rows| {
      assert rows[i] in rows;
      var k :| 0 <= k < n && run[..n][k].rec.id == rows[i].recommendation
               && run[..n][k].rec.lever == Some(rows[i].lever);
      assert run[k] == run[..n][k];
    }
  }

  // ----- re-applying -----

  /** The row last written in a run for the recommendation and month of the given row. */
  function LastRow(run: seq<Apply>, r: Attribution): Option<Attribution> {
    if run == [] then None
    else
      var a := run[|run| - 1];
      if Attributable(a) && SameSlot(RowFor(a), r) then Some(RowFor(a)) else LastRow(run[..|run| - 1], r)
  }

  /** A slot holds a row exactly if the run wrote one, and it shows the last one written, under the
      lever the row was created with. */
  ghost predicate ShowsLast(rows: seq<Attribution>, last: Option<Attribution>, r: Attribution) {
    && (last.Some? ==> exists j :: 0 <= j < |rows| && SameSlot(rows[j], r))
    && forall j :: 0 <= j < |rows| && SameSlot(rows[j], r) ==>
         last.Some? && rows[j] == last.value.(lever := rows[j].lever)
  }

  lemma {:induction false} SlotShowsLast(run: seq<Apply>, toDate: map<Lever, int>, r: Attribution)
    ensures ShowsLast(AppliedAll(Book([], toDate), run).rows, LastRow(run, r), r)
  {
    hide RowFor, ShowsLast, Upsert;
    if run == [] {
      EmptyShowsLast(r);
    } else {
      var n := |run| - 1;
      SlotShowsLast(run[..n], toDate, r);
      if Attributable(run[n]) {
        RowsStayUniqueAndBalanced(run[..n], toDate);
        UpsertShowsLast(AppliedAll(Book([], toDate), run[..n]).rows, LastRow(run[..n], r), RowFor(run[n]), r);
      }
    }
  }

  lemma EmptyShowsLast(r: Attribution)
    ensures ShowsLast([], None, r)
  {
  }

  lemma UpsertShowsLast(rows: seq<Attribution>, last: Option<Attribution>, entry: Attribution, r: Attribution)
    requires OneRowPerSlot(rows) && ShowsLast(rows, last, r)
    ensures ShowsLast(Upsert(rows, entry), if SameSlot(entry, r) then Some(entry) else last, r)
  {
    hide Find;
    var after, i := Upsert(rows, entry), Find(rows, entry);
    assert SameSlot(after[i], entry);
    assert forall j :: 0 <= j < |rows| && j != i ==> after[j] == rows[j];
    if i < |rows| {
      assert forall j :: 0 <= j < |rows| ==> SameSlot(after[j], rows[j]);
    }
    if last.Some? && !SameSlot(entry, r) {
      var j :| 0 <= j < |rows| && SameSlot(rows[j], r);
      assert SameSlot(after[j], r);
    }
  }

  /** The last row of a slot carries the lever its recommendation has throughout the run. */
  lemma {:induction false} LastRowLever(run: seq<Apply>, r: Attribution, a: Apply)
    requires Attributable(a) && a.rec.id == r.recommendation
    requires forall i :: 0 <= i < |run| && run[i].rec.id == a.rec.id ==> run[i].rec.lever == a.rec.lever
    ensures LastRow(run, r).Some? ==> LastRow(run, r).value.lever == a.rec.lever.value
  {
    hide RowFor;
    if run != [] {
      var n := |run| - 1;
      LastRowLever(run[..n], r, a);
      if Attributable(run[n]) {
        RowForLever(run[n]);
      }
    }
  }

  /** Writing a row changes nothing if and only if its slot already shows it. */
  lemma UpsertKeepsIff(rows: seq<Attribution>, last: Option<Attribution>, r: Attribution)
    requires ShowsLast(rows, last, r) && (last.Some? ==> last.value.lever == r.lever)
    ensures Upsert(rows, r) == rows <==> last == Some(r)
  {
    hide Find;
    var i := Find(rows, r);
    if i < |rows| {
      assert last.Some? && rows[i] == last.value.(lever := rows[i].lever);
      assert Upsert(rows, r)[i] == r.(lever := rows[i].lever);
    } else {
      assert |Upsert(rows, r)| == |rows| + 1;
    }
  }

  /** After any run, an application changes no row if and only if the last one of its recommendation
      in its month wrote the same row; and then it leaves the savings-to-date as they were if and only
      if the lever's totals for the month it was last applied in and for this month are equal. */
  lemma ApplyChangesNothingIff(run: seq<Apply>, toDate: map<Lever, int>, a: Apply)
    requires LeversFixed(run + [a]) && Attributable(a)
    ensures
      var b, l, r := AppliedAll(Book([], toDate), run), a.rec.lever.value, RowFor(a);
      && (Applied(b, a).rows == b.rows <==> LastRow(run, r) == Some(r))
      && (LastRow(run, r) == Some(r) ==>
            && LastFor(run, l).Some?
            && var last := LastFor(run, l).value.now;
               (Applied(b, a) == b <==>
                  (l in toDate ==> LeverTotal(b.rows, l, MonthStart(last), MonthEnd(last))
                                   == LeverTotal(b.rows, l, MonthStart(a.now), MonthEnd(a.now)))))
  {
    hide RowFor, ShowsLast, Upsert, LeverTotal, MonthStart, MonthEnd, AppliedAll, LastRow, LastFor;
    var b, l, r := AppliedAll(Book([], toDate), run), a.rec.lever.value, RowFor(a);
    RowForLever(a);
    RowForMonth(a);
    EarlierLeversFixed(run, a);
    SlotShowsLast(run, toDate, r);
    LastRowLever(run, r, a);
    UpsertKeepsIff(b.rows, LastRow(run, r), r);
    ConfiguredLeversStay(run, toDate, l);
    if LastRow(run, r) == Some(r) {
      LastRowMeansLastFor(run, r);
      if l in toDate {
        ToDateIsMonthTotal(run, toDate, l);
      }
    }
  }

  lemma EarlierLeversFixed(run: seq<Apply>, a: Apply)
    requires LeversFixed(run + [a])
    ensures LeversFixed(run)
    ensures forall i :: 0 <= i < |run| && run[i].rec.id == a.rec.id ==> run[i].rec.lever == a.rec.lever
  {
    var all := run + [a];
    assert forall i :: 0 <= i < |run| ==> run[i] == all[i];
    assert all[|run|] == a;
  }

  lemma {:induction false} LastRowMeansLastFor(run: seq<Apply>, r: Attribution)
    requires LastRow(run, r) == Some(r)
    ensures LastFor(run, r.lever).Some?
  {
    hide RowFor;
    var n := |run| - 1;
    if Attributable(run[n]) {
      RowForLever(run[n]);
    }
    if !(Attributable(run[n]) && SameSlot(RowFor(run[n]), r)) {
      LastRowMeansLastFor(run[..n], r);
    }
  }

  predicate InOrder(run: seq<Apply>) {
    forall i, j :: 0 <= i < j < |run| ==> run[i].now <= run[j].now
  }

  /** Since application `i` its recommendation, and the rate, have stayed what they were. */
  ghost predicate UnchangedSince(run: seq<Apply>, i: nat)
    requires i < |run|
  {
    forall j :: i < j < |run| && run[j].rec.id == run[i].rec.id ==> run[j] == run[i].(now := run[j].now)
  }

  /** Re-applying a recommendation that is unchanged since an earlier application in the same month
      leaves every row and every total as it was, whatever was applied in between. */
  lemma ReapplyChangesNothing(run: seq<Apply>, toDate: map<Lever, int>, i: nat, a: Apply)
    requires i < |run| && UnchangedSince(run, i) && a == run[i].(now := a.now)
    requires LeversFixed(run) && InOrder(run + [a]) && PeriodOf(a.now, Month) == PeriodOf(run[i].now, Month)
    ensures
      var b := AppliedAll(Book([], toDate), run);
      Applied(b, a) == b
  {
    hide RowFor, LeverTotal, MonthStart, MonthEnd, AppliedAll, Upsert, LastRow, LastFor, PeriodOf;
    if Attributable(a) {
      var l := a.rec.lever.value;
      assert forall j :: 0 <= j < |run| ==> (run + [a])[j] == run[j];
      assert (run + [a])[|run|] == a;
      LastRowIsUnchanged(run, i, a);
      LastForIsRecent(run, i, l);
      var k :| i <= k < |run| && LastFor(run, l) == Some(run[k]);
      SameMonthBetween(run[i].now, run[k].now, a.now);
      ApplyChangesNothingIff(run, toDate, a);
    }
  }

  lemma SameMonthBetween(s: int, t: int, u: int)
    requires s <= t <= u && PeriodOf(s, Month) == PeriodOf(u, Month)
    ensures PeriodOf(t, Month) == PeriodOf(s, Month)
    ensures MonthStart(t) == MonthStart(u) && MonthEnd(t) == MonthEnd(u)
  {
    hide PeriodOf, MonthStart, MonthEnd, Boundary;
    PeriodOfBounds(s, Month);
    PeriodOfBounds(u, Month);
    PeriodOfUnique(t, Month, PeriodOf(s, Month));
    MonthEndIsSecondBeforeNextMonth(t);
    MonthEndIsSecondBeforeNextMonth(u);
  }

  /** An application at another time of the same month writes the same row. */
  lemma SameMonthSameRow(a: Apply, now: int)
    requires Attributable(a) && MonthStart(now) == MonthStart(a.now) && MonthEnd(now) == MonthEnd(a.now)
    ensures RowFor(a.(now := now)) == RowFor(a)
  {
    hide MonthStart, MonthEnd, Share;
  }

  lemma {:induction false} LastRowIsUnchanged(run: seq<Apply>, i: nat, a: Apply)
    requires i < |run| && UnchangedSince(run, i) && a == run[i].(now := a.now) && Attributable(a)
    requires InOrder(run) && run[|run| - 1].now <= a.now && PeriodOf(a.now, Month) == PeriodOf(run[i].now, Month)
    ensures LastRow(run, RowFor(a)) == Some(RowFor(a))
    decreases |run|
  {
    hide RowFor, MonthStart, MonthEnd, PeriodOf;
    var n := |run| - 1;
    var c := run[n];
    if c.rec.id == a.rec.id {
      SameMonthBetween(run[i].now, c.now, a.now);
      SameMonthSameRow(a, c.now);
      assert c == a.(now := c.now);
    } else {
      if Attributable(c) {
        RowForLever(c);
      }
      RowForLever(a);
      LastRowIsUnchanged(run[..n], i, a);
    }
  }

  lemma {:induction false} LastForIsRecent(run: seq<Apply>, i: nat, l: Lever)
    requires i < |run| && Attributable(run[i]) && run[i].rec.lever == Some(l)
    ensures exists k :: i <= k < |run| && LastFor(run, l) == Some(run[k])
  {
    var n := |run| - 1;
    var c := run[n];
    if !(Attributable(c) && c.rec.lever == Some(l)) {
      LastForIsRecent(run[..n], i, l);
      var k :| i <= k < n && LastFor(run[..n], l) == Some(run[..n][k]);
      assert run[..n][k] == run[k];
    } else {
      assert LastFor(run, l) == Some(run[n]);
    }
  }
}
