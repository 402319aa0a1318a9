/**
 The dashboard's window-scoped savings: `direct_measured_by_lever` in
 `backend/app/savings_measurement.py`, and `_fee_on` and `compute_savings_for_window` in
 `backend/app/savings.py`.
 */
module WindowSavings {
  import opened Money
  import opened Calendar
  import opened Periods
  import opened Ledger
  import opened SavingsSeries
  import Billing

  datatype Lever = SemanticCache | ModelDownshift | Batching | TokenTrim | SmartRouting | PromptCompression

  function One<T>(m: map<Lever, T>, l: Lever): seq<T> {
    if l in m then [m[l]] else []
  }

  /** The amounts of a by-lever dictionary, in `LEVER_DISPLAY_ORDER`. */
  function Values<T>(m: map<Lever, T>): seq<T> {
    One(m, SemanticCache) + One(m, ModelDownshift) + One(m, Batching) + One(m, TokenTrim)
    + One(m, SmartRouting) + One(m, PromptCompression)
  }

  function LeverSum(m: map<Lever, real>): real {
    SumReal(Values(m))
  }

  function LeverShare(m: map<Lever, real>, l: Lever): real {
    if l in m then m[l] else 0.0
  }

  lemma LeverSumBySix(m: map<Lever, real>)
    ensures LeverSum(m) == LeverShare(m, SemanticCache) + LeverShare(m, ModelDownshift) + LeverShare(m, Batching)
                         + LeverShare(m, TokenTrim) + LeverShare(m, SmartRouting) + LeverShare(m, PromptCompression)
  {
    var s1 := One(m, SemanticCache);
    var s2 := s1 + One(m, ModelDownshift);
    var s3 := s2 + One(m, Batching);
    var s4 := s3 + One(m, TokenTrim);
    var s5 := s4 + One(m, SmartRouting);
    SumRealAppend(s1, One(m, ModelDownshift));
    SumRealAppend(s2, One(m, Batching));
    SumRealAppend(s3, One(m, TokenTrim));
    SumRealAppend(s4, One(m, SmartRouting));
    SumRealAppend(s5, One(m, PromptCompression));
    forall l: Lever ensures SumReal(One(m, l)) == LeverShare(m, l) { }
  }

  /** `{k: _q(by_lever[k]) for k in _LEVER_KEYS if k in by_lever}`. */
  function RoundLevers(m: map<Lever, real>): map<Lever, int> {
    map l | l in m :: RoundHalfUp(m[l])
  }

  function RoundAll(xs: seq<real>): seq<int> {
    seq(|xs|, i requires 0 <= i < |xs| => RoundHalfUp(xs[i]))
  }

  lemma RoundAllAppend(a: seq<real>, b: seq<real>)
    ensures RoundAll(a + b) == RoundAll(a) + RoundAll(b)
  {
  }

  lemma RoundLeversInOrder(m: map<Lever, real>)
    ensures Values(RoundLevers(m)) == RoundAll(Values(m))
  {
    hide RoundHalfUp;
    var s1 := One(m, SemanticCache);
    var s2 := s1 + One(m, ModelDownshift);
    var s3 := s2 + One(m, Batching);
    var s4 := s3 + One(m, TokenTrim);
    var s5 := s4 + One(m, SmartRouting);
    RoundAllAppend(s1, One(m, ModelDownshift));
    RoundAllAppend(s2, One(m, Batching));
    RoundAllAppend(s3, One(m, TokenTrim));
    RoundAllAppend(s4, One(m, SmartRouting));
    RoundAllAppend(s5, One(m, PromptCompression));
    forall l: Lever ensures One(RoundLevers(m), l) == RoundAll(One(m, l)) { }
  }

  // ----- measured savings by lever -----

  /** The three ledger conditions a measured saving is selected by. */
  datatype Source = CacheHits | Batches | Routes(includeHoldback: bool)

  predicate Selects(s: Source, e: Event) {
    match s
    case CacheHits => e.cacheHit
    case Batches => e.batch
    case Routes(includeHoldback) => e.routed && (includeHoldback || !e.holdback)
  }

  function SavedBy(e: Event, s: Source): real {
    if e.saved.Some? && Selects(s, e) then e.saved.value else 0.0
  }

  /** `_sum_saved` over the events of a window. */
  function SumSaved(es: seq<Event>, s: Source): real {
    if es == [] then 0.0 else SavedBy(es[0], s) + SumSaved(es[1..], s)
  }

  /** The project's enabled routing policy, if any, names the lever routed savings credit. */
  datatype RoutingPolicy = NoPolicy | DownshiftPolicy | SmartRoutingPolicy

  function RoutingLever(p: RoutingPolicy): Lever {
    if p == DownshiftPolicy then ModelDownshift else SmartRouting
  }

  function Entry(l: Lever, x: real): map<Lever, real> {
    if x != 0.0 then map[l := x] else map[]
  }

  function DirectMeasuredByLever(es: seq<Event>, p: RoutingPolicy, includeHoldback: bool): map<Lever, real> {
    Entry(SemanticCache, SumSaved(es, CacheHits)) + Entry(Batching, SumSaved(es, Batches))
    + Entry(RoutingLever(p), SumSaved(es, Routes(includeHoldback)))
  }

  /** The writer's rule: a saving is recorded on exactly one kind of event. */
  predicate OneSource(e: Event) {
    e.saved.Some? ==>
      || (e.cacheHit && !e.batch && !e.routed)
      || (!e.cacheHit && e.batch && !e.routed)
      || (!e.cacheHit && !e.batch && e.routed)
  }

  /** Splitting by source loses and double-counts nothing. */
  lemma {:induction false} SourcesPartitionSaved(es: seq<Event>)
    requires forall e :: e in es ==> OneSource(e)
    ensures SumSaved(es, CacheHits) + SumSaved(es, Batches) + SumSaved(es, Routes(true)) == Total(es, Saved)
  {
    if es != [] {
      assert OneSource(es[0]);
      SourcesPartitionSaved(es[1..]);
    }
  }

  /** The exact law: before any rounding the lever split sums to the ledger's saved total. */
  lemma LeverSumIsTotal(es: seq<Event>, p: RoutingPolicy)
    requires forall e :: e in es ==> OneSource(e)
    ensures LeverSum(DirectMeasuredByLever(es, p, true)) == Total(es, Saved)
  {
    hide SumSaved, LeverSum;
    MeasuredSum(es, p);
    SourcesPartitionSaved(es);
  }

  /** `saved_usd` on the routed events of holdback experiments. */
  function HoldbackSaved(es: seq<Event>): real {
    if es == [] then 0.0
    else (if es[0].saved.Some? && es[0].routed && es[0].holdback then es[0].saved.value else 0.0)
         + HoldbackSaved(es[1..])
  }

  lemma {:induction false} RoutesSplitByHoldback(es: seq<Event>)
    ensures SumSaved(es, Routes(true)) == SumSaved(es, Routes(false)) + HoldbackSaved(es)
  {
    if es != [] {
      RoutesSplitByHoldback(es[1..]);
    }
  }

  /** The billing split and the dashboard split differ by exactly the holdback experiments' own
      savings, so billing can measure those by the A/B comparison without counting them twice. */
  lemma BillingLeavesHoldbackToExperiments(es: seq<Event>, p: RoutingPolicy)
    ensures LeverSum(DirectMeasuredByLever(es, p, true))
            == LeverSum(DirectMeasuredByLever(es, p, false)) + HoldbackSaved(es)
  {
    hide SumSaved, LeverSum, HoldbackSaved;
    LeverSumBySix(DirectMeasuredByLever(es, p, true));
    LeverSumBySix(DirectMeasuredByLever(es, p, false));
    RoutesSplitByHoldback(es);
  }

  // ----- the window's figures -----

  /** `_fee_on`: the fee share of a gross figure, never above the gross itself. */
  function FeeOn(gross: int, percent: real): int {
    Min(Billing.Share(gross, percent), gross)
  }

  /** For any rate up to 100% the cap at the gross is idle, and the fee is the rounded share; so with
      no floor the window's fee is the fee an invoice over the same gross would bill. */
  lemma WindowFeeMatchesInvoice(gross: int, percent: real)
    requires gross >= 0 && 0.0 <= percent <= 1.0
    ensures FeeOn(gross, percent) == Billing.Share(gross, percent) >= 0
    ensures percent == 1.0 ==> FeeOn(gross, percent) == gross
    ensures percent <= Billing.MAX_SHARE ==>
              FeeOn(gross, percent) == Billing.ComputeFee(gross as real, percent, 0.0).fee
  {
    hide Billing.Share, Billing.ComputeFee;
    Billing.ShareGrowsWithRate(gross, percent, 1.0);
    Billing.WholeShareIsGross(gross);
    Billing.ShareIsGentle(0, gross, percent);
    if percent <= Billing.MAX_SHARE {
      Billing.InvoiceFeeIsShare(gross, percent);
    }
  }

  /** A rate above 100% is cut to the whole gross. */
  lemma WindowFeeIsCutAtGross(gross: int, percent: real)
    requires gross >= 0 && percent >= 1.0
    ensures FeeOn(gross, percent) == gross
  {
    hide Billing.Share;
    Billing.ShareGrowsWithRate(gross, 1.0, percent);
    Billing.WholeShareIsGross(gross);
  }

  datatype Mode = Measured | Estimated | SpendOnly | Empty

  datatype Figures = Figures(
    mode: Mode, actual: Option<int>, gross: Option<int>, fee: Option<int>, net: Option<int>,
    counterfactual: Option<int>, byLever: map<Lever, int>)

  function WithGross(mode: Mode, actual: int, gross: int, percent: real, byLever: map<Lever, real>): Figures {
    var fee := FeeOn(gross, percent);
    Figures(mode, Some(actual), Some(gross), Some(fee), Some(gross - fee), Some(actual + gross), RoundLevers(byLever))
  }

  /** `compute_savings_for_window`: measured first, else the labelled estimate, else spend only. */
  function ForWindow(ledger: seq<Event>, estimates: map<Lever, real>, p: RoutingPolicy, percent: real,
                     w: PeriodWindow): Figures
  {
    var es := InWindow(ledger, w.start, w.end);
    var measured := DirectMeasuredByLever(es, p, true);
    if es == [] then Figures(Empty, None, None, None, None, None, map[])
    else
      var actual := RoundHalfUp(Total(es, Cost));
      if RoundHalfUp(LeverSum(measured)) > 0 then
        WithGross(Measured, actual, RoundHalfUp(LeverSum(measured)), percent, measured)
      else if RoundHalfUp(LeverSum(estimates)) > 0 then
        WithGross(Estimated, actual, RoundHalfUp(LeverSum(estimates)), percent, estimates)
      else Figures(SpendOnly, Some(actual), None, None, None, Some(actual), map[])
  }

  /** The identities that hold exactly in every mode, for every ledger and window. */
  lemma FiguresAddUp(ledger: seq<Event>, estimates: map<Lever, real>, p: RoutingPolicy, percent: real, w: PeriodWindow)
    ensures
      var f := ForWindow(ledger, estimates, p, percent, w);
      && (f.mode == Empty <==> forall e :: e in ledger ==> !(w.start <= e.at < w.end))
      && (f.mode == Empty <==> f.actual.None?)
      && (f.mode in {Measured, Estimated} <==> f.gross.Some?)
      && (f.gross.Some? ==>
            && f.gross.value > 0
            && f.counterfactual == Some(f.actual.value + f.gross.value)
            && f.fee.Some? && f.net.Some? && f.fee.value + f.net.value == f.gross.value
            && f.net.value >= 0
            && (0.0 <= percent <= 1.0 ==> f.fee.value == Billing.Share(f.gross.value, percent) >= 0))
      && (f.actual.Some? ==> f.actual.value == RoundHalfUp(Total(InWindow(ledger, w.start, w.end), Cost)))
      && (f.mode == Measured <==>
            f.mode != Empty
            && RoundHalfUp(LeverSum(DirectMeasuredByLever(InWindow(ledger, w.start, w.end), p, true))) > 0)
      && (f.mode == SpendOnly ==> f.counterfactual == f.actual && f.byLever == map[])
  {
    hide DirectMeasuredByLever, LeverSum, RoundLevers, Total, Billing.Share;
    var es := InWindow(ledger, w.start, w.end);
    if es != [] {
      assert es[0] in es;
    }
    var f := ForWindow(ledger, estimates, p, percent, w);
    if f.gross.Some? && 0.0 <= percent <= 1.0 {
      WindowFeeMatchesInvoice(f.gross.value, percent);
    }
  }

  // ----- which lever shows what -----

  /** The savings recorded on the events that a condition keeps. */
  function SavedOn(es: seq<Event>, keep: Event -> bool): real {
    if es == [] then 0.0
    else (if keep(es[0]) && es[0].saved.Some? then es[0].saved.value else 0.0) + SavedOn(es[1..], keep)
  }

  lemma {:induction false} SumSavedIsSavedOn(es: seq<Event>)
    ensures SumSaved(es, CacheHits) == SavedOn(es, (e: Event) => e.cacheHit)
    ensures SumSaved(es, Batches) == SavedOn(es, (e: Event) => e.batch)
    ensures SumSaved(es, Routes(true)) == SavedOn(es, (e: Event) => e.routed)
    ensures SumSaved(es, Routes(false)) == SavedOn(es, (e: Event) => e.routed && !e.holdback)
  {
    if es != [] {
      SumSavedIsSavedOn(es[1..]);
    }
  }

  /** A lever is shown with an amount: present exactly if it is not zero, rounded. */
  ghost predicate ShownAs(shown: map<Lever, int>, l: Lever, amount: real) {
    (l in shown <==> amount != 0.0) && (l in shown ==> shown[l] == RoundHalfUp(amount))
  }

  function Estimate(estimates: map<Lever, real>, l: Lever): real {
    if l in estimates then estimates[l] else 0.0
  }

  /** The mode of a window with traffic and its gross: what the events saved if that rounds to anything,
      else what the estimates sum to, else none. */
  lemma ModeAndGrossComeFrom(
    ledger: seq<Event>, estimates: map<Lever, real>, p: RoutingPolicy, percent: real, w: PeriodWindow)
    requires InWindow(ledger, w.start, w.end) != []
    ensures
      var f, es := ForWindow(ledger, estimates, p, percent, w), InWindow(ledger, w.start, w.end);
      var measured := RoundHalfUp(
        SavedOn(es, (e: Event) => e.cacheHit) + SavedOn(es, (e: Event) => e.batch)
        + SavedOn(es, (e: Event) => e.routed));
      var estimated := RoundHalfUp(
        Estimate(estimates, SemanticCache) + Estimate(estimates, ModelDownshift) + Estimate(estimates, Batching)
        + Estimate(estimates, TokenTrim) + Estimate(estimates, SmartRouting) + Estimate(estimates, PromptCompression));
      && f.mode == (if measured > 0 then Measured else if estimated > 0 then Estimated else SpendOnly)
      && f.gross == (if measured > 0 then Some(measured) else if estimated > 0 then Some(estimated) else None)
  {
    hide SumSaved, SavedOn, LeverSum, InWindow, RoundHalfUp, FeeOn, Total, DirectMeasuredByLever, RoundLevers;
    var es := InWindow(ledger, w.start, w.end);
    SumSavedIsSavedOn(es);
    LeverSumBySix(estimates);
    MeasuredSum(es, p);
  }

  /** What each lever shows. Measured: cache hits under the semantic cache, batches under batching,
      routed events under the lever of the enabled routing policy, smart routing without one, and no
      other lever. Estimated: every estimate under its own lever. */
  lemma LeversShowTheirSources(
    ledger: seq<Event>, estimates: map<Lever, real>, p: RoutingPolicy, percent: real, w: PeriodWindow)
    ensures
      var f, es := ForWindow(ledger, estimates, p, percent, w), InWindow(ledger, w.start, w.end);
      var routed := SavedOn(es, (e: Event) => e.routed);
      && (f.mode == Measured ==>
            && ShownAs(f.byLever, SemanticCache, SavedOn(es, (e: Event) => e.cacheHit))
            && ShownAs(f.byLever, Batching, SavedOn(es, (e: Event) => e.batch))
            && ShownAs(f.byLever, ModelDownshift, if p == DownshiftPolicy then routed else 0.0)
            && ShownAs(f.byLever, SmartRouting, if p == DownshiftPolicy then 0.0 else routed)
            && TokenTrim !in f.byLever && PromptCompression !in f.byLever)
      && (f.mode == Estimated ==>
            && f.byLever.Keys == estimates.Keys
            && forall l :: l in estimates ==> f.byLever[l] == RoundHalfUp(estimates[l]))
  {
    hide SumSaved, SavedOn, LeverSum, InWindow, RoundHalfUp, FeeOn, Total, DirectMeasuredByLever, ShownAs;
    var es := InWindow(ledger, w.start, w.end);
    SumSavedIsSavedOn(es);
    MeasuredLevers(es, p);
  }

  lemma MeasuredLevers(es: seq<Event>, p: RoutingPolicy)
    ensures
      var shown, routed := RoundLevers(DirectMeasuredByLever(es, p, true)), SumSaved(es, Routes(true));
      && ShownAs(shown, SemanticCache, SumSaved(es, CacheHits))
      && ShownAs(shown, Batching, SumSaved(es, Batches))
      && ShownAs(shown, ModelDownshift, if p == DownshiftPolicy then routed else 0.0)
      && ShownAs(shown, SmartRouting, if p == DownshiftPolicy then 0.0 else routed)
      && TokenTrim !in shown && PromptCompression !in shown
  {
    hide SumSaved, RoundHalfUp;
  }

  lemma MeasuredSum(es: seq<Event>, p: RoutingPolicy)
    ensures LeverSum(DirectMeasuredByLever(es, p, true))
            == SumSaved(es, CacheHits) + SumSaved(es, Batches) + SumSaved(es, Routes(true))
  {
    hide SumSaved, LeverSum;
    LeverSumBySix(DirectMeasuredByLever(es, p, true));
  }

  // ----- reconciliation after rounding -----

  lemma LeversWithinHalfCents(m: map<Lever, real>)
    ensures
      var bound := 0.5 * |Values(m)| as real;
      -bound <= SumInt(Values(RoundLevers(m))) as real - LeverSum(m) <= bound
  {
    hide Values;
    RoundLeversInOrder(m);
    RoundedSumError(Values(m), RoundAll(Values(m)));
  }

  /** After rounding, the gross figure is within (levers + 1) / 2 cents of the displayed levers
      and within (non-empty buckets + 1) / 2 cents of the displayed chart. */
  lemma GrossReconcilesWithinHalfCents(ledger: seq<Event>, estimates: map<Lever, real>, p: RoutingPolicy,
                                       percent: real, w: PeriodWindow, series: seq<Bar>)
    requires forall e :: e in InWindow(ledger, w.start, w.end) ==> OneSource(e)
    requires ForWindow(ledger, estimates, p, percent, w).mode == Measured
    requires IsChart(series, ledger, w)
    ensures
      var f := ForWindow(ledger, estimates, p, percent, w);
      var es, g := InWindow(ledger, w.start, w.end), w.granularity;
      var buckets := NonEmptyBuckets(es, g, Index(g, w.start / DAY), Index(g, w.end / DAY));
      var levers, chart := Values(f.byLever), SumInt(SavedBars(series));
      && -(|levers| + 1) <= 2 * (f.gross.value - SumInt(levers)) <= |levers| + 1
      && -(buckets + 1) <= 2 * (f.gross.value - chart) <= buckets + 1
  {
    hide DirectMeasuredByLever, LeverSum, Values, NonEmptyBuckets, Index, IsChart, Total;
    var f := ForWindow(ledger, estimates, p, percent, w);
    var es, g := InWindow(ledger, w.start, w.end), w.granularity;
    var m := DirectMeasuredByLever(es, p, true);
    assert f.byLever == RoundLevers(m);
    RoundLeversInOrder(m);
    LeversWithinHalfCents(m);
    LeverSumIsTotal(es, p);
    ChartWithinHalfCentPerBucket(series, ledger, w);
  }

  /** What rounding an amount to the cent discards. */
  function Residue(x: real): real {
    x - RoundHalfUp(x) as real
  }

  /** What rounding a split discards, lever by lever. */
  function Residues(xs: seq<real>): real {
    if xs == [] then 0.0 else Residue(xs[0]) + Residues(xs[1..])
  }

  lemma {:induction false} ResiduesSum(xs: seq<real>)
    ensures Residues(xs) == SumReal(xs) - SumInt(RoundAll(xs)) as real
  {
    hide RoundHalfUp;
    if xs != [] {
      ResiduesSum(xs[1..]);
      assert RoundAll(xs)[1..] == RoundAll(xs[1..]);
    }
  }

  lemma {:induction false} ResiduesAppend(a: seq<real>, b: seq<real>)
    ensures Residues(a + b) == Residues(a) + Residues(b)
  {
    hide Residue;
    if a == [] {
      assert a + b == b;
    } else {
      assert (a + b)[1..] == a[1..] + b;
      ResiduesAppend(a[1..], b);
    }
  }

  /** The residue of one lever's entry; a lever without one leaves none. */
  function LeverResidue(m: map<Lever, real>, l: Lever): real {
    if l in m then Residue(m[l]) else 0.0
  }

  lemma ResiduesBySix(m: map<Lever, real>)
    ensures Residues(Values(m))
            == LeverResidue(m, SemanticCache) + LeverResidue(m, ModelDownshift) + LeverResidue(m, Batching)
             + LeverResidue(m, TokenTrim) + LeverResidue(m, SmartRouting) + LeverResidue(m, PromptCompression)
  {
    hide Residue;
    var s1 := One(m, SemanticCache);
    var s2 := s1 + One(m, ModelDownshift);
    var s3 := s2 + One(m, Batching);
    var s4 := s3 + One(m, TokenTrim);
    var s5 := s4 + One(m, SmartRouting);
    ResiduesAppend(s1, One(m, ModelDownshift));
    ResiduesAppend(s2, One(m, Batching));
    ResiduesAppend(s3, One(m, TokenTrim));
    ResiduesAppend(s4, One(m, SmartRouting));
    ResiduesAppend(s5, One(m, PromptCompression));
    forall l: Lever ensures Residues(One(m, l)) == LeverResidue(m, l) { }
  }

  /** The residue of a source's savings over the events of a window. */
  function SourceResidue(es: seq<Event>, s: Source): real {
    Residue(SumSaved(es, s))
  }

  /** Only the three ledger sources can leave a residue, whichever lever routed savings credit. */
  lemma ResiduesBySource(es: seq<Event>, p: RoutingPolicy)
    ensures Residues(Values(DirectMeasuredByLever(es, p, true)))
            == SourceResidue(es, CacheHits) + SourceResidue(es, Batches) + SourceResidue(es, Routes(true))
  {
    hide SumSaved, Values, RoundHalfUp, Residues;
    HalfUpWhole(0);
    ResiduesBySix(DirectMeasuredByLever(es, p, true));
  }

  /** The measured levers displayed for a window sum to its gross if and only if the parts of a cent
      that rounding discards from the cache, batch and routing savings add up to within half a cent. */
  lemma LeversSumToGrossIff(
    ledger: seq<Event>, estimates: map<Lever, real>, p: RoutingPolicy, percent: real, w: PeriodWindow)
    requires ForWindow(ledger, estimates, p, percent, w).mode == Measured
    ensures
      var f, es := ForWindow(ledger, estimates, p, percent, w), InWindow(ledger, w.start, w.end);
      SumInt(Values(f.byLever)) == f.gross.value
      <==> -0.5 <= SourceResidue(es, CacheHits) + SourceResidue(es, Batches) + SourceResidue(es, Routes(true)) < 0.5
  {
    hide Values, DirectMeasuredByLever, RoundLevers, RoundHalfUp, Residues, SourceResidue;
    var es := InWindow(ledger, w.start, w.end);
    var m := DirectMeasuredByLever(es, p, true);
    var xs := Values(m);
    RoundLeversInOrder(m);
    ResiduesSum(xs);
    ResiduesBySource(es, p);
    assert RoundHalfUp(LeverSum(m)) > 0;
    var n := SumInt(RoundAll(xs));
    if LeverSum(m) < 0.0 {
      HalfUpMonotone(LeverSum(m), 0.0);
      HalfUpWhole(0);
    }
    if -0.5 <= Residues(xs) < 0.5 {
      HalfUpUnique(LeverSum(m), n);
    }
  }

  predicate WholeCent(x: real) {
    x == x.Floor as real
  }

  predicate NoNegativeSavings(es: seq<Event>) {
    forall e :: e in es ==> e.saved.Some? ==> e.saved.value >= 0.0
  }

  lemma {:induction false} SumSavedNonNegative(es: seq<Event>, s: Source)
    requires NoNegativeSavings(es)
    ensures SumSaved(es, s) >= 0.0
  {
    if es != [] {
      assert es[0] in es && forall e :: e in es[1..] ==> e in es;
      SumSavedNonNegative(es[1..], s);
    }
  }

  lemma ResidueRange(x: real)
    requires x >= 0.0
    ensures -0.5 <= Residue(x) < 0.5 && (WholeCent(x) ==> Residue(x) == 0.0)
  {
    if WholeCent(x) {
      HalfUpWhole(x.Floor);
    }
  }

  /** So non-negative savings of which at most one source has a fraction of a cent reconcile exactly. */
  lemma OneFractionalSourceReconciles(
    ledger: seq<Event>, estimates: map<Lever, real>, p: RoutingPolicy, percent: real, w: PeriodWindow, odd: Source)
    requires ForWindow(ledger, estimates, p, percent, w).mode == Measured && NoNegativeSavings(ledger)
    requires forall s: Source | s in {CacheHits, Batches, Routes(true)} && s != odd ::
               WholeCent(SumSaved(InWindow(ledger, w.start, w.end), s))
    ensures
      var f := ForWindow(ledger, estimates, p, percent, w);
      SumInt(Values(f.byLever)) == f.gross.value
  {
    hide Values, ForWindow, SumSaved, Residue;
    var es := InWindow(ledger, w.start, w.end);
    forall s: Source
      ensures -0.5 <= SourceResidue(es, s) < 0.5
      ensures WholeCent(SumSaved(es, s)) ==> SourceResidue(es, s) == 0.0
    {
      SumSavedNonNegative(es, s);
      ResidueRange(SumSaved(es, s));
    }
    assert odd != CacheHits ==> WholeCent(SumSaved(es, CacheHits));
    assert odd != Batches ==> WholeCent(SumSaved(es, Batches));
    assert odd != Routes(true) ==> WholeCent(SumSaved(es, Routes(true)));
    LeversSumToGrossIff(ledger, estimates, p, percent, w);
  }

  /** Likewise the displayed chart sums to the displayed gross if and only if what rounding
      discarded, over all buckets, stays within half a cent. */
  lemma ChartSumsToGrossIff(
    ledger: seq<Event>, estimates: map<Lever, real>, p: RoutingPolicy, percent: real, w: PeriodWindow,
    series: seq<Bar>)
    requires forall e :: e in InWindow(ledger, w.start, w.end) ==> OneSource(e)
    requires ForWindow(ledger, estimates, p, percent, w).mode == Measured
    requires IsChart(series, ledger, w)
    ensures
      var f := ForWindow(ledger, estimates, p, percent, w);
      var es, g := InWindow(ledger, w.start, w.end), w.granularity;
      var lo, hi := Index(g, w.start / DAY), Index(g, w.end / DAY);
      SumInt(SavedBars(series)) == f.gross.value <==> -0.5 <= BucketResidues(es, g, lo, hi) < 0.5
  {
    hide DirectMeasuredByLever, LeverSum, Index, Axis, BucketResidues, RoundHalfUp, RoundLevers;
    var es, g := InWindow(ledger, w.start, w.end), w.granularity;
    var lo, hi := Index(g, w.start / DAY), Index(g, w.end / DAY);
    BarSumIsSeriesSum(es, g, lo, hi, series);
    SeriesConservesLedger(ledger, w, Saved);
    LeverSumIsTotal(es, p);
    BucketResiduesSum(es, g, lo, hi);
    var total := LeverSum(DirectMeasuredByLever(es, p, true));
    if total < 0.0 {
      HalfUpMonotone(total, 0.0);
      HalfUpWhole(0);
    }
    if -0.5 <= BucketResidues(es, g, lo, hi) < 0.5 {
      HalfUpUnique(total, SumInt(SavedBars(series)));
    }
  }

  /** What rounding the bars discards, bucket by bucket. */
  function BucketResidues(es: seq<Event>, g: Granularity, lo: int, hi: int): real
    decreases hi - lo + 1
  {
    if hi < lo then 0.0
    else
      var x := BucketSum(es, g, First(g, hi), Saved);
      BucketResidues(es, g, lo, hi - 1) + Residue(x)
  }

  lemma {:induction false} BucketResiduesSum(es: seq<Event>, g: Granularity, lo: int, hi: int)
    ensures BucketResidues(es, g, lo, hi) == AxisSum(es, g, lo, hi, Saved) - BarSum(es, g, lo, hi, Saved) as real
    decreases hi - lo + 1
  {
    hide First, BucketSum, RoundHalfUp;
    if lo <= hi {
      BucketResiduesSum(es, g, lo, hi - 1);
    }
  }

  function WholeCents(m: map<Lever, int>): map<Lever, real> {
    map l | l in m :: m[l] as real
  }

  /** In particular the estimated split reconciles exactly: attributions are stored in whole cents. */
  lemma WholeCentLeversSumToGross(m: map<Lever, int>)
    ensures RoundLevers(WholeCents(m)) == m
    ensures RoundHalfUp(LeverSum(WholeCents(m))) == SumInt(Values(m))
  {
    hide RoundHalfUp;
    var r := WholeCents(m);
    forall l | l in m
      ensures RoundHalfUp(r[l]) == m[l]
    {
      HalfUpWhole(m[l]);
    }
    assert RoundLevers(r) == m;
    RoundLeversInOrder(r);
    WholeSum(Values(r), Values(m));
    HalfUpWhole(SumInt(Values(m)));
  }

  lemma {:induction false} WholeSum(xs: seq<real>, ns: seq<int>)
    requires |xs| == |ns| && forall i :: 0 <= i < |xs| ==> xs[i] == ns[i] as real
    ensures SumReal(xs) == SumInt(ns) as real
  {
    if xs != [] {
      WholeSum(xs[1..], ns[1..]);
    }
  }

  /** The claimed equality fails: three sources saving 0.4 cents each give a gross of one cent
      over three levers that each display zero. */
  lemma LeversNeedNotSumToGross(w: PeriodWindow)
    requires w.start < w.end
    ensures
      var e := Event(w.start, Some(1.0), Some(0.4), false, false, false, false);
      var ledger := [e.(cacheHit := true), e.(batch := true), e.(routed := true)];
      var f := ForWindow(ledger, map[], NoPolicy, 0.25, w);
      f.gross == Some(1) && f.byLever == map[SemanticCache := 0, Batching := 0, SmartRouting := 0]
  {
    hide RoundHalfUp, LeverSum, SumSaved, InWindow;
    var e := Event(w.start, Some(1.0), Some(0.4), false, false, false, false);
    var a, b, c := e.(cacheHit := true), e.(batch := true), e.(routed := true);
    ThreeInWindow(a, b, c, w);
    SumsOfThree(a, b, c, CacheHits);
    SumsOfThree(a, b, c, Batches);
    SumsOfThree(a, b, c, Routes(true));
    var m := DirectMeasuredByLever([a, b, c], NoPolicy, true);
    assert m == map[SemanticCache := 0.4, Batching := 0.4, SmartRouting := 0.4];
    LeverSumBySix(m);
    HalfUpUnique(1.2, 1);
    HalfUpUnique(0.4, 0);
  }

  /** The chart's equality fails too: three cache hits saving 0.4 cents each in three different
      buckets, of any granularity, give a gross of one cent over bars that all display zero. */
  lemma ChartNeedNotSumToGross(w: PeriodWindow, t: int, u: int, v: int, series: seq<Bar>)
    requires w.start <= t < w.end && w.start <= u < w.end && w.start <= v < w.end
    requires
      var g := w.granularity;
      Trunc(g, t) != Trunc(g, u) && Trunc(g, u) != Trunc(g, v) && Trunc(g, t) != Trunc(g, v)
    requires IsChart(series, [SmallHit(t), SmallHit(u), SmallHit(v)], w)
    ensures ForWindow([SmallHit(t), SmallHit(u), SmallHit(v)], map[], NoPolicy, 0.25, w).gross == Some(1)
    ensures SumInt(SavedBars(series)) == 0
  {
    hide RoundHalfUp, LeverSum, SumSaved, InWindow, Index, First, Axis, BucketSum;
    var a, b, c := SmallHit(t), SmallHit(u), SmallHit(v);
    var es, g := [a, b, c], w.granularity;
    ThreeInWindow(a, b, c, w);
    SumsOfThree(a, b, c, CacheHits);
    SumsOfThree(a, b, c, Batches);
    SumsOfThree(a, b, c, Routes(true));
    var m := DirectMeasuredByLever(es, NoPolicy, true);
    assert m == map[SemanticCache := 1.2];
    LeverSumBySix(m);
    HalfUpUnique(1.2, 1);
    var lo, hi := Index(g, w.start / DAY), Index(g, w.end / DAY);
    BarSumIsSeriesSum(es, g, lo, hi, series);
    forall d ensures 0.0 <= BucketSum(es, g, d, Saved) < 0.5 {
      BucketOfThree(a, b, c, g, d);
    }
    SmallBucketsShowNothing(es, g, lo, hi);
  }

  /** A cache hit that saved 0.4 cents. */
  function SmallHit(t: int): Event {
    Event(t, Some(1.0), Some(0.4), true, false, false, false)
  }

  lemma BucketOfThree(a: Event, b: Event, c: Event, g: Granularity, d: int)
    ensures
      BucketSum([a, b, c], g, d, Saved)
      == (if Trunc(g, a.at) == d then Amount(a, Saved) else 0.0)
       + (if Trunc(g, b.at) == d then Amount(b, Saved) else 0.0)
       + (if Trunc(g, c.at) == d then Amount(c, Saved) else 0.0)
  {
    hide Trunc, Amount;
    assert [a, b, c][1..] == [b, c] && [b, c][1..] == [c] && [c][1..] == [];
    assert BucketSum([c], g, d, Saved) == if Trunc(g, c.at) == d then Amount(c, Saved) else 0.0;
  }

  lemma {:induction false} SmallBucketsShowNothing(es: seq<Event>, g: Granularity, lo: int, hi: int)
    requires forall d :: 0.0 <= BucketSum(es, g, d, Saved) < 0.5
    ensures BarSum(es, g, lo, hi, Saved) == 0
    decreases hi - lo + 1
  {
    hide First, BucketSum, RoundHalfUp;
    if lo <= hi {
      SmallBucketsShowNothing(es, g, lo, hi - 1);
      HalfUpUnique(BucketSum(es, g, First(g, hi), Saved), 0);
    }
  }

  lemma ThreeInWindow(a: Event, b: Event, c: Event, w: PeriodWindow)
    requires w.start <= a.at < w.end && w.start <= b.at < w.end && w.start <= c.at < w.end
    ensures InWindow([a, b, c], w.start, w.end) == [a, b, c]
  {
    assert [a, b, c][1..] == [b, c] && [b, c][1..] == [c] && [c][1..] == [];
    assert InWindow([c], w.start, w.end) == [c];
    assert InWindow([b, c], w.start, w.end) == [b, c];
  }

  lemma SumsOfThree(a: Event, b: Event, c: Event, s: Source)
    ensures SumSaved([a, b, c], s) == SavedBy(a, s) + SavedBy(b, s) + SavedBy(c, s)
  {
    assert [a, b, c][1..] == [b, c] && [b, c][1..] == [c] && [c][1..] == [];
    assert SumSaved([c], s) == SavedBy(c, s);
    assert SumSaved([b, c], s) == SavedBy(b, s) + SavedBy(c, s);
  }
}
