# Varsten billing, savings and concurrency in Dafny

Varsten's backend moves organizations through a billing lifecycle, measures the savings it
produces, bills a share of them, and runs its background work on several instances at once. This
project models those parts and proves what they promise over every input, every run and every
interleaving.

| module | what it models |
|---|---|
| `Money`, `Calendar`, `Ledger`, `Text` | cents and the two rounding rules; the Gregorian calendar, proved equal to the leap-year day-number formula, and UTC instants in microseconds; the usage ledger; decimal rendering and colon-joined keys |
| `Periods` | month, quarter and year windows, month ends, invoice windows |
| `SavingsSeries`, `WindowSavings` | the gap-filled chart and the dashboard's savings figures |
| `Billing` | gain-share fees, the dashboard fee, invoices |
| `Attributions` | applied recommendations, attribution rows, savings-to-date |
| `Lifecycle`, `LifecycleRuns` | the billing state machine, the sweep, Stripe events, and runs of them |
| `Entitlements` | the derived entitlement and its 60-second cache beside the shared database |
| `Scheduler` | per-job advisory locks across instances |
| `RateLimit` | the memory and Redis fixed-window limiters |
| `Prices` | price feed, versioned catalog, as-of lookup |
| `Alerts` | once-per-month alerts and their dedupe keys |
| `Benchmark` | published net-savings percentiles |

Unrounded money is an exact `real` number of cents and a quantized amount an `int`. Time is an
integer. A class with mutable fields models each object or table the source updates in place; its
methods are tied to functions of the old state, and the laws are proved of those functions.
`dafny verify dfyconfig.toml` checks the project.

## What turned out differently from the source's own comments

- `backend/app/savings.py:284-288` and `297-301` say that levers and chart sum to the gross exactly.
  They do before rounding (`WindowSavings.LeverSumIsTotal`, `SavingsSeries.SeriesConservesLedger`).
  After rounding the levers do if and only if the parts of a cent discarded from the cache, batch and
  routing savings add up to within half a cent (`WindowSavings.LeversSumToGrossIff`); non-negative
  savings always do when at most one of the three has a fraction
  (`WindowSavings.OneFractionalSourceReconciles`). The chart does likewise over its buckets
  (`WindowSavings.ChartSumsToGrossIff`). `WindowSavings.LeversNeedNotSumToGross` and
  `WindowSavings.ChartNeedNotSumToGross` are ledgers where they do not.
- `backend/app/stripe_billing.py:11-12` calls redelivery idempotent. It is when no other Stripe event
  came in between (`LifecycleRuns.RedeliveryIsIdempotent`); `LifecycleRuns.DeliveryIsAbsorbedIff` gives
  the exact condition on the row, and `LifecycleRuns.StaleRedeliveryReactivates` a redelivery that
  puts a canceled organization back on Pro.
- `backend/app/billing_lifecycle.py:7-9` says the proxy observes a change immediately. That holds when
  reads are atomic and every write to the organization invalidates this process's entry
  (`Entitlements.InvalidatingWritesKeepCacheCoherent`). Neither is given: the operator's billing edit
  never invalidates (`Entitlements.OperatorEditLeavesStalePro`), another process's writes cannot
  (`Entitlements.RemoteWriteLeavesStalePro`), and a slow read stores what was invalidated meanwhile
  (`Entitlements.LateStoreUndoesInvalidation`). At the end of any run the served state derives from the
  current row if and only if the row that was read stands alike with it
  (`Entitlements.ServedStateIsCurrentIff`), and `Entitlements.EntrySurvivesWriteIff` says exactly which
  writes leave a stale entry. For every writer and interleaving a served state is less than 60 seconds
  plus the slowest read's own duration old (`Entitlements.ServedStateIsFresherThanTtl`); the code puts
  no bound on that duration.
- `backend/app/alerts.py:11-12` says each crossing fires once per period. A message is sent before its
  row is inserted, so a failed insert sends it again (`Alerts.SentAgain`). Where the database takes the
  row otherwise, at-most-once holds if and only if the dedupe key fits its 255-character column
  (`Alerts.AtMostOnceIffKeyFits`), with the owner-key length that decides it in
  `Alerts.BudgetKeyFitsIff`.
- `backend/app/billing.py:74-80` previews a month over `[month_start, month_end)`, which is one second
  shorter than the invoice window: `Periods.PreviewWindowMissesLastSecond`.
- `backend/app/savings.py:44-47` says the dashboard fee matches the billed fee. For one project it does
  if and only if the monthly floor is idle (`Billing.OneProjectFeeMatchesInvoiceIff`). For any projects
  and floor it does if and only if what rounding discards from the projects' shares, less the share of
  losses netted on the invoice and plus the floor's lift, is within half a cent
  (`Billing.DashboardFeesMatchInvoiceIff`);
  `Billing.DashboardFeesNearInvoice` and `Billing.LossesOpenTheGap` give the bound and show that losses
  remove it on one side.
- `backend/app/scheduler.py:20-22` says leadership fails over by itself. It does if and only if no
  session returns to the pool with a lock, which a failed acquire or a failed unlock can cause
  (`Scheduler.NeverOrphanedIff`, `Scheduler.FailedUnlockLeaks`). From then on only ticks on that session
  run the job under the lock and every other session is refused, in every run until that session ends;
  checking it out again does not heal the leak, because session locks are re-entrant
  (`Scheduler.LeakStarvesJob`, `Scheduler.PinnedLockStarvesJob`).
- `backend/app/core/ratelimit.py:49-51` reads the clock before it takes the lock, so calls can reach the
  memory limiter out of clock order and pass its limit (`RateLimit.OutOfOrderCallsSlipThrough`). A bucket
  keeps the limit if and only if it has no more calls than the limit or they arrive without a call of
  another bucket of the same key between them (`RateLimit.MemoryAdmitsUpToLimitIff`).

## Model

| member | source | states |
|---|---|---|
| Money.RoundHalfUp | backend/app/billing.py:25-26 | the nearest cent, ties away from zero, characterised by its distance to the input |
| Money.RoundHalfEven | backend/app/savings_measurement.py:53-54 | the nearest unit, ties to even, characterised by its distance to the input |
| Ledger.InWindowAppend | backend/app/savings.py:582-596 | a new event joins a window exactly if it falls in it, keeping order and repetitions |
| Ledger.TotalAppend | backend/app/savings.py:582-596 | an event adds its cost to the cost total and its saving to the saved total, a missing amount nothing |
| Periods.PeriodStartIsGreatestBoundary | backend/app/periods.py:65-89 | for every instant and period, re-anchoring calendar fields gives the greatest month, quarter or year boundary at or before the instant |
| Periods.BoundariesAreCalendar | backend/app/periods.py:65-89 | the boundaries are exactly the midnights that begin a month, a calendar quarter or a year |
| Periods.PreviousStartIsPrecedingBoundary | backend/app/periods.py:92-98 | the previous start is the immediately preceding boundary, and the year shortcut equals the step-back-and-re-anchor recipe |
| Periods.ResolvePeriodMeaning | backend/app/periods.py:101-121 | the window runs from the enclosing boundary to now; the prior window starts one boundary earlier and lasts the smaller of the elapsed time and the previous period; months chart by day, quarters by week, years by month |
| Periods.PriorIsResolvedWindow | backend/app/periods.py:51-62 | the prior window is itself the resolved window of the same-elapsed instant, unless it was clamped; its own prior window is empty |
| Periods.MonthEndIsSecondBeforeNextMonth | backend/app/savings.py:82-87 | adding 32 days, re-anchoring and stepping back always lands one second before the next month |
| Periods.InvoiceWindowIsPreviousMonth | backend/app/billing.py:125-131 | the default billing period is the whole month before the current one |
| Periods.InvoiceWindowsTileTime | backend/app/billing.py:125-131 | invoice windows coincide or are disjoint, consecutive ones abut, and an instant is billed exactly by the windows resolved in the month after it |
| Periods.PreviewWindowMissesLastSecond | backend/app/billing.py:74-80 | the preview window is the invoice window of the month without its last second |
| SavingsSeries.BucketStarts | backend/app/savings.py:541-568 | the three loops terminate and produce exactly the axis of day, week or month buckets from the window's start to its end |
| SavingsSeries.AxisStrictlyIncreasing | backend/app/savings.py:545-568 | the bucket list is strictly increasing for every window and granularity |
| SavingsSeries.AxisCoversWindow | backend/app/savings.py:545-568 | the bucket list contains the truncation of every instant in the window |
| SavingsSeries.LastBucketIsPhantom | backend/app/savings.py:545-568 | the last bucket can hold no event exactly when the exclusive end is itself a bucket boundary |
| SavingsSeries.MeasuredSavingsSeries | backend/app/savings.py:571-617 | no bars without traffic, else one bar per axis bucket with that bucket's rounded sums and a baseline built from them |
| SavingsSeries.ChartLength | backend/app/savings.py:597-617 | a window without traffic has no bars, any other one for every bucket up to the one it ends in |
| SavingsSeries.BucketsAreCalendarUnits | backend/app/savings.py:545-568 | buckets are days, weeks from Monday and calendar months, and truncation goes to the first day of the one an instant falls in |
| SavingsSeries.BarsAreIntervalTotals | backend/app/savings.py:597-617 | each bar shows the rounded cost and savings of the window's events in its stretch of time, and a baseline of both |
| SavingsSeries.AxisSumIsTotal | backend/app/savings.py:582-596 | grouping by bucket partitions the events: if the axis reaches them all, the buckets sum to the total |
| SavingsSeries.SeriesConservesLedger | backend/app/savings.py:571-617 | before rounding the gap-filled buckets sum to exactly the ledger's cost and saved totals, for every window |
| SavingsSeries.ChartWithinHalfCentPerBucket | backend/app/savings.py:600-616 | the displayed bars are within half a cent per bucket with traffic of the ledger totals |
| WindowSavings.SourcesPartitionSaved | backend/app/savings_measurement.py:115-120 | when every saving is on exactly one of cache hit, batch or routed, the three sums partition the saved total |
| WindowSavings.LeverSumIsTotal | backend/app/savings_measurement.py:90-128 | the unrounded lever split sums to the ledger's saved total, whichever routing lever is credited |
| WindowSavings.BillingLeavesHoldbackToExperiments | backend/app/savings_measurement.py:104-119 | the dashboard split exceeds the billing split by exactly the holdback experiments' own savings |
| WindowSavings.WindowFeeMatchesInvoice | backend/app/savings.py:377-381 | for rates up to 100% the window fee is the rounded share, and up to the cap it is the invoice fee on that gross |
| WindowSavings.WindowFeeIsCutAtGross | backend/app/savings.py:377-381 | a rate of 100% or more takes exactly the gross |
| WindowSavings.FiguresAddUp | backend/app/savings.py:384-477 | in every mode: which figures are present, counterfactual = actual + gross, fee + net = gross, net not negative, fee the rounded share, actual the rounded spend |
| WindowSavings.ModeAndGrossComeFrom | backend/app/savings.py:441-466 | with traffic the gross is what cache hits, batches and routed events saved if that rounds above zero, else the sum of the estimates, else none |
| WindowSavings.LeversShowTheirSources | backend/app/savings_measurement.py:115-128 | measured: cache hits show under the semantic cache, batches under batching, routed events under the routing policy's lever, rounded, exactly when not zero, and no other lever shows; estimated: every estimate under its own lever |
| WindowSavings.GrossReconcilesWithinHalfCents | backend/app/savings.py:280-302 | gross is within (levers + 1)/2 cents of the displayed levers and (non-empty buckets + 1)/2 cents of the displayed chart |
| WindowSavings.LeversSumToGrossIff | backend/app/savings.py:286 | in measured mode the displayed levers sum to the displayed gross if and only if the residues of the window's cache, batch and routing savings, each rounded on its own, add up to within [-1/2, 1/2) cent |
| WindowSavings.OneFractionalSourceReconciles | backend/app/savings.py:286 | non-negative savings of which at most one source has a fraction of a cent reconcile exactly |
| WindowSavings.ChartSumsToGrossIff | backend/app/savings.py:288 | in measured mode the displayed chart sums to the displayed gross if and only if the rounding residues over all buckets lie in [-1/2, 1/2) cent |
| WindowSavings.WholeCentLeversSumToGross | backend/app/savings.py:359-374 | a split whose rows are whole cents, as attributions are stored, reconciles exactly |
| WindowSavings.LeversNeedNotSumToGross | backend/app/savings.py:286 | a ledger of three savings where the gross is one cent and every displayed lever is zero |
| WindowSavings.ChartNeedNotSumToGross | backend/app/savings.py:288 | three small savings in any three buckets where the gross is one cent and every displayed bar is zero |
| Billing.FeeWithinCap | backend/app/billing.py:43-63 | for all savings, rates and floors: 0 <= fee <= a quarter of the gross to the cent, fee + net = gross, net not negative |
| Billing.FeeIsLiftedToFloor | backend/app/billing.py:50-56 | the fee is the share at the rate clamped to [0, 25%], or the floor under the cap, whichever is larger; the gross is the rounded savings, zero for losses |
| Billing.FeeAndNetMonotone | backend/app/billing.py:43-63 | fee and net are both non-decreasing in verified savings across floor, cap and rounding |
| Billing.FeeMonotoneInTerms | backend/app/billing.py:29-63 | a higher rate or floor never lowers the fee |
| Billing.OrgVerifiedSavings | backend/app/billing.py:66-71 | the loop and the final rounding give exactly the sum of the projects' figures |
| Billing.OneProjectFeeMatchesInvoiceIff | backend/app/savings.py:43-48 | a one-project dashboard fee equals the invoice fee if and only if there is no floor, the metered share reaches it, or that share is at the cap |
| Billing.OneProjectFeeMatchesInvoice | backend/app/savings.py:250-254 | with no floor a one-project dashboard fee equals the invoice fee |
| Billing.DashboardFeesMatchInvoiceIff | backend/app/savings.py:43-48 | for any projects, rate and floor the dashboard fees sum to the invoice fee if and only if the projects' rounding residues, less the share of netted losses and plus the floor's lift, lie in [-1/2, 1/2) cent |
| Billing.InvoiceIsMeteredAndLift | backend/app/billing.py:43-63 | the invoice fee is the rounded share and the floor's lift up to the cap, which is zero if and only if the floor is idle |
| Billing.LossesAreNettedIff | backend/app/billing.py:66-71 | the invoice nets losses exactly when a project with a loss meets one with savings |
| Billing.DashboardFeesNearInvoice | backend/app/savings.py:43-48 | for n projects the invoice exceeds the summed dashboard fees by at most (n + 1)/2 cents, and is within that both ways when no figure is negative |
| Billing.LossesOpenTheGap | backend/app/savings.py:250-254 | with losses the dashboard fees can exceed the invoice by any amount |
| Billing.InvoiceBook.GenerateInvoice | backend/app/billing.py:83-122 | a draft is written or refreshed from the verified savings, anything past draft is returned unchanged |
| Billing.GenerationNeverRewritesHistory | backend/app/billing.py:102-104 | over every run of generations a finalized invoice never changes and a draft shows the last billable generated for its period |
| Attributions.SavingsBook.RefreshLeverSavings | backend/app/savings.py:94-113 | the lever's savings-to-date becomes the sum of its rows for the period, if it is configured |
| Attributions.SavingsBook.RecordAppliedSavings | backend/app/savings.py:116-199 | an action always; a row and a refreshed total exactly when the recommendation carries positive lever savings; the row shows the estimate to the cent and the fee at the rate up to 25%, the action its net |
| Attributions.RowForShows | backend/app/savings.py:152-154 | the attributed gross is the estimate to the nearest cent, the fee the rate up to 25% of it, the net the rest, in the application's month and under its lever |
| Attributions.AttributedFeeIsCapped | backend/app/savings.py:152-154 | the attributed fee is between zero and 25% of the gross, so the net is not negative |
| Attributions.RowsStayUniqueAndBalanced | backend/app/savings.py:156-188 | over every run each recommendation has at most one row per month and gross = fee + net on every row |
| Attributions.MonthTotalsAddUp | backend/app/savings.py:225-238 | the monthly totals satisfy gross = fee + net |
| Attributions.TotalsAppend | backend/app/savings.py:101-113 | a row adds its own column to its month's total and its gross to its lever's |
| Attributions.LeversPartitionMonth | backend/app/savings.py:101-113 | the levers' totals split a month's gross |
| Attributions.ToDateIsMonthTotal | backend/app/savings.py:101-113 | at every point of every run a configured lever's savings-to-date is the sum of its rows for the month it was last applied in |
| Attributions.SlotShowsLast | backend/app/savings.py:156-188 | over every run a recommendation has a row for a month exactly if one was written, and it shows the last application |
| Attributions.ApplyChangesNothingIff | backend/app/savings.py:156-188 | after any run an application changes no row if and only if the last one of its recommendation and month wrote the same row, and no total either if and only if the lever's totals for its last month and this month agree |
| Attributions.ReapplyChangesNothing | backend/app/savings.py:156-158 | re-applying a recommendation unchanged since an earlier application in the same month leaves every row and total as it was, whatever was applied in between |
| Lifecycle.Organization.constructor | backend/alembic/versions/d2e3f4a5b6c7_billing_and_invoices.py:25 | a new row is free and active |
| Lifecycle.Organization.Start | backend/app/billing_lifecycle.py:50-60 | the row becomes a Pro trial ending one trial length later, with no payment readiness |
| Lifecycle.Organization.ActivatePerformance | backend/app/billing_lifecycle.py:63-73 | the row becomes active Pro, keeping its subscription unless given one |
| Lifecycle.Organization.CompletePaymentMethodSetup | backend/app/billing_lifecycle.py:81-95 | readiness is recorded once; a live trial stays a trial, anything else is activated |
| Lifecycle.Organization.Expire | backend/app/billing_lifecycle.py:98-105 | the row becomes expired and free |
| Lifecycle.Organization.PastDueNow | backend/app/billing_lifecycle.py:108-113 | the status becomes past due and everything else but the effective date is kept |
| Lifecycle.Organization.CancelSubscription | backend/app/billing_lifecycle.py:116-123 | the row becomes canceled and free, without a subscription |
| Lifecycle.Organization.MaybeExpire | backend/app/billing_lifecycle.py:143-155 | the trial-end transition, reported exactly when the row changed, which is for a trialing row from its end on |
| Lifecycle.HandleEvent | backend/app/stripe_billing.py:98-127 | each Stripe event takes its transition; an unknown customer or type changes nothing and is unhandled |
| Lifecycle.TrialEndOnColumns | backend/app/billing_lifecycle.py:126-155 | a row is left alone exactly if it is not trialing or before its trial's end; from then on it is active Pro with readiness, else expired and free, and only the date changes besides |
| Lifecycle.StartTrialOnColumns | backend/app/billing_lifecycle.py:50-60 | a started trial begins now, ends one length later, is Pro and has no readiness |
| Lifecycle.CompleteSetupOnColumns | backend/app/billing_lifecycle.py:81-95 | a setup checkout stays in trial exactly before the trial's end, records the first readiness and is Pro |
| Lifecycle.StripeEventsOnColumns | backend/app/stripe_billing.py:98-127 | what each event changes in the columns, everything else kept |
| Lifecycle.SweepExpiredTrials | backend/app/billing_lifecycle.py:158-181 | the sweep has exactly the effect of the trial-end step on every organization and returns exactly the ids of the trialing rows at or past their end, each once |
| LifecycleRuns.ReachableRowsAreCoherent | backend/app/billing_lifecycle.py:50-155 | in every reachable row trialing implies Pro and a trial end, expired or canceled implies Free, expired implies no payment method, canceled implies no subscription, the trial lasts its length, and active on Free means never used |
| LifecycleRuns.TrialGuardIsFreeAndActive | backend/app/api/v1/auth.py:126-133 | on reachable rows the self-serve trial guard is equivalent to being free and active |
| LifecycleRuns.ReadinessChangesOnlyBy | backend/app/billing_lifecycle.py:59-91 | a step clears payment readiness exactly when it starts a trial, and only a setup checkout records it |
| LifecycleRuns.StandingChangesAreStamped | backend/app/billing_lifecycle.py:50-123 | every change of tier or status is stamped with the time of its step |
| LifecycleRuns.RetryUndoesFailedPayment | backend/app/billing_lifecycle.py:108-113 | a checkout after a failed payment lands where it would have without the failure, unless a live trial was cut short |
| LifecycleRuns.ReadinessSurvives | backend/app/billing_lifecycle.py:76-95 | over every run without a new trial, recorded readiness keeps its timestamp |
| LifecycleRuns.TrialEndNeverDowngradesReady | backend/app/billing_lifecycle.py:143-155 | no run of trial ends takes a payment-ready organization off Pro |
| LifecycleRuns.OperatorEditBreaksCoherence | backend/app/api/v1/operator.py:237-266 | an operator's status edit of a Pro row to expired or canceled leaves it on Pro, outside the lifecycle's invariant |
| LifecycleRuns.OperatorEditsOnColumns | backend/app/api/v1/operator.py:207-266 | an edit changes the columns it names and no other; a trial moved to a new end is ended exactly from then on |
| LifecycleRuns.TouchesCollapse | backend/app/billing_lifecycle.py:143-181 | any sequence of sweeps and reads of a row equals the single earliest effective one |
| LifecycleRuns.TouchesAreOneSweep | backend/app/billing_lifecycle.py:143-181 | at non-decreasing times they leave tier, status, readiness and all else but the effective date where one sweep at the last time would |
| LifecycleRuns.OperationsOnRows | backend/app/auth/entitlements.py:181-190 | a sweep touches every row, a read only the one it reads |
| LifecycleRuns.OperationsActRowByRow | backend/app/auth/entitlements.py:181-190 | over the whole table, a run of sweeps and reads acts on each organization through its own touch times alone |
| LifecycleRuns.FinalSweepAbsorbsHistory | backend/app/billing_lifecycle.py:158-181 | a final sweep after any run of sweeps and reads leaves every row where that sweep alone would |
| LifecycleRuns.DeliveryIsAbsorbedIff | backend/app/stripe_billing.py:98-127 | delivering an event and then ending the trial equals ending the trial alone, up to the effective date, if and only if the row already shows the event |
| LifecycleRuns.RedeliveryIsIdempotent | backend/app/stripe_billing.py:98-127 | redelivering any event later, with only trial-end steps in between, changes nothing but the effective date, even if the trial elapses in between |
| LifecycleRuns.StaleRedeliveryReactivates | backend/app/stripe_billing.py:109-119 | a checkout redelivered after a cancellation reactivates Pro |
| Entitlements.UnlockedExactlyWhen | backend/app/auth/entitlements.py:97-150 | levers are unlocked exactly for a Pro row that is active, or trialing inside its window and quota |
| Entitlements.ReportedFieldsMeaning | backend/app/auth/entitlements.py:116-150 | exactly which row gets which reason, the reported trial end with its default, and the unused quota |
| Entitlements.MissingOrganizationIsBase | backend/app/auth/entitlements.py:104-114 | a missing organization is Base with the rest of the limit |
| Entitlements.HotPathAgreesWithControlPlane | backend/app/auth/entitlements.py:181-222 | uncached hot path and control plane disagree exactly on an elapsed trial with a ready payment method, where the hot path is the more conservative |
| Entitlements.TierCache.Invalidate | backend/app/auth/entitlements.py:64-70 | one entry or all of them are dropped |
| Entitlements.TierCache.EntitlementState | backend/app/auth/entitlements.py:198-222 | a live entry is served, a miss is computed and stored, a failed lookup answers the Base state with its reason and stores nothing; cache check, clock and store have their own times |
| Entitlements.StateForOrg | backend/app/auth/entitlements.py:181-190 | the control-plane read applies trial expiry to the row and derives from the result |
| Entitlements.WritesAreLifecycleSteps | backend/app/billing_lifecycle.py:50-123 | a billing write in a run is the lifecycle's step at the run's clock and touches no other row |
| Entitlements.OtherWritesOnRows | backend/app/api/v1/operator.py:190-289 | plan switch, billing edit and sweep change rows as the lifecycle says, and ignored events touch nothing |
| Entitlements.EntryServedForSixtySeconds | backend/app/auth/entitlements.py:46-60 | a cached state is served for exactly 60 s and read anew from then on |
| Entitlements.EveryEntryWasComputed | backend/app/auth/entitlements.py:198-222 | in every run each cached entry derives from the clock, the row and the count at three ordered earlier moments, the first at most the slowest read's duration before the store |
| Entitlements.AtomicReadsNeverLag | backend/app/auth/entitlements.py:198-222 | when reads are one step that duration is zero |
| Entitlements.LagIsAttained | backend/app/auth/entitlements.py:204-221 | the slowest read's duration is that of an actual store of the run |
| Entitlements.ServedStateIsFresherThanTtl | backend/app/auth/entitlements.py:43-46 | in every run, for every writer in every process and every interleaving of reads, the served state derives from a clock, and a row and a count read after it, of less than 60 s plus the slowest read's duration ago |
| Entitlements.InvalidatingWritesKeepCacheCoherent | backend/app/billing_lifecycle.py:40-47 | with atomic reads and writes that all invalidate, the served state is the derivation of the current row at a clock and request count less than 60 s old |
| Entitlements.SameStateIffStandAlike | backend/app/auth/entitlements.py:97-150 | two rows derive the same state if and only if tier and trial end agree and the statuses do, an unlocked trial counting as active; a missing row derives like no other |
| Entitlements.ServedStateIsCurrentIff | backend/app/auth/entitlements.py:198-222 | at the end of any run, for every writer and interleaving, the served state derives from the current row if and only if the row that was read stands alike with it |
| Entitlements.EntrySurvivesWriteIff | backend/app/auth/entitlements.py:64-70 | after a write a live entry still derives from the current row if and only if the write dropped it or left the row standing alike |
| Entitlements.OperatorEditLeavesStalePro | backend/app/api/v1/operator.py:237-289 | an operator's status edit in the same process leaves the cache serving Pro for a canceled row |
| Entitlements.RemoteWriteLeavesStalePro | backend/app/auth/entitlements.py:43-45 | a cancellation in another process leaves the cache serving Pro for a canceled row |
| Entitlements.LateStoreUndoesInvalidation | backend/app/auth/entitlements.py:204-221 | a store that lands any time after a cancellation's invalidation restores the invalidated state |
| Entitlements.UnpaidTrialLosesProWithinTtl | backend/app/auth/entitlements.py:123-127 | in every run with atomic reads no organization is served as Pro 60 s or more after its unpaid trial ended, whatever any sweep does; other reads add at most the slowest one's duration |
| Scheduler.RunGuarded | backend/app/scheduler.py:143-162 | a tick runs unless another session holds its lock, fails open without a connection, and leaves the lock table as it found it |
| Scheduler.AlwaysExclusive | backend/app/scheduler.py:61-88 | in every interleaving a session serves one tick, a tick past its acquire holds its key and a refused tick does not |
| Scheduler.OverlapNeedsOpenTick | backend/app/scheduler.py:143-162 | two instances inside one job's tick means one of the ticks runs without the lock |
| Scheduler.AtMostOneInside | backend/app/scheduler.py:16-24 | without lock-infrastructure errors, and while sessions outlive their ticks, at most one instance is inside a job's tick, through crashes and failed unlocks, for any key function |
| Scheduler.SkippedReleaseFreesNothing | backend/app/scheduler.py:156-162 | releasing a lock that was not acquired leaves the lock table unchanged |
| Scheduler.NeverOrphanedIff | backend/app/scheduler.py:20-22 | throughout a run every held lock is backed by a live tick if and only if no step leaks a session: a granted acquire reported as failed on a free key, or a failed unlock whose session lives on |
| Scheduler.RefusedExactlyWhenHeld | backend/app/scheduler.py:18-22 | in such runs an acquire is refused exactly when a live tick under the same key holds the lock, so a crash fails over |
| Scheduler.CompletedTickRestoresCluster | backend/app/scheduler.py:143-162 | a tick that finds its key free holds it while it runs and leaves the cluster as it was |
| Scheduler.OpenTickTouchesNoLock | backend/app/scheduler.py:143-162 | a tick without the lock takes and leaves no lock |
| Scheduler.EndedSessionFreesJob | backend/app/scheduler.py:20-22 | the end of the holder's session, by a crash or in the pool, grants the job to the next session that asks |
| Scheduler.PinnedLockStarvesJob | backend/app/scheduler.py:81-88 | through every further run in which the session of a pinned lock does not end, only that session's ticks run under the lock and every other acquire is refused, whatever the session is checked out for |
| Scheduler.LeakStarvesJob | backend/app/scheduler.py:61-88 | every leak in any run starves its job in that way until the leaked session ends |
| Scheduler.FailedUnlockLeaks | backend/app/scheduler.py:81-88 | an unlock error that returns its connection to the pool is such a leak |
| Scheduler.LostSessionAllowsOverlap | backend/app/scheduler.py:64-66 | a run in which a session is lost under its tick and a second tick of the job enters under the lock |
| RateLimit.InMemoryFixedWindow.Allow | backend/app/core/ratelimit.py:46-60 | the dictionary and answer after a call |
| RateLimit.RedisFixedWindow.Allow | backend/app/core/ratelimit.py:92-106 | the shared counters and answer after a call, errors answering true |
| RateLimit.RedisKeyInjective | backend/app/core/ratelimit.py:97 | distinct key and bucket pairs have distinct Redis keys, whatever colons a key contains |
| RateLimit.BucketIsInterval | backend/app/core/ratelimit.py:50 | a bucket is the stretch of time between two multiples of the window |
| RateLimit.UnlimitedCallsAreNotCounted | backend/app/core/ratelimit.py:46-106 | a limit of zero or less admits every call and counts none |
| RateLimit.MemoryAdmitsByBlock | backend/app/core/ratelimit.py:46-60 | whatever the order of clock readings, a call is admitted exactly while the block of same-bucket calls it continues is shorter than the limit |
| RateLimit.MemoryAdmitsUpToLimitIff | backend/app/core/ratelimit.py:46-60 | in any order a bucket admits between min(calls, limit) and all its calls, and exactly min(calls, limit) if and only if it has no more calls than the limit or they arrive in one block |
| RateLimit.MemoryAdmitsByCount | backend/app/core/ratelimit.py:46-60 | in the key's clock order the memory limiter admits a call exactly while its bucket has seen fewer calls than the limit |
| RateLimit.TtlNeverResetsBucket | backend/app/core/ratelimit.py:71-80 | over every run a bucket's counter equals its counted calls and outlives the bucket, by less than a window |
| RateLimit.RedisAdmitsByCount | backend/app/core/ratelimit.py:92-106 | an answered call is admitted exactly while its bucket was counted fewer times than the limit |
| RateLimit.BackEndsAgreeIff | backend/app/core/ratelimit.py:1-13 | without Redis errors the back ends answer a call alike if and only if its bucket is not full or the block it continues is; else only the memory limiter admits it |
| RateLimit.BackEndsAgree | backend/app/core/ratelimit.py:1-13 | with each key in clock order and no errors the two back ends answer every call alike |
| RateLimit.AdmitsExactlyUpToLimit | backend/app/core/ratelimit.py:46-102 | each bucket admits exactly min(calls, limit), on the memory limiter in the key's clock order and on Redis without errors |
| RateLimit.AdmitsLimitPlusErrors | backend/app/core/ratelimit.py:103-106 | across instances a bucket admits at most the limit plus the errored calls |
| RateLimit.AnySpanAdmitsTwiceLimit | backend/app/core/ratelimit.py:46-106 | any span of one window length admits at most twice the limit on the memory limiter when its two buckets arrive in one block each, as in clock order, and twice the limit plus the span's errored calls on Redis |
| RateLimit.OutOfOrderCallsSlipThrough | backend/app/core/ratelimit.py:49-55 | a bucket interrupted by an out-of-order call passes more calls than the limit |
| Prices.ParseEntryMeaning | backend/scripts/sync_prices.py:80-118 | an entry is rejected, skipped or parsed exactly as its cells say, under its provider or unknown, every parsed price the nearest unit to its cell |
| Prices.StoredPriceRoundTrips | backend/scripts/sync_prices.py:28-31 | a stored price is unchanged by quantizing it again |
| Prices.ParseFeed | backend/scripts/sync_prices.py:91-127 | the loop yields the priced entries in order with the alias where missing, or an error if any price is bad |
| Prices.ParseAllMeaning | backend/scripts/sync_prices.py:91-118 | the parsed list holds exactly the priced entries, and the feed is rejected exactly for a bad price |
| Prices.AliasFollowsSource | backend/scripts/sync_prices.py:119-127 | the alias takes its source's price only where the feed does not price it, and no other identity is affected |
| Prices.FeedIdentitiesAreDistinct | backend/scripts/sync_prices.py:119-127 | a parsed feed prices every identity once, the alias included |
| Prices.LatestIsNewest | backend/scripts/sync_prices.py:177-185 | the row compared against the feed is the unique newest version of its identity |
| Prices.Catalog.Sync | backend/scripts/sync_prices.py:145-214 | a version is appended for every changed price and counted; a bad feed writes nothing |
| Prices.SyncAppends | backend/scripts/sync_prices.py:186-201 | a sync only appends, and only feed prices at its own time |
| Prices.SyncMatchesFeed | backend/scripts/sync_prices.py:177-201 | after a sync the latest version of every feed identity is the feed's price, and histories stay in order |
| Prices.SyncLeavesOthers | backend/scripts/sync_prices.py:151-201 | identities missing from the feed keep their latest version |
| Prices.SyncIsIdempotent | backend/scripts/sync_prices.py:8-10 | replaying the same feed at any time inserts nothing |
| Prices.ResolveMeaning | backend/scripts/seed_demo.py:363-373 | a lookup returns the newest rows of the model at or before the time, of the request's provider if it has any, else of all providers |
| Prices.SyncNeverRewritesHistory | backend/scripts/seed_demo.py:343-373 | no as-of lookup at an earlier time can return anything else than before, provider fallback included |
| Prices.ResolveReturnsFeedPrice | backend/scripts/seed_demo.py:365-372 | from the sync on, a lookup of a feed identity returns the feed's price |
| Prices.HistoryStaysInOrder | backend/scripts/sync_prices.py:145-214 | over every run of syncs at increasing times each sync's clock hypothesis is met by the ones before it |
| Alerts.DedupeKeyInjective | backend/app/alerts.py:151-177 | distinct crossings have distinct keys even when owner keys contain colons |
| Alerts.EachCrossingSentAtMostOnce | backend/app/alerts.py:83-125 | over every sequence of evaluations a crossing whose key fits and whose row the database takes is sent at most once, and exactly as often as it is recorded |
| Alerts.AtMostOnceIffKeyFits | backend/alembic/versions/b9c0d1e2f3a4_alert_deliveries.py:41-47 | over all runs in which the database takes its row otherwise, a crossing is sent at most once if and only if its key fits the column |
| Alerts.SentAgain | backend/app/alerts.py:104-125 | from any log without its key, every evaluation that reaches a crossing whose insert fails sends it and leaves it unrecorded |
| Alerts.SentEveryTime | backend/app/alerts.py:104-125 | a crossing that no evaluation manages to record is sent once by each |
| Alerts.BudgetKeyFitsIff | backend/app/alerts.py:177 | a budget crossing's key fits exactly up to a stated owner-key length |
| Alerts.SpendKeyAlwaysFits | backend/app/alerts.py:151 | a spend crossing's key always fits |
| Alerts.ReevaluationDeliversNothing | backend/app/alerts.py:99-103 | re-evaluating unchanged rules and spend, all recorded the first time, delivers nothing |
| Alerts.ReachesIff | backend/app/budgets.py:41-45 | for every budget and threshold, a percentage is reached exactly from the rounding edge below the least tenth that meets it |
| Alerts.CrossingsAreExactlyReached | backend/app/alerts.py:148-177 | an evaluation fires for exactly the dollar thresholds met and the budget percentages so reached |
| Alerts.AlertLog.Fire | backend/app/alerts.py:83-125 | skip a recorded key, else send and then record, raising if the key is too long or the row is refused |
| Alerts.AlertLog.EvaluateAndDeliver | backend/app/alerts.py:128-200 | the nested loops fire the reached crossings in order, stopping where an insert fails |
| Alerts.FullBudgetAlertFiresFrom9995 | backend/app/budgets.py:41-49 | a 100% alert fires exactly from 99.95% of the budget on |
| Benchmark.TrueNetMonotone | backend/scripts/benchmark_proof.py:397-437 | on every sample a path that costs no more nets no less, for fee shares in [0, 1] |
| Benchmark.TrueNetMeaning | backend/scripts/benchmark_proof.py:397-437 | what a sample nets: captured savings less holdback twice and overhead, with the gain share off a gain only |
| Benchmark.GridEntries | backend/scripts/benchmark_proof.py:78-97 | every rate and capture pair has its figure at its place, rounded to six and four decimals |
| Benchmark.SortDominates | backend/scripts/benchmark_proof.py:512 | raising every value raises every order statistic |
| Benchmark.PercentileIsInterpolation | backend/scripts/benchmark_proof.py:509-521 | all branches of the percentile equal the rounded interpolation at its rank |
| Benchmark.PercentileMeaning | backend/scripts/benchmark_proof.py:509-521 | the percentile of any figures in terms of their ascending order alone |
| Benchmark.PercentilesAreOrdered | backend/scripts/benchmark_proof.py:458-462 | p25 <= p50 <= p75, for any figures and any two percentiles |
| Benchmark.PercentileDominates | backend/scripts/benchmark_proof.py:509-521 | percentiles preserve pointwise order through sorting, interpolation and rounding |
| Benchmark.CheaperPathPublishesNoLess | backend/scripts/benchmark_proof.py:366-462 | a path whose compute and p50 latency costs are no higher publishes net savings no lower at every percentile, as rate and in dollars |

## Left out

- Floating point in the benchmark script: figures are exact reals, so binary rounding is not modelled.
- The year range 1 to 9999 of `datetime`: years are unbounded, so overflow errors at its ends are not modelled.
- Time zones: every instant is UTC and `date_trunc` runs in a UTC session.
- Interleavings inside the sweep: selecting and updating rows is one step.
- The scheduler's waiting loop and `stop()`, which cancels a task while its thread goes on.
- The hash behind a job's lock key: the locking results hold for any key function, so collisions need no assumption.
- A limiter window of zero seconds, which the source divides by.
- Clocks that differ: Redis counters expire by the clock the calls read, and `RateLimit.BackEndsAgree` gives both limiters the same readings, although the memory limiter reads a monotonic clock and the Redis one wall time.
- `compute_experiment`, holdback intervals and the cost offsets of verified savings: a project's verified figure is an input to billing.
- Run-rating of actual spend and the KPI deltas of the savings summary: single expressions over figures modelled here.
- Lever names outside the vocabulary, which the displayed split would drop.
- Catalog metadata, curation and price overrides: a sync does not touch overrides, and catalog upserts carry no price.
- The ledger writer: that a saving is on exactly one of cache hit, batch or routed is a hypothesis here.
- The recommendation engine, governance, experiments, SMTP, Slack, Stripe, Redis sockets, authentication and the frontends.
