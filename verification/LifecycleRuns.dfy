/**
 What holds over every run of billing steps: the invariants of reachable rows, the
 confluence of sweeps and lazy reads, and redelivery of Stripe events.
 */
module LifecycleRuns {
  import opened Money
  import opened Lifecycle

  // ----- reachable rows -----

  datatype Step = Trial(now: int) | Stripe(event: StripeEvent, now: int) | End(now: int)

  function Next(r: Row, s: Step, trialLength: int): Row {
    match s
    case Trial(now) => StartTrial(r, trialLength, now)
    case Stripe(e, now) => Handle(r, e, now)
    case End(now) => TrialEnd(r, now)
  }

  function Run(r: Row, steps: seq<Step>, trialLength: int): Row {
    if steps == [] then r
    else Next(Run(r, steps[..|steps| - 1], trialLength), steps[|steps| - 1], trialLength)
  }

  /** The billing columns agree with one another. */
  ghost predicate Coherent(r: Row, trialLength: int) {
    && (r.status == Trialing ==> r.tier == Pro && r.trialEndsAt.Some?)
    && (r.status in {Expired, Canceled} ==> r.tier == Free)
    && (r.status == Expired ==> r.paymentReadyAt.None?)
    && (r.status == Canceled ==> r.subscription.None?)
    && (r.trialStartedAt.Some? <==> r.trialEndsAt.Some?)
    && (r.trialStartedAt.Some? ==> r.trialEndsAt.value == r.trialStartedAt.value + trialLength)
    && (r.status == Active && r.tier == Free ==> NeverUsed(r))
  }

  ghost predicate NeverUsed(r: Row) {
    r.trialStartedAt.None? && r.paymentReadyAt.None? && r.subscription.None?
  }

  /** `_can_start_self_serve_trial`. */
  predicate CanStartTrial(r: Row) {
    r.tier == Free && r.status == Active && r.trialStartedAt.None? && r.subscription.None? && r.paymentReadyAt.None?
  }

  /** A new organization is on the free plan, active, and may start its trial. */
  lemma NewRowIsFreeAndUnused(now: int)
    ensures NewRow(now).tier == Free && NewRow(now).status == Active && NewRow(now).createdAt == now
    ensures NewRow(now).trialEndsAt.None? && NewRow(now).planEffectiveAt.None? && CanStartTrial(NewRow(now))
  {
  }

  /** Every row that any run of steps reaches, at any times in any order, is coherent. */
  lemma {:induction false} ReachableRowsAreCoherent(created: int, steps: seq<Step>, trialLength: int)
    ensures Coherent(Run(NewRow(created), steps, trialLength), trialLength)
  {
    if steps != [] {
      var n := |steps| - 1;
      ReachableRowsAreCoherent(created, steps[..n], trialLength);
      StepKeepsCoherence(Run(NewRow(created), steps[..n], trialLength), steps[n], trialLength);
    }
  }

  lemma StepKeepsCoherence(r: Row, s: Step, trialLength: int)
    requires Coherent(r, trialLength)
    ensures Coherent(Next(r, s, trialLength), trialLength)
  {
  }

  /** Consequently a reachable row may start a self-serve trial exactly when it is on the free
      plan and active: the guard's other three conditions follow. */
  lemma {:induction false} TrialGuardIsFreeAndActive(created: int, steps: seq<Step>, trialLength: int)
    ensures
      var r := Run(NewRow(created), steps, trialLength);
      CanStartTrial(r) <==> r.tier == Free && r.status == Active
  {
    hide Run;
    ReachableRowsAreCoherent(created, steps, trialLength);
  }

  /** A step clears recorded payment readiness exactly when it starts a trial, and otherwise keeps
      its timestamp; only a setup checkout records it. */
  lemma ReadinessChangesOnlyBy(r: Row, s: Step, trialLength: int)
    ensures
      var after := Next(r, s, trialLength).paymentReadyAt;
      && (r.paymentReadyAt.Some? ==> after == if s.Trial? then None else r.paymentReadyAt)
      && (r.paymentReadyAt.None? && after.Some? <==>
            r.paymentReadyAt.None? && s.Stripe? && s.event.CheckoutCompleted? && !Present(s.event.subscription))
  {
  }

  /** Every change of tier or status of a coherent row is stamped with the time of the step. */
  lemma StandingChangesAreStamped(r: Row, s: Step, trialLength: int)
    requires Coherent(r, trialLength)
    ensures
      var after := Next(r, s, trialLength);
      after.tier != r.tier || after.status != r.status ==> after.planEffectiveAt == Some(s.now)
  {
  }

  /** A failed payment keeps what a retry needs: a later checkout lands where it would have without
      the failure, unless a live trial was cut short. */
  lemma RetryUndoesFailedPayment(r: Row, subscription: Option<string>, failed: int, retried: int)
    requires r.status == Trialing ==> TrialElapsed(r, retried) || Present(subscription)
    ensures
      var checkout := CheckoutCompleted(subscription);
      Handle(Handle(r, PaymentFailed, failed), checkout, retried) == Handle(r, checkout, retried)
  {
  }

  /** Payment readiness, once recorded, keeps its timestamp until a new trial is started. */
  lemma {:induction false} ReadinessSurvives(r: Row, steps: seq<Step>, trialLength: int)
    requires r.paymentReadyAt.Some?
    requires forall s :: s in steps ==> !s.Trial?
    ensures Run(r, steps, trialLength).paymentReadyAt == r.paymentReadyAt
  {
    if steps != [] {
      ReadinessSurvives(r, steps[..|steps| - 1], trialLength);
    }
  }

  /** So no trial end in any run downgrades an organization whose payment method is ready: from
      the step that made it ready, only a Stripe event takes it off Pro. */
  lemma {:induction false} TrialEndNeverDowngradesReady(r: Row, ends: seq<Step>, trialLength: int)
    requires Coherent(r, trialLength) && r.paymentReadyAt.Some? && r.tier == Pro
    requires forall s :: s in ends ==> s.End?
    ensures
      var after := Run(r, ends, trialLength);
      after.tier == Pro && after.status != Expired && after.paymentReadyAt == r.paymentReadyAt
  {
    if ends != [] {
      var n := |ends| - 1;
      assert ends[n].End?;
      TrialEndNeverDowngradesReady(r, ends[..n], trialLength);
    }
  }

  /** An operator's plan switch. */
  function SwitchPlan(r: Row, tier: Tier, now: int): Row {
    r.(tier := tier, planEffectiveAt := Some(now))
  }

  /** An operator's edit of the billing configuration: the status, the trial end, or both. */
  function EditBilling(r: Row, status: Option<Status>, end: Option<int>): Row {
    r.(status := if status.Some? then status.value else r.status,
       trialEndsAt := if end.Some? then end else r.trialEndsAt)
  }

  /** Edits are outside the lifecycle: setting the status of any Pro row to expired, or
      canceled, leaves it on Pro and breaks the invariant. */
  lemma OperatorEditBreaksCoherence(r: Row, trialLength: int, status: Status)
    requires Coherent(r, trialLength) && r.tier == Pro && status in {Expired, Canceled}
    ensures !Coherent(EditBilling(r, Some(status), None), trialLength)
  {
  }

  /** An edit changes the columns it names and no other, and a plan switch the tier, dated. So a trial
      moved to end at `end` is ended by a touch exactly from then on. */
  lemma OperatorEditsOnColumns(r: Row, tier: Tier, status: Status, end: int, now: int)
    ensures SwitchPlan(r, tier, now) == r.(tier := tier, planEffectiveAt := Some(now))
    ensures EditBilling(r, None, None) == r
    ensures EditBilling(r, Some(status), None) == r.(status := status)
    ensures EditBilling(r, None, Some(end)) == r.(trialEndsAt := Some(end))
    ensures EditBilling(r, Some(status), Some(end)) == r.(status := status, trialEndsAt := Some(end))
    ensures
      var moved := EditBilling(r, None, Some(end));
      r.status == Trialing ==> (TrialEnd(moved, now) != moved <==> end <= now)
  {
  }

  // ----- confluence of sweeps and lazy reads -----

  /** The trial-end step applied at each of the given times in turn. */
  function Touched(r: Row, times: seq<int>): Row {
    if times == [] then r else TrialEnd(Touched(r, times[..|times| - 1]), times[|times| - 1])
  }

  predicate NonDecreasing(times: seq<int>) {
    forall i, j :: 0 <= i < j < |times| ==> times[i] <= times[j]
  }

  /** The first of the given times at which the trial is over. */
  function FirstOver(r: Row, times: seq<int>): Option<int> {
    if times == [] then None
    else
      var earlier := FirstOver(r, times[..|times| - 1]);
      if earlier.Some? then earlier
      else if TrialOver(r, times[|times| - 1]) then Some(times[|times| - 1]) else None
  }

  /** Any sequence of touches, at any times, has the effect of the single earliest effective one. */
  lemma {:induction false} TouchesCollapse(r: Row, times: seq<int>)
    ensures Touched(r, times) == if FirstOver(r, times).Some? then TrialEnd(r, FirstOver(r, times).value) else r
    ensures FirstOver(r, times).Some? ==> TrialOver(r, FirstOver(r, times).value)
  {
    if times != [] {
      TouchesCollapse(r, times[..|times| - 1]);
    }
  }

  predicate SameStanding(a: Row, b: Row) {
    a == b.(planEffectiveAt := a.planEffectiveAt)
  }

  lemma {:induction false} OverOnceThenAlways(r: Row, times: seq<int>)
    requires times != [] && NonDecreasing(times)
    ensures FirstOver(r, times).Some? <==> TrialOver(r, times[|times| - 1])
  {
    var n := |times| - 1;
    if n > 0 {
      OverOnceThenAlways(r, times[..n]);
      assert times[n - 1] <= times[n];
    }
  }

  /** Sweeps and lazy reads are confluent: at non-decreasing times they leave the row exactly where
      one sweep at the last time would, except for when the change took effect. */
  lemma {:induction false} TouchesAreOneSweep(r: Row, times: seq<int>)
    requires times != [] && NonDecreasing(times)
    ensures SameStanding(Touched(r, times), TrialEnd(r, times[|times| - 1]))
  {
    hide FirstOver, Touched, NonDecreasing;
    TouchesCollapse(r, times);
    OverOnceThenAlways(r, times);
  }

  /** Control-plane operations on the whole table: a sweep, or a read of one organization. */
  datatype Operation = Sweep(now: int) | Read(id: nat, now: int)

  function Perform(db: map<nat, Row>, op: Operation): map<nat, Row> {
    match op
    case Sweep(now) => map id | id in db :: TrialEnd(db[id], now)
    case Read(who, now) => if who in db then db[who := TrialEnd(db[who], now)] else db
  }

  function PerformAll(db: map<nat, Row>, ops: seq<Operation>): map<nat, Row> {
    if ops == [] then db else Perform(PerformAll(db, ops[..|ops| - 1]), ops[|ops| - 1])
  }

  /** The times at which a run of operations touches one organization. */
  function TouchTimes(ops: seq<Operation>, id: nat): seq<int> {
    if ops == [] then []
    else
      var op := ops[|ops| - 1];
      TouchTimes(ops[..|ops| - 1], id) + (if op.Read? && op.id != id then [] else [op.now])
  }

  /** A sweep takes every row through the trial end at its time, a read only the one it reads. */
  lemma OperationsOnRows(db: map<nat, Row>, op: Operation, id: nat)
    ensures id in Perform(db, op) <==> id in db
    ensures id in db ==>
              Perform(db, op)[id] == if op.Sweep? || op.id == id then TrialEnd(db[id], op.now) else db[id]
  {
  }

  /** Organizations do not interfere: a run acts on each row through its own touch times alone. */
  lemma {:induction false} OperationsActRowByRow(db: map<nat, Row>, ops: seq<Operation>, id: nat)
    requires id in db
    ensures id in PerformAll(db, ops)
    ensures PerformAll(db, ops)[id] == Touched(db[id], TouchTimes(ops, id))
  {
    hide TrialEnd;
    if ops != [] {
      var n := |ops| - 1;
      OperationsActRowByRow(db, ops[..n], id);
      var times := TouchTimes(ops[..n], id);
      assert times + [] == times;
      assert (times + [ops[n].now])[..|times|] == times;
    }
  }

  /** The final sweep absorbs whatever came before it: any run of sweeps and reads followed by a
      sweep no earlier than any of them leaves every row where that sweep alone would. */
  lemma FinalSweepAbsorbsHistory(db: map<nat, Row>, ops: seq<Operation>, now: int, id: nat)
    requires id in db
    requires NonDecreasing(TouchTimes(ops, id) + [now])
    ensures
      var after := PerformAll(db, ops + [Sweep(now)]);
      id in after && SameStanding(after[id], TrialEnd(db[id], now))
  {
    hide TrialEnd, SameStanding, NonDecreasing;
    var all := ops + [Sweep(now)];
    assert all[..|all| - 1] == ops;
    OperationsActRowByRow(db, all, id);
    TouchesAreOneSweep(db[id], TouchTimes(ops, id) + [now]);
  }

  // ----- redelivery -----

  /** What a row must already show for a Stripe event to have no further effect once the trial-end
      step has run at `end`. */
  predicate Absorbs(r: Row, e: StripeEvent, end: int) {
    match e
    case CheckoutCompleted(s) =>
      if Present(s) then
        r.subscription == s && ((r.status == Active && r.tier == Pro) || (TrialOver(r, end) && r.paymentReadyAt.Some?))
      else
        r.paymentReadyAt.Some? && (r.status == Trialing || (r.status == Active && r.tier == Pro))
    case SubscriptionDeleted => r.status == Canceled && r.subscription.None?
    case PaymentFailed => r.status == PastDue
    case OtherEvent => true
  }

  /** Delivering an event and then running the trial-end step equals the trial-end step alone,
      up to the effective date, if and only if the row already absorbs the event. */
  lemma DeliveryIsAbsorbedIff(r: Row, e: StripeEvent, trialLength: int, now: int, end: int)
    requires Coherent(r, trialLength) && now <= end
    ensures SameStanding(TrialEnd(Handle(r, e, now), end), TrialEnd(r, end)) <==> Absorbs(r, e, end)
  {
  }

  /** Redelivery is idempotent: with only trial-end steps between the two deliveries, at any times,
      the second delivery changes nothing but the effective date, even when the trial runs out in
      between. */
  lemma {:induction false} RedeliveryIsIdempotent(
    r: Row, e: StripeEvent, trialLength: int, first: int, times: seq<int>, second: int, end: int)
    requires Coherent(r, trialLength) && second <= end
    ensures
      var between := Touched(Handle(r, e, first), times);
      SameStanding(TrialEnd(Handle(between, e, second), end), TrialEnd(between, end))
  {
    hide Touched, FirstOver;
    var delivered := Handle(r, e, first);
    var between := Touched(delivered, times);
    TouchesCollapse(delivered, times);
    StepKeepsCoherence(r, Stripe(e, first), trialLength);
    if FirstOver(delivered, times).Some? {
      StepKeepsCoherence(delivered, End(FirstOver(delivered, times).value), trialLength);
    }
    AbsorbedAfterDelivery(r, e, first, FirstOver(delivered, times), end);
    DeliveryIsAbsorbedIff(between, e, trialLength, second, end);
  }

  lemma AbsorbedAfterDelivery(r: Row, e: StripeEvent, first: int, over: Option<int>, end: int)
    ensures
      var delivered := Handle(r, e, first);
      Absorbs(if over.Some? then TrialEnd(delivered, over.value) else delivered, e, end)
  {
  }

  /** With another event in between it is not: a checkout redelivered after a cancellation puts the
      canceled organization back on Pro. */
  lemma StaleRedeliveryReactivates(r: Row, trialLength: int, t: int)
    requires Coherent(r, trialLength)
    ensures
      var checkout := CheckoutCompleted(None);
      var canceled := Handle(Handle(r, checkout, t), SubscriptionDeleted, t);
      canceled.tier == Free && canceled.status == Canceled
      && Handle(canceled, checkout, t).tier == Pro && Handle(canceled, checkout, t).status == Active
  {
  }
}
