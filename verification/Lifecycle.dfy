/**
 The billing state of an organization: `backend/app/billing_lifecycle.py` and the Stripe
 dispatch of `backend/app/stripe_billing.py`. Each transition is one step: the
 assignments of a call together with its caller's commit.
 */
module Lifecycle {
  import opened Money

  datatype Tier = Free | Pro
  datatype Status = Trialing | Active | PastDue | Canceled | Expired

  /** The billing columns of an organization row. */
  datatype Row = Row(
    tier: Tier,
    status: Status,
    trialStartedAt: Option<int>,
    trialEndsAt: Option<int>,
    planEffectiveAt: Option<int>,
    paymentReadyAt: Option<int>,
    subscription: Option<string>,
    createdAt: int)

  /** A new row as the column defaults leave it. */
  function NewRow(now: int): Row {
    Row(Free, Active, None, None, None, None, None, now)
  }

  // ----- transitions as functions of the row -----

  predicate TrialElapsed(r: Row, now: int) {
    r.trialEndsAt.Some? && now >= r.trialEndsAt.value
  }

  /** `is_trial_expired`: a trialing organization past its end. */
  predicate TrialOver(r: Row, now: int) {
    r.status == Trialing && TrialElapsed(r, now)
  }

  function StartTrial(r: Row, trialLength: int, now: int): Row {
    r.(tier := Pro, status := Trialing, trialStartedAt := Some(now), trialEndsAt := Some(now + trialLength),
       planEffectiveAt := Some(now), paymentReadyAt := None)
  }

  /** A Stripe id that is absent or empty counts as none. */
  predicate Present(id: Option<string>) {
    id.Some? && id.value != ""
  }

  function Activate(r: Row, subscription: Option<string>, now: int): Row {
    r.(tier := Pro, status := Active,
       subscription := if Present(subscription) then subscription else r.subscription,
       planEffectiveAt := Some(now))
  }

  function CompleteSetup(r: Row, now: int): Row {
    var ready := if r.paymentReadyAt.None? then r.(paymentReadyAt := Some(now)) else r;
    if r.status == Trialing && !TrialElapsed(r, now) then ready.(tier := Pro) else Activate(ready, None, now)
  }

  function ExpireTrial(r: Row, now: int): Row {
    r.(tier := Free, status := Expired, planEffectiveAt := Some(now))
  }

  function MarkPastDue(r: Row, now: int): Row {
    r.(status := PastDue, planEffectiveAt := Some(now))
  }

  function Cancel(r: Row, now: int): Row {
    r.(tier := Free, status := Canceled, subscription := None, planEffectiveAt := Some(now))
  }

  /** The trial-end step, `maybe_expire`: promote a payment-ready trial, downgrade an unpaid one. */
  function TrialEnd(r: Row, now: int): Row {
    if !TrialOver(r, now) then r
    else if r.paymentReadyAt.Some? then Activate(r, None, now)
    else ExpireTrial(r, now)
  }

  datatype StripeEvent =
    | CheckoutCompleted(subscription: Option<string>)
    | SubscriptionDeleted
    | PaymentFailed
    | OtherEvent

  function Handle(r: Row, e: StripeEvent, now: int): Row {
    match e
    case CheckoutCompleted(s) => if Present(s) then Activate(r, s, now) else CompleteSetup(r, now)
    case SubscriptionDeleted => Cancel(r, now)
    case PaymentFailed => MarkPastDue(r, now)
    case OtherEvent => r
  }

  // ----- what the transitions do to the columns -----

  /** A trial that is not over is left alone, whatever else the row says; from its end on it becomes
      active Pro if a payment method is ready, else expired and free, and nothing else changes but the
      effective date. */
  lemma TrialEndOnColumns(r: Row, now: int)
    ensures TrialEnd(r, now) == r <==> r.status != Trialing || r.trialEndsAt.None? || now < r.trialEndsAt.value
    ensures r.status == Trialing && r.trialEndsAt.Some? && r.trialEndsAt.value <= now ==>
              TrialEnd(r, now) ==
                if r.paymentReadyAt.Some? then r.(tier := Pro, status := Active, planEffectiveAt := Some(now))
                else r.(tier := Free, status := Expired, planEffectiveAt := Some(now))
  {
  }

  /** A started trial begins now and lasts its length, on Pro and without readiness; the subscription
      and the creation date are kept. */
  lemma StartTrialOnColumns(r: Row, trialLength: int, now: int)
    ensures
      StartTrial(r, trialLength, now)
      == Row(Pro, Trialing, Some(now), Some(now + trialLength), Some(now), None, r.subscription, r.createdAt)
  {
  }

  /** A setup checkout records the first readiness and puts the row on Pro; it stays in trial exactly
      before the trial's end and is active otherwise, dated now. */
  lemma CompleteSetupOnColumns(r: Row, now: int)
    ensures
      var inTrial := r.status == Trialing && (r.trialEndsAt.None? || now < r.trialEndsAt.value);
      CompleteSetup(r, now)
      == r.(tier := Pro,
            status := if inTrial then Trialing else Active,
            planEffectiveAt := if inTrial then r.planEffectiveAt else Some(now),
            paymentReadyAt := if r.paymentReadyAt.Some? then r.paymentReadyAt else Some(now))
  {
  }

  /** The other events: a subscription checkout activates and stores its id, a deletion cancels and
      frees, a failed payment changes the status alone; each is dated now. */
  lemma StripeEventsOnColumns(r: Row, id: string, now: int)
    requires id != ""
    ensures Handle(r, CheckoutCompleted(Some(id)), now)
            == r.(tier := Pro, status := Active, subscription := Some(id), planEffectiveAt := Some(now))
    ensures Handle(r, CheckoutCompleted(None), now) == CompleteSetup(r, now)
    ensures Handle(r, CheckoutCompleted(Some("")), now) == CompleteSetup(r, now)
    ensures Handle(r, SubscriptionDeleted, now)
            == r.(tier := Free, status := Canceled, subscription := None, planEffectiveAt := Some(now))
    ensures Handle(r, PaymentFailed, now) == r.(status := PastDue, planEffectiveAt := Some(now))
    ensures Handle(r, OtherEvent, now) == r
  {
  }

  // ----- the transitions on the row in place -----

  class Organization {
    const id: nat
    var tier: Tier
    var status: Status
    var trialStartedAt: Option<int>
    var trialEndsAt: Option<int>
    var planEffectiveAt: Option<int>
    var paymentReadyAt: Option<int>
    var subscription: Option<string>
    const createdAt: int

    function AsRow(): Row
      reads this
    {
      Row(tier, status, trialStartedAt, trialEndsAt, planEffectiveAt, paymentReadyAt, subscription, createdAt)
    }

    constructor (id: nat, now: int)
      ensures AsRow() == NewRow(now) && this.id == id
      ensures tier == Free && status == Active && paymentReadyAt.None? && subscription.None?
    {
      this.id := id;
      tier, status := Free, Active;
      trialStartedAt, trialEndsAt, planEffectiveAt, paymentReadyAt := None, None, None, None;
      subscription := None;
      createdAt := now;
    }

    method Start(trialLength: int, now: int)
      modifies this
      ensures AsRow() == StartTrial(old(AsRow()), trialLength, now)
    {
      tier := Pro;
      status := Trialing;
      trialStartedAt := Some(now);
      trialEndsAt := Some(now + trialLength);
      planEffectiveAt := Some(now);
      paymentReadyAt := None;
    }

    method ActivatePerformance(stripeSubscription: Option<string>, now: int)
      modifies this
      ensures AsRow() == Activate(old(AsRow()), stripeSubscription, now)
    {
      tier := Pro;
      status := Active;
      if Present(stripeSubscription) {
        subscription := stripeSubscription;
      }
      planEffectiveAt := Some(now);
    }

    method CompletePaymentMethodSetup(now: int)
      modifies this
      ensures AsRow() == CompleteSetup(old(AsRow()), now)
      ensures status == Trialing <==>
                old(status) == Trialing && (old(trialEndsAt).None? || now < old(trialEndsAt).value)
    {
      if paymentReadyAt.None? {
        paymentReadyAt := Some(now);
      }
      if status == Trialing && !TrialElapsed(AsRow(), now) {
        tier := Pro;
        return;
      }
      ActivatePerformance(None, now);
    }

    method Expire(now: int)
      modifies this
      ensures AsRow() == ExpireTrial(old(AsRow()), now)
    {
      tier := Free;
      status := Expired;
      planEffectiveAt := Some(now);
    }

    method PastDueNow(now: int)
      modifies this
      ensures AsRow() == MarkPastDue(old(AsRow()), now)
    {
      status := PastDue;
      planEffectiveAt := Some(now);
    }

    method CancelSubscription(now: int)
      modifies this
      ensures AsRow() == Cancel(old(AsRow()), now)
    {
      tier := Free;
      status := Canceled;
      subscription := None;
      planEffectiveAt := Some(now);
    }

    /** Apply the trial-end transition on read; report whether the row changed. */
    method MaybeExpire(now: int) returns (changed: bool)
      modifies this
      ensures AsRow() == TrialEnd(old(AsRow()), now)
      ensures changed <==> AsRow() != old(AsRow())
      ensures changed <==> old(status) == Trialing && old(trialEndsAt).Some? && old(trialEndsAt).value <= now
    {
      if TrialOver(AsRow(), now) {
        EndTrial(now);
        return true;
      }
      return false;
    }

    /** The branch that `maybe_expire` and the sweep share. */
    method EndTrial(now: int)
      requires TrialOver(AsRow(), now)
      modifies this
      ensures AsRow() == TrialEnd(old(AsRow()), now)
    {
      if paymentReadyAt.Some? {
        ActivatePerformance(None, now);
      } else {
        Expire(now);
      }
    }
  }

  /** `handle_event`: an unknown customer or event type changes nothing and is reported unhandled. */
  method HandleEvent(org: Organization?, e: StripeEvent, now: int) returns (handled: bool)
    modifies org
    ensures handled <==> org != null && e != OtherEvent
    ensures org != null ==> org.AsRow() == Handle(old(org.AsRow()), e, now)
  {
    if org == null {
      return false;
    }
    match e {
      case CheckoutCompleted(s) =>
        if Present(s) {
          org.ActivatePerformance(s, now);
        } else {
          org.CompletePaymentMethodSetup(now);
        }
      case SubscriptionDeleted => org.CancelSubscription(now);
      case PaymentFailed => org.PastDueNow(now);
      case OtherEvent => return false;
    }
    return true;
  }

  /** The sweep's query: the positions of the trialing rows whose end has passed. */
  method SelectDue(orgs: seq<Organization>, now: int) returns (due: seq<nat>)
    ensures forall k :: 0 <= k < |due| ==> due[k] < |orgs| && TrialOver(orgs[due[k]].AsRow(), now)
    ensures forall k, m :: 0 <= k < m < |due| ==> due[k] < due[m]
    ensures forall n :: 0 <= n < |orgs| && TrialOver(orgs[n].AsRow(), now) ==> n in due
  {
    due := [];
    for i := 0 to |orgs|
      invariant forall k :: 0 <= k < |due| ==> due[k] < i && TrialOver(orgs[due[k]].AsRow(), now)
      invariant forall k, m :: 0 <= k < m < |due| ==> due[k] < due[m]
      invariant forall n :: 0 <= n < i && TrialOver(orgs[n].AsRow(), now) ==> n in due
    {
      if orgs[i].status == Trialing && orgs[i].trialEndsAt.Some? && orgs[i].trialEndsAt.value <= now {
        due := due + [i];
      }
    }
  }

  /** The sweep's loop over the selected rows. */
  method EndTrials(orgs: seq<Organization>, due: seq<nat>, now: int) returns (transitioned: seq<nat>)
    requires forall i, j :: 0 <= i < j < |orgs| ==> orgs[i] != orgs[j]
    requires forall k :: 0 <= k < |due| ==> due[k] < |orgs| && TrialOver(orgs[due[k]].AsRow(), now)
    requires forall k, m :: 0 <= k < m < |due| ==> due[k] < due[m]
    modifies orgs
    ensures |transitioned| == |due| && forall m :: 0 <= m < |due| ==> transitioned[m] == orgs[due[m]].id
    ensures forall m :: 0 <= m < |due| ==> orgs[due[m]].AsRow() == TrialEnd(old(orgs[due[m]].AsRow()), now)
    ensures forall n :: 0 <= n < |orgs| && n !in due ==> orgs[n].AsRow() == old(orgs[n].AsRow())
  {
    hide *;
    transitioned := [];
    for k := 0 to |due|
      invariant |transitioned| == k && forall m :: 0 <= m < k ==> transitioned[m] == orgs[due[m]].id
      invariant forall m :: 0 <= m < k ==> orgs[due[m]].AsRow() == TrialEnd(old(orgs[due[m]].AsRow()), now)
      invariant forall m :: k <= m < |due| ==> orgs[due[m]].AsRow() == old(orgs[due[m]].AsRow())
      invariant forall n :: 0 <= n < |orgs| && n !in due ==> orgs[n].AsRow() == old(orgs[n].AsRow())
    {
      orgs[due[k]].EndTrial(now);
      transitioned := transitioned + [orgs[due[k]].id];
    }
  }

  /** The sweep has exactly the effect of the trial-end step on every organization, and returns
      exactly the ids it changed, each once. */
  method SweepExpiredTrials(orgs: seq<Organization>, now: int) returns (transitioned: seq<nat>)
    requires forall i, j :: 0 <= i < j < |orgs| ==> orgs[i].id != orgs[j].id
    modifies orgs
    ensures forall i :: 0 <= i < |orgs| ==> orgs[i].AsRow() == TrialEnd(old(orgs[i].AsRow()), now)
    ensures forall i :: 0 <= i < |orgs| ==> (orgs[i].id in transitioned <==> orgs[i].AsRow() != old(orgs[i].AsRow()))
    ensures forall i :: 0 <= i < |orgs| ==>
              (orgs[i].id in transitioned <==>
                 old(orgs[i].status) == Trialing
                 && old(orgs[i].trialEndsAt).Some? && old(orgs[i].trialEndsAt).value <= now)
    ensures forall n :: n in transitioned ==> exists i :: 0 <= i < |orgs| && orgs[i].id == n
    ensures forall i, j :: 0 <= i < j < |transitioned| ==> transitioned[i] != transitioned[j]
  {
    hide *;
    forall i | 0 <= i < |orgs|
      ensures orgs[i].AsRow().status == orgs[i].status && orgs[i].AsRow().trialEndsAt == orgs[i].trialEndsAt
    {
      RowColumns(orgs[i]);
    }
    var due := SelectDue(orgs, now);
    transitioned := EndTrials(orgs, due, now);
    forall i | 0 <= i < |orgs|
      ensures orgs[i].AsRow() == TrialEnd(old(orgs[i].AsRow()), now)
      ensures orgs[i].id in transitioned <==> orgs[i].AsRow() != old(orgs[i].AsRow())
      ensures orgs[i].AsRow() != old(orgs[i].AsRow()) <==>
                old(orgs[i].status) == Trialing
                && old(orgs[i].trialEndsAt).Some? && old(orgs[i].trialEndsAt).value <= now
    {
      TrialEndOnColumns(old(orgs[i].AsRow()), now);
      TrialEndChangesExactlyDueRows(old(orgs[i].AsRow()), now);
      if i in due {
        var m :| 0 <= m < |due| && due[m] == i;
        assert transitioned[m] == orgs[i].id;
      }
    }
  }

  lemma RowColumns(org: Organization)
    ensures org.AsRow().status == org.status && org.AsRow().trialEndsAt == org.trialEndsAt
  {
  }

  lemma TrialEndChangesExactlyDueRows(r: Row, now: int)
    ensures TrialEnd(r, now) != r <==> TrialOver(r, now)
  {
  }
}
