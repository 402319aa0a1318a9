/**
 Entitlements (`backend/app/auth/entitlements.py`): the state derived from a billing row, the
 process-local 60-second cache the proxy reads it through, and the control-plane read that
 applies trial expiry first.

 A billing transition with its commit is one step. A transition whose invalidation ran ahead of
 its commit is an eviction followed by a write that does not invalidate, and so is one that another
 process runs; the staleness bound below covers both. A hot read is one step (`HotRead`) or, with
 other steps in between, its reads of the clock, the row and the request count and its store
 (`Load`, `Fetch`, `Count`, `Store`); exact coherence is claimed for the first form only.
 */
module Entitlements {
  import opened Money
  import opened Lifecycle
  import LifecycleRuns

  type Id = nat

  /** Seconds are in microseconds, as every time here. */
  const TTL: int := 60_000_000

  datatype Settings = Settings(trialLength: int, requestLimit: int)

  datatype Entitlement = Entitlement(
    tier: Tier,
    observeOnly: bool,
    reason: Option<string>,
    monthlyRequests: nat,
    requestLimit: int,
    requestsRemaining: Option<int>,
    trialEndsAt: Option<int>,
    trialExpired: bool)

  function DefaultTrialEnd(r: Row, cfg: Settings): Option<int> {
    if r.status == Trialing && r.trialEndsAt.None? then Some(r.createdAt + cfg.trialLength) else r.trialEndsAt
  }

  function Remaining(requests: nat, limit: int): int {
    if limit - requests >= 0 then limit - requests else 0
  }

  /** `_entitlement_state`. */
  function StateOf(requests: nat, now: int, org: Option<Row>, cfg: Settings): Entitlement {
    var limit := cfg.requestLimit;
    if org.None? then
      Entitlement(Free, true, Some("missing_organization"), requests, limit,
                  Some(Remaining(requests, limit)), None, false)
    else
      var r := org.value;
      var end := DefaultTrialEnd(r, cfg);
      var trialExpired := r.status == Trialing && end.Some? && now >= end.value;
      var quotaExceeded := r.status == Trialing && limit > 0 && requests >= limit;
      var (observeOnly, reason) :=
        if trialExpired then (true, Some("trial_expired"))
        else if r.status == PastDue then (true, Some("past_due"))
        else if r.status == Canceled then (true, Some("canceled"))
        else if r.status == Expired then (true, Some("expired"))
        else if quotaExceeded then (true, Some("monthly_request_limit_exceeded"))
        else if r.tier != Pro then (true, Some("free_plan"))
        else (false, None);
      Entitlement(r.tier, observeOnly, reason, requests, limit,
                  if limit > 0 then Some(Remaining(requests, limit)) else None, end, trialExpired)
  }

  /** What the hot path answers when the lookup raises; it is never cached. */
  function LookupFailed(cfg: Settings): Entitlement {
    Entitlement(Free, true, Some("entitlement_lookup_failed"), 0, cfg.requestLimit, None, None, false)
  }

  /** Levers are unlocked exactly for a Pro row that is active, or trialing inside both its window
      and its request quota. A trial without an end ends one trial length after the row's creation. */
  lemma UnlockedExactlyWhen(requests: nat, now: int, r: Row, cfg: Settings)
    ensures
      var end := if r.trialEndsAt.Some? then r.trialEndsAt.value else r.createdAt + cfg.trialLength;
      !StateOf(requests, now, Some(r), cfg).observeOnly <==>
        r.tier == Pro
        && (r.status == Active
            || (r.status == Trialing && now < end && (cfg.requestLimit > 0 ==> requests < cfg.requestLimit)))
  {
  }

  /** What every other field reports: which reason locks the row, the trial's end, and the unused part
      of a positive quota. */
  lemma ReportedFieldsMeaning(requests: nat, now: int, r: Row, cfg: Settings)
    ensures
      var s, limit := StateOf(requests, now, Some(r), cfg), cfg.requestLimit;
      var end := if r.trialEndsAt.Some? then r.trialEndsAt.value else r.createdAt + cfg.trialLength;
      var exceeded := limit > 0 && requests >= limit;
      && (s.reason.Some? <==> s.observeOnly)
      && (s.reason == Some("trial_expired") <==> r.status == Trialing && end <= now)
      && (s.reason == Some("past_due") <==> r.status == PastDue)
      && (s.reason == Some("canceled") <==> r.status == Canceled)
      && (s.reason == Some("expired") <==> r.status == Expired)
      && (s.reason == Some("monthly_request_limit_exceeded") <==> r.status == Trialing && now < end && exceeded)
      && (s.reason == Some("free_plan") <==>
            r.tier == Free && (r.status == Active || (r.status == Trialing && now < end && !exceeded)))
      && (s.trialExpired <==> r.status == Trialing && end <= now)
      && s.trialEndsAt == (if r.status == Trialing then Some(end) else r.trialEndsAt)
      && s.tier == r.tier && s.monthlyRequests == requests && s.requestLimit == limit
      && (s.requestsRemaining.Some? <==> limit > 0)
      && (limit > 0 ==> 0 <= s.requestsRemaining.value
                        && (requests <= limit ==> s.requestsRemaining.value + requests == limit)
                        && (limit <= requests ==> s.requestsRemaining.value == 0))
  {
    ReasonsAreDistinct();
  }

  /** A missing organization is Base, with whatever is left of the limit. */
  lemma MissingOrganizationIsBase(requests: nat, now: int, cfg: Settings)
    ensures
      var s := StateOf(requests, now, None, cfg);
      && s.tier == Free && s.observeOnly && s.reason == Some("missing_organization")
      && s.monthlyRequests == requests && s.requestLimit == cfg.requestLimit
      && s.requestsRemaining == Some(Max(cfg.requestLimit - requests, 0))
      && s.trialEndsAt.None? && !s.trialExpired
  {
  }

  lemma ReasonsAreDistinct()
    ensures
      var quota := "monthly_request_limit_exceeded";
      && "trial_expired" !in ["past_due", "canceled", "expired", quota, "free_plan"]
      && "past_due" !in ["canceled", "expired", quota, "free_plan"]
      && "canceled" !in ["expired", quota, "free_plan"]
      && "expired" !in [quota, "free_plan"]
      && quota != "free_plan"
      && "missing_organization" !in ["trial_expired", "past_due", "canceled", "expired", quota, "free_plan"]
  {
    assert |"trial_expired"| == 13 && |"past_due"| == 8 && |"canceled"| == 8 && |"expired"| == 7;
    assert |"monthly_request_limit_exceeded"| == 30 && |"free_plan"| == 9 && |"missing_organization"| == 20;
    assert "past_due"[0] != "canceled"[0];
  }

  /** The hot path, which never writes, and the control plane, which applies trial expiry first,
      disagree exactly on an elapsed trial whose payment method is ready; there the hot path is
      the more conservative. */
  lemma HotPathAgreesWithControlPlane(requests: nat, now: int, r: Row, cfg: Settings)
    ensures
      var hot := StateOf(requests, now, Some(r), cfg).observeOnly;
      var control := StateOf(requests, now, Some(TrialEnd(r, now)), cfg).observeOnly;
      && (hot != control <==> TrialOver(r, now) && r.paymentReadyAt.Some?)
      && (hot != control ==> hot && !control)
  {
  }

  // ----- the two reads -----

  datatype Entry = Entry(state: Entitlement, storedAt: int)

  /** `TTLCache.get`: an entry is served strictly before its age reaches the TTL. */
  predicate Live(entries: map<Id, Entry>, id: Id, now: int) {
    id in entries && now < entries[id].storedAt + TTL
  }

  /** The outcome of the database read inside the hot path. */
  datatype Lookup = Found(org: Option<Row>, requests: nat) | Raised

  class TierCache {
    var entries: map<Id, Entry>

    constructor ()
      ensures entries == map[]
    {
      entries := map[];
    }

    /** Drop one cached tier, or all of them. */
    method Invalidate(id: Option<Id>)
      modifies this
      ensures entries == if id.None? then map[] else old(entries) - {id.value}
    {
      if id.None? {
        entries := map[];
      } else {
        entries := entries - {id.value};
      }
    }

    /** A live entry is served as it is; otherwise the state is computed and stored, unless the
        lookup raised, which answers Base and stores nothing. The cache is consulted at `checked`,
        the derivation uses the wall clock read next, and the store lands at `stored`. */
    method EntitlementState(id: Id, lookup: Lookup, checked: int, wall: int, stored: int, cfg: Settings)
      returns (state: Entitlement)
      modifies this
      ensures Live(old(entries), id, checked) ==> state == old(entries)[id].state && entries == old(entries)
      ensures !Live(old(entries), id, checked) && lookup.Raised? ==>
                && state == Entitlement(Free, true, Some("entitlement_lookup_failed"), 0, cfg.requestLimit,
                                        None, None, false)
                && entries == old(entries)
      ensures !Live(old(entries), id, checked) && lookup.Found? ==>
                state == StateOf(lookup.requests, wall, lookup.org, cfg)
                && entries == old(entries)[id := Entry(state, stored)]
    {
      if Live(entries, id, checked) {
        return entries[id].state;
      }
      if lookup.Raised? {
        return LookupFailed(cfg);
      }
      state := StateOf(lookup.requests, wall, lookup.org, cfg);
      entries := entries[id := Entry(state, stored)];
    }
  }

  /** The control-plane read: expire first, then derive. */
  method StateForOrg(org: Organization?, requests: nat, now: int, cfg: Settings) returns (state: Entitlement)
    modifies org
    ensures org != null ==> org.AsRow() == TrialEnd(old(org.AsRow()), now)
                            && state == StateOf(requests, now, Some(org.AsRow()), cfg)
    ensures org == null ==> state.observeOnly && state.reason == Some("missing_organization")
  {
    if org == null {
      return StateOf(0, now, None, cfg);
    }
    var _ := org.MaybeExpire(now);
    state := StateOf(requests, now, Some(org.AsRow()), cfg);
  }

  // ----- runs -----

  /** A hot read in flight: it has read the clock, then the row, then the request count. */
  datatype Pending =
    | Started(id: Id, at: int)
    | Fetched(id: Id, at: int, org: Option<Row>)
    | Ready(id: Id, at: int, org: Option<Row>, requests: nat)

  /** One process's cache and requests in flight, beside the shared database. */
  datatype World = World(
    clock: int, rows: map<Id, Row>, requests: map<Id, nat>, cache: map<Id, Entry>, loads: map<nat, Pending>)

  /** The writes whose code calls `invalidate_plan_tier`: billing transitions and the plan switch. */
  datatype Op = Trial | Stripe(event: StripeEvent) | End | SwitchPlan(tier: Tier)

  datatype Step =
    | Advance(dt: nat)
    | Recount(id: Id, requests: nat)
    /** `invalidates` says whether this process's entry is dropped together with the commit. */
    | Write(id: Id, op: Op, invalidates: bool)
    | SweepAll(invalidates: bool)
    /** `set_billing_config`, which never invalidates. */
    | EditBilling(id: Id, status: Option<Status>, end: Option<int>)
    | Create(id: Id)
    | HotRead(id: Id)
    | Load(request: nat, id: Id)
    | Fetch(request: nat)
    | Count(request: nat)
    | Store(request: nat)
    | Evict(id: Id)

  /** Whether a write reaches a transition: other events and live trials change nothing. */
  predicate Takes(r: Row, op: Op, now: int) {
    match op
    case Stripe(e) => e != OtherEvent
    case End => TrialOver(r, now)
    case _ => true
  }

  function Written(r: Row, op: Op, now: int, cfg: Settings): Row {
    match op
    case Trial => StartTrial(r, cfg.trialLength, now)
    case Stripe(e) => Handle(r, e, now)
    case End => TrialEnd(r, now)
    case SwitchPlan(tier) => LifecycleRuns.SwitchPlan(r, tier, now)
  }

  function RowOf(w: World, id: Id): Option<Row> {
    if id in w.rows then Some(w.rows[id]) else None
  }

  function RequestsOf(w: World, id: Id): nat {
    if id in w.requests then w.requests[id] else 0
  }

  /** What an uncached read would answer now. */
  function Fresh(w: World, id: Id, cfg: Settings): Entitlement {
    StateOf(RequestsOf(w, id), w.clock, RowOf(w, id), cfg)
  }

  /** What the hot path serves now. */
  function Served(w: World, id: Id, cfg: Settings): Entitlement {
    if Live(w.cache, id, w.clock) then w.cache[id].state else Fresh(w, id, cfg)
  }

  /** The next read of a request in flight. */
  function ReadOn(w: World, p: Pending, s: Step): Pending {
    match p
    case Started(id, at) => if s.Fetch? then Fetched(id, at, RowOf(w, id)) else p
    case Fetched(id, at, org) => if s.Count? then Ready(id, at, org, RequestsOf(w, id)) else p
    case Ready(_, _, _, _) => p
  }

  /** What a finished request stores. */
  function StateOfLoad(p: Pending, cfg: Settings): Entitlement
    requires p.Ready?
  {
    StateOf(p.requests, p.at, p.org, cfg)
  }

  predicate Stores(w: World, s: Step, id: Id) {
    s.Store? && s.request in w.loads && w.loads[s.request].Ready? && w.loads[s.request].id == id
  }

  function Apply(w: World, s: Step, cfg: Settings): World {
    match s
    case Advance(dt) => w.(clock := w.clock + dt)
    case Recount(id, n) => w.(requests := w.requests[id := n])
    case Write(id, op, invalidates) =>
      if id !in w.rows || !Takes(w.rows[id], op, w.clock) then w
      else w.(rows := w.rows[id := Written(w.rows[id], op, w.clock, cfg)],
              cache := if invalidates then w.cache - {id} else w.cache)
    case SweepAll(invalidates) =>
      var due := set id | id in w.rows && TrialOver(w.rows[id], w.clock);
      w.(rows := map id | id in w.rows :: TrialEnd(w.rows[id], w.clock),
         cache := if invalidates then w.cache - due else w.cache)
    case EditBilling(id, status, end) =>
      if id !in w.rows then w
      else w.(rows := w.rows[id := LifecycleRuns.EditBilling(w.rows[id], status, end)])
    case Create(id) =>
      if id in w.rows then w else w.(rows := w.rows[id := NewRow(w.clock)])
    case HotRead(id) =>
      if Live(w.cache, id, w.clock) then w
      else w.(cache := w.cache[id := Entry(Fresh(w, id, cfg), w.clock)])
    case Load(request, id) =>
      if Live(w.cache, id, w.clock) then w else w.(loads := w.loads[request := Started(id, w.clock)])
    case Fetch(request) =>
      if request !in w.loads then w else w.(loads := w.loads[request := ReadOn(w, w.loads[request], s)])
    case Count(request) =>
      if request !in w.loads then w else w.(loads := w.loads[request := ReadOn(w, w.loads[request], s)])
    case Store(request) =>
      if request !in w.loads || !w.loads[request].Ready? then w
      else
        var p := w.loads[request];
        w.(loads := w.loads - {request}, cache := w.cache[p.id := Entry(StateOfLoad(p, cfg), w.clock)])
    case Evict(id) => w.(cache := w.cache - {id})
  }

  function Exec(w: World, steps: seq<Step>, cfg: Settings): World {
    if steps == [] then w else Apply(Exec(w, steps[..|steps| - 1], cfg), steps[|steps| - 1], cfg)
  }

  lemma ClockStep(w: World, s: Step, cfg: Settings)
    ensures w.clock <= Apply(w, s, cfg).clock
  {
    hide Fresh, Written, ReadOn;
  }

  lemma {:induction false} ClockNeverRunsBack(w: World, steps: seq<Step>, j: nat, cfg: Settings)
    requires j <= |steps|
    ensures Exec(w, steps[..j], cfg).clock <= Exec(w, steps, cfg).clock
    decreases |steps|
  {
    hide Apply;
    if j == |steps| {
      assert steps[..j] == steps;
    } else {
      var n := |steps| - 1;
      ClockNeverRunsBack(w, steps[..n], j, cfg);
      assert steps[..n][..j] == steps[..j];
      ClockStep(Exec(w, steps[..n], cfg), steps[n], cfg);
    }
  }

  /** Every write to the organization drops its entry in this process. */
  predicate AllInvalidate(steps: seq<Step>, id: Id) {
    forall s :: s in steps ==> Invalidating(s, id)
  }

  predicate Invalidating(s: Step, id: Id) {
    match s
    case Write(i, _, invalidates) => i == id ==> invalidates
    case SweepAll(invalidates) => invalidates
    case EditBilling(i, _, _) => i != id
    case Create(i) => i != id
    case _ => true
  }

  /** Every hot read of the organization is one step. */
  predicate Atomic(steps: seq<Step>, id: Id) {
    forall s :: s in steps ==> s.Load? ==> s.id != id
  }

  /** The organization is neither cached nor being read. */
  predicate Untracked(w: World, id: Id) {
    id !in w.cache && forall r :: r in w.loads ==> w.loads[r].id != id
  }

  /** The longest time from a read's clock to its store, over the run's stores of one organization. */
  function Lag(w: World, steps: seq<Step>, id: Id, cfg: Settings): nat {
    if steps == [] then 0
    else
      var n := |steps| - 1;
      var earlier, before := Lag(w, steps[..n], id, cfg), Exec(w, steps[..n], cfg);
      if Stores(before, steps[n], id) then Max(earlier, before.clock - before.loads[steps[n].request].at)
      else earlier
  }

  /** A write by a billing transition is the lifecycle's step at the world's clock, whether or not it
      reaches a transition; it leaves every other row alone. */
  lemma WritesAreLifecycleSteps(w: World, id: Id, op: Op, invalidates: bool, cfg: Settings)
    requires id in w.rows && !op.SwitchPlan?
    ensures
      var step := match op
        case Trial => LifecycleRuns.Trial(w.clock)
        case Stripe(e) => LifecycleRuns.Stripe(e, w.clock)
        case _ => LifecycleRuns.End(w.clock);
      Apply(w, Write(id, op, invalidates), cfg).rows
      == w.rows[id := LifecycleRuns.Next(w.rows[id], step, cfg.trialLength)]
  {
    if !Takes(w.rows[id], op, w.clock) {
      assert w.rows[id := w.rows[id]] == w.rows;
    }
  }

  /** The other writes: a switch, an edit and a sweep act as the lifecycle says, a creation adds a new
      row, and what reaches no transition touches nothing, the cache included. */
  lemma OtherWritesOnRows(w: World, id: Id, op: Op, status: Option<Status>, end: Option<int>, drop: bool, cfg: Settings)
    requires id in w.rows
    ensures op.SwitchPlan? ==>
              Apply(w, Write(id, op, drop), cfg).rows
              == w.rows[id := LifecycleRuns.SwitchPlan(w.rows[id], op.tier, w.clock)]
    ensures Apply(w, EditBilling(id, status, end), cfg)
            == w.(rows := w.rows[id := LifecycleRuns.EditBilling(w.rows[id], status, end)])
    ensures Apply(w, SweepAll(drop), cfg).rows == LifecycleRuns.Perform(w.rows, LifecycleRuns.Sweep(w.clock))
    ensures op == Stripe(OtherEvent) || (op == End && TrialEnd(w.rows[id], w.clock) == w.rows[id]) ==>
              Apply(w, Write(id, op, drop), cfg) == w
    ensures Apply(w, Create(id), cfg) == w
  {
    hide StateOf;
  }

  /** A created row is new as of now, and an uncached read reports the count last recorded. */
  lemma CreateAndRecountAreSeen(w: World, id: Id, requests: nat, cfg: Settings)
    ensures id !in w.rows ==> Apply(w, Create(id), cfg).rows == w.rows[id := NewRow(w.clock)]
    ensures Fresh(Apply(w, Recount(id, requests), cfg), id, cfg).monthlyRequests == requests
  {
  }

  /** A cached state is served for exactly 60 seconds: as it was read until then, with no other read
      begun, and read anew from then on. */
  lemma EntryServedForSixtySeconds(w: World, id: Id, dt: nat, request: nat, cfg: Settings)
    requires id !in w.cache
    ensures
      var now := Apply(Apply(w, HotRead(id), cfg), Advance(dt), cfg);
      && Served(now, id, cfg) == (if dt < 60_000_000 then Fresh(w, id, cfg) else Fresh(now, id, cfg))
      && (Apply(now, Load(request, id), cfg) != now ==> dt >= 60_000_000)
      && (dt < 60_000_000 ==> Apply(now, HotRead(id), cfg) == now)
  {
    hide StateOf;
  }

  /** The lag is the duration of some store of the run. */
  lemma {:induction false} LagIsAttained(w: World, steps: seq<Step>, id: Id, cfg: Settings)
    ensures Lag(w, steps, id, cfg) > 0 ==>
              exists j :: 0 <= j < |steps| && StoreTakes(w, steps, j, id, Lag(w, steps, id, cfg), cfg)
  {
    hide Apply, StoreTakes;
    if steps != [] && Lag(w, steps, id, cfg) > 0 {
      var n := |steps| - 1;
      LagIsAttained(w, steps[..n], id, cfg);
      if Lag(w, steps, id, cfg) == Lag(w, steps[..n], id, cfg) {
        var j :| 0 <= j < n && StoreTakes(w, steps[..n], j, id, Lag(w, steps, id, cfg), cfg);
        StoreTakesPrefix(w, steps, j, id, Lag(w, steps, id, cfg), cfg);
      } else {
        LastStoreTakes(w, steps, id, cfg);
      }
    }
  }

  /** Step `j` stores a read of the organization whose clock was read so long ago. */
  ghost predicate StoreTakes(w: World, steps: seq<Step>, j: int, id: Id, lag: int, cfg: Settings)
    requires 0 <= j < |steps|
  {
    var before := Exec(w, steps[..j], cfg);
    Stores(before, steps[j], id) && before.clock - before.loads[steps[j].request].at == lag
  }

  lemma StoreTakesPrefix(w: World, steps: seq<Step>, j: int, id: Id, lag: int, cfg: Settings)
    requires 0 <= j < |steps| - 1 && StoreTakes(w, steps[..|steps| - 1], j, id, lag, cfg)
    ensures StoreTakes(w, steps, j, id, lag, cfg)
  {
    hide Exec;
    assert steps[..|steps| - 1][..j] == steps[..j];
  }

  lemma LastStoreTakes(w: World, steps: seq<Step>, id: Id, cfg: Settings)
    requires steps != [] && Lag(w, steps, id, cfg) != Lag(w, steps[..|steps| - 1], id, cfg)
    ensures StoreTakes(w, steps, |steps| - 1, id, Lag(w, steps, id, cfg), cfg)
  {
    hide Exec;
  }

  // ----- where a cached state comes from -----

  /** When a state was read: how far the run was at its reads of the clock, the row and the count. */
  datatype Moments = Moments(clock: nat, row: nat, count: nat)

  predicate Ordered(t: Moments, length: nat) {
    t.clock <= t.row <= t.count <= length
  }

  /** The derivation from the clock, the row and the request count at three moments of a run. */
  function ReadState(w: World, steps: seq<Step>, id: Id, t: Moments, cfg: Settings): Entitlement
    requires Ordered(t, |steps|)
  {
    StateOf(RequestsOf(Exec(w, steps[..t.count], cfg), id), Exec(w, steps[..t.clock], cfg).clock,
            RowOf(Exec(w, steps[..t.row], cfg), id), cfg)
  }

  /** What a request in flight holds is what the world was at its moments. */
  ghost predicate InFlight(w: World, steps: seq<Step>, p: Pending, t: Moments, cfg: Settings) {
    && Ordered(t, |steps|)
    && p.at == Exec(w, steps[..t.clock], cfg).clock
    && (!p.Started? ==> p.org == RowOf(Exec(w, steps[..t.row], cfg), p.id))
    && (p.Ready? ==> p.requests == RequestsOf(Exec(w, steps[..t.count], cfg), p.id))
  }

  /** A step keeps a request in flight, takes it one read further, or starts it. */
  lemma LoadOrigin(w: World, s: Step, request: nat, cfg: Settings)
    requires request in Apply(w, s, cfg).loads
    ensures
      var p := Apply(w, s, cfg).loads[request];
      || (request in w.loads && w.loads[request] == p)
      || (request in w.loads && w.loads[request].Started? && p == ReadOn(w, w.loads[request], s) && p.Fetched?)
      || (request in w.loads && w.loads[request].Fetched? && p == ReadOn(w, w.loads[request], s) && p.Ready?)
      || (s == Load(request, p.id) && p == Started(p.id, w.clock))
  {
    hide Fresh, Written;
  }

  /** A step keeps a cached entry, or is the read or the store that wrote it. */
  lemma EntryOrigin(w: World, s: Step, id: Id, cfg: Settings)
    requires id in Apply(w, s, cfg).cache
    ensures
      var e := Apply(w, s, cfg).cache[id];
      || (id in w.cache && w.cache[id] == e)
      || (s == HotRead(id) && e == Entry(Fresh(w, id, cfg), w.clock) && Apply(w, s, cfg).rows == w.rows)
      || (Stores(w, s, id) && e == Entry(StateOfLoad(w.loads[s.request], cfg), w.clock))
  {
    hide Fresh, Written, StateOfLoad, ReadOn;
  }

  lemma {:induction false} EveryLoadWasRead(w: World, steps: seq<Step>, request: nat, id: Id, cfg: Settings)
    returns (t: Moments)
    requires Untracked(w, id)
    requires request in Exec(w, steps, cfg).loads && Exec(w, steps, cfg).loads[request].id == id
    ensures !Atomic(steps, id) && InFlight(w, steps, Exec(w, steps, cfg).loads[request], t, cfg)
  {
    hide Apply;
    assert steps != [];
    var n := |steps| - 1;
    var before, s, p := Exec(w, steps[..n], cfg), steps[n], Exec(w, steps, cfg).loads[request];
    LoadOrigin(before, s, request, cfg);
    if s == Load(request, id) && p == Started(id, before.clock) {
      t := Moments(n, n, n);
      assert s in steps;
    } else {
      var q := before.loads[request];
      t := EveryLoadWasRead(w, steps[..n], request, id, cfg);
      assert forall j :: 0 <= j <= n ==> steps[..n][..j] == steps[..j];
      assert forall x :: x in steps[..n] ==> x in steps;
      if p != q {
        t := if q.Started? then Moments(t.clock, n, n) else t.(count := n);
      }
    }
  }

  /** Reads that are one step each add nothing to the TTL. */
  lemma {:induction false} AtomicReadsNeverLag(w: World, steps: seq<Step>, id: Id, cfg: Settings)
    requires Untracked(w, id) && Atomic(steps, id)
    ensures Lag(w, steps, id, cfg) == 0
  {
    hide Apply, InFlight;
    if steps != [] {
      var n := |steps| - 1;
      assert forall x :: x in steps[..n] ==> x in steps;
      AtomicReadsNeverLag(w, steps[..n], id, cfg);
      if Stores(Exec(w, steps[..n], cfg), steps[n], id) {
        var _ := EveryLoadWasRead(w, steps[..n], steps[n].request, id, cfg);
      }
    }
  }

  /** A cached entry is the derivation from what was read at the given moments, whose clock is at
      most the run's lag older than the store. With atomic reads the three moments are one; if also
      every write invalidates, the row is still the one read. */
  ghost predicate Explains(w: World, steps: seq<Step>, id: Id, t: Moments, cfg: Settings) {
    && Ordered(t, |steps|)
    && var now := Exec(w, steps, cfg);
    && id in now.cache
    && now.cache[id].state == ReadState(w, steps, id, t, cfg)
    && now.cache[id].storedAt - Lag(w, steps, id, cfg) <= Exec(w, steps[..t.clock], cfg).clock
    && (Atomic(steps, id) ==>
          && t.clock == t.row == t.count
          && (AllInvalidate(steps, id) ==> RowOf(Exec(w, steps[..t.row], cfg), id) == RowOf(now, id)))
  }

  lemma {:induction false} EveryEntryWasComputed(w: World, steps: seq<Step>, id: Id, cfg: Settings)
    returns (t: Moments)
    requires Untracked(w, id)
    requires id in Exec(w, steps, cfg).cache
    ensures Explains(w, steps, id, t, cfg)
  {
    hide Apply, StateOf, Invalidating;
    assert steps != [];
    var n := |steps| - 1;
    var before, s, after := Exec(w, steps[..n], cfg), steps[n], Exec(w, steps, cfg);
    EntryOrigin(before, s, id, cfg);
    assert s in steps && forall x :: x in steps[..n] ==> x in steps;
    assert forall j :: 0 <= j <= n ==> steps[..n][..j] == steps[..j];
    if id in before.cache && after.cache[id] == before.cache[id] {
      t := EveryEntryWasComputed(w, steps[..n], id, cfg);
      if AllInvalidate(steps, id) {
        KeptEntryKeepsRow(before, s, id, cfg);
      }
    } else if Stores(before, s, id) {
      t := EveryLoadWasRead(w, steps[..n], s.request, id, cfg);
    } else {
      t := Moments(n, n, n);
    }
  }

  /** A step that keeps an organization's entry, and invalidates if it writes, keeps its row. */
  lemma KeptEntryKeepsRow(w: World, s: Step, id: Id, cfg: Settings)
    requires id in w.cache && id in Apply(w, s, cfg).cache && Invalidating(s, id)
    ensures RowOf(Apply(w, s, cfg), id) == RowOf(w, id)
  {
    hide Fresh, Written, StateOfLoad, ReadOn;
  }

  // ----- how old a served state can be -----

  /** Bounded staleness, for every writer in every process and every interleaving of reads: whatever
      the hot path serves derives from a clock, and a row and a count read after it, of less than 60
      seconds ago plus the longest time a read of the organization took to store. */
  lemma ServedStateIsFresherThanTtl(w: World, steps: seq<Step>, id: Id, cfg: Settings)
    returns (t: Moments)
    requires Untracked(w, id)
    ensures Ordered(t, |steps|)
    ensures
      var now, read := Exec(w, steps, cfg), Exec(w, steps[..t.clock], cfg);
      && now.clock - TTL - Lag(w, steps, id, cfg) < read.clock <= now.clock
      && Served(now, id, cfg) == ReadState(w, steps, id, t, cfg)
      && (Atomic(steps, id) ==>
            && t.clock == t.row == t.count
            && (AllInvalidate(steps, id) ==> RowOf(Exec(w, steps[..t.row], cfg), id) == RowOf(now, id)))
  {
    hide Apply, StateOf, Lag;
    var now := Exec(w, steps, cfg);
    if Live(now.cache, id, now.clock) {
      t := EveryEntryWasComputed(w, steps, id, cfg);
    } else {
      t := Moments(|steps|, |steps|, |steps|);
      assert steps[..|steps|] == steps;
    }
    ClockNeverRunsBack(w, steps, t.clock, cfg);
  }

  /** Coherence: when every read of an organization is atomic and every write to it invalidates, the
      served state is the derivation of its current row, at a clock and request count less than 60
      seconds old. */
  lemma InvalidatingWritesKeepCacheCoherent(w: World, steps: seq<Step>, id: Id, cfg: Settings)
    returns (was: World)
    requires Untracked(w, id) && AllInvalidate(steps, id) && Atomic(steps, id)
    ensures
      var now := Exec(w, steps, cfg);
      && now.clock - TTL < was.clock <= now.clock
      && (exists j :: 0 <= j <= |steps| && was == Exec(w, steps[..j], cfg))
      && Served(now, id, cfg) == StateOf(RequestsOf(was, id), was.clock, RowOf(now, id), cfg)
  {
    hide Apply, StateOf, Lag, Served;
    AtomicReadsNeverLag(w, steps, id, cfg);
    var t := ServedStateIsFresherThanTtl(w, steps, id, cfg);
    was := Exec(w, steps[..t.clock], cfg);
  }

  // ----- exactly which writes leave a stale entry -----

  /** Whether a trialing row locks at the given time and count. */
  predicate TrialLocked(r: Row, requests: nat, now: int, cfg: Settings) {
    (DefaultTrialEnd(r, cfg).Some? && now >= DefaultTrialEnd(r, cfg).value)
    || (cfg.requestLimit > 0 && requests >= cfg.requestLimit)
  }

  /** Two rows stand alike: same tier, same reported trial end, and same status, where an unlocked
      trial counts as active. */
  predicate StandAlike(q: Row, r: Row, requests: nat, now: int, cfg: Settings) {
    && q.tier == r.tier
    && DefaultTrialEnd(q, cfg) == DefaultTrialEnd(r, cfg)
    && (|| q.status == r.status
        || (q.status == Trialing && r.status == Active && !TrialLocked(q, requests, now, cfg))
        || (q.status == Active && r.status == Trialing && !TrialLocked(r, requests, now, cfg)))
  }

  /** Likewise for rows that may be missing, which stand like nothing else. */
  predicate OrgsStandAlike(q: Option<Row>, r: Option<Row>, requests: nat, now: int, cfg: Settings) {
    if q.None? || r.None? then q == r else StandAlike(q.value, r.value, requests, now, cfg)
  }

  lemma SameStateIffStandAlike(q: Option<Row>, r: Option<Row>, requests: nat, now: int, cfg: Settings)
    ensures StateOf(requests, now, q, cfg) == StateOf(requests, now, r, cfg)
            <==> OrgsStandAlike(q, r, requests, now, cfg)
  {
    ReasonsAreDistinct();
  }

  /** For every run, every writer and every interleaving: what the hot path serves derives from the
      current row, at the clock and the count it read, if and only if the row it read and the current
      row stand alike. */
  lemma ServedStateIsCurrentIff(w: World, steps: seq<Step>, id: Id, cfg: Settings) returns (t: Moments)
    requires Untracked(w, id)
    ensures Ordered(t, |steps|)
    ensures
      var now, read := Exec(w, steps, cfg), Exec(w, steps[..t.clock], cfg);
      var requests := RequestsOf(Exec(w, steps[..t.count], cfg), id);
      && now.clock - TTL - Lag(w, steps, id, cfg) < read.clock <= now.clock
      && Served(now, id, cfg) == ReadState(w, steps, id, t, cfg)
      && (Served(now, id, cfg) == StateOf(requests, read.clock, RowOf(now, id), cfg)
          <==> OrgsStandAlike(RowOf(Exec(w, steps[..t.row], cfg), id), RowOf(now, id), requests, read.clock, cfg))
  {
    hide Exec, Served, StateOf, Lag, OrgsStandAlike;
    t := ServedStateIsFresherThanTtl(w, steps, id, cfg);
    var now, read := Exec(w, steps, cfg), Exec(w, steps[..t.clock], cfg);
    var requests := RequestsOf(Exec(w, steps[..t.count], cfg), id);
    SameStateIffStandAlike(RowOf(Exec(w, steps[..t.row], cfg), id), RowOf(now, id), requests, read.clock, cfg);
  }

  /** Whether a write drops the organization's entry. */
  predicate Drops(w: World, s: Step, id: Id) {
    id in w.rows && (|| (s.Write? && s.id == id && s.invalidates && Takes(w.rows[id], s.op, w.clock))
                     || (s.SweepAll? && s.invalidates && TrialOver(w.rows[id], w.clock)))
  }

  predicate IsWrite(s: Step) {
    s.Write? || s.SweepAll? || s.EditBilling?
  }

  /** After a write a live entry still derives from the current row if and only if the write dropped
      it or left the row standing as it did. */
  lemma EntrySurvivesWriteIff(w: World, s: Step, id: Id, requests: nat, at: int, cfg: Settings)
    requires IsWrite(s) && id in w.rows && Live(w.cache, id, w.clock)
    requires w.cache[id].state == StateOf(requests, at, Some(w.rows[id]), cfg)
    ensures
      var after := Apply(w, s, cfg);
      && id in after.rows
      && ((Live(after.cache, id, after.clock) ==>
             after.cache[id].state == StateOf(requests, at, Some(after.rows[id]), cfg))
          <==> Drops(w, s, id) || StandAlike(w.rows[id], after.rows[id], requests, at, cfg))
  {
    hide StateOf, StandAlike;
    var after := Apply(w, s, cfg);
    SameStateIffStandAlike(Some(w.rows[id]), Some(after.rows[id]), requests, at, cfg);
  }

  /** A row on Pro, with nothing cached or in flight. */
  function ProWorld(id: Id): World {
    World(0, map[id := NewRow(0).(tier := Pro)], map[], map[], map[])
  }

  lemma ExecSnoc(w: World, steps: seq<Step>, s: Step, cfg: Settings)
    ensures Exec(w, steps + [s], cfg) == Apply(Exec(w, steps, cfg), s, cfg)
  {
    assert (steps + [s])[..|steps|] == steps;
  }

  /** Invalidation is needed, first because the code does not always do it: an operator's edit of the
      status, in this process, leaves the cache serving Pro for a row that is already canceled. */
  lemma OperatorEditLeavesStalePro(id: Id, cfg: Settings)
    ensures
      var now := Exec(ProWorld(id), [HotRead(id), EditBilling(id, Some(Canceled), None)], cfg);
      !Served(now, id, cfg).observeOnly && Fresh(now, id, cfg).observeOnly
  {
    var w, read := ProWorld(id), HotRead(id);
    ExecSnoc(w, [], read, cfg);
    ExecSnoc(w, [read], EditBilling(id, Some(Canceled), None), cfg);
  }

  /** And second because the cache is one process's: a cancellation handled in another leaves it too. */
  lemma RemoteWriteLeavesStalePro(id: Id, cfg: Settings)
    ensures
      var now := Exec(ProWorld(id), [HotRead(id), Write(id, Stripe(SubscriptionDeleted), false)], cfg);
      !Served(now, id, cfg).observeOnly && Fresh(now, id, cfg).observeOnly
  {
    hide StateOf, Handle, TrialEnd, TrialOver, ReadOn;
    var w, read, cancel := ProWorld(id), HotRead(id), Write(id, Stripe(SubscriptionDeleted), false);
    var cached := w.(cache := map[id := Entry(Fresh(w, id, cfg), 0)]);
    ExecSnoc(w, [], read, cfg);
    assert Apply(w, read, cfg) == cached;
    ExecSnoc(w, [read], cancel, cfg);
    var row := Handle(w.rows[id], SubscriptionDeleted, 0);
    assert Apply(cached, cancel, cfg) == cached.(rows := w.rows[id := row]);
    ProThenCanceled(0, 0, 0, cfg);
  }

  /** Atomic reads are needed, and a bound on the lag: a store that lands any time after a
      cancellation puts back the state that the cancellation invalidated. */
  lemma LateStoreUndoesInvalidation(id: Id, delay: nat, cfg: Settings)
    ensures
      var read := [Load(0, id), Fetch(0), Count(0)];
      var cancel := Write(id, Stripe(SubscriptionDeleted), true);
      var now := Exec(ProWorld(id), read + [cancel] + [Advance(delay)] + [Store(0)], cfg);
      !Served(now, id, cfg).observeOnly && Fresh(now, id, cfg).observeOnly
  {
    hide StateOf, Handle;
    var w, read := ProWorld(id), [Load(0, id), Fetch(0), Count(0)];
    var cancel := Write(id, Stripe(SubscriptionDeleted), true);
    ReadCompletes(w, id, cfg);
    ExecSnoc(w, read, cancel, cfg);
    ExecSnoc(w, read + [cancel], Advance(delay), cfg);
    ExecSnoc(w, read + [cancel] + [Advance(delay)], Store(0), cfg);
    ProThenCanceled(0, 0, delay, cfg);
  }

  lemma ProThenCanceled(requests: nat, read: int, now: int, cfg: Settings)
    ensures
      var r := NewRow(0).(tier := Pro);
      && !StateOf(requests, read, Some(r), cfg).observeOnly
      && StateOf(requests, now, Some(Handle(r, SubscriptionDeleted, read)), cfg).observeOnly
  {
  }

  lemma ReadCompletes(w: World, id: Id, cfg: Settings)
    requires id !in w.cache
    ensures
      var read := [Load(0, id), Fetch(0), Count(0)];
      Exec(w, read, cfg) == w.(loads := w.loads[0 := Ready(id, w.clock, RowOf(w, id), RequestsOf(w, id))])
  {
    hide StateOf, Written, Takes, TrialEnd, TrialOver;
    var load := Load(0, id);
    ExecSnoc(w, [], load, cfg);
    ExecSnoc(w, [load], Fetch(0), cfg);
    ExecSnoc(w, [load] + [Fetch(0)], Count(0), cfg);
    var started := w.(loads := w.loads[0 := Started(id, w.clock)]);
    assert Apply(w, load, cfg) == started;
    var fetched := w.(loads := w.loads[0 := Fetched(id, w.clock, RowOf(w, id))]);
    assert Apply(started, Fetch(0), cfg) == fetched;
    assert [load] + [Fetch(0)] + [Count(0)] == [load, Fetch(0), Count(0)];
  }

  // ----- an unpaid trial loses Pro within the TTL -----

  /** Steps that leave one organization's billing to trial expiry. */
  predicate OnlyExpires(s: Step, id: Id) {
    (s.Write? && s.id == id ==> s.op == End) && (s.EditBilling? ==> s.id != id)
  }

  /** An unpaid trial that ends at `end`, before or after it has been expired. */
  predicate UnpaidTrial(r: Option<Row>, end: int) {
    && r.Some?
    && r.value.paymentReadyAt.None?
    && (r.value.status == Expired || (r.value.status == Trialing && r.value.trialEndsAt == Some(end)))
  }

  lemma {:induction false} UnpaidTrialPersists(w: World, steps: seq<Step>, id: Id, end: int, cfg: Settings)
    requires UnpaidTrial(RowOf(w, id), end)
    requires forall s :: s in steps ==> OnlyExpires(s, id)
    ensures UnpaidTrial(RowOf(Exec(w, steps, cfg), id), end)
  {
    hide Apply, OnlyExpires;
    if steps != [] {
      var n := |steps| - 1;
      assert steps[n] in steps;
      UnpaidTrialPersists(w, steps[..n], id, end, cfg);
      UnpaidTrialStep(Exec(w, steps[..n], cfg), steps[n], id, end, cfg);
    }
  }

  lemma UnpaidTrialStep(w: World, s: Step, id: Id, end: int, cfg: Settings)
    requires UnpaidTrial(RowOf(w, id), end) && OnlyExpires(s, id)
    ensures UnpaidTrial(RowOf(Apply(w, s, cfg), id), end)
  {
    hide Fresh;
  }

  lemma {:induction false} ExecSplits(w: World, a: seq<Step>, b: seq<Step>, cfg: Settings)
    ensures Exec(w, a + b, cfg) == Exec(Exec(w, a, cfg), b, cfg)
    decreases |b|
  {
    hide Apply;
    if b == [] {
      assert a + b == a;
    } else {
      var n := |b| - 1;
      assert (a + b)[..|a + b| - 1] == a + b[..n];
      ExecSplits(w, a, b[..n], cfg);
    }
  }

  /** No organization is served as Pro 60 seconds or more after its unpaid trial ended, whether or
      not any sweep or read has expired it, in this process or another; reads that are not atomic add
      at most the run's lag. */
  lemma UnpaidTrialLosesProWithinTtl(
    w: World, before: seq<Step>, after: seq<Step>, id: Id, end: int, cfg: Settings)
    requires Untracked(w, id)
    requires
      var start := Exec(w, before, cfg);
      UnpaidTrial(RowOf(start, id), end) && start.clock <= end
    requires forall s :: s in after ==> OnlyExpires(s, id)
    ensures
      var steps := before + after;
      var now := Exec(w, steps, cfg);
      && (end + TTL + Lag(w, steps, id, cfg) <= now.clock ==> Served(now, id, cfg).observeOnly)
      && (Atomic(steps, id) && end + TTL <= now.clock ==> Served(now, id, cfg).observeOnly)
  {
    hide Exec, Served, StateOf, Lag, UnpaidTrial;
    var steps := before + after;
    var now := Exec(w, steps, cfg);
    if Atomic(steps, id) {
      AtomicReadsNeverLag(w, steps, id, cfg);
    }
    if end + TTL + Lag(w, steps, id, cfg) <= now.clock {
      var t := ServedStateIsFresherThanTtl(w, steps, id, cfg);
      var at := Exec(w, steps[..t.clock], cfg).clock;
      if t.clock <= |before| {
        assert steps[..t.clock] == before[..t.clock];
        ClockNeverRunsBack(w, before, t.clock, cfg);
        assert false;
      }
      var k := t.row - |before|;
      assert steps[..t.row] == before + after[..k];
      ExecSplits(w, before, after[..k], cfg);
      UnpaidTrialPersists(Exec(w, before, cfg), after[..k], id, end, cfg);
      var org, requests := RowOf(Exec(w, steps[..t.row], cfg), id), RequestsOf(Exec(w, steps[..t.count], cfg), id);
      LapsedTrialIsObserveOnly(requests, at, org, end, cfg);
    }
  }

  lemma LapsedTrialIsObserveOnly(requests: nat, now: int, org: Option<Row>, end: int, cfg: Settings)
    requires UnpaidTrial(org, end) && end <= now
    ensures StateOf(requests, now, org, cfg).observeOnly
  {
  }
}
