/**
 Gain-share fees: `backend/app/billing.py`, and the dashboard's own fee in
 `compute_savings_summary` (`backend/app/savings.py`).
 */
module Billing {
  import opened Money

  /** `MAX_GAIN_SHARE_PERCENT`. */
  const MAX_SHARE: real := 0.25

  datatype Billable = Billable(verified: int, percent: real, floor: int, fee: int, net: int)

  function EffectivePercent(percent: real): real {
    var capped := if percent <= MAX_SHARE then percent else MAX_SHARE;
    if capped >= 0.0 then capped else 0.0
  }

  /** `gross * rate`, unrounded. */
  function Times(gross: int, rate: real): real {
    gross as real * rate
  }

  /** `round(gross * rate)` to the cent. */
  function Share(gross: int, rate: real): int {
    RoundHalfUp(Times(gross, rate))
  }

  function ComputeFee(verified: real, percent: real, floor: real): Billable {
    var gross := Max(RoundHalfUp(verified), 0);
    var rate := EffectivePercent(percent);
    var metered := Share(gross, rate);
    var lifted := if floor > 0.0 then Max(metered, RoundHalfUp(floor)) else metered;
    var fee := Min(lifted, Share(gross, MAX_SHARE));
    Billable(gross, rate, RoundHalfUp(floor), fee, gross - fee)
  }

  // ----- shape of the fee -----

  /** A rate in [0, 1] makes the share grow with the gross, never faster than the gross. */
  lemma ShareIsGentle(g: int, h: int, rate: real)
    requires 0 <= g <= h && 0.0 <= rate <= 1.0
    ensures 0 <= Share(g, rate) <= Share(h, rate) <= Share(g, rate) + (h - g)
  {
    hide RoundHalfUp, Times;
    var x, y := Times(g, rate), Times(h, rate);
    TimesAdd(g, h - g, rate);
    TimesScale(g, rate);
    TimesScale(h - g, rate);
    HalfUpMonotone(0.0, x);
    HalfUpWhole(0);
    HalfUpMonotone(x, y);
    HalfUpMonotone(y, x + (h - g) as real);
    HalfUpShift(x, h - g);
  }

  lemma TimesAdd(g: int, h: int, rate: real)
    ensures Times(g + h, rate) == Times(g, rate) + Times(h, rate)
  {
  }

  lemma TimesScale(g: int, rate: real)
    requires 0 <= g && 0.0 <= rate <= 1.0
    ensures 0.0 <= Times(g, rate) <= g as real
  {
    ScaledOrder(0.0, rate, g as real);
    ScaledOrder(rate, 1.0, g as real);
  }

  lemma ShareGrowsWithRate(g: int, r: real, s: real)
    requires 0 <= g && r <= s
    ensures Share(g, r) <= Share(g, s)
  {
    hide RoundHalfUp;
    ScaledOrder(r, s, g as real);
    HalfUpMonotone(Times(g, r), Times(g, s));
  }

  lemma WholeShareIsGross(g: int)
    ensures Share(g, 1.0) == g
  {
    hide RoundHalfUp;
    assert g as real * 1.0 == g as real;
    HalfUpWhole(g);
  }

  /** The cap is a quarter of the gross, to the cent. */
  lemma CapIsQuarter(g: int)
    requires g >= 0
    ensures g - 2 < 4 * Share(g, MAX_SHARE) <= g + 2
  {
    var x := Times(g, MAX_SHARE);
    assert 4.0 * x == g as real;
  }

  /** The public promise, for every savings figure, rate and floor: never negative, never above
      25% of the verified savings, and the customer's net is what remains. */
  lemma FeeWithinCap(verified: real, percent: real, floor: real)
    ensures
      var b := ComputeFee(verified, percent, floor);
      && 0 <= b.fee <= Share(b.verified, MAX_SHARE) && 4 * b.fee <= b.verified + 2
      && b.fee + b.net == b.verified && b.net >= 0 && b.verified >= 0
      && 0.0 <= b.percent <= 0.25
  {
    hide Share, RoundHalfUp;
    var b := ComputeFee(verified, percent, floor);
    CapIsQuarter(b.verified);
    ShareIsGentle(0, b.verified, b.percent);
    ShareIsGentle(0, b.verified, MAX_SHARE);
    ShareIsGentle(b.verified, b.verified, MAX_SHARE);
    ShareGrowsWithRate(b.verified, MAX_SHARE, 1.0);
    WholeShareIsGross(b.verified);
    FloorNonNegative(floor);
  }

  lemma FloorNonNegative(floor: real)
    ensures floor > 0.0 ==> RoundHalfUp(floor) >= 0
  {
  }

  /** What the fee is: at least the metered share of the rate clamped to [0, 25%], lifted to the
      floor, up to the cap, and always one of the three. */
  lemma FeeIsLiftedToFloor(verified: real, percent: real, floor: real)
    ensures
      var b := ComputeFee(verified, percent, floor);
      var metered, cap := Share(b.verified, b.percent), Share(b.verified, MAX_SHARE);
      && b.percent == (if percent < 0.0 then 0.0 else if percent > 0.25 then 0.25 else percent)
      && metered <= b.fee
      && (floor > 0.0 ==> Min(RoundHalfUp(floor), cap) <= b.fee)
      && (b.fee == metered || (floor > 0.0 && b.fee == Min(RoundHalfUp(floor), cap)))
      && b.floor == RoundHalfUp(floor)
      && (verified >= 0.0 ==> -0.5 < b.verified as real - verified <= 0.5)
      && (verified < 0.0 ==> b.verified == b.fee == 0)
  {
    hide Share;
    var b := ComputeFee(verified, percent, floor);
    ShareGrowsWithRate(b.verified, b.percent, MAX_SHARE);
    FeeWithinCap(verified, percent, floor);
  }

  /** More verified savings never lower the fee and never leave the customer with less, across
      every floor, cap and rounding kink. */
  lemma FeeAndNetMonotone(v: real, w: real, percent: real, floor: real)
    requires v <= w
    ensures
      var a, b := ComputeFee(v, percent, floor), ComputeFee(w, percent, floor);
      a.fee <= b.fee && a.net <= b.net
  {
    hide Share, RoundHalfUp;
    var a, b := ComputeFee(v, percent, floor), ComputeFee(w, percent, floor);
    HalfUpMonotone(v, w);
    ShareIsGentle(a.verified, b.verified, a.percent);
    ShareIsGentle(a.verified, b.verified, MAX_SHARE);
  }

  /** A higher rate or a higher floor never lowers the fee; neither lifts it past the cap. */
  lemma FeeMonotoneInTerms(v: real, p: real, q: real, f: real, g: real)
    requires p <= q && f <= g
    ensures ComputeFee(v, p, f).fee <= ComputeFee(v, q, g).fee
  {
    hide Share, RoundHalfUp;
    var gross := Max(RoundHalfUp(v), 0);
    ShareGrowsWithRate(gross, EffectivePercent(p), EffectivePercent(q));
    HalfUpMonotone(f, g);
    FloorNonNegative(f);
    FloorNonNegative(g);
  }

  // ----- dashboard against invoice -----

  /** `org_fee_percent`: the rate as configured, under the same cap. */
  function DashboardPercent(percent: real): real {
    if percent <= MAX_SHARE then percent else MAX_SHARE
  }

  /** The fee `compute_savings_summary` shows for one project's verified savings. */
  function DashboardFee(verified: int, percent: real): int {
    Share(Max(verified, 0), DashboardPercent(percent))
  }

  /** The fees an organization's dashboards show, summed over its projects. */
  function DashboardFees(verified: seq<int>, percent: real): int {
    if verified == [] then 0 else DashboardFee(verified[0], percent) + DashboardFees(verified[1..], percent)
  }

  /** `org_verified_savings`: the sum of the projects' rounded figures, rounded again. */
  method OrgVerifiedSavings(projects: seq<int>) returns (total: int)
    ensures total == SumInt(projects)
  {
    var sum := 0.0;
    for i := 0 to |projects|
      invariant sum == SumInt(projects[..i]) as real
    {
      sum := sum + projects[i] as real;
      assert projects[..i + 1] == projects[..i] + [projects[i]];
      SumIntAppend(projects[..i], [projects[i]]);
    }
    assert projects[..|projects|] == projects;
    HalfUpWhole(SumInt(projects));
    total := RoundHalfUp(sum);
  }

  /** With no floor and a rate the database allows, the invoice fee is the plain rounded share. */
  lemma InvoiceFeeIsShare(verified: int, percent: real)
    requires 0.0 <= percent <= MAX_SHARE
    ensures ComputeFee(verified as real, percent, 0.0).fee == Share(Max(verified, 0), percent)
  {
    hide Share, RoundHalfUp;
    HalfUpWhole(verified);
    ShareGrowsWithRate(Max(verified, 0), percent, MAX_SHARE);
  }

  /** By how much the floor lifts an invoice above the metered share, up to the cap. */
  function Lift(gross: int, percent: real, floor: real): int {
    var metered := Share(gross, DashboardPercent(percent));
    if floor <= 0.0 then 0 else Max(Min(RoundHalfUp(floor), Share(gross, MAX_SHARE)) - metered, 0)
  }

  /** The floor does not lift the fee: there is none, the metered share already reaches it, or that
      share is at the cap. */
  predicate FloorIdle(gross: int, percent: real, floor: real) {
    var metered := Share(gross, DashboardPercent(percent));
    floor <= 0.0 || RoundHalfUp(floor) <= metered || metered == Share(gross, MAX_SHARE)
  }

  /** An invoice bills the metered share and the lift, which is nothing if and only if the floor is
      idle. */
  lemma InvoiceIsMeteredAndLift(verified: int, percent: real, floor: real)
    requires percent >= 0.0
    ensures
      var gross := Max(verified, 0);
      && ComputeFee(verified as real, percent, floor).fee
         == Share(gross, DashboardPercent(percent)) + Lift(gross, percent, floor)
      && (Lift(gross, percent, floor) == 0 <==> FloorIdle(gross, percent, floor))
  {
    hide Share, RoundHalfUp;
    HalfUpWhole(verified);
    ShareGrowsWithRate(Max(verified, 0), DashboardPercent(percent), MAX_SHARE);
  }

  /** A one-project organization is billed the fee its dashboard shows if and only if the floor is
      idle. */
  lemma OneProjectFeeMatchesInvoiceIff(verified: int, percent: real, floor: real)
    requires percent >= 0.0
    ensures DashboardFees([verified], percent) == ComputeFee(verified as real, percent, floor).fee
            <==> FloorIdle(Max(verified, 0), percent, floor)
  {
    hide ComputeFee, FloorIdle, Lift;
    InvoiceIsMeteredAndLift(verified, percent, floor);
    assert DashboardFees([verified], percent) == DashboardFee(verified, percent) + DashboardFees([], percent);
  }

  /** In particular with no floor the two are equal. */
  lemma OneProjectFeeMatchesInvoice(verified: int, percent: real)
    requires percent >= 0.0
    ensures DashboardFees([verified], percent) == ComputeFee(verified as real, percent, 0.0).fee
  {
    hide ComputeFee, DashboardFees;
    OneProjectFeeMatchesInvoiceIff(verified, percent, 0.0);
  }

  function PositiveSum(vs: seq<int>): nat {
    if vs == [] then 0 else Max(vs[0], 0) + PositiveSum(vs[1..])
  }

  lemma {:induction false} SumBelowPositive(vs: seq<int>)
    ensures SumInt(vs) <= PositiveSum(vs)
    ensures (forall v :: v in vs ==> v >= 0) ==> SumInt(vs) == PositiveSum(vs)
  {
    if vs != [] {
      SumBelowPositive(vs[1..]);
      assert vs[0] in vs;
      assert forall v :: v in vs[1..] ==> v in vs;
    }
  }

  /** The summed dashboard fees stay within half a cent a project of the exact share. */
  lemma {:induction false} DashboardFeesNearShare(vs: seq<int>, percent: real)
    requires percent <= MAX_SHARE
    ensures
      var bound := 0.5 * |vs| as real;
      -bound <= DashboardFees(vs, percent) as real - Times(PositiveSum(vs), percent) <= bound
  {
    hide RoundHalfUp, Times;
    if vs == [] {
      TimesAdd(0, 0, percent);
    } else {
      DashboardFeesNearShare(vs[1..], percent);
      TimesAdd(Max(vs[0], 0), PositiveSum(vs[1..]), percent);
    }
  }

  /** For n projects the invoice fee exceeds the summed dashboard fees by at most (n + 1) / 2 cents
      whatever the signs of the figures, and is within that of them when no figure is negative. */
  lemma DashboardFeesNearInvoice(vs: seq<int>, percent: real)
    requires 0.0 <= percent <= MAX_SHARE
    ensures
      var shown, billed := DashboardFees(vs, percent), ComputeFee(SumInt(vs) as real, percent, 0.0).fee;
      && 2 * (billed - shown) <= |vs| + 1
      && ((forall v :: v in vs ==> v >= 0) ==> -(|vs| + 1) <= 2 * (billed - shown))
  {
    hide RoundHalfUp, ComputeFee, DashboardFees, Times;
    var total, positive := SumInt(vs), PositiveSum(vs);
    InvoiceFeeIsShare(total, percent);
    SumBelowPositive(vs);
    DashboardFeesNearShare(vs, percent);
    ShareIsGentle(Max(total, 0), positive, percent);
  }

  /** What rounding discards from the projects' shares, project by project. */
  function FeeResidues(vs: seq<int>, rate: real): real {
    if vs == [] then 0.0
    else
      var gross := Max(vs[0], 0);
      (Times(gross, rate) - Share(gross, rate) as real) + FeeResidues(vs[1..], rate)
  }

  lemma {:induction false} FeeResiduesSum(vs: seq<int>, percent: real)
    ensures
      var rate := DashboardPercent(percent);
      FeeResidues(vs, rate) == Times(PositiveSum(vs), rate) - DashboardFees(vs, percent) as real
  {
    hide Times, Share, DashboardPercent;
    var rate := DashboardPercent(percent);
    if vs == [] {
      TimesAdd(0, 0, rate);
    } else {
      FeeResiduesSum(vs[1..], percent);
      TimesAdd(Max(vs[0], 0), PositiveSum(vs[1..]), rate);
    }
  }

  /** The losses that the invoice nets against other projects' savings. */
  function NettedLosses(vs: seq<int>): int {
    PositiveSum(vs) - Max(SumInt(vs), 0)
  }

  /** For any projects, rate and floor, the dashboards sum to the invoice fee if and only if what
      rounding discards from the projects' shares, less the share of the netted losses and plus the
      floor's lift, is within half a cent. */
  lemma DashboardFeesMatchInvoiceIff(vs: seq<int>, percent: real, floor: real)
    requires percent >= 0.0
    ensures
      var rate, lift := DashboardPercent(percent), Lift(Max(SumInt(vs), 0), percent, floor);
      DashboardFees(vs, percent) == ComputeFee(SumInt(vs) as real, percent, floor).fee
      <==> -0.5 <= FeeResidues(vs, rate) - Times(NettedLosses(vs), rate) + lift as real < 0.5
  {
    hide RoundHalfUp, ComputeFee, DashboardFees, Times, FloorIdle, FeeResidues, Lift;
    var rate, gross, shown := DashboardPercent(percent), Max(SumInt(vs), 0), DashboardFees(vs, percent);
    var lift := Lift(gross, percent, floor);
    InvoiceIsMeteredAndLift(SumInt(vs), percent, floor);
    FeeResiduesSum(vs, percent);
    TimesAdd(gross, NettedLosses(vs), rate);
    TimesScale(gross, rate);
    if -0.5 <= Times(gross, rate) - (shown - lift) as real < 0.5 {
      HalfUpUnique(Times(gross, rate), shown - lift);
    }
  }

  /** Losses are netted exactly when a project with a loss meets one with savings. */
  lemma LossesAreNettedIff(vs: seq<int>)
    ensures NettedLosses(vs) >= 0
    ensures NettedLosses(vs) == 0 <==> (forall v :: v in vs ==> v >= 0) || (forall v :: v in vs ==> v <= 0)
  {
    SumBelowPositive(vs);
    PositiveSumZeroIff(vs);
    SumIsPositiveIff(vs);
  }

  lemma {:induction false} PositiveSumZeroIff(vs: seq<int>)
    ensures PositiveSum(vs) == 0 <==> forall v :: v in vs ==> v <= 0
  {
    if vs != [] {
      PositiveSumZeroIff(vs[1..]);
      assert vs[0] in vs && forall v :: v in vs[1..] ==> v in vs;
      assert forall v :: v in vs ==> v == vs[0] || v in vs[1..];
    }
  }

  lemma {:induction false} SumIsPositiveIff(vs: seq<int>)
    ensures SumInt(vs) == PositiveSum(vs) <==> forall v :: v in vs ==> v >= 0
  {
    if vs != [] {
      SumIsPositiveIff(vs[1..]);
      SumBelowPositive(vs[1..]);
      assert vs[0] in vs && forall v :: v in vs[1..] ==> v in vs;
      assert forall v :: v in vs ==> v == vs[0] || v in vs[1..];
    }
  }

  /** With losses the other side is unbounded: a loss in one project offsets another's savings on
      the invoice, while each dashboard fee stops at zero. */
  lemma LossesOpenTheGap(n: nat)
    ensures
      var vs := [400 * n, -400 * n];
      DashboardFees(vs, 0.25) == 100 * n && ComputeFee(SumInt(vs) as real, 0.25, 0.0).fee == 0
  {
    hide RoundHalfUp, ComputeFee;
    var a, b := 400 * n, -400 * n;
    var vs := [a, b];
    assert vs[1..] == [b] && [b][1..] == [];
    assert SumInt([b]) == b;
    assert DashboardFees([b], 0.25) == DashboardFee(b, 0.25);
    InvoiceFeeIsShare(0, 0.25);
    HalfUpWhole(0);
    HalfUpWhole(100 * n);
    assert Times(a, 0.25) == (100 * n) as real;
  }

  // ----- invoices -----

  datatype Status = Draft | Finalized | Sent | Paid

  datatype Invoice = Invoice(billable: Billable, status: Status)

  /** A billing period `(start, end)`; invoices are unique per organization and period. */
  type Window = (int, int)

  /** What generating an invoice leaves in the table: a draft is written or refreshed, anything
      past draft is kept. */
  function Generated(rows: map<Window, Invoice>, w: Window, b: Billable): map<Window, Invoice> {
    if w in rows && rows[w].status != Draft then rows else rows[w := Invoice(b, Draft)]
  }

  class InvoiceBook {
    var rows: map<Window, Invoice>

    constructor ()
      ensures rows == map[]
    {
      rows := map[];
    }

    method GenerateInvoice(w: Window, projects: seq<int>, percent: real, floor: real) returns (invoice: Invoice)
      modifies this
      ensures rows == Generated(old(rows), w, ComputeFee(SumInt(projects) as real, percent, floor))
      ensures w in rows && invoice == rows[w]
    {
      var verified := OrgVerifiedSavings(projects);
      var billable := ComputeFee(verified as real, percent, floor);
      if w in rows && rows[w].status != Draft {
        return rows[w];
      }
      invoice := Invoice(billable, Draft);
      rows := rows[w := invoice];
    }
  }

  /** A run of generations, each with whatever savings, rate and floor hold at the time. */
  function GeneratedAll(rows: map<Window, Invoice>, run: seq<(Window, Billable)>): map<Window, Invoice> {
    if run == [] then rows
    else
      var earlier := GeneratedAll(rows, run[..|run| - 1]);
      Generated(earlier, run[|run| - 1].0, run[|run| - 1].1)
  }

  function Lookup(rows: map<Window, Invoice>, w: Window): Option<Invoice> {
    if w in rows then Some(rows[w]) else None
  }

  /** The last billable a run generated for a period. */
  function LastGenerated(run: seq<(Window, Billable)>, w: Window): Option<Billable> {
    if run == [] then None
    else if run[|run| - 1].0 == w then Some(run[|run| - 1].1)
    else LastGenerated(run[..|run| - 1], w)
  }

  /** No run of generations rewrites history: an invoice past draft is exactly as it was; any
      other period shows a draft of the last billable generated for it, or what it showed before. */
  lemma {:induction false} GenerationNeverRewritesHistory(
    rows: map<Window, Invoice>, run: seq<(Window, Billable)>, w: Window)
    ensures
      Lookup(GeneratedAll(rows, run), w) ==
        if w in rows && rows[w].status != Draft then Some(rows[w])
        else if LastGenerated(run, w).Some? then Some(Invoice(LastGenerated(run, w).value, Draft))
        else Lookup(rows, w)
  {
    if run != [] {
      GenerationNeverRewritesHistory(rows, run[..|run| - 1], w);
    }
  }
}
