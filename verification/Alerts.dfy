/**
 Once-per-period alerts: `backend/app/alerts.py` and the budget status of
 `backend/app/budgets.py`, for one project whose evaluations run one at a time.
 */
module Alerts {
  import opened Money
  import opened Text

  // ----- crossings and their dedupe keys -----

  /** A UUID's text form. */
  type RuleId = s: string | |s| == 36 && ColonFree(s) witness seq(36, _ => '0')

  /** A month with a four-digit year, as `12 * year + (month - 1)`. */
  type MonthNo = k: int | 12_000 <= k < 120_000 witness 12_000

  datatype OwnerType = Team | Feature | Customer

  function Name(t: OwnerType): (s: string)
    ensures ColonFree(s) && 4 <= |s| <= 8
  {
    match t case Team => "team" case Feature => "feature" case Customer => "customer"
  }

  /** A threshold reached: total spend in cents, or an owner's budget in ten-thousandths of a percent. */
  datatype Crossing =
    | Spend(rule: RuleId, month: MonthNo, threshold: nat)
    | Budget(rule: RuleId, month: MonthNo, ownerType: OwnerType, owner: string, percent: nat)

  /** `%Y-%m`. */
  function PeriodText(k: MonthNo): string {
    Digits(k / 12) + ['-'] + Two(k % 12 + 1)
  }

  function KindText(c: Crossing): string {
    if c.Spend? then "spend" else "budget"
  }

  function Detail(c: Crossing): string {
    match c
    case Spend(_, _, t) => Hundredths(t)
    case Budget(_, _, t, o, p) => Name(t) + [':'] + (o + [':'] + TenThousandths(p))
  }

  function DedupeKey(c: Crossing): string {
    c.rule + [':'] + (PeriodText(c.month) + [':'] + (KindText(c) + [':'] + Detail(c)))
  }

  lemma PeriodTextIsPlain(k: MonthNo)
    ensures ColonFree(PeriodText(k)) && |PeriodText(k)| == 7
  {
    FourDigits(k / 12);
  }

  lemma FourDigits(n: nat)
    requires 1_000 <= n < 10_000
    ensures |Digits(n)| == 4
  {
    assert |Digits(n / 1_000)| == 1;
    assert n / 10 / 10 / 10 == n / 1_000;
    assert |Digits(n / 10 / 10)| == 2;
    assert |Digits(n / 10)| == 3;
  }

  /** The period reads back as year and month, January being month 1. */
  lemma PeriodTextReadsBack(k: MonthNo)
    ensures
      var s := PeriodText(k);
      |s| == 7 && s[4] == '-' && Value(s[..4]) == k / 12 && Value(s[5..]) == k % 12 + 1
  {
    hide Digits, Two, Value;
    PeriodTextIsPlain(k);
    var s := PeriodText(k);
    assert |Digits(k / 12)| == 4;
    assert s[..4] == Digits(k / 12) && s[5..] == Two(k % 12 + 1);
    DigitsRoundTrip(k / 12);
    TwoRoundTrip(k % 12 + 1);
  }

  lemma PeriodTextInjective(k: MonthNo, m: MonthNo)
    requires PeriodText(k) == PeriodText(m)
    ensures k == m
  {
    hide Digits, Two;
    LastFieldDetermines(Digits(k / 12), Two(k % 12 + 1), Digits(m / 12), Two(m % 12 + 1), '-');
    DigitsInjective(k / 12, m / 12);
    TwoInjective(k % 12 + 1, m % 12 + 1);
  }

  lemma NameInjective(s: OwnerType, t: OwnerType)
    requires Name(s) == Name(t)
    ensures s == t
  {
    assert |Name(s)| == |Name(t)|;
  }

  /** Distinct crossings have distinct keys, even when owner keys contain colons. */
  lemma DedupeKeyInjective(c: Crossing, d: Crossing)
    ensures DedupeKey(c) == DedupeKey(d) <==> c == d
  {
    hide PeriodText, Detail, KindText;
    if DedupeKey(c) == DedupeKey(d) {
      var restC, restD := KindText(c) + [':'] + Detail(c), KindText(d) + [':'] + Detail(d);
      FirstFieldDetermines(c.rule, PeriodText(c.month) + [':'] + restC,
                           d.rule, PeriodText(d.month) + [':'] + restD, ':');
      PeriodTextIsPlain(c.month);
      PeriodTextIsPlain(d.month);
      FirstFieldDetermines(PeriodText(c.month), restC, PeriodText(d.month), restD, ':');
      PeriodTextInjective(c.month, d.month);
      KindsDiffer(c, d);
      FirstFieldDetermines(KindText(c), Detail(c), KindText(d), Detail(d), ':');
      DetailInjective(c, d);
    }
  }

  lemma KindsDiffer(c: Crossing, d: Crossing)
    ensures ColonFree(KindText(c)) && ColonFree(KindText(d))
    ensures KindText(c) == KindText(d) <==> (c.Spend? <==> d.Spend?)
  {
    assert |"spend"| != |"budget"|;
  }

  lemma DetailInjective(c: Crossing, d: Crossing)
    requires c.rule == d.rule && c.month == d.month && (c.Spend? <==> d.Spend?) && Detail(c) == Detail(d)
    ensures c == d
  {
    hide Name, Hundredths, TenThousandths;
    if c.Spend? {
      HundredthsInjective(c.threshold, d.threshold);
    } else {
      var tailC, tailD := c.owner + [':'] + TenThousandths(c.percent), d.owner + [':'] + TenThousandths(d.percent);
      FirstFieldDetermines(Name(c.ownerType), tailC, Name(d.ownerType), tailD, ':');
      NameInjective(c.ownerType, d.ownerType);
      LastFieldDetermines(c.owner, TenThousandths(c.percent), d.owner, TenThousandths(d.percent), ':');
      TenThousandthsInjective(c.percent, d.percent);
    }
  }

  // ----- firing once -----

  /** The width of the `dedupe_key` column: a longer key fails to insert. */
  const KEY_WIDTH: nat := 255

  predicate Fits(c: Crossing) {
    |DedupeKey(c)| <= KEY_WIDTH
  }

  /** The recorded keys, and every message handed to a channel. */
  datatype Log = Log(recorded: set<string>, sent: seq<Crossing>)

  datatype Fired = AlreadyFired | Delivered | Raised

  /** Which delivery rows the database takes when their keys fit. It refuses a row whose observed
      amount reaches the ten billion dollars of its column, and any row when the commit fails. */
  type Accepts = Crossing -> bool

  /** `_fire_once`: send unless the key is recorded; then record, which raises if the key is too
      long or the row is refused, after the message has gone out. */
  function FireOnce(log: Log, c: Crossing, accepts: Accepts): (Log, Fired) {
    if DedupeKey(c) in log.recorded then (log, AlreadyFired)
    else if Fits(c) && accepts(c) then (Log(log.recorded + {DedupeKey(c)}, log.sent + [c]), Delivered)
    else (log.(sent := log.sent + [c]), Raised)
  }

  /** Crossings fired in order until one raises out of the evaluation. */
  function FireAll(log: Log, cs: seq<Crossing>, accepts: Accepts): (Log, bool) {
    if cs == [] then (log, true)
    else
      var (before, ok) := FireAll(log, cs[..|cs| - 1], accepts);
      if !ok then (before, false)
      else
        var (after, fired) := FireOnce(before, cs[|cs| - 1], accepts);
        (after, !fired.Raised?)
  }

  datatype Evaluation = Evaluation(crossings: seq<Crossing>, accepts: Accepts)

  function Evaluations(log: Log, runs: seq<Evaluation>): Log {
    if runs == [] then log
    else
      var last := runs[|runs| - 1];
      FireAll(Evaluations(log, runs[..|runs| - 1]), last.crossings, last.accepts).0
  }

  function Times(sent: seq<Crossing>, c: Crossing): nat {
    if sent == [] then 0 else Times(sent[..|sent| - 1], c) + (if sent[|sent| - 1] == c then 1 else 0)
  }

  /** A crossing whose key fits has been sent exactly as often as it is recorded. */
  ghost predicate SentOnce(log: Log, c: Crossing) {
    Times(log.sent, c) == if DedupeKey(c) in log.recorded then 1 else 0
  }

  lemma FireOnceKeeps(log: Log, c: Crossing, d: Crossing, accepts: Accepts)
    requires Fits(c) && accepts(c) && SentOnce(log, c)
    ensures SentOnce(FireOnce(log, d, accepts).0, c)
  {
    hide DedupeKey, Times;
    TimesAppend(log.sent, d, c);
    DedupeKeyInjective(c, d);
  }

  lemma TimesAppend(sent: seq<Crossing>, d: Crossing, c: Crossing)
    ensures Times(sent + [d], c) == Times(sent, c) + (if d == c then 1 else 0)
  {
    assert (sent + [d])[..|sent|] == sent;
  }

  lemma {:induction false} FireAllKeeps(log: Log, cs: seq<Crossing>, c: Crossing, accepts: Accepts)
    requires Fits(c) && accepts(c) && SentOnce(log, c)
    ensures SentOnce(FireAll(log, cs, accepts).0, c)
  {
    hide FireOnce, SentOnce, Fits;
    if cs != [] {
      FireAllKeeps(log, cs[..|cs| - 1], c, accepts);
      FireOnceKeeps(FireAll(log, cs[..|cs| - 1], accepts).0, c, cs[|cs| - 1], accepts);
    }
  }

  /** The database takes the crossing's row in every evaluation. */
  predicate AlwaysAccepted(runs: seq<Evaluation>, c: Crossing) {
    forall i :: 0 <= i < |runs| ==> runs[i].accepts(c)
  }

  function Sent(runs: seq<Evaluation>): seq<Crossing> {
    Evaluations(Log({}, []), runs).sent
  }

  /** Over every sequence of evaluations, whatever rules, budgets and spend they see and whatever else
      fails to insert, each crossing whose key fits the column and whose row is taken is sent at most
      once. */
  lemma {:induction false} EachCrossingSentAtMostOnce(runs: seq<Evaluation>, c: Crossing)
    requires Fits(c) && AlwaysAccepted(runs, c)
    ensures SentOnce(Evaluations(Log({}, []), runs), c) && Times(Sent(runs), c) <= 1
  {
    hide FireAll, DedupeKey, Fits;
    if runs != [] {
      var n := |runs| - 1;
      EachCrossingSentAtMostOnce(runs[..n], c);
      FireAllKeeps(Evaluations(Log({}, []), runs[..n]), runs[n].crossings, c, runs[n].accepts);
    }
  }

  /** When the database takes the row, at-most-once holds for a crossing if and only if its key fits:
      a longer one is sent again by every evaluation it leads. */
  lemma AtMostOnceIffKeyFits(c: Crossing)
    ensures (forall runs: seq<Evaluation> :: AlwaysAccepted(runs, c) ==> Times(Sent(runs), c) <= 1) <==> Fits(c)
  {
    hide Sent, Times, Fits;
    if Fits(c) {
      forall runs: seq<Evaluation> | AlwaysAccepted(runs, c)
        ensures Times(Sent(runs), c) <= 1
      {
        EachCrossingSentAtMostOnce(runs, c);
      }
    } else {
      var run := Evaluation([c], _ => true);
      SentEveryTime([run, run], c);
      assert AlwaysAccepted([run, run], c);
    }
  }

  /** While a crossing's insert fails and its key is unrecorded, an evaluation that has not raised has
      not come to it. */
  lemma {:induction false} NotReachedYet(log: Log, done: seq<Crossing>, c: Crossing, accepts: Accepts)
    requires DedupeKey(c) !in log.recorded && !(Fits(c) && accepts(c)) && FireAll(log, done, accepts).1
    ensures DedupeKey(c) !in FireAll(log, done, accepts).0.recorded
    ensures Times(FireAll(log, done, accepts).0.sent, c) == Times(log.sent, c)
  {
    hide DedupeKey, Times, Fits;
    if done != [] {
      var n := |done| - 1;
      var before, d := FireAll(log, done[..n], accepts).0, done[n];
      NotReachedYet(log, done[..n], c, accepts);
      DedupeKeyInjective(c, d);
      TimesAppend(before.sent, d, c);
    }
  }

  /** Any failure to insert sends a message again: from any log without its key, an evaluation that
      reaches the crossing sends it and leaves the key unrecorded, for the next one to do the same. */
  lemma SentAgain(log: Log, done: seq<Crossing>, c: Crossing, rest: seq<Crossing>, accepts: Accepts)
    requires DedupeKey(c) !in log.recorded && !(Fits(c) && accepts(c)) && FireAll(log, done, accepts).1
    ensures
      var after := FireAll(log, done + [c] + rest, accepts).0;
      Times(after.sent, c) == Times(log.sent, c) + 1 && DedupeKey(c) !in after.recorded
  {
    hide DedupeKey, Times, Fits;
    NotReachedYet(log, done, c, accepts);
    var before := FireAll(log, done, accepts).0;
    assert (done + [c])[..|done|] == done;
    TimesAppend(before.sent, c, c);
    FireAllStops(log, done + [c], done + [c] + rest, accepts);
  }

  /** So a crossing that every evaluation reaches and fails to record is sent once by each of them. */
  lemma {:induction false} SentEveryTime(runs: seq<Evaluation>, c: Crossing)
    requires forall i :: 0 <= i < |runs| ==> runs[i].crossings == [c] && !(Fits(c) && runs[i].accepts(c))
    ensures Times(Sent(runs), c) == |runs| && DedupeKey(c) !in Evaluations(Log({}, []), runs).recorded
  {
    hide DedupeKey, Fits, FireAll;
    if runs != [] {
      var n := |runs| - 1;
      SentEveryTime(runs[..n], c);
      var log := Evaluations(Log({}, []), runs[..n]);
      NothingToFire(log, runs[n].accepts);
      SentAgain(log, [], c, [], runs[n].accepts);
      assert [] + [c] + [] == [c];
    }
  }

  /** The condition in terms a caller can check: the length of the owner key. */
  lemma BudgetKeyFitsIff(c: Crossing)
    requires c.Budget?
    ensures Fits(c) <==> |c.owner| <= 201 - |Name(c.ownerType)| - |TenThousandths(c.percent)|
  {
    hide Name, TenThousandths, PeriodText;
    PeriodTextIsPlain(c.month);
  }

  function Pow10(k: nat): nat {
    if k == 0 then 1 else 10 * Pow10(k - 1)
  }

  lemma {:induction false} DigitsLength(n: nat, k: nat)
    requires k > 0 && n < Pow10(k)
    ensures |Digits(n)| <= k
  {
    assert Pow10(1) == 10 * Pow10(0);
    if n >= 10 {
      DigitsLength(n / 10, k - 1);
    }
  }

  /** A spend threshold always fits: the column holds eighteen digits. */
  lemma SpendKeyAlwaysFits(c: Crossing)
    requires c.Spend? && c.threshold / 100 < Pow10(16)
    ensures Fits(c)
  {
    hide PeriodText, Digits, Pow10;
    PeriodTextIsPlain(c.month);
    DigitsLength(c.threshold / 100, 16);
  }

  lemma {:induction false} FireAllSettles(log: Log, cs: seq<Crossing>, accepts: Accepts)
    requires forall c :: c in cs ==> Fits(c) && accepts(c)
    ensures FireAll(log, cs, accepts).1
    ensures log.recorded <= FireAll(log, cs, accepts).0.recorded
    ensures forall c :: c in cs ==> DedupeKey(c) in FireAll(log, cs, accepts).0.recorded
  {
    hide DedupeKey, Fits;
    if cs != [] {
      assert cs[|cs| - 1] in cs;
      FireAllSettles(log, cs[..|cs| - 1], accepts);
    }
  }

  lemma {:induction false} FireAllSilent(log: Log, cs: seq<Crossing>, accepts: Accepts)
    requires forall c :: c in cs ==> DedupeKey(c) in log.recorded
    ensures FireAll(log, cs, accepts) == (log, true)
  {
    hide DedupeKey, Fits;
    if cs != [] {
      assert cs[|cs| - 1] in cs;
      FireAllSilent(log, cs[..|cs| - 1], accepts);
    }
  }

  /** Re-evaluating unchanged rules and spend right away delivers nothing. */
  lemma ReevaluationDeliversNothing(log: Log, cs: seq<Crossing>, accepts: Accepts)
    requires forall c :: c in cs ==> Fits(c) && accepts(c)
    ensures var once := FireAll(log, cs, accepts).0; FireAll(once, cs, accepts) == (once, true)
  {
    hide DedupeKey, Fits, FireAll;
    FireAllSettles(log, cs, accepts);
    FireAllSilent(FireAll(log, cs, accepts).0, cs, accepts);
  }

  // ----- evaluating the rules -----

  datatype Rule = Rule(id: RuleId, usd: Option<nat>, percent: Option<nat>)

  /** An owner's month-to-date spend and monthly budget, in cents. */
  datatype BudgetStatus = BudgetStatus(ownerType: OwnerType, owner: string, budget: int, spend: real) {
    /** `percent_used` in tenths of a percent. */
    function TenthsUsed(): Option<int> {
      if budget <= 0 then None else Some(RoundHalfEven(spend / budget as real * 1000.0))
    }
  }

  predicate Reaches(b: BudgetStatus, percent: nat) {
    b.TenthsUsed().Some? && b.TenthsUsed().value * 1000 >= percent
  }

  /** When an owner's spend has reached a percentage of its budget: the share in tenths of a percent is
      above the half below the least whole tenth that meets the threshold, or at that half if the tenth
      is even. */
  ghost predicate SpentShare(budget: int, spend: real, percent: nat) {
    budget > 0
    && var tenth := (percent + 999) / 1000;
       var share := spend / budget as real * 1000.0;
       share > tenth as real - 0.5 || (share == tenth as real - 0.5 && tenth % 2 == 0)
  }

  /** The rounded comparison of the code, for every budget, spend and threshold. */
  lemma ReachesIff(b: BudgetStatus, percent: nat)
    ensures Reaches(b, percent) <==> SpentShare(b.budget, b.spend, percent)
  {
    if b.budget > 0 {
      var x, t := b.spend / b.budget as real * 1000.0, (percent + 999) / 1000;
      LeastTenth(RoundHalfEven(x), percent);
      HalfEvenReaches(x, t);
    }
  }

  lemma LeastTenth(r: int, percent: nat)
    ensures r * 1000 >= percent <==> r >= (percent + 999) / 1000
  {
  }

  lemma HalfEvenReaches(x: real, t: int)
    ensures RoundHalfEven(x) >= t <==> x > t as real - 0.5 || (x == t as real - 0.5 && t % 2 == 0)
  {
    var r := RoundHalfEven(x);
    assert r >= t ==> r as real >= t as real;
    assert r < t ==> r as real <= t as real - 1.0;
    if x == t as real - 0.5 {
      assert r as real - x == (r - t) as real + 0.5;
      assert r == t || r == t - 1;
    }
  }

  /** What one rule crosses: a dollar threshold hides a percentage one. */
  function BudgetCrossings(r: Rule, percent: nat, budgets: seq<BudgetStatus>, m: MonthNo): seq<Crossing> {
    if budgets == [] then []
    else
      var b := budgets[|budgets| - 1];
      BudgetCrossings(r, percent, budgets[..|budgets| - 1], m)
      + (if Reaches(b, percent) then [Budget(r.id, m, b.ownerType, b.owner, percent)] else [])
  }

  function RuleCrossings(r: Rule, spend: real, budgets: seq<BudgetStatus>, m: MonthNo): seq<Crossing> {
    if r.usd.Some? then (if spend >= r.usd.value as real then [Spend(r.id, m, r.usd.value)] else [])
    else if r.percent.Some? then BudgetCrossings(r, r.percent.value, budgets, m)
    else []
  }

  function Crossings(rules: seq<Rule>, spend: real, budgets: seq<BudgetStatus>, m: MonthNo): seq<Crossing> {
    if rules == [] then []
    else Crossings(rules[..|rules| - 1], spend, budgets, m) + RuleCrossings(rules[|rules| - 1], spend, budgets, m)
  }

  /** One rule's reason to fire for a crossing. */
  ghost predicate Justifies(r: Rule, spend: real, budgets: seq<BudgetStatus>, m: MonthNo, c: Crossing) {
    || (r.usd.Some? && spend >= r.usd.value as real && c == Spend(r.id, m, r.usd.value))
    || (r.usd.None? && r.percent.Some?
        && exists b :: b in budgets && SpentShare(b.budget, b.spend, r.percent.value)
                       && c == Budget(r.id, m, b.ownerType, b.owner, r.percent.value))
  }

  lemma {:induction false} BudgetCrossingsMeaning(
    r: Rule, percent: nat, budgets: seq<BudgetStatus>, m: MonthNo, c: Crossing)
    ensures c in BudgetCrossings(r, percent, budgets, m) <==>
              exists b :: b in budgets && SpentShare(b.budget, b.spend, percent)
                          && c == Budget(r.id, m, b.ownerType, b.owner, percent)
  {
    hide Reaches, SpentShare;
    if budgets != [] {
      var n := |budgets| - 1;
      BudgetCrossingsMeaning(r, percent, budgets[..n], m, c);
      ReachesIff(budgets[n], percent);
      assert forall b :: b in budgets <==> b in budgets[..n] || b == budgets[n];
    }
  }

  /** An evaluation fires for exactly the thresholds that some enabled rule has reached. */
  lemma {:induction false} CrossingsAreExactlyReached(
    rules: seq<Rule>, spend: real, budgets: seq<BudgetStatus>, m: MonthNo, c: Crossing)
    ensures c in Crossings(rules, spend, budgets, m) <==> exists r :: r in rules && Justifies(r, spend, budgets, m, c)
  {
    hide RuleCrossings, Justifies;
    if rules != [] {
      var n := |rules| - 1;
      CrossingsAreExactlyReached(rules[..n], spend, budgets, m, c);
      RuleCrossingsMeaning(rules[n], spend, budgets, m, c);
      assert forall r :: r in rules <==> r in rules[..n] || r == rules[n];
    }
  }

  lemma RuleCrossingsMeaning(r: Rule, spend: real, budgets: seq<BudgetStatus>, m: MonthNo, c: Crossing)
    ensures c in RuleCrossings(r, spend, budgets, m) <==> Justifies(r, spend, budgets, m, c)
  {
    hide Reaches, SpentShare, BudgetCrossings;
    if r.percent.Some? {
      BudgetCrossingsMeaning(r, r.percent.value, budgets, m, c);
    }
  }

  lemma {:induction false} FireAllSplits(log: Log, a: seq<Crossing>, b: seq<Crossing>, accepts: Accepts)
    requires FireAll(log, a, accepts).1
    ensures FireAll(log, a + b, accepts) == FireAll(FireAll(log, a, accepts).0, b, accepts)
    decreases |b|
  {
    hide FireOnce;
    if b == [] {
      assert a + b == a;
    } else {
      assert (a + b)[..|a + b| - 1] == a + b[..|b| - 1];
      FireAllSplits(log, a, b[..|b| - 1], accepts);
    }
  }

  lemma {:induction false} FireAllStops(log: Log, done: seq<Crossing>, all: seq<Crossing>, accepts: Accepts)
    requires done <= all && !FireAll(log, done, accepts).1
    ensures FireAll(log, all, accepts) == FireAll(log, done, accepts)
    decreases |all|
  {
    hide FireOnce;
    if |done| == |all| {
      assert done == all;
    } else {
      assert done <= all[..|all| - 1];
      FireAllStops(log, done, all[..|all| - 1], accepts);
    }
  }

  class AlertLog {
    var recorded: set<string>
    var sent: seq<Crossing>

    function AsLog(): Log
      reads this
    {
      Log(recorded, sent)
    }

    constructor ()
      ensures AsLog() == Log({}, [])
    {
      recorded, sent := {}, [];
    }

    method Fire(c: Crossing, accepts: Accepts) returns (fired: Fired)
      modifies this
      ensures (AsLog(), fired) == FireOnce(old(AsLog()), c, accepts)
    {
      var key := DedupeKey(c);
      if key in recorded {
        return AlreadyFired;
      }
      sent := sent + [c];
      if |key| > KEY_WIDTH || !accepts(c) {
        return Raised;
      }
      recorded := recorded + {key};
      return Delivered;
    }

    method FireBudgets(r: Rule, percent: nat, budgets: seq<BudgetStatus>, m: MonthNo, accepts: Accepts)
      returns (ok: bool)
      modifies this
      ensures (AsLog(), ok) == FireAll(old(AsLog()), BudgetCrossings(r, percent, budgets, m), accepts)
    {
      hide Reaches, FireOnce;
      for i := 0 to |budgets|
        invariant (AsLog(), true) == FireAll(old(AsLog()), BudgetCrossings(r, percent, budgets[..i], m), accepts)
      {
        var b := budgets[i];
        assert budgets[..i + 1][..i] == budgets[..i];
        ghost var before := BudgetCrossings(r, percent, budgets[..i], m);
        if Reaches(b, percent) {
          var c := Budget(r.id, m, b.ownerType, b.owner, percent);
          assert (before + [c])[..|before|] == before;
          var fired := Fire(c, accepts);
          if fired.Raised? {
            BudgetCrossingsPrefix(r, percent, budgets, m, i + 1);
            FireAllStops(old(AsLog()), before + [c], BudgetCrossings(r, percent, budgets, m), accepts);
            return false;
          }
        } else {
          assert before + [] == before;
        }
      }
      assert budgets[..|budgets|] == budgets;
      return true;
    }

    method FireRule(r: Rule, spend: real, budgets: seq<BudgetStatus>, m: MonthNo, accepts: Accepts)
      returns (ok: bool)
      modifies this
      ensures (AsLog(), ok) == FireAll(old(AsLog()), RuleCrossings(r, spend, budgets, m), accepts)
    {
      hide FireOnce, BudgetCrossings;
      if r.usd.Some? {
        if spend < r.usd.value as real {
          return true;
        }
        assert [Spend(r.id, m, r.usd.value)][..0] == [];
        var fired := Fire(Spend(r.id, m, r.usd.value), accepts);
        return !fired.Raised?;
      } else if r.percent.Some? {
        ok := FireBudgets(r, r.percent.value, budgets, m, accepts);
      } else {
        return true;
      }
    }

    /** Evaluate every enabled rule in order; `ok` is false when a failed insert cut it short. */
    method EvaluateAndDeliver(rules: seq<Rule>, spend: real, budgets: seq<BudgetStatus>, m: MonthNo, accepts: Accepts)
      returns (ok: bool)
      modifies this
      ensures (AsLog(), ok) == FireAll(old(AsLog()), Crossings(rules, spend, budgets, m), accepts)
    {
      hide FireAll, RuleCrossings, AsLog;
      NothingToFire(AsLog(), accepts);
      for i := 0 to |rules|
        invariant (AsLog(), true) == FireAll(old(AsLog()), Crossings(rules[..i], spend, budgets, m), accepts)
      {
        assert rules[..i + 1][..i] == rules[..i];
        ghost var before, own := Crossings(rules[..i], spend, budgets, m), RuleCrossings(rules[i], spend, budgets, m);
        FireAllSplits(old(AsLog()), before, own, accepts);
        ok := FireRule(rules[i], spend, budgets, m, accepts);
        if !ok {
          CrossingsPrefix(rules, spend, budgets, m, i + 1);
          FireAllStops(old(AsLog()), before + own, Crossings(rules, spend, budgets, m), accepts);
          return false;
        }
      }
      assert rules[..|rules|] == rules;
      return true;
    }
  }

  lemma NothingToFire(log: Log, accepts: Accepts)
    ensures FireAll(log, [], accepts) == (log, true)
  {
  }

  lemma {:induction false} BudgetCrossingsPrefix(r: Rule, percent: nat, budgets: seq<BudgetStatus>, m: MonthNo, i: nat)
    requires i <= |budgets|
    ensures BudgetCrossings(r, percent, budgets[..i], m) <= BudgetCrossings(r, percent, budgets, m)
    decreases |budgets|
  {
    hide Reaches;
    if i == |budgets| {
      assert budgets[..i] == budgets;
    } else {
      assert budgets[..|budgets| - 1][..i] == budgets[..i];
      BudgetCrossingsPrefix(r, percent, budgets[..|budgets| - 1], m, i);
    }
  }

  lemma {:induction false} CrossingsPrefix(
    rules: seq<Rule>, spend: real, budgets: seq<BudgetStatus>, m: MonthNo, i: nat)
    requires i <= |rules|
    ensures Crossings(rules[..i], spend, budgets, m) <= Crossings(rules, spend, budgets, m)
    decreases |rules|
  {
    hide RuleCrossings;
    if i == |rules| {
      assert rules[..i] == rules;
    } else {
      assert rules[..|rules| - 1][..i] == rules[..i];
      CrossingsPrefix(rules[..|rules| - 1], spend, budgets, m, i);
    }
  }

  /** The percentage is rounded before it is compared: a 100% alert fires exactly from 99.95% of the
      budget on, so it can precede the budget's being spent but never miss it. */
  lemma FullBudgetAlertFiresFrom9995(b: BudgetStatus)
    requires b.budget > 0
    ensures Reaches(b, 1_000_000) <==> b.spend / b.budget as real >= 0.9995
    ensures b.spend >= b.budget as real ==> Reaches(b, 1_000_000)
  {
    var x := b.spend / b.budget as real * 1000.0;
    var r := RoundHalfEven(x);
    assert x >= 999.5 ==> r >= 1000;
    assert x < 999.5 ==> r < 1000;
    assert b.spend >= b.budget as real ==> b.spend / b.budget as real >= 1.0;
  }
}
