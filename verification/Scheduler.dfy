/**
 Per-job advisory locking across instances: `backend/app/scheduler.py`.

 Postgres session locks are re-entrant per session and are dropped when the session ends. A tick
 checks a connection out of its instance's pool, so a session serves at most one tick at a time,
 and returning a connection to the pool does not end its session. Each database call is one
 step; ticks of all instances and jobs interleave freely.
 */
module Scheduler {
  import opened Money

  type Job = string
  type Session = nat

  // ----- advisory locks -----

  /** The holder of a lock, and how many times beyond the first it was granted. */
  datatype Hold = Hold(session: Session, again: nat)

  type LockTable = map<int, Hold>

  predicate HeldBy(locks: LockTable, k: int, s: Session) {
    k in locks && locks[k].session == s
  }

  /** `pg_try_advisory_lock`: granted when free or already held by the same session. */
  function TryLock(locks: LockTable, k: int, s: Session): (LockTable, bool) {
    if k !in locks then (locks[k := Hold(s, 0)], true)
    else if locks[k].session == s then (locks[k := Hold(s, locks[k].again + 1)], true)
    else (locks, false)
  }

  /** `pg_advisory_unlock`: undoes one grant of the same session, and nothing else. */
  function Unlock(locks: LockTable, k: int, s: Session): LockTable {
    if !HeldBy(locks, k, s) then locks
    else if locks[k].again == 0 then locks - {k}
    else locks[k := Hold(s, locks[k].again - 1)]
  }

  function DropSessions(locks: LockTable, dead: set<Session>): LockTable {
    map k | k in locks && locks[k].session !in dead :: locks[k]
  }

  class LockServer {
    var locks: LockTable

    constructor ()
      ensures locks == map[]
    {
      locks := map[];
    }

    method Try(k: int, s: Session) returns (acquired: bool)
      modifies this
      ensures (locks, acquired) == TryLock(old(locks), k, s)
    {
      var (after, ok) := TryLock(locks, k, s);
      locks := after;
      return ok;
    }

    method Release(k: int, s: Session)
      modifies this
      ensures locks == Unlock(old(locks), k, s)
    {
      locks := Unlock(locks, k, s);
    }
  }

  /** `_run_guarded`, with nothing interleaved: the tick runs unless another session holds the
      lock, a missing connection or disabled coordination runs it unguarded, and on every path the
      lock table is left as it was found. */
  method RunGuarded(server: LockServer, enabled: bool, conn: Option<Session>, k: int) returns (ran: bool)
    modifies server
    ensures ran <==> !enabled || conn.None? || k !in old(server.locks) || old(server.locks)[k].session == conn.value
    ensures server.locks == old(server.locks)
  {
    if !enabled || conn.None? {
      return true;
    }
    var acquired := server.Try(k, conn.value);
    ran := acquired;
    server.Release(k, conn.value);
  }

  // ----- the cluster -----

  /** One job's loop in one instance. */
  datatype Worker = Worker(instance: nat, job: Job)

  /** Where a loop is in its tick. `Open` is a tick running without the lock. */
  datatype Phase = Idle | Skipping(session: Session) | Holding(session: Session) | Releasing(session: Session) | Open

  /** Whether a tick has a connection checked out. */
  predicate Attached(p: Phase) {
    !p.Idle? && !p.Open?
  }

  predicate Locked(p: Phase) {
    p.Holding? || p.Releasing?
  }

  datatype Cluster = Cluster(locks: LockTable, phases: map<Worker, Phase>) {
    function PhaseOf(w: Worker): Phase {
      if w in phases then phases[w] else Idle
    }

    /** No tick of any instance has this session checked out. */
    ghost predicate Pooled(s: Session) {
      forall w :: Attached(PhaseOf(w)) ==> PhaseOf(w).session != s
    }

    function Moved(w: Worker, p: Phase, after: LockTable): Cluster {
      Cluster(after, phases[w := p])
    }
  }

  /** Whether the job's own work is running. */
  predicate Inside(p: Phase) {
    p.Holding? || p.Open?
  }

  datatype Step =
    | Acquire(w: Worker, session: Session)
    /** A lock-infrastructure error, or coordination turned off. The server may have granted the
        lock to a session that then went back to the pool. */
    | FailOpen(w: Worker, leaked: Option<Session>)
    | Finish(w: Worker)
    | Release(w: Worker)
    /** The unlock raised: the session is dropped, or returns to the pool with the lock. */
    | ReleaseError(w: Worker, dropped: bool)
    /** An instance dies with all its ticks and sessions. */
    | Crash(instance: nat, dead: set<Session>)
    | PooledSessionEnds(session: Session)
    /** The session behind a running tick ends: the tick goes on without its lock. */
    | SessionLost(w: Worker)

  /** A step that is not possible in a state leaves it as it is. */
  ghost function Apply(c: Cluster, step: Step, key: Job -> int): Cluster {
    match step
    case Acquire(w, s) =>
      if c.PhaseOf(w) != Idle || !c.Pooled(s) then c
      else
        var (locks, ok) := TryLock(c.locks, key(w.job), s);
        c.Moved(w, if ok then Holding(s) else Skipping(s), locks)
    case FailOpen(w, leaked) =>
      if c.PhaseOf(w) != Idle || (leaked.Some? && !c.Pooled(leaked.value)) then c
      else c.Moved(w, Open, if leaked.Some? then TryLock(c.locks, key(w.job), leaked.value).0 else c.locks)
    case Finish(w) =>
      if c.PhaseOf(w).Holding? then c.Moved(w, Releasing(c.PhaseOf(w).session), c.locks)
      else if c.PhaseOf(w).Open? then c.Moved(w, Idle, c.locks)
      else c
    case Release(w) =>
      var p := c.PhaseOf(w);
      if p.Skipping? || p.Releasing? then c.Moved(w, Idle, Unlock(c.locks, key(w.job), p.session)) else c
    case ReleaseError(w, dropped) =>
      var p := c.PhaseOf(w);
      if p.Skipping? || p.Releasing? then
        c.Moved(w, Idle, if dropped then DropSessions(c.locks, {p.session}) else c.locks)
      else c
    case Crash(i, dead) =>
      if (forall w :: Attached(c.PhaseOf(w)) ==> (w.instance == i <==> c.PhaseOf(w).session in dead)) then
        Cluster(DropSessions(c.locks, dead), map w | w in c.phases && w.instance != i :: c.phases[w])
      else c
    case PooledSessionEnds(s) =>
      if c.Pooled(s) then c.(locks := DropSessions(c.locks, {s})) else c
    case SessionLost(w) =>
      var p := c.PhaseOf(w);
      if p.Holding? then c.Moved(w, Open, DropSessions(c.locks, {p.session})) else c
  }

  ghost function Exec(steps: seq<Step>, key: Job -> int): Cluster {
    if steps == [] then Cluster(map[], map[])
    else Apply(Exec(steps[..|steps| - 1], key), steps[|steps| - 1], key)
  }

  // ----- safety -----

  /** A session serves one tick. */
  ghost predicate OneTickPerSession(c: Cluster) {
    forall v, w :: Attached(c.PhaseOf(v)) && Attached(c.PhaseOf(w)) && c.PhaseOf(v).session == c.PhaseOf(w).session ==>
      v == w
  }

  /** A tick past its acquire holds its key; a refused tick does not. */
  ghost predicate LocksMatch(c: Cluster, key: Job -> int) {
    forall w :: Attached(c.PhaseOf(w)) ==>
      (Locked(c.PhaseOf(w)) <==> HeldBy(c.locks, key(w.job), c.PhaseOf(w).session))
  }

  lemma StepKeepsSessions(c: Cluster, step: Step, key: Job -> int)
    requires OneTickPerSession(c)
    ensures OneTickPerSession(Apply(c, step, key))
  {
    hide Apply;
    var d := Apply(c, step, key);
    forall v, w | Attached(d.PhaseOf(v)) && Attached(d.PhaseOf(w)) && d.PhaseOf(v).session == d.PhaseOf(w).session
      ensures v == w
    {
      SessionOrigin(c, step, key, v);
      SessionOrigin(c, step, key, w);
    }
  }

  /** A tick's session is the one it had, or was pooled until this acquire. */
  lemma SessionOrigin(c: Cluster, step: Step, key: Job -> int, v: Worker)
    requires Attached(Apply(c, step, key).PhaseOf(v))
    ensures
      var s := Apply(c, step, key).PhaseOf(v).session;
      (Attached(c.PhaseOf(v)) && c.PhaseOf(v).session == s) || (step == Acquire(v, s) && c.Pooled(s))
  {
    hide TryLock, Unlock, DropSessions;
  }

  lemma StepKeepsLocks(c: Cluster, step: Step, key: Job -> int)
    requires OneTickPerSession(c) && LocksMatch(c, key)
    ensures LocksMatch(Apply(c, step, key), key)
  {
    var d := Apply(c, step, key);
    forall w | Attached(d.PhaseOf(w))
      ensures Locked(d.PhaseOf(w)) <==> HeldBy(d.locks, key(w.job), d.PhaseOf(w).session)
    {
      if Attached(c.PhaseOf(w)) {
        assert Locked(c.PhaseOf(w)) <==> HeldBy(c.locks, key(w.job), c.PhaseOf(w).session);
      }
    }
  }

  lemma {:induction false} AlwaysExclusive(steps: seq<Step>, key: Job -> int)
    ensures OneTickPerSession(Exec(steps, key)) && LocksMatch(Exec(steps, key), key)
  {
    hide Apply;
    if steps != [] {
      var n := |steps| - 1;
      AlwaysExclusive(steps[..n], key);
      StepKeepsSessions(Exec(steps[..n], key), steps[n], key);
      StepKeepsLocks(Exec(steps[..n], key), steps[n], key);
    }
  }

  /** Mutual exclusion in every interleaving: two instances inside the same job's tick means that
      one of the two ticks is running without the lock. */
  lemma OverlapNeedsOpenTick(steps: seq<Step>, key: Job -> int, v: Worker, w: Worker)
    requires v != w && v.job == w.job
    requires Inside(Exec(steps, key).PhaseOf(v)) && Inside(Exec(steps, key).PhaseOf(w))
    ensures Exec(steps, key).PhaseOf(v).Open? || Exec(steps, key).PhaseOf(w).Open?
  {
    hide Exec;
    AlwaysExclusive(steps, key);
  }

  /** A step that leaves a tick running without the lock. */
  predicate Unguards(s: Step) {
    s.FailOpen? || s.SessionLost?
  }

  lemma {:induction false} OpenNeedsUnguarding(steps: seq<Step>, key: Job -> int, w: Worker)
    requires forall s :: s in steps ==> !Unguards(s)
    ensures !Exec(steps, key).PhaseOf(w).Open?
  {
    if steps != [] {
      var n := |steps| - 1;
      assert !Unguards(steps[n]);
      OpenNeedsUnguarding(steps[..n], key, w);
      OpenComesFromUnguarding(Exec(steps[..n], key), steps[n], key, w);
    }
  }

  lemma OpenComesFromUnguarding(c: Cluster, step: Step, key: Job -> int, w: Worker)
    requires !Unguards(step) && !c.PhaseOf(w).Open?
    ensures !Apply(c, step, key).PhaseOf(w).Open?
  {
  }

  /** Without lock-infrastructure errors, and while sessions outlive their ticks, at most one instance
      is inside a job's tick, through any crashes, failed unlocks and lost pool sessions, and whatever
      keys the job names hash to. */
  lemma AtMostOneInside(steps: seq<Step>, key: Job -> int, v: Worker, w: Worker)
    requires forall s :: s in steps ==> !Unguards(s)
    requires v.job == w.job
    requires Inside(Exec(steps, key).PhaseOf(v)) && Inside(Exec(steps, key).PhaseOf(w))
    ensures v == w
  {
    hide Exec;
    if v != w {
      OverlapNeedsOpenTick(steps, key, v, w);
      OpenNeedsUnguarding(steps, key, v);
      OpenNeedsUnguarding(steps, key, w);
    }
  }

  /** A skipped tick's release frees nothing: the lock table is unchanged. */
  lemma {:induction false} SkippedReleaseFreesNothing(steps: seq<Step>, key: Job -> int, w: Worker)
    requires Exec(steps, key).PhaseOf(w).Skipping?
    ensures Apply(Exec(steps, key), Release(w), key).locks == Exec(steps, key).locks
  {
    hide Exec;
    AlwaysExclusive(steps, key);
  }

  // ----- failover -----

  /** The tick that justifies a held lock. */
  predicate Backs(c: Cluster, key: Job -> int, k: int, w: Worker) {
    && Locked(c.PhaseOf(w))
    && key(w.job) == k && k in c.locks && c.locks[k] == Hold(c.PhaseOf(w).session, 0)
  }

  ghost predicate NoOrphans(c: Cluster, key: Job -> int) {
    forall k :: k in c.locks ==> exists w :: Backs(c, key, k, w)
  }

  /** A session returns to the pool with a lock: a failed acquire that the server had granted, or a
      failed unlock of a finished tick whose session lives on. */
  ghost predicate Leaks(c: Cluster, step: Step, key: Job -> int) {
    || (&& step.FailOpen? && step.leaked.Some? && c.Pooled(step.leaked.value)
        && c.PhaseOf(step.w) == Idle && key(step.w.job) !in c.locks)
    || (step.ReleaseError? && !step.dropped && c.PhaseOf(step.w).Releasing?)
  }

  /** The session that a leak returns to the pool. */
  ghost function LeakedSession(c: Cluster, step: Step, key: Job -> int): Session
    requires Leaks(c, step, key)
  {
    if step.FailOpen? then step.leaked.value else c.PhaseOf(step.w).session
  }

  /** The run leaks no session. */
  ghost predicate Clean(steps: seq<Step>, key: Job -> int) {
    forall j :: 0 <= j < |steps| ==> !Leaks(Exec(steps[..j], key), steps[j], key)
  }

  lemma OtherStepsKeepNoOrphans(c: Cluster, step: Step, key: Job -> int)
    requires OneTickPerSession(c) && LocksMatch(c, key) && NoOrphans(c, key) && !Leaks(c, step, key)
    ensures NoOrphans(Apply(c, step, key), key)
  {
    var d := Apply(c, step, key);
    forall k | k in d.locks
      ensures exists w :: Backs(d, key, k, w)
    {
      if k !in c.locks {
        assert Backs(d, key, k, step.w);
      } else {
        var w :| Backs(c, key, k, w);
        assert Backs(d, key, k, w);
      }
    }
  }

  lemma LeakOrphans(c: Cluster, step: Step, key: Job -> int)
    requires OneTickPerSession(c) && LocksMatch(c, key) && Leaks(c, step, key)
    ensures !NoOrphans(Apply(c, step, key), key)
  {
    var d, k := Apply(c, step, key), key(step.w.job);
    var s := LeakedSession(c, step, key);
    assert HeldBy(d.locks, k, s);
    forall v ensures !Backs(d, key, k, v) {
      assert v != step.w ==> d.PhaseOf(v) == c.PhaseOf(v);
    }
  }

  /** No lock is ever held without a live tick behind it if and only if no step of the run leaks a
      session. */
  lemma NeverOrphanedIff(steps: seq<Step>, key: Job -> int)
    ensures (forall j :: 0 <= j <= |steps| ==> NoOrphans(Exec(steps[..j], key), key)) <==> Clean(steps, key)
  {
    hide Apply, Leaks, NoOrphans;
    if Clean(steps, key) {
      forall j | 0 <= j <= |steps|
        ensures NoOrphans(Exec(steps[..j], key), key)
      {
        assert forall i :: 0 <= i < j ==> steps[..j][..i] == steps[..i];
        NeverOrphaned(steps[..j], key);
      }
    }
    if j :| 0 <= j < |steps| && Leaks(Exec(steps[..j], key), steps[j], key) {
      AlwaysExclusive(steps[..j], key);
      LeakOrphans(Exec(steps[..j], key), steps[j], key);
      assert steps[..j + 1][..j] == steps[..j];
      assert Exec(steps[..j + 1], key) == Apply(Exec(steps[..j], key), steps[j], key);
    }
  }

  lemma {:induction false} NeverOrphaned(steps: seq<Step>, key: Job -> int)
    requires Clean(steps, key)
    ensures NoOrphans(Exec(steps, key), key)
  {
    hide Apply, Leaks;
    if steps != [] {
      var n := |steps| - 1;
      assert forall j :: 0 <= j < n ==> steps[..n][..j] == steps[..j];
      NeverOrphaned(steps[..n], key);
      AlwaysExclusive(steps[..n], key);
      OtherStepsKeepNoOrphans(Exec(steps[..n], key), steps[n], key);
    }
  }

  /** Leadership fails over by itself: in a clean run an idle worker's acquire is refused exactly
      when a live tick under the same key holds the lock, so a crash never blocks a job. */
  lemma RefusedExactlyWhenHeld(steps: seq<Step>, key: Job -> int, w: Worker, s: Session)
    requires Clean(steps, key)
    requires Exec(steps, key).PhaseOf(w) == Idle && Exec(steps, key).Pooled(s)
    ensures
      var c := Exec(steps, key);
      Apply(c, Acquire(w, s), key).PhaseOf(w).Skipping?
      <==> exists v :: Locked(c.PhaseOf(v)) && key(v.job) == key(w.job)
  {
    hide Exec;
    NeverOrphaned(steps, key);
    AlwaysExclusive(steps, key);
    var c := Exec(steps, key);
    var k := key(w.job);
    if k in c.locks {
      var v :| Backs(c, key, k, v);
      assert Locked(c.PhaseOf(v));
    }
  }

  /** A tick that finds its key free holds it while it runs and leaves the cluster as it was. */
  lemma CompletedTickRestoresCluster(c: Cluster, key: Job -> int, w: Worker, s: Session)
    requires c.PhaseOf(w) == Idle && c.Pooled(s) && key(w.job) !in c.locks
    ensures
      var running := Apply(c, Acquire(w, s), key);
      var done := Apply(Apply(running, Finish(w), key), Release(w), key);
      && running.PhaseOf(w) == Holding(s) && HeldBy(running.locks, key(w.job), s)
      && done.locks == c.locks && forall v :: done.PhaseOf(v) == c.PhaseOf(v)
  {
    var running := Apply(c, Acquire(w, s), key);
    assert running == c.Moved(w, Holding(s), c.locks[key(w.job) := Hold(s, 0)]);
    var finished := Apply(running, Finish(w), key);
    assert finished == running.Moved(w, Releasing(s), running.locks);
  }

  /** A tick without the lock takes nothing and leaves nothing when it ends. */
  lemma OpenTickTouchesNoLock(c: Cluster, key: Job -> int, w: Worker)
    requires c.PhaseOf(w) == Idle
    ensures
      var running := Apply(c, FailOpen(w, None), key);
      var done := Apply(running, Finish(w), key);
      running.PhaseOf(w) == Open && done.PhaseOf(w) == Idle && running.locks == done.locks == c.locks
  {
  }

  /** Whoever held the key, the end of its session hands the job to the next session that asks: a
      crash of its instance, or the end of a pooled session. */
  lemma EndedSessionFreesJob(c: Cluster, end: Step, key: Job -> int, w: Worker, t: Session)
    requires key(w.job) in c.locks
    requires
      var s := c.locks[key(w.job)].session;
      || (end == PooledSessionEnds(s) && c.Pooled(s))
      || (&& end.Crash? && s in end.dead
          && forall v :: Attached(c.PhaseOf(v)) ==> (v.instance == end.instance <==> c.PhaseOf(v).session in end.dead))
    requires Apply(c, end, key).PhaseOf(w) == Idle && Apply(c, end, key).Pooled(t)
    ensures Apply(Apply(c, end, key), Acquire(w, t), key).PhaseOf(w) == Holding(t)
  {
  }

  // ----- what the hypotheses exclude -----

  /** A grant of a key that no tick will give back: its session holds the key beyond what a tick of
      that session under the key would release. */
  ghost predicate Pinned(c: Cluster, key: Job -> int, k: int, s: Session) {
    && HeldBy(c.locks, k, s)
    && forall w :: Locked(c.PhaseOf(w)) && c.PhaseOf(w).session == s && key(w.job) == k ==> c.locks[k].again >= 1
  }

  /** A step that ends a session. */
  ghost predicate Ends(c: Cluster, step: Step, s: Session) {
    match step
    case Crash(_, dead) => s in dead
    case PooledSessionEnds(t) => t == s
    case ReleaseError(w, dropped) => dropped && Attached(c.PhaseOf(w)) && c.PhaseOf(w).session == s
    case SessionLost(w) => Attached(c.PhaseOf(w)) && c.PhaseOf(w).session == s
    case _ => false
  }

  /** What a leak leaves behind is pinned to the session it returned to the pool. */
  lemma LeakPins(c: Cluster, step: Step, key: Job -> int)
    requires OneTickPerSession(c) && LocksMatch(c, key) && Leaks(c, step, key)
    ensures Pinned(Apply(c, step, key), key, key(step.w.job), LeakedSession(c, step, key))
  {
    var d := Apply(c, step, key);
    assert forall v :: v != step.w ==> d.PhaseOf(v) == c.PhaseOf(v);
  }

  /** Session locks are re-entrant: taking the key again and releasing it gives back one grant, and
      only the end of the session gives back the pinned one. */
  lemma StepKeepsPinned(c: Cluster, step: Step, key: Job -> int, k: int, s: Session)
    requires OneTickPerSession(c) && LocksMatch(c, key) && Pinned(c, key, k, s) && !Ends(c, step, s)
    ensures Pinned(Apply(c, step, key), key, k, s)
  {
    var d := Apply(c, step, key);
    assert HeldBy(d.locks, k, s);
    forall w | Locked(d.PhaseOf(w)) && d.PhaseOf(w).session == s && key(w.job) == k
      ensures d.locks[k].again >= 1
    {
      SessionOrigin(c, step, key, w);
    }
  }

  /** No step of the continuation ends the session. */
  ghost predicate Outlives(steps: seq<Step>, more: seq<Step>, key: Job -> int, s: Session) {
    forall j :: 0 <= j < |more| ==> !Ends(Exec(steps + more[..j], key), more[j], s)
  }

  lemma {:induction false} PinnedThrough(steps: seq<Step>, more: seq<Step>, key: Job -> int, k: int, s: Session)
    requires Pinned(Exec(steps, key), key, k, s) && Outlives(steps, more, key, s)
    ensures Pinned(Exec(steps + more, key), key, k, s)
    decreases |more|
  {
    hide Apply, Pinned, Ends;
    if more == [] {
      assert steps + more == steps;
    } else {
      var n := |more| - 1;
      assert (steps + more)[..|steps| + n] == steps + more[..n];
      assert forall j :: 0 <= j < n ==> more[..n][..j] == more[..j];
      PinnedThrough(steps, more[..n], key, k, s);
      AlwaysExclusive(steps + more[..n], key);
      StepKeepsPinned(Exec(steps + more[..n], key), more[n], key, k, s);
    }
  }

  /** Only ticks of one session run under the key's lock, and every other session that asks for it is
      refused. */
  ghost predicate Starved(c: Cluster, key: Job -> int, k: int, s: Session) {
    && (forall w: Worker :: key(w.job) == k && Locked(c.PhaseOf(w)) ==> c.PhaseOf(w).session == s)
    && forall w: Worker, t: Session :: key(w.job) == k && c.PhaseOf(w) == Idle && c.Pooled(t) && t != s ==>
         Apply(c, Acquire(w, t), key).PhaseOf(w) == Skipping(t)
  }

  /** A pinned lock starves its jobs: through any further run, whatever its session is checked out for
      in between, no other session runs them under the lock and every other acquire is refused, until
      that session ends. */
  lemma PinnedLockStarvesJob(steps: seq<Step>, more: seq<Step>, key: Job -> int, k: int, s: Session)
    requires Pinned(Exec(steps, key), key, k, s) && Outlives(steps, more, key, s)
    ensures Starved(Exec(steps + more, key), key, k, s)
  {
    hide Exec;
    PinnedThrough(steps, more, key, k, s);
    AlwaysExclusive(steps + more, key);
    var c := Exec(steps + more, key);
    forall w: Worker | key(w.job) == k && Locked(c.PhaseOf(w))
      ensures c.PhaseOf(w).session == s
    {
      assert HeldBy(c.locks, k, c.PhaseOf(w).session);
    }
  }

  /** So every leak, in any run, starves its job until the leaked session ends. */
  lemma LeakStarvesJob(steps: seq<Step>, leak: Step, more: seq<Step>, key: Job -> int)
    requires Leaks(Exec(steps, key), leak, key)
    ensures
      var s := LeakedSession(Exec(steps, key), leak, key);
      Outlives(steps + [leak], more, key, s) ==>
        Starved(Exec(steps + [leak] + more, key), key, key(leak.w.job), s)
  {
    hide Starved, Outlives, Pinned, Apply;
    var s := LeakedSession(Exec(steps, key), leak, key);
    AlwaysExclusive(steps, key);
    LeakPins(Exec(steps, key), leak, key);
    assert (steps + [leak])[..|steps|] == steps;
    if Outlives(steps + [leak], more, key, s) {
      PinnedLockStarvesJob(steps + [leak], more, key, key(leak.w.job), s);
    }
  }

  /** A leak does happen: a tick that runs, finishes and fails to unlock on a session that lives on. */
  lemma FailedUnlockLeaks(key: Job -> int, job: Job)
    ensures
      var v := Worker(0, job);
      Leaks(Exec([Acquire(v, 0), Finish(v)], key), ReleaseError(v, false), key)
  {
    var v := Worker(0, job);
    AcquireFromEmpty(key, v);
    assert [Acquire(v, 0), Finish(v)][..1] == [Acquire(v, 0)];
  }

  lemma AcquireFromEmpty(key: Job -> int, v: Worker)
    ensures Exec([Acquire(v, 0)], key) == Cluster(map[key(v.job) := Hold(0, 0)], map[v := Holding(0)])
  {
    assert [Acquire(v, 0)][..0] == [];
    assert Exec([], key).Pooled(0);
  }

  /** And a session that ends under a running tick lets two ticks of one job overlap: the dropped lock
      is granted again while the first tick is still inside. */
  lemma LostSessionAllowsOverlap(key: Job -> int, job: Job)
    ensures
      var v, w := Worker(0, job), Worker(1, job);
      var c := Exec([Acquire(v, 0), SessionLost(v), Acquire(w, 1)], key);
      Inside(c.PhaseOf(v)) && c.PhaseOf(w) == Holding(1)
  {
    var v, w := Worker(0, job), Worker(1, job);
    var a, l, b := Acquire(v, 0), SessionLost(v), Acquire(w, 1);
    AcquireFromEmpty(key, v);
    assert [a, l, b][..2] == [a, l] && [a, l][..1] == [a];
    var lost := Exec([a, l], key);
    assert lost.locks == map[] && lost.PhaseOf(v) == Open;
    assert lost.Pooled(1);
  }
}
