/**
 The two fixed-window rate limiters of `backend/app/core/ratelimit.py`: the per-process
 dictionary, and the Redis counter every instance shares. The clock is read before the memory
 limiter's lock is taken, so its calls may come in any order of their readings; Redis expires keys by
 the clock its calls read. Times are integers.
 */
module RateLimit {
  import opened Money
  import opened Text

  type Key = string

  function Bucket(now: int, window: int): int
    requires window > 0
  {
    now / window
  }

  /** Bucket `b` is the stretch of time from `b` to `b + 1` windows. */
  lemma BucketIsInterval(now: int, window: int, b: int)
    requires window > 0
    ensures Bucket(now, window) == b <==> b * window <= now < (b + 1) * window
  {
    var q, r := now / window, now % window;
    assert now == window * q + r;
    assert q < b ==> window * (q + 1) <= window * b;
    assert b < q ==> window * (b + 1) <= window * q;
  }

  // ----- memory -----

  type Counts = map<Key, (int, int)>

  function MemoryStep(counts: Counts, key: Key, limit: int, window: int, now: int): (Counts, bool)
    requires window > 0
  {
    if limit <= 0 then (counts, true)
    else
      var b := Bucket(now, window);
      if key !in counts || counts[key].0 != b then (counts[key := (b, 1)], true)
      else if counts[key].1 >= limit then (counts, false)
      else (counts[key := (counts[key].0, counts[key].1 + 1)], true)
  }

  class InMemoryFixedWindow {
    var counts: Counts

    constructor ()
      ensures counts == map[]
    {
      counts := map[];
    }

    method Allow(key: Key, limit: int, window: int, now: int) returns (ok: bool)
      requires window > 0
      modifies this
      ensures (counts, ok) == MemoryStep(old(counts), key, limit, window, now)
    {
      if limit <= 0 {
        return true;
      }
      var bucket := Bucket(now, window);
      if key !in counts || counts[key].0 != bucket {
        counts := counts[key := (bucket, 1)];
        return true;
      }
      var (windowBucket, count) := counts[key];
      if count >= limit {
        return false;
      }
      counts := counts[key := (windowBucket, count + 1)];
      return true;
    }
  }

  // ----- Redis -----

  datatype Counter = Counter(count: nat, expiresAt: int)

  type Store = map<string, Counter>

  predicate LiveAt(store: Store, k: string, now: int) {
    k in store && now < store[k].expiresAt
  }

  /** The Lua script: INCR, and EXPIRE on the first hit only. */
  function Increment(store: Store, k: string, window: int, now: int): (r: (Store, nat))
    ensures k in r.0 && r.0[k].count == r.1
  {
    if LiveAt(store, k, now) then
      (store[k := Counter(store[k].count + 1, store[k].expiresAt)], store[k].count + 1)
    else (store[k := Counter(1, now + window)], 1)
  }

  function Signed(n: int): string {
    if n < 0 then "-" + Digits(-n) else Digits(n)
  }

  function RedisKey(key: Key, bucket: int): string {
    "varsten:rl:" + key + ":" + Signed(bucket)
  }

  /** Distinct (key, bucket) pairs have distinct Redis keys, whatever colons a key contains. */
  lemma RedisKeyInjective(k: Key, b: int, l: Key, c: int)
    requires RedisKey(k, b) == RedisKey(l, c)
    ensures k == l && b == c
  {
    hide Digits;
    LastFieldDetermines("varsten:rl:" + k, Signed(b), "varsten:rl:" + l, Signed(c), ':');
    assert ("varsten:rl:" + k)[11..] == k && ("varsten:rl:" + l)[11..] == l;
    SignedInjective(b, c);
  }

  lemma SignIsFirst(n: int)
    ensures Signed(n) != [] && (Signed(n)[0] == '-' <==> n < 0)
  {
    hide Digits;
    assert n >= 0 ==> Signed(n)[0] in Digits(n);
  }

  lemma SignedInjective(b: int, c: int)
    requires Signed(b) == Signed(c)
    ensures b == c
  {
    hide Digits;
    SignIsFirst(b);
    SignIsFirst(c);
    if b < 0 {
      assert Signed(b)[1..] == Digits(-b) && Signed(c)[1..] == Digits(-c);
      DigitsInjective(-b, -c);
    } else {
      DigitsInjective(b, c);
    }
  }

  /** How a call's script run went: an error may strike before or after Redis applied it. */
  datatype Outcome = Ok | Error(applied: bool)

  function RedisStep(store: Store, key: Key, limit: int, window: int, now: int, outcome: Outcome): (Store, bool)
    requires window > 0
  {
    if limit <= 0 then (store, true)
    else
      var (after, count) := Increment(store, RedisKey(key, Bucket(now, window)), window, now);
      if outcome.Ok? then (after, count <= limit)
      else (if outcome.applied then after else store, true)
  }

  class RedisFixedWindow {
    var store: Store

    constructor ()
      ensures store == map[]
    {
      store := map[];
    }

    method Allow(key: Key, limit: int, window: int, now: int, outcome: Outcome) returns (ok: bool)
      requires window > 0
      modifies this
      ensures (store, ok) == RedisStep(old(store), key, limit, window, now, outcome)
    {
      if limit <= 0 {
        return true;
      }
      var redisKey := RedisKey(key, Bucket(now, window));
      var (after, count) := Increment(store, redisKey, window, now);
      if outcome.Ok? || outcome.applied {
        store := after;
      }
      return outcome.Error? || count <= limit;
    }
  }

  /** Without a limit a call is admitted and counted nowhere. */
  lemma UnlimitedCallsAreNotCounted(
    counts: Counts, store: Store, key: Key, limit: int, window: int, now: int, outcome: Outcome)
    requires window > 0 && limit <= 0
    ensures MemoryStep(counts, key, limit, window, now) == (counts, true)
    ensures RedisStep(store, key, limit, window, now, outcome) == (store, true)
  {
  }

  // ----- runs of calls -----

  datatype Call = Call(key: Key, now: int, outcome: Outcome)

  /** The limit and window each key is called with. */
  datatype Config = Config(limit: Key -> int, window: Key -> int) {
    ghost predicate Valid() {
      forall k :: window(k) > 0
    }

    ghost function BucketOf(c: Call): int
      requires Valid()
    {
      Bucket(c.now, window(c.key))
    }
  }

  /** A key's calls come in the order of their clock readings. */
  predicate InOrder(calls: seq<Call>, key: Key) {
    forall i, j :: 0 <= i < j < |calls| && calls[i].key == key == calls[j].key ==> calls[i].now <= calls[j].now
  }

  ghost function MemoryAfter(calls: seq<Call>, cfg: Config): Counts
    requires cfg.Valid()
  {
    if calls == [] then map[]
    else
      var c := calls[|calls| - 1];
      MemoryStep(MemoryAfter(calls[..|calls| - 1], cfg), c.key, cfg.limit(c.key), cfg.window(c.key), c.now).0
  }

  /** The memory limiter's answer to a call made after a run of calls. */
  ghost predicate MemoryAllows(before: seq<Call>, c: Call, cfg: Config)
    requires cfg.Valid()
  {
    MemoryStep(MemoryAfter(before, cfg), c.key, cfg.limit(c.key), cfg.window(c.key), c.now).1
  }

  ghost function RedisAfter(calls: seq<Call>, cfg: Config): Store
    requires cfg.Valid()
  {
    if calls == [] then map[]
    else
      var c := calls[|calls| - 1];
      RedisStep(RedisAfter(calls[..|calls| - 1], cfg), c.key, cfg.limit(c.key), cfg.window(c.key), c.now, c.outcome).0
  }

  ghost predicate RedisAllows(before: seq<Call>, c: Call, cfg: Config)
    requires cfg.Valid()
  {
    RedisStep(RedisAfter(before, cfg), c.key, cfg.limit(c.key), cfg.window(c.key), c.now, c.outcome).1
  }

  /** Whether a call falls in a key's bucket. */
  ghost predicate Hits(c: Call, key: Key, b: int, cfg: Config)
    requires cfg.Valid()
  {
    c.key == key && cfg.BucketOf(c) == b
  }

  /** How many calls fall in a bucket. */
  ghost function Made(calls: seq<Call>, key: Key, b: int, cfg: Config): nat
    requires cfg.Valid()
  {
    if calls == [] then 0
    else Made(calls[..|calls| - 1], key, b, cfg) + (if Hits(calls[|calls| - 1], key, b, cfg) then 1 else 0)
  }

  /** How many of them Redis counted. */
  ghost function Counted(calls: seq<Call>, key: Key, b: int, cfg: Config): nat
    requires cfg.Valid()
  {
    if calls == [] then 0
    else
      var c := calls[|calls| - 1];
      Counted(calls[..|calls| - 1], key, b, cfg)
      + (if Hits(c, key, b, cfg) && (c.outcome.Ok? || c.outcome.applied) then 1 else 0)
  }

  // ----- the memory limiter against the count -----

  /** The length of the run of calls in a bucket that a key's calls end with; other keys' calls do not
      interrupt it. */
  ghost function Block(calls: seq<Call>, key: Key, b: int, cfg: Config): nat
    requires cfg.Valid()
  {
    if calls == [] then 0
    else
      var before, c := calls[..|calls| - 1], calls[|calls| - 1];
      if c.key != key then Block(before, key, b, cfg)
      else if Hits(c, key, b, cfg) then Block(before, key, b, cfg) + 1
      else 0
  }

  /** The dictionary holds the bucket of the key's last call, and how many of its block were admitted. */
  ghost predicate MemoryTracks(calls: seq<Call>, key: Key, cfg: Config)
    requires cfg.Valid()
  {
    var counts := MemoryAfter(calls, cfg);
    if key !in counts then forall b :: Block(calls, key, b, cfg) == 0
    else
      && counts[key].1 == Min(cfg.limit(key), Block(calls, key, counts[key].0, cfg))
      && counts[key].1 >= 1
      && forall b :: b != counts[key].0 ==> Block(calls, key, b, cfg) == 0
  }

  lemma MemoryStepTracks(before: seq<Call>, c: Call, key: Key, cfg: Config)
    requires cfg.Valid() && cfg.limit(key) > 0 && MemoryTracks(before, key, cfg)
    ensures MemoryTracks(before + [c], key, cfg)
  {
    hide Bucket;
    var calls := before + [c];
    assert calls[..|calls| - 1] == before;
    assert forall b :: c.key != key ==> Block(calls, key, b, cfg) == Block(before, key, b, cfg);
    assert forall b :: Hits(c, key, b, cfg) ==> Block(calls, key, b, cfg) == Block(before, key, b, cfg) + 1;
  }

  lemma {:induction false} MemoryAlwaysTracks(calls: seq<Call>, key: Key, cfg: Config)
    requires cfg.Valid() && cfg.limit(key) > 0
    ensures MemoryTracks(calls, key, cfg)
  {
    hide MemoryTracks;
    if calls == [] {
      EmptyTracks(key, cfg);
    } else {
      var n := |calls| - 1;
      MemoryAlwaysTracks(calls[..n], key, cfg);
      assert calls == calls[..n] + [calls[n]];
      MemoryStepTracks(calls[..n], calls[n], key, cfg);
    }
  }

  lemma EmptyTracks(key: Key, cfg: Config)
    requires cfg.Valid()
    ensures MemoryTracks([], key, cfg)
  {
  }

  /** Whatever the order of the readings, the memory limiter admits a call exactly while the block it
      continues is shorter than the limit. */
  lemma MemoryAdmitsByBlock(before: seq<Call>, c: Call, cfg: Config)
    requires cfg.Valid()
    ensures MemoryAllows(before, c, cfg) <==>
              cfg.limit(c.key) <= 0 || Block(before, c.key, cfg.BucketOf(c), cfg) < cfg.limit(c.key)
  {
    hide Block, Bucket, MemoryAfter;
    if cfg.limit(c.key) > 0 {
      MemoryAlwaysTracks(before, c.key, cfg);
    }
  }

  /** No call of another bucket of the key follows one of this bucket. */
  ghost predicate Unbroken(calls: seq<Call>, key: Key, b: int, cfg: Config)
    requires cfg.Valid()
  {
    forall i, j :: 0 <= i < j < |calls| && Hits(calls[i], key, b, cfg) && calls[j].key == key ==>
      Hits(calls[j], key, b, cfg)
  }

  /** The bucket's calls arrive without one of another bucket of the key between them. */
  ghost predicate OneBlock(calls: seq<Call>, key: Key, b: int, cfg: Config)
    requires cfg.Valid()
  {
    forall i, j, k ::
      0 <= i < j < k < |calls| && Hits(calls[i], key, b, cfg) && calls[j].key == key && Hits(calls[k], key, b, cfg) ==>
        Hits(calls[j], key, b, cfg)
  }

  /** The last block holds at most the bucket's calls, and all of them exactly if it is unbroken. */
  lemma {:induction false} BlockIsAllIff(calls: seq<Call>, key: Key, b: int, cfg: Config)
    requires cfg.Valid()
    ensures Block(calls, key, b, cfg) <= Made(calls, key, b, cfg)
    ensures Block(calls, key, b, cfg) == Made(calls, key, b, cfg) <==> Unbroken(calls, key, b, cfg)
    ensures Made(calls, key, b, cfg) == 0 <==> forall i :: 0 <= i < |calls| ==> !Hits(calls[i], key, b, cfg)
  {
    hide Hits;
    if calls != [] {
      var n := |calls| - 1;
      var before, c := calls[..n], calls[n];
      BlockIsAllIff(before, key, b, cfg);
      assert forall i :: 0 <= i < n ==> before[i] == calls[i];
      HitsKey(c, key, b, cfg);
      UnbrokenSnoc(calls, key, b, cfg);
      if Made(before, key, b, cfg) != 0 {
        var i :| 0 <= i < n && Hits(before[i], key, b, cfg);
        assert Hits(calls[i], key, b, cfg);
      }
    }
  }

  lemma HitsKey(c: Call, key: Key, b: int, cfg: Config)
    requires cfg.Valid()
    ensures Hits(c, key, b, cfg) ==> c.key == key
  {
  }

  lemma UnbrokenSnoc(calls: seq<Call>, key: Key, b: int, cfg: Config)
    requires cfg.Valid() && calls != []
    ensures
      var before, c := calls[..|calls| - 1], calls[|calls| - 1];
      Unbroken(calls, key, b, cfg) <==>
        && Unbroken(before, key, b, cfg)
        && (c.key == key && !Hits(c, key, b, cfg) ==>
              forall i :: 0 <= i < |before| ==> !Hits(before[i], key, b, cfg))
  {
    hide Hits;
    var n := |calls| - 1;
    assert forall i :: 0 <= i < n ==> calls[..n][i] == calls[i];
  }

  /** A call of the bucket leaves it in one block exactly if the block it continues holds all before. */
  lemma OneBlockSnoc(calls: seq<Call>, key: Key, b: int, cfg: Config)
    requires cfg.Valid() && calls != []
    ensures
      var before, c := calls[..|calls| - 1], calls[|calls| - 1];
      OneBlock(calls, key, b, cfg) <==>
        if Hits(c, key, b, cfg) then Unbroken(before, key, b, cfg) else OneBlock(before, key, b, cfg)
  {
    hide Hits;
    var n := |calls| - 1;
    assert forall i :: 0 <= i < n ==> calls[..n][i] == calls[i];
  }

  /** A bucket in one block that the key has not left is all in its last block. */
  lemma {:induction false} CurrentBlockIsAll(calls: seq<Call>, key: Key, b: int, cfg: Config)
    requires cfg.Valid() && OneBlock(calls, key, b, cfg) && Block(calls, key, b, cfg) > 0
    ensures Block(calls, key, b, cfg) == Made(calls, key, b, cfg)
  {
    hide OneBlock, Unbroken;
    var n := |calls| - 1;
    OneBlockSnoc(calls, key, b, cfg);
    BlockIsAllIff(calls[..n], key, b, cfg);
    if calls[n].key != key {
      CurrentBlockIsAll(calls[..n], key, b, cfg);
    }
  }

  /** In clock order every bucket is one block, and a call continues all of its bucket's. */
  lemma OrderedCallsFormBlocks(calls: seq<Call>, key: Key, b: int, cfg: Config)
    requires cfg.Valid() && InOrder(calls, key)
    ensures OneBlock(calls, key, b, cfg)
  {
    hide Bucket;
    forall i, j, k |
      0 <= i < j < k < |calls| && Hits(calls[i], key, b, cfg) && calls[j].key == key && Hits(calls[k], key, b, cfg)
      ensures Hits(calls[j], key, b, cfg)
    {
      BucketMonotone(calls[i].now, calls[j].now, cfg.window(key));
      BucketMonotone(calls[j].now, calls[k].now, cfg.window(key));
    }
  }

  lemma BucketMonotone(s: int, t: int, window: int)
    requires window > 0 && s <= t
    ensures Bucket(s, window) <= Bucket(t, window)
  {
    var p, q := s / window, t / window;
    assert q < p ==> window * (q + 1) <= window * p;
  }

  /** So in clock order the memory limiter admits a call exactly while its bucket has seen fewer calls
      than the limit. */
  lemma MemoryAdmitsByCount(before: seq<Call>, c: Call, cfg: Config)
    requires cfg.Valid() && InOrder(before + [c], c.key)
    ensures MemoryAllows(before, c, cfg) <==>
              cfg.limit(c.key) <= 0 || Made(before, c.key, cfg.BucketOf(c), cfg) < cfg.limit(c.key)
  {
    hide Made, Block, MemoryAllows, OneBlock, Unbroken;
    var calls, b := before + [c], cfg.BucketOf(c);
    assert calls[..|before|] == before;
    MemoryAdmitsByBlock(before, c, cfg);
    OrderedCallsFormBlocks(calls, c.key, b, cfg);
    OneBlockSnoc(calls, c.key, b, cfg);
    BlockIsAllIff(before, c.key, b, cfg);
  }

  // ----- the Redis limiter against the count -----

  /** The end of a bucket: the first instant after it. */
  function BucketEnd(b: int, window: int): int {
    (b + 1) * window
  }

  lemma BucketBounds(now: int, window: int)
    requires window > 0
    ensures now < BucketEnd(Bucket(now, window), window) <= now + window
  {
  }

  /** A bucket that was counted has a counter equal to its count that outlives the bucket, by less than
      a window; one that was not has none. */
  ghost predicate RedisTracks(calls: seq<Call>, key: Key, b: int, cfg: Config)
    requires cfg.Valid()
  {
    var store, k := RedisAfter(calls, cfg), RedisKey(key, b);
    var n := Counted(calls, key, b, cfg);
    if n == 0 then k !in store
    else
      && k in store && store[k].count == n
      && BucketEnd(b, cfg.window(key)) <= store[k].expiresAt < BucketEnd(b, cfg.window(key)) + cfg.window(key)
  }

  /** A call touches the counter of its own bucket and no other. */
  lemma RedisStepFrame(store: Store, c: Call, key: Key, b: int, cfg: Config)
    requires cfg.Valid() && !Hits(c, key, b, cfg)
    ensures
      var after := RedisStep(store, c.key, cfg.limit(c.key), cfg.window(c.key), c.now, c.outcome).0;
      var k := RedisKey(key, b);
      (k in after <==> k in store) && (k in store ==> after[k] == store[k])
  {
    hide Bucket, RedisKey;
    if RedisKey(c.key, cfg.BucketOf(c)) == RedisKey(key, b) {
      RedisKeyInjective(c.key, cfg.BucketOf(c), key, b);
    }
  }

  lemma RedisStepTracks(before: seq<Call>, c: Call, key: Key, b: int, cfg: Config)
    requires cfg.Valid() && cfg.limit(key) > 0 && RedisTracks(before, key, b, cfg)
    ensures RedisTracks(before + [c], key, b, cfg)
  {
    hide Bucket, RedisKey, BucketEnd;
    var calls := before + [c];
    assert calls[..|calls| - 1] == before;
    if Hits(c, key, b, cfg) {
      BucketBounds(c.now, cfg.window(key));
    } else {
      RedisStepFrame(RedisAfter(before, cfg), c, key, b, cfg);
    }
  }

  /** The TTL, set on a bucket's first hit only, never resets a count while its bucket lasts. */
  lemma {:induction false} TtlNeverResetsBucket(calls: seq<Call>, key: Key, b: int, cfg: Config)
    requires cfg.Valid() && cfg.limit(key) > 0
    ensures RedisTracks(calls, key, b, cfg)
  {
    hide RedisTracks;
    if calls == [] {
      EmptyRedisTracks(key, b, cfg);
    } else {
      var n := |calls| - 1;
      TtlNeverResetsBucket(calls[..n], key, b, cfg);
      assert calls == calls[..n] + [calls[n]];
      RedisStepTracks(calls[..n], calls[n], key, b, cfg);
    }
  }

  lemma EmptyRedisTracks(key: Key, b: int, cfg: Config)
    requires cfg.Valid()
    ensures RedisTracks([], key, b, cfg)
  {
  }

  /** The Redis limiter admits an answered call exactly while its bucket has been counted fewer
      times than the limit, and every errored call. */
  lemma RedisAdmitsByCount(before: seq<Call>, c: Call, cfg: Config)
    requires cfg.Valid()
    ensures RedisAllows(before, c, cfg) <==>
              || cfg.limit(c.key) <= 0
              || c.outcome.Error?
              || Counted(before, c.key, cfg.BucketOf(c), cfg) < cfg.limit(c.key)
  {
    hide Bucket, RedisKey, BucketEnd, Counted, RedisAfter;
    if cfg.limit(c.key) > 0 {
      TtlNeverResetsBucket(before, c.key, cfg.BucketOf(c), cfg);
      BucketBounds(c.now, cfg.window(c.key));
    }
  }

  // ----- the promises -----

  predicate ErrorFree(calls: seq<Call>) {
    forall c :: c in calls ==> c.outcome.Ok?
  }

  lemma {:induction false} ErrorFreeCountsAll(calls: seq<Call>, key: Key, b: int, cfg: Config)
    requires cfg.Valid() && ErrorFree(calls)
    ensures Counted(calls, key, b, cfg) == Made(calls, key, b, cfg)
  {
    hide Hits;
    if calls != [] {
      ErrorFreeCountsAll(calls[..|calls| - 1], key, b, cfg);
    }
  }

  /** Without Redis errors the back ends answer a call alike if and only if its bucket is not full or
      the block it continues is; otherwise only the memory limiter admits it. */
  lemma BackEndsAgreeIff(before: seq<Call>, c: Call, cfg: Config)
    requires cfg.Valid() && ErrorFree(before + [c])
    ensures
      var b, limit := cfg.BucketOf(c), cfg.limit(c.key);
      && (MemoryAllows(before, c, cfg) == RedisAllows(before, c, cfg) <==>
            limit <= 0 || Made(before, c.key, b, cfg) < limit || Block(before, c.key, b, cfg) >= limit)
      && (RedisAllows(before, c, cfg) ==> MemoryAllows(before, c, cfg))
  {
    hide Made, Block, Counted, MemoryAllows, RedisAllows, Unbroken;
    var calls, b := before + [c], cfg.BucketOf(c);
    assert c in calls && forall d :: d in before ==> d in calls;
    MemoryAdmitsByBlock(before, c, cfg);
    RedisAdmitsByCount(before, c, cfg);
    ErrorFreeCountsAll(before, c.key, b, cfg);
    BlockIsAllIff(before, c.key, b, cfg);
  }

  /** One interface, one behaviour: where each key's calls come in clock order and without Redis
      errors, the two back ends answer every call alike. */
  lemma BackEndsAgree(calls: seq<Call>, i: nat, cfg: Config)
    requires cfg.Valid() && i < |calls| && InOrder(calls, calls[i].key) && ErrorFree(calls)
    ensures MemoryAllows(calls[..i], calls[i], cfg) <==> RedisAllows(calls[..i], calls[i], cfg)
  {
    hide Made, Counted, MemoryAllows, RedisAllows;
    var before, c := calls[..i], calls[i];
    assert before + [c] == calls[..i + 1];
    MemoryAdmitsByCount(before, c, cfg);
    RedisAdmitsByCount(before, c, cfg);
    ErrorFreeCountsAll(before, c.key, cfg.BucketOf(c), cfg);
  }

  /** What is tallied: the calls a back end admits, or of Redis's the answered or the errored ones. */
  datatype Tally = ByMemory | ByRedis | Answered | Errored

  ghost predicate Passes(before: seq<Call>, c: Call, cfg: Config, t: Tally)
    requires cfg.Valid()
  {
    match t
    case ByMemory => MemoryAllows(before, c, cfg)
    case ByRedis => RedisAllows(before, c, cfg)
    case Answered => c.outcome.Ok? && RedisAllows(before, c, cfg)
    case Errored => c.outcome.Error?
  }

  /** How many calls of a bucket pass. */
  ghost function Admitted(calls: seq<Call>, key: Key, b: int, cfg: Config, t: Tally): nat
    requires cfg.Valid()
  {
    if calls == [] then 0
    else
      var before, c := calls[..|calls| - 1], calls[|calls| - 1];
      Admitted(before, key, b, cfg, t) + (if Hits(c, key, b, cfg) && Passes(before, c, cfg, t) then 1 else 0)
  }

  /** The calls Redis counted and admitted stay within the limit; an errored call is always admitted. */
  lemma {:induction false} AnsweredWithinLimit(calls: seq<Call>, key: Key, b: int, cfg: Config)
    requires cfg.Valid() && cfg.limit(key) > 0
    ensures Admitted(calls, key, b, cfg, Answered) <= Min(Counted(calls, key, b, cfg), cfg.limit(key))
    ensures Admitted(calls, key, b, cfg, ByRedis)
            == Admitted(calls, key, b, cfg, Answered) + Admitted(calls, key, b, cfg, Errored)
  {
    hide RedisAllows, Bucket;
    if calls != [] {
      var n := |calls| - 1;
      AnsweredWithinLimit(calls[..n], key, b, cfg);
      RedisAdmitsByCount(calls[..n], calls[n], cfg);
    }
  }

  /** Across any number of instances, a bucket admits at most the limit plus the calls that errored. */
  lemma AdmitsLimitPlusErrors(calls: seq<Call>, key: Key, b: int, cfg: Config)
    requires cfg.Valid() && cfg.limit(key) > 0
    ensures Admitted(calls, key, b, cfg, ByRedis) <= cfg.limit(key) + Admitted(calls, key, b, cfg, Errored)
  {
    hide Admitted;
    AnsweredWithinLimit(calls, key, b, cfg);
  }

  /** Without errors Redis admits exactly the smaller of a bucket's calls and the limit. */
  lemma {:induction false} RedisAdmitsUpToLimit(calls: seq<Call>, key: Key, b: int, cfg: Config)
    requires cfg.Valid() && cfg.limit(key) > 0 && ErrorFree(calls)
    ensures Admitted(calls, key, b, cfg, ByRedis) == Min(Made(calls, key, b, cfg), cfg.limit(key))
  {
    hide RedisAllows, Bucket, Counted;
    if calls != [] {
      var n := |calls| - 1;
      RedisAdmitsUpToLimit(calls[..n], key, b, cfg);
      RedisAdmitsByCount(calls[..n], calls[n], cfg);
      ErrorFreeCountsAll(calls[..n], key, b, cfg);
    }
  }

  /** Whatever the order of the readings, the memory limiter admits at least the smaller of a bucket's
      calls and the limit; it admits exactly that if and only if the bucket stays within the limit
      anyway or its calls arrive in one block. */
  lemma {:induction false} MemoryAdmitsUpToLimitIff(calls: seq<Call>, key: Key, b: int, cfg: Config)
    requires cfg.Valid() && cfg.limit(key) > 0
    ensures
      var made, admitted := Made(calls, key, b, cfg), Admitted(calls, key, b, cfg, ByMemory);
      && Min(made, cfg.limit(key)) <= admitted <= made
      && (admitted == Min(made, cfg.limit(key)) <==> made <= cfg.limit(key) || OneBlock(calls, key, b, cfg))
  {
    hide MemoryAllows, Bucket, Block, OneBlock, Unbroken;
    if calls != [] {
      var n := |calls| - 1;
      var before, c := calls[..n], calls[n];
      MemoryAdmitsUpToLimitIff(before, key, b, cfg);
      MemoryAdmitsByBlock(before, c, cfg);
      OneBlockSnoc(calls, key, b, cfg);
      BlockIsAllIff(before, key, b, cfg);
      UnbrokenIsOneBlock(before, key, b, cfg);
      if OneBlock(before, key, b, cfg) && Block(before, key, b, cfg) > 0 {
        CurrentBlockIsAll(before, key, b, cfg);
      }
    }
  }

  lemma UnbrokenIsOneBlock(calls: seq<Call>, key: Key, b: int, cfg: Config)
    requires cfg.Valid()
    ensures Unbroken(calls, key, b, cfg) ==> OneBlock(calls, key, b, cfg)
  {
    hide Hits;
  }

  /** In clock order both limiters, Redis without errors, admit exactly the smaller of a bucket's calls
      and the limit. */
  lemma AdmitsExactlyUpToLimit(calls: seq<Call>, key: Key, b: int, cfg: Config)
    requires cfg.Valid() && cfg.limit(key) > 0
    ensures
      var expected := Min(Made(calls, key, b, cfg), cfg.limit(key));
      && (InOrder(calls, key) ==> Admitted(calls, key, b, cfg, ByMemory) == expected)
      && (ErrorFree(calls) ==> Admitted(calls, key, b, cfg, ByRedis) == expected)
  {
    hide Admitted, Made, OneBlock;
    if InOrder(calls, key) {
      OrderedCallsFormBlocks(calls, key, b, cfg);
      MemoryAdmitsUpToLimitIff(calls, key, b, cfg);
    }
    if ErrorFree(calls) {
      RedisAdmitsUpToLimit(calls, key, b, cfg);
    }
  }

  /** How many of a key's calls in a span of time pass. */
  ghost function AdmittedInSpan(calls: seq<Call>, key: Key, lo: int, hi: int, cfg: Config, t: Tally): nat
    requires cfg.Valid()
  {
    if calls == [] then 0
    else
      var before, c := calls[..|calls| - 1], calls[|calls| - 1];
      AdmittedInSpan(before, key, lo, hi, cfg, t)
      + (if c.key == key && lo <= c.now < hi && Passes(before, c, cfg, t) then 1 else 0)
  }

  lemma SpanMeetsTwoBuckets(lo: int, t: int, window: int)
    requires window > 0 && lo <= t < lo + window
    ensures Bucket(t, window) == Bucket(lo, window) || Bucket(t, window) == Bucket(lo, window) + 1
  {
    hide Bucket;
    BucketMonotone(lo, t, window);
    BucketMonotone(t, lo + window, window);
    NextBucket(lo, window);
  }

  lemma NextBucket(t: int, window: int)
    requires window > 0
    ensures Bucket(t + window, window) == Bucket(t, window) + 1
  {
    var q, r := t / window, t % window;
    assert t + window == window * (q + 1) + r;
    QuotientUnique(t + window, window, q + 1, r);
  }

  lemma QuotientUnique(x: int, d: int, q: int, r: int)
    requires d > 0 && 0 <= r < d && x == d * q + r
    ensures x / d == q
  {
    var p, s := x / d, x % d;
    assert d * p + s == d * q + r;
    assert p < q ==> d * (p + 1) <= d * q;
    assert q < p ==> d * (q + 1) <= d * p;
  }

  lemma {:induction false} SpanWithinTwoBuckets(calls: seq<Call>, key: Key, lo: int, cfg: Config, t: Tally)
    requires cfg.Valid()
    ensures
      var window := cfg.window(key);
      var b := Bucket(lo, window);
      AdmittedInSpan(calls, key, lo, lo + window, cfg, t)
      <= Admitted(calls, key, b, cfg, t) + Admitted(calls, key, b + 1, cfg, t)
  {
    hide Passes, Bucket;
    if calls != [] {
      var c := calls[|calls| - 1];
      SpanWithinTwoBuckets(calls[..|calls| - 1], key, lo, cfg, t);
      if c.key == key && lo <= c.now < lo + cfg.window(key) {
        SpanMeetsTwoBuckets(lo, c.now, cfg.window(key));
      }
    }
  }

  lemma {:induction false} SpanSplitsByOutcome(calls: seq<Call>, key: Key, lo: int, hi: int, cfg: Config)
    requires cfg.Valid()
    ensures AdmittedInSpan(calls, key, lo, hi, cfg, ByRedis)
            == AdmittedInSpan(calls, key, lo, hi, cfg, Answered) + AdmittedInSpan(calls, key, lo, hi, cfg, Errored)
    ensures ErrorFree(calls) ==> AdmittedInSpan(calls, key, lo, hi, cfg, Errored) == 0
  {
    hide RedisAllows;
    if calls != [] {
      var n := |calls| - 1;
      SpanSplitsByOutcome(calls[..n], key, lo, hi, cfg);
      RedisAdmitsByCount(calls[..n], calls[n], cfg);
    }
  }

  /** The known edge of a fixed window, bounded: any span of one window length admits at most twice
      the limit, on the memory limiter when its two buckets arrive in one block each, as they do in
      clock order, and on Redis up to the calls that errored. */
  lemma AnySpanAdmitsTwiceLimit(calls: seq<Call>, key: Key, lo: int, cfg: Config)
    requires cfg.Valid() && cfg.limit(key) > 0
    ensures
      var hi, limit, b := lo + cfg.window(key), cfg.limit(key), Bucket(lo, cfg.window(key));
      && (OneBlock(calls, key, b, cfg) && OneBlock(calls, key, b + 1, cfg) ==>
            AdmittedInSpan(calls, key, lo, hi, cfg, ByMemory) <= 2 * limit)
      && (InOrder(calls, key) ==> AdmittedInSpan(calls, key, lo, hi, cfg, ByMemory) <= 2 * limit)
      && AdmittedInSpan(calls, key, lo, hi, cfg, ByRedis)
         <= 2 * limit + AdmittedInSpan(calls, key, lo, hi, cfg, Errored)
      && (ErrorFree(calls) ==> AdmittedInSpan(calls, key, lo, hi, cfg, ByRedis) <= 2 * limit)
  {
    hide AdmittedInSpan, Admitted, Made, Counted, Bucket, OneBlock;
    var b := Bucket(lo, cfg.window(key));
    SpanSplitsByOutcome(calls, key, lo, lo + cfg.window(key), cfg);
    SpanWithinTwoBuckets(calls, key, lo, cfg, Answered);
    AnsweredWithinLimit(calls, key, b, cfg);
    AnsweredWithinLimit(calls, key, b + 1, cfg);
    SpanWithinTwoBuckets(calls, key, lo, cfg, ByMemory);
    MemoryAdmitsUpToLimitIff(calls, key, b, cfg);
    MemoryAdmitsUpToLimitIff(calls, key, b + 1, cfg);
    if InOrder(calls, key) {
      OrderedCallsFormBlocks(calls, key, b, cfg);
      OrderedCallsFormBlocks(calls, key, b + 1, cfg);
    }
  }

  /** A bucket in two blocks does pass its limit: three calls whose readings arrive as 10, 9, 10 in
      windows of 10 pass a memory limit of 1, although two of them share a bucket. */
  lemma OutOfOrderCallsSlipThrough(key: Key)
    ensures
      var cfg := Config(_ => 1, _ => 10);
      var a, b := Call(key, 10, Ok), Call(key, 9, Ok);
      && cfg.Valid()
      && MemoryAllows([], a, cfg) && MemoryAllows([a], b, cfg) && MemoryAllows([a, b], a, cfg)
      && Made([a, b, a], key, 1, cfg) == 2
  {
    var cfg := Config(_ => 1, _ => 10);
    var a, b := Call(key, 10, Ok), Call(key, 9, Ok);
    assert [a][..0] == [] && [a, b][..1] == [a] && [a, b, a][..2] == [a, b];
    assert MemoryAfter([a], cfg) == map[key := (1, 1)];
    assert MemoryAfter([a, b], cfg) == map[key := (0, 1)];
    assert Made([a], key, 1, cfg) == 1;
    assert Made([a, b], key, 1, cfg) == 1;
  }
}
