/**
 The published savings percentiles: `_sample`, `_architecture_overhead_usd`,
 `_sample_percentiles` and `_percentile` of `backend/scripts/benchmark_proof.py`, over exact
 arithmetic. Rounded figures are whole millionths; `round` breaks ties to the even digit.
 */
module Benchmark {
  import opened Money

  datatype Config = Config(spend: real, holdback: real, gainShare: real, latencyCost: real)

  datatype Path = Path(compute: real, latencyP50: real)

  datatype Workload = Workload(requestCost: real, rates: seq<real>, captures: seq<real>)

  // ----- one sample -----

  function Units(w: Workload, cfg: Config): real
    requires w.requestCost != 0.0
  {
    cfg.spend / w.requestCost / 1000.0
  }

  /** Compute plus latency, per thousand requests. */
  function UnitCost(p: Path, cfg: Config): real {
    p.compute + p.latencyP50 * cfg.latencyCost
  }

  function Overhead(w: Workload, cfg: Config, p: Path): real
    requires w.requestCost != 0.0
  {
    Units(w, cfg) * p.compute + Units(w, cfg) * p.latencyP50 * cfg.latencyCost
  }

  /** Gross captured savings less the holdback's cost, before any deployment overhead. */
  function Captured(cfg: Config, rate: real, capture: real): real {
    var before := cfg.spend * rate * capture;
    before * (1.0 - cfg.holdback) - before * cfg.holdback
  }

  /** What remains of billable savings after the gain share on the positive part. */
  function Net(billable: real, share: real): real {
    billable - (if billable >= 0.0 then billable else 0.0) * share
  }

  function TrueNet(w: Workload, cfg: Config, p: Path, rate: real, capture: real): real
    requires w.requestCost != 0.0
  {
    Net(Captured(cfg, rate, capture) - Overhead(w, cfg, p), cfg.gainShare)
  }

  /** The inputs the dominance is claimed for. */
  predicate Sensible(w: Workload, cfg: Config) {
    w.requestCost > 0.0 && cfg.spend > 0.0 && cfg.latencyCost >= 0.0 && 0.0 <= cfg.gainShare <= 1.0
  }

  predicate NoDearer(p: Path, q: Path) {
    p.compute <= q.compute && p.latencyP50 <= q.latencyP50
  }

  lemma NetMonotone(a: real, b: real, share: real)
    requires a <= b && 0.0 <= share <= 1.0
    ensures Net(a, share) <= Net(b, share)
  {
    var keep := 1.0 - share;
    assert a >= 0.0 ==> Net(a, share) == a * keep;
    assert b >= 0.0 ==> Net(b, share) == b * keep;
    if a >= 0.0 {
      ScaledOrder(a, b, keep);
    } else if b >= 0.0 {
      ScaledOrder(0.0, b, keep);
    }
  }

  lemma UnitsPositive(w: Workload, cfg: Config)
    requires Sensible(w, cfg)
    ensures Units(w, cfg) >= 0.0
  {
    var q := cfg.spend / w.requestCost;
    assert q * w.requestCost == cfg.spend;
    assert q < 0.0 ==> q * w.requestCost < 0.0;
  }

  lemma OverheadIsUnitCost(w: Workload, cfg: Config, p: Path)
    requires w.requestCost != 0.0
    ensures Overhead(w, cfg, p) == Units(w, cfg) * UnitCost(p, cfg)
  {
    hide Units;
    var u := Units(w, cfg);
    assert u * p.latencyP50 * cfg.latencyCost == u * (p.latencyP50 * cfg.latencyCost);
  }

  lemma OverheadMonotone(w: Workload, cfg: Config, p: Path, q: Path)
    requires Sensible(w, cfg) && NoDearer(p, q)
    ensures Overhead(w, cfg, p) <= Overhead(w, cfg, q)
  {
    hide Units, Overhead;
    OverheadIsUnitCost(w, cfg, p);
    OverheadIsUnitCost(w, cfg, q);
    UnitsPositive(w, cfg);
    ScaledOrder(p.latencyP50, q.latencyP50, cfg.latencyCost);
    ScaledOrder(UnitCost(p, cfg), UnitCost(q, cfg), Units(w, cfg));
  }

  /** On every sample the cheaper path nets no less. */
  lemma TrueNetMonotone(w: Workload, cfg: Config, p: Path, q: Path, rate: real, capture: real)
    requires Sensible(w, cfg) && NoDearer(p, q)
    ensures TrueNet(w, cfg, q, rate, capture) <= TrueNet(w, cfg, p, rate, capture)
  {
    hide Captured, Overhead, Net;
    OverheadMonotone(w, cfg, p, q);
    var captured := Captured(cfg, rate, capture);
    NetMonotone(captured - Overhead(w, cfg, q), captured - Overhead(w, cfg, p), cfg.gainShare);
  }

  /** What a sample nets: the captured savings without the held-back share and its cost, less the
      path's compute and latency for the requests the spend buys; the gain share is taken off a gain
      only. */
  lemma TrueNetMeaning(w: Workload, cfg: Config, p: Path, rate: real, capture: real)
    requires w.requestCost != 0.0
    ensures
      var overhead := cfg.spend / w.requestCost / 1000.0 * (p.compute + p.latencyP50 * cfg.latencyCost);
      var billable := cfg.spend * rate * capture * (1.0 - 2.0 * cfg.holdback) - overhead;
      TrueNet(w, cfg, p, rate, capture) == if billable >= 0.0 then billable * (1.0 - cfg.gainShare) else billable
  {
    hide Overhead, Net, Units;
    OverheadIsUnitCost(w, cfg, p);
    UnitsAre(w, cfg);
    CapturedIs(cfg.spend * rate * capture, cfg.holdback);
    NetIs(Captured(cfg, rate, capture) - Overhead(w, cfg, p), cfg.gainShare);
  }

  lemma UnitsAre(w: Workload, cfg: Config)
    requires w.requestCost != 0.0
    ensures Units(w, cfg) == cfg.spend / w.requestCost / 1000.0
  {
  }

  lemma CapturedIs(before: real, holdback: real)
    ensures before * (1.0 - holdback) - before * holdback == before * (1.0 - 2.0 * holdback)
  {
  }

  lemma NetIs(billable: real, share: real)
    ensures Net(billable, share) == if billable >= 0.0 then billable * (1.0 - share) else billable
  {
  }

  // ----- the sample grid -----

  /** `true_net_savings_rate`, to six decimals. */
  function RateMicros(net: real, spend: real): int
    requires spend != 0.0
  {
    RoundHalfEven(net / spend * 1_000_000.0)
  }

  /** `true_net_savings_usd`, to four decimals. */
  function UsdMicros(net: real): int {
    100 * RoundHalfEven(net * 10_000.0)
  }

  /** The figure of every sample: each savings rate with each capture rate. */
  function Rates(w: Workload, cfg: Config, p: Path): seq<int>
    requires w.requestCost != 0.0 && cfg.spend != 0.0
  {
    seq(|w.rates| * |w.captures|, i requires 0 <= i < |w.rates| * |w.captures| =>
      GridIndex(i, |w.rates|, |w.captures|);
      RateMicros(TrueNet(w, cfg, p, w.rates[i / |w.captures|], w.captures[i % |w.captures|]), cfg.spend))
  }

  function Dollars(w: Workload, cfg: Config, p: Path): seq<int>
    requires w.requestCost != 0.0
  {
    seq(|w.rates| * |w.captures|, i requires 0 <= i < |w.rates| * |w.captures| =>
      GridIndex(i, |w.rates|, |w.captures|);
      UsdMicros(TrueNet(w, cfg, p, w.rates[i / |w.captures|], w.captures[i % |w.captures|])))
  }

  lemma GridIndex(i: int, n: nat, m: nat)
    requires 0 <= i < n * m
    ensures m > 0 && 0 <= i / m < n && 0 <= i % m < m
  {
    var q := i / m;
    assert i == m * q + i % m;
    assert q >= n ==> m * q >= m * n;
  }

  /** The figures of rate `i` with capture `j` stand in row order: the net over the spend to the nearest
      millionth, and the net to the nearest ten-thousandth, halves to even. */
  lemma GridEntries(w: Workload, cfg: Config, p: Path, i: nat, j: nat)
    requires w.requestCost != 0.0 && cfg.spend != 0.0 && i < |w.rates| && j < |w.captures|
    ensures
      var at, net := i * |w.captures| + j, TrueNet(w, cfg, p, w.rates[i], w.captures[j]);
      && |Rates(w, cfg, p)| == |Dollars(w, cfg, p)| == |w.rates| * |w.captures|
      && 0 <= at < |w.rates| * |w.captures|
      && Rates(w, cfg, p)[at] == RoundHalfEven(net / cfg.spend * 1_000_000.0)
      && Dollars(w, cfg, p)[at] == 100 * RoundHalfEven(net * 10_000.0)
  {
    hide TrueNet, RoundHalfEven;
    GridCell(i, j, |w.rates|, |w.captures|);
  }

  lemma GridCell(i: nat, j: nat, n: nat, m: nat)
    requires i < n && j < m
    ensures 0 <= i * m + j < n * m && (i * m + j) / m == i && (i * m + j) % m == j
  {
    RowsFit(i + 1, n, m);
    QuotientAndRest(i * m + j, m, i, j);
  }

  lemma RowsFit(i: nat, n: nat, m: nat)
    requires i <= n
    ensures i * m <= n * m
  {
    assert n * m == i * m + (n - i) * m;
  }

  lemma QuotientAndRest(x: nat, m: nat, i: nat, j: nat)
    requires j < m && x == i * m + j
    ensures x / m == i && x % m == j
  {
    var q, r := x / m, x % m;
    assert m * q + r == m * i + j;
    if q < i {
      RowsFit(q + 1, i, m);
    } else if i < q {
      RowsFit(i + 1, q, m);
    }
  }

  // ----- percentiles -----

  function Insert(x: int, s: seq<int>): seq<int> {
    if s == [] || x <= s[0] then [x] + s else [s[0]] + Insert(x, s[1..])
  }

  function Sort(s: seq<int>): seq<int> {
    if s == [] then [] else Insert(s[0], Sort(s[1..]))
  }

  predicate Ascending(s: seq<int>) {
    forall i, j :: 0 <= i < j < |s| ==> s[i] <= s[j]
  }

  predicate Dominates(s: seq<int>, t: seq<int>) {
    |s| == |t| && forall i :: 0 <= i < |s| ==> t[i] <= s[i]
  }

  lemma {:induction false} InsertKeepsValues(x: int, s: seq<int>)
    ensures multiset(Insert(x, s)) == multiset{x} + multiset(s)
  {
    if s != [] && x > s[0] {
      InsertKeepsValues(x, s[1..]);
      assert s == [s[0]] + s[1..];
    }
  }

  predicate AtLeast(s: seq<int>, low: int) {
    forall i :: 0 <= i < |s| ==> low <= s[i]
  }

  lemma {:induction false} InsertAtLeast(x: int, s: seq<int>, low: int)
    requires low <= x && AtLeast(s, low)
    ensures AtLeast(Insert(x, s), low)
  {
    if s != [] && x > s[0] {
      InsertAtLeast(x, s[1..], low);
    }
  }

  lemma {:induction false} InsertAscends(x: int, s: seq<int>)
    requires Ascending(s)
    ensures Ascending(Insert(x, s))
  {
    if s != [] && x > s[0] {
      InsertAscends(x, s[1..]);
      InsertAtLeast(x, s[1..], s[0]);
    }
  }

  /** `sorted`: ascending, and the same values. */
  lemma {:induction false} SortSorts(s: seq<int>)
    ensures Ascending(Sort(s)) && multiset(Sort(s)) == multiset(s) && |Sort(s)| == |s|
  {
    if s != [] {
      SortSorts(s[1..]);
      InsertKeepsValues(s[0], Sort(s[1..]));
      InsertAscends(s[0], Sort(s[1..]));
      assert s == [s[0]] + s[1..];
      assert |multiset(Sort(s))| == |Sort(s)|;
    }
  }

  lemma ConsDominates(a: int, s: seq<int>, b: int, t: seq<int>)
    requires b <= a && Dominates(s, t)
    ensures Dominates([a] + s, [b] + t)
  {
  }

  lemma HeadInsert(s: seq<int>)
    requires s != [] && Ascending(s)
    ensures Insert(s[0], s[1..]) == s
  {
    assert s == [s[0]] + s[1..];
  }

  /** Insertion respects pointwise order between ascending sequences. */
  lemma {:induction false} InsertDominates(x: int, s: seq<int>, y: int, t: seq<int>)
    requires y <= x && Dominates(s, t) && Ascending(s) && Ascending(t)
    ensures Dominates(Insert(x, s), Insert(y, t))
    decreases |s|
  {
    if s == [] || (x <= s[0] && y <= t[0]) {
      ConsDominates(x, s, y, t);
    } else {
      var s0, t0, s', t' := s[0], t[0], s[1..], t[1..];
      if x > s0 && y > t0 {
        InsertDominates(x, s', y, t');
        ConsDominates(s0, Insert(x, s'), t0, Insert(y, t'));
      } else if x > s0 {
        InsertDominates(x, s', t0, t');
        HeadInsert(t);
        ConsDominates(s0, Insert(x, s'), y, t);
      } else {
        InsertDominates(s0, s', y, t');
        HeadInsert(s);
        ConsDominates(x, s, t0, Insert(y, t'));
      }
    }
  }

  /** Order statistics dominate: raising every value raises every rank. */
  lemma {:induction false} SortDominates(s: seq<int>, t: seq<int>)
    requires Dominates(s, t)
    ensures Dominates(Sort(s), Sort(t))
  {
    if s != [] {
      SortDominates(s[1..], t[1..]);
      SortSorts(s[1..]);
      SortSorts(t[1..]);
      InsertDominates(s[0], Sort(s[1..]), t[0], Sort(t[1..]));
    }
  }

  /** The weighted mean of two neighbouring values. */
  function Mix(a: real, b: real, weight: real): real {
    a * (1.0 - weight) + b * weight
  }

  /** The `k / 100`-th value of an ascending sequence, interpolating linearly between ranks. */
  function Interpolate(s: seq<int>, k: int): real
    requires 0 <= k <= 100 * (|s| - 1)
  {
    var lower, rest := k / 100, k % 100;
    if rest == 0 then s[lower] as real
    else
      var weight := rest as real / 100.0;
      Mix(s[lower] as real, s[lower + 1] as real, weight)
  }

  /** The rank of a percentile among `n` ordered values, in hundredths. */
  function Rank(n: nat, percent: nat): int {
    (n - 1) * percent
  }

  lemma RankMonotone(n: nat, p: nat, q: nat)
    requires n > 0 && p <= q
    ensures Rank(n, p) <= Rank(n, q)
  {
    var m, d := n - 1, q - p;
    assert m * q == m * p + m * d;
  }

  lemma RankInRange(n: nat, percent: nat)
    requires n > 0 && percent <= 100
    ensures 0 <= Rank(n, percent) <= 100 * (n - 1)
  {
    RankMonotone(n, 0, percent);
    RankMonotone(n, percent, 100);
  }

  /** `_percentile`: an error on no values; a value at a whole rank as it is; otherwise the rounded
      interpolation. */
  function Percentile(values: seq<int>, percent: nat): Option<int>
    requires percent <= 100
  {
    var ordered := Sort(values);
    if values == [] then None
    else
      SortSorts(values);
      if |ordered| == 1 then Some(ordered[0])
      else
        RankInRange(|ordered|, percent);
        var k := Rank(|ordered|, percent);
        if k % 100 == 0 then Some(ordered[k / 100]) else Some(RoundHalfEven(Interpolate(ordered, k)))
  }

  /** All three branches are the rounded interpolation at the rank. */
  lemma PercentileIsInterpolation(values: seq<int>, percent: nat)
    requires percent <= 100 && values != []
    ensures
      && |Sort(values)| == |values| && 0 <= Rank(|values|, percent) <= 100 * (|values| - 1)
      && Percentile(values, percent) == Some(RoundHalfEven(Interpolate(Sort(values), Rank(|values|, percent))))
  {
    hide Sort, RoundHalfEven, Rank;
    SortSorts(values);
    RankInRange(|values|, percent);
    var s, k := Sort(values), Rank(|values|, percent);
    if k % 100 == 0 {
      HalfEvenWhole(s[k / 100]);
    }
  }

  /** The point so many hundredths of the way from one value to the next. */
  function Point(a: int, b: int, hundredths: int): real {
    a as real + (b - a) as real * (hundredths as real / 100.0)
  }

  /** The percentile without its parts: for the values in ascending order, rank `(n - 1) * percent / 100`
      taken as it is where it is whole, else the rounded point that far between its neighbours. */
  lemma PercentileMeaning(values: seq<int>, s: seq<int>, percent: nat)
    requires percent <= 100 && values != [] && Ascending(s) && multiset(s) == multiset(values)
    ensures
      var k := (|values| - 1) * percent;
      var lower, rest := k / 100, k % 100;
      && |s| == |values| && 0 <= lower < |s| && (rest != 0 ==> lower + 1 < |s|)
      && Percentile(values, percent) ==
           if rest == 0 then Some(s[lower]) else Some(RoundHalfEven(Point(s[lower], s[lower + 1], rest)))
  {
    hide Percentile, Sort, Interpolate, RoundHalfEven, Point;
    SortSorts(values);
    SortedIsUnique(s, Sort(values));
    PercentileIsInterpolation(values, percent);
    var k := (|values| - 1) * percent;
    assert k == Rank(|values|, percent);
    InterpolateBetween(s, k);
    WholeRank(s, k);
    HalfEvenWhole(s[k / 100]);
  }

  ghost predicate SameValues(s: seq<int>, t: seq<int>) {
    multiset(s) == multiset(t)
  }

  lemma {:induction false} SortedIsUnique(s: seq<int>, t: seq<int>)
    requires Ascending(s) && Ascending(t) && SameValues(s, t)
    ensures s == t
  {
    hide Ascending, SameValues;
    SameLength(s, t);
    if s != [] {
      HeadsAgree(s, t);
      TailsAgree(s, t);
      SortedIsUnique(s[1..], t[1..]);
      assert s == [s[0]] + s[1..] && t == [t[0]] + t[1..];
    }
  }

  lemma SameLength(s: seq<int>, t: seq<int>)
    requires SameValues(s, t)
    ensures |s| == |t|
  {
    assert |s| == |multiset(s)| && |t| == |multiset(t)|;
  }

  lemma HeadsAgree(s: seq<int>, t: seq<int>)
    requires s != [] && t != [] && Ascending(s) && Ascending(t) && SameValues(s, t)
    ensures s[0] == t[0]
  {
    assert s[0] in multiset(t) && t[0] in multiset(s);
    var i :| 0 <= i < |t| && t[i] == s[0];
    var j :| 0 <= j < |s| && s[j] == t[0];
  }

  lemma TailsAgree(s: seq<int>, t: seq<int>)
    requires s != [] && t != [] && Ascending(s) && Ascending(t) && SameValues(s, t) && s[0] == t[0]
    ensures SameValues(s[1..], t[1..]) && Ascending(s[1..]) && Ascending(t[1..])
  {
    assert s == [s[0]] + s[1..] && t == [t[0]] + t[1..];
    assert multiset(s[1..]) == multiset(s) - multiset{s[0]};
    assert multiset(t[1..]) == multiset(t) - multiset{t[0]};
  }

  /** An interpolated value lies between its neighbours, at the weight's place between them. */
  lemma InterpolateBetween(s: seq<int>, k: int)
    requires 0 <= k <= 100 * (|s| - 1) && Ascending(s)
    ensures
      var lower := k / 100;
      && s[lower] as real <= Interpolate(s, k)
      && (lower + 1 < |s| ==> Interpolate(s, k) <= s[lower + 1] as real)
      && (k % 100 != 0 ==>
            && lower + 1 < |s|
            && Interpolate(s, k) == Point(s[lower], s[lower + 1], k % 100))
  {
    hide Mix;
    var lower, rest := k / 100, k % 100;
    if rest != 0 {
      var weight := rest as real / 100.0;
      assert 0.0 <= weight <= 1.0;
      MixBetween(s[lower] as real, s[lower + 1] as real, weight);
    }
  }

  lemma MixBetween(a: real, b: real, weight: real)
    requires a <= b && 0.0 <= weight <= 1.0
    ensures a <= Mix(a, b, weight) <= b
    ensures Mix(a, b, weight) == a + (b - a) * weight
  {
    ProductNonNegative(b - a, weight);
    ProductNonNegative(b - a, 1.0 - weight);
    assert Mix(a, b, weight) == a + (b - a) * weight == b - (b - a) * (1.0 - weight);
  }

  /** Interpolation never falls as the rank rises. */
  lemma InterpolateMonotone(s: seq<int>, j: int, k: int)
    requires 0 <= j <= k <= 100 * (|s| - 1) && Ascending(s)
    ensures Interpolate(s, j) <= Interpolate(s, k)
  {
    hide Interpolate;
    InterpolateBetween(s, j);
    InterpolateBetween(s, k);
    var a, b := j / 100, k / 100;
    if a == b {
      if k % 100 != 0 {
        var gap := (s[a + 1] - s[a]) as real;
        ScaledOrder((j % 100) as real / 100.0, (k % 100) as real / 100.0, gap);
        WholeRank(s, j);
      } else {
        assert j == k;
      }
    } else {
      assert s[a + 1] <= s[b];
    }
  }

  lemma WholeRank(s: seq<int>, k: int)
    requires 0 <= k <= 100 * (|s| - 1)
    ensures k % 100 == 0 ==> Interpolate(s, k) == s[k / 100] as real
  {
  }

  lemma MixMonotone(a: real, b: real, c: real, d: real, weight: real)
    requires a <= c && b <= d && 0.0 <= weight <= 1.0
    ensures Mix(a, b, weight) <= Mix(c, d, weight)
  {
    ProductNonNegative(c - a, 1.0 - weight);
    ProductNonNegative(d - b, weight);
    assert Mix(c, d, weight) == Mix(a, b, weight) + (c - a) * (1.0 - weight) + (d - b) * weight;
  }

  /** Interpolation rises with the values. */
  lemma InterpolateDominates(s: seq<int>, t: seq<int>, k: int)
    requires Dominates(s, t) && 0 <= k <= 100 * (|s| - 1)
    ensures Interpolate(t, k) <= Interpolate(s, k)
  {
    hide Mix;
    var lower, rest := k / 100, k % 100;
    if rest != 0 {
      var weight := rest as real / 100.0;
      assert 0.0 <= weight <= 1.0;
      MixMonotone(t[lower] as real, t[lower + 1] as real, s[lower] as real, s[lower + 1] as real, weight);
    }
  }

  /** Percentiles of any figures are ordered: p25 <= p50 <= p75. */
  lemma PercentilesAreOrdered(values: seq<int>, p: nat, q: nat)
    requires p <= q <= 100 && values != []
    ensures Percentile(values, p).value <= Percentile(values, q).value
  {
    hide Percentile, Sort, Interpolate, RoundHalfEven, Rank;
    PercentileIsInterpolation(values, p);
    PercentileIsInterpolation(values, q);
    SortSorts(values);
    RankMonotone(|values|, p, q);
    var j, k := Rank(|values|, p), Rank(|values|, q);
    InterpolateMonotone(Sort(values), j, k);
    HalfEvenMonotone(Interpolate(Sort(values), j), Interpolate(Sort(values), k));
  }

  /** Percentiles preserve pointwise order, through sorting, interpolation and rounding. */
  lemma PercentileDominates(s: seq<int>, t: seq<int>, p: nat)
    requires p <= 100 && Dominates(s, t) && s != []
    ensures Percentile(t, p).value <= Percentile(s, p).value
  {
    hide Percentile, Sort, Interpolate, RoundHalfEven, Rank;
    PercentileIsInterpolation(s, p);
    PercentileIsInterpolation(t, p);
    SortDominates(s, t);
    var k := Rank(|s|, p);
    InterpolateDominates(Sort(s), Sort(t), k);
    HalfEvenMonotone(Interpolate(Sort(t), k), Interpolate(Sort(s), k));
  }

  /** The claim behind the deployment comparison: a path that costs no more to run publishes net
      savings that are no lower at any percentile, as a rate and in dollars. */
  lemma CheaperPathPublishesNoLess(w: Workload, cfg: Config, p: Path, q: Path, percent: nat)
    requires Sensible(w, cfg) && NoDearer(p, q) && percent <= 100
    ensures Percentile(Rates(w, cfg, p), percent).None? <==> w.rates == [] || w.captures == []
    ensures Percentile(Rates(w, cfg, p), percent).Some? ==>
              && Percentile(Rates(w, cfg, q), percent).Some?
              && Percentile(Rates(w, cfg, q), percent).value <= Percentile(Rates(w, cfg, p), percent).value
              && Percentile(Dollars(w, cfg, q), percent).Some? && Percentile(Dollars(w, cfg, p), percent).Some?
              && Percentile(Dollars(w, cfg, q), percent).value <= Percentile(Dollars(w, cfg, p), percent).value
  {
    hide TrueNet, Sort, Interpolate;
    var n := |w.rates| * |w.captures|;
    assert n == 0 <==> w.rates == [] || w.captures == [] by {
      assert |w.rates| > 0 && |w.captures| > 0 ==> n > 0;
    }
    if n > 0 {
      forall i | 0 <= i < n
        ensures Rates(w, cfg, q)[i] <= Rates(w, cfg, p)[i] && Dollars(w, cfg, q)[i] <= Dollars(w, cfg, p)[i]
      {
        GridIndex(i, |w.rates|, |w.captures|);
        var rate, capture := w.rates[i / |w.captures|], w.captures[i % |w.captures|];
        TrueNetMonotone(w, cfg, p, q, rate, capture);
        FiguresMonotone(TrueNet(w, cfg, q, rate, capture), TrueNet(w, cfg, p, rate, capture), cfg.spend);
      }
      PercentileDominates(Rates(w, cfg, p), Rates(w, cfg, q), percent);
      PercentileDominates(Dollars(w, cfg, p), Dollars(w, cfg, q), percent);
    }
  }

  lemma FiguresMonotone(a: real, b: real, spend: real)
    requires a <= b && spend > 0.0
    ensures RateMicros(a, spend) <= RateMicros(b, spend) && UsdMicros(a) <= UsdMicros(b)
  {
    hide RoundHalfEven;
    var x, y := a / spend, b / spend;
    assert x * spend == a && y * spend == b;
    assert x > y ==> (x - y) * spend > 0.0;
    HalfEvenMonotone(x * 1_000_000.0, y * 1_000_000.0);
    HalfEvenMonotone(a * 10_000.0, b * 10_000.0);
  }
}
