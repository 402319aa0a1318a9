/**
 The versioned price catalog: `backend/scripts/sync_prices.py`, and the as-of lookup
 `_resolve_price_sync` of `backend/scripts/seed_demo.py`.

 Token prices are whole units of 1e-12 dollars once quantized. All rows one sync inserts carry
 its transaction time. `ORDER BY effective_at DESC LIMIT 1` may return any of the newest rows
 when several tie, so a lookup is modelled by the set of rows it may return.
 */
module Prices {
  import opened Money

  // ----- parsing the feed -----

  /** A JSON price cell, in units of 1e-12 dollars before rounding. */
  datatype Cell = Absent | Number(value: real) | NotFinite

  datatype Result<T> = Success(value: T) | Invalid

  /** `_dec`: absent stays absent; a negative or non-finite price is an error. */
  function Quantize(c: Cell): Result<Option<int>> {
    match c
    case Absent => Success(None)
    case NotFinite => Invalid
    case Number(x) => if x < 0.0 then Invalid else Success(Some(RoundHalfUp(x)))
  }

  datatype Identity = Identity(provider: string, model: string)

  /** The six fields that define a price. */
  datatype Price = Price(
    input: int, output: int, cacheRead: Option<int>, cacheWrite: Option<int>,
    batchInput: Option<int>, batchOutput: Option<int>)

  datatype Spec = Spec(
    provider: Option<string>, input: Cell, output: Cell, cacheRead: Cell, cacheWrite: Cell,
    batchInput: Cell, batchOutput: Cell)

  /** A feed entry: the JSON value under a model key, which need not be an object. */
  datatype FeedEntry = FeedEntry(model: string, spec: Option<Spec>)

  datatype Parsed = Parsed(identity: Identity, price: Price)

  function Or0(x: Option<int>): int {
    if x.Some? then x.value else 0
  }

  function ProviderOf(s: Spec): string {
    if s.provider.Some? && s.provider.value != "" then s.provider.value else "unknown"
  }

  /** One entry: skipped when it is the meta entry, not an object, or carries no token price. */
  function ParseEntry(e: FeedEntry): Result<Option<Parsed>> {
    if e.model == "sample_spec" || e.spec.None? then Success(None)
    else
      var s := e.spec.value;
      var input, output := Quantize(s.input), Quantize(s.output);
      if input.Invalid? || output.Invalid? then Invalid
      else if input.value.None? && output.value.None? then Success(None)
      else
        var r, w := Quantize(s.cacheRead), Quantize(s.cacheWrite);
        var bi, bo := Quantize(s.batchInput), Quantize(s.batchOutput);
        if r.Invalid? || w.Invalid? || bi.Invalid? || bo.Invalid? then Invalid
        else Success(Some(Parsed(Identity(ProviderOf(s), e.model),
                                 Price(Or0(input.value), Or0(output.value), r.value, w.value, bi.value, bo.value))))
  }

  predicate Bad(c: Cell) {
    c.NotFinite? || (c.Number? && c.value < 0.0)
  }

  /** A quantized price stands for its cell: absent for absent, else the nearest unit, halves up. */
  ghost predicate StandsFor(x: Option<int>, c: Cell) {
    (x.None? <==> c.Absent?) && (x.Some? ==> c.Number? && -0.5 < x.value as real - c.value <= 0.5)
  }

  /** What an entry parses to, field by field, and exactly when it is rejected or skipped. */
  lemma ParseEntryMeaning(e: FeedEntry)
    ensures
      var r := ParseEntry(e);
      if e.model == "sample_spec" || e.spec.None? then r == Success(None)
      else
        var s := e.spec.value;
        var unpriced := s.input.Absent? && s.output.Absent?;
        && (r.Invalid? <==>
              Bad(s.input) || Bad(s.output)
              || (!unpriced && (Bad(s.cacheRead) || Bad(s.cacheWrite) || Bad(s.batchInput) || Bad(s.batchOutput))))
        && (r == Success(None) <==> unpriced)
        && (r.Success? && r.value.Some? ==>
              var p := r.value.value;
              && p.identity.model == e.model
              && (if s.provider == None || s.provider == Some("") then p.identity.provider == "unknown"
                  else s.provider == Some(p.identity.provider))
              && StandsFor(if s.input.Absent? then None else Some(p.price.input), s.input)
              && StandsFor(if s.output.Absent? then None else Some(p.price.output), s.output)
              && (s.input.Absent? ==> p.price.input == 0) && (s.output.Absent? ==> p.price.output == 0)
              && StandsFor(p.price.cacheRead, s.cacheRead) && StandsFor(p.price.cacheWrite, s.cacheWrite)
              && StandsFor(p.price.batchInput, s.batchInput) && StandsFor(p.price.batchOutput, s.batchOutput))
  {
    hide RoundHalfUp;
  }

  /** A stored price round-trips: quantizing it again leaves it, so comparing it with a re-parsed feed
      is exact. */
  lemma StoredPriceRoundTrips(n: nat)
    ensures Quantize(Number(n as real)) == Success(Some(n))
  {
    HalfUpWhole(n);
  }

  const ALIAS_SOURCE := Identity("gemini", "gemini/gemini-3.1-flash-lite")
  const ALIAS := Identity("gemini", "gemini-3.1-flash-lite")

  // ----- the parsed list -----

  /** The priced entries in feed order; a bad price anywhere rejects the feed. */
  function ParseAll(raw: seq<FeedEntry>): Result<seq<Parsed>> {
    if raw == [] then Success([])
    else
      var before, one := ParseAll(raw[..|raw| - 1]), ParseEntry(raw[|raw| - 1]);
      if before.Invalid? || one.Invalid? then Invalid
      else if one.value.None? then before
      else Success(before.value + [one.value.value])
  }

  predicate Has(ps: seq<Parsed>, id: Identity) {
    exists i :: 0 <= i < |ps| && ps[i].identity == id
  }

  function PriceIn(ps: seq<Parsed>, id: Identity): (r: Option<Price>)
    ensures r.Some? <==> Has(ps, id)
    ensures r.Some? ==> Parsed(id, r.value) in ps
  {
    if ps == [] then None
    else if ps[|ps| - 1].identity == id then Some(ps[|ps| - 1].price)
    else PriceIn(ps[..|ps| - 1], id)
  }

  /** The provider-scoped alias, added only where the feed does not price it itself. */
  function WithAlias(ps: seq<Parsed>): seq<Parsed> {
    var source := PriceIn(ps, ALIAS_SOURCE);
    if source.Some? && !Has(ps, ALIAS) then ps + [Parsed(ALIAS, source.value)] else ps
  }

  function Feed(raw: seq<FeedEntry>): Result<seq<Parsed>> {
    if ParseAll(raw).Invalid? then Invalid else Success(WithAlias(ParseAll(raw).value))
  }

  method ParseFeed(raw: seq<FeedEntry>) returns (r: Result<seq<Parsed>>)
    ensures r == Feed(raw)
  {
    hide ParseEntry, WithAlias, PriceIn;
    var parsed: seq<Parsed> := [];
    for i := 0 to |raw|
      invariant ParseAll(raw[..i]) == Success(parsed)
    {
      assert raw[..i + 1][..i] == raw[..i];
      var one := ParseEntry(raw[i]);
      if one.Invalid? {
        InvalidPrefix(raw, i + 1);
        return Invalid;
      }
      if one.value.Some? {
        parsed := parsed + [one.value.value];
      }
    }
    assert raw[..|raw|] == raw;
    return Success(WithAlias(parsed));
  }

  lemma {:induction false} InvalidPrefix(raw: seq<FeedEntry>, n: nat)
    requires n <= |raw| && ParseAll(raw[..n]).Invalid?
    ensures ParseAll(raw).Invalid?
    decreases |raw|
  {
    hide ParseEntry;
    if n == |raw| {
      assert raw[..n] == raw;
    } else {
      assert raw[..|raw| - 1][..n] == raw[..n];
      InvalidPrefix(raw[..|raw| - 1], n);
    }
  }

  /** The parsed list holds exactly the priced entries, and is rejected exactly for a bad price. */
  lemma {:induction false} ParseAllMeaning(raw: seq<FeedEntry>)
    ensures ParseAll(raw).Invalid? <==> exists e :: e in raw && ParseEntry(e).Invalid?
    ensures ParseAll(raw).Success? ==>
              forall p :: p in ParseAll(raw).value <==> exists e :: e in raw && ParseEntry(e) == Success(Some(p))
  {
    hide ParseEntry;
    if raw != [] {
      var n := |raw| - 1;
      ParseAllMeaning(raw[..n]);
      assert forall e :: e in raw <==> e in raw[..n] || e == raw[n];
    }
  }

  /** The alias takes its source's price only where the feed does not price it itself, and no other
      identity is affected. */
  lemma {:induction false} AliasFollowsSource(ps: seq<Parsed>, id: Identity)
    ensures PriceIn(WithAlias(ps), id)
            == if id == ALIAS && !Has(ps, ALIAS) then PriceIn(ps, ALIAS_SOURCE) else PriceIn(ps, id)
  {
    var source := PriceIn(ps, ALIAS_SOURCE);
    if source.Some? && !Has(ps, ALIAS) {
      var all := ps + [Parsed(ALIAS, source.value)];
      assert all[..|ps|] == ps;
    }
  }

  ghost predicate DistinctModels(raw: seq<FeedEntry>) {
    forall i, j :: 0 <= i < j < |raw| ==> raw[i].model != raw[j].model
  }

  ghost predicate DistinctIdentities(ps: seq<Parsed>) {
    forall i, j :: 0 <= i < j < |ps| ==> ps[i].identity != ps[j].identity
  }

  lemma ParsedModelIsKey(e: FeedEntry)
    ensures ParseEntry(e).Success? && ParseEntry(e).value.Some? ==> ParseEntry(e).value.value.identity.model == e.model
  {
  }

  lemma {:induction false} ParsedModelsComeFromFeed(raw: seq<FeedEntry>, k: nat)
    requires ParseAll(raw).Success? && k < |ParseAll(raw).value|
    ensures exists i :: 0 <= i < |raw| && raw[i].model == ParseAll(raw).value[k].identity.model
  {
    hide ParseEntry;
    var n := |raw| - 1;
    var before := ParseAll(raw[..n]).value;
    if k < |before| {
      ParsedModelsComeFromFeed(raw[..n], k);
      var i :| 0 <= i < n && raw[..n][i].model == before[k].identity.model;
      assert raw[i].model == before[k].identity.model;
    } else {
      ParsedModelIsKey(raw[n]);
    }
  }

  /** A JSON object's keys are unique, so a parsed feed prices every identity once, alias included. */
  lemma FeedIdentitiesAreDistinct(raw: seq<FeedEntry>)
    requires DistinctModels(raw) && Feed(raw).Success?
    ensures DistinctIdentities(Feed(raw).value)
  {
    hide ParseEntry, PriceIn;
    ParsedIdentitiesAreDistinct(raw);
  }

  lemma {:induction false} ParsedIdentitiesAreDistinct(raw: seq<FeedEntry>)
    requires DistinctModels(raw) && ParseAll(raw).Success?
    ensures DistinctIdentities(ParseAll(raw).value)
  {
    hide ParseEntry;
    if raw != [] {
      var n := |raw| - 1;
      ParsedIdentitiesAreDistinct(raw[..n]);
      ParsedModelIsKey(raw[n]);
      var before, all := ParseAll(raw[..n]).value, ParseAll(raw).value;
      forall k | 0 <= k < |before| && |all| > |before|
        ensures before[k].identity != all[|before|].identity
      {
        ParsedModelsComeFromFeed(raw[..n], k);
      }
    }
  }

  // ----- versions -----

  datatype Version = Version(identity: Identity, price: Price, at: int)

  /** Per identity, the rows lie in the order they took effect. */
  ghost predicate Chronological(vs: seq<Version>) {
    forall i, j :: 0 <= i < j < |vs| && vs[i].identity == vs[j].identity ==> vs[i].at < vs[j].at
  }

  /** The newest version of an identity. */
  function Latest(vs: seq<Version>, id: Identity): Option<Version> {
    if vs == [] then None
    else if vs[|vs| - 1].identity == id then Some(vs[|vs| - 1])
    else Latest(vs[..|vs| - 1], id)
  }

  /** It is the row `ORDER BY effective_at DESC LIMIT 1` returns. */
  lemma {:induction false} LatestIsNewest(vs: seq<Version>, id: Identity)
    requires Chronological(vs)
    ensures Latest(vs, id).None? ==> forall v :: v in vs ==> v.identity != id
    ensures Latest(vs, id).Some? ==>
              var r := Latest(vs, id).value;
              r in vs && r.identity == id && forall v :: v in vs && v.identity == id && v != r ==> v.at < r.at
  {
    if vs != [] {
      LatestIsNewest(vs[..|vs| - 1], id);
    }
  }

  predicate PriceChanged(latest: Option<Version>, p: Parsed) {
    latest.None? || latest.value.price != p.price
  }

  function SyncOne(vs: seq<Version>, p: Parsed, now: int): seq<Version> {
    if PriceChanged(Latest(vs, p.identity), p) then vs + [Version(p.identity, p.price, now)] else vs
  }

  function Synced(vs: seq<Version>, ps: seq<Parsed>, now: int): seq<Version> {
    if ps == [] then vs else SyncOne(Synced(vs, ps[..|ps| - 1], now), ps[|ps| - 1], now)
  }

  class Catalog {
    var versions: seq<Version>

    constructor ()
      ensures versions == []
    {
      versions := [];
    }

    /** Append a version for every price that changed; an invalid feed writes nothing. */
    method Sync(raw: seq<FeedEntry>, now: int) returns (r: Result<nat>)
      modifies this
      ensures r.Invalid? <==> Feed(raw).Invalid?
      ensures r.Invalid? ==> versions == old(versions)
      ensures r.Success? ==> versions == Synced(old(versions), Feed(raw).value, now)
      ensures r.Success? ==> r.value == |versions| - |old(versions)|
    {
      hide Feed, Latest;
      var feed := ParseFeed(raw);
      if feed.Invalid? {
        return Invalid;
      }
      var parsed, inserts := feed.value, 0;
      for i := 0 to |parsed|
        invariant versions == Synced(old(versions), parsed[..i], now)
        invariant inserts == |versions| - |old(versions)| >= 0
      {
        assert parsed[..i + 1][..i] == parsed[..i];
        var p := parsed[i];
        if PriceChanged(Latest(versions, p.identity), p) {
          versions := versions + [Version(p.identity, p.price, now)];
          inserts := inserts + 1;
        }
      }
      assert parsed[..|parsed|] == parsed;
      return Success(inserts);
    }
  }

  // ----- what a sync does -----

  /** The sync clock is later than every stored version. */
  ghost predicate Before(vs: seq<Version>, now: int) {
    forall v :: v in vs ==> v.at < now
  }

  /** A sync only appends, and everything it appends carries its own time and is in the feed. */
  lemma {:induction false} SyncAppends(vs: seq<Version>, ps: seq<Parsed>, now: int)
    ensures vs <= Synced(vs, ps, now)
    ensures forall i :: |vs| <= i < |Synced(vs, ps, now)| ==>
              var v := Synced(vs, ps, now)[i];
              v.at == now && Parsed(v.identity, v.price) in ps
  {
    hide PriceChanged, Latest;
    if ps != [] {
      SyncAppends(vs, ps[..|ps| - 1], now);
    }
  }

  lemma {:induction false} SyncLeavesOthers(vs: seq<Version>, ps: seq<Parsed>, now: int, id: Identity)
    requires !Has(ps, id)
    ensures Latest(Synced(vs, ps, now), id) == Latest(vs, id)
  {
    if ps != [] {
      var n := |ps| - 1;
      assert ps[n].identity != id;
      assert forall i :: 0 <= i < n ==> ps[..n][i].identity == ps[i].identity != id;
      SyncLeavesOthers(vs, ps[..n], now, id);
      var before := Synced(vs, ps[..n], now);
      var added := before + [Version(ps[n].identity, ps[n].price, now)];
      assert added[..|added| - 1] == before;
    }
  }

  /** After a sync the latest version of every identity in the feed is the feed's price, and the
      history of each identity is still in order. */
  lemma {:induction false} SyncMatchesFeed(vs: seq<Version>, ps: seq<Parsed>, now: int)
    requires Chronological(vs) && Before(vs, now) && DistinctIdentities(ps)
    ensures Chronological(Synced(vs, ps, now))
    ensures forall p :: p in ps ==>
              && Latest(Synced(vs, ps, now), p.identity).Some?
              && Latest(Synced(vs, ps, now), p.identity).value.price == p.price
  {
    hide Latest;
    if ps != [] {
      var n := |ps| - 1;
      var before, p := Synced(vs, ps[..n], now), ps[n];
      SyncMatchesFeed(vs, ps[..n], now);
      SyncAppends(vs, ps[..n], now);
      forall q | q in ps
        ensures Latest(Synced(vs, ps, now), q.identity).Some?
        ensures Latest(Synced(vs, ps, now), q.identity).value.price == q.price
      {
        LatestAfterSyncOne(before, p, now, q.identity);
        if q != p {
          assert q in ps[..n];
        }
      }
      AppendKeepsOrder(vs, before, ps[..n], p, now);
    }
  }

  lemma LatestAfterSyncOne(vs: seq<Version>, p: Parsed, now: int, id: Identity)
    ensures id != p.identity ==> Latest(SyncOne(vs, p, now), id) == Latest(vs, id)
    ensures id == p.identity ==>
              Latest(SyncOne(vs, p, now), id).Some? && Latest(SyncOne(vs, p, now), id).value.price == p.price
  {
    var added := vs + [Version(p.identity, p.price, now)];
    assert added[..|added| - 1] == vs;
  }

  lemma AppendKeepsOrder(vs: seq<Version>, before: seq<Version>, ps: seq<Parsed>, p: Parsed, now: int)
    requires Chronological(before) && Before(vs, now) && vs <= before
    requires forall i :: |vs| <= i < |before| ==> Parsed(before[i].identity, before[i].price) in ps
    requires forall q :: q in ps ==> q.identity != p.identity
    ensures Chronological(SyncOne(before, p, now))
  {
    hide Latest, PriceChanged;
    var added := before + [Version(p.identity, p.price, now)];
    forall i | 0 <= i < |before| && before[i].identity == p.identity
      ensures before[i].at < now
    {
      assert i < |vs| && before[i] == vs[i] && vs[i] in vs;
    }
  }

  /** Replaying the same feed, at any time, inserts nothing. */
  lemma {:induction false} ReplayInsertsNothing(vs: seq<Version>, ps: seq<Parsed>, later: int)
    requires forall p :: p in ps ==> Latest(vs, p.identity).Some? && Latest(vs, p.identity).value.price == p.price
    ensures Synced(vs, ps, later) == vs
  {
    hide Latest;
    if ps != [] {
      assert ps[|ps| - 1] in ps;
      ReplayInsertsNothing(vs, ps[..|ps| - 1], later);
    }
  }

  /** So a sync followed by a replay is the sync. */
  lemma SyncIsIdempotent(vs: seq<Version>, ps: seq<Parsed>, now: int, later: int)
    requires Chronological(vs) && Before(vs, now) && DistinctIdentities(ps)
    ensures Synced(Synced(vs, ps, now), ps, later) == Synced(vs, ps, now)
  {
    hide Synced, Latest;
    SyncMatchesFeed(vs, ps, now);
    ReplayInsertsNothing(Synced(vs, ps, now), ps, later);
  }

  // ----- as-of lookups -----

  predicate Matches(v: Version, provider: Option<string>, model: string, t: int) {
    v.identity.model == model && (provider.Some? ==> v.identity.provider == provider.value) && v.at <= t
  }

  /** The rows one `ORDER BY effective_at DESC LIMIT 1` stage may return. */
  ghost function Newest(vs: seq<Version>, provider: Option<string>, model: string, t: int): set<Version> {
    set v | v in vs && Matches(v, provider, model, t)
            && (forall w :: w in vs && Matches(w, provider, model, t) ==> w.at <= v.at)
  }

  /** The two catalog stages: the request's provider first, then any provider. */
  ghost function Resolve(vs: seq<Version>, provider: string, model: string, t: int): set<Version> {
    var own := Newest(vs, Some(provider), model, t);
    if own != {} then own else Newest(vs, None, model, t)
  }

  /** What a lookup returns: the newest row of the model at or before the time among the request's
      provider, or, where that provider has none, among all providers. */
  lemma ResolveMeaning(vs: seq<Version>, provider: string, model: string, t: int, v: Version)
    ensures
      var own := exists u :: u in vs && u.identity == Identity(provider, model) && u.at <= t;
      v in Resolve(vs, provider, model, t) <==>
        && v in vs && v.identity.model == model && v.at <= t && (own ==> v.identity.provider == provider)
        && forall u :: u in vs && u.identity.model == model && v.at < u.at <= t ==>
             own && u.identity.provider != provider
  {
    var mine := Newest(vs, Some(provider), model, t);
    if u :| u in vs && u.identity == Identity(provider, model) && u.at <= t {
      NewestExists(vs, Some(provider), model, t, u);
    } else {
      assert mine == {};
    }
  }

  /** Some newest row exists where any row matches. */
  lemma {:induction false} NewestExists(vs: seq<Version>, provider: Option<string>, model: string, t: int, u: Version)
    requires u in vs && Matches(u, provider, model, t)
    ensures Newest(vs, provider, model, t) != {}
  {
    var best := NewestRow(vs, provider, model, t, u);
    assert best in Newest(vs, provider, model, t);
  }

  lemma {:induction false} NewestRow(vs: seq<Version>, provider: Option<string>, model: string, t: int, u: Version)
    returns (best: Version)
    requires u in vs && Matches(u, provider, model, t)
    ensures best in vs && Matches(best, provider, model, t)
    ensures forall w :: w in vs && Matches(w, provider, model, t) ==> w.at <= best.at
  {
    hide Matches;
    var n := |vs| - 1;
    var last := vs[n];
    assert forall w :: w in vs ==> w == last || w in vs[..n];
    if rest :| rest in vs[..n] && Matches(rest, provider, model, t) {
      best := NewestRow(vs[..n], provider, model, t, rest);
      if Matches(last, provider, model, t) && last.at > best.at {
        best := last;
      }
    } else {
      best := last;
    }
  }

  lemma NewestBeforeSync(vs: seq<Version>, ps: seq<Parsed>, now: int, provider: Option<string>, model: string, t: int)
    requires t < now
    ensures Newest(Synced(vs, ps, now), provider, model, t) == Newest(vs, provider, model, t)
  {
    hide Synced;
    SyncAppends(vs, ps, now);
    var after := Synced(vs, ps, now);
    forall v
      ensures v in after && Matches(v, provider, model, t) <==> v in vs && Matches(v, provider, model, t)
    {
      if v in after && v !in vs {
        var i :| 0 <= i < |after| && after[i] == v;
        assert i < |vs| ==> vs[i] == v;
      }
    }
  }

  /** Historical events keep their price: no as-of lookup at an earlier time can return anything
      else than before, the fallback to other providers included. */
  lemma {:induction false} SyncNeverRewritesHistory(
    vs: seq<Version>, ps: seq<Parsed>, now: int, provider: string, model: string, t: int)
    requires t < now
    ensures Resolve(Synced(vs, ps, now), provider, model, t) == Resolve(vs, provider, model, t)
  {
    hide Synced, Newest;
    NewestBeforeSync(vs, ps, now, Some(provider), model, t);
    NewestBeforeSync(vs, ps, now, None, model, t);
  }

  /** And from the sync on, a lookup of any identity in the feed returns the feed's price. */
  lemma ResolveReturnsFeedPrice(vs: seq<Version>, ps: seq<Parsed>, now: int, p: Parsed, t: int)
    requires Chronological(vs) && Before(vs, now) && DistinctIdentities(ps) && p in ps && now <= t
    ensures
      var answers := Resolve(Synced(vs, ps, now), p.identity.provider, p.identity.model, t);
      answers != {} && forall v :: v in answers ==> v.price == p.price
  {
    hide Synced, Latest;
    var after := Synced(vs, ps, now);
    SyncMatchesFeed(vs, ps, now);
    SyncAppends(vs, ps, now);
    LatestIsNewest(after, p.identity);
    var r := Latest(after, p.identity).value;
    var own := Newest(after, Some(p.identity.provider), p.identity.model, t);
    assert forall v :: v in after && Matches(v, Some(p.identity.provider), p.identity.model, t) ==>
             v.identity == p.identity;
    assert r.at <= t by {
      var i :| 0 <= i < |after| && after[i] == r;
      assert i < |vs| ==> vs[i] == r;
    }
    assert r in own;
    assert forall v :: v in own ==> v == r;
  }

  // ----- runs of syncs -----

  datatype SyncRun = SyncRun(feed: seq<Parsed>, now: int)

  function History(runs: seq<SyncRun>): seq<Version> {
    if runs == [] then []
    else Synced(History(runs[..|runs| - 1]), runs[|runs| - 1].feed, runs[|runs| - 1].now)
  }

  /** Over every run of syncs at increasing times, starting from an empty catalog, the history stays
      in order, so each sync's hypothesis about the stored versions is met by the syncs before it. */
  lemma {:induction false} HistoryStaysInOrder(runs: seq<SyncRun>)
    requires forall i, j :: 0 <= i < j < |runs| ==> runs[i].now < runs[j].now
    requires forall r :: r in runs ==> DistinctIdentities(r.feed)
    ensures Chronological(History(runs))
    ensures runs != [] ==> forall v :: v in History(runs) ==> v.at <= runs[|runs| - 1].now
  {
    if runs != [] {
      var n := |runs| - 1;
      var before := History(runs[..n]);
      HistoryStaysInOrder(runs[..n]);
      assert runs[n] in runs;
      assert Before(before, runs[n].now) by {
        assert n > 0 ==> runs[n - 1].now < runs[n].now;
      }
      SyncMatchesFeed(before, runs[n].feed, runs[n].now);
      SyncAppends(before, runs[n].feed, runs[n].now);
      forall v | v in History(runs)
        ensures v.at <= runs[n].now
      {
        var i :| 0 <= i < |History(runs)| && History(runs)[i] == v;
        assert i < |before| ==> before[i] == v;
      }
    }
  }
}
