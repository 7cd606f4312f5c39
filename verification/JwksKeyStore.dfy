/**
 * The JWKS key store (createJwksKeyStore and selectJwk in src/auth/oidc-verifier.js): a TTL
 * cache with a refetch floor, a negative cache and a staleness ceiling.
 *
 * keyFor has two await points, the two possible fetches. The clock is read once in each of
 * the three stretches between them; what a fetch answers is an input.
 */
module JwksKeyStore {
  import opened Strings

  /** The fields selectJwk looks at (section 4 of RFC 7517), and the key material. */
  datatype Jwk = Jwk(kty: string, use: Option<string>, alg: Option<string>, kid: Option<string>, material: string)

  /** keyType is what importing a key tells of it: its asymmetric key type, or None when the import throws. */
  datatype Settings = Settings(cacheTtlMs: int, minRefetchMs: int, maxStaleMs: int, negativeCacheMs: int,
                               keyType: Jwk -> Option<string>)

  datatype Cache = Cache(keys: seq<Jwk>, fetchedAt: int)

  /** None stands for minus infinity in the two times. */
  datatype Store = Store(cache: Option<Cache>, lastFetchAt: Option<int>, lastFailureAt: Option<int>)

  /** What a fetch would answer, and when. */
  datatype Fetch = Fetch(keys: Option<seq<Jwk>>, endsAt: int)

  /** A key with the time it was chosen and the time its JWKS was fetched, or a denial. */
  datatype Lookup = Found(key: Jwk, chosenAt: int, fetchedAt: int) | NoMatch | Unreachable | NotImportable | Unsupported

  // ---------------------------------------------------------------- selection

  predicate IsCandidate(k: Jwk, kid: Option<string>, alg: string) {
    && k.kty == "RSA"
    && (k.use.None? || k.use.value == "sig")
    && (k.alg.None? || k.alg.value == alg)
    && (kid.None? || kid.value == "" || k.kid == kid)
  }

  function Candidates(keys: seq<Jwk>, kid: Option<string>, alg: string): seq<Jwk> {
    if keys == [] then []
    else (if IsCandidate(keys[0], kid, alg) then [keys[0]] else []) + Candidates(keys[1..], kid, alg)
  }

  /** selectJwk: exactly one candidate, or none at all. */
  function Select(keys: seq<Jwk>, kid: Option<string>, alg: string): Option<Jwk> {
    var candidates := Candidates(keys, kid, alg);
    if |candidates| == 1 then Some(candidates[0]) else None
  }

  lemma {:induction false} CandidateCount(keys: seq<Jwk>, kid: Option<string>, alg: string, k: Jwk)
    ensures multiset(Candidates(keys, kid, alg))[k] == if IsCandidate(k, kid, alg) then multiset(keys)[k] else 0
  {
    if keys != [] {
      CandidateCount(keys[1..], kid, alg, k);
      assert keys == [keys[0]] + keys[1..];
    }
  }

  /** The order of the JWKS array never decides the key. */
  lemma SelectionIgnoresOrder(a: seq<Jwk>, b: seq<Jwk>, kid: Option<string>, alg: string)
    requires multiset(a) == multiset(b)
    ensures Select(a, kid, alg) == Select(b, kid, alg)
  {
    var ca, cb := Candidates(a, kid, alg), Candidates(b, kid, alg);
    forall k ensures multiset(ca)[k] == multiset(cb)[k] {
      CandidateCount(a, kid, alg, k);
      CandidateCount(b, kid, alg, k);
    }
    assert multiset(ca) == multiset(cb);
    assert |ca| == |multiset(ca)| == |multiset(cb)| == |cb|;
    if |ca| == 1 {
      assert ca[0] in multiset(cb);
    }
  }

  /** A key is selected exactly when it is the one candidate, listed once. */
  lemma SelectedIff(keys: seq<Jwk>, kid: Option<string>, alg: string, k: Jwk)
    ensures Select(keys, kid, alg) == Some(k) <==>
            && IsCandidate(k, kid, alg) && multiset(keys)[k] == 1
            && forall o :: o in keys && IsCandidate(o, kid, alg) ==> o == k
  {
    var c := Candidates(keys, kid, alg);
    CandidateCount(keys, kid, alg, k);
    forall o ensures o in c <==> o in keys && IsCandidate(o, kid, alg) {
      CandidateCount(keys, kid, alg, o);
      assert o in c <==> multiset(c)[o] > 0;
      assert o in keys <==> multiset(keys)[o] > 0;
    }
    if |c| == 1 {
      assert c == [c[0]];
    } else if multiset(c)[k] == 1 && forall o :: o in c ==> o == k {
      assert k in c;
      AllTheSame(c, k);
    }
  }

  lemma {:induction false} AllTheSame(c: seq<Jwk>, k: Jwk)
    requires forall o :: o in c ==> o == k
    ensures multiset(c)[k] == |c|
  {
    if c != [] {
      assert c == [c[0]] + c[1..];
      assert c[0] in c && forall o :: o in c[1..] ==> o in c;
      AllTheSame(c[1..], k);
    }
  }

  // ---------------------------------------------------------------- the store

  function Fresh(cfg: Settings, s: Store, now: int): Option<Cache> {
    if s.cache.None? || now - s.cache.value.fetchedAt >= cfg.cacheTtlMs then None else s.cache
  }

  /** Past their TTL, but within the staleness ceiling. */
  function Stale(cfg: Settings, s: Store, now: int): Option<Cache> {
    if s.cache.None? || now - s.cache.value.fetchedAt > cfg.cacheTtlMs + cfg.maxStaleMs then None else s.cache
  }

  predicate RecentlyFailed(cfg: Settings, s: Store, now: int) {
    s.lastFailureAt.Some? && now - s.lastFailureAt.value < cfg.negativeCacheMs
  }

  /** refreshOrStale: the store after it, the keys it returns and the time it returns them. */
  function Refreshed(cfg: Settings, s: Store, now: int, fetch: Fetch): (Store, Option<Cache>, int) {
    if RecentlyFailed(cfg, s, now) then (s, Stale(cfg, s, now), now)
    else if fetch.keys.Some? then
      var cache := Cache(fetch.keys.value, fetch.endsAt);
      (Store(Some(cache), Some(now), None), Some(cache), fetch.endsAt)
    else
      var failed := Store(s.cache, Some(now), Some(fetch.endsAt));
      (failed, Stale(cfg, failed, fetch.endsAt), fetch.endsAt)
  }

  /** The keys keyFor first looks at. */
  function FirstKeys(cfg: Settings, s: Store, now: int, fetch: Fetch): (Store, Option<Cache>, int) {
    if Fresh(cfg, s, now).Some? then (s, Fresh(cfg, s, now), now) else Refreshed(cfg, s, now, fetch)
  }

  predicate MayRefetch(cfg: Settings, s: Store, now: int) {
    s.lastFetchAt.None? || now - s.lastFetchAt.value >= cfg.minRefetchMs
  }

  /** The selected key, if it imports as an RSA key. */
  function Chosen(cfg: Settings, cache: Cache, kid: Option<string>, alg: string, now: int): Lookup {
    var jwk := Select(cache.keys, kid, alg);
    if jwk.None? then NoMatch
    else if cfg.keyType(jwk.value).None? then NotImportable
    else if cfg.keyType(jwk.value).value != "rsa" then Unsupported
    else Found(jwk.value, now, cache.fetchedAt)
  }

  /**
   * keyFor. Bounded staleness holds of it in any state whatever: a key returned is an RSA key, the one the
   * current cache selects, and that cache was fetched at most the TTL plus the ceiling before.
   */
  function LookedUp(cfg: Settings, s: Store, kid: Option<string>, alg: string, now: int, first: Fetch, second: Fetch)
    : (r: (Store, Lookup))
    ensures cfg.cacheTtlMs >= 0 && cfg.maxStaleMs >= 0 && r.1.Found? ==>
              && r.0.cache.Some? && r.0.cache.value.fetchedAt == r.1.fetchedAt
              && r.1.chosenAt - r.1.fetchedAt <= cfg.cacheTtlMs + cfg.maxStaleMs
              && Select(r.0.cache.value.keys, kid, alg) == Some(r.1.key) && cfg.keyType(r.1.key) == Some("rsa")
  {
    var (s1, keys1, at1) := FirstKeys(cfg, s, now, first);
    if keys1.None? then (s1, Unreachable)
    else if Select(keys1.value.keys, kid, alg).Some? || !MayRefetch(cfg, s1, at1)
    then (s1, Chosen(cfg, keys1.value, kid, alg, at1))
    else
      var (s2, keys2, at2) := Refreshed(cfg, s1, at1, second);
      if keys2.None? then (s2, Unreachable) else (s2, Chosen(cfg, keys2.value, kid, alg, at2))
  }

  class KeyStore {
    const cfg: Settings
    var cache: Option<Cache>
    var lastFetchAt: Option<int>
    var lastFailureAt: Option<int>

    ghost function State(): Store
      reads this
    {
      Store(cache, lastFetchAt, lastFailureAt)
    }

    constructor (cfg: Settings)
      ensures this.cfg == cfg && State() == Store(None, None, None)
    {
      this.cfg := cfg;
      cache, lastFetchAt, lastFailureAt := None, None, None;
    }

    /** The cached keys while they are no older than the TTL plus the ceiling, and nothing after. */
    method StaleKeys(now: int) returns (keys: Option<Cache>)
      ensures keys.Some? <==> cache.Some? && now - cache.value.fetchedAt <= cfg.cacheTtlMs + cfg.maxStaleMs
      ensures keys.Some? ==> keys == cache
    {
      if cache.None? { return None; }
      if now - cache.value.fetchedAt > cfg.cacheTtlMs + cfg.maxStaleMs { return None; }
      return cache;
    }

    method RefreshOrStale(now: int, fetch: Fetch) returns (keys: Option<Cache>, at: int)
      modifies this
      ensures (State(), keys, at) == Refreshed(cfg, old(State()), now, fetch)
    {
      if lastFailureAt.Some? && now - lastFailureAt.value < cfg.negativeCacheMs {
        keys := StaleKeys(now);
        return keys, now;
      }
      lastFetchAt := Some(now);
      if fetch.keys.Some? {
        cache := Some(Cache(fetch.keys.value, fetch.endsAt));
        lastFailureAt := None;
        return cache, fetch.endsAt;
      }
      lastFailureAt := Some(fetch.endsAt);
      keys := StaleKeys(fetch.endsAt);
      return keys, fetch.endsAt;
    }

    method KeyFor(kid: Option<string>, alg: string, now: int, first: Fetch, second: Fetch) returns (r: Lookup)
      modifies this
      ensures (State(), r) == LookedUp(cfg, old(State()), kid, alg, now, first, second)
    {
      var keys, at := cache, now;
      if cache.None? || now - cache.value.fetchedAt >= cfg.cacheTtlMs {
        keys, at := RefreshOrStale(now, first);
        if keys.None? { return Unreachable; }
      }
      var jwk := Select(keys.value.keys, kid, alg);
      if jwk.None? && (lastFetchAt.None? || at - lastFetchAt.value >= cfg.minRefetchMs) {
        keys, at := RefreshOrStale(at, second);
        if keys.None? { return Unreachable; }
        jwk := Select(keys.value.keys, kid, alg);
      }
      if jwk.None? { return NoMatch; }
      var keyType := cfg.keyType(jwk.value);
      if keyType.None? { return NotImportable; }
      if keyType.value != "rsa" { return Unsupported; }
      return Found(jwk.value, at, keys.value.fetchedAt);
    }
  }

  // ---------------------------------------------------------------- sequential runs

  /** One call of keyFor: its arguments, and the times and answers of its fetches. */
  datatype Call = Call(kid: Option<string>, alg: string, now: int, first: Fetch, second: Fetch)

  predicate InTime(clock: int, c: Call) {
    clock <= c.now <= c.first.endsAt <= c.second.endsAt
  }

  /** The starts of the fetches a call makes. */
  function Starts(cfg: Settings, s: Store, c: Call): seq<int> {
    var fetches := Fresh(cfg, s, c.now).None? && !RecentlyFailed(cfg, s, c.now);
    var (s1, keys1, at1) := FirstKeys(cfg, s, c.now, c.first);
    (if fetches then [c.now] else [])
    + (if keys1.Some? && Select(keys1.value.keys, c.kid, c.alg).None? && MayRefetch(cfg, s1, at1)
          && !RecentlyFailed(cfg, s1, at1) then [at1] else [])
  }

  /** The store, the time up to which it has run, and all fetch starts. */
  datatype World = World(store: Store, clock: int, starts: seq<int>)

  function After(cfg: Settings, w: World, c: Call): World {
    World(LookedUp(cfg, w.store, c.kid, c.alg, c.now, c.first, c.second).0, c.second.endsAt,
          w.starts + Starts(cfg, w.store, c))
  }

  function Run(cfg: Settings, w: World, calls: seq<Call>): World
    decreases calls
  {
    if calls == [] then w else Run(cfg, After(cfg, w, calls[0]), calls[1..])
  }

  predicate Sequential(cfg: Settings, w: World, calls: seq<Call>)
    decreases calls
  {
    calls == [] || (InTime(w.clock, calls[0]) && Sequential(cfg, After(cfg, w, calls[0]), calls[1..]))
  }

  function MinGap(cfg: Settings): int {
    var a := if cfg.cacheTtlMs <= cfg.minRefetchMs then cfg.cacheTtlMs else cfg.minRefetchMs;
    if a <= cfg.negativeCacheMs then a else cfg.negativeCacheMs
  }

  predicate Spaced(starts: seq<int>, gap: int) {
    forall i :: 0 < i < |starts| ==> starts[i] - starts[i - 1] >= gap
  }

  /** The last fetch either failed, and is remembered as failed, or filled the cache. */
  predicate Settled(s: Store) {
    s.lastFetchAt.Some? ==>
      || (s.lastFailureAt.Some? && s.lastFailureAt.value >= s.lastFetchAt.value)
      || (s.lastFailureAt.None? && s.cache.Some? && s.cache.value.fetchedAt >= s.lastFetchAt.value)
  }

  predicate Inv(cfg: Settings, w: World) {
    && Settled(w.store) && Spaced(w.starts, MinGap(cfg))
    && (if w.store.lastFetchAt.None? then w.starts == []
        else w.starts != [] && w.starts[|w.starts| - 1] == w.store.lastFetchAt.value)
  }

  lemma RefreshKeeps(cfg: Settings, w: World, now: int, fetch: Fetch)
    requires Inv(cfg, w) && now <= fetch.endsAt
    requires Fresh(cfg, w.store, now).None? || MayRefetch(cfg, w.store, now)
    ensures Inv(cfg, World(Refreshed(cfg, w.store, now, fetch).0, w.clock,
                           w.starts + if RecentlyFailed(cfg, w.store, now) then [] else [now]))
  {
  }

  /** The world after the first stretch of a call. */
  function AfterFirst(cfg: Settings, w: World, c: Call): World {
    World(FirstKeys(cfg, w.store, c.now, c.first).0, w.clock,
          w.starts + if Fresh(cfg, w.store, c.now).None? && !RecentlyFailed(cfg, w.store, c.now) then [c.now] else [])
  }

  lemma FirstKeeps(cfg: Settings, w: World, c: Call)
    requires Inv(cfg, w) && InTime(w.clock, c)
    ensures Inv(cfg, AfterFirst(cfg, w, c))
  {
    if Fresh(cfg, w.store, c.now).None? {
      RefreshKeeps(cfg, w, c.now, c.first);
    } else {
      assert AfterFirst(cfg, w, c).starts == w.starts;
    }
  }

  lemma InvIgnoresClock(cfg: Settings, w: World, t: World)
    requires Inv(cfg, w) && t.store == w.store && t.starts == w.starts
    ensures Inv(cfg, t)
  {
  }

  /** The call goes on to its second fetch. */
  predicate Refetches(cfg: Settings, s: Store, c: Call) {
    var (s1, keys1, at1) := FirstKeys(cfg, s, c.now, c.first);
    keys1.Some? && Select(keys1.value.keys, c.kid, c.alg).None? && MayRefetch(cfg, s1, at1)
  }

  lemma AfterIs(cfg: Settings, w: World, c: Call)
    ensures var (s1, _, at1) := FirstKeys(cfg, w.store, c.now, c.first);
            var w1, t := AfterFirst(cfg, w, c), After(cfg, w, c);
            && w1.store == s1
            && t.store == (if Refetches(cfg, w.store, c) then Refreshed(cfg, s1, at1, c.second).0 else s1)
            && t.starts == if Refetches(cfg, w.store, c)
                           then w1.starts + (if RecentlyFailed(cfg, s1, at1) then [] else [at1]) else w1.starts
  {
  }

  lemma CallKeeps(cfg: Settings, w: World, c: Call)
    requires Inv(cfg, w) && InTime(w.clock, c)
    ensures Inv(cfg, After(cfg, w, c))
  {
    var (s1, keys1, at1) := FirstKeys(cfg, w.store, c.now, c.first);
    var w1 := AfterFirst(cfg, w, c);
    FirstKeeps(cfg, w, c);
    AfterIs(cfg, w, c);
    if Refetches(cfg, w.store, c) {
      var starts := w1.starts + if RecentlyFailed(cfg, s1, at1) then [] else [at1];
      RefreshKeeps(cfg, w1, at1, c.second);
      InvIgnoresClock(cfg, World(Refreshed(cfg, s1, at1, c.second).0, w1.clock, starts), After(cfg, w, c));
    } else {
      InvIgnoresClock(cfg, w1, After(cfg, w, c));
    }
  }

  function Empty(): World {
    World(Store(None, None, None), 0, [])
  }

  lemma {:induction false} RunKeeps(cfg: Settings, w: World, calls: seq<Call>)
    requires Inv(cfg, w) && Sequential(cfg, w, calls)
    ensures Inv(cfg, Run(cfg, w, calls))
    decreases calls
  {
    if calls != [] {
      CallKeeps(cfg, w, calls[0]);
      RunKeeps(cfg, After(cfg, w, calls[0]), calls[1..]);
    }
  }

  /** Whatever happens to the issuer, fetches are never closer together than the smallest of the three floors. */
  lemma FetchesAreSpaced(cfg: Settings, calls: seq<Call>, i: nat)
    requires Sequential(cfg, Empty(), calls) && 0 < i < |Run(cfg, Empty(), calls).starts|
    ensures var starts := Run(cfg, Empty(), calls).starts; starts[i] - starts[i - 1] >= MinGap(cfg)
  {
    RunKeeps(cfg, Empty(), calls);
  }

  // ---------------------------------------------------------------- outages

  predicate Fails(c: Call) {
    c.first.keys.None? && c.second.keys.None?
  }

  lemma {:induction false} OutageKeepsCache(cfg: Settings, w: World, calls: seq<Call>)
    requires forall i :: 0 <= i < |calls| ==> Fails(calls[i])
    ensures Run(cfg, w, calls).store.cache == w.store.cache
    decreases calls
  {
    if calls != [] {
      assert Fails(calls[0]);
      OutageKeepsCache(cfg, After(cfg, w, calls[0]), calls[1..]);
    }
  }

  /**
   * An issuer that stays unreachable cannot keep a key alive: however many calls have failed to fetch,
   * once the keys are older than the TTL plus the ceiling every call is denied.
   */
  lemma {:induction false} OutageEndsTrust(cfg: Settings, w: World, calls: seq<Call>, c: Call)
    requires cfg.cacheTtlMs >= 0 && cfg.maxStaleMs >= 0
    requires (forall i :: 0 <= i < |calls| ==> Fails(calls[i])) && Fails(c) && InTime(Run(cfg, w, calls).clock, c)
    requires w.store.cache.Some? ==> c.now > w.store.cache.value.fetchedAt + cfg.cacheTtlMs + cfg.maxStaleMs
    ensures LookedUp(cfg, Run(cfg, w, calls).store, c.kid, c.alg, c.now, c.first, c.second).1 == Unreachable
  {
    OutageKeepsCache(cfg, w, calls);
  }

  // ---------------------------------------------------------------- which lookups succeed

  /** The keys hold this RSA signing key once, and no other one with its id. */
  predicate Offers(cfg: Settings, keys: seq<Jwk>, kid: string, alg: string, k: Jwk) {
    && multiset(keys)[k] == 1 && kid != "" && k.kid == Some(kid)
    && k.kty == "RSA" && (k.use == None || k.use == Some("sig")) && (k.alg == None || k.alg == Some(alg))
    && cfg.keyType(k) == Some("rsa")
    && forall o :: o in keys && o != k ==> o.kid != Some(kid)
  }

  lemma OfferedIsSelected(cfg: Settings, keys: seq<Jwk>, kid: string, alg: string, k: Jwk)
    requires Offers(cfg, keys, kid, alg, k)
    ensures Select(keys, Some(kid), alg) == Some(k)
  {
    SelectedIff(keys, Some(kid), alg, k);
  }

  /** A key in a cache younger than its TTL is found at once, without a fetch. */
  lemma FreshKeyIsFound(cfg: Settings, s: Store, kid: string, alg: string, now: int, first: Fetch, second: Fetch,
                        k: Jwk)
    requires s.cache.Some? && now - s.cache.value.fetchedAt < cfg.cacheTtlMs
    requires Offers(cfg, s.cache.value.keys, kid, alg, k)
    ensures LookedUp(cfg, s, Some(kid), alg, now, first, second) == (s, Found(k, now, s.cache.value.fetchedAt))
  {
    OfferedIsSelected(cfg, s.cache.value.keys, kid, alg, k);
  }

  /** Past the TTL and outside the negative window the keys are fetched, and the key is found in what came. */
  lemma FetchedKeyIsFound(cfg: Settings, s: Store, kid: string, alg: string, now: int, first: Fetch, second: Fetch,
                          k: Jwk)
    requires s.cache.None? || now - s.cache.value.fetchedAt >= cfg.cacheTtlMs
    requires s.lastFailureAt.None? || now - s.lastFailureAt.value >= cfg.negativeCacheMs
    requires first.keys.Some? && Offers(cfg, first.keys.value, kid, alg, k)
    ensures LookedUp(cfg, s, Some(kid), alg, now, first, second)
            == (Store(Some(Cache(first.keys.value, first.endsAt)), Some(now), None),
              Found(k, first.endsAt, first.endsAt))
  {
    OfferedIsSelected(cfg, first.keys.value, kid, alg, k);
  }

  /** In an outage a key past its TTL, but within the staleness ceiling, is still found. */
  lemma StaleKeyIsFound(cfg: Settings, s: Store, kid: string, alg: string, now: int, first: Fetch, second: Fetch,
                        k: Jwk)
    requires s.cache.Some? && now - s.cache.value.fetchedAt >= cfg.cacheTtlMs && now <= first.endsAt
    requires first.keys.None? && first.endsAt - s.cache.value.fetchedAt <= cfg.cacheTtlMs + cfg.maxStaleMs
    requires Offers(cfg, s.cache.value.keys, kid, alg, k)
    ensures var recently := s.lastFailureAt.Some? && now - s.lastFailureAt.value < cfg.negativeCacheMs;
            LookedUp(cfg, s, Some(kid), alg, now, first, second)
            == if recently then (s, Found(k, now, s.cache.value.fetchedAt))
               else (Store(s.cache, Some(now), Some(first.endsAt)), Found(k, first.endsAt, s.cache.value.fetchedAt))
  {
    OfferedIsSelected(cfg, s.cache.value.keys, kid, alg, k);
  }

  /** An id that a fresh cache does not know is fetched for and found; within the floor it is denied without a fetch. */
  lemma UnknownIdIsFetchedFor(cfg: Settings, s: Store, kid: string, alg: string, now: int, first: Fetch, second: Fetch,
                              k: Jwk)
    requires s.cache.Some? && now - s.cache.value.fetchedAt < cfg.cacheTtlMs && kid != ""
    requires forall o :: o in s.cache.value.keys ==> o.kid != Some(kid)
    requires s.lastFailureAt.None? || now - s.lastFailureAt.value >= cfg.negativeCacheMs
    requires second.keys.Some? && Offers(cfg, second.keys.value, kid, alg, k)
    ensures LookedUp(cfg, s, Some(kid), alg, now, first, second)
            == if s.lastFetchAt.Some? && now - s.lastFetchAt.value < cfg.minRefetchMs then (s, NoMatch)
               else (Store(Some(Cache(second.keys.value, second.endsAt)), Some(now), None),
                     Found(k, second.endsAt, second.endsAt))
  {
    NoneSelected(s.cache.value.keys, kid, alg);
    OfferedIsSelected(cfg, second.keys.value, kid, alg, k);
  }

  lemma NoneInMultiset(c: seq<Jwk>)
    ensures c == [] || exists k :: multiset(c)[k] > 0
  {
    if c != [] { assert c[0] in multiset(c); }
  }

  lemma NoneSelected(keys: seq<Jwk>, kid: string, alg: string)
    requires kid != "" && forall o :: o in keys ==> o.kid != Some(kid)
    ensures Select(keys, Some(kid), alg) == None
  {
    var c := Candidates(keys, Some(kid), alg);
    forall k ensures multiset(c)[k] == 0 {
      CandidateCount(keys, Some(kid), alg, k);
      assert multiset(keys)[k] > 0 ==> k in keys;
    }
    NoneInMultiset(c);
  }

  /** A key that does not import, or is no RSA key, is never handed out. */
  lemma OnlyRsaIsFound(cfg: Settings, s: Store, kid: Option<string>, alg: string, now: int, first: Fetch, second: Fetch)
    requires forall k :: cfg.keyType(k) != Some("rsa")
    ensures !LookedUp(cfg, s, kid, alg, now, first, second).1.Found?
  {
  }
}
