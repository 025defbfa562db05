/**
  The request dispatcher `make_imdb_request`, in its three flavours. The cache
  protocol is the same in all of them:

    1. run the time-gated cleanup;
    2. look the key up (a hit is promoted even when its value is falsy);
    3. a truthy cached value is returned at once;
    4. otherwise the credential is consulted: without one the call fails;
    5. the upstream is called; a failure is reported and nothing is cached;
    6. on success the data is written under the key and returned.

  The flavours differ only in where the credential comes from and in how a
  failure reaches the caller (a raised `ValueError` or a returned string).
  The upstream call and the credential are inputs of the model.
 */
module Dispatcher {
  import opened Values
  import opened LruCache
  import opened CacheManager

  /** What the upstream request produced: decoded JSON, or a failure (transport
      error, timeout, non-2xx status, or a body that is not JSON). */
  datatype Upstream = Fetched(data: Json) | Unavailable

  datatype Failure = MissingCredential | UpstreamUnavailable

  /** How the call ends for its caller. */
  datatype Reply = Returned(value: Json) | Raised(failure: Failure)

  /** The reply, the manager afterwards, and whether the upstream was called. */
  datatype Outcome = Outcome(reply: Reply, state: Manager, upstreamCalled: bool)

  const MissingKeyText: string :=
    "API key not found. Please set the RAPID_API_KEY_IMDB environment variable."
  const FetchFailedText: string :=
    "Unable to fetch data from IMDb. Please try again later."

  /** The lookup at `now` finds a truthy value, which is served from the cache. */
  predicate ServedFromCache(m: Manager, key: Key, now: Time)
  {
    var found := Lookup(CleanupIfNeeded(m, now).cache.entries, key);
    found.Some? && Truthy(found.value.data)
  }

  /** The shared cache protocol. `credential` is the resolved key (it is only
      tested after the lookup, so a hit succeeds without one), `upstream` what
      the request would produce, `now` the instant of the call and `storedAt`
      the instant the result is written (the clock is read again after the
      request). A failing `set` is inside the same `try` as the request, so it
      is reported like an upstream failure. */
  function Fetch(m: Manager, key: Key, credential: Option<string>, upstream: Upstream,
                 now: Time, storedAt: Time): (o: Outcome)
    ensures o.state.cleanupInterval == m.cleanupInterval
    ensures o.state.lastCleanup == CleanupIfNeeded(m, now).lastCleanup
    ensures o.state.cache.maxSize == m.cache.maxSize
    ensures o.state.cache.expirySeconds == m.cache.expirySeconds
    ensures Valid(m.cache) ==> Valid(o.state.cache)
    // a truthy hit: served, no upstream call, only the promotion changes the store
    ensures ServedFromCache(m, key, now) ==>
              && o.reply == Returned(Lookup(CleanupIfNeeded(m, now).cache.entries, key).value.data)
              && !o.upstreamCalled
              && o.state.cache == Get(CleanupIfNeeded(m, now).cache, key).1
    // the upstream is called exactly on a miss (or falsy hit) with a credential
    ensures o.upstreamCalled <==> !ServedFromCache(m, key, now) && Present(credential)
    ensures o.reply == Raised(MissingCredential) <==>
              !ServedFromCache(m, key, now) && !Present(credential)
    ensures o.reply == Raised(UpstreamUnavailable) ==> o.upstreamCalled
    // a failure leaves the store as the lookup left it: nothing is cached
    ensures o.reply.Raised? ==> o.state.cache == Get(CleanupIfNeeded(m, now).cache, key).1
    ensures o.upstreamCalled && upstream.Unavailable? ==> o.reply == Raised(UpstreamUnavailable)
    // a successful upstream call caches the data under the key, at the back
    ensures o.upstreamCalled && o.reply.Returned? ==>
              && upstream == Fetched(o.reply.value)
              && |o.state.cache.entries| > 0
              && Last(o.state.cache.entries) == Entry(key, storedAt, o.reply.value)
    // a successful request on a miss goes through `set`: its store, and the data, on success
    ensures !ServedFromCache(m, key, now) && Present(credential) && upstream.Fetched? ==>
              var s := Set(Get(CleanupIfNeeded(m, now).cache, key).1, key, upstream.data, storedAt);
              && (s.Ok? ==> o.reply == Returned(upstream.data) && o.state.cache == s.value)
              && (s.Err? ==> o.reply == Raised(UpstreamUnavailable))
  {
    var cleaned := CleanupIfNeeded(m, now);
    var (hit, looked) := Get(cleaned.cache, key);
    var afterLookup := cleaned.(cache := looked);
    if hit.Some? && Truthy(hit.value) then
      Outcome(Returned(hit.value), afterLookup, false)
    else if !Present(credential) then
      Outcome(Raised(MissingCredential), afterLookup, false)
    else
      match upstream
      case Unavailable => Outcome(Raised(UpstreamUnavailable), afterLookup, true)
      case Fetched(data) =>
        match Set(looked, key, data, storedAt)
        case Err(_) => Outcome(Raised(UpstreamUnavailable), afterLookup, true)
        case Ok(stored) => Outcome(Returned(data), cleaned.(cache := stored), true)
  }

  // ---------------------------------------------------------------------------
  // The three flavours

  /** Where the package flavour finds a session key: no context, a context with
      no session config, or a session config with a (possibly missing) key. */
  datatype SessionContext = NoContext | NoSessionConfig | Session(rapidApiKeyImdb: Option<string>)

  /** Credential of the package flavour: the session key when there is a
      truthy one, otherwise the environment variable. */
  function SessionCredential(ctx: SessionContext, env: Option<string>): (r: Option<string>)
    ensures ctx.Session? && Present(ctx.rapidApiKeyImdb) ==> r == ctx.rapidApiKeyImdb
    ensures !(ctx.Session? && Present(ctx.rapidApiKeyImdb)) ==> r == env
  {
    var fromSession := if ctx.Session? then ctx.rapidApiKeyImdb else None;
    Or(fromSession, env)
  }

  /** `make_imdb_request` of the HTTP server modules: the credential is the
      per-request config value, or else the key recorded at stdio start-up
      (`get_api_key`); failures are raised. */
  function ConfigFetch(m: Manager, key: Key, requestValue: Option<string>, stdioKey: Option<string>,
                       upstream: Upstream, now: Time, storedAt: Time): (o: Outcome)
    ensures o.upstreamCalled <==>
              !ServedFromCache(m, key, now) && (Present(requestValue) || Present(stdioKey))
    ensures o.reply == Raised(MissingCredential) <==>
              !ServedFromCache(m, key, now) && !Present(requestValue) && !Present(stdioKey)
    // otherwise it is the shared protocol: the request value when truthy, else the stdio key
    ensures Present(requestValue) ==> o == Fetch(m, key, requestValue, upstream, now, storedAt)
    ensures !Present(requestValue) ==> o == Fetch(m, key, stdioKey, upstream, now, storedAt)
  {
    Fetch(m, key, Or(requestValue, stdioKey), upstream, now, storedAt)
  }

  /** `make_imdb_request` of the package (credential from the session, falling
      back to the environment; failures raised). */
  function SessionFetch(m: Manager, key: Key, ctx: SessionContext, env: Option<string>,
                        upstream: Upstream, now: Time, storedAt: Time): (o: Outcome)
    ensures ctx.Session? && Present(ctx.rapidApiKeyImdb) ==>
              o == Fetch(m, key, ctx.rapidApiKeyImdb, upstream, now, storedAt)
    ensures !(ctx.Session? && Present(ctx.rapidApiKeyImdb)) ==>
              o == Fetch(m, key, env, upstream, now, storedAt)
  {
    Fetch(m, key, SessionCredential(ctx, env), upstream, now, storedAt)
  }

  /** The stand-alone server reports a failure by returning a message string. */
  function ReportAsString(r: Reply): (s: Json)
    ensures r.Returned? ==> s == r.value
    ensures r == Raised(MissingCredential) ==> s == Str(MissingKeyText)
    ensures r == Raised(UpstreamUnavailable) ==> s == Str(FetchFailedText)
  {
    match r
    case Returned(v) => v
    case Raised(MissingCredential) => Str(MissingKeyText)
    case Raised(UpstreamUnavailable) => Str(FetchFailedText)
  }

  /** `make_imdb_request` of the stand-alone server: the key is read once from
      the environment, and failures come back as strings, never raised. */
  function ServerFetch(m: Manager, key: Key, apiKey: Option<string>,
                       upstream: Upstream, now: Time, storedAt: Time): (o: Outcome)
    ensures o.reply.Returned?
    ensures o.upstreamCalled <==> !ServedFromCache(m, key, now) && Present(apiKey)
    ensures !ServedFromCache(m, key, now) && !Present(apiKey) ==>
              && o.reply == Returned(Str(MissingKeyText))
              && o.state.cache == Get(CleanupIfNeeded(m, now).cache, key).1
    ensures o.upstreamCalled && upstream.Unavailable? ==>
              && o.reply == Returned(Str(FetchFailedText))
              && o.state.cache == Get(CleanupIfNeeded(m, now).cache, key).1
    ensures ServedFromCache(m, key, now) ==>
              o.reply == Returned(Lookup(CleanupIfNeeded(m, now).cache.entries, key).value.data)
    // a successful request on a miss caches the data through `set` and returns it
    ensures !ServedFromCache(m, key, now) && Present(apiKey) && upstream.Fetched? ==>
              var s := Set(Get(CleanupIfNeeded(m, now).cache, key).1, key, upstream.data, storedAt);
              && (s.Ok? ==> o.reply == Returned(upstream.data) && o.state.cache == s.value)
              && (s.Err? ==> o.reply == Returned(Str(FetchFailedText))
                             && o.state.cache == Get(CleanupIfNeeded(m, now).cache, key).1)
    // the store evolves exactly as under the raising flavours
    ensures o.state == Fetch(m, key, apiKey, upstream, now, storedAt).state
  {
    var inner := Fetch(m, key, apiKey, upstream, now, storedAt);
    inner.(reply := Returned(ReportAsString(inner.reply)))
  }

  // ---------------------------------------------------------------------------
  // Properties of the protocol

  /** A truthy hit does not depend on the credential or on the upstream: the
      call succeeds even when no key is configured. */
  lemma HitIgnoresCredential(m: Manager, key: Key, c1: Option<string>, c2: Option<string>,
                             u1: Upstream, u2: Upstream, now: Time, t1: Time, t2: Time)
    requires ServedFromCache(m, key, now)
    ensures Fetch(m, key, c1, u1, now, t1) == Fetch(m, key, c2, u2, now, t2)
    ensures Fetch(m, key, None, u1, now, t1).reply.Returned?
  {
  }

  /** The cleanup runs before the lookup: when a sweep is due, an entry that has
      reached its expiry is not served, even though `get` itself would return it. */
  lemma CleanupPrecedesLookup(m: Manager, key: Key, credential: Option<string>, upstream: Upstream,
                              now: Time, storedAt: Time)
    requires Valid(m.cache) && SweepDue(m, now)
    requires Lookup(m.cache.entries, key).Some?
    requires Expired(Lookup(m.cache.entries, key).value, now, m.cache.expirySeconds)
    ensures !ServedFromCache(m, key, now)
    ensures Fetch(m, key, credential, upstream, now, storedAt).upstreamCalled <==> Present(credential)
  {
    var cleaned := CleanupIfNeeded(m, now).cache.entries;
    if key in Keys(cleaned) {
      var e := Lookup(cleaned, key).value;
      assert e in m.cache.entries && !Expired(e, now, m.cache.expirySeconds);
      LookupFindsMember(m.cache.entries, e);
      assert false;
    }
  }

  /** Between sweeps, an expired entry with a truthy value is still served. */
  lemma StaleEntryServedBetweenSweeps(m: Manager, key: Key, now: Time)
    requires !SweepDue(m, now)
    requires Lookup(m.cache.entries, key).Some?
    requires Truthy(Lookup(m.cache.entries, key).value.data)
    ensures ServedFromCache(m, key, now)
  {
  }

  /** Cache idempotence: a successful request with a truthy result on a store
      with room is returned and cached, and a second call for the same key
      within the expiry window is a hit, whatever the credential and the
      upstream would do then. */
  lemma SecondCallHitsCache(m: Manager, key: Key, c1: Option<string>, c2: Option<string>,
                            data: Json, u2: Upstream, now1: Time, t1: Time, now2: Time, t2: Time)
    requires Valid(m.cache) && m.cache.maxSize >= 1
    requires !ServedFromCache(m, key, now1) && Present(c1) && Truthy(data)
    requires now2 - t1 < m.cache.expirySeconds * MicrosPerSecond
    ensures var o1 := Fetch(m, key, c1, Fetched(data), now1, t1);
            var o2 := Fetch(o1.state, key, c2, u2, now2, t2);
            && o1.upstreamCalled && o1.reply == Returned(data)
            && !o2.upstreamCalled && o2.reply == Returned(data)
  {
    var o1 := Fetch(m, key, c1, Fetched(data), now1, t1);
    FetchStoresOnMiss(m, key, c1, data, now1, t1);
    StoredEntryFound(o1.state, key, now2, t1, data);
  }

  /** A falsy result (an empty list or object) is returned and cached but never
      served: the next call for the key goes upstream again. */
  lemma FalsyResultRefetched(m: Manager, key: Key, c1: Option<string>, c2: Option<string>,
                             data: Json, u2: Upstream, now1: Time, t1: Time, now2: Time, t2: Time)
    requires Valid(m.cache) && m.cache.maxSize >= 1
    requires !ServedFromCache(m, key, now1) && Present(c1) && !Truthy(data)
    requires now2 - t1 < m.cache.expirySeconds * MicrosPerSecond
    requires Present(c2)
    ensures var o1 := Fetch(m, key, c1, Fetched(data), now1, t1);
            && o1.reply == Returned(data)
            && Lookup(o1.state.cache.entries, key) == Some(Entry(key, t1, data))
            && Fetch(o1.state, key, c2, u2, now2, t2).upstreamCalled
  {
    var o1 := Fetch(m, key, c1, Fetched(data), now1, t1);
    FetchStoresOnMiss(m, key, c1, data, now1, t1);
    StoredEntryFound(o1.state, key, now2, t1, data);
  }

  /** On a store that can be written (`max_size >= 1`), a miss with a credential
      and a successful request returns the data and leaves it under the key,
      as the most recently used entry. */
  lemma FetchStoresOnMiss(m: Manager, key: Key, credential: Option<string>, data: Json,
                          now: Time, storedAt: Time)
    requires Valid(m.cache) && m.cache.maxSize >= 1
    requires !ServedFromCache(m, key, now) && Present(credential)
    ensures var o := Fetch(m, key, credential, Fetched(data), now, storedAt);
            && o.upstreamCalled && o.reply == Returned(data)
            && Valid(o.state.cache) && |o.state.cache.entries| > 0
            && Last(o.state.cache.entries) == Entry(key, storedAt, data)
            && Lookup(o.state.cache.entries, key) == Some(Entry(key, storedAt, data))
  {
    var o := Fetch(m, key, credential, Fetched(data), now, storedAt);
    var looked := Get(CleanupIfNeeded(m, now).cache, key).1;
    SetSucceeds(looked, key, data, storedAt);
    LookupLastUnique(o.state.cache.entries);
  }

  /** The entry at the back survives a cleanup within its expiry window and is
      what the lookup then finds. */
  lemma StoredEntryFound(m: Manager, key: Key, now: Time, t: Time, d: Json)
    requires Valid(m.cache) && |m.cache.entries| > 0
    requires Last(m.cache.entries) == Entry(key, t, d)
    requires now - t < m.cache.expirySeconds * MicrosPerSecond
    ensures Lookup(CleanupIfNeeded(m, now).cache.entries, key) == Some(Entry(key, t, d))
  {
    var e := Entry(key, t, d);
    assert e in m.cache.entries;
    var cleaned := CleanupIfNeeded(m, now).cache;
    assert e in cleaned.entries;
    LookupFindsMember(cleaned.entries, e);
  }

  /** Every call keeps the staleness invariant of the lazy sweep, provided the
      clock does not run backwards and the expiry is positive. */
  lemma FetchKeepsSweptSince(m: Manager, key: Key, credential: Option<string>, upstream: Upstream,
                             now: Time, storedAt: Time)
    requires Valid(m.cache) && SweptSince(m)
    requires m.lastCleanup <= now <= storedAt && m.cleanupInterval >= 0
    requires m.cache.expirySeconds > 0
    ensures SweptSince(Fetch(m, key, credential, upstream, now, storedAt).state)
  {
    var o := Fetch(m, key, credential, upstream, now, storedAt);
    var cleaned := CleanupIfNeeded(m, now);
    StalenessBound(m, now);
    var looked := Get(cleaned.cache, key).1;
    if o.upstreamCalled && o.reply.Returned? {
      var stored := Set(looked, key, o.reply.value, storedAt);
      assert stored.Ok? && o.state.cache == stored.value;
    }
  }

  /** The bound a caller can rely on: a value served from the cache was written
      less than the cleanup interval plus the expiry ago. */
  lemma ServedEntryAgeBound(m: Manager, key: Key, now: Time)
    requires SweptSince(m)
    requires m.lastCleanup <= now && m.cleanupInterval >= 0
    requires ServedFromCache(m, key, now)
    ensures now - Lookup(CleanupIfNeeded(m, now).cache.entries, key).value.stamp
            < m.cleanupInterval + m.cache.expirySeconds * MicrosPerSecond
  {
    StalenessBound(m, now);
  }
}
