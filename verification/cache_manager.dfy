/**
  The cache manager: the response cache together with the instant of the last
  lazy sweep and the cleanup interval. Request handling calls
  `CleanupIfNeeded`, which sweeps only when strictly more than the interval has
  elapsed since the last lazy sweep. The background thread's periodic sweep is
  modelled as a single step, `BackgroundSweep`.
 */
module CacheManager {
  import opened Values
  import opened LruCache

  /** Five minutes. */
  const DefaultCleanupInterval: Time := 5 * 60 * MicrosPerSecond

  datatype Manager = Manager(cache: Cache, lastCleanup: Time, cleanupInterval: Time)

  /** `CacheManager()` created at instant `now`, with the default settings. */
  function NewManager(now: Time): (m: Manager)
    ensures Valid(m.cache) && |m.cache.entries| == 0
    ensures m.cache.maxSize == 100 && m.cache.expirySeconds == 600
    ensures m.lastCleanup == now && m.cleanupInterval == 300 * 1000000
    ensures SweptSince(m)
  {
    Manager(LruCache.Default(), now, DefaultCleanupInterval)
  }

  /** The lazy sweep is due: strictly more than the interval has elapsed. */
  predicate SweepDue(m: Manager, now: Time)
  {
    now - m.lastCleanup > m.cleanupInterval
  }

  /** `cleanup_if_needed()` at instant `now`. The source reads the clock three
      times (for the due test, for the ages inside `clear_expired`, and for the
      new stamp); here all three reads are `now`. */
  function CleanupIfNeeded(m: Manager, now: Time): (r: Manager)
    ensures r.cleanupInterval == m.cleanupInterval
    ensures r.cache.maxSize == m.cache.maxSize && r.cache.expirySeconds == m.cache.expirySeconds
    ensures !SweepDue(m, now) ==> r == m
    ensures SweepDue(m, now) ==>
              && r.lastCleanup == now
              && (forall e :: e in r.cache.entries <==>
                               e in m.cache.entries && !Expired(e, now, m.cache.expirySeconds))
              && IsSubseq(r.cache.entries, m.cache.entries)
    ensures Valid(m.cache) ==> Valid(r.cache)
  {
    if SweepDue(m, now) then
      m.(cache := ClearExpired(m.cache, now), lastCleanup := now)
    else
      m
  }

  /** One iteration of the background thread: a sweep at instant `now` that
      does not touch `lastCleanup`. */
  function BackgroundSweep(m: Manager, now: Time): (r: Manager)
    ensures r.lastCleanup == m.lastCleanup && r.cleanupInterval == m.cleanupInterval
    ensures r.cache.maxSize == m.cache.maxSize && r.cache.expirySeconds == m.cache.expirySeconds
    ensures forall e :: e in r.cache.entries <==>
                        e in m.cache.entries && !Expired(e, now, m.cache.expirySeconds)
    ensures IsSubseq(r.cache.entries, m.cache.entries)
    ensures Valid(m.cache) ==> Valid(r.cache)
    ensures SweptSince(m) ==> SweptSince(r)
  {
    m.(cache := ClearExpired(m.cache, now))
  }

  /** Every entry was younger than the expiry at the last lazy sweep, or was
      written after it. This holds of a fresh manager and is kept by every
      operation when the clock does not run backwards. */
  ghost predicate SweptSince(m: Manager)
  {
    forall e :: e in m.cache.entries ==>
      m.lastCleanup - e.stamp < m.cache.expirySeconds * MicrosPerSecond
  }

  /** Right after `CleanupIfNeeded`, a second call at the same instant is a
      no-op (for a non-negative interval). */
  lemma CleanupIdempotent(m: Manager, now: Time)
    requires m.cleanupInterval >= 0
    ensures CleanupIfNeeded(CleanupIfNeeded(m, now), now) == CleanupIfNeeded(m, now)
  {
  }

  /** After a lazy sweep that ran, nothing aged `expirySeconds` or more remains. */
  lemma SweepLeavesNoExpired(m: Manager, now: Time)
    requires SweepDue(m, now)
    ensures forall e :: e in CleanupIfNeeded(m, now).cache.entries ==>
                        !Expired(e, now, m.cache.expirySeconds)
  {
  }

  /** The staleness bound of the lazy path: once `CleanupIfNeeded` has run, no
      entry is older than the cleanup interval plus the expiry, whether or not
      the sweep was due. Requires the clock not to have gone back since the
      last sweep. */
  lemma StalenessBound(m: Manager, now: Time)
    requires SweptSince(m)
    requires m.lastCleanup <= now && m.cleanupInterval >= 0
    ensures SweptSince(CleanupIfNeeded(m, now))
    ensures forall e :: e in CleanupIfNeeded(m, now).cache.entries ==>
                        now - e.stamp < m.cleanupInterval + m.cache.expirySeconds * MicrosPerSecond
  {
    var r := CleanupIfNeeded(m, now);
    forall e | e in r.cache.entries
      ensures now - e.stamp < m.cleanupInterval + m.cache.expirySeconds * MicrosPerSecond
      ensures r.lastCleanup - e.stamp < m.cache.expirySeconds * MicrosPerSecond
    {
      assert e in m.cache.entries;
    }
  }
}
