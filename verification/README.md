# IMDb tool server: response cache, cleanup, dispatcher and pagination

This project is a Dafny model of the one part of the IMDb tool server that holds
real logic. The rest of the server is pass-through code around it. The modelled part has four pieces:

- **`ResponseCache`** (`LruCache` module). A bounded store ordered by recency of use.
  Each entry holds a key, an insertion timestamp and the data. The front entry is
  the least recently used one and the back entry the most recently used one.
  - `get` promotes a hit to the back.
  - `set` pops the front entry when the store holds `max_size` or more entries,
    then writes the key at the back with a fresh timestamp.
  - `clear_expired` drops every entry whose age is at least `expiry_seconds`.
- **`CacheManager.cleanup_if_needed`** (`CacheManager` module). A time-gated sweep.
  It runs `clear_expired` only when strictly more than the cleanup interval has
  passed since the last lazy sweep, then stamps the time of that sweep. One
  iteration of the background thread is modelled as `BackgroundSweep`.
- **`make_imdb_request`** (`Dispatcher` module). The cache protocol of every tool
  call, in order:
  1. run the cleanup;
  2. look up the key;
  3. return a truthy cached value at once;
  4. otherwise check the credential;
  5. call the upstream API;
  6. cache the result and return it.

  There are four copies (`src/api.py`, `src/imdb_mcp_server/api.py`, `src/main.py`
  and `imdb_server.py`) in three variants. The variants differ only in two ways.
  One is where the credential comes from (`ConfigFetch`, `SessionFetch`,
  `ServerFetch`). The other is whether failures are raised or returned as strings.
- **`paginated_response`** (`Paginator` module). A pure window of five items with
  `start`, `count`, `totalCount`, `hasMore` and `nextStart`.

The cache and the pagination code appear several times in the repository. The
copies are `src/cache.py`, `src/imdb_mcp_server/cache.py`, and the inline copies
in `src/main.py` and `imdb_server.py`. The copies of the cache and of
`paginated_response` are identical apart from docstrings and one type annotation
(`imdb_server.py` builds a plain `OrderedDict()` where the others write
`OrderedDict[Any, Any]()`, which behaves the same), so each is modelled once. The rows below cite whichever copy the property is read from.

Modelling choices:
- Time is an integer count of microseconds, the resolution of Python's `datetime`.
  The wall clock becomes a `now` parameter. The dispatcher takes two instants:
  `now` for the cleanup and `storedAt` for the timestamp that `set` writes after
  the request returns. `cleanup_if_needed` reads the clock three times: for the
  due test, inside `clear_expired` for the ages, and for the new last-sweep stamp.
  The model uses the one instant `now` for all three reads.
- Cached data is a JSON datatype with Python truthiness (`Values.Truthy`). This
  matters because the dispatcher tests `if cached_data:`, so an empty list,
  an empty object, `0`, `""` or `null` counts as a miss.
- The upstream call is an input: `Fetched(data)` or `Unavailable`. `Unavailable`
  covers a transport error, a timeout, a non-2xx status and a body that is not
  JSON. The credential is an input too, as an optional string. Python's
  `a or b` on it is `Values.Or`.
- `popitem(last=False)` on an empty ordered dict raises `KeyError`. That happens
  when `max_size <= 0`. `Set` returns `Err(PopFromEmpty)` then. The
  dispatcher's `set` call is inside the same `try` as the request, so the
  dispatcher reports this as a failed fetch.
- The pagination slice follows Python's slice rules, including negative bounds.
  So an explicit `total_count` that disagrees with `len(items)` is modelled as
  the code would behave.

Behaviour of the code worth knowing:
- Cache keys are not canonicalised. The key is `f"{url}_{str(querystring)}"`, so
  it depends on the order in which the query dict was built. The model treats
  keys as opaque strings.
- A cache hit is served only when the cached value is truthy. A falsy cached
  value is fetched again every time (`FalsyResultRefetched`).
- Writing a key that is present, but not at the front, into a full store still
  evicts the front entry. An unrelated entry is lost and the store is left one
  short of `max_size` (`FullOverwriteDropsUnrelated`). When the key written is the
  front key itself, the pop removes that key and the write puts it back at the
  end, so nothing is lost (`FullOverwriteOfFront`). A run of writes fills the store
  to `max_size` only when the keys are distinct and new (`SetEachFillsToCapacity`).
- `get` never looks at the timestamp, although its docstring says "if not expired".
  Only a sweep removes stale entries (`GetIgnoresExpiry`,
  `StaleEntryServedBetweenSweeps`).
- The two failure kinds are not typed. Three copies raise `ValueError` for both,
  and `imdb_server.py` returns message strings instead.
- The background sweep loop has no exception handling.

## Model

| member | source | states |
|---|---|---|
| `LruCache.Get` | src/cache.py:16-23 | A hit returns the stored data and moves that entry to the back; the other entries keep their relative order, and the set of entries (keys, data, timestamps) is unchanged. A miss returns nothing and leaves the store as it was. Unique keys and the size bound are preserved. |
| `LruCache.Set` | src/cache.py:25-34 | It fails exactly when a pop is needed on an empty store. Otherwise the new entry `(k, now, d)` is last. If the store was full, the remaining entries are the old ones minus the front one and except `k`'s, in order. If it was not full, they are all the old entries except `k`'s, in order. No other entry appears. Unique keys and `size <= max_size` are preserved. |
| `LruCache.ClearExpired` | src/cache.py:36-44 | It keeps exactly the entries aged less than `expiry_seconds` (`now - ts >= expiry` is removed). Survivors are unchanged and keep their order. Validity is preserved. |
| `LruCache.Default` | src/cache.py:11-14 | The default store is empty and valid, with `max_size = 100` and `expiry_seconds = 600`. |
| `LruCache.SetSucceeds` | src/imdb_mcp_server/cache.py:25-34 | On a valid store with `max_size >= 1`, `set` cannot fail, the result is valid, and the key looks up to the new data and timestamp. |
| `LruCache.FullSetEvictsFront` | src/imdb_mcp_server/cache.py:28-30 | Writing an absent key into a full store removes exactly the front entry. The result is the old entries minus the front one, plus the new one at the back, so the size stays at `max_size`. |
| `LruCache.FullOverwriteDropsUnrelated` | src/main.py:97-105 | Writing a key already present (not at the front) into a full store still pops the front entry. The store loses that unrelated key and ends at `max_size - 1`. |
| `LruCache.FullOverwriteOfFront` | src/cache.py:28-34 | Writing the front key into a full store pops that very entry and re-appends it with the new data and timestamp. The result is the old entries minus the front one, plus the new entry at the back: the size stays at `max_size` and the key set is unchanged. |
| `LruCache.GetIgnoresExpiry` | src/imdb_mcp_server/cache.py:16-23 | `get` returns an entry that has already reached its expiry. |
| `LruCache.ClearExpiredIdempotent` | src/imdb_mcp_server/cache.py:36-44 | A second sweep at the same instant changes nothing. |
| `LruCache.GetProtectsFromEviction` | imdb_server.py:38-54 | With room for two, after `set(a); set(b); get(a); set(c)` the keys are `{a, c}`: `b`, the least recently used, was evicted. |
| `LruCache.ExpiryBoundary` | src/main.py:107-115 | With the defaults, an entry written at `t0` survives a sweep at `t0 + 599 s` and is gone after a sweep at `t0 + 601 s`. |
| `LruCache.SetFreshKeySize` | imdb_server.py:46-54 | Writing an absent key into a valid store grows it by one, or keeps it at `max_size` when full. The resulting key set is the old one (minus the front key if full) plus the new key. |
| `LruCache.SetEachFillsToCapacity` | src/cache.py:25-34 | Writing `n` distinct new keys one after another ends at size `min(size + n, max_size)`. The store stays valid throughout. |
| `CacheManager.NewManager` | src/cache.py:50-53 | A new manager has an empty valid store with the defaults (100 entries, 600 s), a cleanup interval of 5 minutes, and a last sweep at creation time. |
| `CacheManager.CleanupIfNeeded` | src/cache.py:67-72 | If strictly more than the interval has elapsed, it stamps `now`. It then keeps exactly the unexpired entries, in order. Otherwise the manager is unchanged. Validity is preserved. |
| `CacheManager.BackgroundSweep` | src/cache.py:58-61 | One iteration of the background loop keeps exactly the unexpired entries, in their order, and leaves the last-sweep stamp, the cleanup interval, `max_size` and `expiry_seconds` alone. It preserves validity and the staleness invariant. |
| `CacheManager.CleanupIdempotent` | src/imdb_mcp_server/cache.py:67-72 | For a non-negative interval, a second cleanup at the same instant is a no-op. |
| `CacheManager.SweepLeavesNoExpired` | src/imdb_mcp_server/cache.py:67-72 | After a sweep that was due, no entry aged `expiry_seconds` or more remains. |
| `CacheManager.StalenessBound` | src/main.py:141-144 | After the lazy cleanup, every entry is younger than the cleanup interval plus the expiry, whether or not the sweep ran. This needs the staleness invariant and a clock that has not gone back. |
| `Dispatcher.Fetch` | src/api.py:13-49 | A truthy hit is returned with no upstream call; the only change is the promotion. The upstream is called iff there is no truthy hit and a credential is present. A missing credential fails iff there is no truthy hit. Every failure leaves the store as the lookup left it. On a miss with a credential, a fetched value goes through `set` on the store the lookup left: if `set` succeeds the call returns the data and the store is `set`'s result, with `(key, storedAt, data)` at the back; if `set` fails (a pop on an empty store) the call fails as an upstream failure. Conversely, a success after an upstream call returned what the upstream fetched. Validity is preserved. |
| `Dispatcher.ConfigFetch` | src/main.py:136-174 | With the credential taken as `request config value or stdio key`, the upstream is called iff there is no truthy hit and either source is truthy. The call raises the missing-credential failure iff there is no truthy hit and neither source is truthy. In every case the outcome (reply, store, upstream call) is the shared protocol's, run with the request value when it is truthy and with the stdio key otherwise. |
| `Dispatcher.SessionCredential` | src/imdb_mcp_server/api.py:29-34 | A truthy session key wins. Otherwise the environment value is used. |
| `Dispatcher.SessionFetch` | src/imdb_mcp_server/api.py:14-55 | The package flavour is the shared protocol run with the session key when one is truthy, and with the environment value otherwise. |
| `Dispatcher.ServerFetch` | imdb_server.py:85-121 | The stand-alone server never raises. The upstream is called iff there is no truthy hit and `API_KEY` is truthy. A missing key or an upstream failure returns the message string and caches nothing. A truthy hit returns the cached data. On a miss with a key, a fetched value is stored through `set` and returned; a failing `set` returns the "Unable to fetch" string and caches nothing. The store evolves exactly as in the raising variants. |
| `Dispatcher.HitIgnoresCredential` | src/main.py:150-162 | A truthy hit has the same outcome whatever the credential and the upstream. It succeeds even with no key configured. |
| `Dispatcher.CleanupPrecedesLookup` | src/api.py:16-25 | When a sweep is due, an expired entry for the key is not served. The call goes upstream iff a credential is present. |
| `Dispatcher.StaleEntryServedBetweenSweeps` | imdb_server.py:90-101 | When no sweep is due, a truthy entry is served even if it has expired. |
| `Dispatcher.FetchStoresOnMiss` | src/api.py:40-47 | On a valid store with `max_size >= 1`, a miss with a credential and a fetched value calls the upstream, returns the data, and leaves `(key, storedAt, data)` as the most recently used entry, which the key then looks up to. |
| `Dispatcher.SecondCallHitsCache` | src/imdb_mcp_server/api.py:23-53 | On a valid store with `max_size >= 1`, a miss with a credential and a truthy fetched value returns that value after an upstream call. A second call for the same key within the expiry window then makes no upstream call and returns the same data. |
| `Dispatcher.FalsyResultRefetched` | src/api.py:23-47 | On a valid store with `max_size >= 1`, a falsy fetched value is returned and cached under the key. The next call for the key within the expiry window, with a credential, still calls the upstream again. |
| `Dispatcher.FetchKeepsSweptSince` | src/main.py:141-170 | With a non-decreasing clock and a positive expiry, every call keeps the staleness invariant of the lazy sweep. |
| `Dispatcher.ServedEntryAgeBound` | imdb_server.py:90-101 | A value served from the cache was written less than the cleanup interval plus the expiry before the call. |
| `Paginator.Paginate` | src/api.py:52-71 | `totalCount` defaults to `len(items)`. `start` is clamped into `[0, max(total-1, 0)]`, keeping an in-range start and mapping too-large starts to `total-1`. `count = min(5, total - start)` lies in `[0, 5]` for `total >= 0`. `hasMore` iff `start + count < total`, and then the page is full. `nextStart` is `start + count` exactly when `hasMore`. The items are `items[start .. start+count]` when `total <= len(items)`. An empty total gives an empty page. |
| `Paginator.PySlice` | src/imdb_mcp_server/api.py:71 | Python slicing agrees with the plain subsequence on in-range bounds and never yields more than the input. |
| `Paginator.FollowPages` | src/imdb_mcp_server/api.py:58-77 | A client that calls `paginated_response` at 0 and then at each announced `nextStart` until `hasMore` is false gets pages that concatenate to the items exactly. Page `i` is `paginated_response(items, 5 * i)`, each page's `nextStart` is the next page's `start`, and every page but the last is full. |
| `Paginator.Examples` | imdb_server.py:124-143 | On `[0..23]`, start 0 gives `[0..4]`, `hasMore`, `nextStart = 5`. Start 20 gives `[20..23]` and no more. An empty list at start 5 gives an empty page at 0. Starts `-3` and `999` on `[0..9]` behave as 0 and 9. |
| `Values.Or` | src/config.py:52-54 | Python's `a or b` on optional strings is truthy iff one of them is, and prefers `a` when it is truthy. |

## Left out

- The background cleanup threads (`clear_cache_periodically`) and their infinite sleep loop. The model has only the single sweep of each iteration (`BackgroundSweep`). It has no concurrency, so the interleaving of that thread with requests is not modelled. The code uses no locks.
- `datetime.now()`: the wall clock is a parameter.
- CacheManager.CleanupIfNeeded: uses one instant for the three clock reads of `cleanup_if_needed` (the due test, the ages inside `clear_expired`, the new stamp). The code also removes an entry that reaches its expiry between the due test and the read inside `clear_expired`; the model keeps it. The code stamps the last sweep with the later third read, so an entry can reach its expiry between the sweep's read and that stamp. `CacheManager.SweptSince`, `CacheManager.StalenessBound` and `Dispatcher.FetchKeepsSweptSince` therefore hold of the code only up to the time between those reads. `CacheManager.StalenessBound` and `Dispatcher.FetchKeepsSweptSince` assume the clock does not go back, which a wall clock does not guarantee.
- The HTTP request (`requests.get`, `raise_for_status`, `response.json()`), its headers and its 30-second timeout. They are foreign I/O and become the `Upstream` input.
- Building the cache key from the URL and the `repr` of the query dict. It depends on Python's dict formatting, so keys are opaque strings.
- The exception message texts of the raising flavours, including the text of the wrapped upstream exception. Only the failure kind is modelled.
- The `print` heartbeat of the sweeps, and floating-point JSON numbers: values are integers only.
- Credential lookup (`src/config.py`: thread-local and context-variable lookup, stdio initialisation). The per-request config value, the stdio key, the session key and the environment value are inputs.
- The `@mcp.tool` wrappers (`src/imdb_mcp_server/tools.py` and the tool functions of `src/main.py` and `imdb_server.py`). The server entry points, middleware, signal handling and CORS are left out too. These only build query dicts, call the dispatcher and format JSON.
- Paginator.Paginate: bounds `count` to `[0, 5]` and describes the returned items only when `0 <= totalCount`, and when `totalCount <= len(items)` for the items. Every call site passes `len(items)`. For a negative explicit `total_count` the code yields a negative `count` and a slice with a negative bound; the function models that behaviour, but the contract does not describe it.
