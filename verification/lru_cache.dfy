/**
  The response cache: an ordered map `key -> (timestamp, data)` whose order is
  recency of use. The front entry is the least recently used one, the back
  entry the most recently used one. `Get` promotes a hit to the back, `Set`
  evicts the front entry when the store is full and writes at the back, and
  `ClearExpired` drops every entry whose age has reached the expiry.
 */
module LruCache {
  import opened Values

  /** Cache keys are opaque strings; how the dispatcher builds them is not modelled. */
  type Key = string

  /** Wall-clock instants and durations, in microseconds (the resolution of
      Python's `datetime`). */
  type Time = int

  const MicrosPerSecond: int := 1000000
  const DefaultMaxSize: int := 100
  const DefaultExpirySeconds: int := 600

  datatype Entry = Entry(key: Key, stamp: Time, data: Json)

  /** The store: entries in recency order plus the two constructor settings. */
  datatype Cache = Cache(entries: seq<Entry>, maxSize: int, expirySeconds: int)

  /** `popitem(last=False)` on an empty ordered dict raises `KeyError`. */
  datatype CacheError = PopFromEmpty

  // ---------------------------------------------------------------------------
  // Sequences of entries

  function Keys(s: seq<Entry>): set<Key>
  {
    if |s| == 0 then {} else {s[0].key} + Keys(s[1..])
  }

  /** No key occurs twice, as in a dictionary. */
  predicate UniqueKeys(s: seq<Entry>)
  {
    |s| == 0 || (s[0].key !in Keys(s[1..]) && UniqueKeys(s[1..]))
  }

  /** `a` is `b` with some entries left out, the rest in their original order. */
  predicate IsSubseq(a: seq<Entry>, b: seq<Entry>)
    decreases |b|
  {
    if |a| == 0 then true
    else if |b| == 0 then false
    else (a[0] == b[0] && IsSubseq(a[1..], b[1..])) || IsSubseq(a, b[1..])
  }

  function Last(s: seq<Entry>): Entry
    requires |s| > 0
  {
    s[|s| - 1]
  }

  /** The entry stored under `k`, if any. */
  function Lookup(s: seq<Entry>, k: Key): (r: Option<Entry>)
    ensures r.Some? <==> k in Keys(s)
    ensures r.Some? ==> r.value in s && r.value.key == k
  {
    if |s| == 0 then None
    else if s[0].key == k then Some(s[0])
    else Lookup(s[1..], k)
  }

  /** `s` with the entry for `k` taken out; the others keep their order. */
  function Without(s: seq<Entry>, k: Key): (r: seq<Entry>)
    ensures forall e :: e in r <==> e in s && e.key != k
    ensures Keys(r) == Keys(s) - {k}
    ensures k !in Keys(s) ==> r == s
    ensures |r| <= |s|
    ensures UniqueKeys(s) ==> UniqueKeys(r)
    ensures UniqueKeys(s) && k in Keys(s) ==> |r| == |s| - 1
  {
    if |s| == 0 then []
    else if s[0].key == k then Without(s[1..], k)
    else
      var rest := Without(s[1..], k);
      assert ([s[0]] + rest)[1..] == rest;
      [s[0]] + rest
  }

  lemma {:induction false} KeysAppend(a: seq<Entry>, b: seq<Entry>)
    ensures Keys(a + b) == Keys(a) + Keys(b)
    decreases |a|
  {
    if |a| > 0 {
      assert (a + b)[1..] == a[1..] + b;
      KeysAppend(a[1..], b);
    } else {
      assert a + b == b;
    }
  }

  lemma {:induction false} UniqueAppend(a: seq<Entry>, e: Entry)
    requires UniqueKeys(a) && e.key !in Keys(a)
    ensures UniqueKeys(a + [e])
    decreases |a|
  {
    if |a| == 0 {
      assert a + [e] == [e];
      assert [e][1..] == [];
    } else {
      assert (a + [e])[1..] == a[1..] + [e];
      UniqueAppend(a[1..], e);
      KeysAppend(a[1..], [e]);
      assert [e][1..] == [];
    }
  }

  lemma {:induction false} WithoutAppend(a: seq<Entry>, b: seq<Entry>, k: Key)
    ensures Without(a + b, k) == Without(a, k) + Without(b, k)
    decreases |a|
  {
    if |a| == 0 {
      assert a + b == b;
    } else {
      assert (a + b)[1..] == a[1..] + b;
      WithoutAppend(a[1..], b, k);
    }
  }

  /** In a store with unique keys, the entries are the entry for `k` plus the others. */
  lemma {:induction false} WithoutSplits(s: seq<Entry>, k: Key)
    requires UniqueKeys(s) && k in Keys(s)
    ensures multiset(s) == multiset(Without(s, k)) + multiset{Lookup(s, k).value}
    decreases |s|
  {
    assert s == [s[0]] + s[1..];
    if s[0].key != k {
      WithoutSplits(s[1..], k);
    }
  }

  lemma WithoutSplitsWhenUnique(s: seq<Entry>, k: Key)
    requires k in Keys(s)
    ensures UniqueKeys(s) ==>
              multiset(s) == multiset(Without(s, k)) + multiset{Lookup(s, k).value}
  {
    if UniqueKeys(s) {
      WithoutSplits(s, k);
    }
  }

  /** Taking out `k` and putting `e` (keyed `k`) at the back leaves the other
      entries in their old order and keeps the keys unique. */
  lemma MoveToBack(s: seq<Entry>, e: Entry)
    ensures Without(Without(s, e.key) + [e], e.key) == Without(s, e.key)
    ensures Keys(Without(s, e.key) + [e]) == Keys(s) + {e.key}
    ensures UniqueKeys(s) ==> UniqueKeys(Without(s, e.key) + [e])
  {
    var w := Without(s, e.key);
    WithoutAppend(w, [e], e.key);
    assert Without([e], e.key) == [];
    assert w + [] == w;
    KeysAppend(w, [e]);
    if UniqueKeys(s) {
      UniqueAppend(w, e);
    }
  }

  // ---------------------------------------------------------------------------
  // The store and its operations

  /** Keys are unique and the size bound holds. */
  predicate Valid(c: Cache)
  {
    UniqueKeys(c.entries) && |c.entries| <= c.maxSize
  }

  /** `ResponseCache(max_size, expiry_seconds)`: an empty store. */
  function New(maxSize: int, expirySeconds: int): (c: Cache)
    ensures c.maxSize == maxSize && c.expirySeconds == expirySeconds
    ensures |c.entries| == 0
    ensures maxSize >= 0 ==> Valid(c)
  {
    Cache([], maxSize, expirySeconds)
  }

  /** `ResponseCache()` with its default settings. */
  function Default(): (c: Cache)
    ensures Valid(c) && |c.entries| == 0
    ensures c.maxSize == 100 && c.expirySeconds == 600
  {
    New(DefaultMaxSize, DefaultExpirySeconds)
  }

  /** An entry is expired once its age reaches the expiry (not strictly). */
  predicate Expired(e: Entry, now: Time, expirySeconds: int)
  {
    now - e.stamp >= expirySeconds * MicrosPerSecond
  }

  /** `get(key)`: a hit returns the data and moves the entry to the back; a miss
      returns nothing and changes nothing. Age is never consulted. */
  function Get(c: Cache, k: Key): (r: (Option<Json>, Cache))
    ensures r.1.maxSize == c.maxSize && r.1.expirySeconds == c.expirySeconds
    ensures k !in Keys(c.entries) ==> r.0 == None && r.1 == c
    ensures k in Keys(c.entries) ==>
              && r.0 == Some(Lookup(c.entries, k).value.data)
              && |r.1.entries| > 0
              && Last(r.1.entries) == Lookup(c.entries, k).value
              && Without(r.1.entries, k) == Without(c.entries, k)
              && Keys(r.1.entries) == Keys(c.entries)
    ensures forall e :: e in r.1.entries ==> e in c.entries
    ensures Valid(c) ==> Valid(r.1) && multiset(r.1.entries) == multiset(c.entries)
  {
    match Lookup(c.entries, k)
    case None => (None, c)
    case Some(e) =>
      MoveToBack(c.entries, e);
      WithoutSplitsWhenUnique(c.entries, k);
      (Some(e.data), c.(entries := Without(c.entries, k) + [e]))
  }

  /** `set(key, data)` at time `now`: when the store holds `maxSize` or more
      entries the front one is popped first (which fails on an empty store),
      then the key is written at the back. A key already present is moved, not
      duplicated, but the pop happens regardless. */
  function Set(c: Cache, k: Key, d: Json, now: Time): (r: Result<Cache, CacheError>)
    ensures r.Err? <==> |c.entries| >= c.maxSize && |c.entries| == 0
    ensures r.Ok? ==> r.value.maxSize == c.maxSize && r.value.expirySeconds == c.expirySeconds
    ensures r.Ok? ==> |r.value.entries| > 0 && Last(r.value.entries) == Entry(k, now, d)
    ensures r.Ok? && |c.entries| >= c.maxSize ==>
              Without(r.value.entries, k) == Without(c.entries[1..], k)
    ensures r.Ok? && |c.entries| < c.maxSize ==>
              Without(r.value.entries, k) == Without(c.entries, k)
    ensures r.Ok? ==> Keys(r.value.entries) <= Keys(c.entries) + {k}
    ensures r.Ok? ==> forall e :: e in r.value.entries ==> e in c.entries || e == Entry(k, now, d)
    ensures r.Ok? && Valid(c) ==> Valid(r.value)
  {
    if |c.entries| >= c.maxSize && |c.entries| == 0 then Err(PopFromEmpty)
    else
      var base := if |c.entries| >= c.maxSize then c.entries[1..] else c.entries;
      var e := Entry(k, now, d);
      MoveToBack(base, e);
      assert |c.entries| >= c.maxSize ==> Keys(c.entries) == {c.entries[0].key} + Keys(base);
      Ok(c.(entries := Without(base, k) + [e]))
  }

  /** The entries of `s` that are not expired at `now`, in their old order. */
  function Unexpired(s: seq<Entry>, now: Time, expirySeconds: int): (r: seq<Entry>)
    ensures forall e :: e in r <==> e in s && !Expired(e, now, expirySeconds)
    ensures IsSubseq(r, s)
    ensures Keys(r) <= Keys(s)
    ensures |r| <= |s|
    ensures UniqueKeys(s) ==> UniqueKeys(r)
  {
    if |s| == 0 then []
    else if Expired(s[0], now, expirySeconds) then
      var rest := Unexpired(s[1..], now, expirySeconds);
      SubseqSkip(rest, s);
      rest
    else
      var rest := Unexpired(s[1..], now, expirySeconds);
      assert ([s[0]] + rest)[1..] == rest;
      [s[0]] + rest
  }

  lemma SubseqSkip(a: seq<Entry>, b: seq<Entry>)
    requires |b| > 0 && IsSubseq(a, b[1..])
    ensures IsSubseq(a, b)
  {
  }

  /** `clear_expired()` at time `now`. */
  function ClearExpired(c: Cache, now: Time): (r: Cache)
    ensures r.maxSize == c.maxSize && r.expirySeconds == c.expirySeconds
    ensures forall e :: e in r.entries <==> e in c.entries && !Expired(e, now, c.expirySeconds)
    ensures IsSubseq(r.entries, c.entries)
    ensures Valid(c) ==> Valid(r)
  {
    c.(entries := Unexpired(c.entries, now, c.expirySeconds))
  }

  // ---------------------------------------------------------------------------
  // Properties

  /** A `Set` never fails on a valid store that may hold at least one entry,
      and leaves the key mapped to the new data and stamp. */
  lemma SetSucceeds(c: Cache, k: Key, d: Json, now: Time)
    requires Valid(c) && c.maxSize >= 1
    ensures Set(c, k, d, now).Ok?
    ensures var r := Set(c, k, d, now).value;
            Valid(r) && Lookup(r.entries, k) == Some(Entry(k, now, d))
  {
    var r := Set(c, k, d, now).value;
    assert r.entries == r.entries[..|r.entries| - 1] + [Last(r.entries)];
    LookupLastUnique(r.entries);
  }

  /** In a store with unique keys, the back entry is what its key looks up to. */
  lemma {:induction false} LookupLastUnique(s: seq<Entry>)
    requires |s| > 0 && UniqueKeys(s)
    ensures Lookup(s, Last(s).key) == Some(Last(s))
    decreases |s|
  {
    if |s| > 1 {
      assert Last(s) == Last(s[1..]);
      assert Last(s) in s[1..];
      KeyOfMember(s[1..], Last(s));
      LookupLastUnique(s[1..]);
    }
  }

  /** In a store with unique keys, an entry is what its key looks up to. */
  lemma {:induction false} LookupFindsMember(s: seq<Entry>, e: Entry)
    requires UniqueKeys(s) && e in s
    ensures Lookup(s, e.key) == Some(e)
    decreases |s|
  {
    if s[0] != e {
      assert e in s[1..];
      KeyOfMember(s[1..], e);
      LookupFindsMember(s[1..], e);
    }
  }

  lemma {:induction false} KeyOfMember(s: seq<Entry>, e: Entry)
    requires e in s
    ensures e.key in Keys(s)
    decreases |s|
  {
    if s[0] != e {
      KeyOfMember(s[1..], e);
    }
  }

  /** Writing a key that is absent into a full store evicts exactly the front
      entry: the size stays at `maxSize` and every other entry survives. */
  lemma FullSetEvictsFront(c: Cache, k: Key, d: Json, now: Time)
    requires Valid(c) && c.maxSize >= 1 && |c.entries| == c.maxSize
    requires k !in Keys(c.entries)
    ensures Set(c, k, d, now).Ok?
    ensures var r := Set(c, k, d, now).value;
            && |r.entries| == c.maxSize
            && c.entries[0].key !in Keys(r.entries)
            && r.entries == c.entries[1..] + [Entry(k, now, d)]
  {
    assert Keys(c.entries) == {c.entries[0].key} + Keys(c.entries[1..]);
    var r := Set(c, k, d, now).value;
    assert r.entries == Without(c.entries[1..], k) + [Entry(k, now, d)];
    assert c.entries[0].key !in Keys(c.entries[1..]);
    KeysAppend(c.entries[1..], [Entry(k, now, d)]);
  }

  /** The overwrite quirk: writing a key that is already present (but not at the
      front) into a full store still pops the front entry, so an unrelated
      entry is lost and the store ends one short of `maxSize`. */
  lemma FullOverwriteDropsUnrelated(c: Cache, k: Key, d: Json, now: Time)
    requires Valid(c) && |c.entries| == c.maxSize && c.maxSize >= 2
    requires k in Keys(c.entries[1..])
    ensures Set(c, k, d, now).Ok?
    ensures var r := Set(c, k, d, now).value;
            && |r.entries| == c.maxSize - 1
            && c.entries[0].key !in Keys(r.entries)
            && Keys(r.entries) == Keys(c.entries) - {c.entries[0].key}
  {
    var front := c.entries[0].key;
    assert Keys(c.entries) == {front} + Keys(c.entries[1..]);
    var r := Set(c, k, d, now).value;
    var w := Without(c.entries[1..], k);
    assert r.entries == w + [Entry(k, now, d)];
    KeysAppend(w, [Entry(k, now, d)]);
    assert front != k;
  }

  /** Overwriting the front key of a full store loses nothing: the pop removes
      that key itself, and the write puts it back at the end. */
  lemma FullOverwriteOfFront(c: Cache, d: Json, now: Time)
    requires Valid(c) && |c.entries| == c.maxSize && c.maxSize >= 1
    ensures var k := c.entries[0].key;
            && Set(c, k, d, now).Ok?
            && Set(c, k, d, now).value.entries == c.entries[1..] + [Entry(k, now, d)]
            && |Set(c, k, d, now).value.entries| == c.maxSize
            && Keys(Set(c, k, d, now).value.entries) == Keys(c.entries)
  {
    var k := c.entries[0].key;
    assert Keys(c.entries) == {k} + Keys(c.entries[1..]);
    assert k !in Keys(c.entries[1..]);
    KeysAppend(c.entries[1..], [Entry(k, now, d)]);
  }

  /** A hit on an entry whose age has passed the expiry is still served: `get`
      never looks at timestamps, only a sweep removes stale entries. */
  lemma GetIgnoresExpiry(c: Cache, k: Key, now: Time)
    requires Lookup(c.entries, k).Some?
    requires Expired(Lookup(c.entries, k).value, now, c.expirySeconds)
    ensures Get(c, k).0 == Some(Lookup(c.entries, k).value.data)
  {
  }

  /** With nothing expired, a sweep changes nothing. */
  lemma {:induction false} UnexpiredKeepsFresh(s: seq<Entry>, now: Time, expirySeconds: int)
    requires forall e :: e in s ==> !Expired(e, now, expirySeconds)
    ensures Unexpired(s, now, expirySeconds) == s
    decreases |s|
  {
    if |s| > 0 {
      assert s == [s[0]] + s[1..];
      UnexpiredKeepsFresh(s[1..], now, expirySeconds);
    }
  }

  /** A second sweep at the same instant removes nothing more. */
  lemma ClearExpiredIdempotent(c: Cache, now: Time)
    ensures ClearExpired(ClearExpired(c, now), now) == ClearExpired(c, now)
  {
    var once := ClearExpired(c, now);
    UnexpiredKeepsFresh(once.entries, now, c.expirySeconds);
  }

  /** Writing an absent key into a store with room appends it and evicts nothing. */
  lemma SetWithRoomAppends(c: Cache, k: Key, d: Json, now: Time)
    requires |c.entries| < c.maxSize && k !in Keys(c.entries)
    ensures Set(c, k, d, now) == Ok(c.(entries := c.entries + [Entry(k, now, d)]))
  {
  }

  /** The first two steps of the scenario below: two writes into room for two. */
  lemma FillTwo(a: Key, b: Key, t: Time, da: Json, db: Json)
    requires a != b
    ensures var c2 := Set(Set(New(2, DefaultExpirySeconds), a, da, t).value, b, db, t).value;
            c2 == Cache([Entry(a, t, da), Entry(b, t, db)], 2, DefaultExpirySeconds) && Valid(c2)
  {
    var c0 := New(2, DefaultExpirySeconds);
    SetWithRoomAppends(c0, a, da, t);
    var c1 := Set(c0, a, da, t).value;
    assert c1.entries == [Entry(a, t, da)];
    assert Keys(c1.entries) == {a} by {
      assert c1.entries[1..] == [];
    }
    SetWithRoomAppends(c1, b, db, t);
  }

  /** The `get` step of the scenario below: the front entry moves to the back. */
  lemma PromoteFront(c: Cache, ea: Entry, eb: Entry)
    requires c.entries == [ea, eb] && ea.key != eb.key
    ensures Get(c, ea.key).1.entries == [eb, ea]
  {
    assert c.entries[1..] == [eb];
    assert [eb][1..] == [];
    assert Without(c.entries, ea.key) == [eb];
  }

  /** Recency order decides eviction: with room for two, after
      `set(a); set(b); get(a); set(c)` it is `b` that has been evicted. */
  lemma GetProtectsFromEviction(a: Key, b: Key, x: Key, t: Time, da: Json, db: Json, dx: Json)
    requires a != b && a != x && b != x
    ensures
      var c1 := Set(New(2, DefaultExpirySeconds), a, da, t).value;
      var c2 := Set(c1, b, db, t).value;
      var c4 := Set(Get(c2, a).1, x, dx, t);
      && c4.Ok?
      && Keys(c4.value.entries) == {a, x}
      && b !in Keys(c4.value.entries)
  {
    var ea, eb, ex := Entry(a, t, da), Entry(b, t, db), Entry(x, t, dx);
    FillTwo(a, b, t, da, db);
    var c2 := Set(Set(New(2, DefaultExpirySeconds), a, da, t).value, b, db, t).value;
    PromoteFront(c2, ea, eb);
    var c3 := Get(c2, a).1;
    assert c3.entries[1..] == [ea];
    assert Keys(c3.entries) == {b} + Keys([ea]);
    FullSetEvictsFront(c3, x, dx, t);
    var c4 := Set(c3, x, dx, t).value;
    assert c4.entries == [ea, ex];
    assert Keys([ea, ex]) == {a, x} by {
      assert [ea, ex][1..] == [ex];
      assert [ex][1..] == [];
    }
  }

  /** The expiry boundary with the defaults: an entry written at `t0` survives a
      sweep 599 seconds later and is gone after a sweep 601 seconds later. */
  lemma ExpiryBoundary(k: Key, d: Json, t0: Time)
    ensures
      var c := Set(Default(), k, d, t0).value;
      && k in Keys(ClearExpired(c, t0 + 599 * MicrosPerSecond).entries)
      && k !in Keys(ClearExpired(c, t0 + 601 * MicrosPerSecond).entries)
  {
    var c := Set(Default(), k, d, t0).value;
    assert c.entries == [Entry(k, t0, d)];
    var early := ClearExpired(c, t0 + 599 * MicrosPerSecond);
    assert early.entries == [Entry(k, t0, d)];
    var late := ClearExpired(c, t0 + 601 * MicrosPerSecond);
    assert late.entries == [];
  }

  /** `set` for each key of `ks` in turn, all at instant `now`. */
  function SetEach(c: Cache, ks: seq<Key>, d: Json, now: Time): Result<Cache, CacheError>
    decreases |ks|
  {
    if |ks| == 0 then Ok(c)
    else
      match Set(c, ks[0], d, now)
      case Err(e) => Err(e)
      case Ok(next) => SetEach(next, ks[1..], d, now)
  }

  predicate DistinctKeys(ks: seq<Key>)
  {
    forall i, j :: 0 <= i < j < |ks| ==> ks[i] != ks[j]
  }

  /** A key not yet in a valid store grows it by one, or keeps it at `maxSize`
      when it is full. */
  lemma SetFreshKeySize(c: Cache, k: Key, d: Json, now: Time)
    requires Valid(c) && c.maxSize >= 1 && k !in Keys(c.entries)
    ensures Set(c, k, d, now).Ok?
    ensures var r := Set(c, k, d, now).value;
            && Keys(r.entries) == (if |c.entries| >= c.maxSize then Keys(c.entries[1..]) else Keys(c.entries)) + {k}
            && |r.entries| == (if |c.entries| < c.maxSize then |c.entries| + 1 else c.maxSize)
  {
    var base := if |c.entries| >= c.maxSize then c.entries[1..] else c.entries;
    assert |c.entries| >= c.maxSize ==> Keys(c.entries) == {c.entries[0].key} + Keys(base);
    var r := Set(c, k, d, now).value;
    assert r.entries == Without(base, k) + [Entry(k, now, d)];
    KeysAppend(Without(base, k), [Entry(k, now, d)]);
  }

  /** Writing distinct new keys one after another fills the store up to
      `maxSize` and never beyond: the size ends at `min(size + n, maxSize)`. */
  lemma {:induction false} SetEachFillsToCapacity(c: Cache, ks: seq<Key>, d: Json, now: Time)
    requires Valid(c) && c.maxSize >= 1
    requires DistinctKeys(ks)
    requires forall i :: 0 <= i < |ks| ==> ks[i] !in Keys(c.entries)
    ensures SetEach(c, ks, d, now).Ok?
    ensures Valid(SetEach(c, ks, d, now).value)
    ensures |SetEach(c, ks, d, now).value.entries| ==
              if |c.entries| + |ks| <= c.maxSize then |c.entries| + |ks| else c.maxSize
    decreases |ks|
  {
    if |ks| > 0 {
      SetFreshKeySize(c, ks[0], d, now);
      var next := Set(c, ks[0], d, now).value;
      assert Keys(next.entries) <= Keys(c.entries) + {ks[0]};
      forall i | 0 <= i < |ks[1..]|
        ensures ks[1..][i] !in Keys(next.entries)
      {
        assert ks[1..][i] == ks[i + 1];
      }
      assert DistinctKeys(ks[1..]);
      SetEachFillsToCapacity(next, ks[1..], d, now);
    }
  }
}
