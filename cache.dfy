/**
 * The time-to-live cache of cat-web/src/app/services/cache.service.ts: an in-memory
 * map of time-stamped entries mirrored into the browser's `localStorage` under the
 * key `"cache_" + key`. Reads evict lazily: an entry older than the ttl given to
 * `get` is dropped from both stores.
 *
 * The clock (`Date.now()`) is the parameter `now`; `JSON.stringify`/`JSON.parse`
 * are the identity, except that a stored text may be empty or fail to parse.
 */
module Cache {
  import opened Wrappers

  /** `DEFAULT_TTL`: five minutes, in milliseconds. */
  const DefaultTtl: int := 5 * 60 * 1000

  /** The namespace of the cache's keys in `localStorage`. */
  const Prefix: string := "cache_"

  /** The data of an entry; `null` is a value a caller may store. */
  datatype Nullable<+D> = Null | NonNull(value: D)

  /** `CacheEntry`: the data and the time it was stored. */
  datatype Entry<D> = Entry(data: Nullable<D>, timestamp: int)

  /**
   * What `localStorage` holds under one key, as the cache reads it back: a
   * serialised entry, the empty text (skipped by `if (value)`), or a text that
   * `JSON.parse` rejects.
   */
  datatype Stored<D> = Record(entry: Entry<D>) | Blank | Malformed

  /** Both stores: the in-memory `cache` map and the whole of `localStorage`. */
  datatype Store<D> = Store(memory: map<string, Entry<D>>, persisted: map<string, Stored<D>>)

  /** The `localStorage` key of a cache key. */
  function StorageKey(key: string): (k: string)
    ensures Prefix <= k && k[|Prefix|..] == key
  {
    Prefix + key
  }

  /** `k.startsWith('cache_')`. */
  predicate IsCacheKey(k: string) {
    Prefix <= k
  }

  /** The cache key a `localStorage` key maps back to (`key.replace('cache_', '')`). */
  function CacheKeyOf(k: string): (key: string)
    requires IsCacheKey(k)
    ensures StorageKey(key) == k
  {
    k[|Prefix|..]
  }

  /** An entry is fresh while its age is at most `ttl` (`age > ttl` evicts). */
  predicate IsFresh<D>(e: Entry<D>, ttl: int, now: int) {
    !(now - e.timestamp > ttl)
  }

  /** What `get(key, ttl)` returns: a miss and a stale entry both read as `null`. */
  function Lookup<D>(st: Store<D>, key: string, ttl: int, now: int): (r: Nullable<D>)
    ensures key !in st.memory ==> r == Null
    ensures r.NonNull? ==> key in st.memory && IsFresh(st.memory[key], ttl, now) && r == st.memory[key].data
  {
    if key in st.memory && IsFresh(st.memory[key], ttl, now) then st.memory[key].data else Null
  }

  /** What `has(key, ttl)` returns: `get` gave something other than `null`. */
  function HasFresh<D>(st: Store<D>, key: string, ttl: int, now: int): (b: bool)
    ensures b <==> key in st.memory && IsFresh(st.memory[key], ttl, now) && st.memory[key].data.NonNull?
  {
    Lookup(st, key, ttl, now).NonNull?
  }

  /** The stores after `get(key, ttl)`: a stale entry is gone from both. */
  function AfterGet<D>(st: Store<D>, key: string, ttl: int, now: int): (r: Store<D>)
    ensures (key in r.memory <==> key in st.memory && IsFresh(st.memory[key], ttl, now))
    ensures forall k | k != key :: k in r.memory <==> k in st.memory
    ensures forall k | k in r.memory :: r.memory[k] == st.memory[k]
    ensures r.persisted == st.persisted || r.persisted == st.persisted - {StorageKey(key)}
  {
    if key in st.memory && !IsFresh(st.memory[key], ttl, now) then
      Store(st.memory - {key}, st.persisted - {StorageKey(key)})
    else
      st
  }

  /** The stores after `set(key, data, persist)`: a fresh entry stamped `now`. */
  function AfterSet<D>(st: Store<D>, key: string, data: Nullable<D>, persist: bool, now: int): (r: Store<D>)
    ensures r.memory.Keys == st.memory.Keys + {key} && r.memory[key] == Entry(data, now)
    ensures forall k | k in st.memory && k != key :: r.memory[k] == st.memory[k]
    ensures forall k | k != StorageKey(key) :: (k in r.persisted <==> k in st.persisted)
    ensures forall k | k in st.persisted && k != StorageKey(key) :: r.persisted[k] == st.persisted[k]
  {
    var e := Entry(data, now);
    Store(st.memory[key := e], if persist then st.persisted[StorageKey(key) := Record(e)] else st.persisted)
  }

  /** The stores after `remove(key)`. */
  function AfterRemove<D>(st: Store<D>, key: string): (r: Store<D>)
    ensures r.memory.Keys == st.memory.Keys - {key} && r.persisted.Keys == st.persisted.Keys - {StorageKey(key)}
    ensures forall k | k in r.memory :: r.memory[k] == st.memory[k]
    ensures forall k | k in r.persisted :: r.persisted[k] == st.persisted[k]
  {
    Store(st.memory - {key}, st.persisted - {StorageKey(key)})
  }

  /**
   * The `localStorage` contents once every `cache_` key is removed; the specification
   * of the loop in `ClearLocalStorage`, whose properties `ClearEmpties` states.
   */
  function WithoutCacheKeys<D>(persisted: map<string, Stored<D>>): (r: map<string, Stored<D>>)
    ensures forall k :: k in r <==> k in persisted && !IsCacheKey(k)
    ensures forall k | k in r :: r[k] == persisted[k]
  {
    map k | k in persisted && !IsCacheKey(k) :: persisted[k]
  }

  /** The stores after `clear()`. */
  function AfterClear<D>(st: Store<D>): (r: Store<D>)
    ensures r.memory == map[]
    ensures forall k :: k in r.persisted <==> k in st.persisted && !IsCacheKey(k)
  {
    Store(map[], WithoutCacheKeys(st.persisted))
  }

  /** `keys` is what `Object.keys(localStorage)` returns: every key, each one present. */
  predicate ListsKeys<D>(keys: seq<string>, persisted: map<string, Stored<D>>) {
    && (forall i | 0 <= i < |keys| :: keys[i] in persisted)
    && (forall k | k in persisted :: k in keys)
  }

  /**
   * What `loadFromLocalStorage` leaves in memory, starting from `loaded`: the keys are
   * visited in order, a `cache_X` record is put under `X`, an empty text is skipped,
   * and a text that does not parse ends the whole load (one `try` around the loop).
   */
  function Load<D>(persisted: map<string, Stored<D>>, keys: seq<string>, loaded: map<string, Entry<D>>): (r: map<string, Entry<D>>)
    requires forall i | 0 <= i < |keys| :: keys[i] in persisted
    ensures loaded.Keys <= r.Keys
    ensures forall k | k in r && k !in loaded :: StorageKey(k) in keys
    decreases |keys|
  {
    if keys == [] then loaded
    else if !IsCacheKey(keys[0]) then Load(persisted, keys[1..], loaded)
    else
      match persisted[keys[0]]
      case Record(e) => Load(persisted, keys[1..], loaded[CacheKeyOf(keys[0]) := e])
      case Blank => Load(persisted, keys[1..], loaded)
      case Malformed => loaded
  }

  /** No `cache_` key in `keys` holds a text that fails to parse. */
  predicate NoMalformed<D>(persisted: map<string, Stored<D>>, keys: seq<string>)
    requires forall i | 0 <= i < |keys| :: keys[i] in persisted
  {
    forall i | 0 <= i < |keys| :: IsCacheKey(keys[i]) ==> !persisted[keys[i]].Malformed?
  }

  /** The outcome of one `cacheObservable` call. */
  datatype Reply<D> = Reply(store: Store<D>, result: Response<Nullable<D>>, subscribed: bool)

  /**
   * `cacheObservable(key, source, ttl, persist)`, subscribed to: a fresh non-null
   * entry is emitted without subscribing to `source`; otherwise `source` is
   * subscribed to and what it emits (at time `emittedAt`) is stored before it is
   * passed on, while an error is passed on with nothing stored.
   */
  function Wrap<D>(st: Store<D>, key: string, source: Response<Nullable<D>>, ttl: int, persist: bool,
                   now: int, emittedAt: int): (r: Reply<D>)
    ensures r.subscribed <==> !HasFresh(st, key, ttl, now)
    ensures !r.subscribed ==> r.store == st && r.result == Success(st.memory[key].data)
    ensures r.subscribed ==> r.result == source
    ensures r.subscribed && source.Success? ==>
      key in r.store.memory && r.store.memory[key] == Entry(source.value, emittedAt)
    ensures r.subscribed && source.Failure? ==> r.store == AfterGet(st, key, ttl, now)
  {
    var cached := Lookup(st, key, ttl, now);
    var st' := AfterGet(st, key, ttl, now);
    if cached.NonNull? then Reply(st', Success(cached), false)
    else
      match source
      case Success(d) => Reply(AfterSet(st', key, d, persist, emittedAt), Success(d), true)
      case Failure => Reply(st', Failure, true)
  }

  // Properties of the operations

  /** A key that is not in memory reads as `null`, changes neither store, and `has` is false. */
  lemma MissChangesNothing<D>(st: Store<D>, key: string, ttl: int, now: int)
    requires key !in st.memory
    ensures Lookup(st, key, ttl, now) == Null
    ensures AfterGet(st, key, ttl, now) == st
    ensures !HasFresh(st, key, ttl, now)
  {
  }

  /**
   * An entry older than `ttl` reads as `null` and is gone from memory and from
   * `localStorage` afterwards; every other key is untouched.
   */
  lemma StaleEntryEvicted<D>(st: Store<D>, key: string, ttl: int, now: int)
    requires key in st.memory && now - st.memory[key].timestamp > ttl
    ensures Lookup(st, key, ttl, now) == Null && !HasFresh(st, key, ttl, now)
    ensures var st' := AfterGet(st, key, ttl, now);
      && key !in st'.memory && StorageKey(key) !in st'.persisted
      && (forall k | k in st.memory && k != key :: k in st'.memory && st'.memory[k] == st.memory[k])
      && (forall k | k in st.persisted && k != StorageKey(key) :: k in st'.persisted && st'.persisted[k] == st.persisted[k])
  {
  }

  /**
   * An entry whose age is at most `ttl` (an age of exactly `ttl` included) is returned
   * and changes neither store, whatever its data, a stored `null` included.
   */
  lemma AgeWithinTtlIsFresh<D>(st: Store<D>, key: string, ttl: int, now: int)
    requires key in st.memory && now - st.memory[key].timestamp <= ttl
    ensures Lookup(st, key, ttl, now) == st.memory[key].data
    ensures AfterGet(st, key, ttl, now) == st
  {
  }

  /** `set` then `get` at the same time, with any ttl of zero or more, returns the data and evicts nothing. */
  lemma SetThenGet<D>(st: Store<D>, key: string, data: Nullable<D>, persist: bool, now: int, ttl: int)
    requires ttl >= 0
    ensures Lookup(AfterSet(st, key, data, persist, now), key, ttl, now) == data
    ensures AfterGet(AfterSet(st, key, data, persist, now), key, ttl, now) == AfterSet(st, key, data, persist, now)
  {
  }

  /** A second `set` replaces the first, with the second's data and time stamp. */
  lemma SetOverwrites<D>(st: Store<D>, key: string, d1: Nullable<D>, p1: bool, t1: int, d2: Nullable<D>, p2: bool, t2: int)
    ensures AfterSet(AfterSet(st, key, d1, p1, t1), key, d2, p2, t2).memory[key] == Entry(d2, t2)
    ensures p2 ==> AfterSet(AfterSet(st, key, d1, p1, t1), key, d2, p2, t2).persisted[StorageKey(key)] == Record(Entry(d2, t2))
  {
  }

  /**
   * `set` writes `cache_<key>` with the same entry exactly when asked to persist, and
   * otherwise leaves `localStorage` alone.
   */
  lemma SetPersistence<D>(st: Store<D>, key: string, data: Nullable<D>, persist: bool, now: int)
    ensures persist ==> AfterSet(st, key, data, persist, now).persisted[StorageKey(key)] == Record(Entry(data, now))
    ensures persist ==> AfterSet(st, key, data, persist, now).memory[key] == Entry(data, now)
    ensures !persist ==> AfterSet(st, key, data, persist, now).persisted == st.persisted
  {
  }

  /** A stored `null` is indistinguishable from a miss: `has` is false and `cacheObservable` subscribes. */
  lemma StoredNullReadsAsMiss<D>(st: Store<D>, key: string, source: Response<Nullable<D>>, ttl: int, persist: bool, now: int, emittedAt: int)
    requires key in st.memory && st.memory[key].data == Null
    ensures Lookup(st, key, ttl, now) == Null && !HasFresh(st, key, ttl, now)
    ensures Wrap(st, key, source, ttl, persist, now, emittedAt).subscribed
  {
  }

  /** `size` grows by one for a new key and stays put for a key already there. */
  lemma SizeAfterSet<D>(st: Store<D>, key: string, data: Nullable<D>, persist: bool, now: int)
    ensures |AfterSet(st, key, data, persist, now).memory| == |st.memory| + (if key in st.memory then 0 else 1)
  {
    var m := st.memory[key := Entry(data, now)];
    assert AfterSet(st, key, data, persist, now).memory == m;
    if key in st.memory {
      assert m.Keys == st.memory.Keys;
    } else {
      assert m.Keys == st.memory.Keys + {key};
      assert |m.Keys| == |st.memory.Keys| + 1;
    }
  }

  /** `size` shrinks by one only when the removed key was there. */
  lemma SizeAfterRemove<D>(st: Store<D>, key: string)
    ensures |AfterRemove(st, key).memory| == |st.memory| - (if key in st.memory then 1 else 0)
  {
    var m := AfterRemove(st, key).memory;
    if key in st.memory {
      assert m.Keys == st.memory.Keys - {key};
    } else {
      assert m.Keys == st.memory.Keys;
    }
  }

  /** `remove` takes the key out of both stores, and removing twice is removing once. */
  lemma RemoveIdempotent<D>(st: Store<D>, key: string)
    ensures key !in AfterRemove(st, key).memory && StorageKey(key) !in AfterRemove(st, key).persisted
    ensures AfterRemove(AfterRemove(st, key), key) == AfterRemove(st, key)
  {
  }

  /**
   * `clear` empties memory (`size` becomes 0) and removes exactly the `cache_` keys
   * of `localStorage`; clearing twice is clearing once.
   */
  lemma ClearEmpties<D>(st: Store<D>)
    ensures |AfterClear(st).memory| == 0
    ensures forall k :: k in AfterClear(st).persisted <==> k in st.persisted && !IsCacheKey(k)
    ensures forall k | k in AfterClear(st).persisted :: AfterClear(st).persisted[k] == st.persisted[k]
    ensures AfterClear(AfterClear(st)) == AfterClear(st)
  {
  }

  /** On a hit `cacheObservable` emits the cached value, leaves the stores alone and never subscribes to `source`. */
  lemma HitSkipsSource<D>(st: Store<D>, key: string, source: Response<Nullable<D>>, ttl: int, persist: bool, now: int, emittedAt: int)
    requires HasFresh(st, key, ttl, now)
    ensures Wrap(st, key, source, ttl, persist, now, emittedAt) == Reply(st, Success(st.memory[key].data), false)
  {
  }

  /** On a miss the emitted value is passed on and stored, after any eviction `get` made. */
  lemma MissStoresEmission<D>(st: Store<D>, key: string, d: Nullable<D>, ttl: int, persist: bool, now: int, emittedAt: int)
    requires !HasFresh(st, key, ttl, now)
    ensures Wrap(st, key, Success(d), ttl, persist, now, emittedAt)
         == Reply(AfterSet(AfterGet(st, key, ttl, now), key, d, persist, emittedAt), Success(d), true)
  {
  }

  /** A failing source on a miss is passed on and nothing is cached. */
  lemma FailureNotCached<D>(st: Store<D>, key: string, ttl: int, persist: bool, now: int, emittedAt: int)
    requires !HasFresh(st, key, ttl, now)
    ensures Wrap(st, key, Failure, ttl, persist, now, emittedAt) == Reply(AfterGet(st, key, ttl, now), Failure, true)
  {
  }

  /**
   * Memoisation: after a call that emitted `v`, a second call within `ttl` of the
   * emission returns `v` again, whatever its own source would have produced, and
   * does not subscribe to it.
   */
  lemma SecondCallReturnsOriginal<D>(st: Store<D>, key: string, v: D, ttl: int, persist: bool, now1: int, emittedAt: int,
                                     source2: Response<Nullable<D>>, persist2: bool, now2: int, emittedAt2: int)
    requires !HasFresh(st, key, ttl, now1)
    requires now2 - emittedAt <= ttl
    ensures var first := Wrap(st, key, Success(NonNull(v)), ttl, persist, now1, emittedAt);
      var second := Wrap(first.store, key, source2, ttl, persist2, now2, emittedAt2);
      first.result == Success(NonNull(v)) && second.result == Success(NonNull(v)) && !second.subscribed
  {
  }

  /**
   * Loading puts every parseable `cache_X` record under `X`, provided the key is visited
   * before any text that fails to parse (here: no such text at all), or `X` already
   * holds that entry.
   */
  lemma {:induction false} LoadFinds<D>(persisted: map<string, Stored<D>>, keys: seq<string>, loaded: map<string, Entry<D>>, key: string)
    requires forall i | 0 <= i < |keys| :: keys[i] in persisted
    requires NoMalformed(persisted, keys)
    requires StorageKey(key) in persisted && persisted[StorageKey(key)].Record?
    requires StorageKey(key) in keys || (key in loaded && loaded[key] == persisted[StorageKey(key)].entry)
    ensures var m := Load(persisted, keys, loaded);
      key in m && m[key] == persisted[StorageKey(key)].entry
    decreases |keys|
  {
    if keys != [] {
      var k0 := keys[0];
      assert NoMalformed(persisted, keys[1..]) by {
        forall i | 0 <= i < |keys[1..]| ensures IsCacheKey(keys[1..][i]) ==> !persisted[keys[1..][i]].Malformed? {
          assert keys[1..][i] == keys[i + 1];
        }
      }
      assert StorageKey(key) in keys ==> k0 == StorageKey(key) || StorageKey(key) in keys[1..] by {
        if StorageKey(key) in keys && k0 != StorageKey(key) {
          var i :| 0 <= i < |keys| && keys[i] == StorageKey(key);
          assert keys[1..][i - 1] == keys[i];
        }
      }
      if !IsCacheKey(k0) {
        LoadFinds(persisted, keys[1..], loaded, key);
      } else {
        assert !persisted[k0].Malformed?;
        match persisted[k0]
        case Record(e) =>
          var loaded' := loaded[CacheKeyOf(k0) := e];
          if k0 == StorageKey(key) {
            assert CacheKeyOf(k0) == key;
          } else {
            assert CacheKeyOf(k0) != key;
          }
          LoadFinds(persisted, keys[1..], loaded', key);
        case Blank =>
          LoadFinds(persisted, keys[1..], loaded, key);
      }
    }
  }

  /** Loading adds nothing but the records of visited `cache_` keys. */
  lemma {:induction false} LoadOnly<D>(persisted: map<string, Stored<D>>, keys: seq<string>, loaded: map<string, Entry<D>>, key: string)
    requires forall i | 0 <= i < |keys| :: keys[i] in persisted
    requires key in Load(persisted, keys, loaded)
    ensures key in loaded || (StorageKey(key) in keys && persisted[StorageKey(key)].Record?)
    decreases |keys|
  {
    if keys != [] {
      var k0 := keys[0];
      if !IsCacheKey(k0) {
        LoadOnly(persisted, keys[1..], loaded, key);
      } else {
        match persisted[k0]
        case Record(e) =>
          LoadOnly(persisted, keys[1..], loaded[CacheKeyOf(k0) := e], key);
          if key == CacheKeyOf(k0) { assert StorageKey(key) == k0; }
        case Blank =>
          LoadOnly(persisted, keys[1..], loaded, key);
        case Malformed =>
      }
    }
  }

  /** A text that fails to parse ends the load: the keys after it are never visited. */
  lemma {:induction false} LoadStopsAtMalformed<D>(persisted: map<string, Stored<D>>, keys: seq<string>, loaded: map<string, Entry<D>>, j: nat)
    requires forall i | 0 <= i < |keys| :: keys[i] in persisted
    requires j < |keys| && IsCacheKey(keys[j]) && persisted[keys[j]].Malformed?
    ensures Load(persisted, keys, loaded) == Load(persisted, keys[..j], loaded)
    decreases j
  {
    if j > 0 {
      assert keys[..j][1..] == keys[1..][..j - 1];
      assert keys[..j][0] == keys[0];
      var k0 := keys[0];
      if !IsCacheKey(k0) {
        LoadStopsAtMalformed(persisted, keys[1..], loaded, j - 1);
      } else {
        match persisted[k0]
        case Record(e) =>
          LoadStopsAtMalformed(persisted, keys[1..], loaded[CacheKeyOf(k0) := e], j - 1);
        case Blank =>
          LoadStopsAtMalformed(persisted, keys[1..], loaded, j - 1);
        case Malformed =>
      }
    }
  }

  /**
   * Round trip through `localStorage`: a persisted `set`, then a new service built on
   * the same storage, then `get` at the same time returns the data without any remote call.
   */
  lemma ReloadRestores<D>(st: Store<D>, key: string, data: Nullable<D>, now: int, keys: seq<string>, ttl: int)
    requires ttl >= 0
    requires ListsKeys(keys, AfterSet(st, key, data, true, now).persisted)
    requires NoMalformed(AfterSet(st, key, data, true, now).persisted, keys)
    ensures var p := AfterSet(st, key, data, true, now).persisted;
      Lookup(Store(Load(p, keys, map[]), p), key, ttl, now) == data
  {
    var p := AfterSet(st, key, data, true, now).persisted;
    assert p[StorageKey(key)] == Record(Entry(data, now));
    LoadFinds(p, keys, map[], key);
  }

  /** The cache-key and ttl of `getBreedNames` (frontend/src/app/services/cats.service.ts). */
  const BreedNamesKey: string := "breed_names"
  const CatsServiceTtl: int := 10 * 60 * 1000

  /** Storing the breed names and reading them back within the service's ttl gives them back. */
  lemma BreedNamesScenario(st: Store<seq<string>>, now: int)
    ensures var names := NonNull(["Abyssinian", "Bengal"]);
      Lookup(AfterSet(st, BreedNamesKey, names, true, now), BreedNamesKey, CatsServiceTtl, now) == names
  {
  }

  /**
   * With the default ttl an entry set at `now` is still returned five minutes later
   * and is gone one millisecond after that.
   */
  lemma DefaultTtlWindow<D>(st: Store<D>, key: string, data: Nullable<D>, now: int)
    ensures Lookup(AfterSet(st, key, data, true, now), key, DefaultTtl, now + 300000) == data
    ensures Lookup(AfterSet(st, key, data, true, now), key, DefaultTtl, now + 300001) == Null
  {
  }

  class CacheService<D> {
    /** The in-memory map (`cache`). */
    var cache: map<string, Entry<D>>
    /** The contents of `localStorage`, including keys that are not the cache's. */
    var storage: map<string, Stored<D>>

    /** Both stores as one value, for the specifications. */
    function State(): Store<D>
      reads this
    {
      Store(cache, storage)
    }

    /**
     * The constructor loads every `cache_` record of the given `localStorage`, visiting
     * its keys in the order `keys` (the order of `Object.keys`).
     */
    constructor (persisted: map<string, Stored<D>>, keys: seq<string>)
      requires ListsKeys(keys, persisted)
      ensures storage == persisted
      ensures cache == Load(persisted, keys, map[])
    {
      cache := map[];
      storage := persisted;
      new;
      LoadFromLocalStorage(keys);
    }

    /** `get(key, ttl)`, whose ttl defaults to `DEFAULT_TTL`. */
    method Get(key: string, now: int, ttl: int := DefaultTtl) returns (r: Nullable<D>)
      modifies this
      ensures r == Lookup(old(State()), key, ttl, now)
      ensures State() == AfterGet(old(State()), key, ttl, now)
    {
      if key !in cache {
        return Null;
      }
      var entry := cache[key];
      var age := now - entry.timestamp;
      if age > ttl {
        cache := cache - {key};
        RemoveFromLocalStorage(key);
        return Null;
      }
      r := entry.data;
    }

    /** `set(key, data, persistInLocalStorage)`, which persists unless told not to. */
    method Set(key: string, data: Nullable<D>, now: int, persist: bool := true)
      modifies this
      ensures State() == AfterSet(old(State()), key, data, persist, now)
    {
      var entry := Entry(data, now);
      cache := cache[key := entry];
      if persist {
        SaveToLocalStorage(key, entry);
      }
    }

    /** `has(key, ttl)`: `get(key, ttl) !== null`, eviction included; the ttl defaults to `DEFAULT_TTL`. */
    method Has(key: string, now: int, ttl: int := DefaultTtl) returns (b: bool)
      modifies this
      ensures b == HasFresh(old(State()), key, ttl, now)
      ensures State() == AfterGet(old(State()), key, ttl, now)
    {
      var r := Get(key, now, ttl);
      b := r != Null;
    }

    /** `remove(key)`. */
    method Remove(key: string)
      modifies this
      ensures State() == AfterRemove(old(State()), key)
    {
      cache := cache - {key};
      RemoveFromLocalStorage(key);
    }

    /** `clear()`. */
    method Clear()
      modifies this
      ensures State() == AfterClear(old(State()))
    {
      cache := map[];
      ClearLocalStorage();
    }

    /** `size()`: every entry in memory counts, stale or not. */
    method Size() returns (n: nat)
      ensures n == |cache|
    {
      n := |cache|;
    }

    /** `cacheObservable(key, source, ttl, persist)`, subscribed to once, with the same defaults as `get` and `set`. */
    method CacheObservable(key: string, source: Response<Nullable<D>>, now: int, emittedAt: int,
                           ttl: int := DefaultTtl, persist: bool := true)
      returns (result: Response<Nullable<D>>, subscribed: bool)
      modifies this
      ensures var reply := Wrap(old(State()), key, source, ttl, persist, now, emittedAt);
        State() == reply.store && result == reply.result && subscribed == reply.subscribed
    {
      var cached := Get(key, now, ttl);
      if cached != Null {
        return Success(cached), false;
      }
      subscribed := true;
      match source
      case Success(d) =>
        Set(key, d, emittedAt, persist);
        result := Success(d);
      case Failure =>
        result := Failure;
    }

    /** `saveToLocalStorage(key, entry)`. */
    method SaveToLocalStorage(key: string, entry: Entry<D>)
      modifies this
      ensures cache == old(cache)
      ensures storage == old(storage)[StorageKey(key) := Record(entry)]
    {
      storage := storage[StorageKey(key) := Record(entry)];
    }

    /** `removeFromLocalStorage(key)`. */
    method RemoveFromLocalStorage(key: string)
      modifies this
      ensures cache == old(cache)
      ensures storage == old(storage) - {StorageKey(key)}
    {
      storage := storage - {StorageKey(key)};
    }

    /** `clearLocalStorage()`: removes the `cache_` keys one by one. */
    method ClearLocalStorage()
      modifies this
      ensures cache == old(cache)
      ensures storage == WithoutCacheKeys(old(storage))
    {
      var keys := set k | k in storage && IsCacheKey(k);
      ghost var removed: set<string> := {};
      while keys != {}
        invariant keys !! removed
        invariant keys + removed == set k | k in old(storage) && IsCacheKey(k)
        invariant cache == old(cache)
        invariant storage == old(storage) - removed
        decreases keys
      {
        var k :| k in keys;
        storage := storage - {k};
        keys := keys - {k};
        removed := removed + {k};
      }
      assert storage == WithoutCacheKeys(old(storage));
    }

    /** `loadFromLocalStorage()`, visiting the `localStorage` keys in the order `keys`. */
    method LoadFromLocalStorage(keys: seq<string>)
      requires forall i | 0 <= i < |keys| :: keys[i] in storage
      modifies this
      ensures storage == old(storage)
      ensures cache == Load(storage, keys, old(cache))
    {
      var i := 0;
      while i < |keys|
        invariant 0 <= i <= |keys|
        invariant storage == old(storage)
        invariant Load(storage, keys, old(cache)) == Load(storage, keys[i..], cache)
      {
        var k := keys[i];
        assert keys[i..][1..] == keys[i + 1..];
        if IsCacheKey(k) {
          match storage[k]
          case Record(e) =>
            cache := cache[CacheKeyOf(k) := e];
          case Blank =>
          case Malformed =>
            return;
        }
        i := i + 1;
      }
    }
  }

  /**
   * The "store and retrieve" and "has" cases of cache.service.spec.ts, every default
   * taken: `set(key, data)`, then `get(key)` and `has(key)` at the same instant, give the
   * data back and `true`, and the entry is persisted.
   */
  method DefaultsScenario(now: int) returns (r: Nullable<string>, present: bool, persisted: bool)
    ensures r == NonNull("Test Data")
    ensures present && persisted
  {
    var service := new CacheService<string>(map[], []);
    service.Set("test_key", NonNull("Test Data"), now);
    r := service.Get("test_key", now);
    present := service.Has("test_key", now);
    persisted := StorageKey("test_key") in service.storage;
  }
}
