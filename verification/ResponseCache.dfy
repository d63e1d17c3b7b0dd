/** The in-memory response cache: time-to-live, and eviction of the least recently accessed entries at 2000 entries. */
module ResponseCache {
  import opened Common
  import opened Wrappers

  const MAX_CACHE_SIZE := 2000

  datatype Entry<V> = Entry(value: V, expiresAt: Time, lastAccessed: Time)

  /** What the last completed request for a key stored. */
  datatype Stored<V> = Stored(value: V, expiresAt: Time)

  /** Keys in order of access time, each once. */
  predicate Ordered<K(==), V>(keys: seq<K>, store: map<K, Entry<V>>) {
    && (forall i | 0 <= i < |keys| :: keys[i] in store)
    && (forall i, j | 0 <= i < j < |keys| ::
          keys[i] != keys[j] && store[keys[i]].lastAccessed <= store[keys[j]].lastAccessed)
  }

  /** A least recently accessed key. */
  method OldestKey<K(==), V>(todo: set<K>, store: map<K, Entry<V>>) returns (oldest: K)
    requires todo != {} && todo <= store.Keys
    ensures oldest in todo && forall k <- todo :: store[oldest].lastAccessed <= store[k].lastAccessed
  {
    oldest :| oldest in todo;
    var left := todo - {oldest};
    while left != {}
      invariant left <= todo && oldest in todo
      invariant forall k <- todo - left :: store[oldest].lastAccessed <= store[k].lastAccessed
      decreases left
    {
      var k :| k in left;
      if store[k].lastAccessed < store[oldest].lastAccessed {
        oldest := k;
      }
      left := left - {k};
    }
  }

  /** The keys of a store in order of last access. */
  method SortKeys<K(==), V>(store: map<K, Entry<V>>) returns (keys: seq<K>)
    ensures Ordered(keys, store) && |keys| == |store|
    ensures forall k :: k in keys <==> k in store
  {
    keys := [];
    var todo := store.Keys;
    while todo != {}
      invariant todo <= store.Keys
      invariant forall k :: k in keys <==> k in store && k !in todo
      invariant forall i, k | 0 <= i < |keys| && k in todo :: store[keys[i]].lastAccessed <= store[k].lastAccessed
      invariant Ordered(keys, store)
      invariant |keys| + |todo| == |store|
      decreases todo
    {
      var k := OldestKey(todo, store);
      assert forall i | 0 <= i < |keys| :: keys[i] in keys;
      keys := keys + [k];
      todo := todo - {k};
    }
  }

  predicate Expired<V>(e: Entry<V>, now: Time) {
    e.expiresAt < now
  }

  function Unexpired<K(==), V>(store: map<K, Entry<V>>, now: Time): map<K, Entry<V>> {
    map k | k in store && !Expired(store[k], now) :: store[k]
  }

  /** What is unexpired: entries whose expiry has not passed, as they are. */
  lemma UnexpiredEntries<K, V>(store: map<K, Entry<V>>, now: Time, k: K)
    ensures k in Unexpired(store, now) <==> k in store && now <= store[k].expiresAt
    ensures k in Unexpired(store, now) ==> Unexpired(store, now)[k] == store[k]
  {
  }

  /** `K` is the cache key, made of the user and the URL. */
  class CacheResponseInterceptor<K(==), V> {
    var store: map<K, Entry<V>>
    /** The last value stored under every key ever used. */
    ghost var history: map<K, Stored<V>>

    /** Never more than 2000 entries, each the last value stored for its key. */
    ghost predicate Valid()
      reads this
    {
      && |store| <= MAX_CACHE_SIZE
      && forall k <- store.Keys :: k in history && history[k] == Stored(store[k].value, store[k].expiresAt)
    }

    constructor ()
      ensures Valid() && store == map[] && history == map[]
    {
      store, history := map[], map[];
    }

    /** The first half of a request: a hit is the last value stored for the key, unexpired; nothing but its access time changes. */
    method Lookup(cacheKey: K, now: Time) returns (hit: Option<V>)
      requires Valid()
      modifies this`store
      ensures Valid()
      ensures hit.Some? ==> cacheKey in history && hit.value == history[cacheKey].value && now < history[cacheKey].expiresAt
      ensures hit.Some? <==> cacheKey in old(store) && now < old(store)[cacheKey].expiresAt
      ensures store == if hit.Some? then old(store)[cacheKey := old(store)[cacheKey].(lastAccessed := now)] else old(store)
    {
      if cacheKey in store && store[cacheKey].expiresAt > now {
        var cached := store[cacheKey].(lastAccessed := now);
        store := store[cacheKey := cached];
        return Some(cached.value);
      }
      return None;
    }

    /** The second half: the handler's answer is stored, after making room. */
    method Complete(cacheKey: K, data: V, ttlMs: int, now: Time)
      requires Valid()
      modifies this
      ensures Valid()
      ensures history == old(history)[cacheKey := Stored(data, now + ttlMs)]
      ensures cacheKey in store && store[cacheKey] == Entry(data, now + ttlMs, now)
      ensures forall k <- store.Keys :: k == cacheKey || (k in old(store) && store[k] == old(store)[k])
      ensures |store| <= 2000
      ensures |old(store)| < 2000 ==> store == old(store)[cacheKey := Entry(data, now + ttlMs, now)]
    {
      if |store| >= MAX_CACHE_SIZE {
        Evict(now);
      }
      store := store[cacheKey := Entry(data, now + ttlMs, now)];
      history := history[cacheKey := Stored(data, now + ttlMs)];
    }

    /**
     Keeps unexpired entries only. If that leaves 2000 or more, exactly enough are removed to leave 1500, and no removed
     entry was accessed later than a kept one.
     */
    method Evict(now: Time)
      requires Valid()
      modifies this`store
      ensures Valid() && |store| < 2000
      ensures forall k <- store.Keys :: k in old(store) && store[k] == old(store)[k] && !Expired(store[k], now)
      ensures forall k <- store.Keys :: now <= store[k].expiresAt
      ensures |store| != 1500 ==> forall k <- old(store).Keys :: now <= old(store)[k].expiresAt ==> k in store
      ensures |Unexpired(old(store), now)| < MAX_CACHE_SIZE ==> store == Unexpired(old(store), now)
      ensures |Unexpired(old(store), now)| >= MAX_CACHE_SIZE ==>
                && |store| == 1500
                && forall gone, kept | gone in Unexpired(old(store), now) && gone !in store && kept in store ::
                     old(store)[gone].lastAccessed <= store[kept].lastAccessed
    {
      DropExpired(now);
      if |store| >= MAX_CACHE_SIZE {
        DropOldest();
      }
    }

    /** The second phase. */
    method DropOldest()
      requires Valid() && |store| >= MAX_CACHE_SIZE
      modifies this`store
      ensures Valid() && |store| == 1500
      ensures forall k <- store.Keys :: k in old(store) && store[k] == old(store)[k]
      ensures forall gone, kept | gone in old(store) && gone !in store && kept in store ::
                old(store)[gone].lastAccessed <= store[kept].lastAccessed
    {
      ghost var alive := store;
      var entries := SortKeys(store);
      var toRemove := Max(|entries| - 1500, 1);
      RemoveFirst(entries, toRemove);
      RemovedAreOlder(entries, toRemove, alive, store);
    }

    /** Deletes the first n of all keys. */
    method RemoveFirst(entries: seq<K>, n: nat)
      requires n <= |entries| == |store| && Ordered(entries, store)
      modifies this`store
      ensures store.Keys <= old(store).Keys && (forall k <- store.Keys :: store[k] == old(store)[k])
      ensures forall j | 0 <= j < |entries| :: entries[j] in store <==> n <= j
      ensures |store| == |entries| - n
    {
      ghost var alive := store;
      for i := 0 to n
        invariant store.Keys <= alive.Keys && (forall k <- store.Keys :: store[k] == alive[k])
        invariant forall j | 0 <= j < |entries| :: entries[j] in store <==> i <= j
        invariant |store| == |alive| - i
      {
        store := store - {entries[i]};
      }
    }

    /** The first phase. */
    method DropExpired(now: Time)
      requires Valid()
      modifies this`store
      ensures Valid() && store == Unexpired(old(store), now)
      ensures forall k <- old(store).Keys :: k in store <==> now <= old(store)[k].expiresAt
    {
      ghost var before := store;
      var todo := store.Keys;
      while todo != {}
        invariant todo <= before.Keys
        invariant store == map k | k in before && (k in todo || !Expired(before[k], now)) :: before[k]
        decreases todo
      {
        var k :| k in todo;
        if store[k].expiresAt < now {
          store := store - {k};
        }
        todo := todo - {k};
      }
      SubsetCardinality(store.Keys, before.Keys);
    }
  }

  /** Removing the first keys in access order removes nothing accessed later than what is kept. */
  lemma RemovedAreOlder<K, V>(entries: seq<K>, removed: nat, alive: map<K, Entry<V>>, store: map<K, Entry<V>>)
    requires Ordered(entries, alive) && (forall k :: k in entries <==> k in alive)
    requires store.Keys <= alive.Keys && (forall k <- store.Keys :: store[k] == alive[k])
    requires forall j | 0 <= j < |entries| :: entries[j] in store <==> removed <= j
    ensures forall gone, kept | gone in alive && gone !in store && kept in store ::
              alive[gone].lastAccessed <= store[kept].lastAccessed
  {
    forall gone, kept | gone in alive && gone !in store && kept in store
      ensures alive[gone].lastAccessed <= store[kept].lastAccessed
    {
      var i :| 0 <= i < |entries| && entries[i] == gone;
      var j :| 0 <= j < |entries| && entries[j] == kept;
      assert i < removed <= j;
    }
  }
}
