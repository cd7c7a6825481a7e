/**
 The verification result cache: a map of entries, an expiry heap with an index by key, a
 per-digest index, and sharded invalidation epochs. The methods are proved against plain maps:
 `entries` is the abstract value, and the other structures always agree with it.
 */
module ResultCache {
  import opened Options
  import opened ExpiryHeap

  const INVALIDATION_SHARDS := 256
  const DEFAULT_MAX_SIZE := 10000
  const UINT64: nat := 0x1_0000_0000_0000_0000

  datatype Entry<R> = Entry(result: R, expiresAt: int)

  // ---------- Specification on plain maps ----------

  predicate Expired(e: Entry, now: int)
  {
    now > e.expiresAt
  }

  function WithoutExpired<R>(m: map<Key, Entry<R>>, now: int): (r: map<Key, Entry<R>>)
  {
    map k | k in m && !Expired(m[k], now) :: m[k]
  }

  ghost predicate Soonest<R>(m: map<Key, Entry<R>>, k: Key)
  {
    k in m && forall k' :: k' in m ==> m[k].expiresAt <= m[k'].expiresAt
  }

  // Making room for k: a new key in a full cache drops the expired entries, and a
  // soonest-expiring one if that freed no room.
  ghost predicate MakesRoom<R>(m: map<Key, Entry<R>>, room: map<Key, Entry<R>>, maxSize: int, k: Key, now: int)
  {
    var live := WithoutExpired(m, now);
    if k in m || |m| < maxSize then room == m
    else if |live| < maxSize then room == live
    else exists victim :: Soonest(live, victim) && room == live - {victim}
  }

  ghost predicate Stores<R(!new)>(m: map<Key, Entry<R>>, m': map<Key, Entry<R>>, maxSize: int, k: Key, e: Entry<R>, now: int)
  {
    exists room :: MakesRoom(m, room, maxSize, k, now) && m' == room[k := e]
  }

  // A key namespace matches when it equals namespace or extends it with a NUL separated suffix.
  predicate NamespaceMatches(keyNamespace: string, namespace: string)
  {
    && namespace <= keyNamespace
    && (|keyNamespace| == |namespace| || keyNamespace[|namespace|] == '\0')
  }

  predicate Invalidates(digest: string, namespace: string, k: Key)
  {
    k.digest == digest && NamespaceMatches(k.namespace, namespace)
  }

  function WithoutMatching<R>(m: map<Key, Entry<R>>, digest: string, namespace: string): (r: map<Key, Entry<R>>)
  {
    map k | k in m && !Invalidates(digest, namespace, k) :: m[k]
  }

  /**
   Without the entries of a digest in a namespace: those whose namespace is that one, or that one
   with a suffix after a NUL, are removed, and all others kept.
   */
  lemma WithoutMatchingMeaning<R>(m: map<Key, Entry<R>>, digest: string, namespace: string)
    ensures forall rest: string ::
              Key(digest, namespace + rest) in WithoutMatching(m, digest, namespace) <==>
                Key(digest, namespace + rest) in m && rest != "" && rest[0] != '\0'
    ensures forall k :: k in m && (k.digest != digest || !(namespace <= k.namespace)) ==> k in WithoutMatching(m, digest, namespace)
    ensures forall k :: k in WithoutMatching(m, digest, namespace) ==> k in m && WithoutMatching(m, digest, namespace)[k] == m[k]
  {
    forall rest: string
      ensures NamespaceMatches(namespace + rest, namespace) <==> rest == "" || rest[0] == '\0'
    {
      assert namespace <= namespace + rest;
    }
  }

  // The digest index holds exactly the digests in use, each with all of its keys.
  ghost predicate Indexes(index: map<string, set<Key>>, keys: set<Key>)
  {
    && (forall k :: k in keys ==> k.digest in index && k in index[k.digest])
    && (forall d :: d in index ==> index[d] != {})
    && (forall d, k :: d in index && k in index[d] ==> k in keys && k.digest == d)
  }

  function IndexKey(index: map<string, set<Key>>, k: Key): map<string, set<Key>>
  {
    index[k.digest := (if k.digest in index then index[k.digest] else {}) + {k}]
  }

  function UnindexKey(index: map<string, set<Key>>, k: Key): map<string, set<Key>>
  {
    if k.digest !in index then index
    else
      var keys := index[k.digest] - {k};
      if keys == {} then index - {k.digest} else index[k.digest := keys]
  }

  lemma UnindexKeyIndexes(index: map<string, set<Key>>, keys: set<Key>, k: Key)
    requires Indexes(index, keys)
    ensures Indexes(UnindexKey(index, k), keys - {k})
  {
    forall k' | k' in keys - {k}
      ensures k'.digest in UnindexKey(index, k) && k' in UnindexKey(index, k)[k'.digest]
    {
      if k'.digest == k.digest {
        assert k' in index[k.digest] - {k};
      }
    }
  }

  // The store never exceeds the capacity.
  lemma StoresWithinCapacity<R>(m: map<Key, Entry<R>>, room: map<Key, Entry<R>>, maxSize: int, k: Key, e: Entry<R>, now: int)
    requires MakesRoom(m, room, maxSize, k, now) && |m| <= maxSize && 1 <= maxSize
    ensures |room[k := e]| <= maxSize
  {
    var live := WithoutExpired(m, now);
    assert room[k := e].Keys == room.Keys + {k};
    if k in m {
      assert room.Keys + {k} == m.Keys;
    } else if |m| >= maxSize && |live| >= maxSize {
      SubsetSize(live.Keys, m.Keys);
      var victim :| Soonest(live, victim) && room == live - {victim};
      assert room.Keys == live.Keys - {victim};
    }
  }

  // Making room only drops entries, and only for a new key in a full cache: all expired ones, and
  // else a single one that expires no later than those it keeps.
  lemma RoomKeeps<R>(m: map<Key, Entry<R>>, room: map<Key, Entry<R>>, maxSize: int, k: Key, now: int)
    requires MakesRoom(m, room, maxSize, k, now)
    ensures room.Keys <= m.Keys && forall k' :: k' in room ==> room[k'] == m[k']
    ensures k in m || |m| < maxSize ==> room == m
    ensures k !in m && |m| >= maxSize ==> forall k' :: k' in room ==> now <= m[k'].expiresAt
    ensures forall k', x :: k' in m && k' !in room && now <= m[k'].expiresAt && x in room ==> m[k'].expiresAt <= m[x].expiresAt
    ensures forall k', x :: k' in m && k' !in room && now <= m[k'].expiresAt && x in m && x !in room && now <= m[x].expiresAt ==> k' == x
  {
    var live := WithoutExpired(m, now);
    if !(k in m || |m| < maxSize || |live| < maxSize) {
      var victim :| Soonest(live, victim) && room == live - {victim};
    }
  }

  // The store holds the entry afterwards and changes no other entry that it keeps. It drops entries
  // only for a new key in a full cache: all expired ones, and else one that expires no later than
  // those it keeps.
  lemma StoresKeeps<R(!new)>(m: map<Key, Entry<R>>, m': map<Key, Entry<R>>, maxSize: int, k: Key, e: Entry<R>, now: int)
    requires Stores(m, m', maxSize, k, e, now)
    ensures k in m' && m'[k] == e
    ensures forall k' :: k' in m' && k' != k ==> k' in m && m'[k'] == m[k']
    ensures k in m || |m| < maxSize ==> m.Keys <= m'.Keys
    ensures k !in m && |m| >= maxSize ==> forall k' :: k' in m && now > m[k'].expiresAt ==> k' !in m'
    ensures forall k', x :: k' in m && k' !in m' && now <= m[k'].expiresAt && x in m' && x != k ==> m[k'].expiresAt <= m[x].expiresAt
    ensures forall k', x :: k' in m && k' !in m' && now <= m[k'].expiresAt && x in m && x !in m' && now <= m[x].expiresAt ==> k' == x
  {
    hide MakesRoom;
    var room :| MakesRoom(m, room, maxSize, k, now) && m' == room[k := e];
    RoomKeeps(m, room, maxSize, k, now);
  }

  lemma SubsetSize<T>(a: set<T>, b: set<T>)
    requires a <= b
    ensures |a| <= |b|
  {
    assert b == a + (b - a);
  }

  lemma RemoveOne<R>(m: map<Key, Entry<R>>, k: Key)
    ensures (m - {k}).Keys == m.Keys - {k}
    ensures if k in m then |m - {k}| == |m| - 1 else m - {k} == m
  {
    var rest := m - {k};
    assert rest.Keys == m.Keys - {k};
    if k !in m {
      assert rest.Keys == m.Keys;
    }
  }

  // The epochs after an invalidation in a shard; they are unsigned 64 bit counters.
  function Advanced(epochs: seq<nat>, shard: nat): (r: seq<nat>)
    requires shard < |epochs|
  {
    epochs[shard := (epochs[shard] + 1) % UINT64]
  }

  function KeysOf(index: map<string, set<Key>>, digest: string): set<Key>
  {
    if digest in index then index[digest] else {}
  }

  lemma KeysOfIndexed<R>(index: map<string, set<Key>>, m: map<Key, Entry<R>>, digest: string, namespace: string)
    requires Indexes(index, m.Keys)
    ensures PartlyDeleted(m, m, KeysOf(index, digest), digest, namespace)
  {
  }

  // Deleting the entries of digest in namespace, with the keys in todo still to be visited.
  ghost predicate PartlyDeleted<R>(m: map<Key, Entry<R>>, m': map<Key, Entry<R>>, todo: set<Key>, digest: string, namespace: string)
  {
    && m'.Keys <= m.Keys
    && (forall k :: k in todo ==> k in m' && k.digest == digest)
    && (forall k :: k in m ==>
          if k in m' then m'[k] == m[k] && (k in todo || !Invalidates(digest, namespace, k))
          else Invalidates(digest, namespace, k))
  }

  lemma DeletedOne<R>(m: map<Key, Entry<R>>, m': map<Key, Entry<R>>, todo: set<Key>, digest: string, namespace: string, k: Key)
    requires PartlyDeleted(m, m', todo, digest, namespace) && k in todo
    ensures if NamespaceMatches(k.namespace, namespace)
            then PartlyDeleted(m, m' - {k}, todo - {k}, digest, namespace) && |m' - {k}| == |m'| - 1
            else PartlyDeleted(m, m', todo - {k}, digest, namespace)
  {
    RemoveOne(m', k);
  }

  lemma FullyDeleted<R>(m: map<Key, Entry<R>>, m': map<Key, Entry<R>>, digest: string, namespace: string)
    requires PartlyDeleted(m, m', {}, digest, namespace)
    ensures m' == WithoutMatching(m, digest, namespace) && |m'| <= |m|
  {
    assert m'.Keys == WithoutMatching(m, digest, namespace).Keys;
    SubsetSize(m'.Keys, m.Keys);
  }

  // Some of the expired entries of m were evicted, and nothing else changed.
  ghost predicate PartlyEvicted<R>(m: map<Key, Entry<R>>, m': map<Key, Entry<R>>, now: int)
  {
    m'.Keys <= m.Keys && forall k :: k in m ==> if k in m' then m'[k] == m[k] else Expired(m[k], now)
  }

  lemma EvictedOne<R>(m: map<Key, Entry<R>>, m': map<Key, Entry<R>>, victim: Key, now: int)
    requires PartlyEvicted(m, m', now) && victim in m' && Expired(m'[victim], now)
    ensures PartlyEvicted(m, m' - {victim}, now) && |m' - {victim}| < |m'|
  {
    RemoveOne(m', victim);
  }

  lemma FullyEvicted<R>(m: map<Key, Entry<R>>, m': map<Key, Entry<R>>, now: int)
    requires PartlyEvicted(m, m', now) && forall k :: k in m' ==> !Expired(m'[k], now)
    ensures m' == WithoutExpired(m, now)
  {
    assert m'.Keys == WithoutExpired(m, now).Keys;
  }

  lemma IndexKeyIndexes(index: map<string, set<Key>>, keys: set<Key>, k: Key)
    requires Indexes(index, keys)
    ensures Indexes(IndexKey(index, k), keys + {k})
  {
  }

  // ---------- The cache ----------

  // Digests share an invalidation epoch by their hash.
  function ShardOf(hash: string -> nat, digest: string): (shard: nat)
    ensures shard < INVALIDATION_SHARDS
  {
    hash(digest) % INVALIDATION_SHARDS
  }

  class Cache<R(!new)> {
    var entries: map<Key, Entry<R>>
    const maxSize: int
    const expHeap: Heap
    var heapIndex: map<Key, HeapEntry>
    var digestIndex: map<string, set<Key>>
    var epochs: seq<nat>
    // The digest hash; digests share an invalidation epoch by it.
    const hash: string -> nat

    constructor (maxSize: int, hash: string -> nat)
      ensures Valid() && entries == map[] && this.hash == hash
      ensures this.maxSize == if maxSize <= 0 then DEFAULT_MAX_SIZE else maxSize
      ensures fresh(expHeap) && forall i :: 0 <= i < |epochs| ==> epochs[i] == 0
    {
      entries, heapIndex, digestIndex := map[], map[], map[];
      this.maxSize := if maxSize <= 0 then DEFAULT_MAX_SIZE else maxSize;
      this.hash := hash;
      expHeap := new Heap();
      epochs := seq(INVALIDATION_SHARDS, _ => 0);
    }

    // Every entry of m has a heap entry with its key and expiry time, and there are no others.
    // A popped heap entry lost its place in the heap already.
    ghost predicate LinkedTo(m: map<Key, Entry<R>>, popped: set<HeapEntry>)
      reads this`heapIndex, expHeap, expHeap.items, popped
    {
      && heapIndex.Keys == m.Keys
      && (forall k :: k in heapIndex ==> heapIndex[k].cacheKey == k && heapIndex[k] in Elems(expHeap.items) + popped)
      && (forall h :: h in Elems(expHeap.items) + popped ==>
            h.cacheKey in heapIndex && heapIndex[h.cacheKey] == h && h.expiresAt == m[h.cacheKey].expiresAt)
      && (forall h :: h in popped ==> h.index == -1 && h !in Elems(expHeap.items))
    }

    ghost predicate Consistent(popped: set<HeapEntry>)
      reads this, expHeap, expHeap.items, popped
    {
      && expHeap.Valid() && LinkedTo(entries, popped)
      && Indexes(digestIndex, entries.Keys)
      && 1 <= maxSize && |epochs| == INVALIDATION_SHARDS
    }

    ghost predicate Valid()
      reads this, expHeap, expHeap.items
    {
      Consistent({}) && |entries| <= maxSize
    }

    // Records k in the digest index.
    method IndexLocked(k: Key, ghost keys: set<Key>)
      requires Indexes(digestIndex, keys)
      modifies this`digestIndex
      ensures Indexes(digestIndex, keys + {k})
    {
      IndexKeyIndexes(digestIndex, keys, k);
      digestIndex := IndexKey(digestIndex, k);
    }

    // Removes k from the digest index, dropping the key set of its digest once it is empty.
    method UnindexLocked(k: Key, ghost keys: set<Key>)
      requires Indexes(digestIndex, keys)
      modifies this`digestIndex
      ensures Indexes(digestIndex, keys - {k})
    {
      UnindexKeyIndexes(digestIndex, keys, k);
      digestIndex := UnindexKey(digestIndex, k);
    }

    // Removes k from the heap (unless it was already popped) and from the index by key.
    method DropHeapEntry(k: Key, ghost m: map<Key, Entry<R>>, ghost popped: set<HeapEntry>)
      requires expHeap.Valid() && LinkedTo(m, popped)
      requires forall h :: h in popped ==> h.cacheKey == k
      modifies this`heapIndex, expHeap, Elems(expHeap.items)`index
      ensures expHeap.Valid() && LinkedTo(m - {k}, {})
      ensures Elems(expHeap.items) <= old(Elems(expHeap.items))
    {
      if k in heapIndex {
        var heapEntry := heapIndex[k];
        if heapEntry.index >= 0 {
          assert heapEntry in Elems(expHeap.items);
          var _ := expHeap.Remove(heapEntry.index);
        }
        heapIndex := heapIndex - {k};
      }
    }

    // Removes k from the entries, the heap (unless it was already popped), and the digest index.
    method RemoveLocked(k: Key, ghost popped: set<HeapEntry>)
      requires Consistent(popped) && forall h :: h in popped ==> h.cacheKey == k
      modifies this`entries, this`heapIndex, this`digestIndex, expHeap, Elems(expHeap.items)`index
      ensures Consistent({}) && entries == old(entries) - {k}
      ensures Elems(expHeap.items) <= old(Elems(expHeap.items))
    {
      ghost var before := entries;
      UnindexLocked(k, entries.Keys);
      entries := entries - {k};
      DropHeapEntry(k, before, popped);
      assert entries.Keys == before.Keys - {k};
    }

    // Evicts a soonest-expiring entry.
    method EvictSoonestLocked() returns (victim: Key)
      requires Consistent({}) && entries != map[]
      modifies this`entries, this`heapIndex, this`digestIndex, expHeap, Elems(expHeap.items)`index
      ensures Consistent({}) && Soonest(old(entries), victim) && entries == old(entries) - {victim}
      ensures Elems(expHeap.items) <= old(Elems(expHeap.items))
    {
      hide Indexes;
      ghost var some :| some in entries;
      assert heapIndex[some] in Elems(expHeap.items);
      forall k | k in entries
        ensures heapIndex[k] in expHeap.items
      {
        assert heapIndex[k] in Elems(expHeap.items);
      }
      var popped := expHeap.Pop();
      victim := popped.cacheKey;
      RemoveLocked(victim, {popped});
    }

    // Evicts the expired entries.
    method EvictExpiredLocked(now: int)
      requires Consistent({})
      modifies this`entries, this`heapIndex, this`digestIndex, expHeap, Elems(expHeap.items)`index
      ensures Consistent({}) && entries == WithoutExpired(old(entries), now)
      ensures Elems(expHeap.items) <= old(Elems(expHeap.items))
    {
      ghost var before := entries;
      while expHeap.items != [] && now > expHeap.items[0].expiresAt
        invariant Consistent({})
        invariant Elems(expHeap.items) <= old(Elems(expHeap.items))
        invariant PartlyEvicted(before, entries, now)
        decreases |entries|
      {
        FirstIsSoonest();
        ghost var current := entries;
        var victim := EvictSoonestLocked();
        EvictedOne(before, current, victim, now);
      }
      FirstIsSoonest();
      FullyEvicted(before, entries, now);
    }

    // The first heap entry, if any, expires no later than any entry of the cache.
    lemma FirstIsSoonest()
      requires Consistent({})
      ensures (expHeap.items == []) == (entries == map[])
      ensures expHeap.items != [] ==> Soonest(entries, expHeap.items[0].cacheKey)
      ensures expHeap.items != [] ==> expHeap.items[0].expiresAt == entries[expHeap.items[0].cacheKey].expiresAt
    {
      if expHeap.items != [] {
        assert expHeap.items[0] in Elems(expHeap.items);
        assert expHeap.items[0].cacheKey in entries;
        forall k | k in entries
          ensures expHeap.items[0].expiresAt <= entries[k].expiresAt
        {
          assert heapIndex[k] in Elems(expHeap.items);
          var i :| 0 <= i < |expHeap.items| && expHeap.items[i] == heapIndex[k];
          RootIsSoonest(Times(expHeap.items), |expHeap.items|, i);
        }
      } else {
        assert forall k :: k in entries ==> heapIndex[k] in Elems(expHeap.items);
      }
    }

    // Moves the heap entry of k to a new expiry time.
    method MoveHeapEntry(k: Key, expiresAt: int, ghost m: map<Key, Entry<R>>, ghost e: Entry<R>)
      requires expHeap.Valid() && LinkedTo(m, {}) && e.expiresAt == expiresAt && k in heapIndex
      modifies expHeap, Elems(expHeap.items)
      ensures expHeap.Valid() && LinkedTo(m[k := e], {})
      ensures Elems(expHeap.items) == old(Elems(expHeap.items))
    {
      var heapEntry := heapIndex[k];
      assert heapEntry in Elems(expHeap.items);
      ChangeOne(Times(expHeap.items), heapEntry.index, expiresAt);
      heapEntry.expiresAt := expiresAt;
      assert Times(expHeap.items) == old(Times(expHeap.items))[heapEntry.index := expiresAt];
      expHeap.Fix(heapEntry.index);
    }

    // Gives the new key k a heap entry.
    method AddHeapEntry(k: Key, expiresAt: int, ghost m: map<Key, Entry<R>>, ghost e: Entry<R>)
      requires expHeap.Valid() && LinkedTo(m, {}) && e.expiresAt == expiresAt && k !in heapIndex
      modifies this`heapIndex, expHeap, Elems(expHeap.items)`index
      ensures expHeap.Valid() && LinkedTo(m[k := e], {})
      ensures forall h :: h in Elems(expHeap.items) ==> h in old(Elems(expHeap.items)) || fresh(h)
    {
      var heapEntry := new HeapEntry(k, expiresAt);
      expHeap.Push(heapEntry);
      heapIndex := heapIndex[k := heapEntry];
    }

    // Makes room for k if it is a new key and the cache is full.
    method MakeRoomLocked(k: Key, now: int)
      requires Valid()
      modifies this`entries, this`heapIndex, this`digestIndex, expHeap, Elems(expHeap.items)`index
      ensures Consistent({}) && MakesRoom(old(entries), entries, maxSize, k, now)
      ensures Elems(expHeap.items) <= old(Elems(expHeap.items))
    {
      if k !in entries && |entries| >= maxSize {
        EvictExpiredLocked(now);
        if |entries| >= maxSize {
          var victim := EvictSoonestLocked();
        }
      }
    }

    // Gives k a heap entry with the expiry time of its new entry e, where the heap is still
    // linked to the entries m before the store.
    method LinkHeapEntry(k: Key, expiresAt: int, ghost m: map<Key, Entry<R>>, ghost e: Entry<R>)
      requires expHeap.Valid() && LinkedTo(m, {}) && e.expiresAt == expiresAt
      modifies this`heapIndex, expHeap, Elems(expHeap.items)
      ensures expHeap.Valid() && LinkedTo(m[k := e], {})
      ensures forall h :: h in Elems(expHeap.items) ==> h in old(Elems(expHeap.items)) || fresh(h)
    {
      if k in heapIndex {
        MoveHeapEntry(k, expiresAt, m, e);
      } else {
        AddHeapEntry(k, expiresAt, m, e);
      }
    }

    // Stores e under k in all structures.
    method InsertLocked(k: Key, e: Entry<R>)
      requires Consistent({})
      modifies this`entries, this`heapIndex, this`digestIndex, expHeap, Elems(expHeap.items)
      ensures Consistent({}) && entries == old(entries)[k := e]
      ensures forall h :: h in Elems(expHeap.items) ==> h in old(Elems(expHeap.items)) || fresh(h)
    {
      hide LinkedTo, Indexes;
      ghost var before := entries;
      IndexLocked(k, entries.Keys);
      entries := entries[k := e];
      assert entries.Keys == before.Keys + {k};
      LinkHeapEntry(k, e.expiresAt, before, e);
    }

    method SetLocked(k: Key, e: Entry<R>, now: int)
      requires Valid()
      modifies this`entries, this`heapIndex, this`digestIndex, expHeap, Elems(expHeap.items)
      ensures Valid() && Stores(old(entries), entries, maxSize, k, e, now)
      ensures forall h :: h in Elems(expHeap.items) ==> h in old(Elems(expHeap.items)) || fresh(h)
    {
      MakeRoomLocked(k, now);
      ghost var room := entries;
      InsertLocked(k, e);
      StoresWithinCapacity(old(entries), room, maxSize, k, e, now);
    }

    // Looks up a result. `now` and `later` are the clock at the lookup under the read lock and,
    // for an expired entry, at the second lookup under the write lock.
    method Get(digest: string, namespace: string, now: int, later: int) returns (result: Option<R>)
      requires Valid()
      modifies this`entries, this`heapIndex, this`digestIndex, expHeap, Elems(expHeap.items)`index
      ensures Valid()
      ensures var k := Key(digest, namespace);
              if k in old(entries) && (now <= old(entries)[k].expiresAt || later <= old(entries)[k].expiresAt)
              then result == Some(old(entries)[k].result) && entries == old(entries)
              else result == None && entries == old(entries) - {k}
    {
      var k := Key(digest, namespace);
      RemoveOne(entries, k);
      if k !in entries {
        return None;
      }
      if !Expired(entries[k], now) || !Expired(entries[k], later) {
        return Some(entries[k].result);
      }
      RemoveLocked(k, {});
      result := None;
    }

    method Epoch(digest: string) returns (epoch: nat)
      requires Valid()
      ensures epoch == epochs[ShardOf(hash, digest)]
    {
      epoch := epochs[ShardOf(hash, digest)];
    }

    // Stores a result computed from data fetched at the given epoch, unless its shard was
    // invalidated since. `now` and `later` are the clock when room is made and when the expiry
    // time is computed.
    method SetWithTTLAtEpoch(digest: string, namespace: string, result: R, ttl: int, jitter: nat, epoch: nat, now: int, later: int)
      returns (stored: bool)
      requires Valid()
      modifies this`entries, this`heapIndex, this`digestIndex, expHeap, Elems(expHeap.items)
      ensures Valid() && stored == (ttl > 0 && epochs[ShardOf(hash, digest)] == epoch)
      ensures if stored
              then Stores(old(entries), entries, maxSize, Key(digest, namespace), Entry(result, later + ttl + jitter), now)
              else entries == old(entries)
    {
      if ttl <= 0 || epochs[ShardOf(hash, digest)] != epoch {
        return false;
      }
      SetLocked(Key(digest, namespace), Entry(result, later + ttl + jitter), now);
      stored := true;
    }

    // Removes every entry of digest in namespace, visiting only the keys of digest.
    method RemoveMatchingLocked(digest: string, namespace: string) returns (removed: nat)
      requires Valid()
      modifies this`entries, this`heapIndex, this`digestIndex, expHeap, Elems(expHeap.items)`index
      ensures Valid() && entries == WithoutMatching(old(entries), digest, namespace)
      ensures removed == |old(entries)| - |entries|
    {
      hide LinkedTo, Indexes, PartlyDeleted, WithoutMatching;
      removed := 0;
      var todo := KeysOf(digestIndex, digest);
      ghost var before := entries;
      KeysOfIndexed(digestIndex, entries, digest, namespace);
      while todo != {}
        invariant Consistent({}) && Elems(expHeap.items) <= old(Elems(expHeap.items))
        invariant PartlyDeleted(before, entries, todo, digest, namespace)
        invariant removed == |before| - |entries|
        decreases todo
      {
        var k :| k in todo;
        DeletedOne(before, entries, todo, digest, namespace, k);
        todo := todo - {k};
        if NamespaceMatches(k.namespace, namespace) {
          RemoveLocked(k, {});
          removed := removed + 1;
        }
      }
      FullyDeleted(before, entries, digest, namespace);
    }

    // Invalidates digest in namespace: removes its entries and advances the invalidation epoch.
    method DeleteAll(digest: string, namespace: string) returns (removed: nat)
      requires Valid()
      modifies this, expHeap, Elems(expHeap.items)`index
      ensures entries == WithoutMatching(old(entries), digest, namespace)
      ensures Valid() && forall k :: k in entries ==> k in old(entries) && entries[k] == old(entries)[k]
      ensures forall rest: string ::
                Key(digest, namespace + rest) in entries <==>
                  Key(digest, namespace + rest) in old(entries) && rest != "" && rest[0] != '\0'
      ensures forall k :: k in old(entries) && (k.digest != digest || !(namespace <= k.namespace)) ==> k in entries
      ensures removed == |old(entries)| - |entries|
      ensures epochs == Advanced(old(epochs), ShardOf(hash, digest))
    {
      hide LinkedTo, Indexes, WithoutMatching;
      epochs := Advanced(epochs, ShardOf(hash, digest));
      removed := RemoveMatchingLocked(digest, namespace);
      WithoutMatchingMeaning(old(entries), digest, namespace);
    }

    method Len() returns (n: nat)
      requires Valid()
      ensures n == |entries| <= maxSize
    {
      n := |entries|;
    }
  }
}
