/**
 Interleavings of cache clients with invalidations. A client reads the invalidation epoch of a
 digest, computes a result from data it then fetches, and stores the result at that epoch; other
 clients, lookups, evictions and `DeleteAll` calls run in between. Each action below is one
 critical section of the cache, with the effect that the cache methods are proved to have.
 */
module CacheEpochs {
  import opened ExpiryHeap
  import opened ResultCache
  import opened Options

  // A read of the epoch of digest, by the action with index `at`.
  datatype Read = Read(digest: string, epoch: nat, at: nat)

  // A cached result is identified by the index of the action that read its epoch.
  datatype State = State(entries: map<Key, Entry<nat>>, epochs: seq<nat>, inFlight: map<nat, Read>)

  datatype Action =
    | ReadEpoch(client: nat, digest: string)
    | Store(client: nat, namespace: string, ttl: int, expiresAt: int, now: int)
    | DeleteAll(digest: string, namespace: string)
    | Lookup(key: Key, now: int)       // under the read lock
    | LookupAgain(key: Key, now: int)  // under the write lock, for an entry seen expired
    | EvictExpired(now: int)

  datatype Config = Config(hash: string -> nat, maxSize: int)

  ghost predicate Init(s: State)
  {
    s.entries == map[] && s.inFlight == map[] && s.epochs == seq(INVALIDATION_SHARDS, _ => 0)
  }

  predicate Accepts(c: Config, s: State, a: Action)
    requires a.Store? && |s.epochs| == INVALIDATION_SHARDS
  {
    a.ttl > 0 && a.client in s.inFlight && s.epochs[ShardOf(c.hash, s.inFlight[a.client].digest)] == s.inFlight[a.client].epoch
  }

  ghost predicate Next(c: Config, s: State, i: nat, a: Action, s': State)
    requires |s.epochs| == INVALIDATION_SHARDS
  {
    match a
    case ReadEpoch(client, digest) =>
      s' == s.(inFlight := s.inFlight[client := Read(digest, s.epochs[ShardOf(c.hash, digest)], i)])
    case Store(client, namespace, ttl, expiresAt, now) =>
      if Accepts(c, s, a) then
        var read := s.inFlight[client];
        && s' == s.(entries := s'.entries)
        && Stores(s.entries, s'.entries, c.maxSize, Key(read.digest, namespace), Entry(read.at, expiresAt), now)
      else s' == s
    case DeleteAll(digest, namespace) =>
      s' == s.(entries := WithoutMatching(s.entries, digest, namespace), epochs := Advanced(s.epochs, ShardOf(c.hash, digest)))
    case Lookup(_, _) => s' == s
    case LookupAgain(k, now) =>
      if k in s.entries && Expired(s.entries[k], now) then s' == s.(entries := s.entries - {k}) else s' == s
    case EvictExpired(now) => s' == s.(entries := WithoutExpired(s.entries, now))
  }

  // What a lookup returns.
  function Returned(s: State, a: Action): Option<nat>
  {
    if (a.Lookup? || a.LookupAgain?) && a.key in s.entries && !Expired(s.entries[a.key], a.now)
    then Some(s.entries[a.key].result)
    else None
  }

  ghost predicate Run(c: Config, states: seq<State>, actions: seq<Action>)
  {
    && |states| == |actions| + 1 && Init(states[0])
    && (forall i :: 0 <= i < |states| ==> |states[i].epochs| == INVALIDATION_SHARDS)
    && (forall i :: 0 <= i < |actions| ==> Next(c, states[i], i, actions[i], states[i + 1]))
  }

  predicate InvalidatesShard(c: Config, a: Action, shard: nat)
  {
    a.DeleteAll? && ShardOf(c.hash, a.digest) == shard
  }

  // The number of invalidations in a shard by the actions start..end.
  function Invalidations(c: Config, actions: seq<Action>, shard: nat, start: nat, end: nat): (n: nat)
    requires start <= end <= |actions|
    decreases end
  {
    if start == end then 0
    else Invalidations(c, actions, shard, start, end - 1) + if InvalidatesShard(c, actions[end - 1], shard) then 1 else 0
  }

  lemma {:induction false} InvalidationsSplit(c: Config, actions: seq<Action>, shard: nat, start: nat, mid: nat, end: nat)
    requires start <= mid <= end <= |actions|
    ensures Invalidations(c, actions, shard, start, end)
         == Invalidations(c, actions, shard, start, mid) + Invalidations(c, actions, shard, mid, end)
    decreases end
  {
    if mid < end {
      InvalidationsSplit(c, actions, shard, start, mid, end - 1);
    }
  }

  lemma EpochStep(c: Config, s: State, i: nat, a: Action, s': State, shard: nat)
    requires |s.epochs| == |s'.epochs| == INVALIDATION_SHARDS && Next(c, s, i, a, s') && shard < INVALIDATION_SHARDS
    ensures s'.epochs[shard] == if InvalidatesShard(c, a, shard) then (s.epochs[shard] + 1) % UINT64 else s.epochs[shard]
  {
  }

  // An epoch counts the invalidations of its shard, modulo the width of the counter.
  lemma {:induction false} EpochCounts(c: Config, states: seq<State>, actions: seq<Action>, shard: nat, i: nat)
    requires Run(c, states, actions) && shard < INVALIDATION_SHARDS && i < |states|
    ensures states[i].epochs[shard] == Invalidations(c, actions, shard, 0, i) % UINT64
  {
    if 0 < i {
      hide Next, Init, InvalidatesShard;
      EpochCounts(c, states, actions, shard, i - 1);
      EpochStep(c, states[i - 1], i - 1, actions[i - 1], states[i], shard);
    }
  }

  // Only epoch reads change the reads in flight, and only invalidations change the epochs.
  lemma NextFrame(c: Config, s: State, i: nat, a: Action, s': State)
    requires |s.epochs| == INVALIDATION_SHARDS && Next(c, s, i, a, s')
    ensures !a.ReadEpoch? ==> s'.inFlight == s.inFlight
    ensures !a.DeleteAll? ==> s'.epochs == s.epochs
  {
  }

  // An entry after an action is the one before it, or the one that the action stored.
  lemma NextEntry(c: Config, s: State, i: nat, a: Action, s': State, k: Key)
    requires |s.epochs| == INVALIDATION_SHARDS && Next(c, s, i, a, s') && k in s'.entries
    ensures || (k in s.entries && s'.entries[k] == s.entries[k] && !(a.DeleteAll? && Invalidates(a.digest, a.namespace, k)))
            || (a.Store? && Accepts(c, s, a) && k.digest == s.inFlight[a.client].digest
                && s'.entries[k].result == s.inFlight[a.client].at)
  {
    if a.Store? && Accepts(c, s, a) {
      var read := s.inFlight[a.client];
      StoresKeeps(s.entries, s'.entries, c.maxSize, Key(read.digest, a.namespace), Entry(read.at, a.expiresAt), a.now);
    }
  }

  lemma {:induction false} ReadsRecorded(c: Config, states: seq<State>, actions: seq<Action>, client: nat, i: nat)
    requires Run(c, states, actions) && i < |states| && client in states[i].inFlight
    ensures var read := states[i].inFlight[client];
            && read.at < i && actions[read.at] == ReadEpoch(client, read.digest)
            && read.epoch == Invalidations(c, actions, ShardOf(c.hash, read.digest), 0, read.at) % UINT64
  {
    assert Next(c, states[i - 1], i - 1, actions[i - 1], states[i]);
    NextFrame(c, states[i - 1], i - 1, actions[i - 1], states[i]);
    if actions[i - 1].ReadEpoch? && actions[i - 1].client == client {
      EpochCounts(c, states, actions, ShardOf(c.hash, actions[i - 1].digest), i - 1);
    } else {
      ReadsRecorded(c, states, actions, client, i - 1);
    }
  }

  /**
   When a store is accepted, for every run: exactly when the number of invalidations of the
   digest's shard since the client read the epoch is a multiple of 2^64. Below 2^64
   invalidations that means: no digest of the shard was invalidated in between. Digests that
   share a shard can therefore only make each other skip a write.
   */
  lemma StoreAcceptedIffNotInvalidated(c: Config, states: seq<State>, actions: seq<Action>, j: nat)
    requires Run(c, states, actions) && j < |actions| && actions[j].Store? && actions[j].client in states[j].inFlight
    ensures var read := states[j].inFlight[actions[j].client];
            && read.at < j
            && Accepts(c, states[j], actions[j])
               == (actions[j].ttl > 0 && Invalidations(c, actions, ShardOf(c.hash, read.digest), read.at, j) % UINT64 == 0)
    ensures !Accepts(c, states[j], actions[j]) ==> states[j + 1] == states[j]
  {
    var read := states[j].inFlight[actions[j].client];
    var shard := ShardOf(c.hash, read.digest);
    ReadsRecorded(c, states, actions, actions[j].client, j);
    EpochCounts(c, states, actions, shard, j);
    InvalidationsSplit(c, actions, shard, 0, read.at, j);
    CongruentIffDifferenceDivides(
      Invalidations(c, actions, shard, 0, read.at), Invalidations(c, actions, shard, read.at, j));
    assert Next(c, states[j], j, actions[j], states[j + 1]);
  }

  lemma CongruentIffDifferenceDivides(a: nat, d: nat)
    ensures ((a + d) % UINT64 == a % UINT64) == (d % UINT64 == 0)
  {
  }

  lemma InvalidationsPositive(c: Config, actions: seq<Action>, start: nat, i: nat, end: nat)
    requires start <= i < end <= |actions| && actions[i].DeleteAll?
    ensures Invalidations(c, actions, ShardOf(c.hash, actions[i].digest), start, end) > 0
  {
    InvalidationsSplit(c, actions, ShardOf(c.hash, actions[i].digest), start, i + 1, end);
  }

  // A store accepted after an invalidation in its shard read its epoch after it.
  lemma AcceptedReadIsRecent(c: Config, states: seq<State>, actions: seq<Action>, i: nat, j: nat)
    requires Run(c, states, actions) && i < j < |actions| && actions[i].DeleteAll?
    requires actions[j].Store? && Accepts(c, states[j], actions[j])
    requires ShardOf(c.hash, states[j].inFlight[actions[j].client].digest) == ShardOf(c.hash, actions[i].digest)
    requires Invalidations(c, actions, ShardOf(c.hash, actions[i].digest), 0, |actions|) < UINT64
    ensures states[j].inFlight[actions[j].client].at > i
  {
    var read, shard := states[j].inFlight[actions[j].client], ShardOf(c.hash, actions[i].digest);
    StoreAcceptedIffNotInvalidated(c, states, actions, j);
    InvalidationsSplit(c, actions, shard, 0, read.at, |actions|);
    InvalidationsSplit(c, actions, shard, read.at, j, |actions|);
    if read.at <= i {
      InvalidationsPositive(c, actions, read.at, i, j);
    }
    assert actions[read.at].ReadEpoch? by {
      ReadsRecorded(c, states, actions, actions[j].client, j);
    }
  }

  // After an invalidation, the entries that it matches only hold results read after it.
  lemma {:induction false} MatchedEntriesAreRecent(c: Config, states: seq<State>, actions: seq<Action>, i: nat, j: nat, k: Key)
    requires Run(c, states, actions) && i < j < |states| && actions[i].DeleteAll?
    requires Invalidates(actions[i].digest, actions[i].namespace, k) && k in states[j].entries
    requires Invalidations(c, actions, ShardOf(c.hash, k.digest), 0, |actions|) < UINT64
    ensures states[j].entries[k].result > i
    decreases j
  {
    var s, a := states[j - 1], actions[j - 1];
    NextEntry(c, s, j - 1, a, states[j], k);
    if k in s.entries && states[j].entries[k] == s.entries[k] && i < j - 1 {
      MatchedEntriesAreRecent(c, states, actions, i, j - 1, k);
    } else if a.Store? {
      AcceptedReadIsRecent(c, states, actions, i, j - 1);
    }
  }

  // A lookup returns what is stored under its key exactly until it expires.
  lemma LookupReturns(s: State, k: Key, now: int)
    ensures var live := k in s.entries && now <= s.entries[k].expiresAt;
            Returned(s, Lookup(k, now)) == Returned(s, LookupAgain(k, now)) == if live then Some(s.entries[k].result) else None
  {
  }

  /**
   No stale result after an invalidation, in every interleaving: a lookup after
   `DeleteAll(digest, ns)` of the digest, in that namespace or in one that extends it with a suffix
   after a NUL, never returns a result whose epoch was read before the call.
   */
  lemma NoStaleLookup(c: Config, states: seq<State>, actions: seq<Action>, i: nat, j: nat, rest: string)
    requires Run(c, states, actions) && i < j < |actions| && actions[i].DeleteAll?
    requires Returned(states[j], actions[j]).Some?
    requires actions[j].key == Key(actions[i].digest, actions[i].namespace + rest) && (rest == "" || rest[0] == '\0')
    requires Invalidations(c, actions, ShardOf(c.hash, actions[i].digest), 0, |actions|) < UINT64
    ensures Returned(states[j], actions[j]).value > i
    ensures actions[j].now <= states[j].entries[actions[j].key].expiresAt
  {
    MatchedEntriesAreRecent(c, states, actions, i, j, actions[j].key);
  }
}
