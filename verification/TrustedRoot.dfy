/**
 The cache of a Sigstore trusted root: a fresh time to live, a staleness limit, a negative cache
 after failed refreshes and an optional pre-seeded fallback. Times are in seconds.
 */
module TrustedRoot {
  import opened Options

  const CACHE_TTL := 3600
  const MAX_STALENESS := 86400
  const NEGATIVE_TTL := 300
  const RETRY_INTERVAL := 30
  const FETCH_TIMEOUT := 60

  // A root is the pre-seeded one or the one that a fetch returned.
  datatype Root = PreSeeded | Fetched(fetch: nat)
  datatype Cached = Cached(root: Root, fetchedAt: int)
  datatype Answer = Use(root: Root) | Fail(reason: string)

  datatype CacheState = CacheState(
    cached: Option<Cached>,
    lastFetchErr: Option<int>,
    lastErr: Option<string>,
    preSeeded: bool)
  {
    predicate Fresh(now: int) { cached.Some? && now - cached.value.fetchedAt < CACHE_TTL }

    predicate WithinStaleness(now: int) { cached.Some? && now - cached.value.fetchedAt <= MAX_STALENESS }

    // The best root without the network: the cached one within the staleness limit, else the
    // pre-seeded one.
    function Fallback(now: int): Option<Root>
    {
      if WithinStaleness(now) then Some(cached.value.root)
      else if preSeeded then Some(PreSeeded)
      else None
    }

    function CachedHit(now: int): Option<Root>
    {
      if Fresh(now) then Some(cached.value.root)
      else if lastFetchErr.None? || now - lastFetchErr.value >= NEGATIVE_TTL then None
      else Fallback(now)
    }

    function RecentFailure(now: int): Option<string>
    {
      if lastErr.None? || lastFetchErr.None? || now - lastFetchErr.value >= RETRY_INTERVAL then None else lastErr
    }

    // A refresh failed: serve the fallback, or remember the failure when there is none.
    function AfterError(reason: string, now: int): (CacheState, Answer)
    {
      match Fallback(now)
      case Some(root) => (this.(lastFetchErr := Some(now)), Use(root))
      case None => (this.(lastFetchErr := Some(now), lastErr := Some(reason)), Fail(reason))
    }

    function AfterSuccess(c: Cached): CacheState
    {
      this.(cached := Some(c), lastFetchErr := None, lastErr := None)
    }
  }

  /**
   After a failed refresh the network is left alone: for five minutes while a cached or pre-seeded
   root can be served, which is then the same one that the refresh fell back to as long as the
   cached root does not become too stale, and for thirty seconds when there is none. Afterwards it
   is asked again.
   */
  lemma FailureWindow(s: CacheState, reason: string, failed: int, now: int)
    requires failed <= now
    ensures var (s', answer) := s.AfterError(reason, failed);
            && (now - failed < NEGATIVE_TTL && !s.Fresh(now) ==> s'.CachedHit(now) == s.Fallback(now))
            && (answer.Use? && s.WithinStaleness(now) ==> s.Fallback(now) == Some(answer.root))
            && (answer.Use? <==> (s.cached.Some? && failed - s.cached.value.fetchedAt <= MAX_STALENESS) || s.preSeeded)
            && (answer.Use? ==>
                  answer.root == if s.cached.Some? && failed - s.cached.value.fetchedAt <= MAX_STALENESS
                                 then s.cached.value.root else PreSeeded)
            && (answer.Fail? ==> s'.RecentFailure(now) == if now - failed < RETRY_INTERVAL then Some(reason) else None)
            && (now - failed >= NEGATIVE_TTL && !s.Fresh(now) ==> s'.CachedHit(now).None? && s'.RecentFailure(now).None?)
  {
  }

  /**
   After a successful refresh the new root is served for an hour from its fetch, whatever failed
   before, and then the network is asked again.
   */
  lemma SuccessWindow(s: CacheState, c: Cached, now: int)
    ensures var s' := s.AfterSuccess(c);
            && s'.CachedHit(now) == (if now - c.fetchedAt < CACHE_TTL then Some(c.root) else None)
            && s'.RecentFailure(now).None? && s'.preSeeded == s.preSeeded
  {
  }

  class TrustedRootCache {
    var root: Option<Root>
    var fetchedAt: int
    var lastFetchErr: Option<int>
    var lastErr: Option<string>
    const preSeeded: bool

    constructor (preSeeded: bool)
      ensures State() == CacheState(None, None, None, preSeeded)
    {
      this.preSeeded := preSeeded;
      root, fetchedAt, lastFetchErr, lastErr := None, 0, None, None;
    }

    function State(): CacheState
      reads this
    {
      CacheState(if root.Some? then Some(Cached(root.value, fetchedAt)) else None, lastFetchErr, lastErr, preSeeded)
    }

    method CachedHit(now: int) returns (hit: Option<Root>)
      ensures hit == State().CachedHit(now)
    {
      if root.Some? && now - fetchedAt < CACHE_TTL {
        return root;
      }
      if lastFetchErr.None? || now - lastFetchErr.value >= NEGATIVE_TTL {
        return None;
      }
      // A recent refresh failure: skip the network retry.
      if root.Some? && now - fetchedAt <= MAX_STALENESS {
        return root;
      }
      if preSeeded {
        return Some(PreSeeded);
      }
      return None;
    }

    method RecentFailure(now: int) returns (failure: Option<string>)
      ensures failure == State().RecentFailure(now)
    {
      if lastErr.None? || lastFetchErr.None? || now - lastFetchErr.value >= RETRY_INTERVAL {
        return None;
      }
      return lastErr;
    }

    method HandleRefreshError(reason: string, now: int) returns (answer: Answer)
      modifies this
      ensures (State(), answer) == old(State()).AfterError(reason, now)
    {
      if root.Some? {
        if now - fetchedAt <= MAX_STALENESS {
          lastFetchErr := Some(now);
          return Use(root.value);
        }
        if preSeeded {
          lastFetchErr := Some(now);
          return Use(PreSeeded);
        }
        lastFetchErr, lastErr := Some(now), Some(reason);
        return Fail(reason);
      }
      if preSeeded {
        lastFetchErr := Some(now);
        return Use(PreSeeded);
      }
      lastFetchErr, lastErr := Some(now), Some(reason);
      return Fail(reason);
    }

    // The end of a refresh.
    method FinishRefresh(fetched: Option<Cached>, reason: string, now: int) returns (answer: Answer)
      modifies this
      ensures if fetched.Some?
              then State() == old(State()).AfterSuccess(fetched.value) && answer == Use(fetched.value.root)
              else (State(), answer) == old(State()).AfterError(reason, now)
    {
      if fetched.None? {
        answer := HandleRefreshError(reason, now);
        return;
      }
      root, fetchedAt := Some(fetched.value.root), fetched.value.fetchedAt;
      lastFetchErr, lastErr := None, None;
      return Use(fetched.value.root);
    }
  }
}

/**
 Every interleaving of callers of the trusted root cache with refreshes and fetches. A refresh is
 shared by its callers, so one runs at a time; a fetch cannot be cancelled and may outlive the
 refresh that started it.
 */
module TrustedRootRuns {
  import opened Options
  import opened TrustedRoot

  // A fetch that returned left its result, and the time it completed, in its channel.
  datatype Fetch = InFlight | Done(ok: bool, at: int) | Taken(ok: bool, at: int)

  // Where the refresh stands. `since` is when it last looked at the age of a root.
  datatype Refresh =
    | Idle
    | Started
    | Fetching
    | Waiting(channel: nat, since: int)
    | Received(result: Option<Cached>, since: int)

  // A root that a caller got, when its age was last checked, and the fetch time that the cache
  // held at that moment.
  datatype Return = Return(root: Root, checkedAt: int, cachedAt: Option<int>)

  // `missed` callers found neither a root nor a recent failure and are yet to ask for a refresh.
  datatype World = World(
    cache: CacheState,
    fetches: seq<Fetch>,
    pending: Option<nat>,
    refresh: Refresh,
    missed: nat,
    now: int,
    returned: seq<Return>)

  datatype Action =
    | Tick(elapsed: nat)
    | GetHit
    | GetMiss
    | GetStart
    | GetCancelled
    | Refreshing
    | BeginFetch
    | FetchReturns(fetch: nat, ok: bool)
    | Receive
    | TimeOut
    | Finish

  function Initial(preSeeded: bool): World
  {
    World(CacheState(None, None, None, preSeeded), [], None, Idle, 0, 0, [])
  }

  // A caller looks at the cache under its lock, and asks for a refresh at any later moment, when
  // another refresh may have succeeded or failed meanwhile.
  predicate Enabled(w: World, a: Action)
  {
    match a
    case Tick(_) => true
    case GetHit => w.cache.CachedHit(w.now).Some?
    case GetMiss => w.cache.CachedHit(w.now).None? && w.cache.RecentFailure(w.now).None?
    case GetStart => w.missed > 0
    case GetCancelled => w.missed > 0
    case Refreshing => w.refresh.Started?
    case BeginFetch => w.refresh.Fetching?
    case FetchReturns(fetch, _) => fetch < |w.fetches| && w.fetches[fetch].InFlight?
    case Receive => w.refresh.Waiting? && w.refresh.channel < |w.fetches| && w.fetches[w.refresh.channel].Done?
    case TimeOut => w.refresh.Waiting? && w.now - w.refresh.since >= FETCH_TIMEOUT
    case Finish => w.refresh.Received?
  }

  function CachedAt(w: World): Option<int>
  {
    if w.cache.cached.Some? then Some(w.cache.cached.value.fetchedAt) else None
  }

  function Gave(w: World, root: Root, checkedAt: int): World
  {
    w.(returned := w.returned + [Return(root, checkedAt, CachedAt(w))])
  }

  // The result of a finished fetch as a refresh sees it.
  function ResultOf(w: World, fetch: nat): Option<Cached>
    requires fetch < |w.fetches| && !w.fetches[fetch].InFlight?
  {
    if w.fetches[fetch].ok then Some(Cached(Fetched(fetch), w.fetches[fetch].at)) else None
  }

  function Take(w: World, fetch: nat): World
    requires fetch < |w.fetches| && w.fetches[fetch].Done?
  {
    w.(fetches := w.fetches[fetch := Taken(w.fetches[fetch].ok, w.fetches[fetch].at)], pending := None)
  }

  // Waits for the pending fetch, or starts one.
  function WaitOrStart(w: World): World
  {
    if w.pending.Some? then w.(refresh := Waiting(w.pending.value, w.now))
    else w.(fetches := w.fetches + [InFlight], pending := Some(|w.fetches|), refresh := Waiting(|w.fetches|, w.now))
  }

  function Step(w: World, a: Action): World
    requires Enabled(w, a)
  {
    match a
    case Tick(elapsed) => w.(now := w.now + elapsed)
    case GetHit => Gave(w, w.cache.CachedHit(w.now).value, w.now)
    case GetMiss => w.(missed := w.missed + 1)
    case GetStart => w.(missed := w.missed - 1, refresh := if w.refresh.Idle? then Started else w.refresh)
    case GetCancelled => w.(missed := w.missed - 1)
    case Refreshing =>
      if w.cache.Fresh(w.now) then Gave(w, w.cache.cached.value.root, w.now).(refresh := Idle)
      else w.(refresh := Fetching)
    case BeginFetch =>
      if w.pending.Some? && w.pending.value < |w.fetches| && w.fetches[w.pending.value].Done? then
        var fetch := w.fetches[w.pending.value];
        var taken := Take(w, w.pending.value);
        if fetch.ok && w.now - fetch.at < CACHE_TTL then taken.(refresh := Received(ResultOf(w, w.pending.value), w.now))
        else WaitOrStart(taken)
      else WaitOrStart(w)
    case FetchReturns(fetch, ok) => w.(fetches := w.fetches[fetch := Done(ok, w.now)])
    case Receive =>
      Take(w, w.refresh.channel).(refresh := Received(ResultOf(w, w.refresh.channel), w.refresh.since))
    case TimeOut => w.(refresh := Received(None, w.refresh.since))
    case Finish =>
      if w.refresh.result.Some? then
        Gave(w, w.refresh.result.value.root, w.refresh.since)
        .(cache := w.cache.AfterSuccess(w.refresh.result.value), refresh := Idle)
      else
        var (cache, answer) := w.cache.AfterError("", w.now);
        (if answer.Use? then Gave(w, answer.root, w.now) else w).(cache := cache, refresh := Idle)
  }

  function Run(w: World, actions: seq<Action>): Option<World>
  {
    if actions == [] then Some(w)
    else
      var before := Run(w, actions[..|actions| - 1]);
      if before.Some? && Enabled(before.value, actions[|actions| - 1])
      then Some(Step(before.value, actions[|actions| - 1])) else None
  }

  // ---------- The invariant ----------

  // Only the pending fetch can be outstanding or hold a result.
  predicate Channels(w: World)
  {
    && (w.pending.Some? ==> w.pending.value < |w.fetches| && !w.fetches[w.pending.value].Taken?)
    && (forall i :: 0 <= i < |w.fetches| && !w.fetches[i].Taken? ==> w.pending == Some(i))
    && (forall i :: 0 <= i < |w.fetches| && !w.fetches[i].InFlight? ==> w.fetches[i].at <= w.now)
    && (w.refresh.Waiting? ==> w.pending == Some(w.refresh.channel) && w.refresh.since <= w.now)
    && (w.refresh.Received? ==> w.refresh.since <= w.now)
  }

  // A root of a fetch that succeeded, with the time the fetch completed.
  predicate Genuine(w: World, c: Cached)
  {
    && c.root.Fetched? && c.root.fetch < |w.fetches|
    && w.fetches[c.root.fetch] == Taken(true, c.fetchedAt) && c.fetchedAt <= w.now
  }

  // No result that is still to come is older than the cached root.
  predicate Ordered(w: World)
  {
    && (w.cache.cached.Some? ==> Genuine(w, w.cache.cached.value))
    && (w.refresh.Received? && w.refresh.result.Some? ==> Genuine(w, w.refresh.result.value))
    && (w.cache.cached.Some? ==> forall i :: 0 <= i < |w.fetches| && w.fetches[i].Done? ==>
                                   w.cache.cached.value.fetchedAt <= w.fetches[i].at)
    && (w.cache.cached.Some? && w.refresh.Received? && w.refresh.result.Some? ==>
          w.cache.cached.value.fetchedAt <= w.refresh.result.value.fetchedAt)
    && (w.refresh.Received? && w.refresh.result.Some? ==>
          forall i :: 0 <= i < |w.fetches| && w.fetches[i].Done? ==> w.refresh.result.value.fetchedAt <= w.fetches[i].at)
  }

  // What a refresh received is at most the time to live older than its last check.
  predicate Recent(w: World)
  {
    && (w.refresh.Received? && w.refresh.result.Some? ==> w.refresh.since - w.refresh.result.value.fetchedAt < CACHE_TTL)
    && (w.refresh.Waiting? && w.refresh.channel < |w.fetches| && w.fetches[w.refresh.channel].Done? ==>
          w.refresh.since <= w.fetches[w.refresh.channel].at)
  }

  // A returned root was fetched at most the staleness limit before its check, and the pre-seeded
  // root is returned only when the cache had no root within that limit.
  predicate GoodReturn(w: World, r: Return)
  {
    match r.root
    case PreSeeded => w.cache.preSeeded && (r.cachedAt.Some? ==> r.checkedAt - r.cachedAt.value > MAX_STALENESS)
    case Fetched(fetch) =>
      && fetch < |w.fetches| && w.fetches[fetch].Taken? && w.fetches[fetch].ok
      && r.checkedAt - w.fetches[fetch].at <= MAX_STALENESS
  }

  predicate GoodReturns(w: World)
  {
    forall r :: r in w.returned ==> GoodReturn(w, r)
  }

  // A remembered failure means that there was no root to serve, and there is none since.
  predicate FailureMeansNone(w: World)
  {
    w.cache.lastErr.Some? ==>
      && w.cache.lastFetchErr.Some? && w.cache.lastFetchErr.value <= w.now && !w.cache.preSeeded
      && (w.cache.cached.Some? ==> w.cache.lastFetchErr.value - w.cache.cached.value.fetchedAt > MAX_STALENESS)
  }

  predicate Inv(w: World)
  {
    && Channels(w) && Ordered(w) && Recent(w) && FailureMeansNone(w) && GoodReturns(w)
  }

  function Outstanding(w: World): set<nat>
  {
    set i: nat | i < |w.fetches| && w.fetches[i].InFlight?
  }

  // Returned roots stay good while taken results stay.
  lemma ReturnsStayGood(w: World, w': World)
    requires GoodReturns(w) && w'.returned == w.returned && w'.cache.preSeeded == w.cache.preSeeded
    requires |w.fetches| <= |w'.fetches|
    requires forall i :: 0 <= i < |w.fetches| && w.fetches[i].Taken? ==> w'.fetches[i] == w.fetches[i]
    ensures GoodReturns(w')
  {
  }

  lemma TickKeepsInv(w: World, a: Action)
    requires Inv(w) && Enabled(w, a) && (a.Tick? || a.GetMiss? || a.GetStart? || a.GetCancelled? || a.TimeOut?)
    ensures Inv(Step(w, a))
  {
    hide GoodReturns;
    ReturnsStayGood(w, Step(w, a));
  }

  lemma AnswerKeepsInv(w: World, a: Action)
    requires Inv(w) && Enabled(w, a) && (a.GetHit? || a.Refreshing?)
    ensures Inv(Step(w, a))
  {
    hide GoodReturns;
    assert GoodReturns(Step(w, a)) by { AnswerReturnsGood(w, a); }
  }

  lemma AnswerReturnsGood(w: World, a: Action)
    requires Inv(w) && Enabled(w, a) && (a.GetHit? || a.Refreshing?)
    ensures GoodReturns(Step(w, a))
  {
    hide Channels, Recent, FailureMeansNone;
  }

  lemma FinishKeepsInv(w: World)
    requires Inv(w) && Enabled(w, Finish)
    ensures Inv(Step(w, Finish))
  {
    hide GoodReturns;
    assert GoodReturns(Step(w, Finish)) by { FinishReturnsGood(w); }
  }

  lemma FinishReturnsGood(w: World)
    requires Inv(w) && Enabled(w, Finish)
    ensures GoodReturns(Step(w, Finish))
  {
    hide Channels, FailureMeansNone;
  }

  lemma ReceiveKeepsInv(w: World, a: Action)
    requires Inv(w) && Enabled(w, a) && (a.FetchReturns? || a.Receive?)
    ensures Inv(Step(w, a))
  {
  }

  lemma WaitKeepsInv(w: World)
    requires Inv(w) && (w.pending.Some? ==> w.fetches[w.pending.value].InFlight?)
    ensures Inv(WaitOrStart(w))
  {
  }

  lemma BeginKeepsInv(w: World)
    requires Inv(w) && Enabled(w, BeginFetch)
    ensures Inv(Step(w, BeginFetch))
  {
    if w.pending.Some? && w.fetches[w.pending.value].Done? {
      var taken := Take(w, w.pending.value);
      assert Inv(taken);
      WaitKeepsInv(taken);
    } else {
      WaitKeepsInv(w);
    }
  }

  lemma StepKeepsInv(w: World, a: Action)
    requires Inv(w) && Enabled(w, a)
    ensures Inv(Step(w, a))
  {
    hide Inv, Step, Enabled;
    match a
    case Tick(_) => TickKeepsInv(w, a);
    case GetHit => AnswerKeepsInv(w, a);
    case GetMiss => TickKeepsInv(w, a);
    case GetStart => TickKeepsInv(w, a);
    case GetCancelled => TickKeepsInv(w, a);
    case Refreshing => AnswerKeepsInv(w, a);
    case BeginFetch => BeginKeepsInv(w);
    case FetchReturns(_, _) => ReceiveKeepsInv(w, a);
    case Receive => ReceiveKeepsInv(w, a);
    case TimeOut => TickKeepsInv(w, a);
    case Finish => FinishKeepsInv(w);
  }

  // ---------- Every run ----------

  // A step moves neither the clock nor the fetch time of the cached root backwards.
  lemma CachedTimeAdvances(w: World, a: Action)
    requires Inv(w) && Enabled(w, a)
    ensures CachedAt(w).Some? ==> CachedAt(Step(w, a)).Some? && CachedAt(w).value <= CachedAt(Step(w, a)).value
    ensures w.now <= Step(w, a).now
  {
  }

  lemma {:induction false} RunKeepsInv(preSeeded: bool, actions: seq<Action>)
    requires Run(Initial(preSeeded), actions).Some?
    ensures Inv(Run(Initial(preSeeded), actions).value)
    ensures Run(Initial(preSeeded), actions).value.cache.preSeeded == preSeeded
  {
    if actions != [] {
      hide Inv, Enabled, GoodReturns;
      var before := actions[..|actions| - 1];
      RunKeepsInv(preSeeded, before);
      StepKeepsInv(Run(Initial(preSeeded), before).value, actions[|actions| - 1]);
    } else {
      assert Inv(Initial(preSeeded));
    }
  }

  /**
   In every run: each root that a caller got is the pre-seeded one, or a fetch returned it at
   most 24 hours before the check of its age; the pre-seeded root is given only while no root
   within that limit is cached; a root cached for less than an hour is served; a failure is answered without the network only when there is no
   root to serve; and at most one fetch is outstanding, however many outlived their deadline.
   */
  lemma RootsAreRecent(preSeeded: bool, actions: seq<Action>)
    requires Run(Initial(preSeeded), actions).Some?
    ensures var w := Run(Initial(preSeeded), actions).value;
            && (forall r :: r in w.returned ==>
                  match r.root
                  case PreSeeded => preSeeded && (r.cachedAt.Some? ==> r.checkedAt - r.cachedAt.value > MAX_STALENESS)
                  case Fetched(fetch) =>
                    && fetch < |w.fetches| && w.fetches[fetch].Taken? && w.fetches[fetch].ok
                    && r.checkedAt - w.fetches[fetch].at <= MAX_STALENESS)
            && (w.cache.cached.Some? && w.now - w.cache.cached.value.fetchedAt < CACHE_TTL ==>
                  w.cache.CachedHit(w.now) == Some(w.cache.cached.value.root))
            && (w.cache.CachedHit(w.now).None? && w.cache.RecentFailure(w.now).Some? ==>
                  !preSeeded && !w.cache.WithinStaleness(w.now))
            && (forall i, j :: i in Outstanding(w) && j in Outstanding(w) ==> i == j)
  {
    RunKeepsInv(preSeeded, actions);
    var w := Run(Initial(preSeeded), actions).value;
    hide Run;
    assert forall r :: r in w.returned ==> GoodReturn(w, r);
  }

  /**
   Along every run the fetch time of the cached root never goes backwards.
   */
  lemma {:induction false} CachedTimeMonotone(preSeeded: bool, actions: seq<Action>, k: nat)
    requires Run(Initial(preSeeded), actions).Some? && k <= |actions|
    ensures var earlier := Run(Initial(preSeeded), actions[..k]);
            && earlier.Some?
            && var (e, l) := (CachedAt(earlier.value), CachedAt(Run(Initial(preSeeded), actions).value));
               e.Some? ==> l.Some? && e.value <= l.value
    decreases |actions|
  {
    hide Inv, Enabled, Step;
    if k == |actions| {
      assert actions[..k] == actions;
    } else {
      var before := actions[..|actions| - 1];
      assert before[..k] == actions[..k];
      CachedTimeMonotone(preSeeded, before, k);
      RunKeepsInv(preSeeded, before);
      CachedTimeAdvances(Run(Initial(preSeeded), before).value, actions[|actions| - 1]);
    }
  }

  // There is a root to serve without the network.
  predicate Servable(w: World, now: int)
  {
    w.cache.preSeeded || (w.cache.cached.Some? && now - w.cache.cached.value.fetchedAt <= MAX_STALENESS)
  }

  /**
   A refresh that failed keeps callers from the network: for five minutes while there is a root to
   serve, which they get, and for thirty seconds when there was none. After five minutes they ask
   for the next one, unless the cached root is fresh.
   */
  lemma FailureBacksOff(w: World, elapsed: nat)
    requires w.refresh.Received? && w.refresh.result.None?
    ensures var later := Step(Step(w, Finish), Tick(elapsed));
            && later.refresh.Idle? && later.cache.cached == w.cache.cached
            && (elapsed < NEGATIVE_TTL && Servable(w, later.now) ==> Enabled(later, GetHit) && !Enabled(later, GetMiss))
            && (elapsed < RETRY_INTERVAL && !Servable(w, w.now) ==> !Enabled(later, GetMiss))
            && (elapsed >= NEGATIVE_TTL ==>
                  (Enabled(later, GetMiss) <==> w.cache.cached.None? || later.now - w.cache.cached.value.fetchedAt >= CACHE_TTL))
  {
  }

  // ---------- No run gets stuck ----------

  lemma {:induction false} RunFrom(w: World, a: Action, more: seq<Action>)
    requires Enabled(w, a)
    ensures Run(w, [a] + more) == Run(Step(w, a), more)
  {
    hide Step, Enabled;
    if more == [] {
      assert [a] + more == [a] && [a][..0] == [];
    } else {
      var n := |more| - 1;
      RunFrom(w, a, more[..n]);
      assert ([a] + more)[..|more|] == [a] + more[..n];
    }
  }

  // What a refresh does next, with fetches that succeed.
  function Next(w: World): Action
  {
    match w.refresh
    case Idle => Tick(0)
    case Started => Refreshing
    case Fetching => BeginFetch
    case Waiting(channel, _) =>
      if channel < |w.fetches| && w.fetches[channel].InFlight? then FetchReturns(channel, true) else Receive
    case Received(_, _) => Finish
  }

  function Rank(w: World): nat
  {
    match w.refresh
    case Idle => 0
    case Started => 5
    case Fetching => 4
    case Waiting(channel, _) => if channel < |w.fetches| && w.fetches[channel].InFlight? then 3 else 2
    case Received(_, _) => 1
  }

  // The refresh ends with a fresh root if no time passes and its fetch succeeds.
  predicate Promising(w: World)
  {
    match w.refresh
    case Idle => w.cache.Fresh(w.now)
    case Started => true
    case Fetching => true
    case Waiting(channel, _) =>
      channel < |w.fetches| && (w.fetches[channel].Done? ==> w.fetches[channel].ok && w.now - w.fetches[channel].at < CACHE_TTL)
    case Received(result, _) => result.Some? && w.now - result.value.fetchedAt < CACHE_TTL
  }

  lemma NextAdvances(w: World)
    requires Inv(w) && !w.refresh.Idle?
    ensures Enabled(w, Next(w)) && Rank(Step(w, Next(w))) < Rank(w)
    ensures Promising(w) ==> Promising(Step(w, Next(w)))
  {
    hide GoodReturns, FailureMeansNone;
  }

  lemma {:induction false} Drive(w: World) returns (more: seq<Action>)
    requires Inv(w)
    ensures Run(w, more).Some? && Run(w, more).value.refresh.Idle? && Inv(Run(w, more).value)
    ensures Promising(w) ==> Run(w, more).value.cache.Fresh(Run(w, more).value.now)
    decreases Rank(w)
  {
    hide Inv, Enabled, Step, Rank, Next;
    more := [];
    if !w.refresh.Idle? {
      var a := Next(w);
      NextAdvances(w);
      StepKeepsInv(w, a);
      var rest := Drive(Step(w, a));
      RunFrom(w, a, rest);
      more := [a] + rest;
    }
  }

  // How long a recorded failure may keep callers from the network.
  function UntilRetry(w: World): nat
  {
    if w.cache.lastFetchErr.Some? && w.cache.lastFetchErr.value > w.now
    then w.cache.lastFetchErr.value - w.now + NEGATIVE_TTL else NEGATIVE_TTL
  }

  lemma StartsRefresh(w: World) returns (more: seq<Action>)
    requires Inv(w) && w.refresh.Idle? && !w.cache.Fresh(w.now)
    ensures Run(w, more).Some? && Inv(Run(w, more).value) && Promising(Run(w, more).value)
  {
    var actions := [Tick(UntilRetry(w)), GetMiss, GetStart];
    var w1 := Step(w, actions[0]);
    var w2 := Step(w1, GetMiss);
    StepKeepsInv(w, actions[0]);
    StepKeepsInv(w1, GetMiss);
    StepKeepsInv(w2, GetStart);
    RunFrom(w2, GetStart, []);
    RunFrom(w1, GetMiss, [GetStart]);
    RunFrom(w, actions[0], [GetMiss, GetStart]);
    assert [GetStart] + [] == [GetStart] && [GetMiss] + [GetStart] == [GetMiss, GetStart];
    assert [actions[0]] + [GetMiss, GetStart] == actions;
    more := actions;
  }

  lemma {:induction false} RunAppend(w: World, first: seq<Action>, second: seq<Action>)
    requires Run(w, first).Some?
    ensures Run(w, first + second) == Run(Run(w, first).value, second)
  {
    hide Step, Enabled;
    if second == [] {
      assert first + second == first;
    } else {
      var n := |second| - 1;
      RunAppend(w, first, second[..n]);
      assert (first + second)[..|first| + n] == first + second[..n];
    }
  }

  /**
   No run gets stuck: whatever failed or outlived its deadline, every run has a continuation that
   ends with a fresh root in the cache and no refresh running.
   */
  lemma CanRefresh(preSeeded: bool, actions: seq<Action>) returns (more: seq<Action>)
    requires Run(Initial(preSeeded), actions).Some?
    ensures var end := Run(Initial(preSeeded), actions + more);
            && end.Some? && end.value.refresh.Idle?
            && end.value.cache.cached.Some? && end.value.now - end.value.cache.cached.value.fetchedAt < CACHE_TTL
            && Enabled(end.value, GetHit)
  {
    hide Run, Inv, Promising;
    RunKeepsInv(preSeeded, actions);
    var w := Run(Initial(preSeeded), actions).value;
    more := Drive(w);
    RunAppend(Initial(preSeeded), actions, more);
    var idle := Run(w, more).value;
    if !idle.cache.Fresh(idle.now) {
      var starting := StartsRefresh(idle);
      var ending := Drive(Run(idle, starting).value);
      RunAppend(idle, starting, ending);
      RunAppend(w, more, starting + ending);
      more := more + (starting + ending);
      RunAppend(Initial(preSeeded), actions, more);
    }
  }
}
