/**
 Circuit breakers: consecutive failures open a breaker, a cooldown later one probe is admitted,
 and the outcome of that probe closes or reopens it.
 */
module CircuitBreaker {
  datatype State = Closed | Open | HalfOpen

  // A permit names the probe it was issued for; zero means that the request is no probe.
  datatype Permit = Permit(probe: nat)

  datatype Settings = Settings(threshold: int, cooldown: int)

  datatype Status = Status(state: State, failures: nat, lastFailure: int, probe: nat)

  const NEW := Status(Closed, 0, 0, 0)

  function Acquired(b: Status, s: Settings, now: int): (Status, Permit, bool)
  {
    match b.state
    case Closed => (b, Permit(0), true)
    case HalfOpen => (b, Permit(0), false)
    case Open =>
      if now - b.lastFailure >= s.cooldown
      then (b.(state := HalfOpen, probe := b.probe + 1), Permit(b.probe + 1), true)
      else (b, Permit(0), false)
  }

  // While half-open only the probe decides.
  predicate Decides(b: Status, permit: Permit)
  {
    b.state != HalfOpen || (permit.probe != 0 && permit.probe == b.probe)
  }

  function SuccessRecorded(b: Status): Status
  {
    b.(failures := 0, state := Closed)
  }

  // The new status, and whether the failure tripped the breaker.
  function FailureRecorded(b: Status, s: Settings, now: int): (Status, bool)
  {
    var b' := b.(failures := b.failures + 1, lastFailure := now);
    if b'.failures >= s.threshold then (b'.(state := Open), b.state == Closed) else (b', false)
  }

  function Released(b: Status, permit: Permit): Status
  {
    if b.state == HalfOpen && permit.probe != 0 && permit.probe == b.probe then b.(state := Open) else b
  }

  /**
   Requests are admitted exactly while the breaker is closed or once its cooldown has elapsed, and
   then a single one: the next request is refused at any time, until the outcome or the release of
   the probe.
   */
  lemma SingleProbe(b: Status, s: Settings, now: int, later: int)
    ensures var (b', permit, allowed) := Acquired(b, s, now);
            && (allowed <==> b.state == Closed || (b.state == Open && now - b.lastFailure >= s.cooldown))
            && (allowed && b.state != Closed ==>
                  !Acquired(b', s, later).2 && Decides(b', permit) && permit.probe > b.probe && !Decides(b', Permit(0)))
  {
  }

  class Breaker {
    var state: State
    var consecutiveFailures: nat
    var lastFailureTime: int
    var probe: nat
    const settings: Settings

    constructor (settings: Settings)
      ensures Value() == NEW && this.settings == settings
    {
      this.settings := settings;
      state, consecutiveFailures, lastFailureTime, probe := Closed, 0, 0, 0;
    }

    function Value(): Status
      reads this
    {
      Status(state, consecutiveFailures, lastFailureTime, probe)
    }

    method Acquire(now: int) returns (permit: Permit, allowed: bool)
      modifies this
      ensures (Value(), permit, allowed) == Acquired(old(Value()), settings, now)
    {
      match state {
        case Closed => return Permit(0), true;
        case Open =>
          if now - lastFailureTime >= settings.cooldown {
            state := HalfOpen;
            probe := probe + 1;
            return Permit(probe), true;
          }
          return Permit(0), false;
        case HalfOpen => return Permit(0), false;
      }
    }

    method RecordSuccess()
      modifies this
      ensures Value() == SuccessRecorded(old(Value()))
    {
      consecutiveFailures := 0;
      state := Closed;
    }

    method Succeeded(permit: Permit)
      modifies this
      ensures Value() == if Decides(old(Value()), permit) then SuccessRecorded(old(Value())) else old(Value())
    {
      if !Decides(Value(), permit) {
        return;
      }
      RecordSuccess();
    }

    method RecordFailure(now: int) returns (tripped: bool)
      modifies this
      ensures (Value(), tripped) == FailureRecorded(old(Value()), settings, now)
    {
      consecutiveFailures := consecutiveFailures + 1;
      lastFailureTime := now;
      if consecutiveFailures >= settings.threshold {
        tripped := state == Closed;
        state := Open;
        return;
      }
      return false;
    }

    method Failed(permit: Permit, now: int) returns (tripped: bool)
      modifies this
      ensures (Value(), tripped) ==
              if Decides(old(Value()), permit) then FailureRecorded(old(Value()), settings, now) else (old(Value()), false)
    {
      if !Decides(Value(), permit) {
        return false;
      }
      tripped := RecordFailure(now);
    }

    method Release(permit: Permit)
      modifies this
      ensures Value() == Released(old(Value()), permit)
    {
      if state == HalfOpen && permit.probe != 0 && permit.probe == probe {
        state := Open;
      }
    }
  }

  // ---------- Runs ----------

  // The breaker, the permits of all admitted requests in order, and how often a trip was
  // reported and the breaker closed again.
  datatype World = World(status: Status, permits: seq<Permit>, trips: nat, closings: nat)

  // Requests report their outcome with a permit that they hold, any number of times and at any
  // later moment, or without one.
  datatype Action =
    | Acquire(acquiredAt: int)
    | Succeed(succeeded: nat)
    | Fail(failed: nat, failedAt: int)
    | Release(released: nat)
    | AnySuccess
    | AnyFailure(at: int)

  const INITIAL := World(NEW, [], 0, 0)

  predicate Enabled(w: World, a: Action)
  {
    match a
    case Succeed(i) => i < |w.permits|
    case Fail(i, _) => i < |w.permits|
    case Release(i) => i < |w.permits|
    case _ => true
  }

  function AfterSuccess(w: World): World
  {
    w.(status := SuccessRecorded(w.status), closings := w.closings + if w.status.state != Closed then 1 else 0)
  }

  function AfterFailure(w: World, s: Settings, now: int): World
  {
    var (status, tripped) := FailureRecorded(w.status, s, now);
    w.(status := status, trips := w.trips + if tripped then 1 else 0)
  }

  function Step(w: World, a: Action, s: Settings): World
    requires Enabled(w, a)
  {
    match a
    case Acquire(now) =>
      var (status, permit, allowed) := Acquired(w.status, s, now);
      w.(status := status, permits := if allowed then w.permits + [permit] else w.permits)
    case Succeed(i) => if Decides(w.status, w.permits[i]) then AfterSuccess(w) else w
    case Fail(i, now) => if Decides(w.status, w.permits[i]) then AfterFailure(w, s, now) else w
    case Release(i) => w.(status := Released(w.status, w.permits[i]))
    case AnySuccess => AfterSuccess(w)
    case AnyFailure(now) => AfterFailure(w, s, now)
  }

  predicate IsRun(actions: seq<Action>, s: Settings)
  {
    actions == [] ||
    (var before := actions[..|actions| - 1];
     IsRun(before, s) && Enabled(Run(before, s), actions[|actions| - 1]))
  }

  function Run(actions: seq<Action>, s: Settings): World
  {
    if actions == [] then INITIAL
    else
      var before, a := Run(actions[..|actions| - 1], s), actions[|actions| - 1];
      if Enabled(before, a) then Step(before, a, s) else before
  }

  // The latest probe permit, if a probe was ever admitted: no other request holds its number.
  predicate LatestProbe(w: World, i: nat)
  {
    && i < |w.permits| && w.permits[i].probe == w.status.probe
    && forall j :: 0 <= j < |w.permits| && j != i ==> w.permits[j].probe < w.status.probe
  }

  function Max(a: int, b: int): int
  {
    if a >= b then a else b
  }

  ghost predicate Inv(w: World, s: Settings)
  {
    && (w.status.state != Closed <==> w.status.failures >= Max(s.threshold, 1))
    && w.trips == w.closings + (if w.status.state != Closed then 1 else 0)
    && (forall j :: 0 <= j < |w.permits| ==> w.permits[j].probe <= w.status.probe)
    && (w.status.probe > 0 ==> exists i: nat :: LatestProbe(w, i))
    && (w.status.state == HalfOpen ==> w.status.probe > 0)
  }

  lemma StepKeepsInv(w: World, a: Action, s: Settings)
    requires Inv(w, s) && Enabled(w, a)
    ensures Inv(Step(w, a, s), s)
  {
    var w' := Step(w, a, s);
    if w.status.probe > 0 {
      var i: nat :| LatestProbe(w, i);
      if w'.status.probe == w.status.probe {
        assert LatestProbe(w', i);
      }
    }
    if w'.status.probe != w.status.probe {
      assert LatestProbe(w', |w.permits|);
    }
  }

  lemma {:induction false} RunKeepsInv(actions: seq<Action>, s: Settings)
    requires IsRun(actions, s)
    ensures Inv(Run(actions, s), s)
  {
    if actions != [] {
      hide Inv, Step, Enabled;
      var before := actions[..|actions| - 1];
      RunKeepsInv(before, s);
      StepKeepsInv(Run(before, s), actions[|actions| - 1], s);
    }
  }

  // ---------- What the requests reported ----------

  // The outcome of the request with permit i counts: always, but while half-open only for the
  // latest probe.
  predicate Counts(w: World, i: nat)
  {
    i < |w.permits| && (w.status.state == HalfOpen ==> w.permits[i].probe > 0 && LatestProbe(w, i))
  }

  // The time of the latest failure that counts.
  function LatestFailure(actions: seq<Action>, s: Settings): int
  {
    if actions == [] then 0
    else
      var before, a := actions[..|actions| - 1], actions[|actions| - 1];
      if a.AnyFailure? then a.at
      else if a.Fail? && Counts(Run(before, s), a.failed) then a.failedAt
      else LatestFailure(before, s)
  }

  // The failures that count since the last success that does.
  function FailuresInARow(actions: seq<Action>, s: Settings): nat
  {
    if actions == [] then 0
    else
      var before, a := actions[..|actions| - 1], actions[|actions| - 1];
      var w := Run(before, s);
      if a.AnySuccess? || (a.Succeed? && Counts(w, a.succeeded)) then 0
      else if a.AnyFailure? || (a.Fail? && Counts(w, a.failed)) then FailuresInARow(before, s) + 1
      else FailuresInARow(before, s)
  }

  lemma CountsDecides(w: World, i: nat, s: Settings)
    requires Inv(w, s) && i < |w.permits|
    ensures Counts(w, i) <==> Decides(w.status, w.permits[i])
  {
    if w.status.state == HalfOpen {
      var j: nat :| LatestProbe(w, j);
    }
  }

  // The breaker knows both.
  lemma {:induction false} OutcomesRecorded(actions: seq<Action>, s: Settings)
    requires IsRun(actions, s)
    ensures Run(actions, s).status.lastFailure == LatestFailure(actions, s)
    ensures Run(actions, s).status.failures == FailuresInARow(actions, s)
  {
    if actions != [] {
      hide Inv, Counts, Decides;
      var before, a := actions[..|actions| - 1], actions[|actions| - 1];
      OutcomesRecorded(before, s);
      RunKeepsInv(before, s);
      if a.Succeed? {
        CountsDecides(Run(before, s), a.succeeded, s);
      } else if a.Fail? {
        CountsDecides(Run(before, s), a.failed, s);
      }
    }
  }

  // A request at the given time is admitted.
  predicate Admits(w: World, now: int, s: Settings)
  {
    Acquired(w.status, s, now).2
  }

  // The request with permit i holds the probe: it alone decides.
  ghost predicate HoldsProbe(w: World, i: nat, s: Settings)
  {
    && i < |w.permits|
    && Step(w, Succeed(i), s).status.state == Closed
    && (forall now :: Step(w, Fail(i, now), s).status.state == Open)
    && Step(w, Release(i), s).status.state == Open
    && (forall j: nat :: j < |w.permits| && j != i ==> NoEffect(w, j, s))
  }

  // Outcomes and releases of the request with permit j change nothing.
  ghost predicate NoEffect(w: World, j: nat, s: Settings)
    requires j < |w.permits|
  {
    Step(w, Succeed(j), s) == w && Step(w, Release(j), s) == w && forall now :: Step(w, Fail(j, now), s) == w
  }

  lemma LatestHoldsProbe(w: World, i: nat, s: Settings)
    requires Inv(w, s) && w.status.state == HalfOpen && LatestProbe(w, i)
    ensures HoldsProbe(w, i, s)
  {
    forall j: nat | j < |w.permits| && j != i
      ensures NoEffect(w, j, s)
    {
      assert !Decides(w.status, w.permits[j]);
    }
    assert Decides(w.status, w.permits[i]);
  }

  // A request is admitted exactly after the cooldown, if the breaker is open, and then no other one
  // at any time.
  ghost predicate OneProbe(w: World, failedAt: int, s: Settings)
  {
    forall now, later ::
      && (Admits(w, now, s) <==> w.status.state == Open && now - failedAt >= s.cooldown)
      && (Admits(w, now, s) ==> !Admits(Step(w, Acquire(now), s), later, s))
  }

  lemma ProbeAfterCooldown(w: World, s: Settings)
    requires w.status.state != Closed
    ensures OneProbe(w, w.status.lastFailure, s)
  {
    forall now, later
      ensures Admits(w, now, s) <==> w.status.state == Open && now - w.status.lastFailure >= s.cooldown
      ensures Admits(w, now, s) ==> !Admits(Step(w, Acquire(now), s), later, s)
    {
      SingleProbe(w.status, s, now, later);
    }
  }

  /**
   Over every run of a breaker: it is not closed exactly when the failures in a row reach the
   threshold, where every threshold below one acts as one, so that with the threshold as given this
   fails exactly without a positive threshold and before the first failure. The reported trips are
   the closings, plus one while it is not closed. While it is half-open, one request holds the
   probe: outcomes and releases of every other request change nothing, a failure of the probe
   reopens the breaker, its success closes it, and its release lets the next request probe. A
   closed breaker admits every request. While it is not closed a request is admitted exactly when it
   is open and the cooldown has elapsed since the latest failure, and then no other.
   */
  lemma BreakerRuns(actions: seq<Action>, s: Settings)
    requires IsRun(actions, s)
    ensures var w, failures := Run(actions, s), FailuresInARow(actions, s);
            && (w.status.state != Closed <==> failures >= Max(s.threshold, 1))
            && ((w.status.state != Closed <==> failures >= s.threshold) <==> s.threshold >= 1 || failures > 0)
            && w.trips == w.closings + (if w.status.state != Closed then 1 else 0)
            && (w.status.state == HalfOpen ==> exists i: nat :: HoldsProbe(w, i, s))
            && (w.status.state != Closed ==> OneProbe(w, LatestFailure(actions, s), s))
            && (w.status.state == Closed ==> forall now :: Admits(w, now, s))
  {
    RunKeepsInv(actions, s);
    OutcomesRecorded(actions, s);
    var w := Run(actions, s);
    hide Run, IsRun, HoldsProbe, OneProbe, LatestFailure, FailuresInARow;
    if w.status.state != Closed {
      ProbeAfterCooldown(w, s);
    }
    if w.status.state == HalfOpen {
      var i: nat :| LatestProbe(w, i);
      LatestHoldsProbe(w, i, s);
    }
  }
}

/**
 The registry of the breakers of all hosts, with its evictions.
 */
module BreakerRegistry {
  import opened CircuitBreaker

  const MAX_BREAKERS := 1000

  datatype Entry = Entry(breaker: Breaker, lastUsed: nat)

  // Distinct breakers with distinct past uses.
  ghost predicate DistinctUses(breakers: map<string, Entry>, clock: nat)
  {
    && (forall h :: h in breakers ==> breakers[h].lastUsed <= clock)
    && (forall g, h :: g in breakers && h in breakers && g != h ==>
          breakers[g].lastUsed != breakers[h].lastUsed && breakers[g].breaker != breakers[h].breaker)
  }

  ghost predicate ValidEntries(breakers: map<string, Entry>, clock: nat)
  {
    |breakers| <= MAX_BREAKERS && DistinctUses(breakers, clock)
  }

  lemma UsesStayDistinct(breakers: map<string, Entry>, clock: nat, kept: map<string, Entry>, host: string, breaker: Breaker)
    requires DistinctUses(breakers, clock) && kept.Keys <= breakers.Keys
    requires forall h :: h in kept ==> kept[h] == breakers[h]
    requires forall h :: h in kept && h != host ==> kept[h].breaker != breaker
    ensures DistinctUses(kept[host := Entry(breaker, clock + 1)], clock + 1)
  {
    var after := kept[host := Entry(breaker, clock + 1)];
    forall g, h | g in after && h in after && g != h
      ensures after[g].lastUsed != after[h].lastUsed && after[g].breaker != after[h].breaker
    {
      if g != host && h != host {
        assert after[g] == breakers[g] && after[h] == breakers[h];
      }
    }
  }

  // Using or adding an entry keeps the registry valid.
  lemma EntryUsed(breakers: map<string, Entry>, clock: nat, kept: map<string, Entry>, host: string, breaker: Breaker)
    requires ValidEntries(breakers, clock) && kept.Keys <= breakers.Keys
    requires forall h :: h in kept ==> kept[h] == breakers[h]
    requires host in kept || |kept| < MAX_BREAKERS
    requires forall h :: h in kept && h != host ==> kept[h].breaker != breaker
    ensures ValidEntries(kept[host := Entry(breaker, clock + 1)], clock + 1)
  {
    hide DistinctUses;
    UsedSize(breakers, kept, host, Entry(breaker, clock + 1));
    UsesStayDistinct(breakers, clock, kept, host, breaker);
  }

  lemma BreakersDiffer(breakers: map<string, Entry>, clock: nat, host: string)
    requires ValidEntries(breakers, clock) && host in breakers
    ensures forall h :: h in breakers && h != host ==> breakers[h].breaker != breakers[host].breaker
  {
  }

  lemma UsedSize(breakers: map<string, Entry>, kept: map<string, Entry>, host: string, entry: Entry)
    requires kept.Keys <= breakers.Keys && forall h :: h in kept ==> kept[h] == breakers[h]
    requires |breakers| <= MAX_BREAKERS && (host in kept || |kept| < MAX_BREAKERS)
    ensures |kept[host := entry]| <= MAX_BREAKERS
  {
    KeptSize(kept, breakers);
    var after := kept[host := entry];
    assert after.Keys == kept.Keys + {host};
    assert |after| == |after.Keys| && |kept| == |kept.Keys|;
  }

  class Registry {
    var breakers: map<string, Entry>
    var clock: nat
    const settings: Settings

    ghost predicate Valid()
      reads this
    {
      ValidEntries(breakers, clock)
    }

    constructor (settings: Settings)
      ensures Valid() && breakers == map[] && this.settings == settings
    {
      this.settings := settings;
      breakers, clock := map[], 0;
    }

    ghost function ClosedHosts(): set<string>
      reads this, set h | h in breakers :: breakers[h].breaker
    {
      set h | h in breakers && breakers[h].breaker.state == Closed
    }

    // Removes the closed breakers.
    method EvictClosedLocked()
      modifies this`breakers
      ensures breakers == old(breakers) - old(ClosedHosts())
    {
      var todo := breakers.Keys;
      while todo != {}
        invariant todo <= old(breakers).Keys
        invariant breakers == map h | h in old(breakers) && (h in todo || old(breakers)[h].breaker.state != Closed) :: old(breakers)[h]
        decreases todo
      {
        var h :| h in todo;
        todo := todo - {h};
        if breakers[h].breaker.state == Closed {
          breakers := breakers - {h};
        }
      }
    }

    // Removes the breaker that was used least recently.
    method EvictLeastRecentlyUsedLocked() returns (oldest: string)
      requires breakers != map[]
      modifies this`breakers
      ensures oldest in old(breakers) && breakers == old(breakers) - {oldest}
      ensures forall h :: h in old(breakers) ==> old(breakers)[oldest].lastUsed <= old(breakers)[h].lastUsed
    {
      var found := false;
      oldest := "";
      var todo := breakers.Keys;
      while todo != {}
        invariant todo <= breakers.Keys
        invariant found <==> todo != breakers.Keys
        invariant found ==> oldest in breakers
        invariant found ==> forall h :: h in breakers && h !in todo ==> breakers[oldest].lastUsed <= breakers[h].lastUsed
        decreases todo
      {
        var h :| h in todo;
        todo := todo - {h};
        if !found || breakers[h].lastUsed < breakers[oldest].lastUsed {
          oldest, found := h, true;
        }
      }
      breakers := breakers - {oldest};
    }

    method MakeRoomLocked()
      requires Valid()
      modifies this`breakers
      ensures RoomMade(old(breakers), old(ClosedHosts()), breakers)
      ensures |breakers| < MAX_BREAKERS && breakers.Keys <= old(breakers).Keys
      ensures forall h :: h in breakers ==> breakers[h] == old(breakers)[h]
    {
      if |breakers| < MAX_BREAKERS {
        return;
      }
      EvictClosedLocked();
      KeptSize(breakers, old(breakers));
      if |breakers| < MAX_BREAKERS {
        return;
      }
      assert breakers == old(breakers);
      var oldest := EvictLeastRecentlyUsedLocked();
      OneLess(old(breakers), oldest);
    }

    /**
     Returns the breaker of a host. A known host only gets a new last use; a new host gets a
     closed breaker of its own after room was made for it.
     */
    method Get(host: string) returns (breaker: Breaker)
      requires Valid()
      modifies this
      ensures Valid() && clock == old(clock) + 1
      ensures host in old(breakers) ==>
                && breaker == old(breakers)[host].breaker
                && breakers == old(breakers)[host := Entry(breaker, clock)]
      ensures host !in old(breakers) ==>
                && fresh(breaker) && breaker.Value() == NEW && breaker.settings == settings
                && exists kept :: RoomMade(old(breakers), old(ClosedHosts()), kept) && breakers == kept[host := Entry(breaker, clock)]
    {
      hide RoomMade, ClosedHosts, ValidEntries;
      if host in breakers {
        BreakersDiffer(breakers, clock, host);
        breaker := breakers[host].breaker;
        EntryUsed(breakers, clock, breakers, host, breaker);
        clock := clock + 1;
        breakers := breakers[host := Entry(breaker, clock)];
        return;
      }
      MakeRoomLocked();
      ghost var kept := breakers;
      breaker := new Breaker(settings);
      EntryUsed(old(breakers), clock, kept, host, breaker);
      clock := clock + 1;
      breakers := breakers[host := Entry(breaker, clock)];
    }
  }

  predicate LeastRecentlyUsed(breakers: map<string, Entry>, oldest: string)
  {
    oldest in breakers && forall h :: h in breakers ==> breakers[oldest].lastUsed <= breakers[h].lastUsed
  }

  // Room for one more entry: nothing goes below the maximum, else all closed breakers go, or,
  // when none is closed, the one that was used least recently.
  ghost predicate RoomMade(before: map<string, Entry>, closed: set<string>, after: map<string, Entry>)
  {
    if |before| < MAX_BREAKERS then after == before
    else if closed != {} then after == before - closed
    else exists oldest :: LeastRecentlyUsed(before, oldest) && after == before - {oldest}
  }

  /**
   Making room leaves room, keeps the entries that stay as they are, and removes a breaker that is
   not closed only when the registry is full of breakers that are not closed and it was used least
   recently.
   */
  lemma RoomMadeMeaning(before: map<string, Entry>, closed: set<string>, after: map<string, Entry>)
    requires |before| <= MAX_BREAKERS && closed <= before.Keys && RoomMade(before, closed, after)
    ensures |after| < MAX_BREAKERS
    ensures after.Keys <= before.Keys && forall h :: h in after ==> after[h] == before[h]
    ensures forall h :: h in before && h !in after && h !in closed ==>
              |before| == MAX_BREAKERS && closed == {} && forall g :: g in before ==> before[h].lastUsed <= before[g].lastUsed
  {
    KeptSize(after, before);
  }

  lemma OneLess(breakers: map<string, Entry>, oldest: string)
    requires oldest in breakers
    ensures |breakers - {oldest}| == |breakers| - 1
  {
    assert (breakers - {oldest}).Keys == breakers.Keys - {oldest};
  }

  // A part of a map that is as large as the map is all of it.
  lemma KeptSize(part: map<string, Entry>, all: map<string, Entry>)
    requires part.Keys <= all.Keys && forall h :: h in part ==> part[h] == all[h]
    ensures |part| <= |all| && (|part| == |all| ==> part == all)
  {
    SubsetSize(part.Keys, all.Keys);
    assert |part| == |part.Keys| && |all| == |all.Keys|;
  }

  lemma {:induction false} SubsetSize(part: set<string>, all: set<string>)
    requires part <= all
    ensures |part| <= |all| && (|part| == |all| ==> part == all)
  {
    if part != {} {
      var h :| h in part;
      SubsetSize(part - {h}, all - {h});
      assert part == part - {h} + {h} && all == all - {h} + {h};
    }
  }
}
