/**
 The continuous verification state machine of one container: how verification results, errors,
 resource updates by the runtime, confirmed remediation updates and plugin restarts change what
 the plugin records about it.
 */
module Remediation {
  import opened Options
  import opened Limits

  const ERROR_THRESHOLD := 3
  const DEFAULT_COOLDOWN := 300

  datatype VerificationState = Verified | Skipped | Degraded | Throttled

  // Ordered by severity: disabled and warn modes do not throttle.
  datatype Mode = ModeDisabled | ModeWarn | ModeThrottle | ModeEvict {
    function Severity(): int
    {
      match this case ModeDisabled => -1 case ModeWarn => 0 case ModeThrottle => 1 case ModeEvict => 2
    }
  }

  datatype Trigger = Timer | Feed | PolicyChange

  // The cooldown is the configured one, in seconds.
  datatype Settings = Settings(percents: Percents, configured: int, mode: Mode) {
    function Cooldown(): (d: int)
      ensures d > 0
    {
      if configured > 0 then configured else DEFAULT_COOLDOWN
    }
  }

  datatype Container = Container(
    digest: string,
    state: VerificationState,
    lastRemediation: Option<int>,
    lastTriggerHash: string,
    original: Option<Resources>,
    recoveredOnRestart: bool,
    awaitingFirstResult: bool,
    consecutiveErrors: nat,
    consecutiveIncomplete: nat)
  {
    // The recorded resources are known not to be throttled already.
    predicate TrustedOriginals() { original.Some? && !recoveredOnRestart }
  }

  // A container update that is sent to the runtime, and the transition to record once the
  // runtime confirmed it.
  datatype Pending =
    | Throttle(update: Limits, triggerHash: string)
    | Rollback(update: Limits)
    | Release(update: Limits)

  // ---------- Transitions ----------

  // An admitted container: verified with its resources, or skipped without a digest.
  function Admitted(digest: string, resources: Option<Resources>): Container
  {
    Container(digest, Verified, None, "", resources, false, false, 0, 0)
  }

  function AdmittedWithoutDigest(digest: string): Container
  {
    Container(digest, Skipped, None, "", None, false, false, 0, 0)
  }

  predicate CooldownElapsed(c: Container, s: Settings, now: int)
  {
    c.lastRemediation.None? || now - c.lastRemediation.value > s.Cooldown()
  }

  predicate ShouldThrottle(c: Container, s: Settings, trigger: Trigger, hash: string, now: int)
  {
    && s.mode.Severity() >= ModeThrottle.Severity()
    && c.TrustedOriginals()
    && CooldownElapsed(c, s, now)
    && (trigger == Timer || c.lastTriggerHash != hash)
  }

  // A completed verification resets the counters and moves the state machine.
  function Reverified(c: Container, degraded: bool, s: Settings, trigger: Trigger, hash: string, now: int)
    : (Container, Option<Pending>)
  {
    Transition(c.(consecutiveErrors := 0, consecutiveIncomplete := 0), degraded, s, trigger, hash, now)
  }

  function Transition(c: Container, degraded: bool, s: Settings, trigger: Trigger, hash: string, now: int)
    : (Container, Option<Pending>)
  {
    var c := c.(awaitingFirstResult := false);
    if !degraded then
      match c.state
      case Skipped => (c.(state := Verified), None)
      case Throttled =>
        if c.TrustedOriginals() then (c, Some(Rollback(RollbackUpdate(c.original.value))))
        else (c.(state := Verified), None)
      case Degraded => (c.(state := Verified), None)
      case Verified => (c, None)
    else
      match c.state
      case Verified => (c.(state := Degraded, lastTriggerHash := hash), None)
      case Skipped => (c.(state := Degraded, lastTriggerHash := hash), None)
      case Degraded =>
        if ShouldThrottle(c, s, trigger, hash, now) then
          (c, Some(Throttle(ThrottleUpdate(c.original.value, s.percents), hash)))
        else (c, None)
      case Throttled => (c, None)
  }

  // A verification that ended in an error without a decision.
  function Errored(c: Container): Container
  {
    var c := c.(consecutiveErrors := c.consecutiveErrors + 1);
    if c.consecutiveErrors >= ERROR_THRESHOLD && (c.state == Verified || c.state == Skipped)
    then c.(state := Degraded) else c
  }

  // A verification that could not complete.
  function Incompleted(c: Container): Container
  {
    c.(consecutiveIncomplete := c.consecutiveIncomplete + 1)
  }

  // The update was applied by the runtime.
  function Committed(c: Container, pending: Pending, now: int): Container
  {
    match pending
    case Throttle(_, hash) => c.(state := Throttled, lastRemediation := Some(now), lastTriggerHash := hash)
    case Rollback(_) => c.(state := Verified)
    case Release(_) => c.(state := Degraded)
  }

  // A throttled container is released when remediation is disabled.
  function Released(c: Container): Option<Pending>
  {
    if c.state == Throttled && c.TrustedOriginals() then Some(Release(RollbackUpdate(c.original.value))) else None
  }

  // The runtime reports the resources of the container after an update. The plugin's own
  // throttle and rollback are not recorded; any other update replaces the originals.
  function ResourcesUpdated(c: Container, current: Option<Resources>, p: Percents): Container
  {
    if current.None? || current == c.original
       || (c.original.Some? && LooksThrottled(current.value, c.original.value, p)) then c
    else c.(original := current, recoveredOnRestart := false, state := if c.state == Throttled then Degraded else c.state)
  }

  // A container found after a plugin restart, with its current resources and its annotation.
  function Recovered(digest: string, current: Option<Resources>, annotation: Option<Limits>, p: Percents): Container
  {
    var trusted := annotation.Some?;
    var original := if trusted then Some(DecodeAnnotation(annotation.value)) else current;
    var throttled := trusted && current.Some? && LooksThrottled(current.value, original.value, p);
    Container(digest, if throttled then Throttled else Verified, None, "", original, !trusted, true, 0, 0)
  }

  // The first result of a container recovered after a restart. A result of another digest is not
  // recorded, and only with remediation enabled a failure degrades the container.
  function Prewarmed(c: Container, digest: string, verified: bool, s: Settings, hash: string): Container
  {
    if !c.awaitingFirstResult || c.digest != digest then c
    else
      var c := c.(awaitingFirstResult := false);
      if s.mode == ModeDisabled || verified || c.state != Verified then c
      else c.(state := Degraded, lastTriggerHash := hash)
  }

  // The container before and after a result that is the first one for it or not, and that degrades
  // a verified container or not: only a first result that degrades changes the state, and only of
  // a verified container, and a first result ends the waiting.
  predicate ResultRecorded(before: Container, after: Container, first: bool, degrades: bool, hash: string)
  {
    && after.lastTriggerHash == (if first && degrades && before.state == Verified then hash else before.lastTriggerHash)
    && (after.state == Degraded <==> before.state == Degraded || (first && degrades && before.state == Verified))
    && (after.state != Degraded ==> after.state == before.state)
    && (after.awaitingFirstResult <==> before.awaitingFirstResult && !first)
    && after == before.(state := after.state, lastTriggerHash := after.lastTriggerHash, awaitingFirstResult := after.awaitingFirstResult)
  }

  predicate AwaitsResult(c: Container, digest: string)
  {
    c.awaitingFirstResult && c.digest == digest
  }

  /**
   What the first result of a recovered container does: it degrades a verified container exactly if
   the image failed and remediation is not disabled.
   */
  lemma FirstResult(c: Container, digest: string, verified: bool, s: Settings, hash: string)
    ensures ResultRecorded(c, Prewarmed(c, digest, verified, s, hash), AwaitsResult(c, digest), !verified && s.mode != ModeDisabled, hash)
  {
  }

  lemma NothingRecorded(c: Container, degrades: bool, hash: string)
    ensures ResultRecorded(c, c, false, degrades, hash)
  {
  }

  // A complete result that was recorded for a container before the run was cancelled.
  predicate Reaches(result: Option<VerifyResult>, ids: seq<string>, id: string)
  {
    result.Some? && !result.value.incomplete && id in ids
  }

  // Only the first result of a container counts.
  lemma PrewarmedOnce(c: Container, digest: string, verified: bool, s: Settings, hash: string)
    ensures var r := Prewarmed(c, digest, verified, s, hash); Prewarmed(r, digest, verified, s, hash) == r
  {
  }

  // ---------- The verification of a target ----------

  datatype VerifyError = VerificationFailed | OtherError
  datatype VerifyResult = VerifyResult(verified: bool, incomplete: bool)
  datatype Outcome = Cancelled | Error | Incomplete | Completed(degraded: bool)

  // The outcome of a verification: an error counts as one unless it is a failed verification with
  // a result, and so does a missing result.
  function Classify(cancelled: bool, error: Option<VerifyError>, result: Option<VerifyResult>): Outcome
  {
    if cancelled then Cancelled
    else if result.None? || (error.Some? && error.value != VerificationFailed) then Error
    else if result.value.incomplete then Incomplete
    else Completed(!result.value.verified)
  }

  // What a verification means for a container that is verified: which of its results pass it, which
  // degrade it, and which only count.
  lemma VerificationDecides(c: Container, cancelled: bool, error: Option<VerifyError>, result: Option<VerifyResult>,
                            s: Settings, trigger: Trigger, hash: string, now: int)
    requires c.state == Verified
    ensures var c' := Outcomed(c, Classify(cancelled, error, result), s, trigger, hash, now).0;
            var decided := !cancelled && result.Some? && (error.None? || error.value == VerificationFailed);
            var failed := !cancelled && !decided;
            && (c'.state == Degraded <==>
                  || (decided && !result.value.incomplete && !result.value.verified)
                  || (failed && c.consecutiveErrors + 1 >= ERROR_THRESHOLD))
            && (c'.state != Degraded ==> c'.state == Verified)
            && c'.consecutiveErrors == (if failed then c.consecutiveErrors + 1
                                        else if decided && !result.value.incomplete then 0 else c.consecutiveErrors)
            && c'.consecutiveIncomplete == (if decided && result.value.incomplete then c.consecutiveIncomplete + 1
                                            else if decided then 0 else c.consecutiveIncomplete)
  {
  }

  // What a verification with the given outcome records, and the update it asks for.
  function Outcomed(c: Container, outcome: Outcome, s: Settings, trigger: Trigger, hash: string, now: int)
    : (Container, Option<Pending>)
  {
    match outcome
    case Cancelled => (c, None)
    case Error => (Errored(c), None)
    case Incomplete => (Incompleted(c), None)
    case Completed(degraded) => Reverified(c, degraded, s, trigger, hash, now)
  }

  /**
   A passing verification recovers a container from every state: it is verified, or it is
   throttled with known originals and asks for their restoration, whose confirmation verifies it.
   */
  lemma PassingRecovers(c: Container, s: Settings, trigger: Trigger, hash: string, now: int, confirmed: int)
    ensures var (c', p) := Outcomed(c, Completed(false), s, trigger, hash, now);
            && c'.consecutiveErrors == c'.consecutiveIncomplete == 0 && !c'.awaitingFirstResult
            && (p.Some? <==> c.state == Throttled && c.TrustedOriginals())
            && (p.None? ==> c'.state == Verified)
            && (p.Some? ==> c'.state == Throttled && p == Some(Rollback(LimitsOf(c.original.value)))
                            && Committed(c', p.value, confirmed) == c'.(state := Verified))
  {
  }

  /**
   Two failing verifications in a row throttle a container that is not throttled yet, once the
   runtime confirms, exactly when the mode throttles, the originals are trusted, the cooldown has
   elapsed, and the second one comes from the timer or from a new trigger.
   */
  lemma FailingTwiceThrottlesIff(c: Container, s: Settings, trigger: Trigger, hash: string, trigger': Trigger, hash': string, now: int, confirmed: int)
    requires c.state == Verified || c.state == Skipped
    ensures var (c1, p1) := Outcomed(c, Completed(true), s, trigger, hash, now);
            var (c2, p2) := Outcomed(c1, Completed(true), s, trigger', hash', now);
            && c1.state == c2.state == Degraded && p1.None?
            && (p2.Some? <==>
                  && (s.mode == ModeThrottle || s.mode == ModeEvict) && c.original.Some? && !c.recoveredOnRestart
                  && (c.lastRemediation.Some? ==> now - c.lastRemediation.value > s.Cooldown())
                  && (trigger' == Timer || hash' != hash))
            && (p2.Some? ==>
                  && p2 == Some(Throttle(ThrottleUpdate(c.original.value, s.percents), hash'))
                  && Committed(c2, p2.value, confirmed)
                     == c2.(state := Throttled, lastRemediation := Some(confirmed), lastTriggerHash := hash'))
  {
  }

  // ---------- The registry ----------

  function Min(a: nat, b: nat): nat
  {
    if a <= b then a else b
  }

  function Elements(ids: seq<string>): set<string>
  {
    set i | 0 <= i < |ids| :: ids[i]
  }

  function CommitAll(m: map<string, Container>, pending: seq<(string, Pending)>, failed: set<string>, now: int): map<string, Container>
  {
    if pending == [] then m
    else
      var last := pending[|pending| - 1];
      var m := CommitAll(m, pending[..|pending| - 1], failed, now);
      if last.0 in failed || last.0 !in m then m else m[last.0 := Committed(m[last.0], last.1, now)]
  }

  /**
   Committing a batch whose containers are distinct changes exactly the tracked containers whose
   update did not fail, each by its own transition.
   */
  lemma {:induction false} CommitAllEach(m: map<string, Container>, pending: seq<(string, Pending)>, failed: set<string>, now: int, id: string)
    requires forall i, j :: 0 <= i < j < |pending| ==> pending[i].0 != pending[j].0
    ensures CommitAll(m, pending, failed, now).Keys == m.Keys
    ensures id in m && (id in failed || forall i :: 0 <= i < |pending| ==> pending[i].0 != id) ==>
              CommitAll(m, pending, failed, now)[id] == m[id]
    ensures forall i :: 0 <= i < |pending| && pending[i].0 == id && id in m && id !in failed ==>
              CommitAll(m, pending, failed, now)[id] == Committed(m[id], pending[i].1, now)
  {
    if pending != [] {
      var n := |pending| - 1;
      CommitAllEach(m, pending[..n], failed, now, id);
      CommitAllEach(m, pending[..n], failed, now, pending[n].0);
      assert forall i :: 0 <= i < n ==> pending[..n][i] == pending[i];
    }
  }

  class Plugin {
    var containers: map<string, Container>
    var settings: Settings

    constructor (settings: Settings)
      ensures containers == map[] && this.settings == settings
    {
      containers, this.settings := map[], settings;
    }

    // Re-verifies a target. Nothing happens to a container that is no longer tracked.
    method ReverifyContainer(id: string, cancelled: bool, error: Option<VerifyError>, result: Option<VerifyResult>,
                             trigger: Trigger, hash: string, now: int)
      returns (pending: Option<Pending>)
      modifies this`containers
      ensures if id in old(containers)
              then (containers, pending) ==
                     var (c, p) := Outcomed(old(containers)[id], Classify(cancelled, error, result), settings, trigger, hash, now);
                     (old(containers)[id := c], p)
              else containers == old(containers) && pending == None
    {
      pending := None;
      assert id in containers ==> containers == containers[id := containers[id]];
      if cancelled {
        return;
      }
      if error.Some? && (result.None? || error.value != VerificationFailed) {
        HandleReverifyError(id);
        return;
      }
      if result.None? {
        HandleReverifyError(id);
        return;
      }
      if result.value.incomplete {
        if id in containers {
          var c := containers[id];
          containers := containers[id := c.(consecutiveIncomplete := c.consecutiveIncomplete + 1)];
        }
        return;
      }
      if id in containers {
        containers := containers[id := containers[id].(consecutiveErrors := 0, consecutiveIncomplete := 0)];
      }
      pending := ApplyStateTransition(id, !result.value.verified, trigger, hash, now);
      assert id in containers ==> containers == old(containers)[id := containers[id]];
    }

    // Applies a completed verification.
    method ApplyStateTransition(id: string, degraded: bool, trigger: Trigger, hash: string, now: int)
      returns (pending: Option<Pending>)
      modifies this`containers
      ensures if id in old(containers)
              then (containers, pending) ==
                     var (c, p) := Transition(old(containers)[id], degraded, settings, trigger, hash, now);
                     (old(containers)[id := c], p)
              else containers == old(containers) && pending == None
    {
      pending := None;
      if id !in containers {
        return;
      }
      var c := containers[id].(awaitingFirstResult := false);
      var previous := c.state;
      if !degraded && previous == Skipped {
        c := c.(state := Verified);
      } else if !degraded && previous == Throttled && c.TrustedOriginals() {
        // The state changes only when the rollback is confirmed.
        pending := Some(Rollback(RollbackUpdate(c.original.value)));
      } else if !degraded && previous != Verified {
        c := c.(state := Verified);
      } else if degraded && (previous == Verified || previous == Skipped) {
        c := c.(state := Degraded, lastTriggerHash := hash);
      } else if degraded && previous == Degraded {
        if ShouldThrottle(c, settings, trigger, hash, now) {
          pending := Some(Throttle(ThrottleUpdate(c.original.value, settings.percents), hash));
        }
      }
      containers := containers[id := c];
    }

    // Sends the pending updates to the runtime, which fails as a whole (None) or reports the
    // containers it could not update, and records the transitions of the updates it applied.
    method ApplyUpdates(pending: seq<(string, Pending)>, outcome: Option<seq<string>>, now: int)
      modifies this`containers
      ensures outcome.None? ==> containers == old(containers)
      ensures outcome.Some? ==>
                containers == CommitAll(old(containers), pending, Elements(outcome.value), now)
    {
      if outcome.None? {
        return;
      }
      var failed: set<string> := {};
      for i := 0 to |outcome.value|
        invariant failed == Elements(outcome.value[..i])
      {
        failed := failed + {outcome.value[i]};
      }
      assert outcome.value[..|outcome.value|] == outcome.value;
      for i := 0 to |pending|
        invariant containers == CommitAll(old(containers), pending[..i], failed, now)
      {
        assert pending[..i + 1][..i] == pending[..i];
        var (id, update) := pending[i];
        if id !in failed && id in containers {
          containers := containers[id := Committed(containers[id], update, now)];
        }
      }
      assert pending[..|pending|] == pending;
    }

    // The updates that restore the limits of the throttled containers with known originals: one
    // for each of them.
    method ReleaseThrottled() returns (updates: seq<(string, Pending)>)
      ensures forall i, j :: 0 <= i < j < |updates| ==> updates[i].0 != updates[j].0
      ensures forall i :: 0 <= i < |updates| ==>
                && updates[i].0 in containers
                && var c := containers[updates[i].0];
                   c.state == Throttled && c.TrustedOriginals() && updates[i].1 == Release(LimitsOf(c.original.value))
      ensures forall id :: id in containers && containers[id].state == Throttled && containers[id].TrustedOriginals() ==>
                exists i :: 0 <= i < |updates| && updates[i].0 == id
    {
      updates := [];
      var todo := containers.Keys;
      while todo != {}
        invariant todo <= containers.Keys
        invariant forall i, j :: 0 <= i < j < |updates| ==> updates[i].0 != updates[j].0
        invariant forall i :: 0 <= i < |updates| ==>
                    && updates[i].0 in containers && updates[i].0 !in todo
                    && Released(containers[updates[i].0]) == Some(updates[i].1)
        invariant forall id :: id in containers && id !in todo && Released(containers[id]).Some? ==>
                    exists i :: 0 <= i < |updates| && updates[i].0 == id
        decreases todo
      {
        var id :| id in todo;
        todo := todo - {id};
        var c := containers[id];
        if c.state == Throttled && c.TrustedOriginals() {
          ghost var before := updates;
          updates := updates + [(id, Release(RollbackUpdate(c.original.value)))];
          assert forall i :: 0 <= i < |before| ==> updates[i] == before[i];
          assert updates[|before|].0 == id;
        }
      }
    }

    method HandleReverifyError(id: string)
      modifies this`containers
      ensures containers == if id in old(containers) then old(containers)[id := Errored(old(containers)[id])] else old(containers)
    {
      if id in containers {
        var c := containers[id];
        c := c.(consecutiveErrors := c.consecutiveErrors + 1);
        if c.consecutiveErrors >= ERROR_THRESHOLD && (c.state == Verified || c.state == Skipped) {
          c := c.(state := Degraded);
        }
        containers := containers[id := c];
      }
    }

    method RecordResourceUpdate(id: string, current: Option<Resources>)
      modifies this`containers
      ensures containers == if id in old(containers)
                            then old(containers)[id := ResourcesUpdated(old(containers)[id], current, settings.percents)]
                            else old(containers)
    {
      if current.None? || id !in containers {
        assert id in containers ==> containers == containers[id := containers[id]];
        return;
      }
      var c := containers[id];
      if current == c.original || (c.original.Some? && LooksThrottled(current.value, c.original.value, settings.percents)) {
        assert containers == containers[id := c];
        return;
      }
      c := c.(original := current, recoveredOnRestart := false);
      if c.state == Throttled {
        c := c.(state := Degraded);
      }
      containers := containers[id := c];
    }

    // Registers a container reported by the runtime unless it is tracked already.
    method RecoverContainerState(id: string, digest: string, current: Option<Resources>, annotation: Option<Limits>)
      modifies this`containers
      ensures containers == if id in old(containers) then old(containers)
                            else old(containers)[id := Recovered(digest, current, annotation, settings.percents)]
    {
      var c := Recovered(digest, current, annotation, settings.percents);
      if id !in containers {
        containers := containers[id := c];
      }
    }

    method RecordFirstResult(id: string, digest: string, verified: bool, hash: string)
      requires id in containers
      modifies this`containers
      ensures containers == old(containers)[id := Prewarmed(old(containers)[id], digest, verified, settings, hash)]
    {
      var c := containers[id];
      assert containers == containers[id := c];
      if !c.awaitingFirstResult || c.digest != digest {
        return;
      }
      c := c.(awaitingFirstResult := false);
      if settings.mode != ModeDisabled && !verified && c.state == Verified {
        c := c.(state := Degraded, lastTriggerHash := hash);
      }
      containers := containers[id := c];
    }

    // Records the result of a pre-warmed image on the containers that run it. The run is
    // cancelled when the first `live` containers are updated; an incomplete result says nothing.
    method RecordPrewarmResult(digest: string, ids: seq<string>, result: Option<VerifyResult>, live: nat, hash: string)
      modifies this`containers
      ensures containers.Keys == old(containers).Keys
      ensures forall id :: id in containers ==>
                containers[id] == if result.Some? && !result.value.incomplete && id in ids[..Min(live, |ids|)]
                                  then Prewarmed(old(containers)[id], digest, result.value.verified, settings, hash)
                                  else old(containers)[id]
      ensures forall id :: id in containers ==>
                ResultRecorded(old(containers)[id], containers[id],
                               Reaches(result, ids[..Min(live, |ids|)], id) && AwaitsResult(old(containers)[id], digest),
                               settings.mode != ModeDisabled && result.Some? && !result.value.verified, hash)
    {
      hide Prewarmed, ResultRecorded;
      forall id | id in containers
        ensures ResultRecorded(containers[id], containers[id], false, settings.mode != ModeDisabled && result.Some? && !result.value.verified, hash)
      {
        NothingRecorded(containers[id], settings.mode != ModeDisabled && result.Some? && !result.value.verified, hash);
      }
      if result.None? || result.value.incomplete {
        return;
      }
      ghost var done: set<string> := {};
      for i := 0 to |ids|
        invariant containers.Keys == old(containers).Keys
        invariant forall id :: id in done <==> id in ids[..Min(live, i)]
        invariant forall id :: id in containers ==>
                    containers[id] == if id in done
                                      then Prewarmed(old(containers)[id], digest, result.value.verified, settings, hash)
                                      else old(containers)[id]
      {
        var id := ids[i];
        if i < live {
          assert ids[..i + 1] == ids[..i] + [id];
          done := done + {id};
        }
        if id in containers && i < live {
          PrewarmedOnce(old(containers)[id], digest, result.value.verified, settings, hash);
          RecordFirstResult(id, digest, result.value.verified, hash);
        }
      }
      forall id | id in containers
        ensures ResultRecorded(old(containers)[id], Prewarmed(old(containers)[id], digest, result.value.verified, settings, hash),
                               AwaitsResult(old(containers)[id], digest), !result.value.verified && settings.mode != ModeDisabled, hash)
      {
        FirstResult(old(containers)[id], digest, result.value.verified, settings, hash);
      }
    }
  }
}
