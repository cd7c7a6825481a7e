/**
 Every run of the remediation protocol around one container: verifications, runtime updates and
 their confirmation, in-place resizes, plugin restarts and recovery, interleaved in any order.
 */
module RemediationRuns {
  import opened Options
  import opened Limits
  import opened Remediation

  datatype Phase = NotCreated | Running | Gone

  // The runtime's view of the container, what the plugin tracks about it, and two histories:
  // the limits that were last asked for at creation or by a resize, and the times at which the
  // tracked entry was throttled. `applied` tells that the runtime already applied the pending
  // update, which is not committed yet.
  datatype World = World(
    phase: Phase,
    runtime: Resources,
    annotation: Option<Limits>,
    tracked: Option<Container>,
    pending: Option<Pending>,
    applied: bool,
    now: int,
    desired: Limits,
    throttles: seq<int>)

  datatype Action =
    | Admit(digest: string, resources: Option<Resources>)
    | AdmitWithoutDigest(digest: string, resources: Option<Resources>)
    | CreatedUnseen(created: Resources)
    | Verification(outcome: Outcome, mode: Mode, trigger: Trigger, hash: string)
    | Prewarm(image: string, verified: bool, remediation: Mode, prewarmHash: string)
    | StartRelease
    | RuntimeApplies
    | RuntimeRejects
    | Commit
    | PostUpdate(reported: Option<Resources>)
    | Resize(asked: Limits, resized: Resources)
    | Restart
    | Synchronize(recoveredDigest: string, current: Option<Resources>)
    | Remove
    | Tick(elapsed: nat)

  // Percentages and cooldown are fixed during a run.
  datatype Config = Config(percents: Percents, cooldown: int) {
    function Settings(mode: Mode): Settings { Remediation.Settings(percents, cooldown, mode) }
  }

  const EMPTY := Resources(None, None, 0)
  const INITIAL := World(NotCreated, EMPTY, None, None, None, false, 0, LimitsOf(EMPTY), [])

  function Given(resources: Option<Resources>): Resources
  {
    if resources.Some? then resources.value else EMPTY
  }

  // The runtime reports its resources, or none when it has none.
  predicate Reports(reported: Option<Resources>, runtime: Resources)
  {
    reported == Some(runtime) || (reported.None? && runtime == EMPTY)
  }

  // When a step can happen. One verifier runs at a time, and it commits or drops its updates
  // before the next verification. A resize sets the limits that are asked for, and may change
  // settings other than limits.
  predicate Enabled(w: World, a: Action)
  {
    match a
    case Admit(_, _) => w.phase == NotCreated
    case AdmitWithoutDigest(_, _) => w.phase == NotCreated
    case CreatedUnseen(_) => w.phase == NotCreated
    case Verification(_, _, _, _) => w.pending.None?
    case StartRelease => w.pending.None?
    case RuntimeApplies => w.pending.Some? && !w.applied
    case RuntimeRejects => w.pending.Some? && !w.applied
    case Commit => w.pending.Some? && w.applied
    case PostUpdate(reported) => w.phase == Running && Reports(reported, w.runtime)
    case Resize(asked, resized) => w.phase == Running && LimitsOf(resized) == Override(LimitsOf(w.runtime), asked)
    case Synchronize(_, current) => w.phase == Running && Reports(current, w.runtime)
    case Remove => w.phase == Running
    case _ => true
  }

  function Step(w: World, a: Action, cfg: Config): World
  {
    match a
    case Admit(digest, resources) =>
      Created(w, Given(resources)).(annotation := EncodeAnnotation(resources), tracked := Some(Admitted(digest, resources)))
    case AdmitWithoutDigest(digest, resources) =>
      Created(w, Given(resources)).(tracked := Some(AdmittedWithoutDigest(digest)))
    case CreatedUnseen(created) => Created(w, created)
    case Verification(outcome, mode, trigger, hash) =>
      if w.tracked.None? then w
      else
        var (c, p) := Outcomed(w.tracked.value, outcome, cfg.Settings(mode), trigger, hash, w.now);
        w.(tracked := Some(c), pending := p, applied := false)
    case Prewarm(image, verified, remediation, hash) =>
      if w.tracked.None? then w
      else w.(tracked := Some(Prewarmed(w.tracked.value, image, verified, cfg.Settings(remediation), hash)))
    case StartRelease =>
      if w.tracked.None? then w else w.(pending := Released(w.tracked.value), applied := false)
    case RuntimeApplies =>
      if w.pending.None? then w else w.(runtime := Apply(w.runtime, w.pending.value.update), applied := true)
    case RuntimeRejects => w.(pending := None, applied := false)
    case Commit =>
      if w.pending.None? || w.tracked.None? then w.(pending := None, applied := false)
      else
        w.(tracked := Some(Committed(w.tracked.value, w.pending.value, w.now)),
           throttles := if w.pending.value.Throttle? then w.throttles + [w.now] else w.throttles,
           pending := None, applied := false)
    case PostUpdate(reported) => Reported(w, reported, cfg)
    case Resize(asked, resized) =>
      Reported(w.(runtime := resized, desired := Override(w.desired, asked)), Some(resized), cfg)
    case Restart => w.(tracked := None, pending := None, applied := false, throttles := [])
    case Synchronize(digest, current) =>
      if w.tracked.Some? then w
      else w.(tracked := Some(Recovered(digest, current, w.annotation, cfg.percents)), throttles := [])
    case Remove => w.(phase := Gone, tracked := None)
    case Tick(elapsed) => w.(now := w.now + elapsed)
  }

  function Created(w: World, resources: Resources): World
  {
    w.(phase := Running, runtime := resources, desired := LimitsOf(resources))
  }

  function Reported(w: World, reported: Option<Resources>, cfg: Config): World
  {
    if w.tracked.None? then w
    else w.(tracked := Some(ResourcesUpdated(w.tracked.value, reported, cfg.percents)))
  }

  // What the limits depend on, beyond the steps that can happen: no resize between building an
  // update and its commit, none that the plugin misreads, and no recovery from an annotation that
  // a resize made stale.
  predicate Calm(w: World, a: Action, cfg: Config)
  {
    match a
    case Resize(asked, resized) => w.pending.None? && ResizeSafe(w, asked, resized, cfg)
    case Synchronize(_, _) => w.tracked.None? ==> AnnotationCurrent(w)
    case _ => true
  }

  // The report of a resize is taken for the plugin's own throttle.
  predicate Mistaken(w: World, resized: Resources, cfg: Config)
  {
    && w.tracked.Some? && w.tracked.value.TrustedOriginals()
    && LooksThrottled(resized, w.tracked.value.original.value, cfg.percents)
  }

  // The report of a resize does not become the originals of a container without trusted ones.
  predicate NotRecorded(w: World, resized: Resources, cfg: Config)
  {
    w.tracked.Some? ==>
      var original := w.tracked.value.original;
      original.Some? && (original.value == resized || LooksThrottled(resized, original.value, cfg.percents))
  }

  // With trusted originals, no limit that was not asked for is throttled and the report is not
  // mistaken, or nothing changes. Without them, no such limit is throttled, or all limits are and
  // the report is not recorded.
  predicate ResizeSafe(w: World, asked: Limits, resized: Resources, cfg: Config)
  {
    var wanted, limits := Override(w.desired, asked), LimitsOf(resized);
    if w.tracked.Some? && w.tracked.value.TrustedOriginals()
    then (limits == wanted && !Mistaken(w, resized, cfg)) || (wanted == w.desired && limits == LimitsOf(w.runtime))
    else limits == wanted || (limits == ThrottledForm(wanted, cfg.percents) && NotRecorded(w, resized, cfg))
  }

  predicate AnnotationCurrent(w: World)
  {
    w.annotation.Some? ==> w.annotation.value == w.desired
  }

  // The state after a run.
  function Run(w: World, actions: seq<Action>, cfg: Config): World
  {
    if actions == [] then w else Step(Run(w, actions[..|actions| - 1], cfg), actions[|actions| - 1], cfg)
  }

  predicate IsRun(w: World, actions: seq<Action>, cfg: Config)
  {
    actions == [] ||
    var before, a := actions[..|actions| - 1], actions[|actions| - 1];
    IsRun(w, before, cfg) && Enabled(Run(w, before, cfg), a)
  }

  predicate StaysCalm(w: World, actions: seq<Action>, cfg: Config)
  {
    actions == [] ||
    var before, a := actions[..|actions| - 1], actions[|actions| - 1];
    StaysCalm(w, before, cfg) && Calm(Run(w, before, cfg), a, cfg)
  }

  // ---------- What every step keeps ----------

  predicate Spaced(times: seq<int>, gap: int)
  {
    forall i, j :: 0 <= i < j < |times| ==> times[j] - times[i] > gap
  }

  predicate HistoryInv(w: World, c: Container, cfg: Config)
  {
    && (c.lastRemediation == if w.throttles == [] then None else Some(w.throttles[|w.throttles| - 1]))
    && (forall i :: 0 <= i < |w.throttles| ==> w.throttles[i] <= w.now)
    && Spaced(w.throttles, cfg.Settings(ModeThrottle).Cooldown())
  }

  // A throttle waits for a degraded container whose cooldown elapsed; a rollback or release for
  // a container that is throttled, or that an update event meanwhile degraded.
  predicate PendingFits(w: World, c: Container, cfg: Config)
  {
    w.pending.Some? ==>
      && c.TrustedOriginals()
      && if w.pending.value.Throttle?
         then c.state == Degraded && CooldownElapsed(c, cfg.Settings(ModeThrottle), w.now)
         else c.state == Throttled || c.state == Degraded
  }

  // What holds however the container is resized and recovered.
  predicate StateInv(w: World, cfg: Config)
  {
    && (w.phase == NotCreated ==> w.tracked.None? && w.pending.None? && w.throttles == [])
    && (w.phase == Running && w.tracked.None? ==> w.pending.None?)
    && (w.tracked.Some? ==>
          && (w.tracked.value.state == Throttled ==> w.tracked.value.TrustedOriginals())
          && PendingFits(w, w.tracked.value, cfg)
          && HistoryInv(w, w.tracked.value, cfg))
  }

  lemma VerificationKeepsStateInv(w: World, a: Action, cfg: Config)
    requires StateInv(w, cfg) && Enabled(w, a) && a.Verification?
    ensures StateInv(Step(w, a, cfg), cfg)
  {
    hide ThrottleUpdate, ThrottledLimits, DecodeAnnotation, EncodeAnnotation, LimitsOf, LooksThrottled, Apply, Override, Outcomed;
    if w.tracked.Some? {
      VerificationEffects(w.tracked.value, a.outcome, cfg.Settings(a.mode), a.trigger, a.hash, w.now);
    }
  }

  lemma SpacedGrows(times: seq<int>, gap: int, now: int)
    requires Spaced(times, gap) && forall i :: 0 <= i < |times| ==> times[i] <= now
    requires times == [] || now - times[|times| - 1] > gap
    ensures Spaced(times + [now], gap)
  {
  }

  lemma CommitKeepsStateInv(w: World, a: Action, cfg: Config)
    requires StateInv(w, cfg) && Enabled(w, a) && a.Commit?
    ensures StateInv(Step(w, a, cfg), cfg)
  {
    hide ThrottleUpdate, ThrottledLimits, DecodeAnnotation, EncodeAnnotation, LimitsOf, LooksThrottled, Apply, Override, Spaced;
    if w.pending.value.Throttle? && w.tracked.Some? {
      SpacedGrows(w.throttles, cfg.Settings(ModeThrottle).Cooldown(), w.now);
    }
  }

  // A report keeps trusted originals, and at most degrades a throttled container.
  lemma ReportKeepsStateInv(w: World, a: Action, cfg: Config)
    requires StateInv(w, cfg) && Enabled(w, a) && (a.PostUpdate? || a.Resize?)
    ensures StateInv(Step(w, a, cfg), cfg)
  {
    hide ThrottleUpdate, ThrottledLimits, DecodeAnnotation, EncodeAnnotation, LimitsOf, LooksThrottled, Apply, Override;
  }

  lemma StepKeepsStateInv(w: World, a: Action, cfg: Config)
    requires StateInv(w, cfg) && Enabled(w, a)
    ensures StateInv(Step(w, a, cfg), cfg)
  {
    if a.Verification? {
      VerificationKeepsStateInv(w, a, cfg);
    } else if a.Commit? {
      CommitKeepsStateInv(w, a, cfg);
    } else if a.PostUpdate? || a.Resize? {
      ReportKeepsStateInv(w, a, cfg);
    } else {
      hide ThrottleUpdate, ThrottledLimits, DecodeAnnotation, EncodeAnnotation, LimitsOf, LooksThrottled, Apply, Override, Outcomed;
    }
  }

  lemma {:induction false} RunKeepsStateInv(actions: seq<Action>, cfg: Config)
    requires IsRun(INITIAL, actions, cfg)
    ensures StateInv(Run(INITIAL, actions, cfg), cfg)
  {
    if actions != [] {
      hide Step, Enabled, StateInv;
      var before := actions[..|actions| - 1];
      RunKeepsStateInv(before, cfg);
      StepKeepsStateInv(Run(INITIAL, before, cfg), actions[|actions| - 1], cfg);
    }
  }

  // ---------- The invariant of calm runs ----------

  function ThrottledForm(desired: Limits, p: Percents): Limits
  {
    ThrottledLimits(DecodeAnnotation(desired), p)
  }

  // The runtime holds the desired limits or their throttled form, never anything stacked.
  predicate NeverStacked(w: World, cfg: Config)
  {
    LimitsOf(w.runtime) == w.desired || LimitsOf(w.runtime) == ThrottledForm(w.desired, cfg.percents)
  }

  // A pending update derives from the desired limits.
  predicate PendingDerives(w: World, cfg: Config)
  {
    w.pending.Some? ==>
      if w.pending.value.Throttle?
      then w.pending.value.update == ThrottleUpdate(DecodeAnnotation(w.desired), cfg.percents)
      else w.pending.value.update == w.desired
  }

  // An applied update decides the limits of the runtime.
  predicate AppliedEffect(w: World, cfg: Config)
  {
    w.pending.Some? && w.applied ==>
      LimitsOf(w.runtime) == if w.pending.value.Throttle? then ThrottledForm(w.desired, cfg.percents) else w.desired
  }

  predicate TrackedInv(w: World, c: Container, cfg: Config)
  {
    && (c.TrustedOriginals() ==> LimitsOf(c.original.value) == w.desired)
    && (c.TrustedOriginals() && c.state != Throttled && !(w.pending.Some? && w.applied) ==>
          LimitsOf(w.runtime) == w.desired)
    && (c.original.None? ==> LimitsOf(w.runtime) == w.desired)
    && (c.original.Some? && c.recoveredOnRestart ==>
          c.original.value == w.runtime || LooksThrottled(w.runtime, c.original.value, cfg.percents))
  }

  // A rollback or release of a container that an update event meanwhile degraded has its effect.
  predicate ReleaseDone(w: World, c: Container)
  {
    w.pending.Some? && !w.pending.value.Throttle? && c.state == Degraded ==> LimitsOf(w.runtime) == w.desired
  }

  predicate Inv(w: World, cfg: Config)
  {
    && StateInv(w, cfg)
    && NeverStacked(w, cfg)
    && PendingDerives(w, cfg)
    && AppliedEffect(w, cfg)
    && (w.tracked.Some? ==> TrackedInv(w, w.tracked.value, cfg) && ReleaseDone(w, w.tracked.value))
  }

  // ---------- Every calm step keeps it ----------

  // Updates are functions of the limits alone, and applying them to the desired limits or to
  // their throttled form gives the throttled form, or the desired limits back.
  lemma UpdateEffects(current: Limits, desired: Limits, p: Percents)
    requires current == desired || current == ThrottledForm(desired, p)
    ensures Override(current, ThrottleUpdate(DecodeAnnotation(desired), p)) == ThrottledForm(desired, p)
    ensures Override(current, desired) == desired
  {
    assert LimitsOf(DecodeAnnotation(desired)) == desired;
  }

  lemma UpdatesFromLimits(original: Resources, p: Percents)
    ensures ThrottleUpdate(original, p) == ThrottleUpdate(DecodeAnnotation(LimitsOf(original)), p)
    ensures ThrottledLimits(original, p) == ThrottledForm(LimitsOf(original), p)
  {
    assert LimitsOf(DecodeAnnotation(LimitsOf(original))) == LimitsOf(original);
  }

  // Among the desired limits and their throttled form, a container looks throttled exactly when
  // it does not hold the desired limits.
  lemma LooksThrottledDecides(current: Resources, original: Resources, p: Percents)
    requires var d := LimitsOf(original); LimitsOf(current) == d || LimitsOf(current) == ThrottledForm(d, p)
    ensures LooksThrottled(current, original, p) <==> LimitsOf(current) != LimitsOf(original)
  {
    LooksThrottledIff(current, original, p);
    UpdatesFromLimits(original, p);
    UpdateEffects(LimitsOf(current), LimitsOf(original), p);
  }

  lemma CreationKeepsInv(w: World, a: Action, cfg: Config)
    requires Inv(w, cfg) && Enabled(w, a) && (a.Admit? || a.AdmitWithoutDigest? || a.CreatedUnseen?)
    ensures Inv(Step(w, a, cfg), cfg)
  {
  }

  // What a verification may do to a container: it never throttles it, and it asks for a throttle
  // of a degraded container or a rollback of a throttled one.
  lemma VerificationEffects(c: Container, outcome: Outcome, s: Settings, trigger: Trigger, hash: string, now: int)
    ensures var (c', p) := Outcomed(c, outcome, s, trigger, hash, now);
            && c'.original == c.original && c'.recoveredOnRestart == c.recoveredOnRestart
            && c'.lastRemediation == c.lastRemediation
            && (c'.state == Throttled ==> c.state == Throttled)
            && (c'.state != Throttled && c.state == Throttled ==> !c.TrustedOriginals())
            && (p.Some? ==> c.TrustedOriginals() && c'.state == c.state)
            && (p.Some? && p.value.Throttle? ==>
                  && c.state == Degraded && CooldownElapsed(c, s, now) && outcome == Completed(true)
                  && p.value.update == ThrottleUpdate(c.original.value, s.percents))
            && (p.Some? && !p.value.Throttle? ==>
                  && c.state == Throttled && p.value.Rollback? && outcome == Completed(false)
                  && p.value.update == RollbackUpdate(c.original.value))
  {
    hide ThrottleUpdate;
  }

  lemma VerificationKeepsInv(w: World, a: Action, cfg: Config)
    requires Inv(w, cfg) && Enabled(w, a) && a.Verification?
    ensures Inv(Step(w, a, cfg), cfg)
  {
    hide ThrottleUpdate, ThrottledLimits, DecodeAnnotation, LimitsOf, LooksThrottled, Outcomed;
    if w.tracked.Some? {
      var c := w.tracked.value;
      VerificationEffects(c, a.outcome, cfg.Settings(a.mode), a.trigger, a.hash, w.now);
      if c.original.Some? {
        UpdatesFromLimits(c.original.value, cfg.percents);
      }
    }
  }

  lemma ReleaseKeepsInv(w: World, a: Action, cfg: Config)
    requires Inv(w, cfg) && Enabled(w, a) && (a.Prewarm? || a.StartRelease?)
    ensures Inv(Step(w, a, cfg), cfg)
  {
    hide ThrottleUpdate, ThrottledLimits, DecodeAnnotation, LimitsOf, LooksThrottled;
  }

  lemma ApplyKeepsInv(w: World, a: Action, cfg: Config)
    requires Inv(w, cfg) && Enabled(w, a) && (a.RuntimeApplies? || a.RuntimeRejects?)
    ensures Inv(Step(w, a, cfg), cfg)
  {
    hide ThrottleUpdate, ThrottledLimits, DecodeAnnotation, LimitsOf, LooksThrottled, Apply, Override;
    UpdateEffects(LimitsOf(w.runtime), w.desired, cfg.percents);
  }

  lemma CommitKeepsInv(w: World, a: Action, cfg: Config)
    requires Inv(w, cfg) && Enabled(w, a) && a.Commit?
    ensures Inv(Step(w, a, cfg), cfg)
  {
    hide ThrottleUpdate, ThrottledLimits, DecodeAnnotation, LimitsOf, LooksThrottled, HistoryInv;
    CommitKeepsStateInv(w, a, cfg);
  }

  lemma ReportKeepsInv(w: World, a: Action, cfg: Config)
    requires Inv(w, cfg) && Enabled(w, a) && a.PostUpdate?
    ensures Inv(Step(w, a, cfg), cfg)
  {
    hide ThrottleUpdate, ThrottledLimits, DecodeAnnotation, LimitsOf, LooksThrottled;
    if w.tracked.Some? && w.tracked.value.TrustedOriginals() {
      LooksThrottledDecides(w.runtime, w.tracked.value.original.value, cfg.percents);
    }
  }

  // Limits that hold what a throttle of the desired limits sets, and were asked for nothing else
  // than the desired limits, are those from before.
  lemma NothingAsked(current: Limits, asked: Limits, desired: Limits, p: Percents)
    requires current == desired || current == ThrottledForm(desired, p)
    ensures var limits := Override(current, asked);
            && (Override(desired, asked) == desired && limits != desired
                && Override(limits, ThrottleUpdate(DecodeAnnotation(desired), p)) == limits ==>
                  limits == current == ThrottledForm(desired, p))
            && (limits == desired ==> Override(desired, asked) == desired)
  {
    DecodedLimits(desired);
  }

  lemma RecordedResizeIff(w: World, a: Action, cfg: Config)
    requires Inv(w, cfg) && Enabled(w, a) && a.Resize? && w.pending.None?
    requires w.tracked.Some? && w.tracked.value.TrustedOriginals() && !Mistaken(w, a.resized, cfg)
    ensures Inv(Step(w, a, cfg), cfg) <==> ResizeSafe(w, a.asked, a.resized, cfg)
  {
    var original, p := w.tracked.value.original.value, cfg.percents;
    hide ThrottleUpdate, ThrottledLimits, DecodeAnnotation, LimitsOf, LooksThrottled, Override, StateInv;
    ReportKeepsStateInv(w, a, cfg);
    LooksThrottledDecides(w.runtime, original, p);
    LooksThrottledIff(a.resized, original, p);
    UpdatesFromLimits(original, p);
    UpdateEffects(LimitsOf(w.runtime), w.desired, p);
    NothingAsked(LimitsOf(w.runtime), a.asked, w.desired, p);
  }

  lemma MistakenResizeIff(w: World, a: Action, cfg: Config)
    requires Inv(w, cfg) && Enabled(w, a) && a.Resize? && w.pending.None? && Mistaken(w, a.resized, cfg)
    ensures Inv(Step(w, a, cfg), cfg) <==> ResizeSafe(w, a.asked, a.resized, cfg)
  {
    var original, p := w.tracked.value.original.value, cfg.percents;
    hide ThrottleUpdate, ThrottledLimits, DecodeAnnotation, LimitsOf, LooksThrottled, Override, StateInv;
    ReportKeepsStateInv(w, a, cfg);
    LooksThrottledDecides(w.runtime, original, p);
    LooksThrottledIff(a.resized, original, p);
    OwnUpdatesRecognized(a.resized, original, p);
    UpdatesFromLimits(original, p);
    NothingAsked(LimitsOf(w.runtime), a.asked, w.desired, p);
  }

  lemma UntrustedResizeIff(w: World, a: Action, cfg: Config)
    requires Inv(w, cfg) && Enabled(w, a) && a.Resize? && w.pending.None?
    requires w.tracked.Some? ==> !w.tracked.value.TrustedOriginals()
    ensures Inv(Step(w, a, cfg), cfg) <==> ResizeSafe(w, a.asked, a.resized, cfg)
  {
    hide ThrottleUpdate, ThrottledLimits, DecodeAnnotation, LooksThrottled;
  }

  /**
   A resize of any of the limits, with no update in flight, keeps the invariant exactly when it is
   safe.
   */
  lemma ResizeSafeIff(w: World, a: Action, cfg: Config)
    requires Inv(w, cfg) && Enabled(w, a) && a.Resize? && w.pending.None?
    ensures Inv(Step(w, a, cfg), cfg) <==> ResizeSafe(w, a.asked, a.resized, cfg)
  {
    hide Inv, Step, ResizeSafe;
    if Mistaken(w, a.resized, cfg) {
      MistakenResizeIff(w, a, cfg);
    } else if w.tracked.Some? && w.tracked.value.TrustedOriginals() {
      RecordedResizeIff(w, a, cfg);
    } else {
      UntrustedResizeIff(w, a, cfg);
    }
  }

  lemma RestartKeepsInv(w: World, a: Action, cfg: Config)
    requires Inv(w, cfg) && Enabled(w, a) && (a.Restart? || a.Remove? || a.Tick?)
    ensures Inv(Step(w, a, cfg), cfg)
  {
    hide ThrottleUpdate, ThrottledLimits, DecodeAnnotation, LimitsOf, LooksThrottled;
  }

  lemma RecoveryKeepsInv(w: World, a: Action, cfg: Config)
    requires Inv(w, cfg) && Enabled(w, a) && Calm(w, a, cfg) && a.Synchronize?
    ensures Inv(Step(w, a, cfg), cfg)
  {
    hide ThrottleUpdate, ThrottledLimits, DecodeAnnotation, LimitsOf, LooksThrottled;
    if w.tracked.None? {
      if w.annotation.Some? {
        assert LimitsOf(DecodeAnnotation(w.desired)) == w.desired by { DecodedLimits(w.desired); }
        LooksThrottledDecides(w.runtime, DecodeAnnotation(w.desired), cfg.percents);
      }
      NothingToThrottle(w.desired, cfg.percents);
    }
  }

  lemma DecodedLimits(l: Limits)
    ensures LimitsOf(DecodeAnnotation(l)) == l
  {
  }

  lemma NothingToThrottle(desired: Limits, p: Percents)
    ensures ThrottledForm(desired, p) == LimitsOf(EMPTY) ==> desired == LimitsOf(EMPTY)
  {
  }

  lemma StepKeepsInv(w: World, a: Action, cfg: Config)
    requires Inv(w, cfg) && Enabled(w, a) && Calm(w, a, cfg)
    ensures Inv(Step(w, a, cfg), cfg)
  {
    hide Inv, Enabled, Step, AnnotationCurrent, ResizeSafe;
    match a
    case Admit(_, _) => CreationKeepsInv(w, a, cfg);
    case AdmitWithoutDigest(_, _) => CreationKeepsInv(w, a, cfg);
    case CreatedUnseen(_) => CreationKeepsInv(w, a, cfg);
    case Verification(_, _, _, _) => VerificationKeepsInv(w, a, cfg);
    case Prewarm(_, _, _, _) => ReleaseKeepsInv(w, a, cfg);
    case StartRelease => ReleaseKeepsInv(w, a, cfg);
    case RuntimeApplies => ApplyKeepsInv(w, a, cfg);
    case RuntimeRejects => ApplyKeepsInv(w, a, cfg);
    case Commit => CommitKeepsInv(w, a, cfg);
    case PostUpdate(_) => ReportKeepsInv(w, a, cfg);
    case Resize(_, _) => ResizeSafeIff(w, a, cfg);
    case Synchronize(_, _) => RecoveryKeepsInv(w, a, cfg);
    case Restart => RestartKeepsInv(w, a, cfg);
    case Remove => RestartKeepsInv(w, a, cfg);
    case Tick(_) => RestartKeepsInv(w, a, cfg);
  }

  lemma {:induction false} RunKeepsInv(actions: seq<Action>, cfg: Config)
    requires IsRun(INITIAL, actions, cfg) && StaysCalm(INITIAL, actions, cfg)
    ensures Inv(Run(INITIAL, actions, cfg), cfg)
  {
    if actions != [] {
      hide Step, Enabled, Calm, Inv;
      var before := actions[..|actions| - 1];
      RunKeepsInv(before, cfg);
      StepKeepsInv(Run(INITIAL, before, cfg), actions[|actions| - 1], cfg);
    }
  }

  /**
   In every reachable state a throttled container has trusted originals, and the entry was
   throttled at times more than the cooldown apart. If the run stays calm, the runtime also holds
   the desired limits or their throttled form, so throttling never stacks; trusted originals are
   the desired limits; and a container with trusted originals that is not throttled, and whose
   update is not about to be committed, runs with its originals.
   */
  lemma RunsAreSafe(actions: seq<Action>, cfg: Config)
    requires IsRun(INITIAL, actions, cfg)
    ensures var w := Run(INITIAL, actions, cfg);
            w.tracked.Some? ==>
              && (w.tracked.value.state == Throttled ==> w.tracked.value.TrustedOriginals())
              && Spaced(w.throttles, cfg.Settings(ModeThrottle).Cooldown())
    ensures var w := Run(INITIAL, actions, cfg);
            StaysCalm(INITIAL, actions, cfg) ==>
              && (LimitsOf(w.runtime) == w.desired || LimitsOf(w.runtime) == ThrottledForm(w.desired, cfg.percents))
              && (w.tracked.Some? ==>
                    var c := w.tracked.value;
                    && (c.TrustedOriginals() ==> LimitsOf(c.original.value) == w.desired)
                    && (c.TrustedOriginals() && c.state != Throttled && !(w.pending.Some? && w.applied) ==>
                          LimitsOf(w.runtime) == LimitsOf(c.original.value)))
  {
    hide LimitsOf, ThrottledForm, Run, IsRun, StaysCalm, LooksThrottled;
    RunKeepsStateInv(actions, cfg);
    if StaysCalm(INITIAL, actions, cfg) {
      RunKeepsInv(actions, cfg);
    }
  }

  // ---------- How a container becomes throttled ----------

  // The verification at position j failed on a degraded container and asked for a throttle,
  // and neither another verification nor a restart came after it.
  predicate Originates(actions: seq<Action>, j: nat, cfg: Config)
  {
    && j < |actions|
    && actions[j].Verification? && actions[j].outcome == Completed(true)
    && (var w := Run(INITIAL, actions[..j], cfg);
        && w.tracked.Some? && w.tracked.value.state == Degraded && w.tracked.value.TrustedOriginals()
        && CooldownElapsed(w.tracked.value, cfg.Settings(ModeThrottle), w.now))
    && (forall k :: j < k < |actions| ==> !actions[k].Verification? && !actions[k].Restart?)
  }

  // A pending throttle was pending before, or a failing verification asked for it.
  lemma ThrottleOriginStep(w: World, a: Action, cfg: Config)
    requires Enabled(w, a)
    requires var w' := Step(w, a, cfg); w'.pending.Some? && w'.pending.value.Throttle?
    ensures !a.Restart?
    ensures if a.Verification?
            then && a.outcome == Completed(true) && w.tracked.Some?
                 && w.tracked.value.state == Degraded && w.tracked.value.TrustedOriginals()
                 && CooldownElapsed(w.tracked.value, cfg.Settings(ModeThrottle), w.now)
            else w.pending.Some? && w.pending.value.Throttle?
  {
    hide LooksThrottled, ThrottleUpdate, LimitsOf, Apply, EncodeAnnotation, DecodeAnnotation;
  }

  lemma {:induction false} ThrottleOrigin(actions: seq<Action>, cfg: Config) returns (j: nat)
    requires IsRun(INITIAL, actions, cfg)
    requires var w := Run(INITIAL, actions, cfg); w.pending.Some? && w.pending.value.Throttle?
    ensures Originates(actions, j, cfg)
  {
    hide Step, Enabled;
    assert actions != [];
    var n := |actions| - 1;
    ThrottleOriginStep(Run(INITIAL, actions[..n], cfg), actions[n], cfg);
    if actions[n].Verification? {
      j := n;
    } else {
      j := ThrottleOrigin(actions[..n], cfg);
      assert actions[..n][..j] == actions[..j];
      assert forall k :: j < k < n ==> actions[..n][k] == actions[k];
    }
  }

  /**
   Outside restart recovery a container becomes throttled only from degraded, when the runtime
   confirmed the update that a further failing verification of the degraded container asked for.
   */
  lemma ThrottledOnlyByFailures(actions: seq<Action>, a: Action, cfg: Config)
    requires IsRun(INITIAL, actions, cfg)
    requires Enabled(Run(INITIAL, actions, cfg), a)
    ensures var w, w' := Run(INITIAL, actions, cfg), Step(Run(INITIAL, actions, cfg), a, cfg);
            (w.tracked.Some? ==> w.tracked.value.state != Throttled) && w'.tracked.Some? && w'.tracked.value.state == Throttled ==>
              || (a.Synchronize? && w.tracked.None?)
              || (a.Commit? && w.applied && w.tracked.Some? && w.tracked.value.state == Degraded
                  && exists j :: Originates(actions, j, cfg))
  {
    hide IsRun, Run, Originates, LooksThrottled, ThrottleUpdate, LimitsOf, ThrottledLimits;
    var w := Run(INITIAL, actions, cfg);
    RunKeepsStateInv(actions, cfg);
    if a.Commit? && w.pending.Some? && w.pending.value.Throttle? {
      var j := ThrottleOrigin(actions, cfg);
    }
  }

  // ---------- Updates that are not applied ----------

  /**
   An update that the runtime rejects leaves the container as the verification left it, with its
   limits, and lets the next verification ask again; a removed container is forgotten, and an
   update of it is dropped.
   */
  lemma RejectedAndDropped(w: World, a: Action, cfg: Config)
    requires Enabled(w, a) && a.Verification? && w.tracked.Some?
    ensures var asked := Step(w, a, cfg);
            var rejected := Step(asked, RuntimeRejects, cfg);
            && asked.runtime == rejected.runtime == w.runtime && rejected.tracked == asked.tracked
            && rejected.pending.None? && !rejected.applied && Enabled(rejected, a)
    ensures var removed := Step(Step(w, a, cfg), Remove, cfg);
            && removed.tracked.None? && removed.phase == Gone
            && Step(removed, Commit, cfg) == removed.(pending := None, applied := false)
  {
    hide Outcomed;
  }

  lemma RunExtends(actions: seq<Action>, a: Action, cfg: Config)
    requires IsRun(INITIAL, actions, cfg) && Enabled(Run(INITIAL, actions, cfg), a)
    ensures IsRun(INITIAL, actions + [a], cfg)
    ensures Run(INITIAL, actions + [a], cfg) == Step(Run(INITIAL, actions, cfg), a, cfg)
  {
    hide Step, Enabled;
    assert (actions + [a])[..|actions|] == actions;
  }

  // A pending update can always be applied and committed.
  lemma SettlesPending(actions: seq<Action>, cfg: Config) returns (all: seq<Action>)
    requires IsRun(INITIAL, actions, cfg)
    ensures IsRun(INITIAL, all, cfg)
    ensures var w, w' := Run(INITIAL, actions, cfg), Run(INITIAL, all, cfg);
            && w'.pending.None? && w'.phase == w.phase && w'.now == w.now
            && w'.tracked == if w.pending.Some? && w.tracked.Some? then Some(Committed(w.tracked.value, w.pending.value, w.now)) else w.tracked
  {
    hide Run, IsRun, Committed, Apply;
    all := actions;
    var w := Run(INITIAL, actions, cfg);
    if w.pending.Some? {
      if !w.applied {
        RunExtends(all, RuntimeApplies, cfg);
        all := all + [RuntimeApplies];
      }
      RunExtends(all, Commit, cfg);
      all := all + [Commit];
    }
  }

  // A running container can be tracked with nothing pending.
  lemma Tracks(actions: seq<Action>, cfg: Config) returns (all: seq<Action>)
    requires IsRun(INITIAL, actions, cfg) && Run(INITIAL, actions, cfg).phase == Running
    ensures IsRun(INITIAL, all, cfg)
    ensures var w := Run(INITIAL, all, cfg); w.phase == Running && w.tracked.Some? && w.pending.None?
  {
    hide Run, IsRun, Committed, Recovered;
    all := SettlesPending(actions, cfg);
    var w := Run(INITIAL, all, cfg);
    if w.tracked.None? {
      RunExtends(all, Synchronize("", Some(w.runtime)), cfg);
      all := all + [Synchronize("", Some(w.runtime))];
    }
  }

  /**
   No run gets stuck: while its container runs, every run can be continued so that the container is
   verified and nothing is pending.
   */
  lemma CanRecover(actions: seq<Action>, cfg: Config) returns (all: seq<Action>)
    requires IsRun(INITIAL, actions, cfg) && Run(INITIAL, actions, cfg).phase == Running
    ensures IsRun(INITIAL, all, cfg)
    ensures var w := Run(INITIAL, all, cfg);
            w.phase == Running && w.tracked.Some? && w.tracked.value.state == Verified && w.pending.None?
  {
    hide Run, IsRun, Outcomed, Committed;
    all := Tracks(actions, cfg);
    var w := Run(INITIAL, all, cfg);
    var pass := Verification(Completed(false), ModeThrottle, Timer, "");
    PassingRecovers(w.tracked.value, cfg.Settings(ModeThrottle), Timer, "", w.now, w.now);
    RunExtends(all, pass, cfg);
    all := SettlesPending(all + [pass], cfg);
  }

  /**
   And every run whose container has trusted originals, is verified and has nothing pending can be
   continued so that it is throttled, after its cooldown.
   */
  lemma CanThrottle(actions: seq<Action>, cfg: Config) returns (all: seq<Action>)
    requires IsRun(INITIAL, actions, cfg)
    requires var w := Run(INITIAL, actions, cfg);
             w.tracked.Some? && w.tracked.value.TrustedOriginals() && w.tracked.value.state == Verified && w.pending.None?
    ensures IsRun(INITIAL, all, cfg)
    ensures var w := Run(INITIAL, all, cfg); w.tracked.Some? && w.tracked.value.state == Throttled && w.pending.None?
  {
    hide Run, IsRun, Outcomed, Committed;
    var cooldown := cfg.Settings(ModeThrottle).Cooldown();
    RunKeepsStateInv(actions, cfg);
    var c := Run(INITIAL, actions, cfg).tracked.value;
    RunExtends(actions, Tick(cooldown + 1), cfg);
    all := actions + [Tick(cooldown + 1)];
    var now := Run(INITIAL, all, cfg).now;
    FailingTwiceThrottlesIff(c, cfg.Settings(ModeThrottle), Timer, "", Timer, "", now, now);
    var fail := Verification(Completed(true), ModeThrottle, Timer, "");
    RunExtends(all, fail, cfg);
    all := all + [fail];
    RunExtends(all, fail, cfg);
    all := SettlesPending(all + [fail], cfg);
  }

  // ---------- Errors and outages ----------

  // The errors since the last completed verification or restart.
  function ErrorsSince(actions: seq<Action>): nat
  {
    if actions == [] then 0
    else
      var before, a := actions[..|actions| - 1], actions[|actions| - 1];
      if a.Restart? || (a.Verification? && a.outcome.Completed?) then 0
      else if a.Verification? && a.outcome.Error? then ErrorsSince(before) + 1
      else ErrorsSince(before)
  }

  lemma ErrorsStep(w: World, a: Action, cfg: Config)
    ensures var w' := Step(w, a, cfg);
            && (a.Restart? ==> w'.tracked.None?)
            && (w'.tracked.Some? ==>
                  var n, n' := if w.tracked.Some? then w.tracked.value.consecutiveErrors else 0, w'.tracked.value.consecutiveErrors;
                  if a.Verification? && a.outcome.Completed? then n' == 0
                  else n' <= if a.Verification? && a.outcome.Error? then n + 1 else n)
  {
    hide LooksThrottled, ThrottleUpdate, LimitsOf, Apply, EncodeAnnotation, DecodeAnnotation;
  }

  lemma {:induction false} ErrorsCounted(actions: seq<Action>, cfg: Config)
    ensures var w := Run(INITIAL, actions, cfg); w.tracked.Some? ==> w.tracked.value.consecutiveErrors <= ErrorsSince(actions)
  {
    hide Step;
    if actions != [] {
      var before := actions[..|actions| - 1];
      ErrorsCounted(before, cfg);
      ErrorsStep(Run(INITIAL, before, cfg), actions[|actions| - 1], cfg);
    }
  }

  // A verification that does not complete changes the state only by the third error with no
  // completed verification or restart in between, and only to degraded.
  lemma DegradedByThreeErrors(actions: seq<Action>, a: Action, cfg: Config)
    requires a.Verification? && !a.outcome.Completed?
    requires Run(INITIAL, actions, cfg).tracked.Some?
    ensures var w, w' := Run(INITIAL, actions, cfg), Step(Run(INITIAL, actions, cfg), a, cfg);
            && w'.tracked.Some? && w'.pending.None?
            && (w'.tracked.value.state != w.tracked.value.state ==>
                  && a.outcome.Error? && ErrorsSince(actions + [a]) >= ERROR_THRESHOLD
                  && w'.tracked.value.state == Degraded)
  {
    ErrorsCounted(actions, cfg);
    assert (actions + [a])[..|actions|] == actions;
  }

  function Errors(actions: seq<Action>): nat
  {
    if actions == [] then 0
    else
      var a := actions[|actions| - 1];
      Errors(actions[..|actions| - 1]) + if a.Verification? && a.outcome.Error? then 1 else 0
  }

  /**
   Any number of verifications that do not complete degrades a container exactly when the errors
   among them, with those before, reach three.
   */
  lemma {:induction false} ErrorsDegradeExactly(w: World, actions: seq<Action>, cfg: Config)
    requires w.tracked.Some? && (w.tracked.value.state == Verified || w.tracked.value.state == Skipped)
    requires w.tracked.value.consecutiveErrors < ERROR_THRESHOLD
    requires forall i :: 0 <= i < |actions| ==> actions[i].Verification? && !actions[i].outcome.Completed?
    ensures var (c, w') := (w.tracked.value, Run(w, actions, cfg));
            && w'.tracked.Some? && w'.tracked.value.consecutiveErrors == c.consecutiveErrors + Errors(actions)
            && w'.tracked.value.state == if c.consecutiveErrors + Errors(actions) >= ERROR_THRESHOLD then Degraded else c.state
  {
    if actions != [] {
      ErrorsDegradeExactly(w, actions[..|actions| - 1], cfg);
    }
  }

  /**
   A persistent outage never degrades a container: any number of incomplete or cancelled
   verifications keeps everything but the count of the incomplete ones.
   */
  lemma {:induction false} OutageKeepsState(w: World, actions: seq<Action>, cfg: Config)
    requires w.tracked.Some? && w.pending.None? && !w.applied
    requires forall i :: 0 <= i < |actions| ==>
               actions[i].Verification? && (actions[i].outcome == Cancelled || actions[i].outcome == Incomplete)
    ensures var w' := Run(w, actions, cfg);
            && w'.tracked.Some?
            && w' == w.(tracked := Some(w.tracked.value.(consecutiveIncomplete := w'.tracked.value.consecutiveIncomplete)))
  {
    if actions != [] {
      OutageKeepsState(w, actions[..|actions| - 1], cfg);
    }
  }

  // ---------- Restarts ----------

  /**
   Recovery after a restart keeps the invariant exactly when the annotation holds the desired
   limits: when the container was not resized since its creation, or back to its first limits.
   */
  lemma RecoverySafeIff(w: World, a: Action, cfg: Config)
    requires Inv(w, cfg) && Enabled(w, a) && a.Synchronize? && w.tracked.None?
    ensures Inv(Step(w, a, cfg), cfg) <==> AnnotationCurrent(w)
  {
    if AnnotationCurrent(w) {
      RecoveryKeepsInv(w, a, cfg);
    } else {
      DecodedLimits(w.annotation.value);
    }
  }

  // The steps of a throttle or a rollback: a verification, the update and its confirmation.
  function Remediated(w: World, degraded: bool, cfg: Config): World
  {
    var w1 := Step(w, Verification(Completed(degraded), ModeThrottle, Timer, ""), cfg);
    Step(Step(w1, RuntimeApplies, cfg), Commit, cfg)
  }

  // A container after a completed verification.
  function Settled(c: Container): Container
  {
    c.(consecutiveErrors := 0, consecutiveIncomplete := 0, awaitingFirstResult := false)
  }

  lemma ThrottleConfirmed(w: World, cfg: Config)
    requires w.tracked.Some? && w.tracked.value.state == Degraded && w.tracked.value.TrustedOriginals()
    requires CooldownElapsed(w.tracked.value, cfg.Settings(ModeThrottle), w.now)
    ensures var c := w.tracked.value;
            Remediated(w, true, cfg) ==
            w.(tracked := Some(Settled(c).(state := Throttled, lastRemediation := Some(w.now), lastTriggerHash := "")),
               runtime := Apply(w.runtime, ThrottleUpdate(c.original.value, cfg.percents)),
               throttles := w.throttles + [w.now], pending := None, applied := false)
  {
    hide ThrottleUpdate, Apply;
  }

  lemma RollbackConfirmed(w: World, cfg: Config)
    requires w.tracked.Some? && w.tracked.value.state == Throttled && w.tracked.value.TrustedOriginals()
    ensures var c := w.tracked.value;
            Remediated(w, false, cfg) ==
            w.(tracked := Some(Settled(c).(state := Verified)),
               runtime := Apply(w.runtime, LimitsOf(c.original.value)), pending := None, applied := false)
  {
    hide LimitsOf, Apply;
  }

  /**
   From every state a passing verification, with its update confirmed if it asks for one, verifies
   the container. In a calm run it leaves it with the desired limits exactly when its originals
   are trusted or it had those limits before.
   */
  lemma PassRestores(w: World, cfg: Config)
    requires w.tracked.Some? && w.pending.None?
    ensures var f := Remediated(w, false, cfg);
            && f.tracked.Some? && f.tracked.value.state == Verified
            && (Inv(w, cfg) ==>
                  (LimitsOf(f.runtime) == w.desired <==>
                     w.tracked.value.TrustedOriginals() || LimitsOf(w.runtime) == w.desired))
  {
    hide Outcomed, LooksThrottled, ThrottleUpdate, ThrottledLimits, DecodeAnnotation, LimitsOf, Apply, Override;
    PassingRecovers(w.tracked.value, cfg.Settings(ModeThrottle), Timer, "", w.now, w.now);
    VerificationEffects(w.tracked.value, Completed(false), cfg.Settings(ModeThrottle), Timer, "", w.now);
    if Inv(w, cfg) {
      UpdateEffects(LimitsOf(w.runtime), w.desired, cfg.percents);
    }
  }

  /**
   From every state that is neither degraded nor throttled, two failing verifications by the timer,
   with their update confirmed if they ask for one, throttle the container exactly when it has
   trusted originals and its cooldown elapsed, in a calm run to the throttled form of the desired
   limits, and else leave it degraded with its limits.
   */
  lemma FailingTwice(w: World, cfg: Config)
    requires w.tracked.Some? && w.pending.None?
    requires w.tracked.value.state == Verified || w.tracked.value.state == Skipped
    ensures var c := w.tracked.value;
            var failing := Step(w, Verification(Completed(true), ModeThrottle, Timer, ""), cfg);
            var f := Remediated(failing, true, cfg);
            && f.tracked.Some?
            && if c.TrustedOriginals() && CooldownElapsed(c, cfg.Settings(ModeThrottle), w.now)
               then && f.tracked.value.state == Throttled
                    && (Inv(w, cfg) ==> LimitsOf(f.runtime) == ThrottledForm(w.desired, cfg.percents))
               else f.tracked.value.state == Degraded && f.runtime == w.runtime
  {
    hide Outcomed, LooksThrottled, ThrottleUpdate, ThrottledLimits, DecodeAnnotation, LimitsOf, Apply, Override;
    var c := w.tracked.value;
    FailingTwiceThrottlesIff(c, cfg.Settings(ModeThrottle), Timer, "", Timer, "", w.now, w.now);
    if Inv(w, cfg) && c.original.Some? {
      UpdateEffects(LimitsOf(w.runtime), w.desired, cfg.percents);
      UpdatesFromLimits(c.original.value, cfg.percents);
    }
  }

  function Restarted(w: World, digest: string, cfg: Config): World
  {
    Step(Step(w, Restart, cfg), Synchronize(digest, Some(w.runtime)), cfg)
  }

  /**
   An admitted container is verified with its resources as trusted originals, and is annotated with
   its limits if it has any; one admitted without a digest is skipped.
   */
  lemma AdmissionRecords(w: World, digest: string, resources: Option<Resources>, cfg: Config)
    ensures var a := Step(w, Admit(digest, resources), cfg);
            && a.tracked.Some? && a.tracked.value.state == Verified && a.tracked.value.original == resources
            && (a.tracked.value.TrustedOriginals() <==> resources.Some?) && !a.tracked.value.awaitingFirstResult
            && a.tracked.value.lastRemediation.None? && a.tracked.value.consecutiveErrors == 0
            && (a.annotation == if resources.Some? && a.desired != LimitsOf(EMPTY) then Some(a.desired) else None)
            && a.runtime == Given(resources) && a.desired == LimitsOf(a.runtime)
    ensures var a := Step(w, AdmitWithoutDigest(digest, resources), cfg);
            && a.tracked.Some? && a.tracked.value.state == Skipped && a.tracked.value.original.None?
            && !a.tracked.value.recoveredOnRestart && !a.tracked.value.awaitingFirstResult
            && a.runtime == Given(resources) && a.desired == LimitsOf(a.runtime)
  {
  }

  /**
   Pre-warming degrades a container exactly when it is verified, awaits its first result, which is
   for its digest and failed, and remediation is not disabled. It changes no other state, and the
   first result ends the waiting. A container recovered after a restart awaits it.
   */
  lemma PrewarmDecides(w: World, image: string, verified: bool, mode: Mode, hash: string, cfg: Config)
    requires w.tracked.Some?
    ensures var c := w.tracked.value;
            var w' := Step(w, Prewarm(image, verified, mode, hash), cfg);
            var first := c.awaitingFirstResult && c.digest == image;
            && w'.tracked.Some?
            && (w'.tracked.value.state == Degraded <==>
                  c.state == Degraded || (first && c.state == Verified && !verified && mode != ModeDisabled))
            && (w'.tracked.value.state != Degraded ==> w'.tracked.value.state == c.state)
            && (w'.tracked.value.awaitingFirstResult <==> c.awaitingFirstResult && !first)
            && w' == w.(tracked := w'.tracked)
    ensures var c := Restarted(w, image, cfg).tracked; c.Some? && c.value.awaitingFirstResult && c.value.digest == image
  {
    hide LooksThrottled, DecodeAnnotation;
    FirstResult(w.tracked.value, image, verified, cfg.Settings(mode), hash);
  }

  /**
   When remediation is disabled, a throttled container with trusted originals is released: once the
   runtime confirms, it is degraded, in a calm run with the desired limits. No other container is.
   */
  lemma ReleaseRestores(w: World, cfg: Config)
    requires w.tracked.Some? && w.pending.None?
    ensures var c := w.tracked.value;
            var w1 := Step(w, StartRelease, cfg);
            var f := Step(Step(w1, RuntimeApplies, cfg), Commit, cfg);
            && (w1.pending.Some? <==> c.state == Throttled && c.TrustedOriginals())
            && f.tracked == Some(if w1.pending.Some? then c.(state := Degraded) else c)
            && (w1.pending.Some? && Inv(w, cfg) ==> LimitsOf(f.runtime) == w.desired)
            && (w1.pending.None? ==> f.runtime == w.runtime)
  {
    hide LooksThrottled, ThrottleUpdate, ThrottledLimits, DecodeAnnotation, LimitsOf, Apply, Override;
    if Inv(w, cfg) {
      UpdateEffects(LimitsOf(w.runtime), w.desired, cfg.percents);
    }
  }

  /**
   An unresized throttled container survives a plugin restart: it is recovered as throttled, and
   the next passing verification, once the runtime confirms its update, restores the limits.
   */
  lemma RestartRestoresLimits(w: World, digest: string, cfg: Config)
    requires Inv(w, cfg) && w.phase == Running
    requires w.annotation == Some(w.desired)
    requires LimitsOf(w.runtime) != w.desired
    ensures var r := Restarted(w, digest, cfg);
            && r.tracked.Some? && r.tracked.value.state == Throttled && r.tracked.value.TrustedOriginals()
            && var f := Remediated(r, false, cfg);
               f.tracked.Some? && f.tracked.value.state == Verified && LimitsOf(f.runtime) == w.desired
  {
    hide LooksThrottled, ThrottleUpdate, ThrottledLimits, DecodeAnnotation, LimitsOf, Apply, Override;
    DecodedLimits(w.desired);
    LooksThrottledDecides(w.runtime, DecodeAnnotation(w.desired), cfg.percents);
    UpdateEffects(LimitsOf(w.runtime), w.desired, cfg.percents);
  }

  // Without an annotation any container is recovered as verified, with the limits it runs with as
  // untrusted originals, and a passing verification leaves them.
  lemma RestartWithoutAnnotation(w: World, digest: string, cfg: Config)
    requires w.annotation.None?
    ensures var r := Restarted(w, digest, cfg);
            var f := Remediated(r, false, cfg);
            && r.tracked.Some? && r.tracked.value.state == Verified && !r.tracked.value.TrustedOriginals()
            && f.tracked.Some? && f.tracked.value.state == Verified && !f.tracked.value.TrustedOriginals()
            && f.runtime == w.runtime && f.desired == w.desired
  {
    hide LooksThrottled, ThrottleUpdate, DecodeAnnotation, LimitsOf, Apply;
  }

  /**
   In a calm run a container that runs throttled gets its limits back from a restart and a
   confirmed passing verification exactly when it has an annotation. Without one it is recovered as
   verified, with its throttled limits as untrusted originals, and keeps them.
   */
  lemma RestartRestoresIff(w: World, digest: string, cfg: Config)
    requires Inv(w, cfg) && w.phase == Running && AnnotationCurrent(w)
    requires LimitsOf(w.runtime) != w.desired
    ensures var r := Restarted(w, digest, cfg);
            var f := Remediated(r, false, cfg);
            && r.tracked.Some? && r.tracked.value.state == (if w.annotation.Some? then Throttled else Verified)
            && (LimitsOf(f.runtime) == w.desired <==> w.annotation.Some?)
            && (w.annotation.None? ==> f.runtime == w.runtime && !f.tracked.value.TrustedOriginals())
  {
    hide Restarted, Remediated, Inv, LimitsOf;
    if w.annotation.Some? {
      RestartRestoresLimits(w, digest, cfg);
    } else {
      RestartWithoutAnnotation(w, digest, cfg);
    }
  }

  function WithQuota(quota: int64): Resources
  {
    Resources(Some(Cpu(Some(quota), None, 0)), None, 0)
  }

  // Created with one quota, resized to another, then the plugin restarts.
  function ResizedAndRestarted(digest: string, cfg: Config): World
  {
    var created := Step(INITIAL, Admit(digest, Some(WithQuota(50000))), cfg);
    Restarted(Step(created, Resize(LimitsOf(WithQuota(200000)), WithQuota(200000)), cfg), digest, cfg)
  }

  lemma RecoveredFromStale(digest: string, cfg: Config)
    requires cfg == Config(Percents(10, 100), 300)
    ensures ResizedAndRestarted(digest, cfg) ==
            World(Running, WithQuota(200000), Some(LimitsOf(WithQuota(50000))),
                  Some(Container(digest, Verified, None, "", Some(WithQuota(50000)), false, true, 0, 0)),
                  None, false, 0, LimitsOf(WithQuota(200000)), [])
  {
    var created := Step(INITIAL, Admit(digest, Some(WithQuota(50000))), cfg);
    var resized := Step(created, Resize(LimitsOf(WithQuota(200000)), WithQuota(200000)), cfg);
    assert resized.tracked == Some(Admitted(digest, Some(WithQuota(200000))));
  }

  /**
   A restart after a resize undoes the resize: the annotation still records the quota of the
   creation, which the recovery trusts. The next throttle and rollback leave the container with
   that quota instead of the one it was resized to.
   */
  lemma RestartUndoesResize(digest: string, cfg: Config)
    requires cfg == Config(Percents(10, 100), 300)
    ensures var failing := Step(ResizedAndRestarted(digest, cfg), Verification(Completed(true), ModeThrottle, Timer, ""), cfg);
            var throttled := Remediated(failing, true, cfg);
            var restored := Remediated(throttled, false, cfg);
            && throttled.tracked.Some? && throttled.tracked.value.state == Throttled
            && throttled.runtime == WithQuota(5000)
            && restored.tracked.Some? && restored.tracked.value.state == Verified
            && restored.runtime == WithQuota(50000)
            && restored.desired == LimitsOf(WithQuota(200000))
  {
    hide ResizedAndRestarted, LooksThrottled, Remediated;
    RecoveredFromStale(digest, cfg);
    assert ThrottleUpdate(WithQuota(50000), cfg.percents) == Limits(Some(5000), None, None);
    var failing := Step(ResizedAndRestarted(digest, cfg), Verification(Completed(true), ModeThrottle, Timer, ""), cfg);
    ThrottleConfirmed(failing, cfg);
    RollbackConfirmed(Remediated(failing, true, cfg), cfg);
  }

  // Found running, without an annotation, then resized: the report becomes its trusted originals.
  function FoundAndResized(digest: string, cfg: Config): World
  {
    var found := Step(Step(INITIAL, CreatedUnseen(WithQuota(50000)), cfg), Synchronize(digest, Some(WithQuota(50000))), cfg);
    Step(found, Resize(LimitsOf(WithQuota(200000)), WithQuota(200000)), cfg)
  }

  lemma FoundAndResizedIs(digest: string, cfg: Config)
    requires cfg == Config(Percents(10, 100), 300)
    ensures FoundAndResized(digest, cfg) ==
            World(Running, WithQuota(200000), None,
                  Some(Container(digest, Verified, None, "", Some(WithQuota(200000)), false, true, 0, 0)),
                  None, false, 0, LimitsOf(WithQuota(200000)), [])
  {
    LooksThrottledIff(WithQuota(200000), WithQuota(50000), cfg.percents);
    hide LooksThrottled;
  }

  /**
   Such a container loses its limits in a restart while it is throttled: it is recovered as
   verified, and the passing verification leaves the throttled quota.
   */
  lemma RestartKeepsThrottle(digest: string, cfg: Config)
    requires cfg == Config(Percents(10, 100), 300)
    ensures var failing := Step(FoundAndResized(digest, cfg), Verification(Completed(true), ModeThrottle, Timer, ""), cfg);
            var throttled := Remediated(failing, true, cfg);
            var passed := Remediated(Restarted(throttled, digest, cfg), false, cfg);
            && throttled.tracked.Some? && throttled.tracked.value.state == Throttled
            && throttled.runtime == WithQuota(20000)
            && passed.tracked.Some? && passed.tracked.value.state == Verified
            && passed.runtime == WithQuota(20000) && passed.desired == LimitsOf(WithQuota(200000))
  {
    hide FoundAndResized, LooksThrottled, Restarted, Remediated;
    FoundAndResizedIs(digest, cfg);
    assert ThrottleUpdate(WithQuota(200000), cfg.percents) == Limits(Some(20000), None, None);
    var failing := Step(FoundAndResized(digest, cfg), Verification(Completed(true), ModeThrottle, Timer, ""), cfg);
    ThrottleConfirmed(failing, cfg);
    RestartWithoutAnnotation(Remediated(failing, true, cfg), digest, cfg);
  }

  // Created with one quota, then resized to its throttled form.
  function ResizedToThrottled(digest: string, cfg: Config): World
  {
    Step(Step(INITIAL, Admit(digest, Some(WithQuota(50000))), cfg), Resize(LimitsOf(WithQuota(5000)), WithQuota(5000)), cfg)
  }

  lemma ResizeIgnored(digest: string, cfg: Config)
    requires cfg == Config(Percents(10, 100), 300)
    ensures Mistaken(Step(INITIAL, Admit(digest, Some(WithQuota(50000))), cfg), WithQuota(5000), cfg)
    ensures ResizedToThrottled(digest, cfg) ==
            World(Running, WithQuota(5000), Some(LimitsOf(WithQuota(50000))),
                  Some(Admitted(digest, Some(WithQuota(50000)))), None, false, 0, LimitsOf(WithQuota(5000)), [])
  {
    var original, p := WithQuota(50000), cfg.percents;
    assert ThrottleUpdate(original, p) == Limits(Some(5000), None, None);
    LooksThrottledIff(WithQuota(5000), original, p);
    hide LooksThrottled;
  }

  /**
   A resize to exactly the throttled quota is taken for the plugin's own throttle: the originals
   stay, and the next throttle and rollback undo the resize.
   */
  lemma ResizeTakenForThrottle(digest: string, cfg: Config)
    requires cfg == Config(Percents(10, 100), 300)
    ensures Mistaken(Step(INITIAL, Admit(digest, Some(WithQuota(50000))), cfg), WithQuota(5000), cfg)
    ensures var resized := ResizedToThrottled(digest, cfg);
            var failing := Step(resized, Verification(Completed(true), ModeThrottle, Timer, ""), cfg);
            var restored := Remediated(Remediated(failing, true, cfg), false, cfg);
            && resized.tracked == Some(Admitted(digest, Some(WithQuota(50000)))) && resized.runtime == WithQuota(5000)
            && restored.runtime == WithQuota(50000) && restored.desired == LimitsOf(WithQuota(5000))
  {
    hide ResizedToThrottled, LooksThrottled, Mistaken, Remediated;
    ResizeIgnored(digest, cfg);
    assert ThrottleUpdate(WithQuota(50000), cfg.percents) == Limits(Some(5000), None, None);
    var failing := Step(ResizedToThrottled(digest, cfg), Verification(Completed(true), ModeThrottle, Timer, ""), cfg);
    ThrottleConfirmed(failing, cfg);
    RollbackConfirmed(Remediated(failing, true, cfg), cfg);
  }

  function Sized(quota: int64, shares: uint64, memory: int64): Resources
  {
    Resources(Some(Cpu(Some(quota), Some(shares), 0)), Some(Memory(Some(memory), 0)), 0)
  }

  // A container that failed verification twice and is throttled.
  function ThrottledContainer(digest: string, cfg: Config): World
  {
    var created := Step(INITIAL, Admit(digest, Some(Sized(50000, 1024, 100000000))), cfg);
    Remediated(Step(created, Verification(Completed(true), ModeThrottle, Timer, ""), cfg), true, cfg)
  }

  lemma ThrottledContainerIs(digest: string, cfg: Config)
    requires cfg == Config(Percents(10, 100), 300)
    ensures var original := Sized(50000, 1024, 100000000);
            ThrottledContainer(digest, cfg) ==
            World(Running, Sized(5000, 102, 100000000), Some(LimitsOf(original)),
                  Some(Container(digest, Throttled, Some(0), "", Some(original), false, false, 0, 0)),
                  None, false, 0, LimitsOf(original), [0])
  {
    var original := Sized(50000, 1024, 100000000);
    assert ThrottleUpdate(original, cfg.percents) == Limits(Some(5000), Some(102), None);
    hide LooksThrottled, ThrottleUpdate, Remediated;
    var created := Step(INITIAL, Admit(digest, Some(original)), cfg);
    ThrottleConfirmed(Step(created, Verification(Completed(true), ModeThrottle, Timer, ""), cfg), cfg);
  }

  // Its shares alone are resized.
  function SharesResized(digest: string, cfg: Config): World
  {
    Step(ThrottledContainer(digest, cfg), Resize(Limits(None, Some(2048), None), Sized(5000, 2048, 100000000)), cfg)
  }

  lemma SharesResizedIs(digest: string, cfg: Config)
    requires cfg == Config(Percents(10, 100), 300)
    ensures Enabled(ThrottledContainer(digest, cfg), Resize(Limits(None, Some(2048), None), Sized(5000, 2048, 100000000)))
    ensures var resized := Sized(5000, 2048, 100000000);
            SharesResized(digest, cfg) ==
            World(Running, resized, Some(LimitsOf(Sized(50000, 1024, 100000000))),
                  Some(Container(digest, Degraded, Some(0), "", Some(resized), false, false, 0, 0)),
                  None, false, 0, LimitsOf(Sized(50000, 2048, 100000000)), [0])
  {
    hide ThrottledContainer, LooksThrottled;
    ThrottledContainerIs(digest, cfg);
    var original := Sized(50000, 1024, 100000000);
    assert ThrottleUpdate(original, cfg.percents) == Limits(Some(5000), Some(102), None);
    LooksThrottledIff(Sized(5000, 2048, 100000000), original, cfg.percents);
  }

  // After the cooldown the next failing verification throttles it again.
  function StackedContainer(digest: string, cfg: Config): World
  {
    Remediated(Step(SharesResized(digest, cfg), Tick(301), cfg), true, cfg)
  }

  lemma StackedContainerIs(digest: string, cfg: Config)
    requires cfg == Config(Percents(10, 100), 300)
    ensures var resized := Sized(5000, 2048, 100000000);
            StackedContainer(digest, cfg) ==
            World(Running, Sized(1000, 204, 100000000), Some(LimitsOf(Sized(50000, 1024, 100000000))),
                  Some(Container(digest, Throttled, Some(301), "", Some(resized), false, false, 0, 0)),
                  None, false, 301, LimitsOf(Sized(50000, 2048, 100000000)), [0, 301])
  {
    hide SharesResized, LooksThrottled, ThrottleUpdate, Remediated;
    SharesResizedIs(digest, cfg);
    StackedUpdate(cfg.percents);
    ThrottleConfirmed(Step(SharesResized(digest, cfg), Tick(301), cfg), cfg);
  }

  lemma StackedUpdate(p: Percents)
    requires p == Percents(10, 100)
    ensures ThrottleUpdate(Sized(5000, 2048, 100000000), p) == Limits(Some(1000), Some(204), None)
  {
  }

  /**
   A resize of one limit of a throttled container makes the throttled values of the others its
   originals: the next throttle stacks, and the rollback keeps the throttled quota.
   */
  lemma PartialResizeStacks(digest: string, cfg: Config)
    requires cfg == Config(Percents(10, 100), 300)
    ensures var resized, throttled := SharesResized(digest, cfg), StackedContainer(digest, cfg);
            var restored := Remediated(throttled, false, cfg);
            && resized.desired == LimitsOf(Sized(50000, 2048, 100000000))
            && throttled.runtime == Sized(1000, 204, 100000000)
            && restored.runtime == Sized(5000, 2048, 100000000)
            && restored.tracked.Some? && restored.tracked.value.state == Verified
            && restored.desired == resized.desired
  {
    hide SharesResized, StackedContainer, LooksThrottled, ThrottleUpdate, Remediated;
    SharesResizedIs(digest, cfg);
    StackedContainerIs(digest, cfg);
    RollbackConfirmed(StackedContainer(digest, cfg), cfg);
  }

  /**
   While memory is not throttled, a resize of the memory of a throttled container is mistaken for
   the plugin's own throttle, and the rollback undoes it.
   */
  lemma MemoryResizeUndone(digest: string, cfg: Config)
    requires cfg == Config(Percents(10, 100), 300)
    ensures var throttled := ThrottledContainer(digest, cfg);
            var resized := Step(throttled, Resize(Limits(None, None, Some(200000000)), Sized(5000, 102, 200000000)), cfg);
            var restored := Remediated(resized, false, cfg);
            && Enabled(throttled, Resize(Limits(None, None, Some(200000000)), Sized(5000, 102, 200000000)))
            && Mistaken(throttled, Sized(5000, 102, 200000000), cfg)
            && restored.runtime == Sized(50000, 1024, 100000000)
            && restored.desired == LimitsOf(Sized(50000, 1024, 200000000))
  {
    hide ThrottledContainer, LooksThrottled;
    ThrottledContainerIs(digest, cfg);
    var original := Sized(50000, 1024, 100000000);
    assert ThrottleUpdate(original, cfg.percents) == Limits(Some(5000), Some(102), None);
    LooksThrottledIff(Sized(5000, 102, 200000000), original, cfg.percents);
    hide ThrottleUpdate, Remediated;
    var throttled := ThrottledContainer(digest, cfg);
    RollbackConfirmed(Step(throttled, Resize(Limits(None, None, Some(200000000)), Sized(5000, 102, 200000000)), cfg), cfg);
  }
}
