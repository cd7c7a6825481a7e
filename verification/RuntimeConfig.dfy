/**
 Configurations passed by the runtime: the latest one is pending until it is applied in the
 background, and admissions in the namespaces that it enforces are denied until then.
 */
module RuntimeConfig {
  import opened Options

  datatype Mode = ModeDisabled | ModeWarn | ModeEnforce

  // A policy may override the global mode.
  datatype Policy = Policy(mode: Option<Mode>) {
    function EffectiveMode(global: Mode): Mode { if mode.Some? then mode.value else global }
  }

  type Policies = map<string, Policy>

  function PolicyFor(policies: Policies, namespace: string): Option<Policy>
  {
    if namespace in policies then Some(policies[namespace])
    else if "" in policies then Some(policies[""])
    else None
  }

  // ---------- Which namespaces a configuration enforces ----------

  // A configuration as the runtime passed it, with its mode, where its policies come from, and
  // the local policies unless they could not be loaded.
  datatype Config = Config(raw: string, verification: Mode, ociPolicies: bool, local: Option<Policies>)

  datatype Enforcement = Enforcement(all: bool, global: Mode, policies: Policies)

  // Determined without the network, so unknown policies enforce every namespace.
  function NewEnforcement(c: Config): Enforcement
  {
    match c.verification
    case ModeDisabled => Enforcement(false, ModeDisabled, map[])
    case ModeEnforce => Enforcement(true, ModeEnforce, map[])
    case ModeWarn =>
      if c.ociPolicies || c.local.None? then Enforcement(true, ModeWarn, map[])
      else Enforcement(false, ModeWarn, c.local.value)
  }

  predicate Enforces(e: Enforcement, namespace: string)
  {
    e.all ||
    var pol := PolicyFor(e.policies, namespace);
    pol.Some? && pol.value.EffectiveMode(e.global) == ModeEnforce
  }

  // What the verifier does in a namespace once the configuration is applied with its policies.
  predicate VerifierEnforces(c: Config, policies: Policies, namespace: string)
  {
    c.verification != ModeDisabled &&
    var pol := PolicyFor(policies, namespace);
    (if pol.Some? then pol.value.EffectiveMode(c.verification) else c.verification) == ModeEnforce
  }

  // The policies that a configuration may turn out to have: loaded local ones are known.
  predicate PossiblePolicies(c: Config, policies: Policies)
  {
    !c.ociPolicies && c.local.Some? ==> policies == c.local.value
  }

  /**
   The namespaces that a pending configuration is taken to enforce include all that the verifier
   will enforce, whatever the policies turn out to be; with loaded local policies in warn mode they
   are exactly those. A disabled configuration enforces none, one in enforce mode all, and one in
   warn mode all when its policies are unknown, else those whose policy, or without one the default
   policy, enforces.
   */
  lemma EnforcementFailsClosed(c: Config, policies: Policies, namespace: string)
    requires PossiblePolicies(c, policies)
    ensures VerifierEnforces(c, policies, namespace) ==> Enforces(NewEnforcement(c), namespace)
    ensures c.verification == ModeWarn && !c.ociPolicies && c.local.Some? ==>
              (VerifierEnforces(c, policies, namespace) <==> Enforces(NewEnforcement(c), namespace))
    ensures Enforces(NewEnforcement(c), namespace) <==>
              || c.verification == ModeEnforce
              || (c.verification == ModeWarn &&
                  (c.ociPolicies || c.local.None?
                   || (namespace in policies && policies[namespace].mode == Some(ModeEnforce))
                   || (namespace !in policies && "" in policies && policies[""].mode == Some(ModeEnforce))))
  {
  }

  // ---------- The state ----------

  // A pending configuration has an identity: the same configuration may be passed again.
  datatype Pending = Pending(id: nat, config: Config)

  datatype State = State(pending: Option<Pending>, lastApplied: Option<string>, failure: bool)

  // A configuration arrives. It is ignored while the same one is pending, or is the one applied
  // last; else it replaces the pending one, which is thereby superseded.
  predicate Ignored(s: State, c: Config)
  {
    if s.pending.Some? then s.pending.value.config.raw == c.raw else s.lastApplied == Some(c.raw)
  }

  function Configured(s: State, c: Config, id: nat): (State, Option<nat>)
  {
    if Ignored(s, c) then (s, None)
    else (State(Some(Pending(id, c)), s.lastApplied, false),
          if s.pending.Some? then Some(s.pending.value.id) else None)
  }

  // The apply of a configuration ended; meanwhile it may have been superseded.
  function Attempted(s: State, p: Pending, ok: bool): State
  {
    if !ok then s.(failure := true)
    else if s.pending == Some(p) then State(None, Some(p.config.raw), false)
    else s
  }

  predicate Denied(s: State, namespace: string)
  {
    s.pending.Some? && Enforces(NewEnforcement(s.pending.value.config), namespace)
  }

  class RuntimeConfigState {
    var pending: Option<Pending>
    var lastApplied: Option<string>
    var failure: bool
    var nextId: nat
    // How often the superseded channel of each configuration was closed.
    var closings: seq<nat>

    // Closings are recorded for the configurations installed so far; the pending one's is open.
    ghost predicate Valid()
      reads this
    {
      && |closings| == nextId
      && (forall i :: 0 <= i < |closings| ==> closings[i] <= 1)
      && (pending.Some? ==> pending.value.id < nextId && closings[pending.value.id] == 0)
    }

    constructor ()
      ensures Valid() && Value() == State(None, None, false) && nextId == 0
    {
      pending, lastApplied, failure, nextId, closings := None, None, false, 0, [];
    }

    function Value(): State
      reads this
    {
      State(pending, lastApplied, failure)
    }

    // Installs a configuration; an apply in the background follows for a new one.
    method ApplyRuntimeConfig(c: Config) returns (installed: Option<Pending>)
      requires Valid()
      modifies this
      ensures Valid()
      ensures Value() == Configured(old(Value()), c, old(nextId)).0
      ensures if Ignored(old(Value()), c) then installed == None && nextId == old(nextId) && closings == old(closings)
              else && installed == Some(Pending(old(nextId), c)) && nextId == old(nextId) + 1
                   && closings == (match old(pending)
                                   case Some(p) => old(closings)[p.id := 1]
                                   case None => old(closings)) + [0]
    {
      if pending.Some? && pending.value.config.raw == c.raw {
        return None;
      }
      if pending.None? && lastApplied == Some(c.raw) {
        return None;
      }
      var previous := pending;
      var added := Pending(nextId, c);
      pending, nextId := Some(added), nextId + 1;
      if previous.Some? {
        closings := closings[previous.value.id := closings[previous.value.id] + 1];
      }
      closings := closings + [0];
      failure := false;
      return Some(added);
    }

    // The end of an apply of a configuration.
    method FinishAttempt(p: Pending, ok: bool)
      requires Valid()
      modifies this`pending, this`lastApplied, this`failure
      ensures Valid() && Value() == Attempted(old(Value()), p, ok)
    {
      if !ok {
        failure := true;
        return;
      }
      if pending == Some(p) {
        pending, failure, lastApplied := None, false, Some(p.config.raw);
      }
    }

    method PendingEnforcing(namespace: string) returns (denied: bool)
      ensures denied == Denied(Value(), namespace)
    {
      return pending.Some? && Enforces(NewEnforcement(pending.value.config), namespace);
    }
  }

  // ---------- Runs ----------

  // The background apply of a configuration.
  datatype Worker = Trying | Applying | Waiting | Stopped

  // `effective` is the configuration that the verifier runs, by identity; `configs` are all that
  // were installed, with whether they were applied and whether an apply of them failed.
  datatype World = World(
    state: State,
    configs: seq<Config>,
    closings: seq<nat>,
    workers: seq<Worker>,
    applied: seq<bool>,
    failed: seq<bool>,
    effective: Option<nat>)

  datatype Action =
    | Configure(config: Config)
    | Begin(i: nat)
    | Finish(i: nat, ok: bool)
    | Retry(i: nat)
    | Stop(i: nat)

  const INITIAL := World(State(None, None, false), [], [], [], [], [], None)

  // Applies are serialized. A waiting apply is retried, or stops when its configuration is
  // superseded or the plugin is closed, and an apply may end by its cancellation.
  predicate Enabled(w: World, a: Action)
  {
    match a
    case Configure(_) => true
    case Begin(i) => i < |w.workers| && w.workers[i] == Trying && Applying !in w.workers
    case Finish(i, _) => i < |w.workers| && i < |w.configs| && w.workers[i] == Applying
    case Retry(i) => i < |w.workers| && w.workers[i] == Waiting
    case Stop(i) => i < |w.workers| && w.workers[i] == Waiting
  }

  function Step(w: World, a: Action): World
    requires Enabled(w, a)
  {
    match a
    case Configure(c) =>
      var (state, superseded) := Configured(w.state, c, |w.configs|);
      if Ignored(w.state, c) then w
      else
        World(state, w.configs + [c],
              (if superseded.Some? && superseded.value < |w.closings|
               then w.closings[superseded.value := w.closings[superseded.value] + 1] else w.closings) + [0],
              w.workers + [Trying], w.applied + [false], w.failed + [false], w.effective)
    case Begin(i) =>
      // A superseded configuration is left to the apply of its successor.
      var current := w.state.pending.Some? && w.state.pending.value.id == i;
      w.(workers := w.workers[i := if current then Applying else Stopped])
    case Finish(i, ok) =>
      var p := Pending(i, w.configs[i]);
      w.(state := Attempted(w.state, p, ok),
         workers := w.workers[i := if ok then Stopped else Waiting],
         effective := if ok then Some(i) else w.effective,
         applied := if ok && w.state.pending == Some(p) && i < |w.applied| then w.applied[i := true] else w.applied,
         failed := if !ok && i < |w.failed| then w.failed[i := true] else w.failed)
    case Retry(i) => w.(workers := w.workers[i := Trying])
    case Stop(i) => w.(workers := w.workers[i := Stopped])
  }

  function Run(actions: seq<Action>): Option<World>
  {
    if actions == [] then Some(INITIAL)
    else
      var before := Run(actions[..|actions| - 1]);
      if before.Some? && Enabled(before.value, actions[|actions| - 1])
      then Some(Step(before.value, actions[|actions| - 1])) else None
  }

  predicate Shape(w: World)
  {
    |w.configs| == |w.closings| == |w.workers| == |w.applied| == |w.failed|
  }

  // Only the latest configuration can be pending, and it is until it is applied. Every other one
  // was superseded, once, or applied before the next one came.
  predicate SlotInv(w: World)
  {
    var n := |w.configs|;
    && Shape(w)
    && (w.state.pending.Some? ==> n > 0 && w.state.pending == Some(Pending(n - 1, w.configs[n - 1])))
    && (w.state.pending.None? && n > 0 ==> w.applied[n - 1])
    && (forall i :: 0 <= i < n - 1 ==> w.applied[i] != (w.closings[i] == 1))
    && (forall i :: 0 <= i < n ==> w.closings[i] <= 1)
    && (n > 0 ==> w.closings[n - 1] == 0)
    && (w.state.pending.Some? ==> !w.applied[n - 1])
  }

  // One apply runs at a time; once the latest configuration is applied no older one can be.
  predicate ApplyInv(w: World)
    requires Shape(w)
  {
    var n := |w.configs|;
    && (forall i, j :: 0 <= i < j < n ==> w.workers[i] != Applying || w.workers[j] != Applying)
    && (w.state.pending.None? && n > 0 ==>
          && w.effective == Some(n - 1) && w.state.lastApplied == Some(w.configs[n - 1].raw)
          && forall i :: 0 <= i < n ==> w.workers[i] != Applying)
    && (n == 0 ==> w.state.lastApplied.None?)
    // The latest configuration waits for an apply of an older one.
    && (forall i :: 0 <= i < n - 1 && w.workers[i] == Applying ==> !w.failed[n - 1])
  }

  predicate Inv(w: World)
  {
    SlotInv(w) && ApplyInv(w)
  }

  lemma ConfigureKeepsInv(w: World, a: Action)
    requires Inv(w) && Enabled(w, a) && a.Configure?
    ensures Inv(Step(w, a))
  {
  }

  lemma WorkerKeepsInv(w: World, a: Action)
    requires Inv(w) && Enabled(w, a) && !a.Configure?
    ensures Inv(Step(w, a))
  {
  }

  lemma {:induction false} RunKeepsInv(actions: seq<Action>)
    requires Run(actions).Some?
    ensures Inv(Run(actions).value)
  {
    if actions != [] {
      hide Inv, Step, Enabled;
      var before := actions[..|actions| - 1];
      RunKeepsInv(before);
      var w, a := Run(before).value, actions[|actions| - 1];
      if a.Configure? {
        ConfigureKeepsInv(w, a);
      } else {
        WorkerKeepsInv(w, a);
      }
    }
  }

  /**
   In every interleaving: a pending configuration leaves the slot only by being superseded, which
   closes its channel, or by its own successful apply.
   */
  lemma PendingLeavesOnly(actions: seq<Action>, a: Action)
    requires Run(actions).Some? && Enabled(Run(actions).value, a)
    requires Run(actions).value.state.pending.Some?
    ensures var w, w' := Run(actions).value, Step(Run(actions).value, a);
            var p := w.state.pending.value;
            || w'.state.pending == Some(p)
            || (a == Finish(p.id, true) && w'.state.pending.None? && w'.effective == Some(p.id) && !w'.state.failure)
            || (a.Configure? && w'.state.pending == Some(Pending(|w.configs|, a.config))
                && p.id < |w.closings| && p.id < |w'.closings| && w.closings[p.id] == 0 && w'.closings[p.id] == 1)
  {
    RunKeepsInv(actions);
    hide Run, ApplyInv;
  }

  /**
   In every interleaving: each superseded channel is closed at most once; with nothing pending the
   verifier runs the latest configuration; and so an admission that is not denied, in a namespace
   that the latest configuration enforces with its policies, happens under that configuration.
   */
  lemma AdmissionsAreSafe(actions: seq<Action>, policies: Policies, namespace: string)
    requires Run(actions).Some?
    ensures var w := Run(actions).value;
            && (forall i :: 0 <= i < |w.closings| ==> w.closings[i] <= 1)
            && (w.state.pending.None? && |w.configs| > 0 ==> w.effective == Some(|w.configs| - 1))
            && (Denied(w.state, namespace) <==>
                  w.state.pending.Some? && |w.configs| > 0 && Enforces(NewEnforcement(w.configs[|w.configs| - 1]), namespace))
            && (|w.configs| > 0 && !Denied(w.state, namespace) ==>
                  var latest := w.configs[|w.configs| - 1];
                  PossiblePolicies(latest, policies) && VerifierEnforces(latest, policies, namespace) ==>
                    w.effective == Some(|w.configs| - 1))
  {
    hide Enforces, VerifierEnforces, NewEnforcement, Run;
    RunKeepsInv(actions);
    var w := Run(actions).value;
    if |w.configs| > 0 {
      var latest := w.configs[|w.configs| - 1];
      if PossiblePolicies(latest, policies) {
        EnforcementFailsClosed(latest, policies, namespace);
      }
    }
  }

  // The configuration that the runtime passed last.
  function LatestPassed(actions: seq<Action>): Option<Config>
  {
    if actions == [] then None
    else if actions[|actions| - 1].Configure? then Some(actions[|actions| - 1].config)
    else LatestPassed(actions[..|actions| - 1])
  }

  /**
   In every interleaving the latest installed configuration is the one that the runtime passed last,
   by its text, and passing a configuration changes nothing exactly when it has that text.
   */
  lemma {:induction false} LatestInstalled(actions: seq<Action>, c: Config)
    requires Run(actions).Some?
    ensures var w := Run(actions).value;
            && (LatestPassed(actions).None? <==> w.configs == [])
            && (w.configs != [] ==> w.configs[|w.configs| - 1].raw == LatestPassed(actions).value.raw)
            && (Step(w, Configure(c)) == w <==> w.configs != [] && w.configs[|w.configs| - 1].raw == c.raw)
  {
    hide Inv, Step, Enabled;
    RunKeepsInv(actions);
    SameTextIgnored(Run(actions).value, c);
    if actions != [] {
      var before, a := actions[..|actions| - 1], actions[|actions| - 1];
      LatestInstalled(before, c);
      RunKeepsInv(before);
      InstallsPassed(Run(before).value, a);
    }
  }

  lemma InstallsPassed(w: World, a: Action)
    requires Inv(w) && Enabled(w, a)
    ensures var configs := Step(w, a).configs;
            if a.Configure? then configs != [] && configs[|configs| - 1].raw == a.config.raw else configs == w.configs
  {
    hide ApplyInv;
    if a.Configure? {
      SameTextIgnored(w, a.config);
    }
  }

  lemma SameTextIgnored(w: World, c: Config)
    requires Inv(w)
    ensures Step(w, Configure(c)) == w <==> w.configs != [] && w.configs[|w.configs| - 1].raw == c.raw
  {
  }

  // The recorded failure is meant to describe an apply of the pending configuration.
  predicate FailureDescribesPending(w: World)
    requires Shape(w)
  {
    w.state.failure && w.state.pending.Some? && w.state.pending.value.id < |w.failed| ==> w.failed[w.state.pending.value.id]
  }

  /**
   A failed apply records a failure that describes the pending configuration exactly when its own
   configuration was not superseded while the apply ran.
   */
  lemma FailureDescribesIff(actions: seq<Action>, i: nat)
    requires Run(actions).Some? && Enabled(Run(actions).value, Finish(i, false))
    ensures var w := Run(actions).value;
            && Shape(Step(w, Finish(i, false)))
            && (FailureDescribesPending(Step(w, Finish(i, false))) <==> i == |w.configs| - 1)
  {
    RunKeepsInv(actions);
    var w := Run(actions).value;
    hide Run;
    FailedStep(w, i);
  }

  lemma FailedStep(w: World, i: nat)
    requires Inv(w) && Enabled(w, Finish(i, false))
    ensures var w' := Step(w, Finish(i, false));
            Shape(w') && (FailureDescribesPending(w') <==> i == |w.configs| - 1)
  {
  }

  // Two configurations in a row can leave the second with the failure of the first, before an
  // apply of the second was tried.
  lemma FailureOfSuperseded(first: Config, second: Config)
    requires first.raw != second.raw
    ensures var actions := [Configure(first), Begin(0), Configure(second), Finish(0, false)];
            && Run(actions).Some?
            && var w := Run(actions).value;
               w.state.pending == Some(Pending(1, second)) && w.state.failure && w.workers == [Waiting, Trying]
  {
    var actions := [Configure(first), Begin(0), Configure(second), Finish(0, false)];
    hide Run;
    assert Run([]) == Some(INITIAL) by { RunOfNothing(); }
    var r1, r2, r3 := [Configure(first)], [Configure(first), Begin(0)], [Configure(first), Begin(0), Configure(second)];
    RunGrows([], Configure(first));
    assert [] + [Configure(first)] == r1;
    assert Run(r1).value.workers == [Trying];
    RunGrows(r1, Begin(0));
    assert r1 + [Begin(0)] == r2;
    assert Run(r2).value.workers == [Applying];
    RunGrows(r2, Configure(second));
    assert r2 + [Configure(second)] == r3;
    assert Run(r3).value.workers == [Applying, Trying];
    RunGrows(r3, Finish(0, false));
    assert r3 + [Finish(0, false)] == actions;
  }

  lemma RunOfNothing()
    ensures Run([]) == Some(INITIAL)
  {
  }

  lemma RunGrows(before: seq<Action>, a: Action)
    requires Run(before).Some? && Enabled(Run(before).value, a)
    ensures Run(before + [a]) == Some(Step(Run(before).value, a))
  {
    assert (before + [a])[..|before|] == before;
  }
}
