/**
 The concurrent collection of referrers: every schedule of its goroutines, with duplicate blobs
 counted once and an aggregate size limit that cancels the fetches that are left.
 */
module Collector {
  import opened Options
  import opened FetchOutcomes

  // What a candidate turns out to be: the bytes of a blob, or an error without one.
  datatype Candidate = Blob(id: nat) | Unreadable(error: Error) {
    function Outcome(): Outcome
      requires Unreadable?
    {
      ClassifyReferrer(error)
    }
  }

  // What verifying a blob gives: an attestation with a payload size, or a failure.
  datatype Checked = Good(size: nat) | Bad(failure: Outcome, error: Error)

  // The candidates, and the fixed result of every blob. Blobs are numbered.
  datatype Input = Input(candidates: seq<Candidate>, blobs: seq<Checked>) {
    predicate Valid()
    {
      && (forall i :: 0 <= i < |candidates| && candidates[i].Blob? ==> candidates[i].id < |blobs|)
      && (forall b :: 0 <= b < |blobs| && blobs[b].Bad? ==> Failure(blobs[b].failure))
    }

    predicate IsGood(b: nat) { b < |blobs| && blobs[b].Good? }

    // The distinct blobs that verify.
    function Wanted(): set<nat>
    {
      set i | 0 <= i < |candidates| && candidates[i].Blob? && IsGood(candidates[i].id) :: candidates[i].id
    }

    // The outcome that a candidate gives by itself.
    function OutcomeAt(i: nat): Outcome
      requires i < |candidates| && (candidates[i].Blob? ==> candidates[i].id < |blobs|)
    {
      match candidates[i]
      case Unreadable(_) => candidates[i].Outcome()
      case Blob(b) => OutcomeOf(blobs[b])
    }

    // The error that comes with it.
    function ErrorAt(i: nat): Error
      requires i < |candidates| && (candidates[i].Blob? ==> candidates[i].id < |blobs|)
    {
      match candidates[i]
      case Unreadable(error) => error
      case Blob(b) => ErrorOf(blobs[b])
    }
  }

  predicate Failure(o: Outcome)
  {
    o != Verified && o != Unverified
  }

  function OutcomeOf(c: Checked): Outcome
  {
    match c case Good(_) => Verified case Bad(failure, _) => failure
  }

  function ErrorOf(c: Checked): Error
  {
    match c case Good(_) => {} case Bad(_, error) => error
  }

  // ---------- Sizes ----------

  // The total payload size of a set of blobs.
  function TotalSize(blobs: seq<Checked>, chosen: set<nat>): nat
  {
    if blobs == [] then 0
    else
      var n := |blobs| - 1;
      TotalSize(blobs[..n], chosen) + if n in chosen && blobs[n].Good? then blobs[n].size else 0
  }

  lemma {:induction false} TotalSizeAdd(blobs: seq<Checked>, chosen: set<nat>, b: nat)
    requires b !in chosen
    ensures TotalSize(blobs, chosen + {b}) ==
            TotalSize(blobs, chosen) + if b < |blobs| && blobs[b].Good? then blobs[b].size else 0
  {
    if blobs != [] {
      var n := |blobs| - 1;
      if b == n {
        TotalSizeIgnores(blobs[..n], chosen, b);
      } else {
        TotalSizeAdd(blobs[..n], chosen, b);
      }
    }
  }

  lemma {:induction false} TotalSizeIgnores(blobs: seq<Checked>, chosen: set<nat>, b: nat)
    requires |blobs| <= b
    ensures TotalSize(blobs, chosen + {b}) == TotalSize(blobs, chosen)
  {
    if blobs != [] {
      TotalSizeIgnores(blobs[..|blobs| - 1], chosen, b);
    }
  }

  lemma {:induction false} TotalSizeMonotone(blobs: seq<Checked>, some: set<nat>, more: set<nat>)
    requires some <= more
    ensures TotalSize(blobs, some) <= TotalSize(blobs, more)
  {
    if blobs != [] {
      TotalSizeMonotone(blobs[..|blobs| - 1], some, more);
    }
  }

  // ---------- Blob set and slots ----------

  class BlobSet {
    var hashes: set<nat>

    constructor ()
      ensures hashes == {}
    {
      hashes := {};
    }

    // Reports whether the blob was not seen before.
    method Add(blob: nat) returns (added: bool)
      modifies this
      ensures added == (blob !in old(hashes))
      ensures hashes == old(hashes) + {blob}
    {
      if blob in hashes {
        return false;
      }
      hashes := hashes + {blob};
      return true;
    }
  }

  function Compact(slots: seq<Option<nat>>): seq<nat>
  {
    if slots == [] then []
    else
      var last := slots[|slots| - 1];
      Compact(slots[..|slots| - 1]) + if last.Some? then [last.value] else []
  }

  method CompactSlots(slots: seq<Option<nat>>) returns (atts: seq<nat>)
    ensures atts == Compact(slots)
  {
    atts := [];
    for i := 0 to |slots|
      invariant atts == Compact(slots[..i])
    {
      assert slots[..i + 1][..i] == slots[..i];
      if slots[i].Some? {
        atts := atts + [slots[i].value];
      }
    }
    assert slots[..|slots|] == slots;
  }

  // The compacted slots hold what the slots hold, and each value once when the slots do.
  lemma {:induction false} CompactMembers(slots: seq<Option<nat>>, b: nat)
    ensures b in Compact(slots) <==> Some(b) in slots
  {
    if slots != [] {
      var n := |slots| - 1;
      CompactMembers(slots[..n], b);
      assert slots == slots[..n] + [slots[n]];
    }
  }

  predicate DistinctSlots(slots: seq<Option<nat>>)
  {
    forall i, j :: 0 <= i < j < |slots| && slots[i].Some? ==> slots[i] != slots[j]
  }

  lemma {:induction false} CompactOnce(slots: seq<Option<nat>>)
    requires DistinctSlots(slots)
    ensures forall i, j :: 0 <= i < j < |Compact(slots)| ==> Compact(slots)[i] != Compact(slots)[j]
  {
    if slots != [] {
      var n := |slots| - 1;
      CompactOnce(slots[..n]);
      if slots[n].Some? {
        CompactMembers(slots[..n], slots[n].value);
      }
    }
  }

  // ---------- Schedules ----------

  const MAX_CONCURRENT := 5

  // A goroutine of a candidate: not launched yet, launched, fetching, the first to read its blob,
  // about to count its payload, or finished.
  datatype Phase = Waiting | Launched | Fetching | Owning | Counting | Finished

  predicate Busy(p: Phase)
  {
    p != Waiting && p != Finished
  }

  function Running(phases: seq<Phase>): set<nat>
  {
    set i: nat | i < |phases| && Busy(phases[i])
  }

  // `owner` tells which candidate was the first to read a blob; its keys are the seen blobs. The
  // outcomes are those recorded so far, from which the statistics are.
  datatype World = World(
    phases: seq<Phase>,
    owner: map<nat, nat>,
    outcomes: set<Outcome>,
    stats: Stats,
    counted: set<nat>,
    total: nat,
    slots: seq<Option<nat>>,
    cancelled: bool)

  datatype Action =
    | Launch(i: nat)
    | Start(i: nat)
    | Read(i: nat)
    | RecordOutcome(i: nat)
    | Count(i: nat)
    | Interrupted(i: nat, failed: Outcome, error: Error)

  function Initial(n: nat): World
  {
    World(seq(n, _ => Waiting), map[], {}, NO_STATS, {}, 0, seq(n, _ => None), false)
  }

  predicate Enabled(input: Input, w: World, a: Action)
  {
    && a.i < |w.phases| && |w.phases| == |w.slots| == |input.candidates|
    && match a
       // The goroutines are launched in the order of the candidates, a few at a time.
       case Launch(i) =>
         w.phases[i] == Waiting && Waiting !in w.phases[..i] && |Running(w.phases)| < MAX_CONCURRENT
       case Start(i) => w.phases[i] == Launched
       case Read(i) => w.phases[i] == Fetching
       case RecordOutcome(i) => w.phases[i] == Owning && input.candidates[i].Blob?
       case Count(i) => w.phases[i] == Counting && input.candidates[i].Blob?
       // Once the collection is cancelled, a fetch or verification may end in any failure.
       case Interrupted(i, failed, _) =>
         w.cancelled && (w.phases[i] == Fetching || w.phases[i] == Owning) && Failure(failed)
  }

  function Noted(w: World, outcome: Outcome, error: Error): World
  {
    w.(outcomes := w.outcomes + {outcome}, stats := Recorded(w.stats, outcome, Some(error)))
  }

  function Step(input: Input, w: World, a: Action): World
    requires input.Valid() && Enabled(input, w, a)
  {
    match a
    case Launch(i) => w.(phases := w.phases[i := Launched])
    case Start(i) => w.(phases := w.phases[i := if w.cancelled then Finished else Fetching])
    case Read(i) =>
      (match input.candidates[i]
       case Unreadable(error) => Noted(w.(phases := w.phases[i := Finished]), input.candidates[i].Outcome(), error)
       case Blob(b) =>
         if b in w.owner then Noted(w.(phases := w.phases[i := Finished]), Skipped, {})
         else w.(phases := w.phases[i := Owning], owner := w.owner[b := i]))
    case RecordOutcome(i) =>
      var checked := input.blobs[input.candidates[i].id];
      Noted(w.(phases := w.phases[i := if checked.Good? then Counting else Finished]), OutcomeOf(checked), ErrorOf(checked))
    case Count(i) =>
      var b := input.candidates[i].id;
      var total := w.total + if input.blobs[b].Good? then input.blobs[b].size else 0;
      var w := w.(phases := w.phases[i := Finished], counted := w.counted + {b}, total := total);
      if total > MAX_TOTAL_SIZE then Noted(w, LimitExceeded, {}).(cancelled := true)
      else w.(slots := w.slots[i := Some(b)])
    case Interrupted(i, failed, error) => Noted(w.(phases := w.phases[i := Finished]), failed, error)
  }

  function Run(input: Input, actions: seq<Action>): Option<World>
    requires input.Valid()
  {
    if actions == [] then Some(Initial(|input.candidates|))
    else
      var before, a := Run(input, actions[..|actions| - 1]), actions[|actions| - 1];
      if before.Some? && Enabled(input, before.value, a) then Some(Step(input, before.value, a)) else None
  }

  // ---------- The invariant ----------

  predicate Past(p: Phase)
  {
    p == Owning || p == Counting || p == Finished
  }

  predicate Shape(input: Input, w: World)
  {
    |w.phases| == |w.slots| == |input.candidates|
  }

  // Only the owner of a blob has a phase in between or a slot. Without a cancellation, what
  // finished is recorded.
  predicate CandidateOk(input: Input, w: World, i: nat)
    requires Shape(input, w) && i < |w.phases|
  {
    var c, p := input.candidates[i], w.phases[i];
    && (p == Owning || p == Counting || w.slots[i].Some? ==> c.Blob? && c.id in w.owner && w.owner[c.id] == i)
    && (p == Counting ==> input.IsGood(c.id) && c.id !in w.counted)
    && (w.slots[i].Some? ==> p == Finished && w.slots[i] == Some(c.id) && c.id in w.counted)
    && (!w.cancelled && Past(p) && c.Blob? ==> c.id in w.owner)
    && (!w.cancelled && p == Finished && c.Unreadable? ==> c.Outcome() in w.outcomes)
  }

  // A seen blob has its owner, and only a finished owner counts it.
  predicate BlobOk(input: Input, w: World, b: nat)
    requires Shape(input, w)
  {
    && (b in w.counted ==> b in w.owner)
    && (b in w.owner ==>
          var i := w.owner[b];
          && i < |w.phases| && input.candidates[i] == Blob(b) && b < |input.blobs| && Past(w.phases[i])
          && (b in w.counted ==> w.phases[i] == Finished)
          && (!w.cancelled && w.phases[i] != Owning ==> OutcomeOf(input.blobs[b]) in w.outcomes)
          && (!w.cancelled && w.phases[i] == Finished && input.IsGood(b) ==> b in w.counted && w.slots[i] == Some(b)))
  }

  predicate Totals(input: Input, w: World)
  {
    && w.total == TotalSize(input.blobs, w.counted)
    && w.counted <= input.Wanted()
    && (w.cancelled <==> w.total > MAX_TOTAL_SIZE)
    && (w.cancelled ==> LimitExceeded in w.outcomes)
  }

  predicate Produced(input: Input, o: Outcome)
  {
    exists i :: 0 <= i < |input.candidates|
                && (input.candidates[i].Blob? ==> input.candidates[i].id < |input.blobs|) && input.OutcomeAt(i) == o
  }

  // The outcomes whose first error is kept.
  predicate KeepsError(o: Outcome)
  {
    o == FetchFailed || o == LimitExceeded || o == KeyUnavailable
  }

  function ErrorIn(s: Stats, o: Outcome): Option<Error>
  {
    match o
    case FetchFailed => s.fetchErr
    case LimitExceeded => s.limitErr
    case KeyUnavailable => s.keyErr
    case _ => None
  }

  predicate Carries(input: Input, i: nat, o: Outcome, e: Error)
  {
    && i < |input.candidates| && (input.candidates[i].Blob? ==> input.candidates[i].id < |input.blobs|)
    && input.OutcomeAt(i) == o && input.ErrorAt(i) == e
  }

  // The statistics tell which outcomes were recorded and, without a cancellation, hold errors of
  // candidates.
  ghost predicate StatsOk(input: Input, w: World)
  {
    && Summarizes(w.stats, w.outcomes)
    && (!w.cancelled ==> forall o :: KeepsError(o) && ErrorIn(w.stats, o).Some? ==>
                           exists i: nat :: Carries(input, i, o, ErrorIn(w.stats, o).value))
  }

  ghost predicate Inv(input: Input, w: World)
  {
    && Shape(input, w) && Totals(input, w) && StatsOk(input, w)
    && (forall i: nat {:trigger CandidateOk(input, w, i)} :: i < |w.phases| ==> CandidateOk(input, w, i))
    && (forall b: nat {:trigger BlobOk(input, w, b)} :: BlobOk(input, w, b))
    && (!w.cancelled ==> forall o :: o in w.outcomes && o != Skipped ==> Produced(input, o))
  }

  // The parts of the invariant about the candidates and blobs after a step.
  lemma CandidatesKept(input: Input, w: World, a: Action)
    requires input.Valid() && Inv(input, w) && Enabled(input, w, a)
    ensures var w' := Step(input, w, a);
            Shape(input, w') && forall i: nat {:trigger CandidateOk(input, w', i)} :: i < |w'.phases| ==> CandidateOk(input, w', i)
  {
    hide Totals, StatsOk, Recorded, Produced;
    var w' := Step(input, w, a);
    assert CandidateOk(input, w, a.i);
    forall i: nat | i < |w'.phases|
      ensures CandidateOk(input, w', i)
    {
      assert CandidateOk(input, w, i);
      if input.candidates[i].Blob? {
        assert BlobOk(input, w, input.candidates[i].id);
      }
    }
  }

  lemma BlobsKept(input: Input, w: World, a: Action)
    requires input.Valid() && Inv(input, w) && Enabled(input, w, a)
    ensures var w' := Step(input, w, a);
            Shape(input, w') && forall b: nat {:trigger BlobOk(input, w', b)} :: BlobOk(input, w', b)
  {
    hide Totals, StatsOk, Recorded, Produced;
    var w' := Step(input, w, a);
    assert CandidateOk(input, w, a.i);
    forall b: nat
      ensures BlobOk(input, w', b)
    {
      assert BlobOk(input, w, b);
      if b in w.owner {
        assert CandidateOk(input, w, w.owner[b]);
      }
    }
  }

  lemma TotalsKept(input: Input, w: World, a: Action)
    requires input.Valid() && Inv(input, w) && Enabled(input, w, a)
    ensures Totals(input, Step(input, w, a))
  {
    hide Produced, StatsOk, Recorded;
    if a.Count? {
      assert CandidateOk(input, w, a.i);
      TotalSizeAdd(input.blobs, w.counted, input.candidates[a.i].id);
    }
  }

  lemma OutcomesKept(input: Input, w: World, a: Action)
    requires input.Valid() && Inv(input, w) && Enabled(input, w, a)
    ensures var w' := Step(input, w, a); !w'.cancelled ==> forall o :: o in w'.outcomes && o != Skipped ==> Produced(input, o)
  {
    if (a.Read? && input.candidates[a.i].Unreadable?) || a.RecordOutcome? {
      assert Produced(input, input.OutcomeAt(a.i));
    }
    hide Produced, Totals, StatsOk, Recorded, CandidateOk, BlobOk;
  }

  // Recording an outcome keeps the first error of each kind.
  lemma NotedStats(s: Stats, outcomes: set<Outcome>, outcome: Outcome, error: Error)
    requires Summarizes(s, outcomes)
    ensures var s' := Recorded(s, outcome, Some(error));
            && Summarizes(s', outcomes + {outcome})
            && forall o :: KeepsError(o) ==>
                 ErrorIn(s', o) == if ErrorIn(s, o).Some? then ErrorIn(s, o) else if o == outcome then Some(error) else None
  {
  }

  // The outcome and error that a step records, if it records one.
  function Note(input: Input, w: World, a: Action): Option<(Outcome, Error)>
    requires input.Valid() && Enabled(input, w, a)
  {
    match a
    case Launch(_) => None
    case Start(_) => None
    case Read(i) =>
      if input.candidates[i].Unreadable? then Some((input.OutcomeAt(i), input.ErrorAt(i)))
      else if input.candidates[i].id in w.owner then Some((Skipped, {})) else None
    case RecordOutcome(i) => Some((input.OutcomeAt(i), input.ErrorAt(i)))
    case Count(i) =>
      if w.total + (if input.IsGood(input.candidates[i].id) then input.blobs[input.candidates[i].id].size else 0) > MAX_TOTAL_SIZE
      then Some((LimitExceeded, {})) else None
    case Interrupted(_, failed, error) => Some((failed, error))
  }

  lemma StepNotes(input: Input, w: World, a: Action)
    requires input.Valid() && Enabled(input, w, a)
    ensures var w' := Step(input, w, a);
            match Note(input, w, a)
            case None => w'.outcomes == w.outcomes && w'.stats == w.stats && w'.cancelled == w.cancelled
            case Some((outcome, error)) =>
              && w'.outcomes == w.outcomes + {outcome} && w'.stats == Recorded(w.stats, outcome, Some(error))
              && (w.cancelled ==> w'.cancelled)
              && (!w'.cancelled && outcome != Skipped ==> Carries(input, a.i, outcome, error))
  {
    hide Recorded;
  }

  lemma StatsKept(input: Input, w: World, a: Action)
    requires input.Valid() && StatsOk(input, w) && Enabled(input, w, a)
    ensures StatsOk(input, Step(input, w, a))
  {
    hide Step, Enabled, Note, Recorded, Summarizes, Carries, Input.Valid;
    StepNotes(input, w, a);
    var w' := Step(input, w, a);
    match Note(input, w, a)
    case None =>
    case Some((outcome, error)) =>
      NotedStats(w.stats, w.outcomes, outcome, error);
      forall o | !w'.cancelled && KeepsError(o) && ErrorIn(w'.stats, o).Some?
        ensures exists i: nat :: Carries(input, i, o, ErrorIn(w'.stats, o).value)
      {
        if ErrorIn(w.stats, o).None? {
          assert Carries(input, a.i, o, error);
        }
      }
  }

  lemma StepKeepsInv(input: Input, w: World, a: Action)
    requires input.Valid() && Inv(input, w) && Enabled(input, w, a)
    ensures Inv(input, Step(input, w, a))
  {
    hide Step, Enabled, Totals, StatsOk, CandidateOk, BlobOk, Produced;
    StatsKept(input, w, a);
    CandidatesKept(input, w, a);
    BlobsKept(input, w, a);
    TotalsKept(input, w, a);
    OutcomesKept(input, w, a);
  }

  lemma {:induction false} RunKeepsInv(input: Input, actions: seq<Action>)
    requires input.Valid() && Run(input, actions).Some?
    ensures Inv(input, Run(input, actions).value)
  {
    if actions != [] {
      hide Inv, Enabled, Step;
      var before := actions[..|actions| - 1];
      RunKeepsInv(input, before);
      StepKeepsInv(input, Run(input, before).value, actions[|actions| - 1]);
    } else {
      EmptySize(input.blobs);
    }
  }

  lemma {:induction false} EmptySize(blobs: seq<Checked>)
    ensures TotalSize(blobs, {}) == 0
  {
    if blobs != [] {
      EmptySize(blobs[..|blobs| - 1]);
    }
  }

  // ---------- The result does not depend on the schedule ----------

  // The decision by class: the attestation set is incomplete, something was unavailable, a
  // trusted key is missing, everything failed, or the set is complete.
  datatype Verdict = LimitReached | Unavailable | KeyMissing | AllFailed | CompleteSet

  function VerdictOf(verified: bool, outcomes: set<Outcome>): Verdict
  {
    if LimitExceeded in outcomes then LimitReached
    else if FetchFailed in outcomes then Unavailable
    else if !verified && KeyUnavailable in outcomes then KeyMissing
    else if !verified && VerifyFailed in outcomes then AllFailed
    else CompleteSet
  }

  // The decision that the collected statistics amount to is the verdict of the outcomes.
  lemma EvaluateIsVerdict(verified: nat, s: Stats, outcomes: set<Outcome>)
    requires Summarizes(s, outcomes)
    ensures Evaluate(verified, s) ==
            match VerdictOf(verified > 0, outcomes)
            case LimitReached => Some({VerificationFailed, IncompleteSet} + s.limitErr.value)
            case Unavailable => s.fetchErr
            case KeyMissing => s.keyErr
            case AllFailed => Some({VerificationFailed})
            case CompleteSet => None
  {
  }

  // The verdict that the input alone determines.
  function Expected(input: Input): Verdict
    requires input.Valid()
  {
    if TotalSize(input.blobs, input.Wanted()) > MAX_TOTAL_SIZE then LimitReached
    else VerdictOf(input.Wanted() != {}, set i | 0 <= i < |input.candidates| :: input.OutcomeAt(i))
  }

  predicate AllFinished(w: World)
  {
    forall i :: 0 <= i < |w.phases| ==> w.phases[i] == Finished
  }

  // At the end of a run that was not cancelled, everything wanted was counted and is in a slot.
  lemma EverythingCounted(input: Input, w: World)
    requires input.Valid() && Inv(input, w) && AllFinished(w) && !w.cancelled
    ensures w.counted == input.Wanted()
    ensures forall b :: b in input.Wanted() <==> Some(b) in w.slots
    ensures DistinctSlots(w.slots)
    ensures forall i :: 0 <= i < |input.candidates| ==> input.OutcomeAt(i) in w.outcomes
  {
    hide Produced, StatsOk, TotalSize;
    forall i: nat | i < |input.candidates|
      ensures input.OutcomeAt(i) in w.outcomes
      ensures w.slots[i].Some? ==>
                && input.candidates[i].Blob? && input.candidates[i].id in w.owner && w.owner[input.candidates[i].id] == i
                && w.slots[i].value == input.candidates[i].id && w.slots[i].value in w.counted
      ensures input.candidates[i].Blob? && input.IsGood(input.candidates[i].id) ==>
                input.candidates[i].id in w.counted && Some(input.candidates[i].id) in w.slots
    {
      assert CandidateOk(input, w, i);
      if input.candidates[i].Blob? {
        assert BlobOk(input, w, input.candidates[i].id);
      }
    }
  }

  // Every outcome but a skipped duplicate is one that a candidate gives by itself.
  lemma OutcomesExpected(input: Input, w: World, o: Outcome)
    requires input.Valid() && Inv(input, w) && AllFinished(w) && !w.cancelled && o != Skipped
    ensures o in w.outcomes <==> o in set i | 0 <= i < |input.candidates| :: input.OutcomeAt(i)
  {
    hide TotalSize, Totals, StatsOk, CandidateOk, BlobOk;
    EverythingCounted(input, w);
    assert o in w.outcomes ==> Produced(input, o);
  }

  // What is collected at the end of a run that was not cancelled: the wanted blobs, once each.
  lemma CollectedOnce(input: Input, w: World)
    requires input.Valid() && Inv(input, w) && AllFinished(w) && !w.cancelled
    ensures var collected := Compact(w.slots);
            && (forall b :: b in collected <==> b in input.Wanted())
            && (forall i, j :: 0 <= i < j < |collected| ==> collected[i] != collected[j])
            && (collected != [] <==> input.Wanted() != {})
  {
    EverythingCounted(input, w);
    hide Inv, Input.Valid, Compact, Input.Wanted;
    CompactOnce(w.slots);
    forall b: nat
      ensures b in Compact(w.slots) <==> b in input.Wanted()
    {
      CompactMembers(w.slots, b);
    }
    assert Compact(w.slots) != [] ==> Compact(w.slots)[0] in Compact(w.slots);
  }

  lemma VerdictExpected(input: Input, w: World)
    requires input.Valid() && Inv(input, w) && AllFinished(w)
    ensures w.cancelled <==> TotalSize(input.blobs, input.Wanted()) > MAX_TOTAL_SIZE
    ensures Summarizes(w.stats, w.outcomes)
    ensures VerdictOf(Compact(w.slots) != [], w.outcomes) == Expected(input)
  {
    hide TotalSize, Compact, Input.Wanted, Input.OutcomeAt, CandidateOk, BlobOk, Produced;
    if w.cancelled {
      TotalSizeMonotone(input.blobs, w.counted, input.Wanted());
    } else {
      EverythingCounted(input, w);
      CollectedOnce(input, w);
      OutcomesExpected(input, w, LimitExceeded);
      OutcomesExpected(input, w, FetchFailed);
      OutcomesExpected(input, w, KeyUnavailable);
      OutcomesExpected(input, w, VerifyFailed);
    }
  }

  /**
   For fixed results of the blobs, every schedule gives the same decision, and without an error
   the same attestations: each distinct blob that verifies once. The aggregate limit fires
   exactly when the distinct payloads together exceed it.
   */
  lemma ScheduleIndependent(input: Input, actions: seq<Action>)
    requires input.Valid() && Run(input, actions).Some? && AllFinished(Run(input, actions).value)
    ensures var w := Run(input, actions).value;
            var collected := Compact(w.slots);
            && (w.cancelled <==> TotalSize(input.blobs, input.Wanted()) > MAX_TOTAL_SIZE)
            && Summarizes(w.stats, w.outcomes) && VerdictOf(collected != [], w.outcomes) == Expected(input)
            && (!w.cancelled ==>
                  && (forall b :: b in collected <==> b in input.Wanted())
                  && (forall i, j :: 0 <= i < j < |collected| ==> collected[i] != collected[j]))
  {
    hide Run, Inv, AllFinished, TotalSize, Compact, VerdictOf, Expected, Input.Wanted;
    RunKeepsInv(input, actions);
    var w := Run(input, actions).value;
    VerdictExpected(input, w);
    if !w.cancelled {
      CollectedOnce(input, w);
    }
  }

  // The wanted blobs in the order of the candidates.
  function InOrder(input: Input, n: nat): seq<nat>
    requires n <= |input.candidates|
  {
    if n == 0 then []
    else
      var c := input.candidates[n - 1];
      InOrder(input, n - 1) + if c.Blob? && input.IsGood(c.id) then [c.id] else []
  }

  predicate DistinctBlobs(input: Input)
  {
    forall i, j :: 0 <= i < j < |input.candidates| && input.candidates[i].Blob? ==> input.candidates[i] != input.candidates[j]
  }

  lemma {:induction false} SlotsInOrder(input: Input, slots: seq<Option<nat>>)
    requires |slots| <= |input.candidates|
    requires forall i :: 0 <= i < |slots| ==>
               slots[i] == var c := input.candidates[i]; if c.Blob? && input.IsGood(c.id) then Some(c.id) else None
    ensures Compact(slots) == InOrder(input, |slots|)
  {
    if slots != [] {
      SlotsInOrder(input, slots[..|slots| - 1]);
    }
  }

  // With distinct blobs the attestations come in the order of the candidates.
  lemma CandidateOrder(input: Input, actions: seq<Action>)
    requires input.Valid() && DistinctBlobs(input)
    requires Run(input, actions).Some? && AllFinished(Run(input, actions).value) && !Run(input, actions).value.cancelled
    ensures Compact(Run(input, actions).value.slots) == InOrder(input, |input.candidates|)
  {
    var w := Run(input, actions).value;
    RunKeepsInv(input, actions);
    hide Run, TotalSize, Totals, Produced;
    forall i: nat | i < |w.slots|
      ensures w.slots[i] == var c := input.candidates[i]; if c.Blob? && input.IsGood(c.id) then Some(c.id) else None
    {
      assert CandidateOk(input, w, i);
      if input.candidates[i].Blob? {
        assert BlobOk(input, w, input.candidates[i].id);
      }
    }
    SlotsInOrder(input, w.slots);
  }

  // ---------- At most five at a time, in order ----------

  lemma {:induction false} SmallerSet(some: set<nat>, more: set<nat>)
    requires some <= more
    ensures |some| <= |more|
  {
    if i: nat :| i in some {
      SmallerSet(some - {i}, more - {i});
    }
  }

  predicate Limited(phases: seq<Phase>)
  {
    && |Running(phases)| <= MAX_CONCURRENT
    && forall i, j :: 0 <= i < j < |phases| && phases[j] != Waiting ==> phases[i] != Waiting
  }

  // A step moves one goroutine on, and only a launch takes a place.
  lemma StepMoves(input: Input, w: World, a: Action)
    requires input.Valid() && Enabled(input, w, a)
    ensures var phases := Step(input, w, a).phases;
            && |phases| == |w.phases| && phases == w.phases[a.i := phases[a.i]]
            && phases[a.i] != Waiting && (a.Launch? || Busy(w.phases[a.i]))
  {
    hide Recorded, Running;
  }

  lemma StepKeepsLimit(input: Input, w: World, a: Action)
    requires input.Valid() && Enabled(input, w, a) && Limited(w.phases)
    ensures Limited(Step(input, w, a).phases)
  {
    hide Step, Input.Valid;
    StepMoves(input, w, a);
    var phases := Step(input, w, a).phases;
    if a.Launch? {
      SmallerSet(Running(phases), Running(w.phases) + {a.i});
      assert forall i :: 0 <= i < a.i ==> w.phases[i] in w.phases[..a.i];
    } else {
      SmallerSet(Running(phases), Running(w.phases));
    }
  }

  // In every schedule at most five goroutines run, and those of the first candidates.
  lemma {:induction false} RunKeepsLimit(input: Input, actions: seq<Action>)
    requires input.Valid() && Run(input, actions).Some?
    ensures Limited(Run(input, actions).value.phases)
  {
    if actions != [] {
      hide Limited, Enabled, Step;
      var before := actions[..|actions| - 1];
      RunKeepsLimit(input, before);
      StepKeepsLimit(input, Run(input, before).value, actions[|actions| - 1]);
    } else {
      assert Running(Initial(|input.candidates|).phases) == {};
    }
  }

  // ---------- Every schedule can be completed ----------

  predicate Complete(input: Input, actions: seq<Action>)
    requires input.Valid()
  {
    Run(input, actions).Some? && AllFinished(Run(input, actions).value)
  }

  lemma RunGrows(input: Input, actions: seq<Action>, a: Action)
    requires input.Valid() && Run(input, actions).Some? && Enabled(input, Run(input, actions).value, a)
    ensures Run(input, actions + [a]) == Some(Step(input, Run(input, actions).value, a))
  {
    hide Step, Enabled;
    assert (actions + [a])[..|actions|] == actions;
  }

  // How many steps a goroutine has left at most.
  function Rank(p: Phase): nat
  {
    match p case Waiting => 5 case Launched => 4 case Fetching => 3 case Owning => 2 case Counting => 1 case Finished => 0
  }

  function Left(phases: seq<Phase>): nat
  {
    if phases == [] then 0 else Rank(phases[0]) + Left(phases[1..])
  }

  lemma {:induction false} LeftShrinks(phases: seq<Phase>, i: nat, p: Phase)
    requires i < |phases| && Rank(p) < Rank(phases[i])
    ensures Left(phases[i := p]) < Left(phases)
  {
    if i == 0 {
      assert phases[0 := p][1..] == phases[1..];
    } else {
      assert phases[i := p][1..] == phases[1..][i - 1 := p];
      LeftShrinks(phases[1..], i - 1, p);
    }
  }

  // What a running goroutine does next.
  function Next(p: Phase, i: nat): Action
  {
    match p case Launched => Start(i) case Fetching => Read(i) case Owning => RecordOutcome(i) case _ => Count(i)
  }

  lemma NextStep(input: Input, w: World, i: nat)
    requires input.Valid() && Inv(input, w) && i < |w.phases| && Busy(w.phases[i])
    ensures var a := Next(w.phases[i], i);
            && Enabled(input, w, a)
            && var phases := Step(input, w, a).phases;
               |phases| == |w.phases| && phases == w.phases[i := phases[i]] && Rank(phases[i]) < Rank(w.phases[i])
  {
    assert CandidateOk(input, w, i);
    hide StatsOk, Totals, BlobOk, Produced, Recorded;
  }

  lemma {:induction false} LeastWaiting(phases: seq<Phase>, i: nat) returns (least: nat)
    requires i < |phases| && phases[i] == Waiting
    ensures least <= i && phases[least] == Waiting && Waiting !in phases[..least]
  {
    if j: nat :| j < i && phases[j] == Waiting {
      least := LeastWaiting(phases, j);
    } else {
      least := i;
    }
  }

  // While a candidate is not finished, a goroutine can take a step or the next one is launched.
  lemma CanStep(input: Input, w: World, i: nat) returns (a: Action)
    requires input.Valid() && Inv(input, w) && i < |w.phases| && w.phases[i] != Finished
    ensures Enabled(input, w, a) && Left(Step(input, w, a).phases) < Left(w.phases)
  {
    hide Left, Inv, CandidateOk;
    if j: nat :| j < |w.phases| && Busy(w.phases[j]) {
      NextStep(input, w, j);
      a := Next(w.phases[j], j);
    } else {
      var least := LeastWaiting(w.phases, i);
      assert Running(w.phases) == {};
      a := Launch(least);
      assert Shape(input, w) by { ShapeOf(input, w); }
    }
    LeftShrinks(w.phases, a.i, Step(input, w, a).phases[a.i]);
  }

  lemma ShapeOf(input: Input, w: World)
    requires Inv(input, w)
    ensures Shape(input, w)
  {
  }

  // A kept error stays.
  lemma ErrorStays(input: Input, w: World, a: Action, o: Outcome)
    requires input.Valid() && StatsOk(input, w) && Enabled(input, w, a) && KeepsError(o) && ErrorIn(w.stats, o).Some?
    ensures ErrorIn(Step(input, w, a).stats, o) == ErrorIn(w.stats, o)
  {
    hide Step, Enabled, Note, Recorded, Summarizes, Carries, Input.Valid;
    StepNotes(input, w, a);
    match Note(input, w, a)
    case None =>
    case Some((outcome, error)) => NotedStats(w.stats, w.outcomes, outcome, error);
  }

  // Every run can be completed, and a kept error stays.
  lemma {:induction false} Completes(input: Input, actions: seq<Action>, o: Outcome) returns (all: seq<Action>)
    requires input.Valid() && Run(input, actions).Some? && KeepsError(o)
    ensures Complete(input, all)
    ensures ErrorIn(Run(input, actions).value.stats, o).Some? ==>
              ErrorIn(Run(input, all).value.stats, o) == ErrorIn(Run(input, actions).value.stats, o)
    decreases Left(Run(input, actions).value.phases)
  {
    hide Run, Step, Enabled, Left, StatsOk, Totals, CandidateOk, BlobOk, Produced, ErrorIn;
    var w := Run(input, actions).value;
    RunKeepsInv(input, actions);
    if i: nat :| i < |w.phases| && w.phases[i] != Finished {
      var a := CanStep(input, w, i);
      RunGrows(input, actions, a);
      all := Completes(input, actions + [a], o);
      if ErrorIn(w.stats, o).Some? {
        ErrorStays(input, w, a, o);
      }
    } else {
      all := actions;
    }
  }

  // ---------- Which error is reported ----------

  // The first candidate of each source of an outcome. The sources are the unreadable referrers and
  // the blobs.
  predicate Leading(input: Input, o: Outcome, i: nat)
  {
    && i < |input.candidates| && (input.candidates[i].Blob? ==> input.candidates[i].id < |input.blobs|)
    && input.OutcomeAt(i) == o
    && (input.candidates[i].Blob? ==> input.candidates[i] !in input.candidates[..i])
  }

  function Leaders(input: Input, o: Outcome, n: nat): set<nat>
  {
    set i: nat | i < n && Leading(input, o, i)
  }

  // One of the first five sources of an outcome.
  predicate Early(input: Input, o: Outcome, i: nat)
  {
    Leading(input, o, i) && |Leaders(input, o, i)| < MAX_CONCURRENT
  }

  lemma {:induction false} FirstOf(input: Input, i: nat) returns (first: nat)
    requires input.Valid() && i < |input.candidates|
    ensures first <= i && input.candidates[first] == input.candidates[i] && Leading(input, input.OutcomeAt(i), first)
  {
    if input.candidates[i].Blob? && input.candidates[i] in input.candidates[..i] {
      var j :| 0 <= j < i && input.candidates[j] == input.candidates[i];
      first := FirstOf(input, j);
    } else {
      first := i;
    }
  }

  // While an outcome is not recorded, a running goroutine holds each source that was launched.
  lemma Holder(input: Input, w: World, o: Outcome, j: nat) returns (h: nat)
    requires input.Valid() && Inv(input, w) && !w.cancelled && o !in w.outcomes
    requires j < |w.phases| && w.phases[j] != Waiting && input.OutcomeAt(j) == o
    ensures h in Running(w.phases) && input.candidates[h] == input.candidates[j]
    ensures input.candidates[j].Unreadable? ==> h == j
  {
    hide StatsOk, Totals, Produced;
    assert CandidateOk(input, w, j);
    h := j;
    if w.phases[j] == Finished && input.candidates[j].Blob? {
      assert BlobOk(input, w, input.candidates[j].id);
      h := w.owner[input.candidates[j].id];
    }
  }

  ghost predicate HeldFor(input: Input, o: Outcome, n: nat, h: nat)
  {
    && h < |input.candidates|
    && exists j: nat :: j < n && Leading(input, o, j) && input.candidates[h] == input.candidates[j]
                        && (input.candidates[j].Unreadable? ==> h == j)
  }

  lemma StillHeld(input: Input, o: Outcome, n: nat, h: nat)
    requires HeldFor(input, o, n, h)
    ensures HeldFor(input, o, n + 1, h)
  {
  }

  lemma NewlyHeld(input: Input, o: Outcome, n: nat, h: nat)
    requires Leading(input, o, n) && h < |input.candidates| && input.candidates[h] == input.candidates[n]
    requires input.candidates[n].Unreadable? ==> h == n
    ensures !HeldFor(input, o, n, h) && HeldFor(input, o, n + 1, h)
  {
  }

  lemma LeadersNext(input: Input, o: Outcome, n: nat)
    ensures |Leaders(input, o, n + 1)| == |Leaders(input, o, n)| + if Leading(input, o, n) then 1 else 0
  {
    assert Leaders(input, o, n + 1) == Leaders(input, o, n) + if Leading(input, o, n) then {n} else {};
  }

  // Different sources are held by different goroutines.
  lemma {:induction false} Holders(input: Input, w: World, o: Outcome, n: nat) returns (held: set<nat>)
    requires input.Valid() && Inv(input, w) && !w.cancelled && o !in w.outcomes
    requires n <= |w.phases| && forall j :: 0 <= j < n ==> w.phases[j] != Waiting
    ensures held <= Running(w.phases) && |held| == |Leaders(input, o, n)|
    ensures forall h :: h in held ==> HeldFor(input, o, n, h)
  {
    held := {};
    if n == 0 {
      assert Leaders(input, o, n) == {};
    } else {
      hide HeldFor, Leaders, Running;
      held := Holders(input, w, o, n - 1);
      LeadersNext(input, o, n - 1);
      forall h | h in held
        ensures HeldFor(input, o, n, h)
      {
        StillHeld(input, o, n - 1, h);
      }
      if Leading(input, o, n - 1) {
        var h := Holder(input, w, o, n - 1);
        NewlyHeld(input, o, n - 1, h);
        held := held + {h};
      }
    }
  }

  // So the goroutine that is the first to record an outcome records one of its first five sources.
  lemma RecordedEarly(input: Input, w: World, o: Outcome, i: nat) returns (first: nat)
    requires input.Valid() && Inv(input, w) && Limited(w.phases) && !w.cancelled && o !in w.outcomes
    requires i < |w.phases| && w.phases[i] != Waiting && input.OutcomeAt(i) == o
    ensures Early(input, o, first) && Carries(input, first, o, input.ErrorAt(i))
  {
    ShapeOf(input, w);
    hide Inv, Running, Input.Valid, Leaders, HeldFor;
    first := FirstOf(input, i);
    var held := Holders(input, w, o, first + 1);
    SmallerSet(held, Running(w.phases));
    LeadersNext(input, o, first);
  }

  ghost predicate EarlyError(input: Input, w: World, o: Outcome)
  {
    !w.cancelled && ErrorIn(w.stats, o).Some? ==>
      exists i: nat :: Early(input, o, i) && Carries(input, i, o, ErrorIn(w.stats, o).value)
  }

  lemma StepKeepsEarly(input: Input, w: World, a: Action, o: Outcome)
    requires input.Valid() && Inv(input, w) && Limited(w.phases) && Enabled(input, w, a) && KeepsError(o)
    requires EarlyError(input, w, o)
    ensures EarlyError(input, Step(input, w, a), o)
  {
    assert StatsOk(input, w) && (a.Launch? || w.phases[a.i] != Waiting);
    hide Inv, Limited, Step, Enabled, Recorded, Carries, Early, Input.Valid;
    StepNotes(input, w, a);
    var w' := Step(input, w, a);
    match Note(input, w, a)
    case None =>
    case Some((outcome, error)) =>
      NotedStats(w.stats, w.outcomes, outcome, error);
      if !w'.cancelled && o == outcome && ErrorIn(w.stats, o).None? {
        CarriedBy(input, a.i, o, error);
        var first := RecordedEarly(input, w, o, a.i);
      }
  }

  lemma CarriedBy(input: Input, i: nat, o: Outcome, e: Error)
    requires input.Valid() && Carries(input, i, o, e)
    ensures i < |input.candidates| && input.OutcomeAt(i) == o && input.ErrorAt(i) == e
  {
  }

  lemma {:induction false} RunKeepsEarly(input: Input, actions: seq<Action>, o: Outcome)
    requires input.Valid() && Run(input, actions).Some? && KeepsError(o)
    ensures EarlyError(input, Run(input, actions).value, o)
  {
    if actions != [] {
      hide Inv, Limited, Enabled, Step, EarlyError;
      var before := actions[..|actions| - 1];
      RunKeepsEarly(input, before, o);
      RunKeepsInv(input, before);
      RunKeepsLimit(input, before);
      StepKeepsEarly(input, Run(input, before).value, actions[|actions| - 1], o);
    }
  }

  // ---------- A schedule for each of the first five ----------

  lemma NotCancelled(input: Input, w: World)
    requires Inv(input, w) && TotalSize(input.blobs, input.Wanted()) <= MAX_TOTAL_SIZE
    ensures !w.cancelled
  {
    TotalSizeMonotone(input.blobs, w.counted, input.Wanted());
  }

  // A goroutine that will not record the outcome: its candidate gives another one, or is a
  // duplicate.
  predicate Quiet(input: Input, w: World, i: nat, o: Outcome)
    requires input.Valid() && i < |input.candidates|
  {
    input.OutcomeAt(i) != o
    || (input.candidates[i].Blob? && input.candidates[i].id in w.owner && w.owner[input.candidates[i].id] != i)
  }

  lemma QuietStep(input: Input, w: World, i: nat, o: Outcome)
    requires input.Valid() && Inv(input, w) && i < |w.phases| && Busy(w.phases[i]) && KeepsError(o)
    requires Quiet(input, w, i, o) && o !in w.outcomes && Enabled(input, w, Next(w.phases[i], i))
    ensures var w' := Step(input, w, Next(w.phases[i], i));
            Quiet(input, w', i, o) && (!w'.cancelled ==> o !in w'.outcomes)
  {
    assert CandidateOk(input, w, i);
    hide StatsOk, Totals, BlobOk, Produced, Recorded;
  }

  // A quiet goroutine can finish while the others stand still.
  lemma {:induction false} RunOut(input: Input, actions: seq<Action>, i: nat, o: Outcome) returns (more: seq<Action>)
    requires input.Valid() && Run(input, actions).Some? && KeepsError(o)
    requires TotalSize(input.blobs, input.Wanted()) <= MAX_TOTAL_SIZE
    requires var w := Run(input, actions).value;
             i < |w.phases| == |input.candidates| && Busy(w.phases[i]) && Quiet(input, w, i, o) && o !in w.outcomes
    ensures Run(input, more).Some?
    ensures var w' := Run(input, more).value;
            w'.phases == Run(input, actions).value.phases[i := Finished] && o !in w'.outcomes
    decreases Rank(Run(input, actions).value.phases[i])
  {
    hide Run, Step, Inv, Enabled, Quiet, TotalSize, Input.Wanted, Input.Valid;
    var w := Run(input, actions).value;
    RunKeepsInv(input, actions);
    NextStep(input, w, i);
    QuietStep(input, w, i, o);
    var a := Next(w.phases[i], i);
    RunGrows(input, actions, a);
    more := actions + [a];
    RunKeepsInv(input, more);
    NotCancelled(input, Step(input, w, a));
    var phases := Step(input, w, a).phases;
    if phases[i] != Finished {
      assert w.phases[i := phases[i]][i := Finished] == w.phases[i := Finished];
      more := RunOut(input, more, i, o);
    }
  }

  // The next candidate is launched and starts to fetch.
  lemma Begin(input: Input, actions: seq<Action>, i: nat) returns (more: seq<Action>)
    requires input.Valid() && Run(input, actions).Some? && Enabled(input, Run(input, actions).value, Launch(i))
    requires !Run(input, actions).value.cancelled
    ensures var w := Run(input, actions).value; Run(input, more) == Some(w.(phases := w.phases[i := Fetching]))
  {
    hide Run;
    var w := Run(input, actions).value;
    RunGrows(input, actions, Launch(i));
    RunGrows(input, actions + [Launch(i)], Start(i));
    more := actions + [Launch(i)] + [Start(i)];
    assert w.phases[i := Launched][i := Fetching] == w.phases[i := Fetching];
  }

  // After the first n candidates: the first of each source waits before it records the outcome,
  // and all others are finished.
  function Kept(input: Input, o: Outcome, n: nat, i: nat): Phase
    requires i < |input.candidates|
  {
    if n <= i then Waiting
    else if !Leading(input, o, i) then Finished
    else if input.candidates[i].Blob? then Owning
    else Fetching
  }

  predicate Held(input: Input, w: World, o: Outcome, n: nat)
  {
    && |w.phases| == |input.candidates| && o !in w.outcomes
    && forall i :: 0 <= i < |w.phases| ==> w.phases[i] == Kept(input, o, n, i)
  }

  lemma HeldLaunches(input: Input, w: World, o: Outcome, n: nat)
    requires Inv(input, w) && Held(input, w, o, n) && n < |input.candidates| && |Leaders(input, o, n)| < MAX_CONCURRENT
    ensures Enabled(input, w, Launch(n))
  {
    assert Running(w.phases) == Leaders(input, o, n);
  }

  // Whether a candidate leads decides whether its blob has an owner by then.
  lemma HeldOwner(input: Input, w: World, o: Outcome, n: nat)
    requires input.Valid() && Inv(input, w) && !w.cancelled && Held(input, w, o, n)
    requires n < |input.candidates| && input.candidates[n].Blob? && input.OutcomeAt(n) == o
    ensures input.candidates[n].id in w.owner <==> !Leading(input, o, n)
    ensures input.candidates[n].id in w.owner ==> w.owner[input.candidates[n].id] != n
  {
    hide StatsOk, Totals, Produced;
    assert BlobOk(input, w, input.candidates[n].id);
    if !Leading(input, o, n) {
      var j :| 0 <= j < n && input.candidates[j] == input.candidates[n];
      assert CandidateOk(input, w, j);
    }
  }

  lemma ReadsFirst(input: Input, actions: seq<Action>, i: nat) returns (more: seq<Action>)
    requires input.Valid() && Run(input, actions).Some?
    requires var w := Run(input, actions).value;
             Enabled(input, w, Read(i)) && input.candidates[i].Blob? && input.candidates[i].id !in w.owner
    ensures var w := Run(input, actions).value;
            Run(input, more) == Some(w.(phases := w.phases[i := Owning], owner := w.owner[input.candidates[i].id := i]))
  {
    hide Run;
    RunGrows(input, actions, Read(i));
    more := actions + [Read(i)];
  }

  lemma {:induction false} HoldSources(input: Input, o: Outcome, n: nat) returns (actions: seq<Action>)
    requires input.Valid() && KeepsError(o) && n <= |input.candidates| && |Leaders(input, o, n)| < MAX_CONCURRENT
    requires TotalSize(input.blobs, input.Wanted()) <= MAX_TOTAL_SIZE
    ensures Run(input, actions).Some? && Held(input, Run(input, actions).value, o, n)
  {
    hide Run, Inv, TotalSize, Input.Wanted, Input.Valid, Leaders;
    if n == 0 {
      RunOfNothing(input);
      return [];
    }
    LeadersNext(input, o, n - 1);
    actions := HoldSources(input, o, n - 1);
    actions := HoldNext(input, actions, o, n - 1);
  }

  lemma HoldNext(input: Input, actions: seq<Action>, o: Outcome, n: nat) returns (more: seq<Action>)
    requires input.Valid() && KeepsError(o) && n < |input.candidates| && |Leaders(input, o, n)| < MAX_CONCURRENT
    requires TotalSize(input.blobs, input.Wanted()) <= MAX_TOTAL_SIZE
    requires Run(input, actions).Some? && Held(input, Run(input, actions).value, o, n)
    ensures Run(input, more).Some? && Held(input, Run(input, more).value, o, n + 1)
  {
    hide Run, Inv, TotalSize, Input.Wanted, Leaders, Running;
    var w := Run(input, actions).value;
    RunKeepsInv(input, actions);
    NotCancelled(input, w);
    HeldLaunches(input, w, o, n);
    more := Begin(input, actions, n);
    if input.candidates[n].Blob? && input.OutcomeAt(n) == o {
      HeldOwner(input, w, o, n);
    }
    if !Leading(input, o, n) {
      more := RunOut(input, more, n, o);
    } else if input.candidates[n].Blob? {
      more := ReadsFirst(input, more, n);
    }
  }

  // The schedule in which one of the first five sources is the first to record.
  lemma FirstCandidate(input: Input, i: nat, o: Outcome) returns (actions: seq<Action>)
    requires input.Valid() && KeepsError(o) && Early(input, o, i)
    requires TotalSize(input.blobs, input.Wanted()) <= MAX_TOTAL_SIZE
    ensures Run(input, actions).Some? && ErrorIn(Run(input, actions).value.stats, o) == Some(input.ErrorAt(i))
  {
    hide Run, Inv, TotalSize, Input.Wanted, Leaders, Running;
    actions := HoldSources(input, o, i);
    RunKeepsInv(input, actions);
    var w := Run(input, actions).value;
    NotCancelled(input, w);
    HeldLaunches(input, w, o, i);
    actions := Begin(input, actions, i);
    if input.candidates[i].Blob? {
      HeldOwner(input, w, o, i);
      actions := ReadsFirst(input, actions, i);
    }
    var a := if input.candidates[i].Blob? then RecordOutcome(i) else Read(i);
    RunKeepsInv(input, actions);
    StatsOf(input, Run(input, actions).value);
    RunGrows(input, actions, a);
    StepNotes(input, Run(input, actions).value, a);
    NotedStats(w.stats, w.outcomes, o, input.ErrorAt(i));
    actions := actions + [a];
  }

  lemma StatsOf(input: Input, w: World)
    requires Inv(input, w)
    ensures Summarizes(w.stats, w.outcomes)
  {
  }

  lemma RunOfNothing(input: Input)
    requires input.Valid()
    ensures Run(input, []) == Some(Initial(|input.candidates|))
  {
  }

  // All complete schedules report the same error of a kind.
  ghost predicate ErrorFixed(input: Input, o: Outcome)
    requires input.Valid()
  {
    forall r, r' :: Complete(input, r) && Complete(input, r') ==>
      ErrorIn(Run(input, r).value.stats, o) == ErrorIn(Run(input, r').value.stats, o)
  }

  // The first five sources of this outcome carry the same error.
  ghost predicate SameErrors(input: Input, o: Outcome)
  {
    forall i: nat, j: nat, e, e' :: Early(input, o, i) && Early(input, o, j) && Carries(input, i, o, e) && Carries(input, j, o, e') ==> e == e'
  }

  // The reported error is that of one of the first five sources, and there is one exactly when a
  // candidate has the outcome.
  lemma ErrorOfCandidate(input: Input, actions: seq<Action>, o: Outcome)
    requires input.Valid() && Complete(input, actions) && KeepsError(o)
    requires TotalSize(input.blobs, input.Wanted()) <= MAX_TOTAL_SIZE
    ensures match ErrorIn(Run(input, actions).value.stats, o)
            case Some(e) => exists i: nat :: Early(input, o, i) && Carries(input, i, o, e)
            case None => forall i: nat, e :: !Carries(input, i, o, e)
  {
    RunKeepsInv(input, actions);
    RunKeepsEarly(input, actions, o);
    var w := Run(input, actions).value;
    VerdictExpected(input, w);
    OutcomesExpected(input, w, o);
    hide Run, TotalSize, Totals, CandidateOk, BlobOk, Produced, Input.Wanted, VerdictOf, Expected, Early;
    forall i: nat, e | Carries(input, i, o, e)
      ensures ErrorIn(w.stats, o).Some?
    {
      assert input.OutcomeAt(i) in set i | 0 <= i < |input.candidates| :: input.OutcomeAt(i);
    }
  }

  /**
   The schedule does not decide which error of a kind is reported exactly when the first five
   sources of that outcome carry the same classes.
   */
  lemma ErrorFixedIff(input: Input, o: Outcome)
    requires input.Valid() && KeepsError(o) && TotalSize(input.blobs, input.Wanted()) <= MAX_TOTAL_SIZE
    ensures ErrorFixed(input, o) <==> SameErrors(input, o)
  {
    hide Run, AllFinished, TotalSize, Input.Wanted, ErrorIn, Early;
    if SameErrors(input, o) {
      forall r, r' | Complete(input, r) && Complete(input, r')
        ensures ErrorIn(Run(input, r).value.stats, o) == ErrorIn(Run(input, r').value.stats, o)
      {
        ErrorOfCandidate(input, r, o);
        ErrorOfCandidate(input, r', o);
      }
    } else {
      var i: nat, j: nat, e, e' :| Early(input, o, i) && Early(input, o, j) && Carries(input, i, o, e) && Carries(input, j, o, e') && e != e';
      var first := FirstCandidate(input, i, o);
      var second := FirstCandidate(input, j, o);
      var r := Completes(input, first, o);
      var r' := Completes(input, second, o);
      assert ErrorIn(Run(input, r).value.stats, o) != ErrorIn(Run(input, r').value.stats, o);
    }
  }

  // Of a busy and an unreachable registry the schedule decides whether the error looks like a lost
  // connection.
  lemma ErrorNotFixed()
    ensures var busy, unreachable := {Transport, Transient}, {Transport, Transient, Connection};
            var input := Input([Unreadable(busy), Unreadable(unreachable)], []);
            input.Valid() && !ErrorFixed(input, FetchFailed)
  {
    var busy, unreachable := {Transport, Transient}, {Transport, Transient, Connection};
    var input := Input([Unreadable(busy), Unreadable(unreachable)], []);
    assert Connection !in busy && Connection in unreachable;
    assert Carries(input, 0, FetchFailed, busy) && Carries(input, 1, FetchFailed, unreachable);
    assert Leaders(input, FetchFailed, 0) == {} && Leaders(input, FetchFailed, 1) == {0};
    assert Early(input, FetchFailed, 0) && Early(input, FetchFailed, 1);
    hide ErrorFixed, Carries, Early;
    ErrorFixedIff(input, FetchFailed);
  }
}
