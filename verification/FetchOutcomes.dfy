/**
 The outcomes of fetching and verifying referrers, their statistics, and the error that a set of
 outcomes amounts to. An error is the set of error classes that it wraps.
 */
module FetchOutcomes {
  import opened Options

  const MAX_TOTAL_SIZE := 52428800
  const MAX_REFERRERS := 50

  datatype Class =
    | VerificationFailed   // signed material was found but did not verify
    | IncompleteSet        // attestations are missing because a limit was exceeded
    | SizeLimit            // a layer, response or download budget limit was exceeded
    | Content              // the registry served invalid content
    | NotFound             // the registry answered 404
    | Denied               // the registry answered 401 or 403
    | Transport            // the registry could not be reached or did not serve the request
    | Transient            // worth a retry
    | Connection           // the host is unreachable
    | TrustMaterial        // trust material could not be loaded
    | TrustedKey           // a trusted key file could not be loaded

  type Error = set<Class>

  // The errors of registries, contexts and the bundle verifier. None of them claims a failed
  // verification, and a limit is never a connection problem.
  predicate Raw(e: Error)
  {
    && VerificationFailed !in e && IncompleteSet !in e
    && (SizeLimit in e ==> Connection !in e)
  }

  datatype Outcome =
    | Verified
    | Unverified
    | Skipped
    | VerifyFailed
    | FetchFailed
    | LimitExceeded
    | KeyUnavailable

  // ---------- Classification ----------

  predicate IsReferrerTransportFailure(e: Error)
  {
    Denied !in e && Transport in e
  }

  // What an unreadable referrer amounts to.
  function ClassifyReferrer(e: Error): Outcome
  {
    if NotFound in e then Skipped
    else if SizeLimit in e then LimitExceeded
    else if Content !in e && IsReferrerTransportFailure(e) then FetchFailed
    else VerifyFailed
  }

  // A failure to list the referrers of an image.
  function ReferrersError(e: Error): Error
  {
    if SizeLimit in e then {VerificationFailed, IncompleteSet} + e
    else if Transport in e then e
    else {VerificationFailed, Content} + e
  }

  // A failure to read the cosign attestation tag.
  function TagContentError(e: Error): Error
  {
    if SizeLimit in e then {VerificationFailed, IncompleteSet} + e
    else if Content !in e && Transport in e then e
    else {VerificationFailed, Content} + e
  }

  // ---------- Statistics ----------

  datatype Stats = Stats(verifyFailures: nat, fetchErr: Option<Error>, limitErr: Option<Error>, keyErr: Option<Error>)

  const NO_STATS := Stats(0, None, None, None)

  function First(a: Option<Error>, b: Option<Error>): Option<Error>
  {
    if a.Some? then a else b
  }

  function Recorded(s: Stats, outcome: Outcome, e: Option<Error>): Stats
  {
    match outcome
    case VerifyFailed => s.(verifyFailures := s.verifyFailures + 1)
    case FetchFailed => s.(fetchErr := First(s.fetchErr, e))
    case LimitExceeded => s.(limitErr := First(s.limitErr, e))
    case KeyUnavailable => s.(keyErr := First(s.keyErr, e))
    case _ => s
  }

  function Merged(s: Stats, other: Stats): Stats
  {
    Stats(s.verifyFailures + other.verifyFailures, First(s.fetchErr, other.fetchErr),
          First(s.limitErr, other.limitErr), First(s.keyErr, other.keyErr))
  }

  function MergedAll(all: seq<Stats>): Stats
  {
    if all == [] then NO_STATS else Merged(MergedAll(all[..|all| - 1]), all[|all| - 1])
  }

  function RecordedAll(log: seq<(Outcome, Option<Error>)>): Stats
  {
    if log == [] then NO_STATS
    else Recorded(RecordedAll(log[..|log| - 1]), log[|log| - 1].0, log[|log| - 1].1)
  }

  // The outcomes that carry an error are recorded with one.
  predicate Paired(entry: (Outcome, Option<Error>))
  {
    entry.0 == FetchFailed || entry.0 == LimitExceeded || entry.0 == KeyUnavailable ==> entry.1.Some?
  }

  // Which outcomes occurred, which is all that the decision depends on.
  predicate Summarizes(s: Stats, outcomes: set<Outcome>)
  {
    && (s.verifyFailures > 0 <==> VerifyFailed in outcomes)
    && (s.fetchErr.Some? <==> FetchFailed in outcomes)
    && (s.limitErr.Some? <==> LimitExceeded in outcomes)
    && (s.keyErr.Some? <==> KeyUnavailable in outcomes)
  }

  // In whatever order outcomes are recorded, the statistics tell which ones occurred.
  lemma {:induction false} RecordedAllSummarizes(log: seq<(Outcome, Option<Error>)>)
    requires forall i :: 0 <= i < |log| ==> Paired(log[i])
    ensures Summarizes(RecordedAll(log), set i | 0 <= i < |log| :: log[i].0)
  {
    if log != [] {
      var n := |log| - 1;
      var before := log[..n];
      RecordedAllSummarizes(before);
      assert forall i :: 0 <= i < n ==> before[i] == log[i];
      assert (set i | 0 <= i < |log| :: log[i].0) == (set i | 0 <= i < |before| :: before[i].0) + {log[n].0};
    }
  }

  // Merged statistics tell which outcomes occurred in either part.
  lemma MergedSummarizes(s: Stats, outcomes: set<Outcome>, other: Stats, others: set<Outcome>)
    requires Summarizes(s, outcomes) && Summarizes(other, others)
    ensures Summarizes(Merged(s, other), outcomes + others)
  {
  }

  class CollectStats {
    var verifyFailures: nat
    var fetchErr: Option<Error>
    var limitErr: Option<Error>
    var keyErr: Option<Error>

    constructor ()
      ensures Value() == NO_STATS
    {
      verifyFailures, fetchErr, limitErr, keyErr := 0, None, None, None;
    }

    function Value(): Stats
      reads this
    {
      Stats(verifyFailures, fetchErr, limitErr, keyErr)
    }

    method Record(outcome: Outcome, e: Option<Error>)
      modifies this
      ensures Value() == Recorded(old(Value()), outcome, e)
    {
      match outcome {
        case VerifyFailed => verifyFailures := verifyFailures + 1;
        case FetchFailed =>
          if fetchErr.None? {
            fetchErr := e;
          }
        case LimitExceeded =>
          if limitErr.None? {
            limitErr := e;
          }
        case KeyUnavailable =>
          if keyErr.None? {
            keyErr := e;
          }
        case _ =>
      }
    }

    method Merge(other: CollectStats)
      requires other != this
      modifies this
      ensures Value() == Merged(old(Value()), other.Value())
    {
      verifyFailures := verifyFailures + other.verifyFailures;
      if fetchErr.None? {
        fetchErr := other.fetchErr;
      }
      if limitErr.None? {
        limitErr := other.limitErr;
      }
      if keyErr.None? {
        keyErr := other.keyErr;
      }
    }
  }

  function Values(stats: seq<CollectStats>): (values: seq<Stats>)
    reads stats
    ensures |values| == |stats| && forall i :: 0 <= i < |stats| ==> values[i] == stats[i].Value()
  {
    if stats == [] then [] else [stats[0].Value()] + Values(stats[1..])
  }

  // ---------- The decision ----------

  // The error that the outcomes of a collection amount to, by severity.
  function Evaluate(verified: nat, s: Stats): Option<Error>
  {
    if s.limitErr.Some? then Some({VerificationFailed, IncompleteSet} + s.limitErr.value)
    else if s.fetchErr.Some? then s.fetchErr
    else if verified == 0 && s.keyErr.Some? then s.keyErr
    else if verified == 0 && s.verifyFailures > 0 then Some({VerificationFailed})
    else None
  }

  method EvaluateCollection(verified: nat, stats: seq<CollectStats>) returns (e: Option<Error>)
    ensures e == Evaluate(verified, MergedAll(Values(stats)))
  {
    hide Merged, Values;
    var merged := new CollectStats();
    ghost var values := Values(stats);
    for i := 0 to |stats|
      invariant fresh(merged) && merged !in stats
      invariant values == Values(stats)
      invariant merged.Value() == MergedAll(values[..i])
    {
      assert values[..i + 1][..i] == values[..i];
      merged.Merge(stats[i]);
    }
    assert values[..|stats|] == values;
    if merged.limitErr.Some? {
      return Some({VerificationFailed, IncompleteSet} + merged.limitErr.value);
    }
    if merged.fetchErr.Some? {
      return merged.fetchErr;
    }
    if verified == 0 && merged.keyErr.Some? {
      return merged.keyErr;
    }
    if verified == 0 && merged.verifyFailures > 0 {
      return Some({VerificationFailed});
    }
    return None;
  }

  // The statistics hold errors of registries and verifiers only.
  predicate RawStats(s: Stats)
  {
    && (s.fetchErr.Some? ==> Raw(s.fetchErr.value))
    && (s.limitErr.Some? ==> Connection !in s.limitErr.value)
    && (s.keyErr.Some? ==> Raw(s.keyErr.value))
  }

  /**
   What the decision means: it claims an incomplete set exactly when a limit was exceeded, it
   claims a failed verification exactly then or when nothing verified, something failed and
   everything could be fetched and checked, and there is no error exactly when the set is complete
   and something verified or nothing was wrong.
   */
  lemma EvaluateMeaning(verified: nat, s: Stats)
    requires RawStats(s)
    ensures var e := Evaluate(verified, s);
            && (e.Some? && IncompleteSet in e.value <==> s.limitErr.Some?)
            && (e.Some? && IncompleteSet in e.value ==> Connection !in e.value)
            && (e.Some? && VerificationFailed in e.value <==>
                  || s.limitErr.Some?
                  || (s.fetchErr.None? && s.keyErr.None? && verified == 0 && s.verifyFailures > 0))
            && (e.None? <==>
                  && s.limitErr.None? && s.fetchErr.None?
                  && (verified > 0 || (s.keyErr.None? && s.verifyFailures == 0)))
  {
  }

  // A single unreadable referrer, with nothing verified.
  function DecisionFor(e: Error): Option<Error>
  {
    Evaluate(0, Recorded(NO_STATS, ClassifyReferrer(e), Some(e)))
  }

  /**
   What a referrer that cannot be read amounts to: nothing if it is gone, an incomplete set if it
   exceeds a limit, an unavailable registry only for a transport failure of a referrer that was
   served no content and no denial, and a failed verification in every other case.
   */
  lemma UnreadableReferrer(e: Error)
    requires Raw(e)
    ensures var d := DecisionFor(e);
            && (d.None? <==> NotFound in e)
            && (d.Some? && IncompleteSet in d.value <==> NotFound !in e && SizeLimit in e)
            && (d == Some(e) <==> NotFound !in e && SizeLimit !in e && Transport in e && Content !in e && Denied !in e)
            && (d.Some? && d != Some(e) ==> VerificationFailed in d.value)
  {
  }
}
