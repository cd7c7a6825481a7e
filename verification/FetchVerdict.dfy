/**
 The attestations and the error that a fetch returns: one pass over the referrers with its
 fallback to the cosign tag, retries, and the fallback from a mirror to the original registry.
 */
module FetchVerdict {
  import opened Options
  import opened FetchOutcomes

  const MAX_RETRIES := 2

  datatype Kind = Sigstore | NotationSignature | BaselineSbom
  datatype Attestation = Attestation(kind: Kind, content: nat, size: nat)

  type Attestations = seq<Attestation>

  predicate AllOf(atts: Attestations, kinds: set<Kind>)
  {
    forall i :: 0 <= i < |atts| ==> atts[i].kind in kinds
  }

  // ---------- What one pass meets ----------

  datatype Collected = Collected(atts: Attestations, stats: Stats)

  // The cosign attestation tag: missing, unreadable, or read. The interruption is that of the
  // context after the layers were read.
  datatype Tag = Missing | Unreadable(error: Error) | Read(collected: Collected)

  // The listing may fail, referrers may be dropped by the selection, and the collectors report
  // what they collected. The interruptions are those of the context after the collection and
  // after the tag was read.
  datatype Pass = Pass(
    listing: Option<Error>,
    dropped: nat,
    bundles: Collected,
    notation: Collected,
    baselines: Collected,
    interrupted: Option<Error>,
    tag: Tag,
    tagInterrupted: Option<Error>)
  {
    predicate Valid()
    {
      && (listing.Some? ==> Raw(listing.value))
      && RawStats(bundles.stats) && RawStats(notation.stats) && RawStats(baselines.stats)
      && AllOf(notation.atts, {NotationSignature}) && AllOf(baselines.atts, {BaselineSbom})
      && (interrupted.Some? ==> Raw(interrupted.value)) && (tagInterrupted.Some? ==> Raw(tagInterrupted.value))
      && (tag.Unreadable? ==> Raw(tag.error)) && (tag.Read? ==> RawStats(tag.collected.stats))
    }

    function Stats(): Stats { MergedAll([bundles.stats, notation.stats, baselines.stats]) }
  }

  datatype Fetched = Fetched(atts: Attestations, error: Option<Error>)

  predicate Has(e: Option<Error>, c: Class)
  {
    e.Some? && c in e.value
  }

  // The attestations merely failed verification; the set is complete.
  predicate MerelyFailed(e: Option<Error>)
  {
    Has(e, VerificationFailed) && !Has(e, IncompleteSet)
  }

  // ---------- One pass ----------

  function CosignTagFallback(p: Pass): Fetched
  {
    match p.tag
    case Unreadable(e) => Fetched([], Some(TagContentError(e)))
    case Missing => Fetched([], p.tagInterrupted)
    case Read(c) =>
      var e := Evaluate(|c.atts|, c.stats);
      if Has(e, VerificationFailed) then Fetched([], e)
      else if p.tagInterrupted.Some? then Fetched([], p.tagInterrupted)
      else if e.Some? then Fetched([], e)
      else Fetched(c.atts, None)
  }

  // The selection's attestations, Notation signatures and baselines, with an error.
  datatype Selection = Selection(atts: Attestations, notation: Attestations, baselines: Attestations, error: Option<Error>)

  function CollectSelection(p: Pass): Selection
  {
    var e := Evaluate(|p.bundles.atts|, p.Stats());
    if Has(e, VerificationFailed) then
      if Has(e, IncompleteSet) then Selection([], [], [], e)
      else Selection([], p.notation.atts, p.baselines.atts, e)
    else if p.interrupted.Some? then Selection([], [], [], p.interrupted)
    else if e.Some? then Selection([], [], [], e)
    else Selection(p.bundles.atts, p.notation.atts, p.baselines.atts, None)
  }

  function TagFallbackAfterFailedReferrers(p: Pass, s: Selection): Fetched
  {
    if !MerelyFailed(s.error) || s.baselines != [] then Fetched([], None)
    else
      var tag := CosignTagFallback(p);
      if Has(tag.error, IncompleteSet) then Fetched([], tag.error)
      else if tag.error.Some? || tag.atts == [] then Fetched([], None)
      else Fetched(tag.atts, None)
  }

  function CollectionFailure(p: Pass, s: Selection): Fetched
  {
    var tag := TagFallbackAfterFailedReferrers(p, s);
    if tag.error.Some? then Fetched([], tag.error)
    else if tag.atts != [] then Fetched(tag.atts + s.notation, None)
    else Fetched(s.notation + s.baselines, s.error)
  }

  function FetchOnce(p: Pass): Fetched
  {
    if p.listing.Some? then Fetched([], Some(ReferrersError(p.listing.value)))
    else if p.dropped > 0 then Fetched([], Some({VerificationFailed, IncompleteSet}))
    else
      var s := CollectSelection(p);
      if s.error.Some? then CollectionFailure(p, s)
      else if s.atts == [] && s.baselines == [] then
        var tag := CosignTagFallback(p);
        if MerelyFailed(tag.error) then Fetched(s.notation, tag.error)
        else if tag.error.Some? then Fetched([], tag.error)
        else Fetched(tag.atts + s.notation, None)
      else Fetched(s.atts + s.notation + s.baselines, None)
  }

  // ---------- The contract ----------

  // Attestations come without an error. With a complete set that merely failed verification only
  // Notation signatures and baselines come along, and with any other error nothing does.
  predicate Contract(f: Fetched)
  {
    f.error.Some? ==>
      if MerelyFailed(f.error) then AllOf(f.atts, {NotationSignature, BaselineSbom}) else f.atts == []
  }

  // The cosign tag is read when the referrers gave no attestation and no baseline, and nothing
  // worse than a failed verification.
  predicate TagConsulted(p: Pass)
  {
    && p.listing.None? && p.dropped == 0
    && p.Stats().limitErr.None? && p.Stats().fetchErr.None?
    && p.bundles.atts == [] && p.Stats().keyErr.None? && p.baselines.atts == []
    && (p.Stats().verifyFailures > 0 || p.interrupted.None?)
  }

  predicate TagLimit(t: Tag)
  {
    match t
    case Missing => false
    case Unreadable(e) => SizeLimit in e
    case Read(c) => c.stats.limitErr.Some?
  }

  // Some source that the pass consulted exceeded a limit.
  predicate LimitMet(p: Pass)
  {
    if p.listing.Some? then SizeLimit in p.listing.value
    else
      || p.dropped > 0
      || p.bundles.stats.limitErr.Some? || p.notation.stats.limitErr.Some? || p.baselines.stats.limitErr.Some?
      || (TagConsulted(p) && TagLimit(p.tag))
  }

  lemma MergedMeaning(p: Pass)
    ensures p.Stats() == Merged(Merged(Merged(NO_STATS, p.bundles.stats), p.notation.stats), p.baselines.stats)
    ensures p.Stats().verifyFailures == p.bundles.stats.verifyFailures + p.notation.stats.verifyFailures + p.baselines.stats.verifyFailures
    ensures p.Stats().fetchErr == if p.bundles.stats.fetchErr.Some? then p.bundles.stats.fetchErr
                                  else if p.notation.stats.fetchErr.Some? then p.notation.stats.fetchErr
                                  else p.baselines.stats.fetchErr
    ensures p.Stats().limitErr == if p.bundles.stats.limitErr.Some? then p.bundles.stats.limitErr
                                  else if p.notation.stats.limitErr.Some? then p.notation.stats.limitErr
                                  else p.baselines.stats.limitErr
    ensures p.Stats().keyErr == if p.bundles.stats.keyErr.Some? then p.bundles.stats.keyErr
                                else if p.notation.stats.keyErr.Some? then p.notation.stats.keyErr
                                else p.baselines.stats.keyErr
  {
    var all := [p.bundles.stats, p.notation.stats, p.baselines.stats];
    var two, one := [p.bundles.stats, p.notation.stats], [p.bundles.stats];
    assert all[..2] == two && two[..1] == one && one[..0] == [];
    assert MergedAll(all) == Merged(MergedAll(two), p.baselines.stats);
    assert MergedAll(two) == Merged(MergedAll(one), p.notation.stats);
  }

  lemma TagMeaning(p: Pass)
    requires p.Valid()
    ensures var f := CosignTagFallback(p);
            && (Has(f.error, IncompleteSet) <==> TagLimit(p.tag))
            && (Has(f.error, IncompleteSet) ==> Has(f.error, VerificationFailed) && !Has(f.error, Connection))
            && (f.error.Some? ==> f.atts == [])
  {
    if p.tag.Read? {
      EvaluateMeaning(|p.tag.collected.atts|, p.tag.collected.stats);
    }
  }

  /**
   One pass keeps the contract, and it reports an incomplete set, as a failed verification that is
   no connection problem, exactly when a source that it consulted exceeded a limit.
   */
  lemma PassMeaning(p: Pass)
    requires p.Valid()
    ensures var f := FetchOnce(p);
            && Contract(f)
            && (Has(f.error, IncompleteSet) <==> LimitMet(p))
            && (Has(f.error, IncompleteSet) ==> Has(f.error, VerificationFailed) && !Has(f.error, Connection))
  {
    hide TagContentError, Evaluate, CosignTagFallback, TagLimit;
    MergedMeaning(p);
    EvaluateMeaning(|p.bundles.atts|, p.Stats());
    TagMeaning(p);
  }

  /**
   A pass without an error gave a complete set: nothing was dropped, no limit was exceeded and no
   source failed to answer, and anything that failed verification is outweighed by a verified
   attestation of the referrers or of the tag.
   */
  lemma SuccessIsComplete(p: Pass)
    requires p.Valid() && FetchOnce(p).error.None?
    ensures p.listing.None? && p.dropped == 0 && !LimitMet(p)
    ensures p.Stats().fetchErr.None?
    ensures p.Stats().verifyFailures > 0 || p.Stats().keyErr.Some? ==>
              p.bundles.atts != [] || (p.tag.Read? && p.tag.collected.atts != [])
    ensures TagConsulted(p) ==> p.tag.Missing? || (p.tag.Read? && Evaluate(|p.tag.collected.atts|, p.tag.collected.stats).None?)
  {
    hide TagContentError, Evaluate, TagLimit;
    MergedMeaning(p);
    EvaluateMeaning(|p.bundles.atts|, p.Stats());
    TagMeaning(p);
    PassMeaning(p);
    assert p.tag.Unreadable? ==> CosignTagFallback(p).error.Some?;
  }

  // ---------- When a pass succeeds and fails ----------

  // No source of the referrers exceeded a limit or failed to answer.
  predicate ReferrersAnswer(p: Pass)
  {
    p.listing.None? && p.dropped == 0 && p.Stats().limitErr.None? && p.Stats().fetchErr.None?
  }

  // Nothing verified among the referrers and something failed.
  predicate NoneVerified(p: Pass)
  {
    p.bundles.atts == [] && (p.Stats().keyErr.Some? || p.Stats().verifyFailures > 0)
  }

  // The tag is missing, or was read with nothing wrong or something verified.
  predicate TagGood(p: Pass)
  {
    && p.tagInterrupted.None? && !p.tag.Unreadable?
    && (p.tag.Read? ==>
          var c := p.tag.collected;
          && c.stats.limitErr.None? && c.stats.fetchErr.None?
          && (c.atts != [] || (c.stats.keyErr.None? && c.stats.verifyFailures == 0)))
  }

  // Attestations of the tag make up for referrers that failed verification, unless there is a
  // baseline.
  predicate TagSaves(p: Pass)
  {
    p.Stats().keyErr.None? && p.baselines.atts == [] && TagGood(p) && p.tag.Read? && p.tag.collected.atts != []
  }

  predicate Succeeds(p: Pass)
  {
    && ReferrersAnswer(p)
    && if NoneVerified(p) then TagSaves(p)
       else p.interrupted.None? && (p.bundles.atts != [] || p.baselines.atts != [] || TagGood(p))
  }

  // The tag exceeded a limit, holds no valid content, or nothing in it verified and something
  // failed.
  predicate TagDenies(t: Tag)
  {
    match t
    case Missing => false
    case Unreadable(e) => SizeLimit in e || Content in e || Transport !in e
    case Read(c) =>
      || c.stats.limitErr.Some?
      || (c.stats.fetchErr.None? && c.stats.keyErr.None? && c.atts == [] && c.stats.verifyFailures > 0)
  }

  // The image is denied: a listing that is no transport failure, a limit, referrers that failed
  // verification and nothing that makes up for them, or a tag that failed when it decided.
  predicate Denied(p: Pass)
  {
    if p.listing.Some? then SizeLimit in p.listing.value || Transport !in p.listing.value
    else if p.dropped > 0 || p.Stats().limitErr.Some? then true
    else if p.Stats().fetchErr.Some? then false
    else if NoneVerified(p) then p.Stats().keyErr.None? && !TagSaves(p)
    else p.interrupted.None? && p.bundles.atts == [] && p.baselines.atts == [] && TagDenies(p.tag)
  }

  // What kept a pass from an answer, if it is not denied: the listing, the interruption of the
  // context, a referrer or its key, or the same of the tag.
  function Obstacle(p: Pass): Option<Error>
  {
    if p.listing.Some? then p.listing
    else if p.interrupted.Some? then p.interrupted
    else if p.Stats().fetchErr.Some? then p.Stats().fetchErr
    else if NoneVerified(p) then p.Stats().keyErr
    else if p.tag.Unreadable? then Some(p.tag.error)
    else if p.tagInterrupted.Some? then p.tagInterrupted
    else if p.tag.Read? then First(p.tag.collected.stats.fetchErr, p.tag.collected.stats.keyErr)
    else None
  }

  lemma TagErrors(p: Pass)
    requires p.Valid()
    ensures var e := CosignTagFallback(p).error;
            && (e.None? <==> TagGood(p))
            && (Has(e, VerificationFailed) <==> TagDenies(p.tag))
            && (e.Some? && !TagDenies(p.tag) ==>
                  e == if p.tag.Unreadable? then Some(p.tag.error)
                       else if p.tagInterrupted.Some? then p.tagInterrupted
                       else First(p.tag.collected.stats.fetchErr, p.tag.collected.stats.keyErr))
            && (e.None? ==> CosignTagFallback(p).atts == if p.tag.Read? then p.tag.collected.atts else [])
  {
  }

  lemma SelectionErrors(p: Pass)
    requires p.Valid() && p.listing.None? && p.dropped == 0
    ensures var s := CollectSelection(p);
            && (s.error.None? <==> ReferrersAnswer(p) && !NoneVerified(p) && p.interrupted.None?)
            && (MerelyFailed(s.error) <==> ReferrersAnswer(p) && NoneVerified(p) && p.Stats().keyErr.None?)
            && (Has(s.error, VerificationFailed) <==> p.Stats().limitErr.Some? || MerelyFailed(s.error))
            && (s.error.Some? && !Has(s.error, VerificationFailed) ==>
                  s.error == if p.interrupted.Some? then p.interrupted else First(p.Stats().fetchErr, p.Stats().keyErr))
            && (s.error.None? || MerelyFailed(s.error) ==> s.baselines == p.baselines.atts)
            && (s.error.None? ==> s.atts == p.bundles.atts)
  {
    hide Evaluate;
    MergedMeaning(p);
    EvaluateMeaning(|p.bundles.atts|, p.Stats());
    EvaluateKeeps(|p.bundles.atts|, p.Stats());
  }

  lemma Answers(p: Pass)
    requires p.listing.None? && p.dropped == 0
    ensures ReferrersAnswer(p) <==> p.Stats().limitErr.None? && p.Stats().fetchErr.None?
    ensures NoneVerified(p) ==> p.bundles.atts == []
    ensures p.bundles.atts == [] && p.Stats().keyErr.Some? ==> NoneVerified(p)
    ensures NoneVerified(p) && p.Stats().keyErr.None? ==> p.Stats().verifyFailures > 0
  {
  }

  lemma NoAnswer(p: Pass)
    requires p.listing.Some? || p.dropped > 0
    ensures !ReferrersAnswer(p)
  {
  }

  lemma EvaluateKeeps(verified: nat, s: Stats)
    requires RawStats(s)
    ensures var e := Evaluate(verified, s);
            e.Some? && !Has(e, VerificationFailed) ==> e == First(s.fetchErr, s.keyErr)
  {
  }

  /**
   When a pass has no error, when the image is denied, and which error it reports otherwise. So a
   failed verification and an unavailable registry are never taken for one another, and nothing
   wrong is never an error.
   */
  lemma PassErrors(p: Pass)
    requires p.Valid()
    ensures var e := FetchOnce(p).error;
            && (e.None? <==> Succeeds(p))
            && (Has(e, VerificationFailed) <==> Denied(p))
            && (e.Some? && !Denied(p) ==> e == Obstacle(p))
  {
    hide CosignTagFallback, CollectSelection, TagDenies, ReferrersAnswer, NoneVerified;
    MergedMeaning(p);
    TagErrors(p);
    TagMeaning(p);
    if p.listing.None? && p.dropped == 0 {
      SelectionErrors(p);
      Answers(p);
    } else {
      NoAnswer(p);
    }
  }

  // The Sigstore attestations that count: those of the referrers, or of the tag when there are
  // neither such attestations nor baselines.
  function Counting(p: Pass): Attestations
  {
    if p.bundles.atts != [] || p.baselines.atts != [] then p.bundles.atts
    else if p.tag.Read? then p.tag.collected.atts
    else []
  }

  /**
   What a pass returns: without an error all counting attestations, all Notation signatures and all
   baselines in the order they were collected, and with a complete set that merely failed
   verification all Notation signatures and baselines.
   */
  lemma ReturnsEverything(p: Pass)
    requires p.Valid()
    ensures var f := FetchOnce(p);
            && (f.error.None? ==> f.atts == Counting(p) + p.notation.atts + p.baselines.atts)
            && (MerelyFailed(f.error) && p.listing.None? ==> f.atts == p.notation.atts + p.baselines.atts)
            && (p.listing.Some? ==> f.atts == [])
  {
    hide TagContentError, Evaluate;
    assert p.notation.atts + [] == p.notation.atts;
    assert Counting(p) + p.notation.atts + [] == Counting(p) + p.notation.atts;
    MergedMeaning(p);
    EvaluateMeaning(|p.bundles.atts|, p.Stats());
    TagMeaning(p);
  }

  // The listing broke off while it was decoded: that is no transport failure, but it looks like a
  // lost connection.
  predicate ListingBroken(p: Pass)
  {
    p.listing.Some? && Transport !in p.listing.value && Connection in p.listing.value
  }

  // The same happened to the cosign tag, which decided because no referrer failed verification.
  predicate TagBroken(p: Pass)
  {
    && TagConsulted(p) && p.Stats().verifyFailures == 0 && p.tag.Unreadable?
    && (Content in p.tag.error || Transport !in p.tag.error) && Connection in p.tag.error
  }

  /**
   A failed verification of a pass looks like a lost connection exactly when the listing, or the
   tag that decided, broke off while it was decoded.
   */
  lemma BrokenPassIff(p: Pass)
    requires p.Valid()
    ensures var e := FetchOnce(p).error;
            Has(e, VerificationFailed) && Has(e, Connection) <==> ListingBroken(p) || TagBroken(p)
  {
    hide Evaluate;
    MergedMeaning(p);
    EvaluateMeaning(|p.bundles.atts|, p.Stats());
    EvaluateNotBroken(|p.bundles.atts|, p.Stats());
    if p.tag.Read? {
      EvaluateMeaning(|p.tag.collected.atts|, p.tag.collected.stats);
      EvaluateNotBroken(|p.tag.collected.atts|, p.tag.collected.stats);
    }
  }

  lemma EvaluateNotBroken(verified: nat, s: Stats)
    requires RawStats(s)
    ensures Has(Evaluate(verified, s), VerificationFailed) ==> !Has(Evaluate(verified, s), Connection)
  {
  }

  // ---------- Retries ----------

  // What an attempt meets before its pass: the wait for its turn may be interrupted.
  datatype Attempt = Attempt(waitInterrupted: Option<Error>, pass: Pass, contextError: Option<Error>) {
    predicate Valid()
    {
      && pass.Valid()
      && (waitInterrupted.Some? ==> Raw(waitInterrupted.value)) && (contextError.Some? ==> Raw(contextError.value))
    }
  }

  // The error that ends the retry loop, if the fetch should not be retried. A failed verification
  // wins over an interruption.
  function FinalFetchError(e: Error, contextError: Option<Error>): Option<Error>
  {
    if VerificationFailed in e then Some(e)
    else if contextError.Some? then contextError
    else if Transient !in e then Some(e)
    else None
  }

  // What an attempt returns, or None when it is retried.
  function AttemptResult(a: Attempt): Option<Fetched>
  {
    if a.waitInterrupted.Some? then Some(Fetched([], a.waitInterrupted))
    else
      var f := FetchOnce(a.pass);
      if f.error.None? then Some(f)
      else
        var final := FinalFetchError(f.error.value, a.contextError);
        if final.None? then None
        else if VerificationFailed in final.value then Some(Fetched(f.atts, final))
        else Some(Fetched([], final))
  }

  // The first attempt that is not retried decides; after the last one its error is returned.
  function Retried(attempts: seq<Attempt>): Fetched
    requires |attempts| > 0
  {
    var first := AttemptResult(attempts[0]);
    if first.Some? then first.value
    else if |attempts| == 1 then Fetched([], FetchOnce(attempts[0].pass).error)
    else Retried(attempts[1..])
  }

  method FetchWithRetry(attempts: seq<Attempt>) returns (result: Fetched)
    requires |attempts| == MAX_RETRIES + 1
    ensures result == Retried(attempts)
    ensures (forall i :: 0 <= i < |attempts| ==> attempts[i].Valid()) ==>
              var last := attempts[Decided(attempts)];
              && (result.error.None? <==> last.waitInterrupted.None? && FetchOnce(last.pass).error.None?)
              && result.error == if last.waitInterrupted.Some? then last.waitInterrupted
                                 else if FetchOnce(last.pass).error.None? || Has(FetchOnce(last.pass).error, VerificationFailed)
                                 then FetchOnce(last.pass).error
                                 else if last.contextError.Some? then last.contextError
                                 else FetchOnce(last.pass).error
  {
    if forall i :: 0 <= i < |attempts| ==> attempts[i].Valid() {
      RetriesReturn(attempts);
    }
    hide FetchOnce, Attempt.Valid;
    var lastErr: Option<Error> := None;
    for attempt := 0 to MAX_RETRIES + 1
      invariant attempt <= MAX_RETRIES ==> Retried(attempts) == Retried(attempts[attempt..])
      invariant attempt > MAX_RETRIES ==> Retried(attempts) == Fetched([], lastErr)
    {
      var a := attempts[attempt];
      assert attempts[attempt..][0] == a && attempts[attempt..][1..] == attempts[attempt + 1..];
      if a.waitInterrupted.Some? {
        return Fetched([], a.waitInterrupted);
      }
      var f := FetchOnce(a.pass);
      if f.error.None? {
        return f;
      }
      var final := FinalFetchError(f.error.value, a.contextError);
      if final.Some? {
        if VerificationFailed in final.value {
          return Fetched(f.atts, final);
        }
        return Fetched([], final);
      }
      lastErr := f.error;
    }
    return Fetched([], lastErr);
  }

  // The attempts that ran, up to and including the one that decided.
  function Decided(attempts: seq<Attempt>): (n: nat)
    requires |attempts| > 0
    ensures n < |attempts|
  {
    if AttemptResult(attempts[0]).Some? || |attempts| == 1 then 0 else 1 + Decided(attempts[1..])
  }

  // The attempt ran, and ended in a transient error that is no failed verification.
  predicate MayRetry(a: Attempt)
  {
    && a.waitInterrupted.None? && a.contextError.None?
    && Has(FetchOnce(a.pass).error, Transient) && !Has(FetchOnce(a.pass).error, VerificationFailed)
  }

  predicate AttemptLimit(a: Attempt)
  {
    a.waitInterrupted.None? && LimitMet(a.pass)
  }

  /**
   What retries return: the first attempt that may not be retried decides, or the last one. Its
   interrupted wait, its success and its failed verification are returned as they are; else the
   error is that of the context if it was interrupted, and that of the pass if not.
   */
  lemma {:induction false} RetriesReturn(attempts: seq<Attempt>)
    requires |attempts| > 0 && forall i :: 0 <= i < |attempts| ==> attempts[i].Valid()
    ensures var n, f := Decided(attempts), Retried(attempts);
            var a := attempts[n];
            var pass := FetchOnce(a.pass);
            && (forall i :: 0 <= i < n ==> MayRetry(attempts[i]))
            && (MayRetry(a) ==> n == |attempts| - 1)
            && (f.error.None? <==> a.waitInterrupted.None? && pass.error.None?)
            && f == if a.waitInterrupted.Some? then Fetched([], a.waitInterrupted)
                    else if pass.error.None? || Has(pass.error, VerificationFailed) then pass
                    else if a.contextError.Some? then Fetched([], a.contextError)
                    else Fetched([], pass.error)
  {
    hide FetchOnce, Pass.Valid;
    assert attempts[0].Valid();
    if AttemptResult(attempts[0]).None? && |attempts| > 1 {
      var rest := attempts[1..];
      RetriesReturn(rest);
      assert forall i :: 0 < i <= Decided(rest) ==> attempts[i] == rest[i - 1];
    }
  }

  /**
   Retries keep the contract, and the fetch reports an incomplete set exactly when an attempt that
   ran exceeded a limit, which is then the last one: a limit is never retried away. Only transient
   errors are retried, and a success or a failed verification is final, also when the context was
   interrupted meanwhile.
   */
  lemma {:induction false} RetriesMeaning(attempts: seq<Attempt>)
    requires |attempts| > 0 && forall i :: 0 <= i < |attempts| ==> attempts[i].Valid()
    ensures var f := Retried(attempts);
            && Contract(f)
            && (Has(f.error, IncompleteSet) <==> AttemptLimit(attempts[Decided(attempts)]))
            && (forall i :: 0 <= i < Decided(attempts) ==> !AttemptLimit(attempts[i]) && MayRetry(attempts[i]))
            && (var a := attempts[Decided(attempts)];
                a.waitInterrupted.None? && (FetchOnce(a.pass).error.None? || Has(FetchOnce(a.pass).error, VerificationFailed)) ==>
                  f == FetchOnce(a.pass))
            && (Has(f.error, IncompleteSet) ==> Has(f.error, VerificationFailed) && !Has(f.error, Connection))
  {
    hide FetchOnce, LimitMet;
    var a := attempts[0];
    assert a.Valid();
    PassMeaning(a.pass);
    if AttemptResult(a).None? && |attempts| > 1 {
      var rest := attempts[1..];
      RetriesMeaning(rest);
      assert forall i :: 0 < i <= Decided(rest) ==> attempts[i] == rest[i - 1];
    }
  }

  // ---------- Mirrors ----------

  predicate AsksOriginal(mirror: seq<Attempt>, fallback: Option<seq<Attempt>>, contextError: Option<Error>)
    requires |mirror| > 0
  {
    Has(Retried(mirror).error, Connection) && fallback.Some? && contextError.None?
  }

  // A mirror that cannot be reached is followed by the original registry; the error then wraps
  // both errors.
  function Fetch(mirror: seq<Attempt>, fallback: Option<seq<Attempt>>, contextError: Option<Error>): Fetched
    requires |mirror| > 0 && (fallback.Some? ==> |fallback.value| > 0)
  {
    var first := Retried(mirror);
    if AsksOriginal(mirror, fallback, contextError) then
      var second := Retried(fallback.value);
      if second.error.Some? then Fetched(second.atts, Some(second.error.value + first.error.value))
      else second
    else first
  }

  predicate ValidAttempts(attempts: seq<Attempt>)
  {
    |attempts| > 0 && forall i :: 0 <= i < |attempts| ==> attempts[i].Valid()
  }

  /**
   The whole fetch keeps the contract, and it reports an incomplete set exactly when the registry
   that decided exceeded a limit: the original one when the mirror could not be reached, else the
   mirror. A limit of the mirror is never replaced by the original registry. The result is that of
   the registry that decided, and an error of the original registry also names that of the mirror.
   */
  lemma FetchMeaning(mirror: seq<Attempt>, fallback: Option<seq<Attempt>>, contextError: Option<Error>)
    requires ValidAttempts(mirror) && (fallback.Some? ==> ValidAttempts(fallback.value))
    ensures var f := Fetch(mirror, fallback, contextError);
            var limited := AttemptLimit(mirror[Decided(mirror)]);
            var replaced := AsksOriginal(mirror, fallback, contextError);
            && Contract(f)
            && (replaced <==> Has(Retried(mirror).error, Connection) && fallback.Some? && contextError.None?)
            && (!replaced ==> f == Retried(mirror))
            && (replaced ==>
                  var original := Retried(fallback.value);
                  && f.atts == original.atts && (f.error.None? <==> original.error.None?)
                  && (forall c :: Has(f.error, c) <==> f.error.Some? && (Has(original.error, c) || Has(Retried(mirror).error, c))))
            && (limited ==> !replaced && Has(f.error, IncompleteSet))
            && (Has(f.error, IncompleteSet) <==> limited || (replaced && AttemptLimit(fallback.value[Decided(fallback.value)])))
  {
    hide Retried, Decided, AttemptLimit;
    RetriesMeaning(mirror);
    if fallback.Some? {
      RetriesMeaning(fallback.value);
    }
  }

  predicate Broken(a: Attempt)
  {
    a.waitInterrupted.None? && (ListingBroken(a.pass) || TagBroken(a.pass))
  }

  // The same for retries: the attempt that decided tells.
  lemma {:induction false} BrokenRetriesIff(attempts: seq<Attempt>)
    requires ValidAttempts(attempts)
    ensures var e := Retried(attempts).error;
            Has(e, VerificationFailed) && Has(e, Connection) <==> Broken(attempts[Decided(attempts)])
  {
    hide FetchOnce, ListingBroken, TagBroken;
    var a := attempts[0];
    assert a.Valid();
    BrokenPassIff(a.pass);
    if AttemptResult(a).None? && |attempts| > 1 {
      BrokenRetriesIff(attempts[1..]);
    }
  }

  /**
   Whether a failed verification of the mirror stands: the original registry is asked although the
   mirror failed verification exactly when there is one, the context is alive and the deciding
   attempt broke off while it was decoded. The failure is then lost exactly when the original
   registry answers without an error.
   */
  lemma MirrorFailureReplacedIff(mirror: seq<Attempt>, fallback: Option<seq<Attempt>>, contextError: Option<Error>)
    requires ValidAttempts(mirror) && (fallback.Some? ==> ValidAttempts(fallback.value))
    ensures var denied := Has(Retried(mirror).error, VerificationFailed);
            var replaced := fallback.Some? && contextError.None? && Broken(mirror[Decided(mirror)]);
            && (denied && AsksOriginal(mirror, fallback, contextError) <==> replaced)
            && (denied && !Has(Fetch(mirror, fallback, contextError).error, VerificationFailed) <==>
                  replaced && Retried(fallback.value).error.None?)
            && (replaced && Retried(fallback.value).error.None? ==> Fetch(mirror, fallback, contextError) == Retried(fallback.value))
            && (denied && !replaced ==> Fetch(mirror, fallback, contextError) == Retried(mirror))
  {
    hide Retried, Decided, Broken;
    BrokenRetriesIff(mirror);
  }

  /**
   A mirror whose first listing breaks off while it is decoded failed verification, but the answer
   is that of the original registry.
   */
  lemma MirrorDenialReplaced(mirror: seq<Attempt>, fallback: seq<Attempt>)
    requires ValidAttempts(mirror) && ValidAttempts(fallback)
    requires mirror[0].waitInterrupted.None? && mirror[0].pass.listing == Some({Connection})
    requires Retried(fallback).error.None?
    ensures MerelyFailed(Retried(mirror).error)
    ensures Fetch(mirror, Some(fallback), None) == Retried(fallback)
  {
    hide Retried;
    var e := mirror[0].pass.listing.value;
    assert ReferrersError(e) == {VerificationFailed, Content} + e;
    assert Retried(mirror) == AttemptResult(mirror[0]).value by { RetriedFirst(mirror); }
  }

  lemma RetriedFirst(attempts: seq<Attempt>)
    requires |attempts| > 0 && AttemptResult(attempts[0]).Some?
    ensures Retried(attempts) == AttemptResult(attempts[0]).value
  {
    hide AttemptResult;
  }

  // ---------- The cosign tag ----------

  // What verifying a bundle gives: a signature, from which an attestation can be built or not,
  // or an error.
  datatype Checked = Signed(usable: bool, attestation: Attestation) | Rejected(error: Error)

  predicate FirstSigned(candidates: seq<Checked>, i: nat)
  {
    i < |candidates| && candidates[i].Signed? && forall j :: 0 <= j < i ==> candidates[j].Rejected?
  }

  // A class of error that some candidate was rejected with.
  predicate SomeRejected(candidates: seq<Checked>, c: Class)
  {
    exists i :: 0 <= i < |candidates| && candidates[i].Rejected? && c in candidates[i].error
  }

  /**
   Verifies the bundles derived from one layer. The first one with a valid signature decides. When
   all are rejected, missing trust material of any of them is a fetch failure or a missing key.
   */
  method VerifyCosignCandidates(candidates: seq<Checked>, none: Attestation) returns (layer: Layer)
    ensures Paired((layer.outcome, layer.error))
    ensures forall i: nat :: FirstSigned(candidates, i) ==>
              if candidates[i].usable then layer == Layer(Verified, None, candidates[i].attestation)
              else layer == Layer(VerifyFailed, None, none)
    ensures (forall i :: 0 <= i < |candidates| ==> candidates[i].Rejected?) ==>
              layer.outcome == if SomeRejected(candidates, TrustMaterial)
                               then (if SomeRejected(candidates, TrustedKey) then KeyUnavailable else FetchFailed)
                               else VerifyFailed
  {
    if |candidates| == 0 {
      return Layer(VerifyFailed, None, none);
    }
    var joined: Error := {};
    for i := 0 to |candidates|
      invariant forall j :: 0 <= j < i ==> candidates[j].Rejected?
      invariant forall c :: c in joined <==> SomeRejected(candidates[..i], c)
    {
      if candidates[i].Rejected? {
        joined := joined + candidates[i].error;
        RejectedGrows(candidates, i);
        continue;
      }
      assert FirstSigned(candidates, i);
      if !candidates[i].usable {
        return Layer(VerifyFailed, None, none);
      }
      return Layer(Verified, None, candidates[i].attestation);
    }
    assert candidates[..|candidates|] == candidates;
    if TrustMaterial in joined {
      return Layer(if TrustedKey in joined then KeyUnavailable else FetchFailed, Some(joined), none);
    }
    return Layer(VerifyFailed, None, none);
  }

  lemma RejectedGrows(candidates: seq<Checked>, i: nat)
    requires i < |candidates| && candidates[i].Rejected?
    ensures forall c :: SomeRejected(candidates[..i + 1], c) <==> SomeRejected(candidates[..i], c) || c in candidates[i].error
  {
    forall c
      ensures SomeRejected(candidates[..i + 1], c) <==> SomeRejected(candidates[..i], c) || c in candidates[i].error
    {
      if c in candidates[i].error {
        assert candidates[..i + 1][i] == candidates[i];
      }
      if SomeRejected(candidates[..i], c) {
        var k :| 0 <= k < i && candidates[..i][k].Rejected? && c in candidates[..i][k].error;
        assert candidates[..i + 1][k] == candidates[..i][k];
      }
      if SomeRejected(candidates[..i + 1], c) && c !in candidates[i].error {
        var k :| 0 <= k < i + 1 && candidates[..i + 1][k].Rejected? && c in candidates[..i + 1][k].error;
        assert candidates[..i][k] == candidates[..i + 1][k];
      }
    }
  }

  datatype Layer = Layer(outcome: Outcome, error: Option<Error>, attestation: Attestation)

  function VerifiedSize(layers: seq<Layer>): nat
  {
    if layers == [] then 0
    else
      var last := layers[|layers| - 1];
      VerifiedSize(layers[..|layers| - 1]) + if last.outcome == Verified then last.attestation.size else 0
  }

  function VerifiedOf(layers: seq<Layer>): Attestations
  {
    if layers == [] then []
    else
      var last := layers[|layers| - 1];
      VerifiedOf(layers[..|layers| - 1]) + if last.outcome == Verified then [last.attestation] else []
  }

  lemma {:induction false} VerifiedSizeMonotone(layers: seq<Layer>, n: nat)
    requires n <= |layers|
    ensures VerifiedSize(layers[..n]) <= VerifiedSize(layers)
  {
    if n == |layers| {
      assert layers[..n] == layers;
    } else {
      assert layers[..|layers| - 1][..n] == layers[..n];
      VerifiedSizeMonotone(layers[..|layers| - 1], n);
    }
  }

  function LogOf(layers: seq<Layer>): seq<(Outcome, Option<Error>)>
  {
    seq(|layers|, i requires 0 <= i < |layers| => (layers[i].outcome, layers[i].error))
  }

  lemma LogGrows(layers: seq<Layer>, i: nat)
    requires i < |layers|
    ensures LogOf(layers[..i + 1]) == LogOf(layers[..i]) + [(layers[i].outcome, layers[i].error)]
    ensures RecordedAll(LogOf(layers[..i + 1])) == Recorded(RecordedAll(LogOf(layers[..i])), layers[i].outcome, layers[i].error)
  {
    assert LogOf(layers[..i + 1])[..i] == LogOf(layers[..i]);
  }

  predicate PairedLayers(layers: seq<Layer>)
  {
    forall i :: 0 <= i < |layers| ==> Paired((layers[i].outcome, layers[i].error))
  }

  predicate SomeLimit(layers: seq<Layer>)
  {
    exists i :: 0 <= i < |layers| && layers[i].outcome == LimitExceeded
  }

  lemma LogLimit(layers: seq<Layer>)
    requires PairedLayers(layers)
    ensures RecordedAll(LogOf(layers)).limitErr.Some? <==> SomeLimit(layers)
  {
    var log := LogOf(layers);
    RecordedAllSummarizes(log);
    assert SomeLimit(layers) <==> LimitExceeded in set i | 0 <= i < |log| :: log[i].0 by {
      assert forall i :: 0 <= i < |log| ==> log[i].0 == layers[i].outcome;
    }
  }

  /**
   Reads the layers of the cosign attestation image in order, unless the context is interrupted
   before one of them. A limit is recorded exactly when there are too many layers, or, among those
   that the interruption leaves, the verified payloads together exceed the limit or a layer does.
   Without a limit the verified attestations of those layers are returned in order, and their
   outcomes are all recorded.
   */
  method VerifyCosignLayers(layers: seq<Layer>, interruptedAt: Option<nat>, contextError: Error)
    returns (atts: Attestations, stats: CollectStats)
    requires PairedLayers(layers)
    ensures fresh(stats)
    ensures var left := if interruptedAt.Some? && interruptedAt.value < |layers| then layers[..interruptedAt.value] else layers;
            && (stats.limitErr.Some? <==>
                  |layers| > MAX_REFERRERS || VerifiedSize(left) > MAX_TOTAL_SIZE || SomeLimit(left))
            && (stats.limitErr.None? ==>
                  && atts == VerifiedOf(left)
                  && stats.Value() == if left == layers then RecordedAll(LogOf(layers))
                                      else Recorded(RecordedAll(LogOf(left)), FetchFailed, Some(contextError)))
  {
    hide RecordedAll, VerifiedSize, VerifiedOf, LogOf, SomeLimit, PairedLayers;
    atts := [];
    stats := new CollectStats();
    if |layers| > MAX_REFERRERS {
      stats.Record(LimitExceeded, Some({IncompleteSet}));
      return;
    }
    ghost var left := if interruptedAt.Some? && interruptedAt.value < |layers| then layers[..interruptedAt.value] else layers;
    var totalSize := 0;
    NoLayers(layers[..0]);
    for i := 0 to |layers|
      invariant i <= |left| && layers[..i] == left[..i]
      invariant stats.Value() == RecordedAll(LogOf(layers[..i]))
      invariant totalSize == VerifiedSize(layers[..i]) <= MAX_TOTAL_SIZE
      invariant atts == VerifiedOf(layers[..i])
    {
      if interruptedAt == Some(i) {
        stats.Record(FetchFailed, Some(contextError));
        LogLimitPrefix(layers, i);
        return;
      }
      assert layers[..i + 1] == left[..i + 1];
      var layer := layers[i];
      LogGrows(layers, i);
      LayersGrow(layers, i);
      stats.Record(layer.outcome, layer.error);
      if layer.outcome != Verified {
        continue;
      }
      totalSize := totalSize + layer.attestation.size;
      if totalSize > MAX_TOTAL_SIZE {
        stats.Record(LimitExceeded, Some({}));
        VerifiedSizeMonotone(left, i + 1);
        return;
      }
      atts := atts + [layer.attestation];
    }
    assert layers[..|layers|] == layers && left == layers;
    LogLimitPrefix(layers, |layers|);
  }

  lemma NoLayers(none: seq<Layer>)
    requires none == []
    ensures RecordedAll(LogOf(none)) == NO_STATS && VerifiedSize(none) == 0 && VerifiedOf(none) == []
  {
    assert LogOf(none) == [];
  }

  lemma LayersGrow(layers: seq<Layer>, i: nat)
    requires i < |layers|
    ensures VerifiedSize(layers[..i + 1]) ==
            VerifiedSize(layers[..i]) + if layers[i].outcome == Verified then layers[i].attestation.size else 0
    ensures VerifiedOf(layers[..i + 1]) == VerifiedOf(layers[..i]) + if layers[i].outcome == Verified then [layers[i].attestation] else []
  {
    assert layers[..i + 1][..i] == layers[..i];
  }

  lemma LogLimitPrefix(layers: seq<Layer>, n: nat)
    requires PairedLayers(layers) && n <= |layers|
    ensures RecordedAll(LogOf(layers[..n])).limitErr.Some? <==> SomeLimit(layers[..n])
  {
    LogLimit(layers[..n]);
  }
}
