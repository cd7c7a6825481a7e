# Verification of nri-supply-chain

nri-supply-chain is an NRI plugin that admits containers only after their image attestations
verify, and keeps re-verifying and, if need be, throttling the running ones. This project models
its stateful, concurrent and translating parts in Dafny 4.11 and proves what they promise.
`dafny verify dfyconfig.toml` checks all of it.

| file | models |
|---|---|
| `ExpiryHeap.dfy`, `ResultCache.dfy`, `CacheEpochs.dfy` | the verification result cache: expiry heap, maps and digest index against one plain map; invalidation epochs under every interleaving |
| `Limits.dfy`, `Remediation.dfy`, `RemediationRuns.dfy` | continuous verification: limits and their throttled form, the state machine of a container, and every run with resizes, failed updates and restarts |
| `SemVer.dfy`, `VersionTexts.dfy`, `OsvRange.dfy`, `OsvMatch.dfy` | the OSV range compiler and matcher: the version order, the intervals of unsorted events, the constraint texts |
| `TrustedRoot.dfy` | the trusted root cache, and every run of its callers, refreshes and fetches that outlive their deadline |
| `FetchOutcomes.dfy`, `Collector.dfy`, `FetchVerdict.dfy` | collecting attestations under every schedule, and what a fetch with tag fallback, retries and mirrors returns |
| `CircuitBreaker.dfy` | circuit breakers and their registry |
| `ConflictMerge.dfy` | the conflict-dropping merge of property maps |
| `RegexFragment.dfy`, `Glob.dfy`, `GlobTexts.dfy` | what globs mean as they are written, and the translation of globs to regular expressions |
| `RuntimeConfig.dfy` | configurations passed by the runtime while they are pending |

Code that updates state in place is a class whose methods are proved against specification
functions; the properties are then lemmas about those functions. Protocols between goroutines
are state machines whose steps are the critical sections of the code, with an invariant that
every step keeps and theorems over every run. Clocks, hashes, case folding and the results of
registries and signature checks are parameters.

## What the code does differently from what it says

- **Version order.** Numeric prerelease identifiers are compared by subtraction, which overflows:
  0.0.0--9223372036854775808, 0.0.0-0 and 0.0.0-1 are each before the next, but the first is not
  before the last, and the first two are each before the other (`SemVer.SignedVersionsNotOrdered`).
  Two versions are compared antisymmetrically exactly when their first differing identifiers are not
  2^63 apart (`SemVer.CompareAntisymmetricIff`), and three transitively exactly when their first
  differing identifiers do not wrap around (`SemVer.CompareTransitiveIff`). All versions whose
  identifiers lie in one window of 2^63 values are totally preordered (`SemVer.CompareTransitive`).
  The order is that of the standard (`VersionTexts.FollowsSection11`) when `SemVer.ReadsIdentifierIff`
  holds for the identifiers.
- **OSV ranges.** A range introduced at a version that is also a last affected one is closed there,
  where a replay of the events goes on (`OsvRange.Order.TieIsSingleVersion`).
  `OsvRange.Order.IntervalsAreAffected` says exactly which versions such a tie loses.
- **Globs.** A validated pattern need not compile, although the translation is documented to:
  in `[[:a][xy:]` the regular expression parser reads a character class name across the two
  classes (`Glob.ValidatedButNotCompiled`). `Glob.TranslationMatches` gives the exact condition.
- **Throttling.** Throttling loosens a limit that is below its minimum
  (`Limits.ThrottledNoLooserIff`); an unlimited quota (-1) becomes the minimum.
- **Resizes.** A resize of one limit of a throttled container makes the throttled values of the other
  limits its originals, so the next throttle stacks and a rollback keeps them
  (`RemediationRuns.PartialResizeStacks`). A resize that leaves exactly the limits that a throttle
  sets is taken for the plugin's own throttle and undone by the next rollback
  (`RemediationRuns.ResizeTakenForThrottle`, and `RemediationRuns.MemoryResizeUndone` for the memory
  of a container whose memory is not throttled). `RemediationRuns.ResizeSafeIff` gives the exact
  condition.
- **Restarts.** The annotation with the original limits is not updated by a resize, so a restart
  after a resize lets the next throttle and rollback undo the resize
  (`RemediationRuns.RestartUndoesResize`, exact condition in `RemediationRuns.RecoverySafeIff`).
  A container found without an annotation can still be throttled once a resize gave it trusted
  originals; a restart then recovers it as verified, and it keeps its throttled limits
  (`RemediationRuns.RestartKeepsThrottle`, exact condition in `RemediationRuns.RestartRestoresIff`).
- **Collection errors.** The decision of a collection does not depend on the schedule, but the error
  that it reports does: of a busy and an unreachable registry it decides whether the original
  registry of a mirror is asked (`Collector.ErrorNotFixed`). Since at most five referrers are
  fetched at a time and in order, it is fixed exactly when the first five sources of that outcome
  carry the same classes (`Collector.ErrorFixedIff`).
- **Mirrors.** Verification failures are documented as final, but a referrers listing or a cosign
  tag that breaks off while it is decoded counts as a verification failure and as a lost connection,
  so the original registry is asked instead (`FetchVerdict.MirrorDenialReplaced`).
  `FetchVerdict.MirrorFailureReplacedIff` says exactly when that happens, and when the failure is lost.
- **Property maps.** A conflict between two spellings of a key within the only document is not
  detected (`ConflictMerge.LoneConflictKept`, exact condition in
  `ConflictMerge.ResolvedIffNoLoneConflict`).
- **Runtime configuration.** The recorded failure may be that of a superseded configuration
  (`RuntimeConfig.FailureOfSuperseded`, exact condition in `RuntimeConfig.FailureDescribesIff`).
- **Breakers.** A threshold below one acts like a threshold of one: a new breaker is closed although
  its failures reach such a threshold (`CircuitBreaker.BreakerRuns` gives the exact condition).

## Model

| member | source | states |
|---|---|---|
| `ExpiryHeap.RootIsSoonest` | internal/cache/cache.go:57-66 | in an ordered heap no entry expires before the first |
| `ExpiryHeap.Heap.Swap` | internal/cache/cache.go:68-72 | exchanges two entries and keeps every entry's index at its position |
| `ExpiryHeap.Heap.Up` | internal/cache/cache.go:57-89 | sifting up an entry that may be too early restores the order, with the same entries |
| `ExpiryHeap.Heap.Down` | internal/cache/cache.go:57-89 | sifting down an entry that may be too late restores the order, with the same entries |
| `ExpiryHeap.Heap.Push` | internal/cache/cache.go:74-78 | adds one entry to a valid heap |
| `ExpiryHeap.Heap.Pop` | internal/cache/cache.go:80-89 | removes an entry that expires no later than any other and marks it as removed |
| `ExpiryHeap.Heap.Remove` | internal/cache/cache.go:418-436 | removes the entry at an index from a valid heap |
| `ExpiryHeap.Heap.Fix` | internal/cache/cache.go:332-335 | restores the order after one entry's expiry changed either way |
| `ResultCache.StoresWithinCapacity` | internal/cache/cache.go:313-343 | storing never exceeds the maximum size |
| `ResultCache.StoresKeeps` | internal/cache/cache.go:313-343 | a store holds its entry, changes no other, and drops entries only for a new key in a full cache: all expired ones, and else one that expires no later than the rest |
| `ResultCache.Cache.constructor` | internal/cache/cache.go:117-151 | the cache starts empty and consistent, with a default for sizes that are not positive |
| `ResultCache.Cache.RemoveLocked` | internal/cache/cache.go:418-436 | removes one key from the entries, the heap and both indexes, also when its heap entry was popped already |
| `ResultCache.Cache.EvictSoonestLocked` | internal/cache/cache.go:377-389 | evicts a soonest-expiring entry and nothing else |
| `ResultCache.Cache.EvictExpiredLocked` | internal/cache/cache.go:391-403 | leaves exactly the entries that are not expired |
| `ResultCache.Cache.MakeRoomLocked` | internal/cache/cache.go:316-322 | a new key in a full cache first evicts the expired entries, then if need be a soonest-expiring one |
| `ResultCache.Cache.InsertLocked` | internal/cache/cache.go:326-340 | all structures agree with the map that has the new entry |
| `ResultCache.Cache.SetLocked` | internal/cache/cache.go:313-343 | storing refines a store in the plain map and keeps the size bound |
| `ResultCache.Cache.Get` | internal/cache/cache.go:155-195 | returns the stored result exactly when it is not expired, and removes only an entry that is still expired under the write lock |
| `ResultCache.Cache.SetWithTTLAtEpoch` | internal/cache/cache.go:201-218 | stores exactly when the time to live is positive and the shard's epoch is unchanged |
| `ResultCache.Cache.RemoveMatchingLocked` | internal/cache/cache.go:242-267 | visiting only the digest's keys removes every matching entry of the map |
| `ResultCache.Cache.DeleteAll` | internal/cache/cache.go:242-267 | removes exactly the entries of the digest in that namespace or in one that extends it with a suffix after a NUL, keeps all others, and advances the epoch of the shard |
| `ResultCache.WithoutMatchingMeaning` | internal/cache/cache.go:242-273 | the same for the specification of the removal |
| `ResultCache.Cache.Len` | internal/cache/cache.go:276-281 | the size, which is within the maximum |
| `CacheEpochs.EpochCounts` | internal/cache/cache.go:223-267 | along every run an epoch is the number of invalidations of its shard, modulo 2^64 |
| `CacheEpochs.StoreAcceptedIffNotInvalidated` | internal/cache/cache.go:201-267 | in every interleaving a store is accepted exactly when its shard was not invalidated since the epoch was read (modulo 2^64), else nothing changes |
| `CacheEpochs.MatchedEntriesAreRecent` | internal/cache/cache.go:201-273 | after an invalidation the entries it matches only hold results read after it |
| `CacheEpochs.LookupReturns` | internal/cache/cache.go:155-195 | a lookup returns what is stored under its key exactly until it expires |
| `CacheEpochs.NoStaleLookup` | internal/cache/cache.go:155-273 | in every interleaving no lookup after an invalidation, in its namespace or one that extends it after a NUL, returns a result whose epoch was read before |
| `Limits.Apply` | internal/plugin/continuous_verifier_throttle.go:25-82 | an update overrides exactly the limits that it sets |
| `Limits.ThrottlePercents` | internal/plugin/continuous_verifier_throttle.go:209-227 | percentages from 1 to 100 are taken as they are, and others become the default or 100 |
| `Limits.ThrottledNotAboveIff` | internal/plugin/continuous_verifier_throttle.go:32-75 | a throttled quota or memory limit reaches its minimum, and its number stays at or below the original exactly when that reaches the minimum, for every 64 bit value |
| `Limits.ThrottledNoLooserIff` | internal/plugin/continuous_verifier_throttle.go:32-75 | throttling loosens a limit exactly when it is below its minimum; an absent limit only gets tighter |
| `Limits.ThrottledSharesNotAboveIff` | internal/plugin/continuous_verifier_throttle.go:45-53 | the same for unsigned shares |
| `Limits.ThrottledIsPercentage` | internal/plugin/continuous_verifier_throttle.go:32-75 | without an overflow a throttled value is the percentage, rounded down, or the minimum if that is more |
| `Limits.ThrottledValues` | internal/plugin/continuous_verifier_throttle.go:25-82 | quota and shares are throttled by the CPU percentage, memory by the memory percentage and not at all at a hundred, and no limit is added or removed |
| `Limits.LooksThrottledIff` | internal/plugin/continuous_verifier_throttle.go:125-187 | a container looks throttled exactly when throttling changes its limits and it holds the limits that the throttle sets |
| `Limits.OwnUpdatesRecognized` | internal/plugin/continuous_verifier_throttle.go:121-165 | the throttled form is recognized, the original form never is |
| `Limits.RollbackUndoesThrottle` | internal/plugin/continuous_verifier_throttle.go:233-261 | a rollback after a throttle restores the resources exactly |
| `Limits.ThrottleDoesNotStack` | internal/plugin/continuous_verifier_throttle.go:25-82 | throttling twice is throttling once |
| `Limits.AnnotationRoundTrip` | internal/plugin/container_registry.go:229-289 | the annotation decodes to the same limits, so throttling and recognition from it are the same |
| `Remediation.CommitAllEach` | internal/plugin/continuous_verifier.go:745-785 | a batch changes exactly the tracked containers whose update did not fail, each by its own transition |
| `Remediation.Plugin.ReverifyContainer` | internal/plugin/continuous_verifier.go:343-401 | cancelled, failed, incomplete and completed verifications have the effect of their outcome on the one container, if it is still tracked |
| `Remediation.Plugin.ApplyStateTransition` | internal/plugin/continuous_verifier.go:561-633 | the state machine step of a completed verification and the update it asks for |
| `Remediation.Plugin.ApplyUpdates` | internal/plugin/continuous_verifier.go:745-785 | nothing is recorded when the call fails, else the transitions of the updates that did not |
| `Remediation.Plugin.ReleaseThrottled` | internal/plugin/continuous_verifier.go:196-225 | one release for each throttled container with trusted originals, with its original limits |
| `Remediation.Plugin.HandleReverifyError` | internal/plugin/continuous_verifier.go:523-549 | counts an error, and degrades at the threshold |
| `Remediation.Plugin.RecordResourceUpdate` | internal/plugin/continuous_verifier_throttle.go:91-119 | ignores the plugin's own updates; any other update replaces the originals and ends the throttling |
| `Remediation.Plugin.RecordPrewarmResult` | internal/plugin/prewarm.go:424-460 | only the first complete result for its digest, before the cancellation, counts for a container: it ends the waiting, and degrades a verified container exactly if the image failed and remediation is not disabled |
| `Remediation.FirstResult` | internal/plugin/prewarm.go:424-459 | the same for one container |
| `Remediation.VerificationDecides` | internal/plugin/continuous_verifier.go:343-401 | which results degrade a verified container, which pass it and which only count |
| `RemediationRuns.VerificationEffects` | internal/plugin/continuous_verifier.go:343-401 | no verification throttles by itself: it asks for a throttle of a degraded container after its cooldown, or for a rollback of a throttled one |
| `RemediationRuns.StepKeepsInv` | internal/plugin/continuous_verifier.go:194-225 | every step that is calm (no resize during an update, none that is unsafe, no recovery from a stale annotation) keeps the invariant about the limits |
| `RemediationRuns.StepKeepsStateInv` | internal/plugin/continuous_verifier.go:194-225 | every step of the protocol, with any resize and recovery, keeps trusted originals for throttled containers, fitting pending updates and the history of throttles |
| `RemediationRuns.RunsAreSafe` | internal/plugin/continuous_verifier.go:194-785 | in every reachable state throttled containers have trusted originals and throttles are more than the cooldown apart; if the run stayed calm, throttling also never stacks, trusted originals are the desired limits and unthrottled containers run with them |
| `RemediationRuns.ThrottleOrigin` | internal/plugin/continuous_verifier.go:561-697 | in every run a pending throttle goes back to a failing verification of the degraded container, with no verification or restart since |
| `RemediationRuns.ThrottledOnlyByFailures` | internal/plugin/continuous_verifier.go:561-697 | in every run, outside restart recovery, a container becomes throttled only from degraded, by a confirmed update that a further failure asked for |
| `RemediationRuns.RejectedAndDropped` | internal/plugin/continuous_verifier.go:745-785 | a rejected update changes nothing and can be asked for again, and an update of a removed container is dropped |
| `RemediationRuns.CanRecover` | internal/plugin/continuous_verifier.go:343-785 | no run gets stuck: while its container runs, every run can be continued until the container is verified |
| `RemediationRuns.CanThrottle` | internal/plugin/continuous_verifier.go:343-785 | every run with a verified container and trusted originals can be continued until it is throttled |
| `RemediationRuns.ErrorsCounted` | internal/plugin/continuous_verifier.go:523-549 | the error counter never exceeds the errors since the last completed verification or restart |
| `RemediationRuns.DegradedByThreeErrors` | internal/plugin/continuous_verifier.go:492-549 | a verification that does not complete changes the state only by the third error in a row, and only to degraded |
| `RemediationRuns.OutageKeepsState` | internal/plugin/continuous_verifier.go:358-386 | any number of incomplete or cancelled verifications keeps everything but their count |
| `RemediationRuns.RecoverySafeIff` | internal/plugin/prewarm.go:97-165 | recovery keeps the invariant exactly when the annotation holds the limits last asked for |
| `RemediationRuns.ResizeSafeIff` | internal/plugin/continuous_verifier_throttle.go:84-119 | a resize of any of the limits keeps the invariant exactly when, with trusted originals, no limit that was not asked for is throttled and the report is not mistaken for a throttle, or nothing changes; the other cases likewise |
| `RemediationRuns.PartialResizeStacks` | internal/plugin/continuous_verifier_throttle.go:84-119 | a run in which a resize of one limit makes the next throttle stack and the rollback keep a throttled quota |
| `RemediationRuns.MemoryResizeUndone` | internal/plugin/continuous_verifier_throttle.go:84-165 | a run in which a resize of the memory of a throttled container is ignored and undone |
| `RemediationRuns.PassRestores` | internal/plugin/continuous_verifier.go:561-718 | from every state a confirmed passing verification verifies the container; in a calm run it leaves the desired limits exactly when the originals are trusted or those limits were in place |
| `RemediationRuns.FailingTwice` | internal/plugin/continuous_verifier.go:561-740 | from every state that is verified or skipped two confirmed failures throttle exactly with trusted originals and an elapsed cooldown, in a calm run to the throttled form of the desired limits |
| `RemediationRuns.AdmissionRecords` | internal/plugin/plugin.go:749-861 | an admitted container is verified with trusted originals and annotated with its limits, and one without a digest is skipped |
| `RemediationRuns.PrewarmDecides` | internal/plugin/prewarm.go:424-459 | a pre-warm result degrades a container exactly when it is verified, awaits its first result, which failed, and remediation is not disabled |
| `RemediationRuns.ReleaseRestores` | internal/plugin/continuous_verifier.go:196-226 | a confirmed release degrades exactly a throttled container with trusted originals, in a calm run with the desired limits |
| `RemediationRuns.ErrorsDegradeExactly` | internal/plugin/continuous_verifier.go:492-549 | verifications that do not complete degrade exactly when their errors reach three |
| `RemediationRuns.ResizeTakenForThrottle` | internal/plugin/continuous_verifier_throttle.go:84-119 | a resize that is mistaken for a throttle and undone by the next rollback |
| `RemediationRuns.RestartRestoresLimits` | internal/plugin/prewarm.go:97-165 | an unresized throttled container is recovered as throttled, and the next confirmed pass restores its limits |
| `RemediationRuns.RestartWithoutAnnotation` | internal/plugin/prewarm.go:97-165 | without an annotation any container is recovered as verified with untrusted originals, and a pass leaves the limits it runs with |
| `RemediationRuns.RestartRestoresIff` | internal/plugin/prewarm.go:97-165 | in a calm run a throttled container gets its limits back from a restart and a confirmed pass exactly when it has an annotation |
| `RemediationRuns.RestartKeepsThrottle` | internal/plugin/prewarm.go:97-165 | a run in which a container found without an annotation stays at its throttled quota after a restart |
| `RemediationRuns.RestartUndoesResize` | internal/plugin/prewarm.go:104-165 | a run in which a restart makes a later rollback undo a resize |
| `SemVer.SubtractionComparesIff` | internal/feed/match.go:781-795 | the difference of two identifiers has the right sign exactly when it is in range |
| `SemVer.SubtractionAntisymmetricIff` | internal/feed/match.go:781-795 | swapping two numbers swaps the sign exactly when they are not 2^63 apart |
| `SemVer.SubtractionTransitiveIff` | internal/feed/match.go:781-795 | two steps up make one exactly when their lengths together fit an int or amount to 2^64 |
| `SemVer.IdentifierAntisymmetricIff` | internal/feed/match.go:781-795 | the first of these for all identifiers |
| `SemVer.IdentifierTransitiveIff` | internal/feed/match.go:781-795 | the second of these for all identifiers |
| `SemVer.CompareAntisymmetricIff` | internal/feed/match.go:710-795 | the comparison of two versions is antisymmetric in sign exactly when they do not share their core with first differing identifiers 2^63 apart |
| `SemVer.CompareTransitiveIff` | internal/feed/match.go:710-795 | the comparison of three versions is transitive exactly when they do not share their core with identifiers that wrap around |
| `SemVer.CompareReflexive` | internal/feed/match.go:710-729 | every parsable version equals itself |
| `SemVer.CompareAntisymmetric` | internal/feed/match.go:710-795 | swapping the operands swaps the sign, for identifiers in one window |
| `SemVer.CompareTransitive` | internal/feed/match.go:710-795 | the comparison is transitive, for identifiers in one window |
| `SemVer.SignedVersionsNotOrdered` | internal/feed/match.go:710-795 | three versions for which it is neither transitive nor antisymmetric |
| `SemVer.ReadsIdentifierIff` | internal/feed/match.go:781-795 | the identifiers that the code reads as the standard does |
| `SemVer.IdentifiersFollowSpec` | internal/feed/match.go:753-795 | identifier lists compare as in section 11 of Semantic Versioning 2.0.0 |
| `SemVer.CompareStringsMeaning` | internal/feed/match.go:781-795 | alphanumeric identifiers compare by the first characters that differ, and a proper prefix comes first |
| `VersionTexts.ReadsText` | internal/feed/match.go:641-751 | from every well-formed text, with any space around it and an optional v, exactly its numbers, with missing ones as zero, its prerelease and its build metadata are read |
| `VersionTexts.ValidIff` | internal/feed/match.go:731-751 | the versions are exactly the well-formed texts: up to three numbers in the int range, a prerelease and build metadata |
| `VersionTexts.FollowsSection11` | internal/feed/match.go:710-795 | two texts compare by their numbers in order, and with the same numbers as in section 11 of Semantic Versioning 2.0.0 |
| `VersionTexts.PlainVersionsCompare` | internal/feed/match.go:710-751 | the texts of three numbers in the int range are versions and compare as the numbers do, the first one first |
| `OsvRange.Order.SortSorted` | internal/feed/match.go:336-392 | the event sort gives a sorted permutation |
| `OsvRange.Order.ReplayIsAffected` | internal/feed/match.go:251-275 | replaying sorted events decides the same as the order-free definition of an affected version |
| `OsvRange.Order.AffectedIgnoresOrder` | internal/feed/match.go:251-275 | whether a version is affected does not depend on the order of the events |
| `OsvRange.Order.BuildReplays` | internal/feed/match.go:287-328 | the intervals of sorted events hold only versions that the replay deems affected, and all of them without a tie |
| `OsvRange.Order.LostExactly` | internal/feed/match.go:287-328 | the affected versions that the intervals leave out are exactly those after a range lost to a tie |
| `OsvRange.Order.IntervalsAreAffected` | internal/feed/match.go:262-435 | the intervals of unsorted events hold only affected versions, all of them without a tie, and otherwise all but exactly the versions lost to ties |
| `OsvRange.Order.TieIsSingleVersion` | internal/feed/match.go:281-303 | a range introduced at its last affected version is that single version |
| `OsvMatch.OrderedIff` | internal/feed/match.go:710-795 | versions are ordered by the comparison exactly when no two of them are opposite and no three that ascend wrap around |
| `OsvMatch.WindowOrdered` | internal/feed/match.go:710-795 | versions with identifiers in any one window are ordered |
| `OsvMatch.VersionsOrdered` | internal/feed/match.go:359-379 | on ordered versions the comparison is a total preorder, so the event sort is well defined |
| `OsvMatch.CompareEventsMeaning` | internal/feed/match.go:361-412 | event comparison is by version, then by rank |
| `OsvMatch.SortStableMeaning` | internal/feed/match.go:336-357 | the sort of feed events is the sort of their meanings |
| `OsvMatch.SortEvents` | internal/feed/match.go:336-357 | drops events without a version, sorts the rest, or reports that some version cannot be parsed |
| `OsvMatch.IntervalBuilder.Add` | internal/feed/match.go:287-315 | the builder step for one event, for every event |
| `OsvMatch.IntervalBuilder.Finish` | internal/feed/match.go:322-328 | closes an interval that is still open |
| `OsvMatch.SemverIntervals` | internal/feed/match.go:262-275 | compiles any list of events to the texts of its intervals, or to the constraint that matches everything |
| `OsvMatch.AddedAllMeaning` | internal/feed/match.go:277-328 | the texts built from usable events spell the intervals built from their meanings |
| `OsvMatch.IntervalTextsMeaning` | internal/feed/match.go:262-435 | the compiled texts are the constraints of the intervals of the events |
| `OsvMatch.SplitJoined` | internal/feed/match.go:437-453 | joined constraints are split into the same ones |
| `OsvMatch.SatisfiesBound` | internal/feed/match.go:655-681 | each of the five operators of a constraint text is read back |
| `OsvMatch.OperatorsMean` | internal/feed/match.go:655-698 | each operator is the comparison it is named after, and unknown for versions that differ from the bound in build metadata only |
| `OsvMatch.UnparsableMatches` | internal/feed/match.go:618-639 | a package with no version, or with none that can be parsed, matches every constraint |
| `OsvMatch.EvaluateBound` | internal/feed/match.go:655-705 | a bound is unknown exactly for a version that differs in build metadata only |
| `OsvMatch.ConstraintMatchesInterval` | internal/feed/match.go:437-453 | a constraint text matches exactly the interval's versions and those that reach a bound but for build metadata |
| `OsvMatch.RangeMatching` | internal/feed/match.go:161-183 | exactly which versions match a range, from the events with a version: the affected ones that are not lost to a tie and those that equal a bound except for build metadata; all versions when an event cannot be parsed |
| `TrustedRoot.FailureWindow` | internal/attestation/fetcher_trustroot.go:73-110 | after a failed refresh the cached root within its staleness limit, else the pre-seeded one, is served for five minutes without the network; without either the failure is answered for exactly thirty seconds |
| `TrustedRoot.SuccessWindow` | internal/attestation/fetcher_trustroot.go:79-99 | after a success the new root is served for exactly an hour from its fetch, whatever failed before |
| `TrustedRoot.TrustedRootCache.CachedHit` | internal/attestation/fetcher_trustroot.go:79-99 | the fresh root, or during the negative window the best fallback |
| `TrustedRoot.TrustedRootCache.HandleRefreshError` | internal/attestation/fetcher_trustroot.go:244-303 | serves the cached root within its staleness limit, else the pre-seeded one, else remembers the failure |
| `TrustedRoot.TrustedRootCache.FinishRefresh` | internal/attestation/fetcher_trustroot.go:153-181 | stores a fetched root with its completion time and clears the failures, or handles the error |
| `TrustedRootRuns.StepKeepsInv` | internal/attestation/fetcher_trustroot.go:112-303 | every step of callers, refreshes and fetches keeps the invariant |
| `TrustedRootRuns.RootsAreRecent` | internal/attestation/fetcher_trustroot.go:79-303 | in every run a returned root was fetched at most 24 hours before its check or is the pre-seeded one with nothing better cached, fast failures mean that there is no root, and at most one fetch is outstanding |
| `TrustedRootRuns.CachedTimeMonotone` | internal/attestation/fetcher_trustroot.go:153-242 | along every run the cached fetch time never goes backwards |
| `TrustedRootRuns.FailureBacksOff` | internal/attestation/fetcher_trustroot.go:79-148 | a failed refresh keeps callers from the network for five minutes with a root to serve and thirty seconds without one, and not longer |
| `TrustedRootRuns.CanRefresh` | internal/attestation/fetcher_trustroot.go:112-242 | no run gets stuck: each has a continuation that ends with a fresh root |
| `FetchOutcomes.RecordedAllSummarizes` | internal/attestation/fetcher_errors.go:66-87 | in whatever order outcomes are recorded, the statistics tell exactly which occurred |
| `FetchOutcomes.MergedSummarizes` | internal/attestation/fetcher_errors.go:89-103 | merged statistics tell what occurred in either part |
| `FetchOutcomes.CollectStats.Record` | internal/attestation/fetcher_errors.go:66-87 | counts verification failures and keeps the first error of each other kind |
| `FetchOutcomes.CollectStats.Merge` | internal/attestation/fetcher_errors.go:89-103 | adds the counts and keeps the first errors |
| `FetchOutcomes.EvaluateCollection` | internal/attestation/fetcher.go:671-700 | the decision over the merged statistics of any number of collectors |
| `FetchOutcomes.EvaluateMeaning` | internal/attestation/fetcher.go:655-700 | incomplete exactly for a limit, a failed verification exactly when everything could be checked and nothing verified, no error exactly for a complete set |
| `FetchOutcomes.UnreadableReferrer` | internal/attestation/fetcher_errors.go:170-225 | an unreadable referrer is nothing, an incomplete set, an unavailable registry or a failed verification, each exactly for its errors |
| `Collector.BlobSet.Add` | internal/attestation/fetcher_collect.go:254-280 | reports exactly the first occurrence of a blob |
| `Collector.CompactSlots` | internal/attestation/fetcher_collect.go:240-252 | the filled slots in order |
| `Collector.CompactOnce` | internal/attestation/fetcher_collect.go:240-252 | what is in one slot is collected once |
| `Collector.StepKeepsInv` | internal/attestation/fetcher_collect.go:178-238 | every goroutine step keeps owners, counts and outcomes consistent |
| `Collector.EvaluateIsVerdict` | internal/attestation/fetcher.go:671-700 | the decision depends on which outcomes occurred and on whether anything verified, and on nothing else |
| `Collector.EverythingCounted` | internal/attestation/fetcher_collect.go:178-238 | a collection that was not cancelled counts and keeps every distinct verified blob |
| `Collector.ScheduleIndependent` | internal/attestation/fetcher_collect.go:178-280 | every schedule gives the same decision and the same attestations, and the aggregate limit fires exactly when the distinct payloads exceed it |
| `Collector.ErrorOfCandidate` | internal/attestation/fetcher_errors.go:66-87 | the error of a kind that a complete schedule reports is that of one of the first five sources of that outcome, and there is one exactly when a candidate has that outcome |
| `Collector.ErrorFixedIff` | internal/attestation/fetcher_collect.go:178-238 | the schedule does not decide which error of a kind is reported exactly when the first five distinct sources (unreadable referrers and blobs) of that outcome carry the same classes |
| `Collector.FirstCandidate` | internal/attestation/fetcher_collect.go:189-192 | each of the first five sources of an outcome is reported by some schedule |
| `Collector.RunKeepsLimit` | internal/attestation/fetcher_collect.go:186-193 | in every schedule at most five goroutines run, and candidates are launched in order |
| `Collector.ErrorNotFixed` | internal/attestation/fetcher_errors.go:66-87 | two unreadable referrers whose order decides whether the error is a connection error |
| `Collector.Completes` | internal/attestation/fetcher_collect.go:178-238 | every schedule, with the limit and the order of launches, can be completed, and a kept error stays |
| `Collector.CandidateOrder` | internal/attestation/fetcher_collect.go:173-252 | with distinct blobs the attestations come in candidate order |
| `FetchVerdict.TagMeaning` | internal/attestation/fetcher_cosign.go:30-64 | the tag fallback reports an incomplete set exactly for a limit, and never attestations with an error |
| `FetchVerdict.PassMeaning` | internal/attestation/fetcher.go:448-653 | a pass keeps the contract on slice and error, and is incomplete exactly when a consulted source exceeded a limit |
| `FetchVerdict.SuccessIsComplete` | internal/attestation/fetcher.go:448-571 | no error means that nothing was dropped, limited or unavailable, and failures are outweighed by a verified attestation |
| `FetchVerdict.ReturnsEverything` | internal/attestation/fetcher.go:485-536 | which attestations come back, in order, with and without a mere verification failure |
| `FetchVerdict.FetchWithRetry` | internal/attestation/fetcher.go:368-446 | the first attempt that may not be retried decides, or the last: no error exactly when its wait was not interrupted and its pass had none, else that interruption, its failed verification, the error of the context or that of the pass |
| `FetchVerdict.RetriesReturn` | internal/attestation/fetcher.go:368-446 | the same with the attestations, for any number of attempts, and which attempts are retried |
| `FetchVerdict.PassErrors` | internal/attestation/fetcher.go:448-662 | when a pass has no error, when the image is denied, and which error it reports otherwise |
| `FetchVerdict.TagErrors` | internal/attestation/fetcher_cosign.go:30-64 | the same for the cosign tag |
| `FetchVerdict.RetriesMeaning` | internal/attestation/fetcher.go:368-446 | retries keep the contract, only transient errors are retried, a limit is never retried away, and a failed verification wins over an interruption |
| `FetchVerdict.FetchMeaning` | internal/attestation/fetcher.go:240-359 | the whole fetch returns the result of the mirror, or of the original registry when the mirror could not be reached, with both errors; it keeps the contract and reports an incomplete set exactly for a limit of the one that decided |
| `FetchVerdict.BrokenPassIff` | internal/attestation/fetcher.go:448-720 | a failed verification of a pass looks like a lost connection exactly when the listing, or the tag that decided, broke off while it was decoded |
| `FetchVerdict.BrokenRetriesIff` | internal/attestation/fetcher.go:368-446 | the same for retries, told by the attempt that decided |
| `FetchVerdict.MirrorFailureReplacedIff` | internal/attestation/fetcher.go:240-359 | exactly when the original registry is asked although the mirror failed verification, and exactly when that failure is lost |
| `FetchVerdict.MirrorDenialReplaced` | internal/attestation/fetcher.go:268-274 | a verification failure of a mirror that is replaced by the original registry |
| `FetchVerdict.VerifyCosignCandidates` | internal/attestation/fetcher_cosign.go:265-303 | the first valid signature decides; rejected candidates with missing trust material are a fetch failure or a missing key |
| `FetchVerdict.VerifyCosignLayers` | internal/attestation/fetcher_cosign.go:126-196 | a limit is recorded exactly for too many layers, too large verified payloads together or an oversized layer, else all outcomes and verified attestations are kept in order |
| `CircuitBreaker.Breaker.Acquire` | internal/circuit/circuit.go:85-117 | admits requests while closed and one probe after the cooldown |
| `CircuitBreaker.Breaker.Succeeded` | internal/circuit/circuit.go:120-138 | a deciding success closes the breaker |
| `CircuitBreaker.Breaker.Failed` | internal/circuit/circuit.go:143-202 | a deciding failure counts, and trips at the threshold |
| `CircuitBreaker.Breaker.Release` | internal/circuit/circuit.go:169-176 | only the probe's permit releases the probe |
| `CircuitBreaker.StepKeepsInv` | internal/circuit/circuit.go:85-202 | every step keeps the invariant of a breaker |
| `CircuitBreaker.LatestHoldsProbe` | internal/circuit/circuit.go:178-183 | while half-open the latest probe permit decides and every other permit has no effect |
| `CircuitBreaker.BreakerRuns` | internal/circuit/circuit.go:85-202 | over every run, from what the requests reported: not closed exactly when the failures in a row reach the threshold, which is at least one; trips are the closings plus one while not closed; half-open has one request that alone decides; an open breaker admits a request exactly after the cooldown since the latest failure, and then no other |
| `CircuitBreaker.OutcomesRecorded` | internal/circuit/circuit.go:120-202 | the breaker knows the time of the latest failure that counts and the number of failures since the last success that does |
| `BreakerRegistry.Registry.EvictClosedLocked` | internal/circuit/circuit.go:325-331 | removes exactly the closed breakers |
| `BreakerRegistry.Registry.EvictLeastRecentlyUsedLocked` | internal/circuit/circuit.go:335-352 | removes exactly one breaker, used least recently |
| `BreakerRegistry.Registry.MakeRoomLocked` | internal/circuit/circuit.go:270-276 | leaves room for one more entry |
| `BreakerRegistry.Registry.Get` | internal/circuit/circuit.go:251-288 | at most 1000 breakers with distinct uses; a known host keeps its breaker, a new one gets its own closed one |
| `BreakerRegistry.RoomMadeMeaning` | internal/circuit/circuit.go:245-288 | a breaker that is not closed is evicted only when the registry is full of such and it was used least recently |
| `ConflictMerge.SummaryOfUnion` | internal/checker/merge.go:125-132 | what two sets of values amount to together |
| `ConflictMerge.Accumulator.DropKey` | internal/checker/merge.go:215-226 | drops one folded key for good and changes no other |
| `ConflictMerge.Accumulator.AddEntry` | internal/checker/merge.go:160-178 | a folded key is kept while its values agree |
| `ConflictMerge.FoldConflictingMap` | internal/checker/merge.go:189-213 | one document folded is the canonical merge of that document, in any key order |
| `ConflictMerge.UnionMapDropConflicts` | internal/checker/merge.go:133-184 | merging one more document gives the canonical merge of all of them, in any key order |
| `ConflictMerge.MergeDocuments` | internal/checker/merge.go:133-184 | folding over two or more documents gives their canonical merge |
| `ConflictMerge.MergeIsCanonical` | internal/checker/merge.go:125-132 | a folded key is kept with a value exactly when it occurs and all spellings say that value, and dropped exactly when two differ |
| `ConflictMerge.MergeIgnoresOrder` | internal/checker/merge.go:125-184 | the folded result depends on neither the order of the documents nor that of the keys |
| `ConflictMerge.ResolvedIffNoLoneConflict` | internal/checker/merge.go:228-244 | conflicting keys are gone exactly unless a single document conflicts with itself |
| `ConflictMerge.LoneConflictKept` | internal/checker/merge.go:228-244 | a single document that keeps both values of one key |
| `Glob.FindBracketEnd` | internal/glob/glob.go:291-316 | the closing bracket of a class, if any |
| `Glob.EscapeCharClass` | internal/glob/glob.go:190-245 | the translated class of its members, with first members escaped |
| `Glob.ConvertBracketExpr` | internal/glob/glob.go:168-188 | the translation of a class and where it ends |
| `Glob.ToRegex` | internal/glob/glob.go:124-166 | the scanning loop emits the translation of each token |
| `Glob.Validate` | internal/glob/glob.go:90-113 | reports exactly whether every class compiles |
| `Glob.ParseEmittedBracket` | internal/glob/glob.go:190-245 | parsing a translated class gives back its members |
| `Glob.GoodIffCompiles` | internal/glob/glob.go:90-113 | which classes compile on their own |
| `Glob.ParseEmitAll` | internal/glob/glob.go:115-158 | parsing the translation of a pattern gives back its items, unless a name spans classes |
| `Glob.TranslationMatches` | internal/glob/glob.go:115-245 | the translation of a valid pattern compiles exactly when no name spans classes, and then accepts exactly the newline-free texts that the glob matches |
| `GlobTexts.CharactersMean` | internal/glob/glob.go:115-158 | ordinary and escaped characters match themselves, and a question mark any character but the slash |
| `GlobTexts.StarsMean` | internal/glob/glob.go:115-166 | a star matches any characters but slashes, and two stars any characters |
| `GlobTexts.ClassesMean` | internal/glob/glob.go:115-245 | a class of any characters and ranges, escaped or not, and with or without a closing bracket first, matches exactly its members, and a negated one exactly what is neither a member nor the slash |
| `GlobTexts.UnclosedMeans` | internal/glob/glob.go:168-173 | a bracket that is never closed stands for itself |
| `Glob.SlashesAreNamed` | internal/glob/glob.go:115-123 | stars, question marks and negated classes never consume a slash |
| `Glob.ValidatedButNotCompiled` | internal/glob/glob.go:87-122 | a valid pattern whose translation does not compile |
| `RuntimeConfig.EnforcementFailsClosed` | internal/plugin/runtime_config.go:77-130 | a pending configuration is taken to enforce at least the namespaces that the verifier will, and exactly which ones |
| `RuntimeConfig.LatestInstalled` | internal/plugin/runtime_config.go:148-177 | in every interleaving the installed configuration is the one passed last, and passing one changes nothing exactly when it is the same text |
| `RuntimeConfig.RuntimeConfigState.ApplyRuntimeConfig` | internal/plugin/runtime_config.go:148-177 | ignores a configuration that is pending or applied, else installs it and closes the superseded channel once |
| `RuntimeConfig.RuntimeConfigState.FinishAttempt` | internal/plugin/runtime_config.go:252-285 | a successful apply clears the slot only if its configuration is still pending |
| `RuntimeConfig.PendingLeavesOnly` | internal/plugin/runtime_config.go:148-285 | in every interleaving a pending configuration leaves the slot only by being superseded or by its own successful apply |
| `RuntimeConfig.AdmissionsAreSafe` | internal/plugin/plugin.go:676-693 | in every interleaving channels are closed at most once, an empty slot means that the latest configuration runs, and admissions that are not denied are safe |
| `RuntimeConfig.FailureDescribesIff` | internal/plugin/runtime_config.go:252-285 | a recorded failure is that of the pending configuration exactly when it was not superseded during the apply |
| `RuntimeConfig.FailureOfSuperseded` | internal/plugin/runtime_config.go:148-285 | a run that records the failure of a superseded configuration |

## Left out

- OsvMatch.RangeMatching: event versions with the separator of constraints (a vertical bar), which is no character of a semantic version and breaks the constraint text apart, and versions that the comparison does not order, which OrderedIff characterizes.
- CacheEpochs.NoStaleLookup: holds for fewer than 2^64 invalidations of a shard, because the epoch wraps around then.
- Glob.TranslationMatches: texts with a newline, which a dot does not match.
- RemediationRuns.RunsAreSafe: for the limits, assumes that a resize does not fall between building an update and its commit, and the two conditions that RecoverySafeIff and ResizeSafeIff show to be exact. All runs assume that failed updates are not applied, that an update already sent when the plugin restarts is not applied afterwards, that percentages and cooldown are fixed, and that the runtime reports a resize before anything else happens.
- ResultCache.Cache.Get: its two critical sections are one call here; CacheEpochs models them as separate steps.
- Collector.ScheduleIndependent: the download budget shared by the collectors and an interruption from outside, because with them the result does depend on timing.
- TrustedRootRuns.RootsAreRecent: a fetch records its completion time and sends its result in one step; a delay in between is not modelled.
- FetchVerdict.FetchMeaning: assumes of registry errors that a size limit is never also a connection error.
- ConflictMerge.MergeIgnoresOrder: which spelling of a key is kept or reported, because only the folded keys are canonical.
- BreakerRegistry.Registry.Get: the lookup and the new last use of a known host are one step, and the clock does not wrap around.
- Registry, TUF, GUAC, NRI and HTTP clients, signal handling, metrics, logging and jitter amounts: plumbing.
- Signature and certificate verification: an abstract result for each blob.
- Selecting referrers, decoding layers and the download budget transport: their outcome is a parameter.
- Package URLs, the feed index and its preselection, and listed versions: string plumbing around the range matcher.
- CEL policies, configuration parsing, the CLI and the previews.
- Regular expressions outside the fragment that the translation emits.
- Resolving runtime digests, the triggers of verification cycles and their batching.
