# Verified model of hirn

hirn is a memory store for agents, written in Rust with a Node binding.  This project models the
parts of it whose correctness is an argument over all inputs, all runs or all interleavings, and
proves those arguments with the Dafny verifier.  `dafny verify dfyconfig.toml` checks everything.

| component | files |
|---|---|
| shared notions | `Options`, `Lists`, `Division` |
| concurrent string interner | `Interner`, `InternerProtocol`, `InternerRuns` |
| circuit breaker | `CircuitBreaker`, `CircuitBreakerRuns`, `CircuitBreakerHistory` |
| JSON object scanner of the NLU layer | `JsonScanner`, `JsonObjects` |
| confidence calibration of the NLU layer | `Sums`, `Calibration`, `CalibrationReport`, `CalibrationFit`, `CalibrationFitFacts`, `CalibrationBest`, `CalibrationExact` |
| bootstrap interval of the NLU evaluation | `Bootstrap`, `BootstrapFacts` |
| ranking metrics | `Ranking` |
| HirnQL text: quoting, merge queries, and the engine's parser for them | `HirnqlText`, `MergeQuery`, `MergeParser`, `MergeRoundTrip`, `MergeTheorem`, `MergeInjective`, `MergeArguments`, `MergeNumbers`, `MergeGrammar` |
| preferences | `PreferenceTarget`, `Preferences`, `PreferenceFacts`, `PreferenceBlocks` |
| safety limits of external datasets | `SafetyLimits` |

## How the program is modelled

- **Interner.**  A state machine with any number of `try_intern` and `try_resolve` calls.  Each call has a
  program counter; one step is one operation on the concurrent map, or taking, using or releasing
  the lock.  Between the push to the reverse table and the insert into the forward map other calls
  move freely.  The abstraction maps each state to a plain table and the decided calls, and the
  table stays unchanged until the insert.
- **Circuit breaker.**  Every operation holds one mutex throughout, so it is one step.  Time is an
  argument.  Runs are arbitrary sequences of calls, recorded outcomes and queries; an outcome may
  come from a call of an earlier period.
- **Floating point.**  Confidences, scores and accuracies are real numbers, so rounding is not
  modelled.  A confidence is finite or not.  The discount `1 / log2(i + 2)` is any positive,
  strictly decreasing function.
- **Bits.**  The generator of the bootstrap works on 64-bit words, handles and breaker counters
  are 32-bit, and the proofs show that none of them overflows or truncates.
- **Queries.**  The builder in the Node binding is modelled with its error paths, and so is the
  grammar and statement construction of the engine for `MERGE MEMORY`.  A number argument is not a
  number, not finite, or carries the text JavaScript prints for it, on whose digits the checks for
  a non-negative integer are made.
- **Unicode.**  Lowercasing and the test for alphanumeric characters are parameters.  Texts are
  ordered by code points.

## What the program does not keep of its own documentation

- `crates/hirn-core/src/circuit_breaker.rs:16` speaks of a single request in the half-open state.
  The code admits up to `success_threshold` probes at a time, and up to `2T - 1` in one period
  (`CircuitBreakerRuns.HalfOpenAdmissions`, `CircuitBreakerRuns.BoundIsReached`); it is a single
  request in every period exactly for a threshold of at most one (`CircuitBreakerRuns.SingleProbeExactly`).
- `crates/hirn-core/src/preference.rs:390-393` says that the result does not depend on input order
  even with ties.  It is independent of order exactly when no two different observations of one
  preference carry the same time (`PreferenceFacts.OrderIrrelevantExactly`,
  `PreferenceBlocks.TiedReversal`).
- `crates/hirn-core/src/preference.rs:395` says that the output is ordered by normalised target.
  It is ordered by owner first; by target alone exactly when owners and targets never disagree
  (`PreferenceBlocks.OrderedByTargetExactly`).
- The binding accepts every finite confidence, but a query with a number printed with an exponent,
  or an integer beyond 64 bits, is rejected by the engine (`MergeTheorem.MergeReadsBack`,
  `MergeTheorem.SmallConfidenceIsRejected`).
- nDCG is meant to be a normalised score, but repeated hits can lift it above one; it cannot exceed
  one exactly when the top k hit no more often than there are relevant items
  (`Ranking.NdcgAtMostOneExactly`, `Ranking.RepeatedHitExceedsOne`).
- A dataset within the limits is still changed when it holds an empty session or a query naming
  only absent sessions (`SafetyLimits.UnchangedExactly`).

## Model

| member | source | states |
|---|---|---|
| `Interner.EffectiveCap` | crates/hirn-core/src/interner.rs:96-102 | the cap never exceeds the request or the handle space, and is one of the two |
| `Interner.AtomicInternMeaning` | crates/hirn-core/src/interner.rs:124-149 | an indivisible intern keeps strings distinct and the table within the cap, only appends, returns a handle that resolves to the string, and refuses exactly for a new string at the cap |
| `Interner.IndexOfUnique` | crates/hirn-core/src/interner.rs:132-148 | in a table of distinct strings a handle and its string determine each other |
| `Interner.StringInterner.WithMax` | crates/hirn-core/src/interner.rs:96-102 | a new interner is empty and has the clamped cap |
| `Interner.StringInterner.TryIntern` | crates/hirn-core/src/interner.rs:124-149 | one undisturbed call updates both maps as the indivisible intern does and keeps them inverse to each other |
| `Interner.StringInterner.TryResolve` | crates/hirn-core/src/interner.rs:164-167 | the string of a handle that was handed out, nothing otherwise; the forward map agrees |
| `Interner.StringInterner.Resolve` | crates/hirn-core/src/interner.rs:153-156 | for a handle that was handed out, the string the forward map sends to it |
| `InternerProtocol.StepKeepsInv` | crates/hirn-core/src/interner.rs:124-167 | every step of every call keeps the invariant: one lock holder, the maps inverse to each other up to one pending entry, decided outcomes true |
| `InternerProtocol.StepOnTable` | crates/hirn-core/src/interner.rs:136-148 | only push and insert touch the maps, and together they add one entry for a string that was absent |
| `InternerProtocol.OutcomeStable` | crates/hirn-core/src/interner.rs:124-149 | an outcome that was once right stays right after every step |
| `InternerProtocol.DecisionIsAtomic` | crates/hirn-core/src/interner.rs:124-149 | the step that decides a call decides it as the indivisible intern would on the published table |
| `InternerProtocol.StepRefines` | crates/hirn-core/src/interner.rs:124-167 | every step is invisible or is one whole operation of one caller: the interner is linearizable |
| `InternerRuns.RunRefines` | crates/hirn-core/src/interner.rs:124-167 | every concurrent run is a run of indivisible operations |
| `InternerRuns.HandlesIdentifyStrings` | crates/hirn-core/src/interner.rs:124-149 | two handles returned at any moments by any calls are equal exactly when their strings are |
| `InternerRuns.HandleDenotes` | crates/hirn-core/src/interner.rs:124-167 | a returned handle, also one read without the lock, denotes its string in every later state |
| `InternerRuns.HandleResolves` | crates/hirn-core/src/interner.rs:151-167 | every resolve call for a returned handle that starts later answers with its string |
| `InternerRuns.HandlesFit` | crates/hirn-core/src/interner.rs:131-148 | in every state the table is within the cap, and the cast of a position to a handle loses nothing |
| `InternerRuns.RefusalIsFinal` | crates/hirn-core/src/interner.rs:136-142 | once a string was refused for capacity no call on it ever succeeds, earlier or later |
| `InternerRuns.PublishedSucceeds` | crates/hirn-core/src/interner.rs:125-128 | a published string is found by every later call without the lock, full table or not |
| `InternerRuns.EntriesWereAsked` | crates/hirn-core/src/interner.rs:144-148 | every entry was asked for by some call |
| `InternerRuns.QuietTable` | crates/hirn-core/src/interner.rs:241-275 | when all calls have succeeded the table holds each string asked for exactly once and nothing else |
| `InternerRuns.SomeoneCanMove` | crates/hirn-core/src/interner.rs:124-167 | while a call is unfinished some call can move: no deadlock |
| `InternerRuns.MovesTerminate` | crates/hirn-core/src/interner.rs:124-167 | every move consumes work, so finitely many calls finish |
| `CircuitBreaker.StepKeepsSound` | crates/hirn-core/src/circuit_breaker.rs:90-192 | every operation keeps the counters below the thresholds and remembers a failure time while open |
| `CircuitBreaker.CircuitBreaker.constructor` | crates/hirn-core/src/circuit_breaker.rs:70-82 | a new breaker is closed with zero counters |
| `CircuitBreaker.CircuitBreaker.MaybeTransitionToHalfOpen` | crates/hirn-core/src/circuit_breaker.rs:183-192 | an open breaker whose timeout has passed becomes half-open with cleared counters; nothing else changes |
| `CircuitBreaker.CircuitBreaker.State` | crates/hirn-core/src/circuit_breaker.rs:90-94 | reports the mode after the timed transition |
| `CircuitBreaker.CircuitBreaker.TimeUntilProbe` | crates/hirn-core/src/circuit_breaker.rs:98-111 | a waiting time exactly when open, namely what is left of the timeout, at least zero |
| `CircuitBreaker.CircuitBreaker.RecordSuccess` | crates/hirn-core/src/circuit_breaker.rs:114-133 | the success step on the 32-bit state, without overflow |
| `CircuitBreaker.CircuitBreaker.RecordFailure` | crates/hirn-core/src/circuit_breaker.rs:136-156 | the failure step on the 32-bit state, without overflow |
| `CircuitBreaker.CircuitBreaker.AllowCall` | crates/hirn-core/src/circuit_breaker.rs:166-181 | the admission step on the 32-bit state, without overflow, and its answer |
| `CircuitBreakerRuns.ProbesBounded` | crates/hirn-core/src/circuit_breaker.rs:166-181 | in every state of every run at most `success_threshold` probes are in flight |
| `CircuitBreakerRuns.HalfOpenAdmissions` | crates/hirn-core/src/circuit_breaker.rs:114-192 | one half-open period admits at most 2T - 1 calls, even with stale outcomes recorded in it |
| `CircuitBreakerRuns.BoundIsReached` | crates/hirn-core/src/circuit_breaker.rs:114-192 | for every configuration a run with a forward clock and only outcomes of calls admitted in the period reaches that bound |
| `CircuitBreakerRuns.SingleProbeExactly` | crates/hirn-core/src/circuit_breaker.rs:16-17 | every half-open period admits at most one call exactly when the success threshold is at most one |
| `CircuitBreakerRuns.InFlightIsUnresolved` | crates/hirn-core/src/circuit_breaker.rs:114-181 | the in-flight counter is the number of unresolved probes exactly when no outcome beyond the admitted calls was recorded, and larger otherwise |
| `CircuitBreakerRuns.OpensAtThreshold` | crates/hirn-core/src/circuit_breaker.rs:136-156 | counted from the start or the last success, the breaker is closed exactly while fewer than F failures were recorded |
| `CircuitBreakerRuns.LastFailureRecorded` | crates/hirn-core/src/circuit_breaker.rs:136-139 | the remembered time is that of the last recorded failure of the run |
| `CircuitBreakerRuns.OpenAdmits` | crates/hirn-core/src/circuit_breaker.rs:166-192 | an open breaker admits a call exactly when the timeout has passed since the last recorded failure |
| `CircuitBreakerRuns.OpenRejects` | crates/hirn-core/src/circuit_breaker.rs:166-192 | after a failure at t that leaves it open nothing is admitted before t plus the timeout, whatever happens in between |
| `CircuitBreakerRuns.HalfOpenPeriod` | crates/hirn-core/src/circuit_breaker.rs:114-192 | a half-open state lies in a period entered from open, without failures, whose successes are the counter |
| `CircuitBreakerRuns.ClosingNeedsSuccesses` | crates/hirn-core/src/circuit_breaker.rs:114-133 | between an open and a later closed moment lies one half-open period with T successes and no failure |
| `CircuitBreakerRuns.WaitIsExact` | crates/hirn-core/src/circuit_breaker.rs:98-111 | the reported waiting time is exact: the next call is admitted once it has passed and not before |
| `CircuitBreakerHistory.HistoryDecides` | crates/hirn-core/src/circuit_breaker.rs:90-192 | in every run with a forward clock the mode is the one told by the failures since the last success, the time of the last failure and the successes of the half-open period |
| `CircuitBreakerHistory.AdmittedExactly` | crates/hirn-core/src/circuit_breaker.rs:166-181 | a call is admitted exactly when closed, when open and timed out, or while a probe slot is free |
| `CircuitBreakerHistory.ClosesAtThreshold` | crates/hirn-core/src/circuit_breaker.rs:114-133 | a half-open period closes exactly at its T-th success, with the failures back at zero, and stays half-open before |
| `JsonScanner.ExtractJsonObject` | crates/hirn-core/src/nlu.rs:301-332 | the result is the shortest slice from the first opening brace that is balanced outside string literals; nothing when there is none; the depth never falls below zero |
| `JsonScanner.ExtractsUnique` | crates/hirn-core/src/nlu.rs:301-332 | that specification admits one answer |
| `JsonScanner.DepthIsNesting` | crates/hirn-core/src/nlu.rs:306-330 | the flag-driven depth is the brace nesting of the text with its string literals removed |
| `JsonObjects.TextNeutral` | crates/hirn-core/src/nlu.rs:306-330 | every JSON value of sections 4 to 7 of RFC 8259 leaves the scanner as it found it and never dips below its depth |
| `JsonObjects.ObjectComplete` | crates/hirn-core/src/nlu.rs:301-332 | a printed object is balanced and none of its proper prefixes is |
| `JsonObjects.PrintedObjectExtracted` | crates/hirn-core/src/nlu.rs:301-332 | for every printed object, every prefix without a brace and every suffix, the answer is exactly the object |
| `Calibration.BinsPartition` | crates/hirn-core/src/nlu.rs:551-560 | every observation is in exactly one bin, so any sum splits over the bins |
| `Calibration.FillBins` | crates/hirn-core/src/nlu.rs:551-560 | the first loop counts and adds up each bin's observations |
| `Calibration.CloseBins` | crates/hirn-core/src/nlu.rs:561-570 | the second loop turns sums into means in place and adds up the count-weighted gaps |
| `Calibration.Evaluate` | crates/hirn-core/src/nlu.rs:525-580 | the report holds the means, the Brier score, the bins and the calibration error of the usable samples; zeros when there are none |
| `CalibrationReport.BinsAccountForAll` | crates/hirn-core/src/nlu.rs:551-580 | bin counts sum to the sample count and count-weighted bin means recover both overall means |
| `CalibrationReport.FiguresAreOrdered` | crates/hirn-core/src/nlu.rs:525-580 | the gap of the means is at most the calibration error, whose square is at most the Brier score; both are at most one |
| `CalibrationReport.OverconfidenceShows` | crates/hirn-core/src/nlu.rs:800-802 | reported overconfidence beyond a tolerance forces the calibration error above it and the Brier score above its square |
| `CalibrationReport.DescribesUnique` | crates/hirn-core/src/nlu.rs:525-580 | the description that `Evaluate` meets determines the report |
| `CalibrationReport.EveryReport` | crates/hirn-core/src/nlu.rs:525-580 | all of these for every calibration and every list of samples with a usable one |
| `CalibrationExact.ApplyExactly` | crates/hirn-core/src/nlu.rs:477-482 | a confidence that is not finite counts as zero, and an admissible map is applied unchanged |
| `CalibrationExact.BinsHaveEqualWidth` | crates/hirn-core/src/nlu.rs:553-553 | the bin of a confidence is its tenth of [0, 1], one going to the last |
| `CalibrationExact.InBinExactly` | crates/hirn-core/src/nlu.rs:552-560 | a bin holds every observation of its tenth as often as it occurs, and no other |
| `CalibrationExact.BinMeansInTheirTenth` | crates/hirn-core/src/nlu.rs:551-570 | in every report a non-empty bin has its mean confidence inside its tenth |
| `CalibrationExact.OverconfidentExactly` | crates/hirn-core/src/nlu.rs:800-802 | overconfidence is reported exactly when total confidence exceeds the right answers by more than the tolerance per sample |
| `CalibrationFit.LineOf` | crates/hirn-core/src/nlu.rs:643-682 | slope and intercept as computed are the least-squares coefficients |
| `CalibrationExact.ObservationsCounted` | crates/hirn-core/src/nlu.rs:625-641 | the observations are as many as the samples with a finite confidence, and as many are right |
| `CalibrationExact.TooFewExactly` | crates/hirn-core/src/nlu.rs:625-641 | the fit is refused for too few samples exactly below thirty finite confidences, and says how many there were |
| `CalibrationExact.FlatIsDegenerate` | crates/hirn-core/src/nlu.rs:643-657 | a variance of at most 2^-23 is refused with slope zero and the share of right answers |
| `CalibrationExact.FitExactly` | crates/hirn-core/src/nlu.rs:659-684 | otherwise a fit is made exactly for a least-squares slope of at least 0.05, and is that line clamped; the refusal carries slope and share |
| `CalibrationFitFacts.LeastSquares` | crates/hirn-core/src/nlu.rs:643-682 | unclamped slope and intercept minimise the squared error over all affine maps, and no other map does |
| `CalibrationFitFacts.BrierBelowResiduals` | crates/hirn-core/src/nlu.rs:477-482 | clamping the output never raises the squared error and changes nothing for admissible maps |
| `CalibrationFitFacts.FittedIsNotConstant` | crates/hirn-core/src/nlu.rs:625-684 | a fitted map has a scale of at least 0.05 and a floor below one, for every sample list that is not refused |
| `CalibrationFitFacts.FittedIsMonotone` | crates/hirn-core/src/nlu.rs:477-482 | a fitted map is monotone, stays in [0, 1] and separates 0 from 1 |
| `CalibrationFitFacts.FitBeatsIdentity` | crates/hirn-core/src/nlu.rs:625-684 | on its samples a fitted map, clamped or not, never has a larger squared error than the default |
| `CalibrationFitFacts.FittedReportNotWorse` | crates/hirn-core/src/nlu.rs:539-546 | so the published Brier score after fitting is at most the one before |
| `CalibrationFitFacts.FitIsBest` | crates/hirn-core/src/nlu.rs:643-684 | with nothing clamped no admissible calibration has a smaller squared error |
| `CalibrationFitFacts.FitIsBeaten` | crates/hirn-core/src/nlu.rs:678-684 | with a negative intercept cut off and a slope of at most one some admissible calibration is strictly better |
| `CalibrationBest.SteepFitIsBest` | crates/hirn-core/src/nlu.rs:643-684 | with a slope above one and no positive intercept the fit is best when the variance outweighs the gap of the means in both directions |
| `CalibrationBest.SteepFitIsBeaten` | crates/hirn-core/src/nlu.rs:678-684 | and otherwise some admissible calibration is strictly better |
| `CalibrationBest.RivalIsBest` | crates/hirn-core/src/nlu.rs:678-684 | with a slope above one and a positive intercept one explicit map, with scale and floor adding up to one, is the best admissible calibration |
| `CalibrationBest.FitIsBestExactlyWhen` | crates/hirn-core/src/nlu.rs:643-684 | for every fit, the exact condition under which no admissible calibration has a smaller squared error |
| `Bootstrap.AdvanceNonzero` | crates/hirn-bench/src/nlu_eval.rs:352-358 | one xorshift step never leads a non-zero state to zero |
| `Bootstrap.StatesNonzero` | crates/hirn-bench/src/nlu_eval.rs:352-358 | so no state of the generator is zero |
| `Bootstrap.SortIsSorted` | crates/hirn-bench/src/nlu_eval.rs:367-367 | sorting gives an ordered permutation |
| `Bootstrap.OrderedUnique` | crates/hirn-bench/src/nlu_eval.rs:367-367 | there is only one ordered permutation, so the library's sort gives the same list |
| `Bootstrap.SortMonotone` | crates/hirn-bench/src/nlu_eval.rs:346-371 | raising entries of a list raises every order statistic |
| `Bootstrap.RanksInRange` | crates/hirn-bench/src/nlu_eval.rs:368-370 | the two ranks are ordered and inside the list for every positive number of resamples |
| `Bootstrap.BootstrapCi` | crates/hirn-bench/src/nlu_eval.rs:346-371 | the nested loops, with one generator state running through all resamples, compute the specified interval of the seeded stream |
| `Bootstrap.IntervalMonotone` | crates/hirn-bench/src/nlu_eval.rs:346-371 | turning outcomes from wrong to right never lowers either end, whatever is drawn |
| `Bootstrap.IntervalBounds` | crates/hirn-bench/src/nlu_eval.rs:346-371 | the ends are ordered and in [0, 1] |
| `BootstrapFacts.StreamOfWords` | crates/hirn-bench/src/nlu_eval.rs:351-358 | the stream is the sequence of words drawn from the seed, with its first two words |
| `BootstrapFacts.PositionIsRemainder` | crates/hirn-bench/src/nlu_eval.rs:363-363 | the position drawn is the one remainder of the word by the number of outcomes |
| `BootstrapFacts.MeanCountsDraws` | crates/hirn-bench/src/nlu_eval.rs:361-366 | resample i takes the draws n i + 1 to n i + n, and n times its accuracy counts the correct ones |
| `BootstrapFacts.RanksByCounting` | crates/hirn-bench/src/nlu_eval.rs:368-369 | the low rank is the largest r with 40 r <= resamples, the high one the largest below resamples with 40 r <= 39 resamples |
| `BootstrapFacts.SortedAtRank` | crates/hirn-bench/src/nlu_eval.rs:367-370 | an entry of the sorted list is the one number with at most rank entries below it and more than rank up to it |
| `BootstrapFacts.IntervalExactly` | crates/hirn-bench/src/nlu_eval.rs:346-371 | the interval consists of exactly the two numbers of these ranks among the resampled accuracies |
| `Ranking.HitsIsIntersection` | crates/hirn-bench/src/metrics.rs:10-27 | without duplicates, hits are the size of the intersection |
| `Ranking.PrecisionRecall` | crates/hirn-bench/src/metrics.rs:10-27 | precision and recall are shares of one set of hits, counted from either side |
| `Ranking.PrecisionRecallBalance` | crates/hirn-bench/src/metrics.rs:10-27 | precision times the list length and recall times the relevant items both equal the hits |
| `Ranking.F1IsDice` | crates/hirn-bench/src/metrics.rs:30-35 | F1 of the two is twice the hits over the sum of the two sizes, empty lists included |
| `Ranking.GainBelowIdeal` | crates/hirn-bench/src/metrics.rs:64-74 | h hits gain at most the ideal of h, and that only when they come first |
| `Ranking.NdcgInUnit` | crates/hirn-bench/src/metrics.rs:48-62 | nDCG is in [0, 1] when the top k hit no more often than there are relevant items |
| `Ranking.NdcgInUnitWhenDistinct` | crates/hirn-bench/src/metrics.rs:48-62 | so it is for every retrieved list without duplicates |
| `Ranking.NdcgOneExactly` | crates/hirn-bench/src/metrics.rs:48-62 | under the same condition it is one exactly when the first min(k, relevant) results exist and are all relevant, and that number is positive |
| `Ranking.NdcgOneWhenDistinct` | crates/hirn-bench/src/metrics.rs:48-62 | so it is for every retrieved list without duplicates |
| `Ranking.NdcgAtMostOneExactly` | crates/hirn-bench/src/metrics.rs:48-62 | nDCG is at most one for every discount exactly when the top k hit no more often than there are relevant items |
| `Ranking.RepeatedHitExceedsOne` | crates/hirn-bench/src/metrics.rs:48-62 | one relevant result retrieved twice scores above one under every discount |
| `Ranking.SwapRaisesNdcg` | crates/hirn-bench/src/metrics.rs:48-74 | moving a relevant result above an irrelevant one inside the top k strictly raises nDCG |
| `Ranking.NdcgAddsUp` | crates/hirn-bench/src/metrics.rs:48-74 | nDCG is zero without a hit, and making the result at rank i relevant adds its discount over the ideal |
| `HirnqlText.PassesAreEscape` | crates/hirn-node/memory.js:17-25 | five replace passes in sequence are one simultaneous replacement per character |
| `HirnqlText.UnescapeString` | crates/hirn-query/src/parser/parse.rs:838-862 | the loop resolves escapes as the recursive definition does, with its error case |
| `HirnqlText.InnerResolves` | crates/hirn-query/src/parser/hirnql.pest:481-486 | whatever the grammar accepts inside quotes can be resolved |
| `HirnqlText.EscapeResolves` | crates/hirn-node/memory.js:17-25 | resolving undoes escaping |
| `HirnqlText.QuoteReadsBack` | crates/hirn-query/src/parser/parse.rs:826-862 | the engine reads back exactly the quoted string and stops exactly behind it, whatever follows |
| `HirnqlText.QuoteSelfDelimiting` | crates/hirn-node/memory.js:17-25 | equal texts that start with quoted strings have equal strings and equal rests |
| `MergeQuery.PartList.AppendOptionalStringClause` | crates/hirn-node/memory.js:27-32 | nothing for an absent value, clause and quoted value for a good one, and its error with the list unchanged for a bad one |
| `MergeQuery.FormatSemanticAssignments` | crates/hirn-node/memory.js:34-65 | the assignments in order, or the first error in program order |
| `MergeQuery.BuildSemanticMergeQuery` | crates/hirn-node/memory.js:81-106 | the text of the checked merge, or the first error in program order |
| `MergeArguments.AcceptedExactly` | crates/hirn-node/memory.js:7-106 | the checks pass exactly when every argument is good, and then each argument sits in its own field of the merge |
| `MergeArguments.ErrorExactly` | crates/hirn-node/memory.js:7-106 | the error is that of the first bad argument in program order, and there is none exactly without a bad argument |
| `MergeNumbers.IntegerExactly` | crates/hirn-node/memory.js:52-54 | the integer test holds exactly when the printed digits times their power of ten are a whole number |
| `MergeNumbers.NegativeExactly` | crates/hirn-node/memory.js:52-54 | a number counts as negative exactly when it has a sign and is not zero |
| `MergeRoundTrip.TextOf` | crates/hirn-node/memory.js:81-106 | the joined parts are the head, SET clause and optional clauses one after the other |
| `MergeRoundTrip.ReadTargets` | crates/hirn-query/src/parser/hirnql.pest:476-479 | the list of quoted ids is read as exactly those memory targets |
| `MergeTheorem.ReadNumber` | crates/hirn-query/src/parser/hirnql.pest:490-491 | a printed number is read up to its exponent, as an integer or as the text of a float |
| `MergeTheorem.ReadSet` | crates/hirn-query/src/parser/hirnql.pest:192-204 | the SET clause is read completely when no number has an exponent and gets stuck at the exponent otherwise |
| `MergeTheorem.MergeReadsBack` | crates/hirn-query/src/parser/parse.rs:617-665 | for every merge, the engine parses its query to exactly that statement if the numbers have no exponent and integers fit 64 bits, and rejects it if not |
| `MergeTheorem.BuilderReadsBack` | crates/hirn-node/memory.js:81-106 | so every query the builder returns is read back exactly under that condition, always when there are no numbers |
| `MergeArguments.ArgumentsReadBack` | crates/hirn-query/src/parser/parse.rs:617-665 | the engine reads the query of accepted arguments as those arguments, one by one, exactly when the numbers are readable |
| `MergeNumbers.IntegerReadsBack` | crates/hirn-query/src/parser/parse.rs:1569-1606 | an integer written in decimal is read back as itself |
| `MergeGrammar.CommentSkipped` | crates/hirn-query/src/parser/hirnql.pest:497-498 | a comment to the end of its line counts for nothing |
| `MergeGrammar.ReadRef` | crates/hirn-query/src/parser/parse.rs:740-772 | plain, logical and revision targets are read as what they are |
| `MergeGrammar.ReadMax` | crates/hirn-query/src/parser/hirnql.pest:204-204 | a MAX assignment is read with its field and bound |
| `MergeGrammar.ReadMin` | crates/hirn-query/src/parser/hirnql.pest:204-204 | a MIN assignment is read with its field and bound |
| `MergeGrammar.ReadNamespace` | crates/hirn-query/src/parser/hirnql.pest:430-430 | a quoted namespace is read |
| `MergeGrammar.ReadBareNamespace` | crates/hirn-query/src/parser/hirnql.pest:430-430 | a bare namespace is read |
| `MergeGrammar.ReadParameter` | crates/hirn-query/src/parser/hirnql.pest:488-488 | a named parameter stands in a clause under its own spelling |
| `MergeInjective.RenderInjective` | crates/hirn-node/memory.js:45-57 | a printed number determines its sign, digits and exponent |
| `MergeInjective.QueriesDoNotCollide` | crates/hirn-node/memory.js:81-106 | merges with equal queries are equal, in every field and whatever their numbers |
| `MergeTheorem.SmallConfidenceIsRejected` | crates/hirn-node/memory.js:45-50 | a merge with a confidence printed as 1e-7 passes all checks of the binding, and its query fails in the engine |
| `PreferenceTarget.WordsOfAssembled` | crates/hirn-core/src/preference.rs:71-84 | whatever the separators, the words of a text are the words put in |
| `PreferenceTarget.TextIsAssembled` | crates/hirn-core/src/preference.rs:71-84 | every text is its words between separators, so only separators are lost |
| `PreferenceTarget.SameKeyExactly` | crates/hirn-core/src/preference.rs:71-93 | two targets normalise alike exactly when their words agree up to one leading article |
| `PreferenceTarget.TwoWords` | crates/hirn-core/src/preference.rs:86-92 | of two words the first is dropped exactly when it is the, a, an or my |
| `PreferenceTarget.NormalizedAgain` | crates/hirn-core/src/preference.rs:71-93 | for a key that lowering leaves alone, normalising it again changes nothing exactly unless the target began with two articles and a further word |
| `PreferenceTarget.TwoArticles` | crates/hirn-core/src/preference.rs:86-92 | normalising is not idempotent on two leading articles before a lower-case word |
| `PreferenceTarget.NormalizePreferenceTarget` | crates/hirn-core/src/preference.rs:71-93 | the character loop gives the words joined by single spaces without one leading article |
| `PreferenceTarget.StripArticle` | crates/hirn-core/src/preference.rs:87-92 | stripping a prefix drops a leading article word exactly when another word follows |
| `Preferences.KeyOrder` | crates/hirn-core/src/preference.rs:398-398 | keys are totally ordered: exactly one of less, equal, greater |
| `Preferences.TextLessExactly` | crates/hirn-core/src/preference.rs:398-398 | texts are compared at the first place where they differ, a prefix coming first |
| `Preferences.SortStable` | crates/hirn-core/src/preference.rs:411-411 | observations of one time keep their input order |
| `Preferences.CurrentPreferences` | crates/hirn-core/src/preference.rs:397-419 | the grouping loop and the per-group sort give the specified list |
| `PreferenceFacts.CurrentKeeps` | crates/hirn-core/src/preference.rs:397-419 | the result lists the observations of each preference and time in input order |
| `PreferenceFacts.CurrentCanonical` | crates/hirn-core/src/preference.rs:397-419 | keys strictly increase and every entry is one preference, newest first |
| `PreferenceFacts.CanonicalUnique` | crates/hirn-core/src/preference.rs:397-419 | these two facts determine the result |
| `PreferenceFacts.SameResultExactly` | crates/hirn-core/src/preference.rs:397-419 | two inputs give the same result exactly when they list each preference's simultaneous observations alike |
| `PreferenceFacts.OrderIrrelevantExactly` | crates/hirn-core/src/preference.rs:390-419 | the result is the same for every permutation of the input exactly when no two different observations tie |
| `PreferenceBlocks.BlockExactly` | crates/hirn-core/src/preference.rs:406-418 | an entry is exactly the stable newest-first sort of its preference's observations |
| `PreferenceBlocks.ObservationsConserved` | crates/hirn-core/src/preference.rs:397-419 | the result holds the input as a multiset |
| `PreferenceBlocks.EntryOf` | crates/hirn-core/src/preference.rs:397-404 | every observation has an entry with its key |
| `PreferenceBlocks.WinnerIsFirstOfNewest` | crates/hirn-core/src/preference.rs:408-412 | the winner is the newest observation, and the first seen of the newest |
| `PreferenceBlocks.ReversedExactly` | crates/hirn-core/src/preference.rs:377-381 | a reversal is reported exactly when both polarities were observed |
| `PreferenceBlocks.KeysIncrease` | crates/hirn-core/src/preference.rs:397-419 | entries come in strictly increasing order of owner and target, one per preference |
| `PreferenceBlocks.OrderedByTargetExactly` | crates/hirn-core/src/preference.rs:395-419 | they are ordered by target alone exactly when owners and targets never disagree |
| `PreferenceBlocks.SamePreferenceExactly` | crates/hirn-core/src/preference.rs:104-106 | two observations concern one preference exactly for one owner and the same words up to an article |
| `PreferenceBlocks.TiedReversal` | crates/hirn-core/src/preference.rs:390-393 | two contradictory observations of one time make the result depend on input order |
| `SafetyLimits.ClipAt` | crates/hirn-bench/src/main.rs:174-186 | a session keeps what the turns before it leave of the record limit, with its id |
| `SafetyLimits.KeptTurns` | crates/hirn-bench/src/main.rs:166-188 | the kept turns are the first `max_records` turns of the first `max_sessions` sessions |
| `SafetyLimits.KeptQueries` | crates/hirn-bench/src/main.rs:190-206 | a query is kept exactly when it names no session or a kept one and fewer than `max_queries` such queries precede it; order is kept |
| `SafetyLimits.LimitedIsWithin` | crates/hirn-bench/src/main.rs:166-207 | the result meets all limits, has no empty session and only answerable queries |
| `SafetyLimits.UnchangedExactly` | crates/hirn-bench/src/main.rs:166-207 | a dataset is left alone exactly when it is already so |
| `SafetyLimits.LimitedTwice` | crates/hirn-bench/src/main.rs:166-207 | limiting twice is limiting once |
| `SafetyLimits.DroppedCounts` | crates/hirn-bench/src/main.rs:1904-1908 | no count grows, so the subtractions of sizes never underflow |
| `SafetyLimits.CognitiveDataset.ApplyExternalSafetyLimits` | crates/hirn-bench/src/main.rs:166-207 | the in-place cuts give the specified dataset, kept queries being the first eligible ones in order |
| `SafetyLimits.CognitiveDataset.ClipSessions` | crates/hirn-bench/src/main.rs:174-186 | the loop with a running count clips exactly as specified |
| `SafetyLimits.CognitiveDataset.RetainQueries` | crates/hirn-bench/src/main.rs:196-202 | the eligible queries stay, in order |

## Left out

- Rounding of `f32` and `f64`: all arithmetic on scores is exact, so statements about the last digits are not covered.
- The value of a float literal in a query: the model keeps its text, and the conversion to `f64` is the library's.
- Lone surrogates in JavaScript strings and the length limit of a query: texts are sequences of code points of any length.
- Statements of HirnQL other than `MERGE MEMORY`, and the edit queries of the binding: they use the same quoting and clauses.
- `HirnqlText.UnescapeString`: the wording of parse errors is not modelled, only that there is one.
- `Bootstrap.BootstrapCi`: zero resamples of a non-empty list make the program index an empty list, so they are excluded.
- `Interner.StringInterner.Resolve`: a handle that was never handed out makes the program panic, so it is excluded.
- `Preferences.CurrentPreferences`: the ordered map and the library sort are a list of groups in key order and an insertion sort of the same specification.
- Softmax and temperature, label resolution and response parsing of the classifier: single expressions over library parsing.
- Latency percentiles, reciprocal rank, slice tallies and the parsing of the interner's environment variable: each is settled by reading one branch.
- The process-wide interner singletons, provider traits, embedders, model calls, storage and configuration checks: input and output, or independent range checks.
