# Verified models of the repository's decision kernels

The repository drives a robot hand, guards a mobile base, runs GPU stress tests and scores memory retrieval. This project
models the parts of it that decide something (when a walk stops, when a release gate passes, which p-value is reported,
which evidence is accepted) and proves what they promise, over every input, every environment and every run.

Everything outside those parts is a parameter with arbitrary results: a tape of sensor readings, gateway answers or worker
processes, a random stream, a schedule of callbacks. A theorem about such a parameter holds for all of its values.

## How the project is built

Code that only computes is a function; code that updates something in place is a method or a class, proved equal to a
function or to a declarative predicate, and the theorems are about those.

| file | models |
|---|---|
| `March`, `GradedModel`, `GradedDriver`, `GradedSafety`, `GradedWalk`, `GradedReports`, `GradedTrials`, `GradedCommands`, `GradedReceiptTrip` | the graded-execution driver of the hand: the marching-waypoint walk in closed loop, trials, levels, safety counters and the release gate |
| `Survival`, `McNemar`, `Promotion`, `PromotionOrder` | session statistics: Kaplan-Meier, restricted mean survival, median, the exact McNemar test, the promotion report and when it depends on the order of its records |
| `RankingMetrics` | DCG and nDCG |
| `Deadman`, `DeadmanThreads` | the relay that stops the base: timing and event log with one callback at a time, and every interleaving of its locked sections |
| `QueryBench`, `QueryGenerator`, `QueryGeneratorProofs`, `QueryContents`, `QueryBuilder` | the retrieval benchmark: validators, generator, why one meets the other, and what the 300 queries are about |
| `JourneyVerifier` | the offline evidence verifier |
| `NativeStore` | ranked search of the benchmark store |
| `StressShards`, `ScaleCurve` | partition, records and completeness of GPU runs |
| `ReplayMemory` | the bounded replay memory of the full-stack policy |
| `SerialGuardian` | who holds which serial port |
| `StableSort`, `Text`, `Arithmetic`, `Powers`, `Wrappers` | shared: stable sorting, strings, minima and maxima, powers of two, `Option` and `Result` |

`GradedModel` holds the driver as functions of its environment, `GradedDriver` the object with its fields, and every
method of the object is proved equal to its function; the theorems in the other `Graded` files are about those functions,
and so about the object.

## What the proofs brought to light

Places where a plausible or documented property does not hold of the code. For each false property the project proves both
a failing case and the exact condition under which the property does hold. Where a comment and the code differ, the model
follows the code.

- A safety trip that shows up only in a receipt is counted but does not set `aborted`: the next trial of the level still
  starts. `GradedReceiptTrip.ReceiptTripDoesNotStop` is a whole run in which it does, and `GradedSafety.NextTrialStartsIff`
  the condition. The release gate still fails.
- The gate passes without a single level when none was requested and the run failed with an empty message:
  `GradedSafety.EmptyFailurePasses` is the case, `GradedSafety.GatePassesIff` the condition.
- The contact trial asks for an abort at 250 g, but its walk stops on contact at 70 g first: the abort is never reported
  (`GradedTrials.ApproachWalk`), and a force that jumps beyond 250 g counts as contact. A walk reports the abort exactly if
  it does not stop on contact (`GradedReports.WalkReportMeans`).
- A comment in the contact trial speaks of coarse 40-raw steps (scripts/experiments/exp3_graded_execution.py:524); the code
  walks with the default of 10.
- The deadman's docstring promises a zero command within the timeout; the bound is the timeout plus one timer period
  (`Deadman.TimeoutAloneIsTooShort`, `Deadman.StopLatency`), and the stop comes within the timeout exactly when a timer
  falls on its last moment (`Deadman.WithinTimeoutIff`). Its motion flag misses a NaN in the four components that are not checked (`Deadman.MaskedExists`, `Deadman.FlagIsMotionIff`),
  and its log replays only when logged commands move in the two logged components (`Deadman.UnfaithfulExists`,
  `Deadman.ReplayIff`).
- The deadman's lock alone does not make it safe to run callbacks at the same time. `rclpy.spin` never overlaps callbacks
  and ends before the shutdown starts, and then all is well (`DeadmanThreads.SpinNeverOverlaps`). If callbacks did overlap,
  a timeout stop could hit a command that has just arrived (`DeadmanThreads.StaleStop`; exactly when a command comes between
  a check and its stop, `DeadmanThreads.StopsAreTimelyIff`). If a command callback overlapped the shutdown, the output could
  be still with the flag set, because the shutdown publishes two messages outside the lock
  (`DeadmanThreads.UnlockedZeroSplits`; exactly when, `DeadmanThreads.FlagExactIff`).
- The Kaplan-Meier curve depends on the order of its input exactly when a failure and a censored session share a time
  (`Survival.MixedTieMatters`, `Survival.CurveOrderFreeIff`).
- The promotion report can depend on the order of its records when a session id is repeated within an arm
  (`PromotionOrder.RepeatedIdMatters`; exactly when, `PromotionOrder.OrderFreeIff`). The restricted means never do
  (`Promotion.MeansIgnoreOrder`).
- nDCG can exceed 1. For a given ranking and depth no labels make it do so if and only if the first k places hold no id
  twice, or, for a negative k, at most one place is left (`RankingMetrics.BoundedIff`; the smallest case is
  `RankingMetrics.DuplicatesExceedOne`).
- The evidence verifier requires a grant to be consumed once but never compares the grants of two transactions: evidence
  with two completed transactions on one grant passes (`JourneyVerifier.SharedGrantPasses`), and repeating a transaction
  under a new id changes no verdict at all (`JourneyVerifier.RepeatedTxnPasses`).
- A query of one character scores nothing on a longer document that contains it (`NativeStore.LongerDocumentMissed`); it
  scores exactly on the document that is that character (`NativeStore.OneCharacterQuery`).
- The four-GPU launcher does not look at which worlds a shard simulated: there is a complete run in which all worlds from W
  on are missing (`StressShards.CompleteCanMissWorlds`). Contiguous shards cover 0 .. 4W-1 once each exactly when their
  offsets are 0, W, 2W, 3W in some order (`StressShards.EachWorldOnceIff`), and in order exactly when each shard holds its
  own range (`StressShards.CoversIff`), as it does when each worker wrote the shard it was launched for
  (`StressShards.CompleteCovers`). The scale curve checks the range (`ScaleCurve.DeliveredShards`).
- The class comment of the replay policy says that only rewards above the threshold are kept; the code keeps the
  threshold itself too.

## Model

| member | source | states |
|---|---|---|
| March.CommandsAreSafe | scripts/experiments/exp3_graded_execution.py:404-413 | On one joint that ends each command somewhere between its position and the waypoint: commands never retreat, never leave the stretch from start to target, and lead the joint by at most the window; the last waypoint stays within the window of the joint |
| March.ClosingDistance | scripts/experiments/exp3_graded_execution.py:404-413 | A lagging joint that closes at least r of each command (0 < r <= delta <= window) has at most max(0, D - k*r) left after k commands, in either direction |
| March.ArrivingDistance | scripts/experiments/exp3_graded_execution.py:404-413 | A perfect joint has exactly max(0, D - k*delta) left after k commands |
| March.StepsNeededIsLeast | scripts/experiments/exp3_graded_execution.py:390-413 | max(0, ceil((D - tolerance)/r)) is the first number of steps of r after which a distance D is within tolerance |
| GradedWalk.WalkMarches | scripts/experiments/exp3_graded_execution.py:352-421 | Every walk, however it ends and whatever the environment answers, commands the first m <= 96 poses of six such marches over what it observes, and nothing else |
| GradedWalk.WalkIsSafe | scripts/experiments/exp3_graded_execution.py:352-421 | If the hand lags, every command of the whole walk lies between start and target on each joint, is not behind the previous one, and leads the observed joint by at most max_step_delta - 5 |
| GradedWalk.LaggingHandFits | src/rosclaw/body/rh56/sandbox.py:26-85 | The sandbox never blocks a command of a walk of a lagging hand between two poses in the calibrated range, although it checks a wider step than the window |
| GradedWalk.CalmWalk | scripts/experiments/exp3_graded_execution.py:356-452 | A walk without failure, trip or force stop ends at the first of its observations that is within tolerance, having used that many commands; without one among the first 96 it reports the cap |
| GradedWalk.PerfectHandWalk | scripts/experiments/exp3_graded_execution.py:352-452 | With a lagging hand whose converging channels are perfect (the others may be held), a calm walk reports reached if and only if the farthest converging channel is within 95*delta + tolerance, and then uses exactly max(0, ceil((D - tolerance)/delta)) commands |
| GradedWalk.ClosingHandWalk | scripts/experiments/exp3_graded_execution.py:352-452 | A lagging hand whose converging channels close at least r per command arrives within max(0, ceil((D - tolerance)/r)) commands when that is at most 95 |
| GradedReports.WalkReportMeans | scripts/experiments/exp3_graded_execution.py:343-452 | The whole report of every walk that returns: it ends by force if and only if a scanned force has reached 70 g (walks that stop on contact) or 250 g (walks that only abort), with the matching flag; otherwise it is reached if and only if its last reading is clean and within tolerance, and gives that position; in every other case it reports problems. Steps count the commands |
| GradedReports.WalkCovers | scripts/experiments/exp3_graded_execution.py:368-369 | No reading of a walk shows more force on a channel than the report's maximum |
| GradedTrials.TrialPassesIff | scripts/experiments/exp3_graded_execution.py:468-583 | For each of the five levels exactly when a trial passes, in terms of what readings and receipts show |
| GradedTrials.OkContactPassesIff | scripts/experiments/exp3_graded_execution.py:515-564 | A contact trial passes if and only if the hand comes near, then some force scanned on the way to the floor pose reaches 70 g, and then the hand is back where it was; reaching the floor pose is neither needed nor enough |
| GradedTrials.ApproachWalk | scripts/experiments/exp3_graded_execution.py:541-557 | On the approach contact is reported if and only if a scanned force reaches 70 g, and the over-contact abort never is |
| GradedTrials.SingleFingerPassesIff | scripts/experiments/exp3_graded_execution.py:486-500 | A finger trial passes if and only if the hand is found with the index finger closed by delta, not beyond zero, and then back where it was |
| GradedTrials.GesturePassesIff | scripts/experiments/exp3_graded_execution.py:502-513 | A gesture trial passes if and only if the hand is found with four fingers closed by 450, not below 450, and then back where it was |
| GradedTrials.NoopPassesIff | scripts/experiments/exp3_graded_execution.py:468-484 | A no-op trial passes if and only if the open pose may be commanded and its receipt is completed |
| GradedTrials.PlansAre | scripts/experiments/exp3_graded_execution.py:323-334 | The parameters of hold walks and approaches, and the 5 units kept below the permit's step |
| GradedTrials.LevelOkIff | scripts/experiments/exp3_graded_execution.py:592-600 | A level is in order if and only if all 20 or 10 trials were run and none failed, or at most one of the contact trials |
| GradedTrials.GateNeedsTrials | scripts/experiments/exp3_graded_execution.py:651-698 | If the gate passes with a level requested, every level's report is about trials that happened, one after the other, and is in order |
| GradedTrials.GateNeedsContact | scripts/experiments/exp3_graded_execution.py:515-698 | If no reading and no receipt shows 70 g, no run that asks for the contact level passes the gate, whatever the hand does |
| GradedCommands.SubmitIff | scripts/experiments/exp3_graded_execution.py:254-321 | A command reaches the gateway if and only if there is a permit, it is in the calibrated range, and no channel steps further than the permit allows; otherwise nothing is submitted |
| GradedCommands.EveryCommandAdmitted | scripts/experiments/exp3_graded_execution.py:254-698 | In every run of every environment, each command that reaches the gateway lies in the calibrated range and was sent under a permit of 50 units a step |
| GradedSafety.ProtectingBits | src/rosclaw/integrations/lerobot/execution/feedback_verifier.py:22-29 | The bits that count as protection: 0x04, 0x08 and 0x10, and no other |
| GradedSafety.SnapshotTrips | scripts/experiments/exp3_graded_execution.py:231-248 | An observation trips exactly when some channel has a protection bit, a force at the hard limit or a temperature at the stop |
| GradedSafety.WalkKeepsBooks | scripts/experiments/exp3_graded_execution.py:323-452 | A walk keeps the safety counters equal to the trips scanned, never clears aborted or changes the permit, and a walk that reports reached has not set aborted |
| GradedSafety.TrialKeepsBooks | scripts/experiments/exp3_graded_execution.py:468-564 | Any trial started before a trip keeps the books and starts at most one more walk, the way back, after a tripped walk observation |
| GradedSafety.NextTrialStartsIff | scripts/experiments/exp3_graded_execution.py:571-583 | A further trial of a level starts if and only if no walk observation has tripped so far |
| GradedSafety.LevelKeepsBooks | scripts/experiments/exp3_graded_execution.py:567-600 | A level keeps the books and leaves no permit, unless arming itself failed half-way |
| GradedSafety.RunIsAccounted | scripts/experiments/exp3_graded_execution.py:651-698 | Over every environment and choice of levels: the summary counters are the trips in all scanned observations, no trial starts after a tripped walk observation, at most one more walk does, aborted means that a walk observation tripped, and the driver ends disarmed |
| GradedSafety.GatePassesIff | scripts/experiments/exp3_graded_execution.py:691-698 | The gate passes if and only if no scanned observation tripped and every requested level is in order (or none was requested and the failure had an empty message) |
| GradedSafety.EmptyFailurePasses | scripts/experiments/exp3_graded_execution.py:672-698 | With no level requested, a run in which arming fails with an empty message does pass the gate |
| GradedReceiptTrip.ReceiptTripDoesNotStop | scripts/experiments/exp3_graded_execution.py:429-433 | A whole run in which the second trial starts after a receipt of the first one showed a force at the hard limit, and the gate fails |
| GradedDriver.Driver.ArmLevel | scripts/experiments/exp3_graded_execution.py:205-224 | The new fields after arming, also when issuing or arming the permit fails half-way |
| GradedDriver.Driver.Disarm | scripts/experiments/exp3_graded_execution.py:226-228 | Only the permit changes, to none |
| GradedDriver.Driver.CheckFeedbackSafety | scripts/experiments/exp3_graded_execution.py:231-248 | The problems found and both counters after scanning one observation, in the order of the three loops |
| GradedDriver.Driver.SubmitStep | scripts/experiments/exp3_graded_execution.py:254-321 | Blocked by the sandbox, without permit, or submitted once: result and state of each case |
| GradedDriver.Driver.ScanReceipt | scripts/experiments/exp3_graded_execution.py:429-449 | The scan of a receipt: counters move, aborted does not, and force thresholds can end the walk |
| GradedDriver.Driver.WalkTo | scripts/experiments/exp3_graded_execution.py:323-452 | The walk of the object is the walk that the theorems above are about |
| GradedDriver.Driver.RestoreOpenPose | scripts/experiments/exp3_graded_execution.py:457-466 | Arms, walks to the open pose and disarms however the walk ends |
| GradedDriver.Driver.RunTrialNoop | scripts/experiments/exp3_graded_execution.py:468-484 | Two reads, neither scanned, and one command; passed exactly on a completed receipt |
| GradedDriver.Driver.RunTrialSingleFinger | scripts/experiments/exp3_graded_execution.py:486-500 | Out and back with one finger; passed exactly when both walks reached without problems |
| GradedDriver.Driver.RunTrialGesture | scripts/experiments/exp3_graded_execution.py:502-513 | Out and back with four fingers |
| GradedDriver.Driver.RunTrialOkContact | scripts/experiments/exp3_graded_execution.py:515-564 | Coarse walk, contact approach, way back; passed exactly on contact without over-contact and problems |
| GradedDriver.Driver.RunOneLevel | scripts/experiments/exp3_graded_execution.py:567-600 | Arms, runs trials until the count or an abort, disarms in every case, and judges the level |
| GradedDriver.Driver.RunExperiment | scripts/experiments/exp3_graded_execution.py:645-698 | The whole run of the object, from its initial state to summary or crash, is the run that the theorems are about |
| StableSort.SortIsPython | experiments/evo3/stats_analysis.py:140 | What `sorted` promises: a permutation, ordered, tied elements in input order |
| Survival.KaplanMeier | experiments/evo3/stats_analysis.py:138-149 | The loop computes the product-limit curve over the stably sorted samples |
| Survival.PointShape | experiments/evo3/stats_analysis.py:142-148 | On any input: at-risk counts run from n to 1, survival is in [0,1], and is 0 exactly at the last point when the last sorted sample is a failure |
| Survival.CurveMonotone | experiments/evo3/stats_analysis.py:140-148 | Times never fall and survival never rises along the curve |
| Survival.EstimateOfFailures | experiments/evo3/stats_analysis.py:145-148 | After k failures and no censoring survival is (n - k)/n (telescoping product) |
| Survival.MedianFirstFailure | experiments/evo3/stats_analysis.py:152-158 | The scan returns the time of the first point at or below one half, or nothing |
| Survival.MedianIsOrderStatistic | experiments/evo3/stats_analysis.py:152-158 | Without censoring the median is the ceil(n/2)-th smallest time |
| Survival.HalfIff | experiments/evo3/stats_analysis.py:152-158 | On any curve there is no median if and only if survival stays above one half; otherwise it is the time of the first point at or below |
| Survival.RestrictedMeanSurvival | experiments/evo3/stats_analysis.py:161-174 | The loop computes the area under the step curve up to the horizon |
| Survival.RmstIsMean | experiments/evo3/stats_analysis.py:161-174 | When every censored sample sits at the horizon the area is the plain mean of min(time, horizon) |
| Survival.RmstIsExpectation | experiments/evo3/stats_analysis.py:161-174 | For any samples, censoring and horizon the area is the expected number of failure-free rounds under the curve: each drop of survival times min(its time, horizon), plus the survival at the end times the horizon |
| Survival.MixedTieMatters | experiments/evo3/stats_analysis.py:140-148 | A censored session before or after a failure with the same time gives two different curves |
| Survival.CurveOrderFreeIff | experiments/evo3/stats_analysis.py:138-149 | The curve is the same for every order of the samples if and only if no time carries both a failure and a censored session |
| McNemar.CombIsQuotient | experiments/evo3/stats_analysis.py:127-129 | The coefficients of Pascal's rule are those of `math.comb` |
| McNemar.CapMatters | experiments/evo3/stats_analysis.py:129-130 | The uncapped tail exceeds 1 exactly when b = c and is 1 exactly when abs(b - c) = 1, so the cap changes the value only when b = c |
| McNemar.PIsProbability | experiments/evo3/stats_analysis.py:122-130 | p is symmetric in b and c, missing exactly when b = c = 0, otherwise in (0,1], and 1 exactly when abs(b - c) <= 1 |
| McNemar.PGrowsWithBalance | experiments/evo3/stats_analysis.py:125-130 | At fixed b + c, p never decreases as min(b, c) grows |
| McNemar.PIsShareOfOutcomes | experiments/evo3/stats_analysis.py:122-130 | p is the share of all ways the discordant pairs could fall that are at least as lopsided as the observed one |
| McNemar.EveryOutcomeOnce | experiments/evo3/stats_analysis.py:126-129 | The enumeration behind that share lists every way, and at one place only |
| Promotion.PromotionReport | experiments/evo3/stats_analysis.py:197-249 | The loops over both arms compute the report, or none when an arm is empty |
| PromotionOrder.ReportCounts | experiments/evo3/stats_analysis.py:197-246 | `b` counts the paired slots, in session order, where the first arm has failed and the second has not, `c` the mirror, and the p-value is the share of outcomes for these counts, or missing without a discordant pair |
| Promotion.GainIsDifferenceOfMeans | experiments/evo3/stats_analysis.py:227-249 | Both restricted means are plain means of min(first failure round or horizon, horizon), and rmst_gain is their difference |
| Promotion.MeansIgnoreOrder | experiments/evo3/stats_analysis.py:227-249 | The restricted means and the gain never depend on the order of the records, whatever the session ids |
| PromotionOrder.OrderFreeIff | experiments/evo3/stats_analysis.py:197-249 | The report is the same for every order of the records if and only if, for two different arms, no two sessions of one arm that share an id and differ in failure presence could be exchanged with an effect: both are paired, with sessions that agree and whose own ids are not mixed |
| PromotionOrder.RepeatedIdMatters | experiments/evo3/stats_analysis.py:197-226 | An instance in which the order decides the discordant counts |
| PromotionOrder.ReportIgnoresOrder | experiments/evo3/stats_analysis.py:197-249 | With session ids that are unique in each arm, or shared only by sessions with the same outcome, the order never matters |
| RankingMetrics.DcgAtK | benchmarks/memory/evaluate.py:26-32 | The loop computes the discounted gain of the first k ids, also for a negative k |
| RankingMetrics.DcgAdds | benchmarks/memory/evaluate.py:26-32 | DCG is 0 at depth 0, and the id at place k with grade g adds (2^g - 1)/log2(k + 2) |
| RankingMetrics.IdealAdds | benchmarks/memory/evaluate.py:38-39 | The ideal DCG adds up the sorted grades in the same way |
| RankingMetrics.SingleRelevantDcg | benchmarks/memory/evaluate.py:26-32 | A ranking whose only graded id stands at place j < k scores exactly (2^g - 1)/log2(j + 2) |
| RankingMetrics.SingleRelevantNdcg | benchmarks/memory/evaluate.py:35-42 | nDCG of a single relevant id at place j < k is log2(2)/log2(j + 2), whatever its grade |
| RankingMetrics.BestOf | benchmarks/memory/evaluate.py:38-39 | No choice of at most n grades gains more than the n best ones |
| RankingMetrics.Abel | benchmarks/memory/evaluate.py:38-42 | Summation by parts: domination on every prefix carries over to every positive non-increasing discount, with equality only if all prefixes agree |
| RankingMetrics.NdcgBounds | benchmarks/memory/evaluate.py:35-42 | For non-negative grades, k >= 0 and no id twice in the first k places: nDCG@k is in [0,1] |
| RankingMetrics.NdcgIsOneIff | benchmarks/memory/evaluate.py:35-42 | Then it is 1 if and only if each of the first k positions holds the grade of the ideal order and something was to be found (or nothing was to be found and nothing was returned) |
| RankingMetrics.PerfectRanking | benchmarks/memory/evaluate.py:35-42 | All relevant ids first, in non-increasing grade, scores exactly 1 |
| RankingMetrics.BoundedIff | benchmarks/memory/evaluate.py:26-42 | For every ranking and every k: no labels push nDCG above 1 if and only if the first k places hold no id twice or, for a negative k, at most one place is left |
| RankingMetrics.NdcgBoundedIff | benchmarks/memory/evaluate.py:38-42 | The upper bound holds for every duplicate-free ranking if and only if k >= 0 |
| RankingMetrics.UnboundedExceeds | benchmarks/memory/evaluate.py:26-42 | Labels with which a ranking outside that condition scores above 1, for every such ranking and k |
| Deadman.Relay.OnCommand | scripts/simforge/gazebo_guarded_base_node.py:77-95 | The new state and log after a command, accepted or not finite |
| Deadman.Relay.CheckDeadman | scripts/simforge/gazebo_guarded_base_node.py:97-103 | The new state after a timer callback |
| Deadman.Relay.PublishStop | scripts/simforge/gazebo_guarded_base_node.py:105-118 | A stop publishes zero, clears the flag, and is logged unless it is an idle shutdown |
| Deadman.Relay.SafeShutdown | scripts/simforge/gazebo_guarded_base_node.py:120-124 | Three zero messages and a cleared flag |
| Deadman.Spin | scripts/simforge/gazebo_guarded_base_node.py:126-129 | One relay driven through any list of callbacks ends in the state that the theorems below are about |
| Deadman.OutputIs | scripts/simforge/gazebo_guarded_base_node.py:77-118 | The whole output is the accepted commands, in order and unchanged, with a zero message for every stop; the log has a line for each stop with its reason, and linear.x and angular.z of each command that does not only renew a standing one |
| Deadman.LastMessageIs | scripts/simforge/gazebo_guarded_base_node.py:77-118 | After the last command the last message is that command as it came, or zero if it was not accepted or a timer has found it expired |
| Deadman.ActivitySinceCommand | scripts/simforge/gazebo_guarded_base_node.py:77-118 | Motion is active exactly while the last command is an accepted moving one that no timer has found expired |
| Deadman.TimerStopsIff | scripts/simforge/gazebo_guarded_base_node.py:97-103 | A timer stops the base if and only if it is the first to come at least one timeout after the last command, and that command moves |
| Deadman.NoStopWhileFresh | scripts/simforge/gazebo_guarded_base_node.py:77-103 | No timeout stop while accepted commands keep arriving less than a timeout apart |
| Deadman.StopLatency | scripts/simforge/gazebo_guarded_base_node.py:65-118 | With timers at most min(0.05, T/4) apart, the output is still from a callback at or before t + T + P <= t + 1.25*T on, and stays so |
| Deadman.TimeoutAloneIsTooShort | scripts/simforge/gazebo_guarded_base_node.py:4-6 | A run with regular timers whose command still stands one timeout later |
| Deadman.WithinTimeoutIff | scripts/simforge/gazebo_guarded_base_node.py:97-103 | The output is still within the timeout after the last command if and only if a timer falls exactly on its end |
| Deadman.FlagFollowsOutput | scripts/simforge/gazebo_guarded_base_node.py:77-118 | The flag holds exactly when the last published message is nonzero by the code's own test |
| Deadman.FlagIsMotionIff | scripts/simforge/gazebo_guarded_base_node.py:77-118 | The flag says at every point whether the output moves, if and only if no forwarded message hides a NaN |
| Deadman.ReplayIff | scripts/simforge/gazebo_guarded_base_node.py:87-118 | Replaying the log gives the flag at every point, if and only if every logged command that moves does so in a logged component |
| DeadmanThreads.MovingIsFlagged | scripts/simforge/gazebo_guarded_base_node.py:77-124 | Under every interleaving of the locked sections a moving output is flagged |
| DeadmanThreads.OutputIs | scripts/simforge/gazebo_guarded_base_node.py:77-124 | Under every interleaving the output is the commands in the order of their sections, unchanged, with a zero for every stop |
| DeadmanThreads.FlagExactIff | scripts/simforge/gazebo_guarded_base_node.py:82-124 | Under every interleaving flag and output agree at every point if and only if no unlocked zero message comes while a moving command has not been followed by a stop or a still command |
| DeadmanThreads.StopsAreTimelyIff | scripts/simforge/gazebo_guarded_base_node.py:97-108 | Every timeout stop acts on the `_last_fresh` that its check found overdue if and only if no command comes between a check and its stop |
| DeadmanThreads.SpinNeverOverlaps | scripts/simforge/gazebo_guarded_base_node.py:126-132 | With one callback at a time and the shutdown last, no stop is late and the flag is exact throughout |
| DeadmanThreads.StaleStop | scripts/simforge/gazebo_guarded_base_node.py:97-108 | A schedule of overlapping callbacks in which the check of an old command stops a new one |
| DeadmanThreads.UnlockedZeroSplits | scripts/simforge/gazebo_guarded_base_node.py:120-124 | A schedule in which a command comes between the locked stop and the unlocked messages of a shutdown, and the output is still with the flag set |
| QueryBench.ValidateQuery | benchmarks/memory/generate_dataset_v3.py:283-304 | One query is accepted if and only if it is consistent with the corpus |
| QueryBench.ValidateQueries | benchmarks/memory/generate_dataset_v3.py:275-304 | A benchmark is accepted if and only if corpus and query ids are unique and every query is consistent |
| QueryBench.ValidateBenchmarkShape | benchmarks/memory/generate_dataset_v3.py:307-315 | Accepted if and only if each lane has exactly its declared number of queries and there is no other lane |
| QueryGeneratorProofs.EveryPattern | benchmarks/memory/generate_dataset_v3.py:195-210 | All 45 error queries find a row if and only if each of the five patterns does |
| QueryGeneratorProofs.CausalSound | benchmarks/memory/generate_dataset_v3.py:218-243 | Queries of the causal lane are consistent: forbidden rows share the symptom, differ in cause and are never labelled |
| QueryGeneratorProofs.HardSound | benchmarks/memory/generate_dataset_v3.py:246-267 | Queries of the hard-negative lane are consistent: one to five forbidden rows, all on the other body |
| QueryGeneratorProofs.LanesSucceedIff | benchmarks/memory/generate_dataset_v3.py:145-267 | On a shuffled list, all lanes succeed if and only if there are 105 CJK and 45 other structured rows, a match for each pattern, 30 causal rows and 30 hard-negative sources; the mixed lane's need is implied |
| QueryGeneratorProofs.LanesAreValid | benchmarks/memory/generate_dataset_v3.py:268-272 | With unique ids whatever the lanes produce is 300 queries that pass both validators |
| QueryGeneratorProofs.BuildSucceedsIff | benchmarks/memory/generate_dataset_v3.py:106-272 | For every shuffle `build_queries` succeeds if and only if the ids are unique and the corpus suffices, and then the result is consistent and has the declared shape |
| QueryContents.Contents | benchmarks/memory/generate_dataset_v3.py:145-267 | The 300 queries place by place: which row of the shuffle each is about (CJK rows 0-59, other rows 0-44, CJK rows 60-104, structured rows 105-149, each pattern's rows in turn, causal rows 0-29, the first 30 rows with a mirror), exactly which rows it labels, 3 for its source and 2 for the others, and which rows it forbids |
| QueryContents.LanesKeepLanguage | benchmarks/memory/generate_dataset_v3.py:152-183 | Queries of kind cjk_to_cjk and en_to_cjk are about rows with CJK documents, queries of kind cjk_to_en about rows without |
| QueryContents.CausalRows | benchmarks/memory/generate_dataset_v3.py:218-228 | The causal rows are the structured rows with a cause for which another row has the same symptom and another cause |
| QueryBuilder.Builder.Add | benchmarks/memory/generate_dataset_v3.py:120-143 | One more query, numbered on, or the error that leaves the list as it was |
| QueryBuilder.Builder.AddRows | benchmarks/memory/generate_dataset_v3.py:112-118 | A lane adds one query for each of its first rows, or reports too few or an unusable row |
| QueryBuilder.Builder.AddErrorQueries | benchmarks/memory/generate_dataset_v3.py:202-215 | The error lane takes the five patterns in turn |
| QueryBuilder.TwoCauses | benchmarks/memory/generate_dataset_v3.py:219-228 | A group of at least two causes is a group in which another row has another cause |
| QueryBuilder.SelectCausal | benchmarks/memory/generate_dataset_v3.py:218-228 | One pass that groups causes and one that filters select exactly the rows with such another row |
| QueryBuilder.SelectHardNegatives | benchmarks/memory/generate_dataset_v3.py:246-258 | The rows with their forbidden rows on the other body, in order |
| QueryBuilder.BuildQueries | benchmarks/memory/generate_dataset_v3.py:106-272 | The whole generator, lane by lane, is the function that the theorems are about |
| JourneyVerifier.CheckTxn | scripts/ci/verify_journey_evidence.py:72-127 | The failures of one transaction, in the order of the checks |
| JourneyVerifier.CursorCompletesIff | scripts/ci/verify_journey_evidence.py:142-146 | The greedy scan completes if and only if the expected events are a subsequence of the chain |
| JourneyVerifier.ScanChain | scripts/ci/verify_journey_evidence.py:142-146 | The loop that moves the cursor, and when it completes |
| JourneyVerifier.TxnPassesIff | scripts/ci/verify_journey_evidence.py:72-127 | A transaction passes if and only if it is DECLINED with a denied approval and no consumed grant, or COMPLETED with an approved approval of the same display hash, a grant bound to that approval, consumed once and unrevoked, and a first-matching honest receipt of its action |
| JourneyVerifier.PassIffSound | scripts/ci/verify_journey_evidence.py:31-177 | PASS if and only if the evidence is sound, stated without reference to how it is scanned |
| JourneyVerifier.ReportedIff | scripts/ci/verify_journey_evidence.py:31-177 | Each kind of failure is reported, with the id or count it names, if and only if that is what is wrong |
| JourneyVerifier.Verify | scripts/ci/verify_journey_evidence.py:31-177 | The failures of all loops in order; none exactly for sound evidence |
| JourneyVerifier.OutcomesShareNothing | scripts/ci/verify_journey_evidence.py:72-127 | Under PASS a COMPLETED and a DECLINED transaction never share an approval or a grant |
| JourneyVerifier.SharedRecordsAgree | scripts/ci/verify_journey_evidence.py:84-117 | Under PASS completed transactions on one grant have one approval, and those on one receipt one action |
| JourneyVerifier.SharedGrantPasses | scripts/ci/verify_journey_evidence.py:94-102 | Evidence of two completed transactions on one grant that passes |
| JourneyVerifier.RepeatedTxnPasses | scripts/ci/verify_journey_evidence.py:94-102 | Repeating any transaction under a new, non-empty id never changes the verdict |
| NativeStore.ScoreMeans | benchmarks/memory/regime/fake_native_stack.py:143-157 | A score is in [0,1], and positive if and only if query and document share a word of two characters or a bigram |
| NativeStore.ScoreIsBetterShare | benchmarks/memory/regime/fake_native_stack.py:143-157 | The score is the better of two shares: of the query's words of two characters that occur in the document, and of its bigrams that the document has |
| NativeStore.ContainedScoresOne | benchmarks/memory/regime/fake_native_stack.py:143-157 | A document that contains the whole query, of at least two visible characters, scores exactly 1 |
| NativeStore.OneCharacterQuery | benchmarks/memory/regime/fake_native_stack.py:136-157 | A query of one visible character scores above 0 only on a document that is that character |
| NativeStore.LongerDocumentMissed | benchmarks/memory/regime/fake_native_stack.py:136-157 | Every document of more visible characters that contains such a query scores 0 |
| NativeStore.HitsAreEligible | benchmarks/memory/regime/fake_native_stack.py:170-179 | The results before the limit are exactly the matching rows of positive score, each as often as stored, in order of score and id |
| NativeStore.HitsRanked | benchmarks/memory/regime/fake_native_stack.py:176 | Of two results the earlier has the higher score, or the same score and the smaller id |
| NativeStore.NothingBetterOmitted | benchmarks/memory/regime/fake_native_stack.py:176-179 | No eligible row that is left out outranks a returned one, and none is left out below the limit; a smaller limit is a prefix |
| NativeStore.OrderFreeIff | benchmarks/memory/regime/fake_native_stack.py:159-179 | The results are the same for every order of the stored rows if and only if no two different eligible rows tie in score and id |
| NativeStore.UniqueIdsAreCanonical | benchmarks/memory/regime/fake_native_stack.py:159-179 | With unique ids the search is the same for every order of the stored rows, filter and limit |
| StressShards.StressGroups | scripts/simforge/contact_push_mjwarp_worker.py:229-274 | Non-empty groups of at most the group size, each of one body, that together are the scenarios offset .. offset+total-1 in order, each with its own draws |
| StressShards.ScenarioDraws | scripts/simforge/contact_push_mjwarp_worker.py:243-268 | Where the draws of a scenario come from: the first three of its group's stream for the body, its own three for target, delay and noise |
| StressShards.RecordWorlds | scripts/simforge/contact_push_mjwarp_worker.py:83-170 | One record a scenario, in order, numbered by its position, with its disagreement judged |
| StressShards.WarpStatusMeans | scripts/simforge/contact_push_mjwarp_worker.py:346-353 | The label of a world in terms of where the object came to rest |
| StressShards.RunWorker | scripts/simforge/contact_push_mjwarp_worker.py:70-226 | Every record's world_index is its scenario's index, and the exit code is 0 if and only if states are finite and every world is tolerable |
| StressShards.FourShardsCover | scripts/simforge/run_contact_push_four_gpu.py:61-81 | With the launcher's offsets the four shards are the worlds 0 .. 4W-1, once each and in order |
| StressShards.Launch | scripts/simforge/run_contact_push_four_gpu.py:94-149 | Complete if and only if each of the four workers delivered a valid shard in time, and then there is no failure |
| StressShards.RunProcess | scripts/simforge/contact_push_mjwarp_worker.py:70-226 | The file that an uninterrupted worker leaves holds the indices of its shard, and is accepted when every world is tolerable and no commitment repeats |
| StressShards.CompleteCovers | scripts/simforge/run_contact_push_four_gpu.py:61-149 | End to end: if every worker that succeeds wrote the shard it was launched for, a complete run has simulated the worlds 0 .. 4W-1, once each and in order |
| StressShards.CoversIff | scripts/simforge/run_contact_push_four_gpu.py:61-81 | Shards of W worlds each hold 0 .. nW-1 in order, once each, if and only if each holds its own range |
| StressShards.EachWorldOnceIff | scripts/simforge/run_contact_push_four_gpu.py:61-81 | Shards that each hold a contiguous range of W worlds hold 0 .. nW-1 once each, in whatever order, if and only if their offsets are 0, W, 2W, ... in some order |
| StressShards.CompleteCanMissWorlds | scripts/simforge/run_contact_push_four_gpu.py:138-149 | For all devices, W >= 1 and candidates there is a complete run without any world from W on |
| ScaleCurve.RunScale | scripts/simforge/run_scale_curve.py:134-257 | Complete if and only if every requested device was launched and delivered its own range in time, and then the shards are one a device in order |
| ScaleCurve.DeliveredShards | scripts/simforge/run_scale_curve.py:199-228 | Shards of a complete scale have the requested device, size and offset, positive throughput and no disagreement |
| ScaleCurve.AcceptedIffInOrder | scripts/simforge/run_scale_curve.py:22-103 | A shard is accepted if and only if all its fields are in order, and a refusal names a group that is not |
| ScaleCurve.ThroughputAdds | scripts/simforge/run_scale_curve.py:253 | Throughputs add up over shards |
| ScaleCurve.EveryWorldOnce | scripts/simforge/run_scale_curve.py:153-174 | The ranges of a complete scale are disjoint and cover all its worlds |
| ScaleCurve.MeasureCurve | scripts/simforge/run_scale_curve.py:302-331 | target_met if and only if the run is fault-free, complete, of 1000 worlds and four devices reach 2.5 times the throughput of one; a run with an injected fault never meets it |
| ScaleCurve.WriteAll | scripts/simforge/run_scale_curve.py:410-415 | Whatever parts the system writes, the file is a prefix of the report, and the whole of it exactly when no error is raised |
| ReplayMemory.WeightsAreDistribution | experiments/maniskill_fullstack_benchmark.py:127-131 | Weights are positive, sum to 1 and preserve the order of the rewards |
| ReplayMemory.WeightIs | experiments/maniskill_fullstack_benchmark.py:127-131 | A weight is the reward's lead over the lowest one plus 0.01, as a share of all leads |
| ReplayMemory.PickIff | experiments/maniskill_fullstack_benchmark.py:131-132 | A uniform draw selects an index exactly from an interval as long as its weight |
| ReplayMemory.Policy.Predict | experiments/maniskill_fullstack_benchmark.py:135-158 | The action is in the action space, exactly one of the two counters goes up, and the inner exploration branch is dead |
| ReplayMemory.PredictedMeans | experiments/maniskill_fullstack_benchmark.py:143-158 | Each component is the base action, moved by `blend` towards the remembered one on a replay, times the scale, and clipped to the nearer bound |
| ReplayMemory.Policy.Update | experiments/maniskill_fullstack_benchmark.py:160-172 | After any sequence of updates the two lists are the last 1000 accepted pairs, and the accept counter counts all of them |
| ReplayMemory.AcceptedIff | experiments/maniskill_fullstack_benchmark.py:111-113 | An entry is accepted if and only if its reward is at least the threshold |
| ReplayMemory.Policy.AnalyzeRound | experiments/maniskill_fullstack_benchmark.py:180-213 | The new ratio, kept in [0, 0.5] over any run that starts there, and a cleared list of recent rewards |
| ReplayMemory.RatioMoves | experiments/maniskill_fullstack_benchmark.py:191-210 | When the ratio rises and falls after a round, and by how much |
| ReplayMemory.RunEpisode | experiments/maniskill_fullstack_benchmark.py:291-316 | Each prediction is followed by one update with the action taken, so memory_replays + random_explores counts both |
| SerialGuardian.MappedIsConfirmed | examples/rh56_rps/scripts/serial_guardian.py:222-241 | What is mapped comes from a port that opened and answered with the slave's own id |
| SerialGuardian.QuietDiscovery | examples/rh56_rps/scripts/serial_guardian.py:222-241 | Without exceptions each slave is mapped to the first port that confirms it, and only such slaves are |
| SerialGuardian.DiscoverHands | examples/rh56_rps/scripts/serial_guardian.py:204-251 | Whatever the ports answer: mapping and handles agree key by key, a port is left open if and only if a slave is mapped to it or closing it failed, and every port that opens is opened once |
| SerialGuardian.OpenedOnce | examples/rh56_rps/scripts/serial_guardian.py:222-225 | No port is opened twice |
| SerialGuardian.Guardian.Start | examples/rh56_rps/scripts/serial_guardian.py:68-83 | A guardian with a handle opens nothing; one without opens its own port |
| SerialGuardian.Guardian.Stop | examples/rh56_rps/scripts/serial_guardian.py:85-94 | Stopping closes the handle unless another guardian has, or closing fails |
| SerialGuardian.Serve | examples/rh56_rps/scripts/serial_guardian.py:254-305 | From start to shutdown no port is opened but in discovery, and at the end only ports that could not be closed are open |

## Left out

- Floating point: arithmetic is over reals, so rounding is not modelled; NaN and infinities are modelled only in the messages of the deadman.
- log2 is any function that is positive from 2 on and strictly increasing; case folding, whitespace classes, regular expressions, hashes and random streams are parameters.
- Serial lines, Modbus frames, ROS, GPUs, simulators, subprocesses, files and clocks: parameters with arbitrary results.
- The gateway, permit manager, arming controller and step executor: a command is answered, or raises, as a parameter says; permit expiry and the insides of these classes are not part of this model.
- Of the sandbox preflight the range, safe-range and step-delta checks are modelled; its reason text and latency are not.
- exp3: `emergency_stop`, the recorder, tracing and the report files, and the force limit, speed and settle arguments that are only passed on. An empty list of converging channels, on which the code raises, is excluded.
- Observations in receipts carry whole poses or none; malformed ones are not modelled.
- Promotion.PromotionReport: does not model the effect size, the paired bootstrap, the invalid rates and the session lists of the report; they are random sampling or library statistics with no exact property.
- The mixed-effects model.
- `recall_at_k`, `reciprocal_rank`, `precision_at_k`, `percentile` and the leakage and staleness rates: each says no more than its one-line body.
- The text of generated queries, which no validator reads; the rng only as an arbitrary shuffle.
- JourneyVerifier.Verify: does not model JSON Schema validation itself; its outcome is a parameter, and fields that the schema types have that type. Grant ids are taken to be strings, which the schema does not demand.
- Failure messages of the verifiers: modelled as constructors with the ids they name, without text.
- NativeStore: the registry rows, `query`, and the copying of returned rows (a caller that changes a result does not change the store).
- ReplayMemory: blending is modelled component by component over reals; `record_episode`, `get_stats` and the baselines would add only easy members, and copying of arrays is not visible on values.
- SerialGuardian: socket service, request framing and the Modbus frame parser; a handle is known by the port it was opened on, since no port is opened twice.
- StressShards and ScaleCurve: exceptions while a process is being launched, the clean-up of processes, signing, and the fields of a shard that only feed the report; the field checks behind one rejection reason are one Boolean each.
- Simple threshold gates, command-line parsing, terminal and browser interfaces, latency benchmarks and release signing.
