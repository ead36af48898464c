# Verified model of the authentication and invitation core

This project models the stateful core of the gatehouse service and proves what its steps keep,
over every input and every run. Each module follows one source file or one part of it.

**Rollout evidence.** A telemetry producer counts events between two flushes, cuts time into
intervals with two clocks it does not trust, and hands snapshots to a sink through one place in
flight and one behind it. `Aggregates`, `LatencyHistogram`, `GapMarks`, `ClockChain` and
`FlushSums` are its parts, `TelemetryModel` the whole as a state machine, `Telemetry` the code
step by step, `TelemetryTheorems` what its snapshots are worth. A judge (`RolloutEvaluator`, over
the records of `RolloutContract`, which `RolloutAdmission` checks loop by loop) sorts and sweeps
the snapshots of all instances and answers pass, fail or inconclusive. `RolloutVerdict`,
`RolloutPass` and `RolloutFindings` say what the answers mean, finding by finding,
`EvidencePipeline` and `EvidenceVerdicts` what holds of producer and judge together, and
`AlertRouting` models the alert slot beside them.

**Sessions and revocation.** `SessionModel` holds accounts, login handoffs and browser sessions as
rows; `SessionTransactions` the transactions on them; `SessionAccess` when each is accepted and
what it changes; `SessionTheorems`, `SessionExpiry` and `CsrfBinding` what they guarantee;
`SessionStore` the transactions statement by statement. `RecoveryInbox`, `RecoveryClaims`,
`RecoveryBatch` and `RecoveryWorker` add the recovery webhook and the leased worker that revokes.

**Rate limits.** `ReservationLimiter`, `ReservationDecisions`, `ReservationSpans` and `RateLimiter`
model reserved attempts, `CheckLimits` and `CheckAnswers` immediate ones, `DeviceLimiter` and
`DeviceAnswers` the devices' sliding window; `RateLimitPolicy` is shared.

**Deliveries.** `DeliveryLeases` models claims under leases and fencing tokens, `DeliveryClaims` says
which are made and how long they hold, `DeliveryPool` models the workers over a shared cursor.

**Invitations.** `Invitations`, `IdempotentIssuance` and `InvitationStore` model issue, use and
revocation and the idempotency records; `InvitationAccess` says whom the gate lets in and what an
issue is refused for; `CanonicalJson` and `JsonText` model the text requests are recognized by, and
`JsonReader` reads it back.

**Address prefixes.** `ClientIp` and `IpText` model the IPv6 parser, `IpPrefix` and `PrefixText` the
prefixes.

Where the source changes rows or fields, a class or method does, and its contract equates the new
state with a function of the old one; the theorems are about that function. A transaction is one
step; a run is any sequence of steps with fresh identifiers and a clock that does not run
backwards. Every clock reading of a transaction is a parameter of its own, except where Left out
says otherwise. `Sequences` and `OrderedMaps` are helpers.

Where the code does less than one might expect, the model keeps the code's behaviour, gives an
input that shows it, and proves the exact condition:

- With fractional clocks a printed interval can be empty, and the judge then refuses the snapshot
  (`ClockChain.EmptyPrintedInterval`; exactly when: `PrintedLength`, `PrintedLengthTrusted`).
- `touchSession` reads the clock several times, so a session can lapse between the read that
  accepts a use and the UPDATE that should extend it (`SessionExpiry.LapsedBetweenReads`; exactly
  when: `ExtendingUseExact`), and its idle end can lie more than 30 minutes after its last use
  (`UnpunctualTouch`; exactly when: `TouchedPunctual`).
- For actions with backoff a full window refuses the next attempt however long ago it ended, and a
  peek says otherwise (`CheckLimits.FullWindowStillRefuses`; exactly when: `ElapsedAdmits`,
  `PeekForetells`, `PeekForetellsAtOnce`).
- `check` on a bucket of `reserve` would break its bound (`CheckLimits.CheckBreaksFullBucket`;
  exactly when: `CheckBreaksReservations`); the source uses them on different actions.
- After a refused addition the judge's verdict depends on the order of its input
  (`RolloutVerdict.RefusedTotalsDependOnOrder`); exactly when additions are refused:
  `OverflowExact`, and before that nothing depends on order (`OrderIndependence`).
- A saturation mark can leave on a snapshot that was still waiting, so that a later snapshot is
  healthy and reports less than was counted (`TelemetryTheorems.HealthyButCut`); exactly when a
  snapshot is true: `SnapshotExactly`.
- Cleanup can delete a bucket whose reservation has not expired
  (`ReservationLimiter.LateCleanupLoses`), never when its two statements run within 23 hours and
  a millisecond (`PromptCleanup`); exactly when: `CleanupExact`.
- The gate's UPDATE reads the clock for its condition and again for the stamp it sets, so a used
  invitation can be stamped past its end (`InvitationAccess.StampedLate`), by less than the time
  between the two readings and so not at all when they are one (`UsedInTime`).

Four more things are easily expected otherwise. A recovery login that the creation limit then
refuses has always revoked every session (`SessionTheorems.RecoveryRevokes`). A timeout at the
alert sink never frees anything (`AlertRouting.NothingPassesAnUnsettledDelivery`). A place given
back can be taken again, so `reserve` admits any number of attempts at one instant
(`ReservationSpans.AnyNumberAdmitted`), while of those that keep their place a span as long as the
window never holds more than twice the limit (`ReserveBudget`). And the end of a window can fall
between two clock readings of one `check`: such a span can then hold one admission more than two
windows' worth (`CheckLimits.StraddlingAdmitsOneMore`), never two more (`SpanBudget`), and none
unless an attempt straddles the end (`SpanBudgetUnstraddled`) of an action without backoff
(`SpanBudgetWithBackoff`).

## Model

| member | source | states |
|---|---|---|
| `LatencyHistogram.BucketIndex` | src/auth-observability.ts:542-543 | the bucket of a sample: every bound before it is below the sample, every bound from it on is not |
| `LatencyHistogram.Rank` | src/auth-observability.ts:583 | the nearest rank, ceil(0.95 n), in integers |
| `LatencyHistogram.FindRankBucket` | src/auth-observability.ts:584-585 | the scan finds the one bucket that holds the rank, and none exactly when there are fewer samples than the rank |
| `LatencyHistogram.BucketOfRank` | src/auth-observability.ts:568-590 | whatever order samples arrived in, the bucket holding a rank is the bucket of the sample of that rank in sorted order |
| `LatencyHistogram.BucketedTestIsExact` | src/auth-observability.ts:301-312 | the bucketed latency test fires exactly when the p95 of the sorted samples is above 20 ms |
| `LatencyHistogram.SplitInvariance` | src/auth-rollout.ts:320-326 | samples divided in any way over snapshots and instances sum to the histogram of all of them |
| `LatencyHistogram.SplitPercentile` | src/auth-rollout.ts:335-342 | the judge's p95 bucket over any division is the bucket of the ceil(0.95 n)-th smallest of all samples |
| `Aggregates.BoundedDimensions` | src/auth-observability.ts:347-351 | every label set is folded to an admissible one, and callback success and failure survive the folding |
| `Aggregates.BoundedExactly` | src/auth-observability.ts:347-351 | a listed value of the metric's dimension is kept, any other becomes `other`, and an admissible label set is not touched |
| `Aggregates.IncrementExact` | src/auth-observability.ts:520-534 | one increment moves the labelled sum of its outcome by its value and no other |
| `Aggregates.ObserveExact` | src/auth-observability.ts:535-547 | one observation keeps the session buckets, over all label combinations, the histogram of the samples so far |
| `Aggregates.BucketedTest` | src/auth-observability.ts:582-590 | run on an exact histogram of at least 100 samples, the bucketed test is the sample-based test |
| `Aggregates.Ratio` | src/auth-observability.ts:577-581 | the BigInt comparison with 995 per mille is the comparison of the quotient with 0.995 |
| `ClockChain.SafeElapsed` | src/auth-observability.ts:558-560 | whatever the monotonic clock reads, the elapsed time used is positive |
| `ClockChain.IntervalBounds` | src/auth-observability.ts:555-567 | whatever both clocks read, an interval has positive length within the drift bound of the safe monotonic time |
| `ClockChain.ChainDeviation` | src/auth-observability.ts:555-615 | over n flushes the chain of intervals deviates from safe monotonic time by at most n drift bounds, and only moves forward |
| `ClockChain.PrintedLength` | src/auth-observability.ts:564-598 | with the wall clock not believed, the printed interval is empty exactly if less time passed than the current millisecond had left |
| `ClockChain.PrintedLengthTrusted` | src/auth-observability.ts:564-598 | with the wall clock believed, the printed interval is empty exactly if the clock still shows the starting millisecond |
| `ClockChain.WholeMilliseconds` | src/auth-observability.ts:564-598 | with whole-millisecond readings a printed interval is never empty |
| `ClockChain.EmptyPrintedInterval` | src/auth-observability.ts:564-598 | a reading under which an interval of positive length prints as an empty one |
| `Aggregates.RecordedCapped` | src/auth-observability.ts:454-460 | whatever is recorded, the sums stored with bounded additions are the true sums, each cut off at the greatest safe integer |
| `Aggregates.StoredExactly` | src/auth-observability.ts:454-460 | the stored sums are the true sums exactly when each true sum is a safe integer |
| `Aggregates.RecordedTruthful` | src/auth-observability.ts:513-548 | however labels and kinds are mixed, the true callback counts and session buckets over all label sets are those of what was recorded |
| `GapMarks.RestoredExact` | src/auth-observability.ts:461-465 | restoring puts every mark of a snapshot back, code by code, while the marks together are a safe integer |
| `GapMarks.AttachedExact` | src/auth-observability.ts:466-475 | attaching moves every mark of the map onto the snapshot, code by code, while the marks together are a safe integer, and the snapshot is then degraded |
| `FlushSums.FlushedSessions` | src/auth-observability.ts:568-576 | what flush sums over the label sets is the histogram of the samples and their number, each cut off |
| `FlushSums.RaisedExactly` | src/auth-observability.ts:577-590 | the alerts flush raises are those evaluateAuthAggregates raises on the true counts and the raw samples |
| `FlushSums.ReportExactly` | src/auth-observability.ts:591-614 | each part of a snapshot is the true sums exactly when each of these is a safe integer |
| `FlushSums.ReportAdmitted` | src/auth-rollout.ts:162-208 | the judge admits a producer's snapshot exactly when it is numbered, its printed interval is not empty, every metric was recorded as its own kind and no count was cut apart from its buckets |
| `Telemetry.AuthTelemetry.MarkGap` | src/auth-observability.ts:450-453 | one mark more for the code, cut off at the greatest safe integer |
| `Telemetry.AuthTelemetry.AddBounded` | src/auth-observability.ts:454-460 | the sum, or the greatest safe integer and one saturation mark |
| `Telemetry.AuthTelemetry.Increment` | src/auth-observability.ts:519-534 | invalid values change nothing; otherwise the labelled counter and the callback counts grow by the value, with a mark for each sum cut off |
| `Telemetry.AuthTelemetry.Observe` | src/auth-observability.ts:535-547 | invalid samples change nothing; otherwise the sample lands in its bucket and is counted, with a mark for each sum cut off |
| `Telemetry.AuthTelemetry.EmitAlert` | src/auth-observability.ts:514-518 | the alert is counted once more |
| `Telemetry.AuthTelemetry.RestoreSnapshotGaps` | src/auth-observability.ts:461-465 | the map is the snapshot's gaps added to it one by one, see RestoredExact |
| `Telemetry.AuthTelemetry.AttachCurrentGaps` | src/auth-observability.ts:466-475 | the snapshot carries its gaps merged with the live map, which is emptied, see AttachedExact |
| `Telemetry.AuthTelemetry.Dispatch` | src/auth-observability.ts:476-512 | the snapshot is handed over; its marks are settled, in flight, or back in the map with one more for the throw |
| `Telemetry.AuthTelemetry.SinkTimeout` | src/auth-observability.ts:486-491 | an overdue operation is marked once and stays in flight |
| `Telemetry.AuthTelemetry.SinkSettled` | src/auth-observability.ts:493-507 | a settled operation frees the slot, a rejected one gives back its marks and adds one, and the waiting snapshot takes the slot with every mark made meanwhile |
| `Telemetry.AuthTelemetry.AdvanceClocks` | src/auth-observability.ts:556-567 | the end of the interval and the marks for anomalous and drifting clocks |
| `Telemetry.AuthTelemetry.SumSessions` | src/auth-observability.ts:568-576 | the session buckets over all label sets and their total, with a mark for each addition cut off |
| `Telemetry.AuthTelemetry.RaiseSlos` | src/auth-observability.ts:577-590 | the two service level tests, on the stored counts |
| `Telemetry.AuthTelemetry.Flush` | src/auth-observability.ts:555-632 | one interval as the state machine has it: clocks, tests, snapshot, everything cleared, and the snapshot handed over, waiting or dropped |
| `TelemetryModel.RunKeeps` | src/auth-observability.ts:449-634 | over every run of recordings, timeouts, settlements and flushes, whatever clocks and sink do: stored sums are true sums cut off, no mark is lost, every snapshot is handed over in turn, waiting or dropped, and each is what its interval held but for the gaps attached while it waited |
| `TelemetryTheorems.SnapshotExactly` | src/auth-observability.ts:555-614 | a flushed snapshot's counters, histograms, alerts and critical count are the true ones exactly when these are safe integers |
| `TelemetryTheorems.AlertsExactly` | src/auth-observability.ts:577-590 | the service level alerts are those of the raw samples and true counts |
| `TelemetryTheorems.HealthyIsExact` | src/auth-observability.ts:454-475 | a healthy snapshot is exact as long as no marks left on a waiting snapshot since the last flush |
| `TelemetryTheorems.HealthyButCut` | src/auth-observability.ts:493-507 | five steps after which a snapshot is healthy and reports less than was counted |
| `TelemetryTheorems.SnapshotGaps` | src/auth-observability.ts:555-595 | code by code, a snapshot carries the map's gaps, the clock marks, and a saturation mark for each sum that flush cut off |
| `TelemetryTheorems.SnapshotAdmitted` | src/auth-rollout.ts:162-208 | the judge admits a flushed snapshot if nothing was cut off or recorded as the wrong kind and its interval does not print as empty |
| `TelemetryTheorems.RunMarks` | src/auth-observability.ts:449-634 | over every run each overdue, rejected, thrown or dropped snapshot and each clock anomaly or drift makes exactly one mark, and nothing else does |
| `TelemetryTheorems.RunDrops` | src/auth-observability.ts:620-628 | over every run the backpressure marks are as many as the snapshots dropped, but for those reported from outside |
| `TelemetryTheorems.RunClocks` | src/auth-observability.ts:555-615 | over a whole run the interval chain moves by the flushes' clock readings alone, so that its drift is bounded |
| `AlertRouting.RunKeeps` | src/auth-observability.ts:133-246 | over every run each emitted alert is handed over in order, waiting or refused, refusals are reported once each, and every alert handed over is in flight, acknowledged or reported once |
| `AlertRouting.NothingPassesAnUnsettledDelivery` | src/auth-observability.ts:208-244 | a timeout frees nothing: until the delivery in flight settles no other is handed over, one waits and all later ones are refused |
| `AlertRouting.AlertSlot.Emit` | src/auth-observability.ts:237-244 | an emitted alert takes the slot, the waiting place, or is refused with a gap |
| `AlertRouting.AlertSlot.TimedOut` | src/auth-observability.ts:208-214 | an overdue delivery is reported once and keeps the slot |
| `AlertRouting.AlertSlot.Settled` | src/auth-observability.ts:216-232 | a settled delivery frees the slot for the waiting alert, with a gap unless it was acknowledged |
| `RolloutEvaluator.Admit` | src/auth-rollout.ts:220-233 | the admitted snapshots of the inventory's stage, and the findings about the rest |
| `RolloutAdmission.AdmitSnapshot` | src/auth-rollout.ts:162-208 | a snapshot is admitted exactly when it is one of the contract: safe numbers, a positive interval, the listed dimensions and values of every metric, buckets that add up to the count, critical alerts that add up to the critical count, gaps exactly when degraded |
| `RolloutAdmission.AdmitInventory` | src/auth-rollout.ts:137-160 | an inventory is admitted exactly when it lists between one and a thousand lifecycles, each instance once, of positive length and with a cadence of a second to a day |
| `RolloutAdmission.FitsExactly` | src/auth-rollout.ts:130-135 | as many dimensions as the table has, each there with a listed value, is exactly the table's dimensions |
| `RolloutEvaluator.CheckContinuity` | src/auth-rollout.ts:244-251 | each instance's list sorted, and the findings about neighbours of every list |
| `RolloutEvaluator.CheckIntervals` | src/auth-rollout.ts:235-274 | the findings about chains and expected lifecycles, whatever order the instances are walked in |
| `RolloutEvaluator.SweepCoverage` | src/auth-rollout.ts:276-295 | the swept window and the findings about gaps and length |
| `RolloutEvaluator.Tally` | src/auth-rollout.ts:297-327 | the accumulators after all additions in order, each refusing those that leave the safe integers |
| `RolloutEvaluator.Evaluate` | src/auth-rollout.ts:215-375 | the whole report, from any input |
| `RolloutVerdict.AccumulateExact` | src/auth-rollout.ts:210-213 | an accumulator refuses an addition exactly when the true sum leaves the safe integers, and else holds the true sum |
| `RolloutVerdict.OverflowExact` | src/auth-rollout.ts:297-330 | the overflow finding says exactly that some true sum is not representable; without it the totals are the true sums |
| `RolloutVerdict.OrderIndependence` | src/auth-rollout.ts:215-375 | permuting the input changes nothing in the report, unless it reports numeric_overflow |
| `RolloutVerdict.RefusedTotalsDependOnOrder` | src/auth-rollout.ts:210-375 | after a refused addition the order does matter: two snapshots whose reversal turns an inconclusive report into a failed one |
| `RolloutPass.InstanceClean` | src/auth-rollout.ts:244-273 | nothing is found about an instance exactly when its intervals tile its expected lifecycle: no gap, no overlap, consecutive numbers, no interval above the cadence |
| `RolloutPass.TileCovers` | src/auth-rollout.ts:258-273 | every instant of a tiled lifecycle lies inside one of its intervals |
| `RolloutPass.CoverageExact` | src/auth-rollout.ts:276-295 | the window sweep finds nothing exactly when the windows together are one window of at least 24 hours |
| `RolloutPass.P95Exact` | src/auth-rollout.ts:334-342 | the reported p95 is within the objective exactly when 95% of the samples are |
| `RolloutPass.PassIffEvidence` | src/auth-rollout.ts:343-358 | the verdict is `pass` exactly on complete evidence: every input admitted, every instance tiled, one window of 24 hours, no degraded snapshot or unexpected label, and the service levels met by the true sums |
| `RolloutPass.PassCoversEveryInstant` | src/auth-rollout.ts:276-358 | after a `pass`, every instant of the reported window lies inside an admitted snapshot of an expected instance |
| `RolloutPass.MissingSequenceIsReported` | src/auth-rollout.ts:244-251 | a number missing between two delivered snapshots of an instance is always found |
| `RolloutFindings.VerdictExactly` | src/auth-rollout.ts:343-358 | the verdict is `fail` exactly when there is a critical incident, at least 100 callbacks of which fewer than 995 in a thousand succeeded, or at least 100 samples whose p95 bucket is above 20 ms; it is `inconclusive` exactly when none of these holds and something else was found |
| `RolloutFindings.FindingsExactly` | src/auth-rollout.ts:215-358 | a finding is reported exactly when it is true of the evidence, or was brought along: overlaps of any two snapshots, skipped numbers, gaps, strayed, slow or unwitnessed lifecycles, interrupted or short windows, degraded snapshots, unexpected labels, thin volumes and missed levels |
| `RolloutFindings.ContinuityMeans` | src/auth-rollout.ts:235-256 | the neighbour tests find an overlap exactly when any two snapshots of an instance share an instant, or one was delivered twice |
| `RolloutFindings.JudgedExactly` | src/auth-rollout.ts:220-233 | the judged snapshots are the admitted ones of the inventory's stage, each as often as it was given |
| `RolloutFindings.TotalsExactly` | src/auth-rollout.ts:297-330 | the reported stage is the inventory's, and the totals are the true sums as long as these are safe integers |
| `RolloutFindings.WindowExactly` | src/auth-rollout.ts:276-295 | the reported window reaches from the earliest start to the latest end, of the lifecycles when there is an inventory and else of the snapshots |
| `RolloutFindings.RatioExactly` | src/auth-rollout.ts:365-370 | the callback ratio is the quotient in millionths, rounded down, and absent exactly without callbacks |
| `EvidencePipeline.ReportSummarizes` | src/auth-observability.ts:595-614 | a flushed snapshot, whatever gaps were attached later, carries the histogram of the interval's samples and its callback counts while these are safe numbers |
| `EvidencePipeline.JudgedPercentile` | src/auth-rollout.ts:320-349 | the judge finds a p95 above 20 ms exactly when the sorted p95 of all producers' samples together is above 20 ms |
| `EvidencePipeline.PercentileOfRuns` | src/auth-rollout.ts:320-349 | over any runs of any producers: the judge finds a p95 above 20 ms exactly when the sorted p95 of the samples behind the snapshots that reached it is above 20 ms |
| `EvidencePipeline.CallbacksOfRuns` | src/auth-rollout.ts:297-349 | over the same runs: the judge finds the callback ratio below 99.5 per cent exactly when at least 100 callbacks lie behind the snapshots that reached it and fewer of them succeeded |
| `EvidencePipeline.CriticalOfRuns` | src/auth-rollout.ts:297-349 | over the same runs, however large the counts: the judge finds a critical incident exactly when a critical alert was raised in an interval whose snapshot reached it |
| `EvidenceVerdicts.CriticalFails` | src/auth-rollout.ts:297-358 | a judged interval with a critical alert is never answered by anything but `fail`, whatever else was found |
| `EvidenceVerdicts.FailOfRuns` | src/auth-rollout.ts:297-358 | over any runs of any producers the verdict is `fail` exactly when a judged interval had a critical alert, or the callbacks behind the judged snapshots fell short, or the sorted p95 of their samples is above 20 ms |
| `EvidencePipeline.DeliveredChainPasses` | src/auth-observability.ts:596-615 | when a producer dropped nothing and everything handed to its sink arrives, in any order, the judge finds nothing wrong with its chain |
| `EvidencePipeline.DroppedIsReported` | src/auth-observability.ts:622-628 | a snapshot dropped under backpressure between two that arrived makes the judge report an invalid sequence |
| `SessionTheorems.ExchangeKeeps` | src/sessions.ts:692-986 | exchanging a login keeps the invariants of accounts, handoffs, families and bumps |
| `SessionTheorems.RotateKeeps` | src/sessions.ts:1137-1253 | so does a rotation |
| `SessionTheorems.UseKeeps` | src/sessions.ts:988-1135 | so does a use, with or without re-encryption |
| `SessionTheorems.RunKeeps` | src/sessions.ts:692-1332 | over every run: an unrevoked session carries its account's version, a family has one account, end and secret and at most one unrevoked session, an idle end is never past the absolute end |
| `SessionTheorems.RunExtends` | src/sessions.ts:692-1332 | over every run no row is lost, a family's end and CSRF secret never change, key versions, last uses and idle ends never go back and a revoked session never changes again |
| `SessionTheorems.UnidleForLong` | src/sessions.ts:575-591 | in no later state is a session refused as idle within 25 minutes of an accepted use that extended it |
| `SessionTheorems.RevokedForGood` | src/sessions.ts:758-767 | once an account's version was raised, every later unrevoked session of it descends from a login begun after that, the recovery login that raised it excepted |
| `SessionTheorems.BumpIsRecorded` | src/sessions.ts:1289-1332 | logging out everywhere, a status change and an acknowledged provider event raise the version and leave no session of the account unrevoked |
| `SessionTheorems.RecoveryRevokes` | src/sessions.ts:900-929 | a recovery login revokes every older session of the account even when its own new session is then refused by the creation limit |
| `SessionTheorems.ExchangedOnce` | src/sessions.ts:706-717 | a login is exchanged at most once, whatever happens in between |
| `SessionTheorems.FreshAnswers` | src/sessions.ts:758-767 | a login that passes the staleness check was begun after every bump of its account |
| `SessionAccess.ReasonExactly` | src/sessions.ts:528-543 | a session is usable exactly when it is unrevoked, before both its ends, of an active account and its current version, and in a live scope; otherwise the reason given is the first that holds |
| `SessionAccess.UseExactly` | src/sessions.ts:988-1079 | a use is accepted exactly for a session in force, within the roll-out and with enough assurance; inspect also needs the row's CSRF secret |
| `SessionAccess.UseEffect` | src/sessions.ts:1072-1091 | an accepted use changes its own row alone, and of that only the last use and idle end, when five minutes have passed, and an outdated seal |
| `SessionAccess.RotationExactly` | src/sessions.ts:1137-1205 | when a rotation goes through, when it is stale, and when it has to authenticate again; every other is denied |
| `SessionAccess.RotationEffect` | src/sessions.ts:1207-1235 | a rotated session is revoked and continued by one row with the same ends, secret and login, sealed under the newest key |
| `SessionAccess.ExchangeExactly` | src/sessions.ts:692-985 | a login becomes a session exactly when it is unused, unexpired, begun after its account's last bump, and every check of its kind holds; a reauthentication needs a session in force of its own account and family |
| `SessionAccess.LoginUsedUp` | src/sessions.ts:702-727 | a login found unused and in time is used up by every outcome but an abort, and no other is |
| `SessionAccess.ContinueEffect` | src/sessions.ts:821-886 | a reauthentication replaces the one session it names, within its family and to its ends |
| `SessionAccess.OpenEffect` | src/sessions.ts:887-985 | a login opens a family of its own for 30 idle minutes and 12 hours, and closes the family it was presented with |
| `SessionAccess.RecoveryEffect` | src/sessions.ts:900-985 | a recovery login raises the version and revokes the account's sessions, and opens a family only under the creation limit |
| `SessionAccess.LogoutEffect` | src/sessions.ts:1255-1287 | a logout leaves no session of the family unrevoked and touches no other |
| `SessionAccess.EverywhereExactly` | src/sessions.ts:1289-1308 | logging out everywhere takes a session in force, or an already revoked one, that authenticated within the last ten minutes |
| `SessionAccess.EverywhereEffect` | src/sessions.ts:1309-1332 | the version rises and exactly the account's unrevoked sessions are revoked, or nothing changes |
| `SessionAccess.AdministrationEffect` | src/human-administration.ts:319-335 | a status change does the same with the new status, except for a disabled account |
| `SessionAccess.DeniedForGood` | src/sessions.ts:528-543 | over every run: once a session is revoked or past its idle or absolute end, no later use, rotation, reauthentication or logging out everywhere accepts it, except that an already revoked one may still log out everywhere |
| `SessionAccess.LoggedOutForGood` | src/sessions.ts:1255-1287 | over every run: a family whose sessions are all revoked never has an unrevoked one again |
| `SessionExpiry.TouchedPunctual` | src/sessions.ts:575-591 | the row's idle end is 30 minutes after its last use exactly when the two clock readings agree or the absolute end comes first |
| `SessionExpiry.ExtendingUse` | src/sessions.ts:575-591 | a use that extends keeps the session un-idle for 25 minutes, or to its absolute end |
| `SessionExpiry.ExtendingUseExact` | src/sessions.ts:575-591 | exactly when a use of any stored row has that effect: it is recently used with enough left, or the UPDATE still finds it alive, or its absolute end is near |
| `SessionExpiry.LapsedBetweenReads` | src/sessions.ts:575-591 | clock readings under which a use is answered as alive and nothing is extended |
| `SessionExpiry.UnpunctualTouch` | src/sessions.ts:575-591 | clock readings under which a use leaves the idle end more than 30 minutes after the last use |
| `SessionExpiry.TouchBounds` | src/sessions.ts:575-591 | no use shortens a session or carries it past its absolute end |
| `CsrfBinding.AadInjective` | src/sessions.ts:300-309 | two lists of fields with the same associated data are the same list |
| `CsrfBinding.FieldsRead` | src/sessions.ts:300-308 | the associated data reads back as the fields it was made of, each by its big-endian length |
| `SessionStore.BrowserSessionStore.IssueFromHandoff` | src/sessions.ts:692-986 | the exchange of a login, row by row, is the transaction the theorems are about |
| `SessionStore.BrowserSessionStore.RotateCurrent` | src/sessions.ts:1137-1253 | the rotation, with the refusal the first failing check gives |
| `SessionStore.BrowserSessionStore.Logout` | src/sessions.ts:1255-1287 | the family is revoked, and the answer says whether the session is there and whether anything was left to revoke |
| `SessionStore.BrowserSessionStore.RevokeAll` | src/sessions.ts:1289-1332 | the version rises and every session of the account is revoked, or the refusal and no change |
| `SessionStore.BrowserSessionStore.Authenticate` | src/sessions.ts:988-1135 | a use is accepted exactly as `UseExactly` says, and extends and re-encrypts as `UseEffect` says |
| `SessionStore.BrowserSessionStore.SetAccountStatus` | src/human-administration.ts:319-335 | the status changes, the version rises and the sessions go, except for a disabled account |
| `RecoveryInbox.RunInboxKeeps` | src/jobs/process-recovery-revocations.ts:107-228 | over every run an event is claimed at most maxAttempts times, crashes counted, takes effect at most once, and exactly when it is acknowledged |
| `RecoveryInbox.TerminalForever` | src/jobs/process-recovery-revocations.ts:107-228 | acknowledged, failed and expired rows never change again |
| `RecoveryInbox.SupersededForever` | src/jobs/process-recovery-revocations.ts:158-228 | a token that no longer holds its row never holds it again, and its worker changes nothing |
| `RecoveryInbox.GenuineForever` | src/jobs/process-recovery-revocations.ts:135-156 | a claim stays a faithful account of its row for as long as it holds it |
| `RecoveryInbox.WorkerBumpsAreAcknowledgements` | src/jobs/process-recovery-revocations.ts:81-104 | over every run the worker raises an account's version once for each of its events acknowledged in the run |
| `RecoveryInbox.Redelivered` | src/human-administration.ts:337-377 | a redelivered webhook changes nothing and is accepted exactly when its digest is the stored one |
| `RecoveryClaims.ReceivedExactly` | src/human-administration.ts:337-374 | when an event is stored, and what every delivery is answered |
| `RecoveryClaims.ClaimedExactly` | src/jobs/process-recovery-revocations.ts:135-155 | a claim counts its attempt and leases the row exactly when it is due, unexpired and has an attempt left |
| `RecoveryClaims.SweptExactly` | src/jobs/process-recovery-revocations.ts:112-134 | an overdue event expires, and one whose last attempt's lease has run out has failed; both only then |
| `RecoveryClaims.AcknowledgedExactly` | src/jobs/process-recovery-revocations.ts:189-215 | an acknowledgement takes effect exactly under a running lease of an unexpired event, and bumps the account the event was matched to |
| `RecoveryClaims.FailedExactly` | src/jobs/process-recovery-revocations.ts:158-175 | a failure is recorded exactly while the claim holds the event, and is terminal exactly after the last attempt |
| `RecoveryClaims.HeldUntil` | src/jobs/process-recovery-revocations.ts:107-228 | over every run a claim holds its event exactly until its own outcome, the event's end, or another claim or the last attempt's end after its lease has run out |
| `RecoveryClaims.OverdueForGood` | src/jobs/process-recovery-revocations.ts:107-228 | over every run an overdue event is never claimed or acknowledged again |
| `RecoveryWorker.RecoveryQueue.ReceiveWebhook` | src/human-administration.ts:337-377 | one row per issuer and event, and the receipt |
| `RecoveryBatch.ReturnedHold` | src/jobs/process-recovery-revocations.ts:135-156 | every claim of a batch holds its row when the transaction commits, and tells its account and attempts truly |
| `RecoveryBatch.ReturnedExactly` | src/jobs/process-recovery-revocations.ts:135-156 | exactly the rows picked that could be claimed are returned |
| `RecoveryWorker.RecoveryQueue.ClaimRevocations` | src/jobs/process-recovery-revocations.ts:107-156 | of the rows picked the overdue ones expire, the exhausted ones fail and the due ones are leased with one attempt more, each under its own token, as a run that the theorems about runs apply to |
| `RecoveryWorker.RecoveryQueue.FailRevocation` | src/jobs/process-recovery-revocations.ts:158-175 | the claim is given back for retry or ended, if it still holds the row |
| `RecoveryWorker.RecoveryQueue.ProcessClaim` | src/jobs/process-recovery-revocations.ts:177-228 | effect and acknowledgement commit together; without the lease, or with any other outcome, there is no effect |
| `RateLimitPolicy.RetryAfter` | src/auth-rate-limits.ts:132 | the wait in whole seconds, rounded up, between one and an hour |
| `ReservationLimiter.FinalizeExact` | src/auth-rate-limits.ts:221-259 | a reservation found by finalize is in the window that admitted it, so the clamp never acts and the charge goes to that window |
| `ReservationLimiter.DropExact` | src/auth-rate-limits.ts:261-277 | dropping expired reservations never meets the clamp |
| `ReservationLimiter.CleanupKeeps` | src/auth-rate-limits.ts:261-291 | whenever its two statements run, cleanup keeps every count and limit |
| `ReservationLimiter.CleanupExact` | src/auth-rate-limits.ts:261-291 | exactly when cleanup deletes no unexpired reservation: each one's bucket was updated within the day before the second statement |
| `ReservationLimiter.PromptCleanup` | src/auth-rate-limits.ts:261-291 | so it loses none when its statements run at most 23 hours and a millisecond apart |
| `ReservationLimiter.LateCleanupLoses` | src/auth-rate-limits.ts:261-291 | for any longer gap there is a bucket whose unexpired reservation is deleted |
| `ReservationLimiter.RunKeeps` | src/auth-rate-limits.ts:138-291 | under any interleaving: reservedCount is the number of reservations, count + reservedCount is within the limit, each reservation ends with its window, and no window is ever charged beyond its limit |
| `ReservationLimiter.FinishedForever` | src/auth-rate-limits.ts:221-259 | a finished reservation stays finished: it is charged at most once and finalizing it again changes nothing |
| `ReservationLimiter.RetryIsHonest` | src/auth-rate-limits.ts:138-219 | a denied attempt is told to wait to the end of the window to the second, and waiting that long is enough |
| `ReservationDecisions.DecisionExactly` | src/auth-rate-limits.ts:154-208 | an attempt is admitted exactly when the bucket is missing, or its window has ended, or it is not blocked and the window's charges and open reservations number fewer than the limit |
| `ReservationDecisions.FreshWindowAdmits` | src/auth-rate-limits.ts:138-219 | a new window admits exactly the limit of attempts in a row and refuses every further one in it |
| `ReservationDecisions.AdmittedEffect` | src/auth-rate-limits.ts:162-219 | an admitted attempt holds one place until its window ends; a new window drops what the last one held |
| `ReservationDecisions.DeniedEffect` | src/auth-rate-limits.ts:181-207 | a denied attempt counts one more denial and doubles the block up to sixteen times, not beyond the window; it is told the seconds to the window's end, and repeated excess from the third denial on |
| `ReservationDecisions.FinalizeEffect` | src/auth-rate-limits.ts:221-259 | a finished attempt gives its place back, and is charged exactly when consumed before its window ends |
| `ReservationDecisions.CleanupEffect` | src/auth-rate-limits.ts:261-291 | cleanup takes a bucket's expired reservations off its count and deletes the buckets nothing has touched for a day |
| `ReservationSpans.ReserveBudget` | src/auth-rate-limits.ts:138-291 | under any interleaving: of the attempts on one bucket admitted in a span as long as its window, at most twice the limit have not given their place back |
| `ReservationSpans.AnyNumberAdmitted` | src/auth-rate-limits.ts:221-259 | places given back can be taken again: any number of attempts admitted at one instant in a window of five |
| `RateLimiter.ReservationTables.ReserveAttempt` | src/auth-rate-limits.ts:138-219 | reserve over its two tables is the transaction the theorems are about |
| `RateLimiter.ReservationTables.FinalizeAttempt` | src/auth-rate-limits.ts:221-259 | so is finalize |
| `RateLimiter.ReservationTables.CleanUp` | src/auth-rate-limits.ts:261-291 | so is cleanup, with the number of buckets deleted and exactly when it loses no unexpired reservation |
| `CheckLimits.AdmittedExactly` | src/auth-rate-limits.ts:79-136 | exactly when an immediate attempt is admitted, by the row it finds |
| `CheckLimits.ElapsedAdmits` | src/auth-rate-limits.ts:88-111 | an ended window admits the next attempt exactly when the action has no backoff or the window was not full |
| `CheckLimits.FullWindowStillRefuses` | src/auth-rate-limits.ts:101-108 | a full window left alone for a year that still refuses |
| `CheckLimits.CheckBreaksReservations` | src/auth-rate-limits.ts:79-136 | exactly on which buckets `check` would break the bound that `reserve` keeps |
| `CheckLimits.CheckBreaksFullBucket` | src/auth-rate-limits.ts:79-136 | one such bucket, within its window and after it |
| `CheckLimits.PeekForetells` | src/auth-rate-limits.ts:79-136 | a peek that says yes is borne out by the next attempt except after a full window of an action with backoff; one that says no is too, unless the window or the block ends in between |
| `CheckLimits.PeekForetellsAtOnce` | src/auth-rate-limits.ts:112-136 | within one tick peek and attempt differ exactly after a full, ended window of an action with backoff |
| `CheckLimits.SpanBudget` | src/auth-rate-limits.ts:79-136 | for every action, whatever the callers do and however the clock runs inside a statement, no span as long as the window admits more than twice the limit and one |
| `CheckLimits.SpanBudgetUnstraddled` | src/auth-rate-limits.ts:89-100 | nor more than twice the limit, unless some attempt is tested before its window ends and counted after |
| `CheckLimits.SpanBudgetWithBackoff` | src/auth-rate-limits.ts:101-111 | nor then, for actions with backoff, whose statements take less time than the block they set |
| `CheckLimits.StraddlingAdmitsOneMore` | src/auth-rate-limits.ts:89-100 | a run with such an attempt that admits twice the limit and one |
| `CheckAnswers.WindowAnswers` | src/auth-rate-limits.ts:79-136 | in one window the first `limit` attempts are allowed and the rest are not, repeated excess is told from the third refusal on, and the wait is the seconds to the window's end |
| `CheckAnswers.AttemptedExactly` | src/auth-rate-limits.ts:82-115 | within its window every attempt counts, and one that finds it full counts as denied and lengthens the block; after it the row starts again |
| `CheckAnswers.DecidedExactly` | src/auth-rate-limits.ts:111-118 | the answer to a counted attempt, its wait in whole seconds and the repeated excess, by the row it leaves |
| `CheckAnswers.PeekedExactly` | src/auth-rate-limits.ts:120-136 | the answer to a check that does not count |
| `CheckLimits.WindowTable.Check` | src/auth-rate-limits.ts:79-136 | one upsert or one read, and the decision |
| `DeviceLimiter.DeviceBudget` | src/dispositivos.ts:175-222 | over any run every half-open minute holds at most 20 allowed attempts, the level stays within 0 to 5 and no wait exceeds five minutes |
| `DeviceLimiter.SilenceForgives` | src/dispositivos.ts:175-222 | five minutes of silence are followed by an allowed attempt with 19 remaining and level 0 |
| `DeviceLimiter.WaitingUnblocks` | src/dispositivos.ts:175-206 | a refused device that waits as told is refused again only if the minute is still full |
| `DeviceLimiter.WaitsDouble` | src/dispositivos.ts:188-203 | the wait told after each further excess is twice the one before, up to five minutes |
| `DeviceAnswers.DecidedExactly` | src/dispositivos.ts:175-206 | after any run: a blocked device is told the rest of its block, twenty attempts allowed in the last minute block it for 15 to 300 seconds by its level, and any other is allowed, told what the minute leaves, and forgiven its level when the minute was empty |
| `DeviceLimiter.DeviceRateLimiter.Consume` | src/dispositivos.ts:208-222 | one device's state moves, the others stay |
| `DeliveryLeases.RunKeeps` | src/jobs/deliver-invitations.ts:131-218 | over every run a row's attempts are its recorded outcomes, at most maxAttempts, an open row has one left, and a delivery is recorded at most once |
| `DeliveryLeases.SweepUnreachable` | src/jobs/deliver-invitations.ts:136-146 | the exhaustion sweep never changes a row |
| `DeliveryLeases.ClosedForever` | src/jobs/deliver-invitations.ts:131-218 | delivered and dead rows never change, and the attempts left never grow |
| `DeliveryLeases.SupersededForever` | src/jobs/deliver-invitations.ts:172-218 | a token that no longer holds its row never holds it again; renewing, completing or failing with it changes nothing |
| `DeliveryLeases.GenuineForever` | src/jobs/deliver-invitations.ts:147-218 | a claim stays a faithful account of its row for as long as it holds it |
| `DeliveryLeases.OpenBecomesClaimable` | src/jobs/deliver-invitations.ts:147-170 | every open row is claimable once its next attempt or its lease is past |
| `DeliveryLeases.OutcomesAreAttempts` | src/jobs/deliver-invitations.ts:186-218 | each recorded outcome uses one attempt, and no other step does |
| `DeliveryClaims.ClaimedExactly` | src/jobs/deliver-invitations.ts:131-170 | a claim transaction leases exactly the picked rows with attempts left whose next attempt is due or whose lease has run out; no other row changes |
| `DeliveryClaims.RunningLeaseStands` | src/jobs/deliver-invitations.ts:147-151 | before its lease's end no claim transaction changes the row or returns it |
| `DeliveryClaims.CallExactly` | src/jobs/deliver-invitations.ts:172-218 | what a renewal, a completion and a failure change, and that they change nothing on a row no longer held |
| `DeliveryClaims.HeldUntil` | src/jobs/deliver-invitations.ts:131-218 | over every run a claim holds its row exactly until its own holder reports an outcome or another claim finds its latest lease run out |
| `DeliveryClaims.HeldToItsEnd` | src/jobs/deliver-invitations.ts:131-218 | whatever other workers do before the lease's end, the claim still holds the row |
| `DeliveryLeases.DeliveryTable.ClaimDeliveries` | src/jobs/deliver-invitations.ts:131-170 | the claims are the rows picked that were due, as `ClaimedExactly` says, each with the attempts it had and held under its own new token |
| `DeliveryLeases.DeliveryTable.RenewLease` | src/jobs/deliver-invitations.ts:172-184 | the lease is extended exactly if it is still held |
| `DeliveryLeases.DeliveryTable.CompleteDelivery` | src/jobs/deliver-invitations.ts:186-195 | the delivery is recorded exactly if the lease is still held |
| `DeliveryLeases.DeliveryTable.FailDelivery` | src/jobs/deliver-invitations.ts:202-218 | a failure is recorded exactly if the lease is still held, and is terminal exactly when permanent or out of attempts |
| `DeliveryPool.PoolDone` | src/jobs/deliver-invitations.ts:341-405 | whatever the schedule, when all workers have left every claim was settled exactly once and the outcome and channel counts each add up to the claims |
| `DeliveryPool.PoolMoves` | src/jobs/deliver-invitations.ts:341-405 | until then some worker has not left |
| `DeliveryPool.Pool.Turn` | src/jobs/deliver-invitations.ts:357-365 | a worker takes the claim at the cursor, or leaves at the end |
| `DeliveryPool.Pool.Finish` | src/jobs/deliver-invitations.ts:366-398 | a claim is settled once, with one outcome counted |
| `JsonText.EscapedExactly` | src/convites.ts:227-243 | pairs of surrogates and ordinary units stand for themselves; controls, quotation marks, reverse solidi and lone surrogates are escaped, by a letter or four lower-case digits |
| `JsonText.EscapePrefix` | src/convites.ts:227-228 | a quoted string can be told from what follows it, surrogates and escapes included |
| `CanonicalJson.PrintsCanon` | src/convites.ts:227-239 | the printer's text is that of the value with keys sorted and undefined members dropped at every depth |
| `CanonicalJson.TextPrefix` | src/convites.ts:227-239 | the text of a value ends where it ends: no value's text is read as another's |
| `CanonicalJson.CanonicalJsonInjective` | src/convites.ts:227-243 | two values print to one text exactly when they are equal after sorting keys and dropping undefined members |
| `CanonicalJson.ReorderingForgotten` | src/convites.ts:231-237 | reordering an object's members changes nothing, since unique keys have one sorted order |
| `CanonicalJson.UndefinedForgotten` | src/convites.ts:233 | an undefined member changes nothing, wherever it is added |
| `CanonicalJson.MembersInOrder` | src/convites.ts:231-237 | an object is printed with exactly its defined members, in the order of their keys by code units |
| `JsonReader.CanonicalReads` | src/convites.ts:227-243 | what is printed is JSON by RFC 8259, and reads back as the canonical value, whole |
| `JsonReader.StringReads` | src/convites.ts:227-228 | a printed string reads back as the string, surrogates and escapes included |
| `Invitations.ClearingHarmless` | src/convites.ts:414-424 | clearing digests never disables an invitation that could still be used |
| `Invitations.CreatedExactly` | src/convites.ts:410-506 | a created batch is whole, touches no other row but for dead digests, and leaves the resident's civil day within the limit in force |
| `Invitations.ValidateKeeps` | src/convites.ts:693-911 | a gate decision keeps used and revoked apart, and used invitations, permitted audits and notifications one to one |
| `Invitations.RevokeKeeps` | src/convites.ts:1012-1057 | so does a revocation |
| `InvitationAccess.JudgedExactly` | src/convites.ts:693-872 | the gate opens for an invitation exactly when identity and device are in order and it is the one presented at its condominium, not deleted, used or revoked, unexpired at both readings, and its guest, resident and condominium are live; and what every refusal names |
| `InvitationAccess.AccessEffect` | src/convites.ts:853-895 | an allowed access uses the row up, is audited as permitted and notifies once; a refused one leaves rows and notifications alone |
| `InvitationAccess.ShutForGood` | src/convites.ts:693-911 | over every run: once an invitation is deleted, used, revoked or past its end, no later access is allowed by it |
| `InvitationAccess.UsedInTime` | src/convites.ts:853-864 | over every run a use is stamped before the invitation's end but for the time between the UPDATE's two readings |
| `InvitationAccess.StampedLate` | src/convites.ts:853-864 | that bound is met, whatever the time |
| `InvitationAccess.RevokedExactly` | src/convites.ts:1012-1057 | which invitation a resident revokes, and when one is answered as already revoked |
| `InvitationAccess.PersistExactly` | src/convites.ts:410-506 | when a batch is created, and which refusal comes first otherwise |
| `InvitationAccess.AttemptExactly` | src/convites.ts:519-691 | a request is answered from its key's unexpired record alone, and issued exactly when there is none and the batch can be created |
| `InvitationAccess.IntentsExactly` | src/convites.ts:594-691 | with an issued batch come exactly the delivery intents of its guests' channels |
| `IdempotentIssuance.RunKeeps` | src/convites.ts:519-691 | over every run of issues, gate decisions, revocations and clean-ups: live digests are unique and each confirmed record has one batch of its own with one intent per invitation and channel |
| `IdempotentIssuance.OneAnswer` | src/convites.ts:555-592 | until its record expires, an answered request gets the identical text and creates nothing, and another request under its key conflicts and changes nothing |
| `IdempotentIssuance.FailureLeavesNothing` | src/convites.ts:519-691 | a refused, conflicting or replayed attempt leaves everything as it was |
| `IdempotentIssuance.MissingLeavesNothing` | src/convites.ts:519-691 | an attempt that misses a guest leaves no record, invitation or intent |
| `IdempotentIssuance.IssuedExactly` | src/convites.ts:594-691 | an issued request has a record of its own for one new, whole batch, and exactly the intents of its contacts |
| `IdempotentIssuance.SpentForever` | src/convites.ts:693-1057 | a used invitation stays used and is never revoked, a revoked one is never used |
| `IdempotentIssuance.ApplyKeeps` | src/jobs/cleanup-idempotency.ts:7-32 | every step keeps the ledger, the clean-up of expired records included |
| `InvitationStore.PersistBatch` | src/convites.ts:410-506 | the statement-by-statement batch is the function the theorems are about |
| `InvitationStore.InvitationTables.IssueIdempotent` | src/convites.ts:519-691 | of up to 32 transactions the first without a token collision decides, and the ones before it leave no trace |
| `InvitationStore.InvitationTables.FindPresented` | src/convites.ts:797-815 | at most one invitation answers to the token and condominium, and it is found |
| `InvitationStore.InvitationTables.ValidateAccess` | src/convites.ts:693-911 | one attempt at the gate: verdict, use, audit and notification in one transaction; `JudgedExactly` and `AccessEffect` say which |
| `InvitationStore.InvitationTables.RevokeActive` | src/convites.ts:1012-1057 | the revocation and its answer |
| `ClientIp.ParserInvertsEverySpelling` | src/client-ip.ts:11-31 | the parser reads back every text form of section 2.2 of RFC 4291: any zero run elided, any leading zeros or case, a dotted-quad tail |
| `ClientIp.WrongCountRefused` | src/client-ip.ts:21-30 | a "::" that stands for no group is refused, and so is any number of groups but eight without one |
| `IpPrefix.NamesOne` | src/client-ip.ts:33-50 | a text names at most one address |
| `IpPrefix.PrefixOfNetwork` | src/client-ip.ts:33-50 | the prefix of an accepted address, with or without a zone, is the text of its network |
| `IpPrefix.PrintedInjective` | src/client-ip.ts:8-50 | different networks have different texts |
| `PrefixText.PrefixReads` | src/client-ip.ts:5-50 | the prefix is its network's numbers in their shortest lower-case form, with its length |
| `PrefixText.PrefixOfItself` | src/client-ip.ts:33-50 | without its length the prefix is the text of the network's first address, and so has itself as its prefix |
| `IpPrefix.SharePrefixExactly` | src/client-ip.ts:33-50 | two accepted addresses share a prefix exactly when they agree on the first 64 bits, or on the first 24 bits of the IPv4 address when IPv4 or IPv4-mapped in any spelling |
| `IpPrefix.AcceptedExactly` | src/client-ip.ts:33-50 | exactly the texts that name an address have a prefix |
| `IpPrefix.MappedSpelling` | src/client-ip.ts:38-49 | the dotted form of an IPv4-mapped address leads to the same prefix as any other spelling of it |

## Left out

- RolloutEvaluator.Evaluate: findings are a set, not sorted texts; refusals by shape alone (patterns, canonical instants, unknown codes) are one `Malformed` input.
- RolloutAdmission.AdmitSnapshot: identifiers, stages, instants and gap codes off their pattern are refused by shape alone; alerts are a list, which may repeat a type.
- RolloutEvaluator.Tally: the totals are exact integers; the quotient printed as permille is kept in millionths, and 0.995 and 0.95 are exact.
- Telemetry.AuthTelemetry.Flush: the sink's payload bytes, its timer and its cancel callback; a sink is what it does: returns, starts, throws, times out or settles.
- Telemetry.AuthTelemetry.RaiseSlos: the cumulative count of the scan is an exact integer, also where the source's number would round beyond the safe integers.
- Telemetry.AuthTelemetry.Increment: metric names outside the table, which the source's types exclude.
- ClockChain.ChainDeviation: instants beyond the range of `Date`.
- AlertRouting.RunKeeps: the alert's type and routes, and the separate `deliver` call that does not use the slot.
- SessionTheorems.RunKeeps: memberships, roll-out gate, MFA policy and creation limit are inputs of a transaction; audits, metrics, device fields and the choice of membership are left out, and digests of tokens are identifiers.
- CsrfBinding.AadInjective: AES-GCM itself; a seal opens for the session and account it was made for when its key is there.
- RecoveryInbox.RunInboxKeeps: signature and clock checks of the webhook are one input; the retry delay is a parameter; the overdue alert job is left out.
- RecoveryWorker.RecoveryQueue.ClaimRevocations: which rows a statement picks is arbitrary; a row is picked and changed at one clock reading.
- SessionStore.BrowserSessionStore.Authenticate: SQL triggers, other than as revocation of arbitrary sessions at any time.
- CheckLimits.WindowTable.Check: rounding of stored instants to milliseconds; the expressions of a statement read the clock in the order they are written; the limiter's metrics and alerts.
- CheckAnswers.AttemptedExactly: apart from the block, statements that read the clock on both sides of the window's end, of which `CheckLimits.SpanBudget` speaks.
- CheckLimits.AdmittedExactly: a statement that runs longer than the backoff it sets.
- ReservationLimiter.RunKeeps: rounding of stored instants to milliseconds.
- DeviceLimiter.DeviceRateLimiter.Consume: the database-backed variant, which runs the same decision on a stored row.
- DeliveryLeases.RunKeeps: maxAttempts is one number for the whole run; which rows a batch picks, and in what order, is arbitrary; the retry delay is a parameter.
- DeliveryPool.PoolDone: payload decryption, the provider call, its deadline and the lease keeper are a worker's outcome; an error that ends the batch before every worker has left is not modelled.
- CanonicalJson.CanonicalJsonInjective: numbers are their printed text, so -0 is 0; a parsed body has no NaN, and no function or symbol, for which the source throws; the SHA-256 of the text.
- Invitations.CreatedExactly: encryption of the delivery payload, message texts and time-zone tables; the civil day is any function of the instant; one clock reading for all digests that are cleared.
- IdempotentIssuance.ApplyKeeps: the clean-up of records reads the clock once for all rows.
- Invitations.ValidateKeeps: the `ultimoUsoEm` of the guest; the liveness of device, guest, resident and condominium is an input.
- InvitationStore.InvitationTables.IssueIdempotent: the non-idempotent path differs only by having no record and is the step PlainBatch of IdempotentIssuance.
- IpPrefix.AcceptedExactly: `isIP` of node:net is stated, not modelled: dotted decimals without leading zeros, and the spellings of section 2.2 of RFC 4291; text `Number` would read beyond digits never reaches the prefix.
- PostgreSQL isolation: every transaction is one atomic step.
- OIDC exchange, cookies, routes, the trusted-proxy list, environment parsing, soft deletion and anonymization: decided one branch at a time.
