# Alerting, updating and bounded storage of Skybeat, in Dafny

Skybeat watches GPU machines: agents send heartbeats and logs to a server, the server opens and closes
incidents and sends notifications, and a small updater on each device installs and rolls back agent releases.
This project models four parts of it and proves what they keep over every run.

1. **Alerting** (`AlertWorld`, `AlertInvariants`, `AlertRuns`, `AlertGuarantees`, `AvailabilityHistory`,
   `GpuConfirmation`, `GpuHistory`, `IncidentReasons`, `NotificationQueue`, `QueueOutcomes`, `AlertAnswers`,
   `AlertServices`, `HeartbeatIngestion`, `HeartbeatAnswers`). One step is one committed transaction: heartbeats,
   sweeps, device administration, and the claim, settle, recover, expire and supersede transactions of the
   notification queue, in any order. `AlertServices` and `HeartbeatIngestion` hold
   the services as classes that update their tables in place, each method proved equal to its transaction.
2. **Rollback on the device** (`VersionRecord`, `Updater`, `UpdaterRecovery`, `UpdaterRepeatedCuts`,
   `UpdaterFailures`, `UpdaterVerdicts`, `UpdaterService`). One step is one filesystem call on the three environment
   slots, the version records and the marker. Each call may complete, raise or lose power; a copy that is cut leaves any
   prefix of the text.
3. **The lifecycle slot and the updater's reports** (`Lifecycle`, `LifecycleRequests`, `LifecycleService`,
   `LifecycleReports`). One operation per device, fed by a reporter that repeats itself until it is answered.
4. **Bounded stores and windows** (`Retention`, `LogStore`, `LogRuns`, `LogService`, `KeysetPaging`, `LogPaging`,
   `LogCatchUp`, `LogPruning`, `LogAnswers`, `IncidentPaging`, `Credentials`, `Enrollment`, `EnrollmentAnswers`,
   `EnrollmentService`, `RateLimiter`, `History`). Each has an unbounded specification that the bounded code refines.

Specification functions on values describe what each operation does; the classes are proved against them, and the
lemmas are about them and about runs of them. The modules `QueueOutcomes`, `AlertAnswers`, `HeartbeatAnswers`,
`LifecycleRequests`, `LogAnswers`, `EnrollmentAnswers` and `UpdaterFailures` say of each operation which requests it grants, what it then
leaves behind, and why it refuses the others, in terms of columns, numbers and instants only.

## Where the code falls short of the obvious claim

- A power cut inside the restore, between renaming the environment and its record, leaves a layout that every later
  recovery refuses (`UpdaterRecovery.StrandedWindowIsReal`, `StrandedForever`). A second window lies between
  keeping the old environment and its record, when the target is down at recovery
  (`UpdaterRecovery.HalfKeptWindowIsReal`). There is no third, neither after one cut (`UpdaterRecovery.CutThenRecover`)
  nor after any number of them (`UpdaterRepeatedCuts.CutsThenRecover`).
- A rollback that completed but lost its stored result is reported as FAILED when it is started again
  (`UpdaterVerdicts.CompletedRollbackIsMisreported`): the result is true of the device in all other cases, and only in
  those (`UpdaterVerdicts.RerunVerdict`). A rollback completes iff the target is healthy at its check
  (`UpdaterVerdicts.UninterruptedRollback`).
- An I/O error late in a rollback, once the old environment is kept, is answered with FAILED although the device runs
  the target: half recorded if the error hit the rename of the record, switched over after that
  (`UpdaterFailures.OneErrorRollback`, which also shows that an earlier error is undone). An error between the first
  rename and the health check is blamed on the target.
- A final that announces a rollback without the digest of the previous release is refused forever
  (`LifecycleReports.UndigestedIsNeverAccepted`). Exactly the version records that `LifecycleReports.RecordsSuffice`
  excludes lead to one; records the installer wrote never do (`WrittenRecordsSuffice`), an empty one does
  (`EmptyRecordMakesAnUndigestedFinal`), and finals of a rollback need none (`RollbackFinalsNeedNoDigest`).
- The limiter reads the clock before it takes its lock, so readings can go back in lock order. Six calls a minute are
  kept iff they do not (`RateLimiter.SixPerMinuteIffInOrder`); if they go back by at most a skew, six calls are kept
  in windows of a minute less the skew, and in no longer ones (`RateLimiter.WindowBoundIsExact`). In lock order a call
  is refused iff six were allowed in the minute before (`RateLimiter.LimiterKeepsItsPromise`).
- `monitoring_baseline` prefers the last heartbeat over the start of monitoring, unlike its docstring, so a
  re-enabled device keeps its old baseline. The model follows the code
  (`AvailabilityHistory.ReenabledDeviceKeepsItsOldBaseline`).
- Reading logs from the oldest up need not end while lines keep arriving: after a number of pages a reader can be
  unfinished iff more rows were accepted by then than the pages hold (`LogCatchUp.OldestFirstEndsUnlessOutpaced`).
- Switching GPU monitoring off leaves an open GPU incident open, and no degradation is announced after switching it on
  again until a healthy pair has been confirmed (`GpuConfirmation.OnlyHealthResumesMonitoring`).

## Assumptions

- Database time never goes back from one transaction to the next, where a lemma asks for it by name (`Clocked`,
  `Monotone`, or a clock argument).
- Each transaction is one atomic step. The supersession selects of `server/app/health/service.py:170-178` and
  `server/app/gpu/service.py:139-149, 200-208` take no row lock, and an enrollment exchange and a rotation read the
  clock before they lock the device: that these see what a serial order would show them is assumed.
- Lease tokens, operation ids, credential ids and enrollment tokens are fresh; a token and its digest, and a cursor
  and its JSON text, determine each other.
- Rows that `SKIP LOCKED` passes over are an arbitrary set, another one for each query.
- Auto-increment ids are handed out in insertion order and never used again.
- A provider, the health of a release and the fate of each filesystem call are arbitrary, unless a lemma names what
  it needs (`OriginalHealthy`, `NoErrors`, `Uninterrupted`).
- Where the state NOT_MONITORED is characterised (`Reportable`), an agent never reports it
  (`server/app/schemas/heartbeat.py:171`).

## Model

| member | source | states |
|---|---|---|
| AlertRuns.TxnKeepsInv | server/app/health/service.py:92-207 | every committed alerting transaction (enrolment, enabling, GPU policy, sweep, heartbeat, claim batch, provider report, lease recovery) keeps the whole ledger coherent, only closes incidents, never edits events, and only moves deliveries forward |
| AlertRuns.RunKeepsInv | server/app/health/service.py:83-207 | the same for every interleaving of any number of transactions |
| AlertGuarantees.IncidentsMatchDeviceStates | server/app/health/service.py:104-129 | after any run: OFFLINE iff exactly one availability incident is open, otherwise none; GPU OK means no open GPU incident; a failing GPU state means exactly one |
| AlertGuarantees.IncidentsAreAnnouncedOnce | server/app/models/alerts.py:16-69 | after any run each incident has exactly one opening event, and exactly one closing event iff it is closed, so neither uniqueness constraint can be hit |
| AlertGuarantees.LeasesMatchLedgers | server/app/notifications/service.py:73-130 | after any run: claimed iff it has a lease token iff it has a lease expiry iff an attempt is unfinished, and that attempt is the last; attempts are exactly 1..attempt_count, at most 5; superseded means claimed or cancelled, cancelled means superseded |
| AlertGuarantees.ClaimsAreTimely | server/app/notifications/service.py:77-98 | a claim takes only a waiting delivery strictly before its expiry, with an attempt left, never a superseded one nor one announcing a closed incident, and raises its attempt count by one |
| AlertGuarantees.SupersededEndsCancelled | server/app/notifications/service.py:163-165 | in any run a superseded delivery stays superseded and its status can only become CANCELLED, whatever the provider answers |
| AlertGuarantees.SilencedIsNeverSent | server/app/health/service.py:170-184 | in any run a delivery that is superseded, or announces a closed incident, is never claimed again |
| AlertGuarantees.AtMostFiveSends | server/app/notifications/service.py:73-98 | in any run, crashes and recoveries included, a delivery is claimed at most five times |
| AlertGuarantees.AtMostTenStatusChanges | server/app/notifications/service.py:163-229 | in any run the status of a delivery changes at most ten times, and never once it is terminal |
| AlertGuarantees.ChangesWithinMeasure | server/app/notifications/service.py:163-229 | the changes still to come are bounded by the measure (attempts left, in progress) of the delivery |
| AlertGuarantees.FinalDeliveriesAreFrozen | server/app/notifications/service.py:132-146 | a terminal delivery never changes again, in any column |
| AlertGuarantees.ClaimBatchIsDetermined | server/app/notifications/service.py:79-91 | the ordered, limited claim query over the rows not locked by others has exactly one answer |
| AlertRuns.ReportFindsItsAttempt | server/app/notifications/service.py:132-162 | in every reachable state the missing-attempt error cannot be raised |
| AlertRuns.LostClaimsStayLost | server/app/notifications/service.py:139-146 | once a claim has lost its lease, a result reported for it changes nothing in every later state of every run |
| AlertRuns.ReportedClaimsAreLost | server/app/notifications/service.py:132-179 | a claim reported anywhere in a run holds no lease when the run is over, whatever else the run does |
| AlertRuns.ReportReleasesItsLease | server/app/notifications/service.py:132-179 | after a report no delivery holds the reported lease, and no other lease has changed hands |
| AlertRuns.LeasesAreIssued | server/app/notifications/service.py:93-98 | every lease token in the table was handed out by a claim |
| AlertRuns.ClaimedRows | server/app/notifications/service.py:92-98 | a batch claims each picked row once under its own token and leaves the others |
| AlertRuns.ClaimsKeepInv | server/app/notifications/service.py:73-130 | expiring and claiming keep the ledger |
| AlertRuns.RecoverStuckKeepsInv | server/app/notifications/service.py:181-214 | recovering lapsed leases keeps the ledger |
| AlertRuns.ExpireUnclaimedKeepsInv | server/app/notifications/service.py:216-229 | expiring unclaimed deliveries keeps the ledger |
| AlertRuns.MarkOfflineKeeps | server/app/health/service.py:104-107 | going offline opens an incident only if none is open and keeps the GPU ledger |
| AlertRuns.CloseForRecoveryKeeps | server/app/health/service.py:161-186 | recovery closes the open incident, silences its announcement and announces the recovery once |
| AlertRuns.AcceptAvailabilityKeeps | server/app/health/service.py:112-129 | the availability half of a heartbeat keeps the ledger and leaves the device ONLINE |
| AlertRuns.AcceptGpuKeeps | server/app/gpu/service.py:99-131 | the GPU half of a heartbeat keeps the ledger |
| AlertInvariants.SupersedeAllKeeps | server/app/gpu/service.py:134-150 | superseding a selection of deliveries keeps every delivery valid and silences the selection |
| AlertInvariants.CloseSettles | server/app/health/service.py:170-184 | closing an incident leaves no announcement of its opening that could still be sent |
| NotificationQueue.ClaimEvolves | server/app/notifications/service.py:92-98 | a claim moves a delivery forward along the measure and is only possible unsuperseded and unexpired |
| NotificationQueue.FinishEvolves | server/app/notifications/service.py:148-179 | settling a claim moves the delivery forward; a superseded one ends CANCELLED |
| NotificationQueue.RecoverEvolves | server/app/notifications/service.py:181-214 | recovering a lapsed lease moves the delivery forward; a superseded one ends CANCELLED |
| NotificationQueue.ExpireEvolves | server/app/notifications/service.py:216-229 | expiry moves a waiting delivery forward |
| NotificationQueue.SupersedeEvolves | server/app/gpu/service.py:212-219 | supersession moves a delivery forward and leaves none waiting |
| QueueOutcomes.ReportDecides | server/app/notifications/service.py:148-179 | a result reported under its lease: cancelled iff superseded; otherwise succeeded iff accepted, retried iff the failure may pass, fewer than five attempts were made and it has not expired, failed for good in every other case; the attempt and the delivery record the answer |
| QueueOutcomes.RetryIsDue | server/app/notifications/service.py:176-179 | a retried delivery waits 30, 60, 120 or 240 s and the jitter, within 0 and 15 min, and can then be claimed until it expires |
| QueueOutcomes.ProvidersDecide | server/app/notifications/service.py:49-71 | a missing provider fails its delivery for good, one that raises is retried like a failure that may pass, and otherwise its answer decides |
| QueueOutcomes.RecoveryDecides | server/app/notifications/service.py:181-214 | recovery takes back exactly the claimed rows whose lease lapsed and nobody holds: cancelled iff superseded, due again at once iff an attempt is left and it has not expired, failed otherwise; its attempt ends as uncertain |
| QueueOutcomes.ExpiryDecides | server/app/notifications/service.py:216-229 | expiry fails exactly the waiting rows whose time is over and nobody holds |
| QueueOutcomes.BatchIsTheSoonest | server/app/notifications/service.py:79-91 | the claim query picks as many of the rows that can be claimed as it may, the soonest due of them, then the lowest ids, in that order |
| QueueOutcomes.ClaimsLastAMinute | server/app/notifications/service.py:92-112 | each picked row starts its next attempt under its own token, on a lease of exactly 60 s |
| QueueOutcomes.AnnouncementsLastADay | server/app/health/service.py:188-207 | an event gets one pending delivery for each destination, which can be claimed at once and for exactly 24 h |
| QueueOutcomes.PassSettles | server/app/notifications/service.py:49-71 | a worker pass with nobody else at work: it takes lost leases back, claims as many of the soonest rows as it may, and leaves each as what became of its message says, and every other row as recovery and expiry left it |
| QueueOutcomes.FailedForAReason | server/app/notifications/service.py:163-229 | over any run a delivery that failed for good was not superseded, and was refused for good, or used its five attempts, or its day was over |
| QueueOutcomes.StepFailsRightly | server/app/notifications/service.py:163-229 | no single transaction fails a delivery without such a reason |
| NotificationQueue.RetriesBackOff | server/app/notifications/service.py:231-233 | the wait starts at 30 s, at most doubles, never shrinks and stays within 0 and 15 min whatever the jitter |
| NotificationQueue.RetryWaitsItsDelay | server/app/notifications/service.py:163-179 | a retried delivery can be claimed exactly from the end of its delay until it expires |
| AvailabilityHistory.RecoveriesAreOverlongGaps | server/app/health/service.py:92-129 | over any run that monitors the device throughout, the closing times of its availability incidents are exactly the heartbeats that end a gap of at least the offline threshold |
| AvailabilityHistory.SweepScheduleIndependence | server/app/health/service.py:83-129 | two runs with the same heartbeats of a device have the same recoveries at the same times, however sweeps, queue and other devices interleave |
| AvailabilityHistory.RecoveriesSinceEnrolment | server/app/health/service.py:48-50 | for a device enrolled in the run its recoveries are the overlong gaps counted from enrolment |
| AvailabilityHistory.ReenabledDeviceKeepsItsOldBaseline | server/app/health/service.py:48-50 | re-enabling a device that was heard before keeps its old baseline: the next sweep finds it OFFLINE iff its last heartbeat is overdue |
| AvailabilityHistory.BeatClosesOverlongGap | server/app/health/service.py:112-129 | a heartbeat closes an incident exactly when it ends an overlong gap, and leaves the device ONLINE with that baseline |
| AvailabilityHistory.SweepGrades | server/app/health/service.py:92-110 | a sweep visit grades a monitored device by the time since it was last heard: OFFLINE from one threshold on, SUSPECT from the other, ONLINE below, and OFFLINE stays until a heartbeat; other devices and unmonitored ones are left alone |
| AvailabilityHistory.StepFollowsGaps | server/app/health/service.py:92-129 | each single transaction changes the closings of a device as the gap specification says |
| GpuConfirmation.HealthyIffNothingIsMissing | server/app/gpu/service.py:72-86 | a heartbeat counts as healthy iff it reports OK, its inventory is reliable, and it lists the required number of GPUs and every required UUID; which failing kind counts in every other case |
| GpuConfirmation.VerdictOfTrace | server/app/gpu/service.py:37-69 | folding any trace of samples, unmonitored heartbeats and offline resets: OK iff neither suspended (monitoring was off and no healthy pair was confirmed since) nor opened (a failing pair was confirmed while not suspended, and no healthy pair since); NOT_MONITORED iff suspended |
| GpuConfirmation.OnlyHealthResumesMonitoring | server/app/gpu/service.py:48-69 | after a heartbeat without monitoring the state stays NOT_MONITORED and an incident stays as it was until a healthy pair is confirmed, whatever else follows |
| GpuConfirmation.StreaksMeanPairs | server/app/gpu/service.py:55-69 | what the two streak counters and the last sample time mean in terms of the trace |
| GpuConfirmation.FailingKindIsFrozen | server/app/gpu/service.py:67-69 | the reported failing kind is that of the sample which confirmed the current degradation, and nothing has been confirmed healthy or left unmonitored since |
| GpuConfirmation.DegradedIffLatestPairFailed | server/app/gpu/service.py:55-69 | with monitoring on throughout, the device is degraded iff the most recent confirmed pair of samples failed |
| GpuConfirmation.EventIffVerdictChanges | server/app/gpu/service.py:55-69 | a degradation fires exactly when the trace becomes opened, a recovery exactly when it stops being opened or suspended |
| GpuConfirmation.AnnouncementsAlternate | server/app/gpu/service.py:57-68 | the changes of the opened verdict alternate, starting with a degradation, and the last is a degradation iff opened |
| GpuConfirmation.NoPairSpansReset | server/app/gpu/service.py:134-138 | no confirming pair spans an offline reset |
| IncidentReasons.MissingGpuOpensAnIncident | server/app/gpu/service.py:99-131 | at any point of a run: two heartbeats of a monitored, healthy device at most 75 s apart that each lack a required GPU leave exactly one open GPU incident, with the reason GPU_MISSING |
| IncidentReasons.ReasonsExplainIncidents | server/app/gpu/service.py:152-210 | over any run a closed incident says why it closed and names no current reason, an open availability incident names the silence, an open GPU incident of a failing device names its GPU state |
| GpuHistory.GpuIncidentsFollowTheTrace | server/app/gpu/service.py:99-131 | for a device from its enrolment on, over any run of the whole system, GPU monitoring switched off and on at will: exactly one GPU incident is open iff its own trace is opened, otherwise none, and the announced GPU events are one degradation or recovery for each change of that, alternating |
| GpuHistory.RunFollowsTrace | server/app/gpu/service.py:99-150 | the stored confirmation state, the open incident and the announced events of a device are those of its trace at every point of any run |
| AlertAnswers.OfflineAnswers | server/app/health/service.py:104-107 | going offline opens and announces the availability incident iff none was open, and silences exactly the announcements of the device's GPU degradations |
| AlertAnswers.RecoveryAnswers | server/app/health/service.py:161-186 | coming back closes the open availability incident, if there is one, and leaves the device ONLINE |
| AlertAnswers.ClosingAnswers | server/app/health/service.py:161-207 | closing an incident silences exactly its opening announcements and tells the destinations of its closing |
| AlertAnswers.GpuAnswers | server/app/gpu/service.py:99-210 | which incident the GPU half of a heartbeat opens, closes or renews, with which reason, and whom it tells |
| AlertAnswers.AdministrationAnswers | server/app/devices/service.py:246-321 | enrolment, monitoring and GPU policy change the row of their own device only, and to what was asked for |
| AlertServices.Database.CreateEvent | server/app/health/service.py:188-207 | inserts one event and one pending delivery per destination |
| AlertServices.Database.SupersedeAll | server/app/gpu/service.py:134-150 | the loop over the selected deliveries supersedes exactly those |
| AlertServices.GPUIncidentService.Accept | server/app/gpu/service.py:99-131 | the method changes the tables as the specification of the GPU half says |
| AlertServices.AvailabilityService.EvaluateDevice | server/app/health/service.py:92-110 | the method changes the tables as the specification of a sweep visit says |
| AlertServices.AvailabilityService.AcceptHeartbeat | server/app/health/service.py:112-129 | the method changes the tables as the specification of the availability half says |
| AlertServices.AvailabilityService.CloseForRecovery | server/app/health/service.py:161-186 | the method changes the tables as the specification of a recovery says |
| AlertServices.NotificationService.ClaimDue | server/app/notifications/service.py:73-130 | the method expires, selects the earliest due rows and claims them in order, or refuses the limit |
| AlertServices.NotificationService.SelectDue | server/app/notifications/service.py:79-91 | the selection is the earliest due rows in claim order |
| AlertServices.NotificationService.TakeClaims | server/app/notifications/service.py:92-130 | the loop claims each selected row and returns its claim |
| AlertServices.NotificationService.RecordResult | server/app/notifications/service.py:132-179 | the method settles the claim, drops a stale one, or reports the missing attempt |
| AlertServices.NotificationService.RecoverStuck | server/app/notifications/service.py:181-214 | the loop recovers exactly the lapsed leases |
| AlertServices.NotificationService.ExpireUnclaimed | server/app/notifications/service.py:216-229 | the loop expires exactly the lapsed waiting deliveries |
| AlertServices.NotificationService.ProcessDue | server/app/notifications/service.py:49-71 | a pass is exactly the run of recovering, expiring and claiming, and one report for each claim: each transaction with its own instant and its own locked rows, a missing or raising provider reported as its outcome; afterwards no lease of this pass is held |
| HeartbeatAnswers.DeliveryAnswers | server/app/heartbeats/service.py:60-128 | a delivery is acknowledged iff its token is that of the enabled device it is from, the limiter lets it through and no receipt of it has another payload; a first one is recorded and acknowledged at its instant; each refusal names the first condition that fails and changes nothing |
| HeartbeatAnswers.ReceiptOfTheFirst | server/app/heartbeats/service.py:60-128 | over any run a heartbeat gets a receipt iff an admissible delivery of it arrives, and it is that of the first one |
| HeartbeatIngestion.ExactlyOnce | server/app/heartbeats/service.py:60-128 | after any run of deliveries, retries and reorderings a heartbeat has a receipt iff it has exactly one sample, and the two record the same payload and instant |
| HeartbeatIngestion.AcksAreIdentical | server/app/heartbeats/service.py:60-128 | all acknowledgements of one heartbeat in a run are the stored one |
| HeartbeatIngestion.ReplayChangesNothing | server/app/heartbeats/service.py:60-128 | a replay changes no table: the same payload gets the stored acknowledgement, another one a conflict |
| HeartbeatIngestion.LatestIsLastAccepted | server/app/heartbeats/service.py:60-128 | after any run the latest row of a device is its last accepted sample, and the device was last seen then |
| HeartbeatIngestion.DeliverKeepsValid | server/app/heartbeats/service.py:60-128 | ingestion keeps receipts, samples, latest rows and the alerting tables in step and never edits a receipt |
| HeartbeatIngestion.HeartbeatService.Accept | server/app/heartbeats/service.py:60-128 | the method changes the tables as the specification of ingestion says |
| UpdaterRecovery.CutThenRecover | scripts/agent-updater.py:360-432 | after a power cut anywhere in a rollback one uninterrupted recovery ends in exactly one of the two complete layouts, if and only if the cut left neither of two named windows |
| UpdaterRepeatedCuts.CutsThenRecover | scripts/agent-updater.py:360-588 | however often rollback and recovery are started and cut, a record torn by a cut recovery included, one uninterrupted recovery then ends in exactly one of the two complete layouts iff the cuts left neither window |
| UpdaterRepeatedCuts.HistoryStaysListed | scripts/agent-updater.py:360-588 | the listed layouts are closed under any number of cut or uncut rollbacks and recoveries |
| UpdaterRepeatedCuts.RecoverStaysListed | scripts/agent-updater.py:360-432 | a recovery cut anywhere takes a listed layout to a listed layout |
| UpdaterRecovery.RollbackLayouts | scripts/agent-updater.py:524-588 | a rollback without I/O errors ends switched over or restored, or is cut in one of the listed layouts |
| UpdaterRecovery.RecoverFromCut | scripts/agent-updater.py:360-432 | what one recovery makes of each such layout |
| UpdaterRecovery.StrandedWindowIsReal | scripts/agent-updater.py:336-342 | a concrete power cut between the rename of the environment and of its record, after an unhealthy target, strands the device |
| UpdaterRecovery.StrandedForever | scripts/agent-updater.py:360-432 | a stranded device is refused, unchanged, by every later recovery and rollback |
| UpdaterRecovery.HalfKeptWindowIsReal | scripts/agent-updater.py:565-569 | a concrete power cut between keeping the old environment and its record reaches the second window |
| UpdaterRecovery.RestoreLayouts | scripts/agent-updater.py:324-357 | restoring a parked environment completes, or is cut in a listed layout |
| UpdaterRecovery.SwitchLayouts | scripts/agent-updater.py:552-565 | the forward steps up to the health check leave a listed layout wherever they are cut, a torn record included |
| UpdaterRecovery.KeepLayouts | scripts/agent-updater.py:566-569 | keeping the old environment completes, or is cut in a listed layout |
| UpdaterRecovery.ParkedRecovers | scripts/agent-updater.py:360-432 | a parked original, with a whole or torn current record, is completed or put back |
| UpdaterRecovery.KeepingRecovers | scripts/agent-updater.py:393-432 | a half-recorded switch is completed iff the target is up, and otherwise refused unchanged |
| Updater.NoEnvironmentIsEverLost | scripts/agent-updater.py:324-588 | over any number of rollbacks and recoveries, each cut or failing anywhere, exactly two of the three slots are occupied and hold the two environments the device started with |
| Updater.RollbackKeepsEnvironments | scripts/agent-updater.py:524-588 | one rollback loses no environment, wherever it is cut or raises |
| Updater.RecoverKeepsEnvironments | scripts/agent-updater.py:360-432 | one recovery loses no environment, wherever it is cut or raises |
| Updater.RestoreKeepsEnvironments | scripts/agent-updater.py:324-357 | restoring loses no environment as long as a parked one is marked |
| UpdaterFailures.AnswersUnderErrors | scripts/agent-updater.py:524-588 | whatever calls raise, without a power cut: a rollback answers FAILED only with the environment in place checked and found healthy and the marker gone, ROLLBACK_FAILED only if that check failed, and then keeps the marker |
| UpdaterFailures.EarlyErrorChangesNothing | scripts/agent-updater.py:551-588 | an error in any call up to the first rename leaves the device as it was; the answer is interrupted_switch iff the original is then healthy and the marker can be removed, and ROLLBACK_FAILED iff it is not |
| UpdaterFailures.OneErrorRollback | scripts/agent-updater.py:551-588 | exactly one call raises and both releases are healthy: for every call, where the device ends and what is answered; restored up to the rename that keeps the old environment, half recorded at the next, switched over yet reported FAILED after that |
| UpdaterFailures.AbandonAnswers | scripts/agent-updater.py:571-587 | giving a switch up blames the target iff the restore brought the original up |
| UpdaterFailures.RecoveryAnswers | scripts/agent-updater.py:360-432 | whatever raises or is cut: a recovery answers succeeded only with the target found healthy, rolled back only with the environment in place found healthy, both with the marker gone, and a refused one keeps the marker |
| UpdaterVerdicts.RerunVerdict | scripts/agent-updater.py:624-666 | when a rollback whose result was not stored is started again, a result comes out except in the undecided windows, and it is true of the device iff the first rollback had not completed the switch |
| UpdaterVerdicts.UninterruptedRollback | scripts/agent-updater.py:524-588 | a rollback in which nothing is cut or raises ends switched over with the operator's result iff the target is healthy at its check, and otherwise restored with the health-check failure |
| UpdaterVerdicts.CompletedRollbackIsMisreported | scripts/agent-updater.py:624-666 | the false result is reached: after every such rollback to a healthy target whose result was not stored, the next invocation reports FAILED while the device runs the target |
| UpdaterVerdicts.RepeatedRollbackIsRefused | scripts/agent-updater.py:532-540 | after a completed switch the same rollback asked for again reports FAILED and changes nothing |
| UpdaterVerdicts.RollbackNeverCut | scripts/agent-updater.py:524-588 | without a power cut every rollback ends with an answer or an exception |
| VersionRecord.RenderedFields | scripts/lib/skybeat_agent_install.sh:100-110 | a version record reads back the version and digest it was written with |
| VersionRecord.TornFields | scripts/agent-updater.py:236-241 | a torn record shows a prefix of the digest, and only together with the whole version |
| VersionRecord.RenderedParses | scripts/agent-updater.py:532 | every line of a written record splits at its first '=' |
| UpdaterService.AgentUpdater.Perform | scripts/agent-updater.py:336-346 | one completed call changes the files in place as its effect says, or raises |
| UpdaterService.AgentUpdater.RestoreCandidate | scripts/agent-updater.py:324-357 | the method does what the specification of restoring says, cuts and errors included |
| UpdaterService.AgentUpdater.RecoverInstall | scripts/agent-updater.py:360-432 | the method does what the specification of recovery says, cuts and errors included |
| UpdaterService.AgentUpdater.RollbackTo | scripts/agent-updater.py:524-588 | the method does what the specification of a rollback says, cuts and errors included |
| LifecycleRequests.UpgradeAnswers | server/app/lifecycle/service.py:146-199 | an upgrade is created iff the release is readable, no operation is under way, this very upgrade has not completed, and the installed version is at least 1.0.4 and below the target; what is answered in every other case |
| LifecycleRequests.ParsedIffSpelled | server/app/lifecycle/service.py:50-54 | a version is parsed iff it is three decimal numerals with dots between them, and as the numbers they stand for |
| LifecycleRequests.WrittenVersionsParse | server/app/lifecycle/service.py:50-54 | parsing a written version gives back its three numbers |
| LifecycleRequests.RollbackAnswers | server/app/lifecycle/service.py:201-237 | a rollback is created iff the slot holds an upgrade that left a known previous release and the device reports the upgraded version; it aims at that release |
| LifecycleRequests.ReportAnswers | server/app/lifecycle/service.py:277-368 | a report is accepted iff it makes sense, names the operation in the slot, and repeats its record or moves it on; what the row and the trail take over from it |
| Lifecycle.ActiveIsNeverReplaced | server/app/lifecycle/service.py:146-237 | over any run from the empty table: an operation in a slot is later still there with its pinned target and no earlier in its progress, with one ending on record iff it is terminal, or it has ended with exactly one |
| Lifecycle.RollbackInvertsAnUpgrade | server/app/lifecycle/service.py:201-237 | over any run a rollback in a slot exactly inverts the version and digest pair of a succeeded upgrade of the same device |
| Lifecycle.RunKeepsEverything | server/app/lifecycle/service.py:146-368 | any run keeps rows, rollbacks and audit trail valid, and every row survives in its slot or among the finished ones |
| Lifecycle.RequestUpgradeKeepsValid | server/app/lifecycle/service.py:146-199 | an upgrade request keeps the slot table valid and only replaces a finished operation |
| Lifecycle.RequestRollbackKeepsValid | server/app/lifecycle/service.py:201-237 | a rollback request keeps the slot table valid and inverts the operation it replaces |
| Lifecycle.ReportKeepsValid | server/app/lifecycle/service.py:277-368 | a device report keeps the slot table valid, whatever it says |
| Lifecycle.AdvanceIsForward | server/app/lifecycle/service.py:329-364 | an accepted change of state is a step forward of an operation that had not ended, and keeps what was pinned |
| LifecycleService.AgentLifecycleService.RequestUpgrade | server/app/lifecycle/service.py:146-199 | the method changes the slots as the specification says, with the same answers and errors |
| LifecycleService.AgentLifecycleService.RequestRollback | server/app/lifecycle/service.py:201-237 | the method changes the slots as the specification says, with the same answers and errors |
| LifecycleService.AgentLifecycleService.DeviceReport | server/app/lifecycle/service.py:277-368 | the method changes the slots as the specification says, with the same answers and errors |
| LifecycleReports.FinalsAreDelivered | scripts/agent-updater.py:624-691 | whatever happens at the server in between, the final of a fetched operation is accepted iff the version records on the device suffice; after that every redelivery to the same operation is accepted and changes nothing |
| LifecycleReports.DigestedIffRecordsSuffice | scripts/agent-updater.py:435-521 | for each way to build a final: it carries its digest iff the version record it reads it from does, where it needs one |
| LifecycleReports.RollbackFinalsNeedNoDigest | scripts/agent-updater.py:524-588 | every final of a rollback is accepted whatever the version records carry |
| LifecycleReports.WrittenRecordsSuffice | scripts/lib/skybeat_agent_install.sh:100-110 | version records written by the installer suffice for every final |
| LifecycleReports.EmptyRecordMakesAnUndigestedFinal | scripts/agent-updater.py:435-521 | over an empty version record a successful upgrade, at once or found after a power loss, builds a final that announces a rollback without a digest |
| LifecycleReports.FinalsAreTaken | scripts/agent-updater.py:435-588 | every final the updater can build is terminal, well formed iff it carries its digest, and never objected to by an active operation of its action |
| LifecycleReports.RollbackOutcomes | scripts/agent-updater.py:524-588 | every failure a rollback reports has a known category and detail, and they match |
| LifecycleReports.UpgradeFinalSays | scripts/agent-updater.py:435-521 | which final each course of an upgrade ends with: the first thing that goes wrong decides, and a success offers the previous release exactly where there is one to offer |
| LifecycleReports.NamesAreRead | server/app/lifecycle/service.py:26-48 | a failure category or detail is read as exactly the one that is written so |
| LifecycleReports.UpgradeFinals | scripts/agent-updater.py:435-521 | every final of an upgrade passes the report checks iff it carries its digest |
| LifecycleReports.RecoveryFinals | scripts/agent-updater.py:629-658 | every final built after a recovery passes the report checks iff it carries its digest |
| LifecycleReports.UndigestedIsNeverAccepted | server/app/lifecycle/service.py:302-313 | where the version records do not suffice, the final is refused, unchanged, in every state of the server |
| LogAnswers.NewLinesAreInserted | server/app/logs/service.py:228-252 | an upload inserts exactly its new lines, in order, under the next ids, each with its own columns |
| LogAnswers.UploadNotesItsSource | server/app/logs/service.py:254-264 | an accepted upload notes the status of its own source and no other |
| LogAnswers.PruneAnswers | server/app/logs/service.py:165-200 | pruning is refused iff the retention is not 1 to 365 days, and answers how many rows it deleted, at most 500 of each table; fewer only if none is left that is too old |
| LogAnswers.OldestEntriesGoFirst | server/app/logs/service.py:174-182 | a batch deletes only entries that are too old, and leaves none that is too old and older |
| LogAnswers.OldestSourcesGoFirst | server/app/logs/service.py:183-199 | and only sources last checked too long ago, the longest ago first, then by device and by name |
| LogAnswers.PageAnswers | server/app/logs/service.py:290-381 | the three refusals of a page, and otherwise exactly which rows it holds: device, source, window, time basis and text, in the direction of reading, beyond the cursor, and nothing left out before a full page |
| LogAnswers.CursorTakenIff | server/app/logs/service.py:111-153 | a cursor is taken iff it is what the query would encode for a valid row id, up to how its version number is written |
| LogRuns.StoreRefinesJournal | server/app/logs/service.py:170-288 | over any run of uploads and pruning each device and source holds a suffix of all it ever accepted, at most 500 rows; of the newest 500 only rows older than the latest pruning cutoff are missing; no hash is stored twice for a device |
| LogRuns.NewestOfEverything | server/app/logs/service.py:266-282 | without pruning the store is exactly the newest 500 of everything accepted |
| LogRuns.AcceptedSlices | server/app/logs/service.py:216-282 | one upload leaves its slice with the newest 500 of the stored rows followed by the unseen lines in order, and every other slice as it was |
| LogRuns.AcceptedCounts | server/app/logs/service.py:283-288 | accepted is the number of different hashes not stored before, and accepted plus duplicates is the number of lines |
| LogRuns.RefusedIffNewLineIsUntimely | server/app/logs/service.py:213-252 | an upload within the rate is refused iff one of its lines is outside the time window, has a hash not stored for the device and is the first of its hash in the upload, so repeats are never too old; a refused upload stores nothing |
| LogPruning.PruningKeepsUp | server/app/logs/service.py:170-200 | in any run, uploads between the batches and the clock and retention period changing: each batch whose cutoff is not before a given instant deletes 500 of the rows older than it, entries and sources alike, until none is left, and none comes back |
| LogPruning.NothingOutlivesItsRetention | server/app/logs/service.py:170-200 | with enough such batches in a run no entry older than the instant remains |
| LogPruning.RepeatedPruningDeletesExactlyTheExpired | server/app/logs/service.py:170-200 | with one clock reading, in any store, repeated batches reach exactly the unexpired rows iff there were enough of them |
| LogRuns.PrunedSlices | server/app/logs/service.py:170-180 | with the clock in order a batch removes a prefix of every slice, all of it expired |
| LogRuns.AcceptKeepsValid | server/app/logs/service.py:208-288 | uploads keep ids, hashes, times and the bound of 500 in order |
| LogStore.TrimKeepsNewest | server/app/logs/service.py:266-282 | deleting below the 500th newest id keeps exactly the newest 500 of the slice and all other rows |
| LogStore.UnseenLines | server/app/logs/service.py:229-234 | the lines picked from an upload are exactly the hashes not seen before, each once |
| Retention.PurgeDeletesOnlyExpired | server/app/logs/service.py:175-182 | one batch deletes as many expired rows as it may, and no other row |
| Retention.PurgeDropsAPrefix | server/app/logs/service.py:175-182 | in a table kept in key order a batch is a prefix of the table |
| Retention.EarliestIsFirst | server/app/logs/service.py:176-180 | the next row of a batch is expired and no expired row precedes it in the key order |
| LogService.LogWatchService.Accept | server/app/logs/service.py:208-288 | the method changes the tables as the specification of an upload says |
| LogService.LogWatchService.Pick | server/app/logs/service.py:228-252 | the loop with its growing set of seen hashes picks the unseen lines, or finds one that is not timely |
| LogService.LogRetentionService.PruneExpired | server/app/logs/service.py:170-200 | the method changes the tables as the specification of pruning says |
| LogPaging.BrowsingIsConsistent | server/app/logs/service.py:290-381 | following cursors while uploads, trimming and pruning go on: no cursor is refused, ids go strictly in the chosen direction, every row returned matches, every matching row present throughout comes exactly once, and from the newest down the walk stays within the first page's table and ends |
| LogPaging.CursorFitsOnlyItsQuery | server/app/logs/service.py:82-153 | a cursor decodes under exactly the query parameters it was made with, and to its id |
| LogPaging.BrowseIsWalk | server/app/logs/service.py:352-367 | reading with the returned cursors is the keyset walk over the tables |
| LogPaging.RunFollows | server/app/logs/service.py:170-282 | between two pages rows only disappear, or appear with larger ids |
| KeysetPaging.WalkIsComplete | server/app/logs/service.py:352-367 | a walk that ended has returned every matching row that was there at each page, at exactly one place |
| IncidentPaging.IncidentListingIsASnapshot | server/app/dashboard/read.py:739-779 | listing incidents while the whole alerting system runs on between the pages: newest first, and when it ends exactly the matching incidents of the first page's table, each once; it ends as soon as its pages could hold them all |
| IncidentPaging.RunGrows | server/app/dashboard/read.py:745-762 | over any run the columns the listing orders by never change, and new incidents are opened no earlier than the clock read before |
| KeysetPaging.WalkIsInOrder | server/app/dashboard/read.py:739-776 | a walk over any sequence of tables returns rows in strict order, so none twice |
| KeysetPaging.NewestFirstWalksEnd | server/app/dashboard/read.py:739-776 | where new rows come first, a walk returns only rows of the first table and ends as soon as its pages could hold them |
| KeysetPaging.TakeIsOrderedAndLimited | server/app/logs/service.py:352-359 | a page fetch is the ordered, limited query |
| LogCatchUp.OldestFirstEndsUnlessOutpaced | server/app/logs/service.py:290-381 | reading from the oldest up while uploads and pruning go on can be unfinished after a number of pages, by some history of uploads, iff more rows have been accepted by then than those pages hold |
| LogCatchUp.SteadyUploadsKeepAReaderBehind | server/app/logs/service.py:290-381 | for every page size and number of pages: a page of new lines uploaded before each page keeps such a reader from the end |
| LogCatchUp.UnfinishedIsBehind | server/app/logs/service.py:352-367 | a reader that is not at the end is a full page behind for each page it has read |
| LogCatchUp.IdsCountAccepted | server/app/logs/service.py:239-252 | the ids handed out number the rows accepted so far |
| KeysetPaging.WalkStaysBehind | server/app/logs/service.py:352-367 | a walk has not ended while each table holds a page and one more matching row beyond where it has come |
| EnrollmentAnswers.CreateAnswers | server/app/enrollment/service.py:204-263 | an authorization is created iff its project is active or the device to replace exists, and is pending for exactly 24 h |
| EnrollmentAnswers.ExchangeIssues | server/app/enrollment/service.py:278-355 | a granted exchange uses its authorization up and hands out the newest credential of the device it names; the others of a replaced device stop within the hour |
| EnrollmentAnswers.WrongTokenIsRejected | server/app/enrollment/service.py:264-300 | an unknown authorization or a wrong token is rejected and changes nothing |
| EnrollmentAnswers.StatusMeans | server/app/enrollment/service.py:424-459 | an authorization shows as enrolled iff it was used, else as revoked iff it was withdrawn, else as pending until it expires; whether the device of a used one is online is not part of the status here |
| EnrollmentAnswers.RevokeAnswers | server/app/enrollment/service.py:499-509 | exactly a pending authorization can be withdrawn, and shows as withdrawn from then on |
| EnrollmentAnswers.DeleteAnswers | server/app/enrollment/service.py:511-524 | exactly an unused authorization can be deleted |
| EnrollmentAnswers.RevokedNeverWorks | server/app/devices/service.py:372-392 | an existing credential can be revoked, works at no instant in any later state, and no other is touched |
| EnrollmentAnswers.RotateAnswers | server/app/devices/service.py:336-370 | each refusal of a rotation holds iff its condition is the first to fail; otherwise one credential more works until its expiry and the older ones for the overlap |
| EnrollmentAnswers.EnrollAnswers | server/app/devices/service.py:228-263 | a device is enrolled iff its project is active and its expiry lies ahead, and its credential works until then |
| Enrollment.CredentialsAreBounded | server/app/devices/service.py:345-370 | over any run, at any instant from its end on: at most two active credentials, and all but the newest expire within 24 h of the newest's creation |
| Enrollment.CredentialsOnlyEnd | server/app/devices/service.py:358-392 | over any run no expiry moves back, no revocation is undone, and a credential that has stopped working never works again |
| Enrollment.OneCredentialPerIntent | server/app/enrollment/service.py:278-355 | over any run an authorization has issued one credential iff it was used, none twice, and was never both used and revoked |
| Enrollment.ExchangeNeedsPending | server/app/enrollment/service.py:278-355 | with the right token an exchange succeeds iff the authorization is pending, its target allows it and it is the expected one; the credential then works |
| Enrollment.SpentTokensAreRejected | server/app/enrollment/service.py:299-300 | a token that is no longer pending is rejected in every later state |
| Enrollment.RunKeeps | server/app/enrollment/service.py:204-524 | any run keeps devices, authorizations and issued credentials valid |
| Credentials.RotateKeepsValid | server/app/devices/service.py:336-370 | a rotation keeps the credential invariants and prolongs nothing |
| Credentials.RotationOverlaps | server/app/devices/service.py:358-362 | the new credential works at once; an older one works after the rotation iff it would have without it and the overlap is not over |
| Credentials.RotationNeedsRoom | server/app/devices/service.py:350-359 | a well-formed rotation is refused iff two credentials are active |
| Credentials.AtMostTwoActive | server/app/devices/service.py:350-362 | what the invariant says at any later instant |
| EnrollmentService.IdentityService.Rotate | server/app/devices/service.py:336-370 | the method changes the credentials as the specification says |
| EnrollmentService.IdentityService.CapActive | server/app/devices/service.py:360-362 | the loop caps exactly the active credentials |
| EnrollmentService.IdentityService.SelectActive | server/app/devices/service.py:350-357 | the selection is exactly the active credentials |
| EnrollmentService.IdentityService.Revoke | server/app/devices/service.py:372-392 | the method revokes once and leaves an earlier revocation |
| EnrollmentService.AgentEnrollmentService.CreateIntent | server/app/enrollment/service.py:204-263 | the method adds an authorization that ends in 24 h, or refuses |
| EnrollmentService.AgentEnrollmentService.Exchange | server/app/enrollment/service.py:278-355 | the method changes the tables as the specification of an exchange says |
| EnrollmentService.AgentEnrollmentService.RevokeUnused | server/app/enrollment/service.py:499-509 | the method ends an unused authorization, or refuses |
| EnrollmentService.AgentEnrollmentService.DeleteUnused | server/app/enrollment/service.py:511-524 | the method ends and hides an unused authorization, or refuses |
| RateLimiter.WindowBoundIsExact | server/app/api/heartbeats.py:48-57 | if readings are at most a skew behind earlier ones, every half-open window of a length holds at most six allowed calls iff the length is at most a minute less the skew |
| RateLimiter.SixPerMinuteIffInOrder | server/app/api/heartbeats.py:48-57 | at most six calls are allowed in every half-open minute iff no reading goes back |
| RateLimiter.CallWithinSkew | server/app/api/heartbeats.py:48-57 | a call within a skew is refused if six calls were allowed in the last minute less the skew, and only if six were allowed in the last minute and the skew |
| RateLimiter.DequeRefinesHistoryIffInOrder | server/app/api/heartbeats.py:48-57 | the purged deque answers every call as the full history would, for all readings, iff no reading goes back |
| RateLimiter.PerDeviceRateLimiter.Allow | server/app/api/heartbeats.py:48-57 | the while loop and append answer as the specification, and no other device's deque changes |
| History.SampledIsSpread | server/app/dashboard/read.py:206-212 | 240 of more samples are kept, in order, the newest among them, at strictly increasing places at most ceil(n/240) apart |
| History.Downsample | server/app/dashboard/read.py:215-289 | CPU and memory points of the kept samples; exactly the 64 most recently observed GPU series, in the order of their ids, each with its identity and all its observations in order; and a truncation flag iff there were more |
| History.SelectNewest | server/app/dashboard/read.py:258-264 | the backward scan selects the most recently observed series |
| History.GroupSeries | server/app/dashboard/read.py:266-283 | the grouping loop collects each selected series completely |
| History.IdentifiedBy | server/app/dashboard/read.py:239-248 | a GPU is identified by its UUID iff that is not empty, otherwise by its index iff that is not negative, and otherwise not at all |
| History.ObservationsAreTheIdentified | server/app/dashboard/read.py:222-257 | the collected observations are those of the identified GPUs of the samples that have a time: each exactly once, in the order of the samples and of the GPUs within them |
| History.MetricsAreTheTimedSamples | server/app/dashboard/read.py:222-237 | each sample that has a time gives exactly one point, in sample order |
| History.SeriesIdsDiffer | server/app/dashboard/read.py:240-246 | series ids identify series: none of a UUID is that of an index, and different indices have different ids |
| History.MostRecentIsUnique | server/app/dashboard/read.py:258-264 | the selection is determined: there is only one such set of series |
| History.EveryObservationHasItsPoint | server/app/dashboard/read.py:274-283 | each observation is the point of its series at its own rank |

## Left out

- HTTP routing, request parsing, sessions, OIDC, TLS, encryption at rest, SQL text, collations and isolation levels.
- `uuid4`, SHA-256, HMAC, base64 and JSON text: fresh or injective values stand for them.
- Rendering and sending of mail and SMS: a provider is an arbitrary outcome, and resolving the recipients of an
  event is a parameter of the transaction that creates it.
- The upgrade installer (`install-agent.sh` and its library, beyond the format of the version record), the marker
  phases it writes (STAGED, SWITCHED, ROLLED_BACK, ROLLBACK_FAILED), systemd, unit files and file permissions: the
  calls on unit files are steps of the updater that can be cut or raise but change nothing in the model, so a cut
  that leaves the unit file unswitched is outside the claims.
- `rmtree` of an occupied slot is one step: a partly removed tree is not modelled; `Updater.NoEnvironmentIsEverLost`
  shows that no occupied slot is ever removed on the rollback path.
- `agent-updater.py:169-220`, the parsing of a fetched operation. The server view has a field `failure_detail` that
  this parser does not list; the model starts from an operation already parsed.
- Exceptions that end an upgrade or a rollback without a final: the reports are about finals that were built.
- Names, descriptions, actors and `created_at`/`updated_at` bookkeeping, except where a
  property reads them; audit events other than lifecycle endings and intent revocations.
- Pruning of heartbeat samples and receipts.
- `list_devices`: the keyset lemmas hold for any rows, ranks and filters, and are instantiated for logs and incidents;
  the text of the incident and device cursors; `near` and `overview`, which are single queries.
- `verify_receipt`, the ONLINE refinement of the enrollment status, and `list_to_install`.
- History.SampledIsSpread: uses exact division where the code divides floats inside `ceil`; for at most 5000 samples
  the two agree.
- AlertServices.NotificationService.ProcessDue: is one worker's pass alone; what other workers do between its
  transactions is in the lemmas about runs.
- UpdaterRecovery.CutThenRecover, as well as UpdaterRepeatedCuts.CutsThenRecover: covers power cuts, not calls that raise an I/O error during the rollback, and it
  needs the original release to be healthy whenever it is in place; errors of any kind are covered by
  `Updater.NoEnvironmentIsEverLost`.
- LogPaging.BrowsingIsConsistent: needs row ids to stay within 64 bits, as the cursor check does.
- Cursor texts longer than 2048 characters, and search by substring: the comparison is an arbitrary predicate.
- Agent collectors, journald parsing, sender timing, release-bundle checks, dashboard scripts, migrations,
  configuration, user roles and the release registry.
