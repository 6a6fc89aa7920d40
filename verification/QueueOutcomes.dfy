/** What becomes of a notification: when it is due, for how long it is leased, when it is retried, and when and why it
    fails for good. The claims are about the transactions themselves, in terms of columns, outcomes and instants. */
module QueueOutcomes {
  import opened Prelude
  import opened NotificationQueue
  import opened AlertWorld
  import opened AlertInvariants
  import opened AlertRuns
  import G = GpuConfirmation
  import Services = AlertServices

  // ----- one transaction -----

  predicate Retryable(outcome: Outcome) {
    outcome == TransientFailure || outcome == Uncertain
  }

  /** The seconds between a failed attempt and the next, before jitter. */
  function Backoff(attempt: nat): int {
    match attempt
    case 1 => 30
    case 2 => 60
    case 3 => 120
    case _ => 240
  }

  lemma BackoffIsRetryBase(attempt: nat)
    requires 1 <= attempt < 5
    ensures RetryBase(attempt) == Backoff(attempt) * 1_000_000
  {
    assert Pow2(0) == 1 && Pow2(1) == 2 && Pow2(2) == 4 && Pow2(3) == 8;
  }

  /**
   * A result reported under the lease it was claimed with. A superseded delivery is cancelled. Any other succeeds iff
   * the provider accepted it, and is retried iff the failure may pass, an attempt is left and it has not expired;
   * otherwise it has failed for good. The attempt and the delivery record the answer, and the lease is given back.
   */
  lemma ReportDecides(w: World, claim: nat, r: ProviderResult, now: Time, jitter: int)
    requires Inv(w) && claim < |w.issued|
    requires w.deliveries[w.issued[claim].delivery].leaseToken == Some(claim)
    ensures var k := w.issued[claim].delivery;
            var answer := RecordResult(w, claim, r, now, jitter);
            && answer.Ok? && answer.value == w.(deliveries := w.deliveries[k := answer.value.deliveries[k]])
            && var d, e := w.deliveries[k], answer.value.deliveries[k];
               var n := d.attemptCount;
               && (e.status == Cancelled <==> d.supersededAt.Some?)
               && (e.status == Succeeded <==> d.supersededAt.None? && r.outcome == Accepted)
               && (e.status == RetryWait <==>
                     d.supersededAt.None? && Retryable(r.outcome) && n < 5 && now < d.expiresAt)
               && (e.status == Failed <==>
                     && d.supersededAt.None?
                     && (r.outcome == PermanentFailure || (Retryable(r.outcome) && (n >= 5 || d.expiresAt <= now))))
               && n in d.attempts && e.attempts == d.attempts[n :=
                    Attempt(d.attempts[n].startedAt, Some(now), Some(r.outcome), r.errorCategory, r.messageId)]
               && e.lastError == r.errorCategory && e.messageId == r.messageId
               && e.leaseToken == None && e.leaseExpiresAt == None
               && e.attemptCount == n && e.expiresAt == d.expiresAt && e.supersededAt == d.supersededAt
               && e.event == d.event && e.destination == d.destination
               && (e.status != RetryWait ==> e.nextAttemptAt == None)
  {
    ReportFindsItsAttempt(w, claim, r, now, jitter);
    assert Valid(w.deliveries[w.issued[claim].delivery]);
  }

  /** What a worker makes of its provider: a delivery whose provider is missing fails for good, one whose provider
      raised is retried like a failure that may pass, and any other goes by what the provider answered. */
  lemma ProvidersDecide(w: World, claim: nat, reply: Services.Reply, now: Time, jitter: int)
    requires Inv(w) && claim < |w.issued|
    requires w.deliveries[w.issued[claim].delivery].leaseToken == Some(claim)
    requires w.deliveries[w.issued[claim].delivery].supersededAt.None?
    ensures var k := w.issued[claim].delivery;
            var answer := RecordResult(w, claim, Services.Answer(reply), now, jitter);
            && answer.Ok?
            && var d, e := w.deliveries[k], answer.value.deliveries[k];
               match reply
               case Missing => e.status == Failed && e.lastError == Some("provider_missing")
               case Raised =>
                 && e.lastError == Some("provider_exception")
                 && (e.status == RetryWait <==> d.attemptCount < 5 && now < d.expiresAt)
                 && (e.status == RetryWait || e.status == Failed)
               case Answered(r) =>
                 && e.lastError == r.errorCategory && e.messageId == r.messageId
                 && (e.status == Succeeded <==> r.outcome == Accepted)
  {
    ReportDecides(w, claim, Services.Answer(reply), now, jitter);
    hide RecordResult;
  }

  /** A retried delivery waits 30, 60, 120 or 240 seconds and the jitter, never a negative time and never more than
      fifteen minutes; then it can be claimed until it expires. */
  lemma RetryIsDue(w: World, claim: nat, r: ProviderResult, now: Time, jitter: int, t: Time)
    requires Inv(w) && claim < |w.issued|
    requires w.deliveries[w.issued[claim].delivery].leaseToken == Some(claim)
    requires RecordResult(w, claim, r, now, jitter).value.deliveries[w.issued[claim].delivery].status == RetryWait
    ensures var k := w.issued[claim].delivery;
            var d, e := w.deliveries[k], RecordResult(w, claim, r, now, jitter).value.deliveries[k];
            var wait := Backoff(d.attemptCount) * 1_000_000 + jitter;
            Due(e, t) <==> now + (if wait < 0 then 0 else if wait > 900_000_000 then 900_000_000 else wait) <= t < d.expiresAt
  {
    ReportDecides(w, claim, r, now, jitter);
    assert Valid(w.deliveries[w.issued[claim].delivery]);
    BackoffIsRetryBase(w.deliveries[w.issued[claim].delivery].attemptCount);
    hide RetryBase;
  }

  /**
   * Recovery takes back exactly the claimed deliveries whose lease has lapsed and that nobody holds. A superseded one
   * is cancelled; any other can be claimed again at once if an attempt is left and it has not expired, and has failed
   * for good otherwise. Its attempt ends as uncertain.
   */
  lemma RecoveryDecides(w: World, now: Time, locked: set<nat>, k: nat)
    requires Inv(w) && k < |w.deliveries|
    ensures var v := RecoverStuck(w, now, locked);
            && |v.deliveries| == |w.deliveries| && v == w.(deliveries := v.deliveries)
            && var d, e := w.deliveries[k], v.deliveries[k];
               var n := d.attemptCount;
               if k in locked || d.status != InProgress || d.leaseExpiresAt.value > now then e == d
               else
                 && (e.status == Cancelled <==> d.supersededAt.Some?)
                 && (e.status == RetryWait <==> d.supersededAt.None? && n < 5 && now < d.expiresAt)
                 && (e.status == Failed <==> d.supersededAt.None? && (n >= 5 || d.expiresAt <= now))
                 && e.nextAttemptAt == (if e.status == RetryWait then Some(now) else None)
                 && n in d.attempts && e.attempts == d.attempts[n :=
                      Attempt(d.attempts[n].startedAt, Some(now), Some(Uncertain), Some("worker_crash"), d.attempts[n].messageId)]
                 && e.lastError == Some("worker_crash") && e.leaseToken == None && e.leaseExpiresAt == None
                 && e.attemptCount == n && e.expiresAt == d.expiresAt && e.supersededAt == d.supersededAt
  {
    assert Valid(w.deliveries[k]);
    hide Inv;
  }

  /** The expiry query fails exactly the waiting deliveries whose time is over and that nobody holds. */
  lemma ExpiryDecides(w: World, now: Time, locked: set<nat>, k: nat)
    requires k < |w.deliveries|
    ensures var v := ExpireUnclaimed(w, now, locked);
            && |v.deliveries| == |w.deliveries| && v == w.(deliveries := v.deliveries)
            && var d, e := w.deliveries[k], v.deliveries[k];
               e == if k !in locked && (d.status == Pending || d.status == RetryWait) && d.expiresAt <= now
                    then d.(status := Failed, nextAttemptAt := None, lastError := Some("delivery_expired")) else d
  {
  }

  /** The rows that can be claimed: waiting, due, not expired, and held by nobody. */
  function DueRows(ds: seq<Delivery>, now: Time, locked: set<nat>): set<nat> {
    set k: nat | k < |ds| && k !in locked && ds[k].status in {Pending, RetryWait} && ds[k].nextAttemptAt.Some?
                 && ds[k].nextAttemptAt.value <= now && now < ds[k].expiresAt
  }

  /** Row `j` is due before row `k`, or at the same time and was inserted before it. */
  predicate Sooner(ds: seq<Delivery>, j: nat, k: nat)
    requires j < |ds| && k < |ds| && ds[j].nextAttemptAt.Some? && ds[k].nextAttemptAt.Some?
  {
    var (a, b) := (ds[j].nextAttemptAt.value, ds[k].nextAttemptAt.value);
    a < b || (a == b && j < k)
  }

  /** The claim query picks as many of the rows that can be claimed as it may, the soonest of them, in that order. */
  lemma BatchIsTheSoonest(ds: seq<Delivery>, picks: seq<nat>, limit: nat, now: Time, locked: set<nat>)
    requires EarliestDue(ds, picks, limit, now, locked)
    ensures var due := DueRows(ds, now, locked);
            && |picks| == Min(limit, |due|) && (forall i :: 0 <= i < |picks| ==> picks[i] in due)
            && (forall i, j :: 0 <= i < j < |picks| ==> Sooner(ds, picks[i], picks[j]))
            && (forall i, k :: 0 <= i < |picks| && k in due && k !in picks ==> Sooner(ds, picks[i], k))
  {
    var due := DueRows(ds, now, locked);
    forall i | 0 <= i < |picks| ensures picks[i] in due {
      assert Claimable(ds, picks[i], now, locked);
    }
    forall i, j | 0 <= i < j < |picks| ensures Sooner(ds, picks[i], picks[j]) {
      assert ClaimsBefore(ds, picks[i], picks[j]);
    }
    forall i, k | 0 <= i < |picks| && k in due && k !in picks ensures Sooner(ds, picks[i], k) && |picks| == limit {
      assert Claimable(ds, k, now, locked) && ClaimsBefore(ds, picks[i], k);
    }
    var picked := Among(picks);
    DistinctSize(picks);
    SubsetSize(picked, due);
    if due <= picked {
      assert picked == due;
    } else {
      var k :| k in due && k !in picked;
      assert Claimable(ds, k, now, locked);
    }
  }

  function Among(s: seq<nat>): set<nat> {
    set k | k in s
  }

  lemma {:induction false} DistinctSize(s: seq<nat>)
    requires forall i, j :: 0 <= i < j < |s| ==> s[i] != s[j]
    ensures |Among(s)| == |s|
  {
    if s == [] {
      assert Among(s) == {};
    } else {
      var n := |s| - 1;
      var front := s[..n];
      DistinctSize(front);
      assert s == front + [s[n]];
      assert Among(s) == Among(front) + {s[n]};
    }
  }

  lemma SubsetSize(a: set<nat>, b: set<nat>)
    requires a <= b
    ensures |a| <= |b|
  {
    assert b == a + (b - a);
  }

  /** A batch claims the rows its query picks for exactly sixty seconds each, and starts their next attempts. */
  lemma ClaimsLastAMinute(w: World, picks: seq<nat>, now: Time, i: nat, t: Time)
    requires forall j :: 0 <= j < |picks| ==> picks[j] < |w.deliveries|
    requires forall j, h :: 0 <= j < h < |picks| ==> picks[j] != picks[h]
    requires i < |picks|
    ensures var d, e := w.deliveries[picks[i]], ClaimAll(w, picks, now).deliveries[picks[i]];
            && e.status == InProgress && e.attemptCount == d.attemptCount + 1
            && e.attempts == d.attempts[e.attemptCount := Attempt(now, None, None, None, None)]
            && e.leaseToken == Some(|w.issued| + i)
            && (Stuck(e, t) <==> t >= now + 60_000_000)
            && e.expiresAt == d.expiresAt && e.supersededAt == d.supersededAt && e.nextAttemptAt == d.nextAttemptAt
            && e.event == d.event && e.destination == d.destination
  {
    ClaimedRows(w, picks, now);
  }

  /** An event is written with one delivery for each destination; it can be claimed at once and for one day, and from
      then on only be given up. */
  lemma AnnouncementsLastADay(
    w: World, incident: nat, device: nat, kind: EventKind, now: Time, to: seq<string>, i: nat, t: Time)
    requires i < |to|
    ensures var v := CreateEvent(w, incident, device, kind, now, to);
            && |v.deliveries| == |w.deliveries| + |to| && v.deliveries[..|w.deliveries|] == w.deliveries
            && var e := v.deliveries[|w.deliveries| + i];
               && e.destination == to[i] && v.events[e.event] == AlertEvent(incident, device, kind, now)
               && e.status == Pending && e.attemptCount == 0 && e.attempts == map[] && e.supersededAt == None
               && (Due(e, t) <==> now <= t < now + 86_400_000_000)
               && (Lapsed(e, t) <==> t >= now + 86_400_000_000)
  {
  }

  // ----- every run -----

  /** A delivery that has failed for good has a reason that its row and the time show. */
  ghost predicate FailsRightly(d: Delivery, clock: Time) {
    d.status == Failed ==>
      && d.supersededAt.None?
      && (|| (d.attemptCount in d.attempts && d.attempts[d.attemptCount].outcome == Some(PermanentFailure))
          || d.attemptCount >= 5
          || d.expiresAt <= clock)
  }

  /** What supersession may do to a delivery: nothing, or cancel it, or mark it for later. */
  predicate Quieter(d: Delivery, e: Delivery) {
    e == d || (e.status != Failed && !Terminal(d.status))
  }

  ghost predicate QuietStep(w: World, v: World) {
    && |w.deliveries| <= |v.deliveries|
    && (forall k :: 0 <= k < |w.deliveries| ==> Quieter(w.deliveries[k], v.deliveries[k]))
    && (forall k :: |w.deliveries| <= k < |v.deliveries| ==> v.deliveries[k].status != Failed)
  }

  lemma QuietTransitive(u: World, v: World, w: World)
    requires QuietStep(u, v) && QuietStep(v, w)
    ensures QuietStep(u, w)
  {
    forall k | 0 <= k < |u.deliveries| ensures Quieter(u.deliveries[k], w.deliveries[k]) {
      assert Quieter(u.deliveries[k], v.deliveries[k]) && Quieter(v.deliveries[k], w.deliveries[k]);
    }
    forall k | |u.deliveries| <= k < |w.deliveries| ensures w.deliveries[k].status != Failed {
      if k < |v.deliveries| {
        assert Quieter(v.deliveries[k], w.deliveries[k]);
      }
    }
  }

  lemma SupersedingIsQuiet(w: World, s: Selection, now: Time)
    ensures QuietStep(w, SupersedeAll(w, s, now))
  {
    forall k | 0 <= k < |w.deliveries| ensures Quieter(w.deliveries[k], SupersedeAll(w, s, now).deliveries[k]) {
      var d := w.deliveries[k];
      assert SupersedeAll(w, s, now).deliveries[k] == SupersededIf(w, s, now, d);
    }
  }

  lemma AnnouncingIsQuiet(w: World, incident: nat, device: nat, kind: EventKind, now: Time, to: seq<string>)
    ensures QuietStep(w, CreateEvent(w, incident, device, kind, now, to))
  {
    var v := CreateEvent(w, incident, device, kind, now, to);
    forall k | |w.deliveries| <= k < |v.deliveries| ensures v.deliveries[k].status != Failed {
      assert v.deliveries[k] == NewDelivery(|w.events|, to[k - |w.deliveries|], now);
    }
  }

  lemma OpeningIsQuiet(w: World, d: nat, kind: Kind, reason: Reason, now: Time, to: seq<string>)
    ensures QuietStep(w, EnsureOpen(w, d, kind, reason, now, to))
  {
    var opening := w.(incidents := w.incidents + [Incident(d, kind, now, None, None, Some(reason))]);
    AnnouncingIsQuiet(opening, |w.incidents|, d, Opening(kind), now, to);
    hide CreateEvent, FindOpen;
  }

  lemma ClosingIsQuiet(w: World, i: nat, why: CloseReason, now: Time, to: seq<string>)
    requires i < |w.incidents|
    ensures QuietStep(w, CloseIncident(w, i, why, now, to))
  {
    hide Supersessions, NewDeliveries, QuietStep;
    var closed := Closed(w, i, why, now);
    var superseded := SupersedeAll(closed, OpeningOf(i), now);
    SupersedingIsQuiet(closed, OpeningOf(i), now);
    AnnouncingIsQuiet(superseded, i, w.incidents[i].device, Closing(w.incidents[i].kind), now, to);
    SameQueueIsQuiet(w, closed);
    QuietTransitive(w, closed, superseded);
    QuietTransitive(w, superseded, CloseIncident(w, i, why, now, to));
  }

  lemma SameQueueIsQuiet(w: World, v: World)
    requires v.deliveries == w.deliveries
    ensures QuietStep(w, v)
  {
  }

  lemma OfflineIsQuiet(w: World, d: nat, now: Time, route: Route)
    requires d in w.devices
    ensures QuietStep(w, MarkOffline(w, d, now, route))
  {
    hide QuietStep, EnsureOpen, SupersedeAll;
    var marked := SetDevice(w, d, w.devices[d].(availability := Offline));
    var announced := EnsureOpen(marked, d, AvailabilityKind, HeartbeatTimeout, now, route.For(DeviceOffline));
    SameQueueIsQuiet(w, marked);
    OpeningIsQuiet(marked, d, AvailabilityKind, HeartbeatTimeout, now, route.For(DeviceOffline));
    OpeningKeepsDevices(marked, d, AvailabilityKind, HeartbeatTimeout, now, route.For(DeviceOffline));
    var reset := SetDevice(announced, d, announced.devices[d].(gpu := G.ResetStreaks(announced.devices[d].gpu)));
    SameQueueIsQuiet(announced, reset);
    SupersedingIsQuiet(reset, DegradationsOf(d), now);
    QuietTransitive(w, marked, announced);
    QuietTransitive(w, announced, reset);
    QuietTransitive(w, reset, MarkOffline(w, d, now, route));
  }

  lemma OpeningKeepsDevices(w: World, d: nat, kind: Kind, reason: Reason, now: Time, to: seq<string>)
    ensures EnsureOpen(w, d, kind, reason, now, to).devices == w.devices
  {
  }

  lemma RecoveryIsQuiet(w: World, d: nat, now: Time, route: Route)
    requires d in w.devices
    ensures QuietStep(w, CloseForRecovery(w, d, now, route))
  {
    hide QuietStep, CloseIncident, FindOpen;
    var active := ActiveIncident(w, d, AvailabilityKind);
    var v := CloseForRecovery(w, d, now, route);
    if active.None? {
      SameQueueIsQuiet(w, v);
    } else {
      ClosingIsQuiet(w, active.value, HeartbeatReceived, now, route.For(DeviceRecovered));
      var closed := CloseIncident(w, active.value, HeartbeatReceived, now, route.For(DeviceRecovered));
      SameQueueIsQuiet(closed, v);
      QuietTransitive(w, closed, v);
    }
  }

  lemma GpuIsQuiet(w: World, d: nat, o: G.Observation, now: Time, route: Route)
    requires d in w.devices
    ensures QuietStep(w, AcceptGpu(w, d, o, now, route))
  {
    hide QuietStep, CloseIncident, EnsureOpen, FindOpen, G.Evaluate;
    var u, v := Checked(w, d, o, now), AcceptGpu(w, d, o, now, route);
    var row := w.devices[d];
    var event := G.Evaluate(row.gpu, o, row.gpuPolicy, now, row.gpuEnabled && row.availability != Offline).1;
    SameQueueIsQuiet(w, u);
    match event {
      case Degraded => OpeningIsQuiet(u, d, GpuKind, GpuReason(u.devices[d].gpu.state), now, route.For(GpuDegraded));
      case Recovered =>
        var active := ActiveIncident(u, d, GpuKind);
        if active.Some? {
          ClosingIsQuiet(u, active.value, ConfirmedOk, now, route.For(GpuRecovered));
        } else {
          SameQueueIsQuiet(u, v);
        }
      case NoEvent => SameQueueIsQuiet(u, v);
    }
    QuietTransitive(w, u, v);
  }

  lemma OfflineKeepsDevice(w: World, d: nat, now: Time, route: Route)
    requires d in w.devices
    ensures d in MarkOffline(w, d, now, route).devices
  {
    hide EnsureOpen, Supersessions;
    OpeningKeepsDevices(SetDevice(w, d, w.devices[d].(availability := Offline)), d, AvailabilityKind, HeartbeatTimeout,
                        now, route.For(DeviceOffline));
  }

  lemma RecoveryKeepsDevice(w: World, d: nat, now: Time, route: Route)
    requires d in w.devices
    ensures d in CloseForRecovery(w, d, now, route).devices
  {
    hide Supersessions, FindOpen;
  }

  lemma HeartbeatIsQuiet(w: World, t: Thresholds, d: nat, o: G.Observation, now: Time, route: Route)
    requires d in w.devices
    ensures QuietStep(w, AcceptHeartbeat(w, t, d, o, now, route))
  {
    hide QuietStep, MarkOffline, CloseForRecovery, AcceptGpu;
    OfflineKeepsDevice(w, d, now, route);
    var overdue := AvailabilityAt(Baseline(w.devices[d]), now, t) == Offline;
    var reconciled := if overdue then MarkOffline(w, d, now, route) else w;
    OfflineIsQuiet(w, d, now, route);
    SameQueueIsQuiet(w, w);
    var seen := SetDevice(reconciled, d, reconciled.devices[d].(lastSeenAt := Some(now)));
    SameQueueIsQuiet(reconciled, seen);
    QuietTransitive(w, reconciled, seen);
    RecoveryKeepsDevice(seen, d, now, route);
    var available := AcceptAvailability(w, t, d, now, route);
    if seen.devices[d].availability == Offline {
      RecoveryIsQuiet(seen, d, now, route);
    } else {
      SameQueueIsQuiet(seen, available);
    }
    QuietTransitive(w, seen, available);
    GpuIsQuiet(available, d, o, now, route);
    QuietTransitive(w, available, AcceptHeartbeat(w, t, d, o, now, route));
  }

  lemma ClaimingFailsNothing(w: World, t: Timed, clock: Time, k: nat)
    requires Inv(w) && Enabled(w, t) && t.txn.Claims? && t.now <= clock
    requires k < |w.deliveries| && FailsRightly(w.deliveries[k], clock)
    ensures var v := ClaimAll(ExpireUnclaimed(w, t.now, t.txn.expiryLocked), t.txn.picks, t.now);
            |v.deliveries| == |w.deliveries| && FailsRightly(v.deliveries[k], clock)
  {
    var expired := ExpireUnclaimed(w, t.now, t.txn.expiryLocked);
    var picks := t.txn.picks;
    assert Valid(w.deliveries[k]);
    ExpiryDecides(w, t.now, t.txn.expiryLocked, k);
    PicksDiffer(expired.deliveries, picks, t.txn.limit, t.now, t.txn.locked);
    ClaimedRows(expired, picks, t.now);
    hide EarliestDue, ClaimAll;
    if k in picks {
      var i :| 0 <= i < |picks| && picks[i] == k;
    }
  }

  lemma PicksDiffer(ds: seq<Delivery>, picks: seq<nat>, limit: nat, now: Time, locked: set<nat>)
    requires EarliestDue(ds, picks, limit, now, locked)
    ensures forall i :: 0 <= i < |picks| ==> picks[i] < |ds|
    ensures forall i, j :: 0 <= i < j < |picks| ==> picks[i] != picks[j]
  {
    forall i | 0 <= i < |picks| ensures picks[i] < |ds| {
      assert Claimable(ds, picks[i], now, locked);
    }
    forall i, j | 0 <= i < j < |picks| ensures picks[i] != picks[j] {
      assert ClaimsBefore(ds, picks[i], picks[j]);
    }
  }

  lemma ReportFailsRightly(w: World, claim: nat, r: ProviderResult, now: Time, jitter: int, clock: Time, k: nat)
    requires Inv(w) && claim < |w.issued| && now <= clock && k < |w.deliveries| && FailsRightly(w.deliveries[k], clock)
    ensures var answer := RecordResult(w, claim, r, now, jitter);
            answer.Ok? && k < |answer.value.deliveries| && FailsRightly(answer.value.deliveries[k], clock)
  {
    hide Finish;
    ReportFindsItsAttempt(w, claim, r, now, jitter);
    if w.deliveries[w.issued[claim].delivery].leaseToken == Some(claim) {
      ReportDecides(w, claim, r, now, jitter);
    } else {
      StaleReportChangesNothing(w, claim, r, now, jitter);
    }
  }

  /** No transaction makes a delivery fail without a reason. */
  lemma StepFailsRightly(w: World, t: Thresholds, step: Timed, clock: Time, k: nat)
    requires Inv(w) && Enabled(w, step) && step.now <= clock
    requires k < |w.deliveries| ==> FailsRightly(w.deliveries[k], clock)
    requires k < |Apply(w, t, step).deliveries|
    ensures FailsRightly(Apply(w, t, step).deliveries[k], clock)
  {
    hide AcceptHeartbeat, MarkOffline, Supersessions, EarliestDue, Finish;
    var v := Apply(w, t, step);
    match step.txn {
      case Sweep(d, route) =>
        if d in w.devices {
          OfflineIsQuiet(w, d, step.now, route);
        }
        assert QuietStep(w, v);
      case Beat(d, o, route) => HeartbeatIsQuiet(w, t, d, o, step.now, route);
      case Claims(picks, _, _, _) => ClaimingFailsNothing(w, step, clock, k);
      case Report(claim, r, jitter) => ReportFailsRightly(w, claim, r, step.now, jitter, clock, k);
      case Reclaim(locked) => RecoveryDecides(w, step.now, locked, k);
      case _ =>
    }
  }

  /**
   * After any run a delivery that has failed for good was not superseded, and its provider refused it for good, or its
   * five attempts are used up, or a day has passed by the latest reading of the clock.
   */
  lemma {:induction false} FailedForAReason(w: World, t: Thresholds, run: seq<Timed>, clock: Time, k: nat)
    requires Inv(w) && ValidRun(w, t, run) && forall i :: 0 <= i < |run| ==> run[i].now <= clock
    requires k < |w.deliveries| ==> FailsRightly(w.deliveries[k], clock)
    requires k < |Run(w, t, run).deliveries|
    ensures FailsRightly(Run(w, t, run).deliveries[k], clock)
    decreases |run|
  {
    hide Inv, Apply, FailsRightly;
    if run != [] {
      var next := Apply(w, t, run[0]);
      TxnKeepsInv(w, t, run[0]);
      if k < |next.deliveries| {
        StepFailsRightly(w, t, run[0], clock, k);
      }
      FailedForAReason(next, t, run[1..], clock, k);
    }
  }

  // ----- one worker pass -----

  /** What a delivery of a pass is left as, by what became of its message. */
  predicate SettledAs(e: Delivery, reply: Services.Reply, expired: bool) {
    match reply
    case Missing => e.status == Failed
    case Raised => e.status == if e.attemptCount < 5 && !expired then RetryWait else Failed
    case Answered(r) =>
      match r.outcome
      case Accepted => e.status == Succeeded
      case PermanentFailure => e.status == Failed
      case _ => e.status == if e.attemptCount < 5 && !expired then RetryWait else Failed
  }

  /** Delivery `k` is being sent under the lease of `claim`, and was not superseded. */
  predicate Sending(w: World, claim: nat, k: nat) {
    && claim < |w.issued| && k < |w.deliveries| && w.issued[claim].delivery == k
    && w.deliveries[k].leaseToken == Some(claim) && w.deliveries[k].supersededAt.None?
  }

  /** One report settles its own delivery and leaves the others as they are. */
  lemma ReportSettles(w: World, claim: nat, k: nat, reply: Services.Reply, now: Time, jitter: int)
    requires Inv(w) && Sending(w, claim, k)
    ensures var answer := RecordResult(w, claim, Services.Answer(reply), now, jitter);
            && answer.Ok? && answer.value == w.(deliveries := w.deliveries[k := answer.value.deliveries[k]])
            && SettledAs(answer.value.deliveries[k], reply, w.deliveries[k].expiresAt <= now)
            && answer.value.deliveries[k].expiresAt == w.deliveries[k].expiresAt
  {
    ReportDecides(w, claim, Services.Answer(reply), now, jitter);
    hide RecordResult, Inv;
  }

  /** The last claims of `w` are those of `picks`, all being sent. */
  ghost predicate AllSending(w: World, picks: seq<nat>) {
    && |picks| <= |w.issued|
    && (forall i :: 0 <= i < |picks| ==> Sending(w, |w.issued| - |picks| + i, picks[i]))
    && (forall i, j :: 0 <= i < j < |picks| ==> picks[i] != picks[j])
  }

  /** Between `w` and `v` the first `n` of `picks` were settled by their replies, and nothing else was done. */
  ghost predicate Settled(
    w: World, v: World, picks: seq<nat>, n: nat, reply: nat -> Services.Reply, clock: nat -> Time)
  {
    && v == w.(deliveries := v.deliveries) && |v.deliveries| == |w.deliveries|
    && (forall i :: 0 <= i < n && i < |picks| && picks[i] < |w.deliveries| ==>
          SettledAs(v.deliveries[picks[i]], reply(i), w.deliveries[picks[i]].expiresAt <= clock(2 + i)))
    && (forall k :: 0 <= k < |w.deliveries| && k !in picks[..Min(n, |picks|)] ==> v.deliveries[k] == w.deliveries[k])
  }

  lemma OneMoreSettled(
    w: World, u: World, v: World, picks: seq<nat>, m: nat, reply: nat -> Services.Reply, clock: nat -> Time)
    requires m < |picks| && AllSending(w, picks) && Settled(w, u, picks, m, reply, clock)
    requires picks[m] < |u.deliveries| && |v.deliveries| == |u.deliveries|
    requires v == u.(deliveries := u.deliveries[picks[m] := v.deliveries[picks[m]]])
    requires SettledAs(v.deliveries[picks[m]], reply(m), u.deliveries[picks[m]].expiresAt <= clock(2 + m))
    ensures Settled(w, v, picks, m + 1, reply, clock)
  {
    hide SettledAs;
    assert picks[..m + 1] == picks[..m] + [picks[m]];
    assert picks[m] !in picks[..m];
  }

  lemma StillSending(w: World, u: World, picks: seq<nat>, m: nat, reply: nat -> Services.Reply, clock: nat -> Time)
    requires m < |picks| && AllSending(w, picks) && Settled(w, u, picks, m, reply, clock)
    ensures Sending(u, |w.issued| - |picks| + m, picks[m])
  {
    hide SettledAs;
    assert picks[m] !in picks[..m];
  }

  /** A run of reports that has settled the first `n` of `picks`. */
  ghost predicate Settling(
    w: World, t: Thresholds, reports: seq<Timed>, picks: seq<nat>, n: nat, reply: nat -> Services.Reply, clock: nat -> Time)
  {
    && ValidRun(w, t, reports) && Inv(Run(w, t, reports))
    && Settled(w, Run(w, t, reports), picks, n, reply, clock)
  }

  lemma ReportsGrow(
    first: nat, n: nat, reply: nat -> Services.Reply, clock: nat -> Time, jitter: nat -> int)
    ensures Services.Reports(first, 0, reply, clock, jitter) == []
    ensures n > 0 ==>
      var m := n - 1;
      var last := Timed(clock(2 + m), Report(first + m, Services.Answer(reply(m)), jitter(m)));
      Services.Reports(first, n, reply, clock, jitter) == Services.Reports(first, m, reply, clock, jitter) + [last]
  {
  }

  /** The reports of a batch settle each of its deliveries by its own reply. */
  lemma {:induction false} ReportsSettle(
    w: World, t: Thresholds, picks: seq<nat>, first: nat, n: nat, reply: nat -> Services.Reply, clock: nat -> Time,
    jitter: nat -> int)
    requires Inv(w) && AllSending(w, picks) && n <= |picks| && first + |picks| == |w.issued|
    ensures Settling(w, t, Services.Reports(first, n, reply, clock, jitter), picks, n, reply, clock)
    decreases n
  {
    hide *;
    ReportsGrow(first, n, reply, clock, jitter);
    if n == 0 {
      NothingSettled(w, t, picks, reply, clock);
    } else {
      ReportsSettle(w, t, picks, first, n - 1, reply, clock, jitter);
      OneReport(w, t, Services.Reports(first, n - 1, reply, clock, jitter), picks, n - 1, reply, clock, jitter);
      assert |w.issued| - |picks| + (n - 1) == first + (n - 1);
    }
  }

  lemma OneReport(w: World, t: Thresholds, reports: seq<Timed>, picks: seq<nat>, m: nat, reply: nat -> Services.Reply,
                  clock: nat -> Time, jitter: nat -> int)
    requires AllSending(w, picks) && m < |picks| <= |w.issued| && Settling(w, t, reports, picks, m, reply, clock)
    ensures var step := Timed(clock(2 + m), Report(|w.issued| - |picks| + m, Services.Answer(reply(m)), jitter(m)));
            Settling(w, t, reports + [step], picks, m + 1, reply, clock)
  {
    hide Inv, Extends, Run, ValidRun, RecordResult, SettledAs, Settled, Sending, AllSending;
    var u, claim := Run(w, t, reports), |w.issued| - |picks| + m;
    StillSending(w, u, picks, m, reply, clock);
    SendingIsIssued(u, claim, picks[m]);
    ReportSettles(u, claim, picks[m], reply(m), clock(2 + m), jitter(m));
    var step := Timed(clock(2 + m), Report(claim, Services.Answer(reply(m)), jitter(m)));
    TxnKeepsInv(u, t, step);
    OneMoreSettled(w, u, Apply(u, t, step), picks, m, reply, clock);
    RunAppend(w, t, reports, step);
  }

  lemma SendingIsIssued(w: World, claim: nat, k: nat)
    requires Sending(w, claim, k)
    ensures claim < |w.issued| && k < |w.deliveries|
  {
  }

  lemma NothingSettled(w: World, t: Thresholds, picks: seq<nat>, reply: nat -> Services.Reply, clock: nat -> Time)
    requires Inv(w)
    ensures Settling(w, t, [], picks, 0, reply, clock)
  {
    NothingRun(w, t);
    hide Inv, Run, ValidRun;
  }

  /** The tables after the first two transactions of a pass. */
  function Ready(w: World, clock: nat -> Time, locked: nat -> set<nat>): World {
    ExpireUnclaimed(RecoverStuck(w, clock(0), locked(0)), clock(1), locked(1))
  }

  lemma PassRuns(
    w: World, t: Thresholds, picks: seq<nat>, limit: nat, reply: nat -> Services.Reply, clock: nat -> Time,
    locked: nat -> set<nat>, jitter: nat -> int)
    requires Inv(w) && 1 <= limit <= 4
    requires EarliestDue(Ready(w, clock, locked).deliveries, picks, limit, clock(1), locked(2))
    requires forall i :: 0 <= i < |picks| ==> picks[i] < |Ready(w, clock, locked).deliveries|
    requires var taken := ClaimAll(Ready(w, clock, locked), picks, clock(1));
             ValidRun(taken, t, Services.Reports(|w.issued|, |picks|, reply, clock, jitter))
    ensures var pass := Services.Pass(picks, limit, |w.issued|, reply, clock, locked, jitter);
            var taken := ClaimAll(Ready(w, clock, locked), picks, clock(1));
            && ValidRun(w, t, pass)
            && Run(w, t, pass) == Run(taken, t, Services.Reports(|w.issued|, |picks|, reply, clock, jitter))
  {
    hide Inv, Run, ValidRun, RecoverStuck, ExpireUnclaimed, EarliestDue, ClaimAll;
    var one := Timed(clock(0), Reclaim(locked(0)));
    var two := Timed(clock(1), Claims(picks, limit, locked(1), locked(2)));
    RunOfTwo(w, t, one, two, Services.Reports(|w.issued|, |picks|, reply, clock, jitter));
  }

  /**
   * A worker pass, start to end, with nobody else at work: lost leases are taken back, the soonest of the rows that can
   * then be claimed are claimed, and each of them ends as what became of its message says. Every other row is as the
   * recovery and the expiry query left it.
   */
  lemma PassSettles(
    w: World, t: Thresholds, picks: seq<nat>, limit: nat, reply: nat -> Services.Reply, clock: nat -> Time,
    locked: nat -> set<nat>, jitter: nat -> int)
    requires Inv(w) && 1 <= limit <= 4
    requires EarliestDue(Ready(w, clock, locked).deliveries, picks, limit, clock(1), locked(2))
    ensures var waiting := Ready(w, clock, locked).deliveries;
            var pass := Services.Pass(picks, limit, |w.issued|, reply, clock, locked, jitter);
            && |picks| == Min(limit, |DueRows(waiting, clock(1), locked(2))|)
            && ValidRun(w, t, pass)
            && var after := Run(w, t, pass).deliveries;
               && |after| == |waiting| == |w.deliveries|
               && (forall i :: 0 <= i < |picks| ==>
                     && picks[i] < |after|
                     && SettledAs(after[picks[i]], reply(i), waiting[picks[i]].expiresAt <= clock(2 + i)))
               && (forall k :: 0 <= k < |after| && k !in picks ==> after[k] == waiting[k])
  {
    hide Inv, Extends, Run, ValidRun, Ready, EarliestDue, SettledAs, ClaimAll, AllSending, DueRows;
    var waiting := Ready(w, clock, locked);
    BatchIsTheSoonest(waiting.deliveries, picks, limit, clock(1), locked(2));
    PicksDiffer(waiting.deliveries, picks, limit, clock(1), locked(2));
    WaitingKeepsInv(w, clock, locked);
    var taken := ClaimAll(waiting, picks, clock(1));
    ClaimedAreSending(waiting, picks, clock(1), limit, locked(2));
    ReportsSettle(taken, t, picks, |w.issued|, |picks|, reply, clock, jitter);
    assert picks[..|picks|] == picks;
    PassRuns(w, t, picks, limit, reply, clock, locked, jitter);
  }

  lemma WaitingKeepsInv(w: World, clock: nat -> Time, locked: nat -> set<nat>)
    requires Inv(w)
    ensures var v := Ready(w, clock, locked);
            Inv(v) && |v.deliveries| == |w.deliveries| && v.issued == w.issued
  {
    RecoverStuckKeepsInv(w, clock(0), locked(0));
    ExpireUnclaimedKeepsInv(RecoverStuck(w, clock(0), locked(0)), clock(1), locked(1));
    hide Inv, Extends;
  }

  lemma ClaimedAreSending(w: World, picks: seq<nat>, now: Time, limit: nat, locked: set<nat>)
    requires Inv(w) && EarliestDue(w.deliveries, picks, limit, now, locked)
    requires forall i :: 0 <= i < |picks| ==> picks[i] < |w.deliveries|
    requires forall i, j :: 0 <= i < j < |picks| ==> picks[i] != picks[j]
    ensures var v := ClaimAll(w, picks, now);
            && Inv(v) && AllSending(v, picks)
            && |v.issued| == |w.issued| + |picks| && |v.deliveries| == |w.deliveries|
            && (forall i :: 0 <= i < |picks| ==> v.deliveries[picks[i]].expiresAt == w.deliveries[picks[i]].expiresAt)
            && (forall k :: 0 <= k < |w.deliveries| && k !in picks ==> v.deliveries[k] == w.deliveries[k])
  {
    hide Inv, Extends, EarliestDue, ClaimAll, Sending, Due;
    forall i | 0 <= i < |picks| ensures Due(w.deliveries[picks[i]], now) {
      PickIsDue(w.deliveries, picks, now, limit, locked, i);
    }
    ClaimAllKeepsInv(w, picks, now);
    ClaimedRows(w, picks, now);
    IssuedInOrder(w, picks, now);
    forall i | 0 <= i < |picks|
      ensures Sending(ClaimAll(w, picks, now), |w.issued| + i, picks[i])
      ensures ClaimAll(w, picks, now).deliveries[picks[i]].expiresAt == w.deliveries[picks[i]].expiresAt
    {
      DueIsUnsuperseded(w, picks[i], now);
      ClaimSends(w, ClaimAll(w, picks, now), picks[i], |w.issued| + i, now);
    }
  }

  lemma PickIsDue(ds: seq<Delivery>, picks: seq<nat>, now: Time, limit: nat, locked: set<nat>, i: nat)
    requires EarliestDue(ds, picks, limit, now, locked) && i < |picks| && picks[i] < |ds|
    ensures Due(ds[picks[i]], now)
  {
    assert Claimable(ds, picks[i], now, locked);
  }

  lemma DueIsUnsuperseded(w: World, k: nat, now: Time)
    requires Inv(w) && k < |w.deliveries| && Due(w.deliveries[k], now)
    ensures w.deliveries[k].supersededAt.None?
  {
    assert Valid(w.deliveries[k]);
  }

  lemma ClaimSends(w: World, v: World, k: nat, claim: nat, now: Time)
    requires k < |w.deliveries| == |v.deliveries| && claim < |v.issued| && v.issued[claim].delivery == k
    requires v.deliveries[k] == Claim(w.deliveries[k], now, claim) && w.deliveries[k].supersededAt.None?
    ensures Sending(v, claim, k) && v.deliveries[k].expiresAt == w.deliveries[k].expiresAt
  {
  }

  lemma {:induction false} IssuedInOrder(w: World, picks: seq<nat>, now: Time)
    requires forall i :: 0 <= i < |picks| ==> picks[i] < |w.deliveries|
    ensures var v := ClaimAll(w, picks, now);
            && |v.issued| == |w.issued| + |picks|
            && forall i :: 0 <= i < |picks| ==> v.issued[|w.issued| + i].delivery == picks[i]
  {
    hide Claim;
    if picks != [] {
      IssuedInOrder(w, picks[..|picks| - 1], now);
    }
  }
}
