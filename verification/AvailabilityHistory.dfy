/** Recoveries depend on the heartbeats alone: however often, and whenever, the sweep runs, the
    closed availability incidents of a device are exactly its overlong heartbeat gaps. */
module AvailabilityHistory {
  import opened Prelude
  import opened NotificationQueue
  import opened AlertWorld
  import opened AlertInvariants
  import opened AlertRuns
  import G = GpuConfirmation

  predicate AvailabilityOf(i: Incident, d: nat) {
    i.device == d && i.kind == AvailabilityKind
  }

  /** When the closed availability incidents of `d` closed, oldest incident first. */
  function ClosedAt(incidents: seq<Incident>, d: nat): seq<Time> {
    if incidents == [] then []
    else
      var last := incidents[|incidents| - 1];
      ClosedAt(incidents[..|incidents| - 1], d) +
      if AvailabilityOf(last, d) && last.closedAt.Some? then [last.closedAt.value] else []
  }

  /** When the heartbeats of `d` in a run were accepted. */
  function BeatsOf(run: seq<Timed>, d: nat): seq<Time> {
    if run == [] then []
    else (if run[0].txn.Beat? && run[0].txn.device == d then [run[0].now] else []) + BeatsOf(run[1..], d)
  }

  /** The specification: a recovery ends every gap of at least the offline threshold. */
  function Recoveries(baseline: Time, beats: seq<Time>, t: Thresholds): seq<Time>
    decreases |beats|
  {
    if beats == [] then []
    else (if beats[0] - baseline >= t.offlineAfter * SECOND then [beats[0]] else []) + Recoveries(beats[0], beats[1..], t)
  }

  /** Database time never runs backwards. */
  predicate Monotone(clock: Time, run: seq<Timed>)
    decreases |run|
  {
    run == [] || (clock <= run[0].now && Monotone(run[0].now, run[1..]))
  }

  /** Monitoring of `d` is never switched on or off in the run. */
  predicate MonitoredThroughout(run: seq<Timed>, d: nat) {
    forall i :: 0 <= i < |run| ==> !(run[i].txn.Enable? && run[i].txn.device == d)
  }

  // ----- how table writes change the list of closings -----

  ghost predicate SameClosings(before: seq<Incident>, after: seq<Incident>, d: nat) {
    && |before| <= |after|
    && (forall i :: 0 <= i < |before| ==> AvailabilityOf(after[i], d) == AvailabilityOf(before[i], d))
    && (forall i :: 0 <= i < |before| && AvailabilityOf(before[i], d) ==> after[i].closedAt == before[i].closedAt)
    && (forall i :: |before| <= i < |after| && AvailabilityOf(after[i], d) ==> after[i].closedAt.None?)
  }

  lemma {:induction false} SameClosingsSameTimes(before: seq<Incident>, after: seq<Incident>, d: nat)
    requires SameClosings(before, after, d)
    ensures ClosedAt(after, d) == ClosedAt(before, d)
    decreases |after|
  {
    if after != [] {
      var n := |after| - 1;
      if |before| == |after| {
        SameClosingsSameTimes(before[..n], after[..n], d);
      } else {
        SameClosingsSameTimes(before, after[..n], d);
      }
    }
  }

  /** Closing the last availability incident of `d` adds its closing time at the end. */
  lemma {:induction false} ClosingAppends(incidents: seq<Incident>, i: nat, closed: Incident, d: nat)
    requires i < |incidents| && AvailabilityOf(incidents[i], d) && incidents[i].closedAt.None?
    requires AvailabilityOf(closed, d) && closed.closedAt.Some?
    requires forall j :: i < j < |incidents| ==> !AvailabilityOf(incidents[j], d)
    ensures ClosedAt(incidents[i := closed], d) == ClosedAt(incidents, d) + [closed.closedAt.value]
    decreases |incidents|
  {
    var n := |incidents| - 1;
    var after := incidents[i := closed];
    if i == n {
      assert after[..n] == incidents[..n];
    } else {
      assert after[..n] == incidents[..n][i := closed];
      ClosingAppends(incidents[..n], i, closed, d);
    }
  }

  /** The open availability incident of a device is its last one. */
  lemma OpenIsLast(w: World, i: nat, d: nat)
    requires OnlyLastOpen(w) && i < |w.incidents| && IsOpen(w.incidents[i], d, AvailabilityKind)
    ensures forall j :: i < j < |w.incidents| ==> !AvailabilityOf(w.incidents[j], d)
  {
  }

  /** The availability facts of device `d` a run carries along. */
  ghost predicate SameMonitoring(w: World, v: World, d: nat)
    requires d in w.devices
  {
    && d in v.devices
    && v.devices[d].enabled == w.devices[d].enabled
    && Baseline(v.devices[d]) == Baseline(w.devices[d])
  }

  /** An OFFLINE device is overdue: it was last heard at least the threshold ago. */
  ghost predicate OfflineIsOverdue(w: World, d: nat, t: Thresholds, clock: Time)
    requires d in w.devices
  {
    w.devices[d].availability == Offline ==> clock - Baseline(w.devices[d]) >= t.offlineAfter * SECOND
  }

  /**
   * A sweep visit of a monitored device grades it by the time since it was last heard, or since monitoring started if
   * it never was: OFFLINE from the offline threshold on, and otherwise SUSPECT from the suspect threshold on, except that
   * a device that is OFFLINE stays so until a heartbeat. Any other device, and an unmonitored one, is left alone.
   */
  lemma SweepGrades(w: World, t: Thresholds, d: nat, now: Time, route: Route)
    requires ValidThresholds(t)
    ensures var v := EvaluateDevice(w, t, d, now, route);
      && (d !in w.devices || !w.devices[d].enabled ==> v == w)
      && (d in w.devices && w.devices[d].enabled ==>
            var row := w.devices[d];
            var silence := now - (if row.lastSeenAt != None then row.lastSeenAt.value else row.startedAt);
            && v.devices.Keys == w.devices.Keys
            && (forall e :: e in w.devices && e != d ==> v.devices[e] == w.devices[e])
            && v.devices[d].lastSeenAt == row.lastSeenAt && v.devices[d].enabled
            && v.devices[d].availability ==
                 if silence >= t.offlineAfter * 1_000_000 || row.availability == Offline then Offline
                 else if silence >= t.suspectAfter * 1_000_000 then Suspect
                 else Online)
  {
    hide FindOpen, Supersessions, NewDeliveries;
  }

  lemma MarkOfflineClosesNothing(w: World, d: nat, e: nat, now: Time, route: Route)
    requires e in w.devices
    ensures SameClosings(w.incidents, MarkOffline(w, e, now, route).incidents, d)
  {
  }

  lemma GpuClosesNothing(w: World, d: nat, e: nat, o: G.Observation, now: Time, route: Route)
    requires e in w.devices
    ensures SameClosings(w.incidents, AcceptGpu(w, e, o, now, route).incidents, d)
    ensures d in w.devices ==> SameMonitoring(w, AcceptGpu(w, e, o, now, route), d)
    ensures d in w.devices ==> AcceptGpu(w, e, o, now, route).devices[d].availability == w.devices[d].availability
  {
    hide FindOpen, Supersessions, NewDeliveries, G.Evaluate;
  }

  lemma RecoveryClosesTheIncident(w: World, d: nat, now: Time, route: Route)
    requires Tables(w) && d in w.devices && HasOpen(w.incidents, d, AvailabilityKind)
    ensures ClosedAt(CloseForRecovery(w, d, now, route).incidents, d) == ClosedAt(w.incidents, d) + [now]
  {
    var i := ActiveIncident(w, d, AvailabilityKind).value;
    OpenIsLast(w, i, d);
    ClosingAppends(w.incidents, i, CloseForRecovery(w, d, now, route).incidents[i], d);
  }

  /** The availability part of a heartbeat closes an incident exactly when it ends a long gap. */
  lemma AvailabilityClosesOverlongGap(w: World, t: Thresholds, d: nat, now: Time, clock: Time, route: Route)
    requires Inv(w) && d in w.devices && clock <= now && OfflineIsOverdue(w, d, t, clock) && ValidThresholds(t)
    ensures var v := AcceptAvailability(w, t, d, now, route);
      && ClosedAt(v.incidents, d) ==
           ClosedAt(w.incidents, d) + (if now - Baseline(w.devices[d]) >= t.offlineAfter * SECOND then [now] else [])
      && v.devices[d].enabled == w.devices[d].enabled
  {
    hide Tables, Extends, ClosedAt;
    if AvailabilityAt(Baseline(w.devices[d]), now, t) == Offline {
      var reconciled := MarkOffline(w, d, now, route);
      MarkOfflineKeeps(w, d, now, route);
      MarkOfflineClosesNothing(w, d, d, now, route);
      SameClosingsSameTimes(w.incidents, reconciled.incidents, d);
      var row := reconciled.devices[d].(lastSeenAt := Some(now));
      SetDeviceKeepsTables(reconciled, d, row);
      RecoveryClosesTheIncident(SetDevice(reconciled, d, row), d, now, route);
    }
  }

  /** A heartbeat of `d` closes an incident exactly when it ends an overlong gap. */
  lemma BeatClosesOverlongGap(w: World, t: Thresholds, d: nat, o: G.Observation, now: Time, clock: Time, route: Route)
    requires Inv(w) && d in w.devices && clock <= now && OfflineIsOverdue(w, d, t, clock) && ValidThresholds(t)
    ensures var v := AcceptHeartbeat(w, t, d, o, now, route);
      && ClosedAt(v.incidents, d) ==
           ClosedAt(w.incidents, d) + (if now - Baseline(w.devices[d]) >= t.offlineAfter * SECOND then [now] else [])
      && d in v.devices && Baseline(v.devices[d]) == now
      && v.devices[d].enabled == w.devices[d].enabled && v.devices[d].availability == Online
  {
    hide Inv, Extends, ClosedAt;
    var available := AcceptAvailability(w, t, d, now, route);
    AcceptAvailabilityKeeps(w, t, d, now, route);
    AvailabilityClosesOverlongGap(w, t, d, now, clock, route);
    GpuClosesNothing(available, d, d, o, now, route);
    SameClosingsSameTimes(available.incidents, AcceptHeartbeat(w, t, d, o, now, route).incidents, d);
  }

  lemma SameClosingsTransitive(a: seq<Incident>, b: seq<Incident>, c: seq<Incident>, d: nat)
    requires SameClosings(a, b, d) && SameClosings(b, c, d)
    ensures SameClosings(a, c, d)
  {
  }

  lemma OtherGpuKeepsDevice(w: World, d: nat, e: nat, o: G.Observation, now: Time, route: Route)
    requires e in w.devices && e != d && d in w.devices
    ensures d in AcceptGpu(w, e, o, now, route).devices
    ensures AcceptGpu(w, e, o, now, route).devices[d] == w.devices[d]
  {
  }

  lemma OtherRecoveryClosesNothing(w: World, d: nat, e: nat, now: Time, route: Route)
    requires e in w.devices && e != d
    ensures var v := CloseForRecovery(w, e, now, route);
      SameClosings(w.incidents, v.incidents, d) && v.devices == w.devices[e := v.devices[e]]
  {
  }

  lemma OtherOfflineClosesNothing(w: World, d: nat, e: nat, now: Time, route: Route)
    requires e in w.devices && e != d
    ensures var v := MarkOffline(w, e, now, route);
      SameClosings(w.incidents, v.incidents, d) && v.devices == w.devices[e := v.devices[e]]
  {
  }

  lemma OtherAvailabilityClosesNothing(w: World, t: Thresholds, d: nat, e: nat, now: Time, route: Route)
    requires e in w.devices && e != d
    ensures var v := AcceptAvailability(w, t, e, now, route);
      && SameClosings(w.incidents, v.incidents, d) && e in v.devices
      && (d in w.devices ==> d in v.devices && v.devices[d] == w.devices[d])
  {
    hide MarkOffline, CloseForRecovery;
    var overdue := AvailabilityAt(Baseline(w.devices[e]), now, t) == Offline;
    var reconciled := if overdue then MarkOffline(w, e, now, route) else w;
    if overdue {
      OtherOfflineClosesNothing(w, d, e, now, route);
    }
    var seen := SetDevice(reconciled, e, reconciled.devices[e].(lastSeenAt := Some(now)));
    OtherRecoveryClosesNothing(seen, d, e, now, route);
    var v := AcceptAvailability(w, t, e, now, route);
    SameClosingsTransitive(w.incidents, seen.incidents, v.incidents, d);
  }

  /** A heartbeat of another device leaves the incidents of `d` alone. */
  lemma OtherBeatClosesNothing(w: World, t: Thresholds, d: nat, e: nat, o: G.Observation, now: Time, route: Route)
    requires e in w.devices && e != d
    ensures var v := AcceptHeartbeat(w, t, e, o, now, route);
      && SameClosings(w.incidents, v.incidents, d)
      && (d in w.devices ==> d in v.devices && v.devices[d] == w.devices[d])
  {
    hide AcceptAvailability;
    var available := AcceptAvailability(w, t, e, now, route);
    OtherAvailabilityClosesNothing(w, t, d, e, now, route);
    GpuClosesNothing(available, d, e, o, now, route);
    if d in w.devices {
      OtherGpuKeepsDevice(available, d, e, o, now, route);
    }
    SameClosingsTransitive(w.incidents, available.incidents, AcceptHeartbeat(w, t, e, o, now, route).incidents, d);
  }

  lemma SweepClosesNothing(w: World, t: Thresholds, d: nat, e: nat, now: Time, clock: Time, route: Route)
    requires d in w.devices && clock <= now && OfflineIsOverdue(w, d, t, clock) && ValidThresholds(t)
    ensures var v := EvaluateDevice(w, t, e, now, route);
      SameClosings(w.incidents, v.incidents, d) && SameMonitoring(w, v, d) && OfflineIsOverdue(v, d, t, now)
  {
    if e in w.devices {
      MarkOfflineClosesNothing(w, d, e, now, route);
    }
  }

  /** The effect of one transaction on what the specification of `d` reads. */
  lemma StepFollowsGaps(w: World, t: Thresholds, step: Timed, d: nat, clock: Time)
    requires Inv(w) && Enabled(w, step) && d in w.devices && w.devices[d].enabled && ValidThresholds(t)
    requires clock <= step.now && OfflineIsOverdue(w, d, t, clock)
    requires !(step.txn.Enable? && step.txn.device == d)
    ensures var v := Apply(w, t, step); var beats := BeatsOf([step], d);
      && d in v.devices && v.devices[d].enabled
      && ClosedAt(v.incidents, d) == ClosedAt(w.incidents, d) + Recoveries(Baseline(w.devices[d]), beats, t)
      && Baseline(v.devices[d]) == LastOr(beats, Baseline(w.devices[d]))
      && OfflineIsOverdue(v, d, t, step.now)
  {
    hide Inv, ClosedAt;
    var v := Apply(w, t, step);
    assert [step][1..] == [];
    match step.txn {
      case Beat(e, o, route) =>
        if e == d {
          BeatClosesOverlongGap(w, t, d, o, step.now, clock, route);
          assert [step.now][1..] == [];
        } else {
          OtherBeatClosesNothing(w, t, d, e, o, step.now, route);
          SameClosingsSameTimes(w.incidents, v.incidents, d);
        }
      case Sweep(e, route) =>
        SweepClosesNothing(w, t, d, e, step.now, clock, route);
        SameClosingsSameTimes(w.incidents, v.incidents, d);
      case Claims(picks, limit, expiryLocked, locked) =>
        ClaimsTouchOnlyTheQueue(ExpireUnclaimed(w, step.now, expiryLocked), picks, step.now);
      case _ =>
    }
  }

  lemma {:induction false} ClaimsTouchOnlyTheQueue(w: World, picks: seq<nat>, now: Time)
    requires forall i :: 0 <= i < |picks| ==> picks[i] < |w.deliveries|
    ensures ClaimAll(w, picks, now).devices == w.devices && ClaimAll(w, picks, now).incidents == w.incidents
  {
    if picks != [] {
      ClaimsTouchOnlyTheQueue(w, picks[..|picks| - 1], now);
    }
  }

  lemma NoBeatsNoRecoveries(baseline: Time, t: Thresholds)
    ensures Recoveries(baseline, [], t) == []
  {
  }

  lemma RecoveriesSplit(baseline: Time, first: seq<Time>, rest: seq<Time>, t: Thresholds)
    requires |first| <= 1
    ensures Recoveries(baseline, first + rest, t) ==
      Recoveries(baseline, first, t) + Recoveries(LastOr(first, baseline), rest, t)
  {
    if first == [] {
      assert first + rest == rest;
    } else {
      assert (first + rest)[1..] == rest && first[1..] == [];
    }
  }

  /** Over any run that monitors `d` throughout, the recoveries of `d` are the overlong gaps
      between its heartbeats, and nothing else in the run matters. */
  lemma {:induction false} RecoveriesAreOverlongGaps(w: World, t: Thresholds, run: seq<Timed>, d: nat, clock: Time)
    requires Inv(w) && ValidRun(w, t, run) && ValidThresholds(t)
    requires d in w.devices && w.devices[d].enabled && OfflineIsOverdue(w, d, t, clock)
    requires Monotone(clock, run) && MonitoredThroughout(run, d)
    ensures ClosedAt(Run(w, t, run).incidents, d) ==
      ClosedAt(w.incidents, d) + Recoveries(Baseline(w.devices[d]), BeatsOf(run, d), t)
    decreases |run|
  {
    hide Inv, ClosedAt, Apply, Recoveries;
    if run == [] {
      NoBeatsNoRecoveries(Baseline(w.devices[d]), t);
    } else {
      var step := run[0];
      var next := Apply(w, t, step);
      StepFollowsGaps(w, t, step, d, clock);
      TxnKeepsInv(w, t, step);
      RecoveriesAreOverlongGaps(next, t, run[1..], d, step.now);
      assert [step][1..] == [];
      assert BeatsOf(run, d) == BeatsOf([step], d) + BeatsOf(run[1..], d);
      RecoveriesSplit(Baseline(w.devices[d]), BeatsOf([step], d), BeatsOf(run[1..], d), t);
    }
  }

  /** Two runs with the same heartbeats of `d` have the same recoveries at the same times,
      however differently the sweeps, the queue and the other devices are interleaved. */
  lemma SweepScheduleIndependence(w: World, t: Thresholds, one: seq<Timed>, other: seq<Timed>, d: nat, clock: Time)
    requires Inv(w) && ValidRun(w, t, one) && ValidRun(w, t, other) && ValidThresholds(t)
    requires d in w.devices && w.devices[d].enabled && OfflineIsOverdue(w, d, t, clock)
    requires Monotone(clock, one) && MonitoredThroughout(one, d)
    requires Monotone(clock, other) && MonitoredThroughout(other, d)
    requires BeatsOf(one, d) == BeatsOf(other, d)
    ensures ClosedAt(Run(w, t, one).incidents, d) == ClosedAt(Run(w, t, other).incidents, d)
  {
    RecoveriesAreOverlongGaps(w, t, one, d, clock);
    RecoveriesAreOverlongGaps(w, t, other, d, clock);
  }

  /** A device enrolled now: its later recoveries are exactly the overlong gaps after enrolment. */
  lemma RecoveriesSinceEnrolment(w: World, t: Thresholds, d: nat, gpuEnabled: bool, policy: G.Policy, now: Time, run: seq<Timed>)
    requires Inv(w) && d !in w.devices && ValidThresholds(t)
    requires ValidRun(EnrollDevice(w, d, gpuEnabled, policy, now), t, run)
    requires Monotone(now, run) && MonitoredThroughout(run, d)
    ensures var v := Run(EnrollDevice(w, d, gpuEnabled, policy, now), t, run);
      ClosedAt(v.incidents, d) == Recoveries(now, BeatsOf(run, d), t)
  {
    var enrolled := EnrollDevice(w, d, gpuEnabled, policy, now);
    TxnKeepsInv(w, t, Timed(now, Enroll(d, gpuEnabled, policy)));
    RecoveriesAreOverlongGaps(enrolled, t, run, d, now);
    NoIncidentsNoClosings(w.incidents, d);
  }

  lemma {:induction false} NoIncidentsNoClosings(incidents: seq<Incident>, d: nat)
    requires forall i :: 0 <= i < |incidents| ==> incidents[i].device != d
    ensures ClosedAt(incidents, d) == []
  {
    if incidents != [] {
      NoIncidentsNoClosings(incidents[..|incidents| - 1], d);
    }
  }

  /** Re-enabling a device does not restart its clock once it has been heard: the first sweep
      finds it OFFLINE exactly when its last heartbeat is already overdue. */
  lemma ReenabledDeviceKeepsItsOldBaseline(w: World, t: Thresholds, d: nat, now: Time, route: Route)
    requires d in w.devices && !w.devices[d].enabled && w.devices[d].availability != Offline && ValidThresholds(t)
    ensures var swept := EvaluateDevice(SetEnabled(w, d, true, now), t, d, now, route);
      swept.devices[d].availability == Offline <==>
        w.devices[d].lastSeenAt.Some? && now - w.devices[d].lastSeenAt.value >= t.offlineAfter * SECOND
  {
  }
}
