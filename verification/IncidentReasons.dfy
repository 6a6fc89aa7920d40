/** Why an incident is open and why it closed, after any run, and what two heartbeats without a required GPU lead to. */
module IncidentReasons {
  import opened Prelude
  import opened AlertWorld
  import opened AlertInvariants
  import opened AlertRuns
  import G = GpuConfirmation
  import H = GpuHistory
  import Guarantees = AlertGuarantees

  predicate Failing(state: G.GpuState) {
    state != G.GpuOk && state != G.NotMonitored
  }

  /** The reason columns of one incident of a device whose GPU state is `state`. */
  predicate ExplainedBy(i: Incident, state: G.GpuState) {
    if i.closedAt.Some? then
      i.currentReason == None && i.closeReason == Some(if i.kind == AvailabilityKind then HeartbeatReceived else ConfirmedOk)
    else
      && i.closeReason == None
      && (i.kind == AvailabilityKind ==> i.currentReason == Some(HeartbeatTimeout))
      && (i.kind == GpuKind && Failing(state) ==> i.currentReason == Some(GpuReason(state)))
  }

  ghost predicate Explained(w: World) {
    forall i :: 0 <= i < |w.incidents| ==>
      w.incidents[i].device in w.devices && ExplainedBy(w.incidents[i], w.devices[w.incidents[i].device].gpu.state)
  }

  /** Devices stay, and their GPU states too. */
  predicate SameStates(w: World, v: World) {
    forall d :: d in w.devices ==> d in v.devices && v.devices[d].gpu.state == w.devices[d].gpu.state
  }

  lemma SameIncidentsExplained(w: World, v: World)
    requires Explained(w) && v.incidents == w.incidents && SameStates(w, v)
    ensures Explained(v)
  {
  }

  lemma OpeningExplained(w: World, d: nat, kind: Kind, reason: Reason, now: Time, to: seq<string>)
    requires Explained(w) && d in w.devices
    requires ExplainedBy(Incident(d, kind, now, None, None, Some(reason)), w.devices[d].gpu.state)
    ensures Explained(EnsureOpen(w, d, kind, reason, now, to)) && EnsureOpen(w, d, kind, reason, now, to).devices == w.devices
  {
    hide FindOpen, NewDeliveries;
  }

  lemma ClosingExplained(w: World, i: nat, why: CloseReason, now: Time, to: seq<string>)
    requires Explained(w) && i < |w.incidents|
    requires why == if w.incidents[i].kind == AvailabilityKind then HeartbeatReceived else ConfirmedOk
    ensures Explained(CloseIncident(w, i, why, now, to)) && CloseIncident(w, i, why, now, to).devices == w.devices
  {
    hide Supersessions, NewDeliveries;
  }

  lemma OfflineExplained(w: World, d: nat, now: Time, route: Route)
    requires Explained(w) && d in w.devices
    ensures Explained(MarkOffline(w, d, now, route)) && SameStates(w, MarkOffline(w, d, now, route))
  {
    hide EnsureOpen, Supersessions;
    var marked := SetDevice(w, d, w.devices[d].(availability := Offline));
    SameIncidentsExplained(w, marked);
    OpeningExplained(marked, d, AvailabilityKind, HeartbeatTimeout, now, route.For(DeviceOffline));
    var announced := EnsureOpen(marked, d, AvailabilityKind, HeartbeatTimeout, now, route.For(DeviceOffline));
    SameIncidentsExplained(announced, MarkOffline(w, d, now, route));
  }

  lemma RecoveryExplained(w: World, d: nat, now: Time, route: Route)
    requires Explained(w) && d in w.devices
    ensures Explained(CloseForRecovery(w, d, now, route)) && SameStates(w, CloseForRecovery(w, d, now, route))
  {
    hide CloseIncident, FindOpen;
    var active := ActiveIncident(w, d, AvailabilityKind);
    var to := route.For(DeviceRecovered);
    if active.Some? {
      ClosingExplained(w, active.value, HeartbeatReceived, now, to);
    }
    var closed := if active.None? then w else CloseIncident(w, active.value, HeartbeatReceived, now, to);
    SameIncidentsExplained(closed, CloseForRecovery(w, d, now, route));
  }

  lemma AvailabilityExplained(w: World, t: Thresholds, d: nat, now: Time, route: Route)
    requires Explained(w) && d in w.devices
    ensures Explained(AcceptAvailability(w, t, d, now, route)) && SameStates(w, AcceptAvailability(w, t, d, now, route))
  {
    hide MarkOffline, CloseForRecovery, Explained;
    var overdue := AvailabilityAt(Baseline(w.devices[d]), now, t) == Offline;
    var reconciled := if overdue then MarkOffline(w, d, now, route) else w;
    OfflineExplained(w, d, now, route);
    var seen := SetDevice(reconciled, d, reconciled.devices[d].(lastSeenAt := Some(now)));
    SameIncidentsExplained(reconciled, seen);
    RecoveryExplained(seen, d, now, route);
    SameIncidentsExplained(seen, SetDevice(seen, d, seen.devices[d].(availability := Online)));
  }

  /** The row of a device whose GPU state has changed, its incidents not yet. */
  lemma GpuExplained(w: World, d: nat, o: G.Observation, now: Time, route: Route)
    requires Inv(w) && Explained(w) && d in w.devices
    ensures Explained(AcceptGpu(w, d, o, now, route))
  {
    hide Tables, CloseIncident, EnsureOpen, FindOpen, G.EffectiveState;
    assert Coherent(w, d);
    var row := w.devices[d];
    var (confirmed, event) := G.Evaluate(row.gpu, o, row.gpuPolicy, now, row.gpuEnabled && row.availability != Offline);
    var u := Checked(w, d, o, now);
    match event {
      case Degraded =>
        assert forall i :: 0 <= i < |w.incidents| ==> !IsOpen(w.incidents[i], d, GpuKind);
        assert Explained(u);
        OpeningExplained(u, d, GpuKind, GpuReason(confirmed.state), now, route.For(GpuDegraded));
      case Recovered =>
        assert Explained(u);
        var active := ActiveIncident(u, d, GpuKind);
        if active.Some? {
          ClosingExplained(u, active.value, ConfirmedOk, now, route.For(GpuRecovered));
        }
      case NoEvent => assert Explained(u);
    }
  }

  lemma HeartbeatExplained(w: World, t: Thresholds, d: nat, o: G.Observation, now: Time, route: Route)
    requires Inv(w) && Explained(w) && d in w.devices
    ensures Explained(AcceptHeartbeat(w, t, d, o, now, route))
  {
    hide Inv, AcceptAvailability, AcceptGpu, Explained;
    AvailabilityExplained(w, t, d, now, route);
    AcceptAvailabilityKeeps(w, t, d, now, route);
    GpuExplained(AcceptAvailability(w, t, d, now, route), d, o, now, route);
  }

  lemma StepExplained(w: World, t: Thresholds, step: Timed)
    requires Inv(w) && Enabled(w, step) && Explained(w)
    ensures Explained(Apply(w, t, step))
  {
    hide Inv, AcceptAvailability, AcceptGpu, MarkOffline;
    match step.txn {
      case Sweep(d, route) =>
        if d in w.devices {
          OfflineExplained(w, d, step.now, route);
        }
      case Beat(d, o, route) =>
        HeartbeatExplained(w, t, d, o, step.now, route);
      case Claims(picks, _, expiryLocked, _) =>
        H.A.ClaimsTouchOnlyTheQueue(ExpireUnclaimed(w, step.now, expiryLocked), picks, step.now);
      case _ =>
    }
  }

  /**
   * After any run: a closed incident says why it closed and nothing else; an open availability incident says that
   * heartbeats stopped; and an open GPU incident of a device whose GPU state is failing names that state.
   */
  lemma {:induction false} ReasonsExplainIncidents(w: World, t: Thresholds, run: seq<Timed>)
    requires Inv(w) && Explained(w) && ValidRun(w, t, run)
    ensures Explained(Run(w, t, run))
    decreases |run|
  {
    hide Inv, Explained, Apply;
    if run != [] {
      TxnKeepsInv(w, t, run[0]);
      StepExplained(w, t, run[0]);
      ReasonsExplainIncidents(Apply(w, t, run[0]), t, run[1..]);
    }
  }

  // ----- two heartbeats without a required GPU -----

  /** The inventory can be trusted, and a GPU that the policy requires is not in it. */
  predicate Lacks(o: G.Observation, policy: G.Policy) {
    && o.reported == G.GpuOk && o.reliable
    && (|o.gpus| < policy.minCount || exists i :: 0 <= i < |policy.uuids| && !G.Lists(o.gpus, policy.uuids[i]))
  }

  /** What a heartbeat does to the row of its device. */
  lemma RowAfterHeartbeat(w: World, t: Thresholds, d: nat, o: G.Observation, now: Time, route: Route)
    requires Inv(w) && d in w.devices
    ensures var v := AcceptHeartbeat(w, t, d, o, now, route);
            && d in v.devices && v.devices[d].availability == Online && v.devices[d].lastSeenAt == Some(now)
            && H.SamePolicy(w, v, d)
            && v.devices[d].gpu == G.Evaluate(
                 if H.Overdue(w, t, d, now) then G.ResetStreaks(w.devices[d].gpu) else w.devices[d].gpu,
                 o, w.devices[d].gpuPolicy, now, w.devices[d].gpuEnabled).0
  {
    hide Tables, Extends, G.Evaluate, EnsureOpen, CloseIncident, FindOpen, SupersedeAll, CoherentExcept;
    AcceptAvailabilityKeeps(w, t, d, now, route);
    RowAfterAvailability(w, t, d, now, route);
    var available := AcceptAvailability(w, t, d, now, route);
    RowAfterGpu(available, d, o, now, route);
    hide AcceptAvailability, AcceptGpu, Inv;
  }

  lemma RowAfterAvailability(w: World, t: Thresholds, d: nat, now: Time, route: Route)
    requires d in w.devices
    ensures var v := AcceptAvailability(w, t, d, now, route);
            && H.SamePolicy(w, v, d)
            && v.devices[d].gpu == if H.Overdue(w, t, d, now) then G.ResetStreaks(w.devices[d].gpu) else w.devices[d].gpu
  {
    hide FindOpen, Supersessions, NewDeliveries;
  }

  lemma RowAfterGpu(w: World, d: nat, o: G.Observation, now: Time, route: Route)
    requires d in w.devices && w.devices[d].availability != Offline
    ensures var (v, row) := (AcceptGpu(w, d, o, now, route), w.devices[d]);
            d in v.devices && v.devices[d] == row.(gpu := G.Evaluate(row.gpu, o, row.gpuPolicy, now, row.gpuEnabled).0)
  {
    hide FindOpen, Supersessions, NewDeliveries, G.Evaluate;
  }

  /** The exactly one open GPU incident of `d` names `state`. */
  ghost predicate OneOpenFor(w: World, d: nat, state: G.GpuState) {
    exists i :: 0 <= i < |w.incidents| && IsOpen(w.incidents[i], d, GpuKind)
                && w.incidents[i].currentReason == Some(GpuReason(state))
                && forall j :: 0 <= j < |w.incidents| && IsOpen(w.incidents[j], d, GpuKind) ==> j == i
  }

  lemma FailingHasItsIncident(w: World, d: nat)
    requires Inv(w) && Explained(w) && d in w.devices && Failing(w.devices[d].gpu.state)
    ensures OneOpenFor(w, d, w.devices[d].gpu.state)
  {
    assert Coherent(w, d);
    var i :| 0 <= i < |w.incidents| && IsOpen(w.incidents[i], d, GpuKind);
    assert ExplainedBy(w.incidents[i], w.devices[d].gpu.state);
  }

  /** Two failing samples at most 75 seconds apart confirm the failure of a device that was not confirmed failing. */
  lemma TwoFailuresConfirm(c: G.Confirmation, kind: G.GpuState, first: Time, second: Time)
    requires c.state == G.GpuOk && c.failureStreak <= 1 && kind != G.GpuOk && second - first <= 75_000_000
    ensures G.Confirm(G.Confirm(c, kind, first).0, kind, second).0.state == kind
  {
  }

  /**
   * At any point of a run, two heartbeats of a monitored device with a healthy GPU state, at most 75 s apart and the
   * second not after an outage, that each lack a required GPU: exactly one GPU incident of the device is open then,
   * and its reason is GPU_MISSING.
   */
  lemma MissingGpuOpensAnIncident(
    w: World, t: Thresholds, d: nat, gpuEnabled: bool, policy: G.Policy, now: Time, run: seq<Timed>,
    o: G.Observation, first: Time, p: G.Observation, second: Time, route: Route, other: Route)
    requires Inv(w) && Explained(w) && d !in w.devices && ValidRun(EnrollDevice(w, d, gpuEnabled, policy, now), t, run)
    requires var before := Run(EnrollDevice(w, d, gpuEnabled, policy, now), t, run);
             && d in before.devices
             && before.devices[d].gpuEnabled && before.devices[d].gpu.state == G.GpuOk
             && Lacks(o, before.devices[d].gpuPolicy) && Lacks(p, before.devices[d].gpuPolicy)
    requires second - first <= 75_000_000 && second - first < t.offlineAfter * 1_000_000 && ValidThresholds(t)
    ensures var before := Run(EnrollDevice(w, d, gpuEnabled, policy, now), t, run);
            var between := AcceptHeartbeat(before, t, d, o, first, route);
            d in between.devices && OneOpenFor(AcceptHeartbeat(between, t, d, p, second, other), d, G.GpuMissing)
  {
    hide Run, ValidRun, Inv, Explained, AcceptHeartbeat, G.EffectiveState, G.Confirm, Lacks, OneOpenFor, H.Items;
    var enrolled := EnrollDevice(w, d, gpuEnabled, policy, now);
    StepExplained(w, t, Timed(now, Enroll(d, gpuEnabled, policy)));
    TxnKeepsInv(w, t, Timed(now, Enroll(d, gpuEnabled, policy)));
    RunKeepsInv(enrolled, t, run);
    ReasonsExplainIncidents(enrolled, t, run);
    var before := Run(enrolled, t, run);
    H.EnrolmentFollowsNothing(w, d, gpuEnabled, policy, now);
    H.RunFollowsTrace(enrolled, t, run, d, []);
    G.VerdictOfTrace([] + H.Items(enrolled, t, run, d));
    hide H.Follows, G.Fold;
    StaysMissing(before, t, d, o, first, p, second, route, other);
  }

  lemma StaysMissing(before: World, t: Thresholds, d: nat, o: G.Observation, first: Time, p: G.Observation, second: Time,
                     route: Route, other: Route)
    requires Inv(before) && Explained(before) && d in before.devices && ValidThresholds(t)
    requires before.devices[d].gpuEnabled && before.devices[d].gpu.state == G.GpuOk
    requires before.devices[d].gpu.failureStreak <= 1
    requires Lacks(o, before.devices[d].gpuPolicy) && Lacks(p, before.devices[d].gpuPolicy)
    requires second - first <= 75_000_000 && second - first < t.offlineAfter * 1_000_000
    ensures var between := AcceptHeartbeat(before, t, d, o, first, route);
            d in between.devices && OneOpenFor(AcceptHeartbeat(between, t, d, p, second, other), d, G.GpuMissing)
  {
    G.HealthyIffNothingIsMissing(o, before.devices[d].gpuPolicy);
    hide Inv, Explained, AcceptHeartbeat, G.EffectiveState, G.Confirm, OneOpenFor, Lacks;
    var prior := if H.Overdue(before, t, d, first) then G.ResetStreaks(before.devices[d].gpu) else before.devices[d].gpu;
    RowAfterHeartbeat(before, t, d, o, first, route);
    HeartbeatKeepsInv(before, t, d, o, first, route);
    HeartbeatExplained(before, t, d, o, first, route);
    SecondConfirms(AcceptHeartbeat(before, t, d, o, first, route), t, d, prior, first, p, second, other);
  }

  /** The second of two such heartbeats, after the first one counted. */
  lemma SecondConfirms(w: World, t: Thresholds, d: nat, prior: G.Confirmation, first: Time, p: G.Observation, second: Time,
                       route: Route)
    requires Inv(w) && Explained(w) && d in w.devices && ValidThresholds(t)
    requires w.devices[d].availability == Online && w.devices[d].lastSeenAt == Some(first)
    requires w.devices[d].gpuEnabled && Lacks(p, w.devices[d].gpuPolicy)
    requires prior.state == G.GpuOk && prior.failureStreak <= 1
    requires w.devices[d].gpu == G.Confirm(prior, G.GpuMissing, first).0
    requires second - first <= 75_000_000 && second - first < t.offlineAfter * 1_000_000
    ensures OneOpenFor(AcceptHeartbeat(w, t, d, p, second, route), d, G.GpuMissing)
  {
    assert !H.Overdue(w, t, d, second);
    G.HealthyIffNothingIsMissing(p, w.devices[d].gpuPolicy);
    hide Inv, Explained, AcceptHeartbeat, G.EffectiveState, G.Confirm, OneOpenFor, Lacks, G.ResetStreaks, H.Overdue;
    RowAfterHeartbeat(w, t, d, p, second, route);
    HeartbeatKeepsInv(w, t, d, p, second, route);
    HeartbeatExplained(w, t, d, p, second, route);
    TwoFailuresConfirm(prior, G.GpuMissing, first, second);
    FailingHasItsIncident(AcceptHeartbeat(w, t, d, p, second, route), d);
  }
}
