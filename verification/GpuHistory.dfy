/** The GPU state, incidents and events of a device in any run are those of its own trace of samples, heartbeats
    without monitoring and offline resets, whatever else the run interleaves. */
module GpuHistory {
  import opened Prelude
  import opened NotificationQueue
  import opened AlertWorld
  import opened AlertInvariants
  import opened AlertRuns
  import A = AvailabilityHistory
  import G = GpuConfirmation
  import Guarantees = AlertGuarantees

  /** Device `d` is found overdue at `now`. */
  predicate Overdue(w: World, t: Thresholds, d: nat, now: Time)
    requires d in w.devices
  {
    AvailabilityAt(Baseline(w.devices[d]), now, t) == Offline
  }

  /** What a heartbeat adds to the trace of its device: a sample, unless GPU monitoring is off. */
  function ItemOf(row: Device, o: G.Observation, now: Time): G.Item {
    if row.gpuEnabled then G.Sample(G.EffectiveState(o, row.gpuPolicy), now) else G.Unmonitored(now)
  }

  /** What a transaction adds to the trace of `d`. */
  function ItemsOf(w: World, t: Thresholds, step: Timed, d: nat): seq<G.Item> {
    if d !in w.devices then []
    else
      var reset := if Overdue(w, t, d, step.now) then [G.Reset] else [];
      match step.txn
      case Sweep(e, _) => if e == d && w.devices[d].enabled then reset else []
      case Beat(e, o, _) => if e == d then reset + [ItemOf(w.devices[d], o, step.now)] else []
      case _ => []
  }

  /** The trace of `d` in a run. */
  ghost function Items(w: World, t: Thresholds, run: seq<Timed>, d: nat): seq<G.Item>
    requires ValidRun(w, t, run)
    decreases |run|
  {
    if run == [] then [] else ItemsOf(w, t, run[0], d) + Items(Apply(w, t, run[0]), t, run[1..], d)
  }

  /** The GPU events announced for device `d`, oldest first. */
  function GpuEventsOf(events: seq<AlertEvent>, d: nat): seq<G.GpuEvent> {
    if events == [] then []
    else
      var front := GpuEventsOf(events[..|events| - 1], d);
      var last := events[|events| - 1];
      if last.device != d then front
      else if last.kind == GpuDegraded then front + [G.Degraded]
      else if last.kind == GpuRecovered then front + [G.Recovered]
      else front
  }

  /** Device `d` stands where its trace says. */
  ghost predicate Follows(w: World, d: nat, trace: seq<G.Item>) {
    && d in w.devices
    && w.devices[d].gpu == G.Fold(trace)
    && GpuEventsOf(w.events, d) == G.Announcements(trace)
    && (HasOpen(w.incidents, d, GpuKind) <==> G.Opened(trace))
  }

  lemma EventAppend(events: seq<AlertEvent>, added: AlertEvent, d: nat)
    ensures GpuEventsOf(events + [added], d) == GpuEventsOf(events, d) +
            (if added.device == d && added.kind == GpuDegraded then [G.Degraded]
             else if added.device == d && added.kind == GpuRecovered then [G.Recovered] else [])
  {
    assert (events + [added])[..|events|] == events;
  }

  // ----- incidents and events of `d` that a write on another incident leaves alone -----

  /** The GPU incident and the GPU events of `d` are as they were. */
  ghost predicate SameGpu(w: World, v: World, d: nat) {
    && (HasOpen(v.incidents, d, GpuKind) <==> HasOpen(w.incidents, d, GpuKind))
    && GpuEventsOf(v.events, d) == GpuEventsOf(w.events, d)
  }

  lemma OpeningElsewhere(w: World, d: nat, e: nat, kind: Kind, reason: Reason, now: Time, to: seq<string>)
    requires e != d || kind != GpuKind
    ensures SameGpu(w, EnsureOpen(w, e, kind, reason, now, to), d)
  {
    hide GpuEventsOf, HasOpen, FindOpen, NewDeliveries;
    EventAppend(w.events, AlertEvent(|w.incidents|, e, Opening(kind), now), d);
    OpenAfterAppend(w.incidents, Incident(e, kind, now, None, None, Some(reason)), d, GpuKind);
  }

  lemma ClosingElsewhere(w: World, d: nat, i: nat, why: CloseReason, now: Time, to: seq<string>)
    requires i < |w.incidents| && !(w.incidents[i].device == d && w.incidents[i].kind == GpuKind)
    ensures SameGpu(w, CloseIncident(w, i, why, now, to), d)
  {
    hide GpuEventsOf, HasOpen, Supersessions, NewDeliveries;
    EventAppend(w.events, AlertEvent(i, w.incidents[i].device, Closing(w.incidents[i].kind), now), d);
    var v := CloseIncident(w, i, why, now, to);
    CloseKeepsOthersOpen(w.incidents, v.incidents, i, d, GpuKind);
  }

  lemma ReasonElsewhere(w: World, d: nat, e: nat, state: G.GpuState)
    ensures SameGpu(w, UpdateReason(w, e, state), d)
  {
    hide GpuEventsOf, HasOpen, FindOpen;
    SameShapeSameOpen(w.incidents, UpdateReason(w, e, state).incidents, d, GpuKind);
  }

  /** Going offline and coming back concern the availability incident only. */
  lemma OfflineKeepsGpu(w: World, d: nat, e: nat, now: Time, route: Route)
    requires e in w.devices
    ensures SameGpu(w, MarkOffline(w, e, now, route), d)
  {
    hide GpuEventsOf, HasOpen, EnsureOpen, Supersessions;
    var marked := SetDevice(w, e, w.devices[e].(availability := Offline));
    OpeningElsewhere(marked, d, e, AvailabilityKind, HeartbeatTimeout, now, route.For(DeviceOffline));
  }

  lemma RecoveryKeepsGpu(w: World, d: nat, e: nat, now: Time, route: Route)
    requires e in w.devices
    ensures SameGpu(w, CloseForRecovery(w, e, now, route), d)
  {
    hide GpuEventsOf, HasOpen, CloseIncident, FindOpen;
    var active := ActiveIncident(w, e, AvailabilityKind);
    if active.Some? {
      ClosingElsewhere(w, d, active.value, HeartbeatReceived, now, route.For(DeviceRecovered));
    }
  }

  // ----- the transactions of `d` itself -----

  /** Steps that leave the verdict of the trace alone. */
  lemma QuietStep(w: World, v: World, d: nat, trace: seq<G.Item>, item: G.Item)
    requires Follows(w, d, trace) && d in v.devices && SameGpu(w, v, d)
    requires v.devices[d].gpu == G.Step(G.Fold(trace), item).0
    requires G.Opened(trace + [item]) == G.Opened(trace)
    ensures Follows(v, d, trace + [item])
  {
    hide G.Fold, G.Step, G.Opened, G.Announcements, GpuEventsOf, HasOpen;
    G.FoldAppend(trace, item);
    G.AnnouncementsAppend(trace, item);
  }

  lemma MarkOfflineResets(w: World, d: nat, now: Time, route: Route, trace: seq<G.Item>)
    requires Follows(w, d, trace)
    ensures Follows(MarkOffline(w, d, now, route), d, trace + [G.Reset])
    ensures SamePolicy(w, MarkOffline(w, d, now, route), d)
  {
    hide G.Fold, G.Opened, G.Announcements, GpuEventsOf, HasOpen;
    OfflineKeepsGpu(w, d, d, now, route);
    G.OpenedOfPrefix(trace, G.Reset);
    QuietStep(w, MarkOffline(w, d, now, route), d, trace, G.Reset);
  }

  predicate SamePolicy(w: World, v: World, d: nat) {
    && d in w.devices && d in v.devices
    && v.devices[d].gpuPolicy == w.devices[d].gpuPolicy && v.devices[d].gpuEnabled == w.devices[d].gpuEnabled
  }

  lemma AvailabilityFollowsTrace(w: World, t: Thresholds, d: nat, now: Time, route: Route, trace: seq<G.Item>)
    requires Follows(w, d, trace)
    ensures var v := AcceptAvailability(w, t, d, now, route);
            && Follows(v, d, trace + if Overdue(w, t, d, now) then [G.Reset] else [])
            && SamePolicy(w, v, d) && v.devices[d].availability == Online
  {
    hide G.Fold, G.Opened, G.Announcements, GpuEventsOf, HasOpen, MarkOffline;
    assert trace + [] == trace;
    var overdue := Overdue(w, t, d, now);
    var reconciled := if overdue then MarkOffline(w, d, now, route) else w;
    if overdue {
      MarkOfflineResets(w, d, now, route, trace);
    }
    var seen := SetDevice(reconciled, d, reconciled.devices[d].(lastSeenAt := Some(now)));
    RecoveryKeepsGpu(seen, d, d, now, route);
  }

  /** The heartbeat's row is written, its event not yet. */
  ghost predicate Confirming(u: World, d: nat, trace: seq<G.Item>, item: G.Item) {
    && d in u.devices
    && u.devices[d].gpu == G.Fold(trace + [item])
    && GpuEventsOf(u.events, d) == G.Announcements(trace)
    && (HasOpen(u.incidents, d, GpuKind) <==> G.Opened(trace))
  }

  /** A degradation opens the incident and announces it. */
  lemma DegradationFollows(
    u: World, d: nat, reason: Reason, now: Time, to: seq<string>, trace: seq<G.Item>, item: G.Item)
    requires Confirming(u, d, trace, item) && !G.Opened(trace) && G.Opened(trace + [item])
    ensures Follows(EnsureOpen(u, d, GpuKind, reason, now, to), d, trace + [item])
  {
    var active := ActiveIncident(u, d, GpuKind);
    assert active.None?;
    hide G.Fold, G.Opened, G.Announcements, GpuEventsOf, HasOpen, FindOpen, NewDeliveries;
    G.AnnouncementsAppend(trace, item);
    EventAppend(u.events, AlertEvent(|u.incidents|, d, GpuDegraded, now), d);
    OpenAfterAppend(u.incidents, Incident(d, GpuKind, now, None, None, Some(reason)), d, GpuKind);
  }

  /** A recovery closes the open incident and announces it. */
  lemma RecoveryFollows(u: World, d: nat, i: nat, now: Time, to: seq<string>, trace: seq<G.Item>, item: G.Item)
    requires Confirming(u, d, trace, item) && G.Opened(trace) && !G.Opened(trace + [item])
    requires Tables(u) && ActiveIncident(u, d, GpuKind) == Some(i)
    ensures Follows(CloseIncident(u, i, ConfirmedOk, now, to), d, trace + [item])
  {
    CloseIncidentKeeps(u, d, GpuKind, ConfirmedOk, now, to);
    hide G.Fold, G.Opened, G.Announcements, GpuEventsOf, HasOpen, FindOpen, NewDeliveries, Supersessions, Tables, Extends;
    G.AnnouncementsAppend(trace, item);
    EventAppend(u.events, AlertEvent(i, d, GpuRecovered, now), d);
  }

  /** Otherwise no event is written. */
  lemma NothingAnnounced(u: World, v: World, d: nat, trace: seq<G.Item>, item: G.Item)
    requires Confirming(u, d, trace, item) && G.Opened(trace + [item]) == G.Opened(trace)
    requires d in v.devices && v.devices[d] == u.devices[d] && SameGpu(u, v, d)
    ensures Follows(v, d, trace + [item])
  {
    hide G.Fold, G.Opened, G.Announcements, GpuEventsOf, HasOpen;
    G.AnnouncementsAppend(trace, item);
  }

  lemma ActiveIffOpen(w: World, d: nat, kind: Kind)
    ensures ActiveIncident(w, d, kind).Some? <==> HasOpen(w.incidents, d, kind)
  {
  }

  /** One heartbeat: the state is confirmed as in the trace, and the incident and the announcement follow it. */
  lemma GpuFollowsItem(w: World, d: nat, o: G.Observation, now: Time, route: Route, trace: seq<G.Item>)
    requires Tables(w) && Follows(w, d, trace) && w.devices[d].availability != Offline
    ensures Follows(AcceptGpu(w, d, o, now, route), d, trace + [ItemOf(w.devices[d], o, now)])
  {
    hide Tables, Extends, G.Fold, G.Opened, G.Suspended, G.Announcements, GpuEventsOf, HasOpen, FindOpen, EnsureOpen,
         CloseIncident, UpdateReason, G.EffectiveState, G.Confirm;
    var row := w.devices[d];
    var item := ItemOf(row, o, now);
    var (confirmed, event) := G.Evaluate(row.gpu, o, row.gpuPolicy, now, row.gpuEnabled);
    assert (confirmed, event) == G.Step(G.Fold(trace), item);
    G.FoldAppend(trace, item);
    var u := SetDevice(w, d, row.(gpu := confirmed));
    assert Confirming(u, d, trace, item);
    G.EventIffVerdictChanges(trace, item);
    ActiveIffOpen(u, d, GpuKind);
    var v := AcceptGpu(w, d, o, now, route);
    match event {
      case Degraded => DegradationFollows(u, d, GpuReason(confirmed.state), now, route.For(GpuDegraded), trace, item);
      case Recovered =>
        var active := ActiveIncident(u, d, GpuKind);
        SetDeviceKeepsTables(w, d, u.devices[d]);
        if active.Some? {
          RecoveryFollows(u, d, active.value, now, route.For(GpuRecovered), trace, item);
        } else {
          NothingAnnounced(u, v, d, trace, item);
        }
      case NoEvent =>
        ReasonElsewhere(u, d, d, confirmed.state);
        ReasonKeepsDevices(u, d, confirmed.state);
        NothingAnnounced(u, v, d, trace, item);
    }
  }

  lemma ReasonKeepsDevices(u: World, d: nat, state: G.GpuState)
    ensures UpdateReason(u, d, state).devices == u.devices
  {
  }

  // ----- other devices and the queue -----

  /** Rows and GPU events of `d` that a transaction on something else leaves alone. */
  ghost predicate Untouched(w: World, v: World, d: nat) {
    && d in w.devices && d in v.devices
    && v.devices[d].gpu == w.devices[d].gpu && SameGpu(w, v, d)
  }

  lemma OtherGpuTouchesNothing(w: World, d: nat, e: nat, o: G.Observation, now: Time, route: Route)
    requires d in w.devices && e in w.devices && e != d
    ensures Untouched(w, AcceptGpu(w, e, o, now, route), d)
  {
    hide GpuEventsOf, HasOpen, G.Evaluate, EnsureOpen, CloseIncident, UpdateReason, FindOpen;
    var row := w.devices[e];
    var (confirmed, event) := G.Evaluate(row.gpu, o, row.gpuPolicy, now, row.gpuEnabled && row.availability != Offline);
    var u := SetDevice(w, e, row.(gpu := confirmed));
    var active := ActiveIncident(u, e, GpuKind);
    match event {
      case Degraded =>
        OpeningElsewhere(u, d, e, GpuKind, GpuReason(confirmed.state), now, route.For(GpuDegraded));
        OpeningKeepsDevices(u, e, GpuKind, GpuReason(confirmed.state), now, route.For(GpuDegraded));
      case Recovered =>
        if active.Some? {
          ClosingElsewhere(u, d, active.value, ConfirmedOk, now, route.For(GpuRecovered));
          ClosingKeepsDevices(u, active.value, ConfirmedOk, now, route.For(GpuRecovered));
        }
      case NoEvent =>
        ReasonElsewhere(u, d, e, confirmed.state);
        ReasonKeepsDevices(u, e, confirmed.state);
    }
  }

  lemma OpeningKeepsDevices(u: World, e: nat, kind: Kind, reason: Reason, now: Time, to: seq<string>)
    ensures EnsureOpen(u, e, kind, reason, now, to).devices == u.devices
  {
  }

  lemma ClosingKeepsDevices(u: World, i: nat, why: CloseReason, now: Time, to: seq<string>)
    requires i < |u.incidents|
    ensures CloseIncident(u, i, why, now, to).devices == u.devices
  {
  }

  lemma OtherBeatTouchesNothing(w: World, t: Thresholds, d: nat, e: nat, o: G.Observation, now: Time, route: Route)
    requires d in w.devices && e in w.devices && e != d
    ensures Untouched(w, AcceptHeartbeat(w, t, e, o, now, route), d)
  {
    hide MarkOffline, CloseForRecovery, AcceptGpu, GpuEventsOf, HasOpen;
    var overdue := AvailabilityAt(Baseline(w.devices[e]), now, t) == Offline;
    var reconciled := if overdue then MarkOffline(w, e, now, route) else w;
    if overdue {
      OfflineKeepsGpu(w, d, e, now, route);
      A.OtherOfflineClosesNothing(w, d, e, now, route);
    }
    var seen := SetDevice(reconciled, e, reconciled.devices[e].(lastSeenAt := Some(now)));
    RecoveryKeepsGpu(seen, d, e, now, route);
    A.OtherRecoveryClosesNothing(seen, d, e, now, route);
    OtherGpuTouchesNothing(AcceptAvailability(w, t, e, now, route), d, e, o, now, route);
  }

  lemma UntouchedFollows(w: World, v: World, d: nat, trace: seq<G.Item>)
    requires Follows(w, d, trace) && Untouched(w, v, d)
    ensures Follows(v, d, trace + [])
  {
    assert trace + [] == trace;
  }

  // ----- runs -----

  lemma BeatFollowsTrace(w: World, t: Thresholds, d: nat, o: G.Observation, now: Time, route: Route, trace: seq<G.Item>)
    requires Inv(w) && Follows(w, d, trace)
    ensures Follows(AcceptHeartbeat(w, t, d, o, now, route), d, trace + ItemsOf(w, t, Timed(now, Beat(d, o, route)), d))
  {
    hide Follows, AcceptAvailability, AcceptGpu, Coherent, Tables, Extends;
    DeviceOfTrace(w, d, trace);
    var reset := if Overdue(w, t, d, now) then [G.Reset] else [];
    var item := ItemOf(w.devices[d], o, now);
    AvailabilityFollowsTrace(w, t, d, now, route, trace);
    AcceptAvailabilityKeeps(w, t, d, now, route);
    GpuFollowsItem(AcceptAvailability(w, t, d, now, route), d, o, now, route, trace + reset);
    assert trace + (reset + [item]) == (trace + reset) + [item];
  }

  lemma DeviceOfTrace(w: World, d: nat, trace: seq<G.Item>)
    requires Follows(w, d, trace)
    ensures d in w.devices
  {
  }

  lemma SweepFollowsTrace(w: World, t: Thresholds, d: nat, e: nat, now: Time, route: Route, trace: seq<G.Item>)
    requires Follows(w, d, trace)
    ensures Follows(EvaluateDevice(w, t, e, now, route), d, trace + ItemsOf(w, t, Timed(now, Sweep(e, route)), d))
  {
    hide MarkOffline, G.Fold, G.Opened, G.Announcements, GpuEventsOf, HasOpen;
    assert trace + [] == trace;
    if e in w.devices && w.devices[e].enabled && Overdue(w, t, e, now) {
      if e == d {
        MarkOfflineResets(w, d, now, route, trace);
      } else {
        OfflineKeepsGpu(w, d, e, now, route);
        A.OtherOfflineClosesNothing(w, d, e, now, route);
      }
    }
  }

  lemma StepFollowsTrace(w: World, t: Thresholds, step: Timed, d: nat, trace: seq<G.Item>)
    requires Inv(w) && Enabled(w, step) && Follows(w, d, trace)
    ensures Follows(Apply(w, t, step), d, trace + ItemsOf(w, t, step, d))
  {
    hide Inv, AcceptHeartbeat, EvaluateDevice, G.Fold, G.Opened, G.Announcements, GpuEventsOf, HasOpen;
    match step.txn {
      case Beat(e, o, route) =>
        if e == d {
          BeatFollowsTrace(w, t, d, o, step.now, route, trace);
        } else {
          OtherBeatTouchesNothing(w, t, d, e, o, step.now, route);
          UntouchedFollows(w, Apply(w, t, step), d, trace);
        }
      case Sweep(e, route) => SweepFollowsTrace(w, t, d, e, step.now, route, trace);
      case Claims(picks, limit, expiryLocked, locked) =>
        var expired := ExpireUnclaimed(w, step.now, expiryLocked);
        A.ClaimsTouchOnlyTheQueue(expired, picks, step.now);
        ClaimsAddNoEvents(expired, picks, step.now);
        UntouchedFollows(w, Apply(w, t, step), d, trace);
      case _ => UntouchedFollows(w, Apply(w, t, step), d, trace);
    }
  }

  lemma {:induction false} ClaimsAddNoEvents(w: World, picks: seq<nat>, now: Time)
    requires forall i :: 0 <= i < |picks| ==> picks[i] < |w.deliveries|
    ensures ClaimAll(w, picks, now).events == w.events
  {
    if picks != [] {
      ClaimsAddNoEvents(w, picks[..|picks| - 1], now);
    }
  }

  lemma {:induction false} RunFollowsTrace(w: World, t: Thresholds, run: seq<Timed>, d: nat, trace: seq<G.Item>)
    requires Inv(w) && ValidRun(w, t, run) && Follows(w, d, trace)
    ensures Follows(Run(w, t, run), d, trace + Items(w, t, run, d))
    decreases |run|
  {
    hide Inv, Apply, Follows, ItemsOf, Enabled;
    if run == [] {
      assert trace + [] == trace;
    } else {
      var next := Apply(w, t, run[0]);
      var items := ItemsOf(w, t, run[0], d);
      StepFollowsTrace(w, t, run[0], d, trace);
      TxnKeepsInv(w, t, run[0]);
      RunFollowsTrace(next, t, run[1..], d, trace + items);
      assert (trace + items) + Items(next, t, run[1..], d) == trace + (items + Items(next, t, run[1..], d));
    }
  }

  lemma EnrolmentFollowsNothing(w: World, d: nat, gpuEnabled: bool, policy: G.Policy, now: Time)
    requires Inv(w) && d !in w.devices
    ensures Follows(EnrollDevice(w, d, gpuEnabled, policy, now), d, [])
  {
    G.NothingOpenedYet();
    NoEventsYet(w.events, d) by {
      assert forall e :: 0 <= e < |w.events| ==> w.events[e].device != d;
    }
  }

  lemma {:induction false} NoEventsYet(events: seq<AlertEvent>, d: nat)
    requires forall e :: 0 <= e < |events| ==> events[e].device != d
    ensures GpuEventsOf(events, d) == []
  {
    if events != [] {
      NoEventsYet(events[..|events| - 1], d);
    }
  }

  /**
   * A device from its enrolment on, over any run, with GPU monitoring switched off and on as often as it likes: exactly
   * one GPU incident is open if a failing pair was confirmed, while not suspended, and no healthy pair since, and none
   * otherwise; and the GPU events announced for it are alternately a degradation and a recovery, one for each change.
   */
  lemma GpuIncidentsFollowTheTrace(
    w: World, t: Thresholds, d: nat, gpuEnabled: bool, policy: G.Policy, now: Time, run: seq<Timed>)
    requires Inv(w) && d !in w.devices
    requires ValidRun(EnrollDevice(w, d, gpuEnabled, policy, now), t, run)
    ensures var enrolled := EnrollDevice(w, d, gpuEnabled, policy, now);
            var v := Run(enrolled, t, run);
            var trace := Items(enrolled, t, run, d);
            var announced := GpuEventsOf(v.events, d);
            && (if G.Opened(trace) then Guarantees.ExactlyOneOpen(v, d, GpuKind) else !HasOpen(v.incidents, d, GpuKind))
            && announced == G.Announcements(trace)
            && (forall k :: 0 <= k < |announced| ==> announced[k] == if k % 2 == 0 then G.Degraded else G.Recovered)
            && (|announced| % 2 == 1 <==> G.Opened(trace))
  {
    hide ValidRun, Run, Items, G.Fold, G.Announcements, G.Opened, GpuEventsOf, HasOpen, Inv, Guarantees.ExactlyOneOpen;
    var enrolled := EnrollDevice(w, d, gpuEnabled, policy, now);
    EnrolmentFollowsNothing(w, d, gpuEnabled, policy, now);
    TxnKeepsInv(w, t, Timed(now, Enroll(d, gpuEnabled, policy)));
    RunFollowsTrace(enrolled, t, run, d, []);
    RunKeepsInv(enrolled, t, run);
    var v, trace := Run(enrolled, t, run), Items(enrolled, t, run, d);
    assert [] + trace == trace;
    G.AnnouncementsAlternate(trace);
    OnlyOneIsOpen(v, d);
  }

  lemma OnlyOneIsOpen(w: World, d: nat)
    requires Inv(w)
    ensures HasOpen(w.incidents, d, GpuKind) ==> Guarantees.ExactlyOneOpen(w, d, GpuKind)
  {
    Guarantees.OpenMeansExactlyOne(w, d, GpuKind);
  }
}
