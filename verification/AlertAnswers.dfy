/** What each alerting transaction writes: which incident it opens or closes, whom it tells, and whose messages it
    silences. */
module AlertAnswers {
  import opened Prelude
  import opened NotificationQueue
  import opened AlertWorld
  import opened AlertInvariants
  import opened AlertRuns
  import G = GpuConfirmation
  import H = GpuHistory

  /** Delivery `k` announces an event of `kind` of incident `i`. */
  predicate Announces(w: World, k: nat, i: nat, kind: EventKind)
    requires k < |w.deliveries|
  {
    var e := w.deliveries[k].event;
    e < |w.events| && w.events[e].incident == i && w.events[e].kind == kind
  }

  /** Delivery `k` announces a degradation of a GPU incident of device `d`. */
  ghost predicate AnnouncesDegradation(w: World, k: nat, d: nat)
    requires k < |w.deliveries|
  {
    exists i: nat :: i < |w.incidents| && w.incidents[i].device == d && w.incidents[i].kind == GpuKind
                     && Announces(w, k, i, GpuDegraded)
  }

  /** Superseding at `now`: what waits is cancelled, what is being sent is marked, what has ended stays. */
  predicate Silences(d: Delivery, e: Delivery, now: Time) {
    if d.status in {Pending, RetryWait} then e == d.(status := Cancelled, nextAttemptAt := None, supersededAt := Some(now))
    else if d.status == InProgress then e == d.(supersededAt := Some(now))
    else e == d
  }

  /** The queue grows by one delivery for each destination, each announcing event `event`. */
  predicate Tells(before: nat, after: seq<Delivery>, event: nat, to: seq<string>) {
    && |after| == before + |to|
    && forall i :: 0 <= i < |to| ==> after[before + i].event == event && after[before + i].destination == to[i]
  }

  // ----- availability -----

  /**
   * A device found overdue: its availability incident is opened and announced if none was open, and exactly the
   * announcements of its GPU degradations are silenced; no other device's row changes.
   */
  lemma OfflineAnswers(w: World, d: nat, now: Time, route: Route)
    requires Linked(w) && d in w.devices
    ensures var v := MarkOffline(w, d, now, route);
            var opens := !HasOpen(w.incidents, d, AvailabilityKind);
            && v.incidents == w.incidents +
                 (if opens then [Incident(d, AvailabilityKind, now, None, None, Some(HeartbeatTimeout))] else [])
            && v.events == w.events + (if opens then [AlertEvent(|w.incidents|, d, DeviceOffline, now)] else [])
            && Tells(|w.deliveries|, v.deliveries, |w.events|, if opens then route.offline else [])
            && (forall k :: 0 <= k < |w.deliveries| ==>
                  if AnnouncesDegradation(w, k, d) then Silences(w.deliveries[k], v.deliveries[k], now)
                  else v.deliveries[k] == w.deliveries[k])
            && v.issued == w.issued
            && v.devices == w.devices[d := w.devices[d].(availability := Offline,
                 gpu := G.Confirmation(w.devices[d].gpu.state, 0, 0, None))]
  {
    H.ActiveIffOpen(w, d, AvailabilityKind);
    hide HasOpen, FindOpen;
    var v := MarkOffline(w, d, now, route);
    var marked := SetDevice(w, d, w.devices[d].(availability := Offline));
    var announced := EnsureOpen(marked, d, AvailabilityKind, HeartbeatTimeout, now, route.For(DeviceOffline));
    assert ActiveIncident(marked, d, AvailabilityKind) == ActiveIncident(w, d, AvailabilityKind);
    forall k | 0 <= k < |w.deliveries|
      ensures if AnnouncesDegradation(w, k, d) then Silences(w.deliveries[k], v.deliveries[k], now)
              else v.deliveries[k] == w.deliveries[k]
    {
      assert announced.deliveries[k] == w.deliveries[k];
      DegradationIsSelected(w, k, d);
    }
  }

  lemma DegradationIsSelected(w: World, k: nat, d: nat)
    requires Linked(w) && k < |w.deliveries|
    ensures AnnouncesDegradation(w, k, d) <==> Selected(w, w.deliveries[k].event, DegradationsOf(d))
  {
    var e := w.deliveries[k].event;
    if Selected(w, e, DegradationsOf(d)) {
      assert Announces(w, k, w.events[e].incident, GpuDegraded);
    }
  }

  /** Closing an incident: exactly its opening announcements are silenced, and the closing is announced. */
  lemma ClosingAnswers(w: World, i: nat, why: CloseReason, now: Time, to: seq<string>)
    requires Linked(w) && i < |w.incidents|
    ensures var v := CloseIncident(w, i, why, now, to);
            var incident := w.incidents[i];
            var closing := if incident.kind == AvailabilityKind then DeviceRecovered else GpuRecovered;
            var opening := if incident.kind == AvailabilityKind then DeviceOffline else GpuDegraded;
            && v.incidents == w.incidents[i :=
                 Incident(incident.device, incident.kind, incident.openedAt, Some(now), Some(why), None)]
            && v.events == w.events + [AlertEvent(i, incident.device, closing, now)]
            && Tells(|w.deliveries|, v.deliveries, |w.events|, to)
            && (forall k :: 0 <= k < |w.deliveries| ==>
                  if Announces(w, k, i, opening) then Silences(w.deliveries[k], v.deliveries[k], now)
                  else v.deliveries[k] == w.deliveries[k])
            && v.issued == w.issued && v.devices == w.devices
  {
    var v := CloseIncident(w, i, why, now, to);
    var superseded := SupersedeAll(Closed(w, i, why, now), OpeningOf(i), now);
    forall k | 0 <= k < |w.deliveries|
      ensures if Announces(w, k, i, Opening(w.incidents[i].kind)) then Silences(w.deliveries[k], v.deliveries[k], now)
              else v.deliveries[k] == w.deliveries[k]
    {
      assert v.deliveries[k] == superseded.deliveries[k];
      assert superseded.deliveries[k] == SupersededIf(Closed(w, i, why, now), OpeningOf(i), now, w.deliveries[k]);
    }
  }

  /** A device coming back: its open availability incident, if there is one, is closed because a heartbeat was received
      and that is told to the destinations of recoveries; it is ONLINE. */
  lemma RecoveryAnswers(w: World, d: nat, now: Time, route: Route)
    requires Linked(w) && d in w.devices
    ensures var v := CloseForRecovery(w, d, now, route);
            && v.devices == w.devices[d := w.devices[d].(availability := Online)]
            && (!HasOpen(w.incidents, d, AvailabilityKind) ==> v == w.(devices := v.devices))
            && (HasOpen(w.incidents, d, AvailabilityKind) ==>
                  exists i: nat :: i < |w.incidents| && IsOpen(w.incidents[i], d, AvailabilityKind)
                              && v == CloseIncident(w, i, HeartbeatReceived, now, route.recovered).(devices := v.devices))
  {
    H.ActiveIffOpen(w, d, AvailabilityKind);
    hide HasOpen, CloseIncident;
    var active := ActiveIncident(w, d, AvailabilityKind);
    if active.Some? {
      ClosingAnswers(w, active.value, HeartbeatReceived, now, route.recovered);
    }
  }

  // ----- GPU -----

  /**
   * The GPU part of a heartbeat. A confirmed degradation opens an incident with the confirmed state as its reason, unless
   * one is open, and tells the destinations of degradations; a confirmed recovery closes the open one and tells those
   * of recoveries; otherwise only the reason of an open incident of a failing device is renewed.
   */
  lemma GpuAnswers(w: World, d: nat, o: G.Observation, now: Time, route: Route)
    requires Linked(w) && d in w.devices
    ensures var v := AcceptGpu(w, d, o, now, route);
            var row := w.devices[d];
            var (confirmed, event) := G.Evaluate(row.gpu, o, row.gpuPolicy, now, row.gpuEnabled && row.availability != Offline);
            var active := HasOpen(w.incidents, d, GpuKind);
            && v.devices == w.devices[d := row.(gpu := confirmed)] && v.issued == w.issued
            && (event == G.Degraded && !active ==>
                  && v.incidents == w.incidents + [Incident(d, GpuKind, now, None, None, Some(GpuReason(confirmed.state)))]
                  && v.events == w.events + [AlertEvent(|w.incidents|, d, GpuDegraded, now)]
                  && Tells(|w.deliveries|, v.deliveries, |w.events|, route.degraded)
                  && v.deliveries[..|w.deliveries|] == w.deliveries)
            && (event == G.Recovered && active ==>
                  exists i: nat :: i < |w.incidents| && IsOpen(w.incidents[i], d, GpuKind)
                              && v == CloseIncident(w, i, ConfirmedOk, now, route.gpuRecovered).(devices := v.devices))
            && ((event == G.Degraded && active) || (event == G.Recovered && !active) ==> v == w.(devices := v.devices))
            && (event == G.NoEvent ==> v == w.(devices := v.devices, incidents := v.incidents))
            && (event == G.NoEvent && (!active || confirmed.state in {G.GpuOk, G.NotMonitored}) ==> v.incidents == w.incidents)
  {
    H.ActiveIffOpen(w, d, GpuKind);
    hide HasOpen, G.Evaluate;
    var u := Checked(w, d, o, now);
    var active := ActiveIncident(w, d, GpuKind);
    assert ActiveIncident(u, d, GpuKind) == active;
    if active.Some? {
      ClosingWithDevices(w, u, active.value, ConfirmedOk, now, route.gpuRecovered);
    }
    hide FindOpen, CloseIncident;
  }

  lemma ClosingWithDevices(w: World, u: World, i: nat, why: CloseReason, now: Time, to: seq<string>)
    requires i < |w.incidents| && u == w.(devices := u.devices)
    ensures CloseIncident(u, i, why, now, to) == CloseIncident(w, i, why, now, to).(devices := u.devices)
  {
    assert forall e, s :: Selected(Closed(u, i, why, now), e, s) <==> Selected(Closed(w, i, why, now), e, s);
    assert Supersessions(Closed(u, i, why, now), OpeningOf(i), now) == Supersessions(Closed(w, i, why, now), OpeningOf(i), now);
  }

  // ----- administration -----

  /** Administration touches the row of its own device only: a new one starts monitored, ONLINE and healthy; monitoring
      that is switched on starts again, and a policy is what it was set to. */
  lemma AdministrationAnswers(w: World, d: nat, enabled: bool, gpuEnabled: bool, policy: G.Policy, now: Time)
    ensures EnrollDevice(w, d, gpuEnabled, policy, now) ==
            if d in w.devices then w
            else w.(devices := w.devices[d :=
                   Device(true, now, None, Online, gpuEnabled, policy, G.Confirmation(G.GpuOk, 0, 0, None))])
    ensures SetGpuPolicy(w, d, gpuEnabled, policy) ==
            if d !in w.devices then w
            else w.(devices := w.devices[d := w.devices[d].(gpuEnabled := gpuEnabled, gpuPolicy := policy)])
    ensures var v := SetEnabled(w, d, enabled, now);
            && (d !in w.devices || w.devices[d].enabled == enabled ==> v == w)
            && (d in w.devices && w.devices[d].enabled != enabled ==>
                  v == w.(devices := w.devices[d := w.devices[d].(enabled := enabled,
                         startedAt := if enabled then now else w.devices[d].startedAt)]))
  {
  }
}
