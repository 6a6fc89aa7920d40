/** What every transaction on the alerting tables keeps. */
module AlertInvariants {
  import opened Prelude
  import opened NotificationQueue
  import opened AlertWorld
  import G = GpuConfirmation

  // ----- the ledger of incidents, events and deliveries -----

  ghost predicate HasOpen(incidents: seq<Incident>, d: nat, kind: Kind) {
    exists i :: 0 <= i < |incidents| && IsOpen(incidents[i], d, kind)
  }

  ghost predicate HasEvent(events: seq<AlertEvent>, incident: nat, kind: EventKind) {
    exists e :: 0 <= e < |events| && events[e].incident == incident && events[e].kind == kind
  }

  /** Foreign keys hold, and an event announces the opening or the closing of its incident. */
  ghost predicate Linked(w: World) {
    && (forall i :: 0 <= i < |w.incidents| ==> w.incidents[i].device in w.devices)
    && (forall e :: 0 <= e < |w.events| ==>
          && w.events[e].incident < |w.incidents|
          && var incident := w.incidents[w.events[e].incident];
             && w.events[e].device == incident.device
             && (w.events[e].kind == Opening(incident.kind) || w.events[e].kind == Closing(incident.kind)))
    && (forall k :: 0 <= k < |w.deliveries| ==> w.deliveries[k].event < |w.events|)
  }

  /** The constraint that an incident has at most one event of each kind. */
  ghost predicate DistinctEvents(w: World) {
    forall e, f :: 0 <= e < f < |w.events| && w.events[e].incident == w.events[f].incident ==>
      w.events[e].kind != w.events[f].kind
  }

  /** Every incident was announced when it opened, and again exactly when it has closed. */
  ghost predicate Announced(w: World) {
    forall i :: 0 <= i < |w.incidents| ==>
      && HasEvent(w.events, i, Opening(w.incidents[i].kind))
      && (w.incidents[i].closedAt.Some? <==> HasEvent(w.events, i, Closing(w.incidents[i].kind)))
  }

  /** Only the last incident of a kind on a device can be open: the active-key constraint. */
  ghost predicate OnlyLastOpen(w: World) {
    forall i, j :: 0 <= i < j < |w.incidents|
                   && w.incidents[i].device == w.incidents[j].device && w.incidents[i].kind == w.incidents[j].kind ==>
      w.incidents[i].closedAt.Some?
  }

  /** Delivery `k` announces the opening of an incident that has closed. */
  predicate Stale(w: World, k: nat)
    requires k < |w.deliveries|
  {
    && w.deliveries[k].event < |w.events|
    && var e := w.events[w.deliveries[k].event];
       && e.incident < |w.incidents|
       && e.kind == Opening(w.incidents[e.incident].kind)
       && w.incidents[e.incident].closedAt.Some?
  }

  /** Once an incident closes, its opening announcements are never waiting to be sent. */
  ghost predicate Silenced(w: World) {
    forall k :: 0 <= k < |w.deliveries| && Stale(w, k) ==>
      && !Waiting(w.deliveries[k].status)
      && (w.deliveries[k].status == InProgress ==> w.deliveries[k].supersededAt.Some?)
  }

  /** Every delivery is valid, a held lease belongs to the claim that last took the row, and
      every claim ever issued has its attempt in the ledger. */
  ghost predicate QueueOk(w: World) {
    && (forall k :: 0 <= k < |w.deliveries| ==> Valid(w.deliveries[k]))
    && (forall k :: 0 <= k < |w.deliveries| && w.deliveries[k].leaseToken.Some? ==>
          && w.deliveries[k].leaseToken.value < |w.issued|
          && w.issued[w.deliveries[k].leaseToken.value] == IssuedClaim(k, w.deliveries[k].attemptCount))
    && (forall c :: 0 <= c < |w.issued| ==>
          && w.issued[c].delivery < |w.deliveries|
          && w.issued[c].attemptNo in w.deliveries[w.issued[c].delivery].attempts)
  }

  ghost predicate Tables(w: World) {
    Linked(w) && DistinctEvents(w) && Announced(w) && OnlyLastOpen(w) && Silenced(w) && QueueOk(w)
  }

  /** A device is OFFLINE iff its availability incident is open; a GPU state of OK has no open
      GPU incident, and a failing one has. */
  ghost predicate Coherent(w: World, d: nat)
    requires d in w.devices
  {
    && (w.devices[d].availability == Offline <==> HasOpen(w.incidents, d, AvailabilityKind))
    && GpuCoherent(w, d)
  }

  ghost predicate GpuCoherent(w: World, d: nat)
    requires d in w.devices
  {
    && (w.devices[d].gpu.state == G.GpuOk ==> !HasOpen(w.incidents, d, GpuKind))
    && (w.devices[d].gpu.state !in {G.GpuOk, G.NotMonitored} ==> HasOpen(w.incidents, d, GpuKind))
  }

  ghost predicate CoherentExcept(w: World, d: nat) {
    forall e :: e in w.devices && e != d ==> Coherent(w, e)
  }

  ghost predicate Inv(w: World) {
    Tables(w) && forall d :: d in w.devices ==> Coherent(w, d)
  }

  // ----- what a transaction may change -----

  /** Rows are only added or moved forward: events and claims are immutable, incidents only
      close, and every delivery evolves. */
  ghost predicate Extends(w: World, v: World) {
    && w.devices.Keys <= v.devices.Keys
    && w.events <= v.events
    && w.issued <= v.issued
    && |w.incidents| <= |v.incidents|
    && (forall i :: 0 <= i < |w.incidents| ==>
          && v.incidents[i].device == w.incidents[i].device
          && v.incidents[i].kind == w.incidents[i].kind
          && v.incidents[i].openedAt == w.incidents[i].openedAt
          && (w.incidents[i].closedAt.Some? ==> v.incidents[i].closedAt == w.incidents[i].closedAt))
    && |w.deliveries| <= |v.deliveries|
    && (forall k :: 0 <= k < |w.deliveries| ==> Evolves(w.deliveries[k], v.deliveries[k]))
  }

  lemma ExtendsTransitive(u: World, v: World, w: World)
    requires Extends(u, v) && Extends(v, w)
    ensures Extends(u, w)
  {
    forall k | 0 <= k < |u.deliveries| ensures Evolves(u.deliveries[k], w.deliveries[k]) {
      EvolvesTransitive(u.deliveries[k], v.deliveries[k], w.deliveries[k]);
    }
  }

  /** Incidents of other devices, and of other kinds, are untouched. */
  ghost predicate SameOpenExcept(w: World, v: World, d: nat, kind: Kind) {
    forall e, k :: e != d || k != kind ==>
      (HasOpen(w.incidents, e, k) <==> HasOpen(v.incidents, e, k))
  }

  // ----- table writes keep the ledger -----

  lemma SupersedeAllKeeps(w: World, s: Selection, now: Time)
    requires Tables(w)
    ensures var v := SupersedeAll(w, s, now); Tables(v) && Extends(w, v)
  {
    var v := SupersedeAll(w, s, now);
    forall k | 0 <= k < |w.deliveries|
      ensures Evolves(w.deliveries[k], v.deliveries[k])
      ensures v.deliveries[k].leaseToken == w.deliveries[k].leaseToken
      ensures v.deliveries[k].attempts == w.deliveries[k].attempts
    {
      if Selected(w, w.deliveries[k].event, s) && !Terminal(w.deliveries[k].status) {
        SupersedeEvolves(w.deliveries[k], now);
      }
    }
    forall k | 0 <= k < |v.deliveries| && Stale(v, k)
      ensures !Waiting(v.deliveries[k].status)
      ensures v.deliveries[k].status == InProgress ==> v.deliveries[k].supersededAt.Some?
    {
      assert Stale(w, k);
    }
  }

  lemma OpenAfterAppend(incidents: seq<Incident>, added: Incident, d: nat, kind: Kind)
    ensures HasOpen(incidents + [added], d, kind) <==> HasOpen(incidents, d, kind) || IsOpen(added, d, kind)
  {
    var after := incidents + [added];
    if HasOpen(incidents, d, kind) {
      var i :| 0 <= i < |incidents| && IsOpen(incidents[i], d, kind);
      assert IsOpen(after[i], d, kind);
    }
    if IsOpen(added, d, kind) {
      assert IsOpen(after[|incidents|], d, kind);
    }
  }

  lemma EventAfterAppend(events: seq<AlertEvent>, added: AlertEvent, incident: nat, kind: EventKind)
    ensures HasEvent(events + [added], incident, kind) <==>
      HasEvent(events, incident, kind) || (added.incident == incident && added.kind == kind)
  {
    var after := events + [added];
    if HasEvent(events, incident, kind) {
      var e :| 0 <= e < |events| && events[e].incident == incident && events[e].kind == kind;
      assert after[e] == events[e];
    }
    assert after[|events|] == added;
  }

  /** The queue after new rows are appended for the event at position `event`. */
  lemma QueueAfterAppend(w: World, event: nat, to: seq<string>, now: Time)
    requires QueueOk(w)
    ensures QueueOk(w.(deliveries := w.deliveries + NewDeliveries(event, to, now)))
  {
    var v := w.(deliveries := w.deliveries + NewDeliveries(event, to, now));
    forall k | 0 <= k < |v.deliveries| ensures Valid(v.deliveries[k])
      ensures k >= |w.deliveries| ==> v.deliveries[k].leaseToken.None?
    {
      if k >= |w.deliveries| {
        assert v.deliveries[k] == NewDelivery(event, to[k - |w.deliveries|], now);
      }
    }
  }

  lemma OpenIncidentLinks(w: World, d: nat, kind: Kind, reason: Reason, now: Time, to: seq<string>)
    requires Tables(w) && d in w.devices && !HasOpen(w.incidents, d, kind)
    ensures var v := OpenIncident(w, d, kind, reason, now, to);
      Linked(v) && DistinctEvents(v) && OnlyLastOpen(v)
  {
    var v := OpenIncident(w, d, kind, reason, now, to);
    forall i, j | 0 <= i < j < |v.incidents|
                  && v.incidents[i].device == v.incidents[j].device && v.incidents[i].kind == v.incidents[j].kind
      ensures v.incidents[i].closedAt.Some?
    {
      assert j == |w.incidents| ==> !IsOpen(w.incidents[i], d, kind);
    }
    forall e | 0 <= e < |w.events| ensures v.events[e] == w.events[e] && v.events[e].incident < |w.incidents| {
    }
    forall k | 0 <= k < |v.deliveries| ensures v.deliveries[k].event < |v.events| {
      assert k >= |w.deliveries| ==> v.deliveries[k] == NewDelivery(|w.events|, to[k - |w.deliveries|], now);
    }
  }

  lemma OpenIncidentAnnounces(w: World, d: nat, kind: Kind, reason: Reason, now: Time, to: seq<string>)
    requires Tables(w) && d in w.devices
    ensures var v := OpenIncident(w, d, kind, reason, now, to);
      && Announced(v)
      && HasOpen(v.incidents, d, kind) && SameOpenExcept(w, v, d, kind)
  {
    var i := |w.incidents|;
    var v := OpenIncident(w, d, kind, reason, now, to);
    var added := Incident(d, kind, now, None, None, Some(reason));
    var event := AlertEvent(i, d, Opening(kind), now);
    assert v.incidents == w.incidents + [added] && v.events == w.events + [event];
    forall e, k ensures HasOpen(v.incidents, e, k) <==> HasOpen(w.incidents, e, k) || IsOpen(added, e, k) {
      OpenAfterAppend(w.incidents, added, e, k);
    }
    forall j, k ensures HasEvent(v.events, j, k) <==> HasEvent(w.events, j, k) || (j == i && k == Opening(kind)) {
      EventAfterAppend(w.events, event, j, k);
    }
    assert !HasEvent(w.events, i, Closing(kind));
  }

  lemma OpenIncidentQueues(w: World, d: nat, kind: Kind, reason: Reason, now: Time, to: seq<string>)
    requires Tables(w)
    ensures var v := OpenIncident(w, d, kind, reason, now, to);
      QueueOk(v) && Silenced(v) && Extends(w, v)
  {
    var v := OpenIncident(w, d, kind, reason, now, to);
    QueueAfterAppend(w, |w.events|, to, now);
    assert forall k :: 0 <= k < |w.deliveries| ==> v.deliveries[k] == w.deliveries[k];
    forall k | 0 <= k < |v.deliveries| && Stale(v, k)
      ensures !Waiting(v.deliveries[k].status)
      ensures v.deliveries[k].status == InProgress ==> v.deliveries[k].supersededAt.Some?
    {
      assert Stale(w, k);
    }
  }

  /** Opening an incident keeps the ledger, and leaves exactly that incident open in addition. */
  lemma EnsureOpenKeeps(w: World, d: nat, kind: Kind, reason: Reason, now: Time, to: seq<string>)
    requires Tables(w) && d in w.devices
    ensures var v := EnsureOpen(w, d, kind, reason, now, to);
      && Tables(v) && Extends(w, v) && v.devices == w.devices
      && HasOpen(v.incidents, d, kind) && SameOpenExcept(w, v, d, kind)
  {
    hide Linked, DistinctEvents, Announced, OnlyLastOpen, Silenced;
    if ActiveIncident(w, d, kind).None? {
      OpenIncidentLinks(w, d, kind, reason, now, to);
      OpenIncidentAnnounces(w, d, kind, reason, now, to);
      OpenIncidentQueues(w, d, kind, reason, now, to);
    }
  }

  lemma CloseIncidentLinks(w: World, i: nat, why: CloseReason, now: Time, to: seq<string>)
    requires Tables(w) && i < |w.incidents| && w.incidents[i].closedAt.None?
    ensures var v := CloseIncident(w, i, why, now, to);
      Linked(v) && DistinctEvents(v) && OnlyLastOpen(v)
  {
    var v := CloseIncident(w, i, why, now, to);
    forall e, f | 0 <= e < f < |v.events| && v.events[e].incident == v.events[f].incident
      ensures v.events[e].kind != v.events[f].kind
    {
      assert f == |w.events| ==> !HasEvent(w.events, i, Closing(w.incidents[i].kind));
    }
    forall k | 0 <= k < |v.deliveries| ensures v.deliveries[k].event < |v.events| {
      assert k >= |w.deliveries| ==> v.deliveries[k] == NewDelivery(|w.events|, to[k - |w.deliveries|], now);
    }
  }

  lemma CloseIncidentAnnounces(w: World, i: nat, why: CloseReason, now: Time, to: seq<string>)
    requires Tables(w) && i < |w.incidents|
    ensures Announced(CloseIncident(w, i, why, now, to))
  {
    var v := CloseIncident(w, i, why, now, to);
    var event := AlertEvent(i, w.incidents[i].device, Closing(w.incidents[i].kind), now);
    assert v.events == w.events + [event];
    forall j, k ensures HasEvent(v.events, j, k) <==>
                        HasEvent(w.events, j, k) || (j == i && k == Closing(w.incidents[i].kind)) {
      EventAfterAppend(w.events, event, j, k);
    }
  }

  /** Closing the open incident keeps the ledger and leaves none open; its opening
      announcements are no longer waiting. */
  lemma CloseIncidentKeeps(w: World, d: nat, kind: Kind, why: CloseReason, now: Time, to: seq<string>)
    requires Tables(w) && ActiveIncident(w, d, kind).Some?
    ensures var v := CloseIncident(w, ActiveIncident(w, d, kind).value, why, now, to);
      && Tables(v) && Extends(w, v) && v.devices == w.devices
      && !HasOpen(v.incidents, d, kind) && SameOpenExcept(w, v, d, kind)
  {
    var i := ActiveIncident(w, d, kind).value;
    var v := CloseIncident(w, i, why, now, to);
    CloseIncidentLinks(w, i, why, now, to);
    CloseIncidentAnnounces(w, i, why, now, to);
    CloseSettles(w, i, why, now, to);
    forall e, k | e != d || k != kind
      ensures HasOpen(w.incidents, e, k) <==> HasOpen(v.incidents, e, k)
    {
      CloseKeepsOthersOpen(w.incidents, v.incidents, i, e, k);
    }
    forall j | 0 <= j < |v.incidents| ensures !IsOpen(v.incidents[j], d, kind) {
      assert j != i ==> !IsOpen(w.incidents[j], d, kind);
    }
  }

  lemma CloseKeepsOthersOpen(before: seq<Incident>, after: seq<Incident>, i: nat, d: nat, kind: Kind)
    requires i < |before| == |after|
    requires forall j :: 0 <= j < |before| && j != i ==> after[j] == before[j]
    requires !IsOpen(before[i], d, kind) && !IsOpen(after[i], d, kind)
    ensures HasOpen(before, d, kind) <==> HasOpen(after, d, kind)
  {
    if HasOpen(before, d, kind) {
      var j :| 0 <= j < |before| && IsOpen(before[j], d, kind);
      assert IsOpen(after[j], d, kind);
    }
  }

  function Closed(w: World, i: nat, why: CloseReason, now: Time): World
    requires i < |w.incidents|
  {
    w.(incidents := w.incidents[i :=
      w.incidents[i].(closedAt := Some(now), closeReason := Some(why), currentReason := None)])
  }

  lemma ClosingSupersedes(w: World, i: nat, why: CloseReason, now: Time)
    requires QueueOk(w) && i < |w.incidents|
    ensures var v := SupersedeAll(Closed(w, i, why, now), OpeningOf(i), now);
      && QueueOk(v)
      && forall k :: 0 <= k < |w.deliveries| ==> Evolves(w.deliveries[k], v.deliveries[k])
  {
    var v := SupersedeAll(Closed(w, i, why, now), OpeningOf(i), now);
    forall k | 0 <= k < |w.deliveries|
      ensures Evolves(w.deliveries[k], v.deliveries[k])
      ensures v.deliveries[k].leaseToken == w.deliveries[k].leaseToken
      ensures v.deliveries[k].attempts == w.deliveries[k].attempts
    {
      if !Terminal(w.deliveries[k].status) {
        SupersedeEvolves(w.deliveries[k], now);
      }
    }
  }

  /** The queue part of closing incident `i`. */
  lemma CloseSettles(w: World, i: nat, why: CloseReason, now: Time, to: seq<string>)
    requires Tables(w) && i < |w.incidents| && w.incidents[i].closedAt.None?
    ensures var v := CloseIncident(w, i, why, now, to);
      && QueueOk(v) && Silenced(v)
      && |w.deliveries| <= |v.deliveries|
      && (forall k :: 0 <= k < |w.deliveries| ==> Evolves(w.deliveries[k], v.deliveries[k]))
  {
    var v := CloseIncident(w, i, why, now, to);
    var superseded := SupersedeAll(Closed(w, i, why, now), OpeningOf(i), now);
    ClosingSupersedes(w, i, why, now);
    QueueAfterAppend(superseded, |w.events|, to, now);
    hide Evolves, QueueOk;
    ClosingSilences(w, i, why, now, to);
  }

  /** Its opening announcements wait no longer; the others are as they were. */
  lemma ClosingSilences(w: World, i: nat, why: CloseReason, now: Time, to: seq<string>)
    requires Tables(w) && i < |w.incidents| && w.incidents[i].closedAt.None?
    ensures Silenced(CloseIncident(w, i, why, now, to))
  {
    var v := CloseIncident(w, i, why, now, to);
    forall k | 0 <= k < |w.deliveries|
      ensures v.deliveries[k] == SupersededIf(Closed(w, i, why, now), OpeningOf(i), now, w.deliveries[k])
    {
      assert v.deliveries[k] == SupersedeAll(Closed(w, i, why, now), OpeningOf(i), now).deliveries[k];
    }
    forall k | 0 <= k < |v.deliveries| && Stale(v, k)
      ensures !Waiting(v.deliveries[k].status)
      ensures v.deliveries[k].status == InProgress ==> v.deliveries[k].supersededAt.Some?
    {
      if k < |w.deliveries| {
        if w.events[w.deliveries[k].event].incident == i {
          SupersededIsSilent(w.deliveries[k], now);
        } else {
          assert Stale(w, k);
        }
      }
    }
  }

  lemma SupersededIsSilent(d: Delivery, now: Time)
    requires Valid(d)
    ensures !Terminal(d.status) ==> !Waiting(Supersede(d, now).status) && Supersede(d, now).supersededAt.Some?
  {
  }
}
