/** The alerting tables and the transactions on them: availability (server/app/health/service.py),
    GPU incidents (server/app/gpu/service.py) and the notification queue
    (server/app/notifications/service.py). Every function below is one committed transaction,
    or a step inside one; row ids are positions, since no row of these tables is ever deleted. */
module AlertWorld {
  import opened Prelude
  import opened NotificationQueue
  import G = GpuConfirmation

  datatype Availability = Online | Suspect | Offline

  datatype Thresholds = Thresholds(suspectAfter: int, offlineAfter: int)

  datatype Device = Device(
    enabled: bool, startedAt: Time, lastSeenAt: Option<Time>, availability: Availability,
    gpuEnabled: bool, gpuPolicy: G.Policy, gpu: G.Confirmation)

  datatype Kind = AvailabilityKind | GpuKind

  datatype Reason = HeartbeatTimeout | GpuReason(state: G.GpuState)

  datatype CloseReason = HeartbeatReceived | ConfirmedOk

  datatype Incident = Incident(
    device: nat, kind: Kind, openedAt: Time, closedAt: Option<Time>,
    closeReason: Option<CloseReason>, currentReason: Option<Reason>)

  datatype EventKind = DeviceOffline | DeviceRecovered | GpuDegraded | GpuRecovered

  datatype AlertEvent = AlertEvent(incident: nat, device: nat, kind: EventKind, occurredAt: Time)

  /** A claim handed to a worker; its lease token is its position in the list of claims. */
  datatype IssuedClaim = IssuedClaim(delivery: nat, attemptNo: nat)

  datatype World = World(
    devices: map<nat, Device>, incidents: seq<Incident>, events: seq<AlertEvent>,
    deliveries: seq<Delivery>, issued: seq<IssuedClaim>)

  /** The destinations resolved for each kind of event inside the transaction that creates it. */
  datatype Route = Route(offline: seq<string>, recovered: seq<string>,
                         degraded: seq<string>, gpuRecovered: seq<string>)
  {
    function For(kind: EventKind): seq<string> {
      match kind
      case DeviceOffline => offline
      case DeviceRecovered => recovered
      case GpuDegraded => degraded
      case GpuRecovered => gpuRecovered
    }
  }

  predicate ValidThresholds(t: Thresholds) {
    0 < t.suspectAfter < t.offlineAfter
  }

  function AvailabilityAt(baseline: Time, now: Time, t: Thresholds): Availability {
    if now - baseline < t.suspectAfter * SECOND then Online
    else if now - baseline < t.offlineAfter * SECOND then Suspect
    else Offline
  }

  function Baseline(d: Device): Time {
    if d.lastSeenAt.Some? then d.lastSeenAt.value else d.startedAt
  }

  function Opening(kind: Kind): EventKind {
    if kind == AvailabilityKind then DeviceOffline else GpuDegraded
  }

  function Closing(kind: Kind): EventKind {
    if kind == AvailabilityKind then DeviceRecovered else GpuRecovered
  }

  // ----- queries -----

  /** The first open incident of `kind` on device `d` at or after position `from`. */
  function FindOpen(incidents: seq<Incident>, d: nat, kind: Kind, from: nat): (r: Option<nat>)
    requires from <= |incidents|
    ensures r.Some? ==> from <= r.value < |incidents| && IsOpen(incidents[r.value], d, kind)
    ensures r.None? ==> forall i :: from <= i < |incidents| ==> !IsOpen(incidents[i], d, kind)
    decreases |incidents| - from
  {
    if from == |incidents| then None
    else if IsOpen(incidents[from], d, kind) then Some(from)
    else FindOpen(incidents, d, kind, from + 1)
  }

  predicate IsOpen(i: Incident, d: nat, kind: Kind) {
    i.device == d && i.kind == kind && i.closedAt.None?
  }

  function ActiveIncident(w: World, d: nat, kind: Kind): Option<nat> {
    FindOpen(w.incidents, d, kind, 0)
  }

  /** Which deliveries a supersession selects: those announcing the opening of one incident,
      or those announcing any GPU degradation of one device. */
  datatype Selection = OpeningOf(incident: nat) | DegradationsOf(device: nat)

  predicate Selected(w: World, e: nat, s: Selection) {
    && e < |w.events|
    && w.events[e].incident < |w.incidents|
    && var incident := w.incidents[w.events[e].incident];
       match s
       case OpeningOf(i) => w.events[e].incident == i && w.events[e].kind == Opening(incident.kind)
       case DegradationsOf(d) => incident.device == d && incident.kind == GpuKind && w.events[e].kind == GpuDegraded
  }

  // ----- table writes -----

  function Supersessions(w: World, s: Selection, now: Time): (r: seq<Delivery>)
    ensures |r| == |w.deliveries|
    ensures forall k :: 0 <= k < |r| ==> r[k] == SupersededIf(w, s, now, w.deliveries[k])
  {
    seq(|w.deliveries|, k requires 0 <= k < |w.deliveries| => SupersededIf(w, s, now, w.deliveries[k]))
  }

  function SupersededIf(w: World, s: Selection, now: Time, d: Delivery): Delivery {
    if Selected(w, d.event, s) && !Terminal(d.status) then Supersede(d, now) else d
  }

  function SupersedeAll(w: World, s: Selection, now: Time): World {
    w.(deliveries := Supersessions(w, s, now))
  }

  function NewDeliveries(event: nat, to: seq<string>, now: Time): (r: seq<Delivery>)
    ensures |r| == |to|
    ensures forall k :: 0 <= k < |r| ==> r[k] == NewDelivery(event, to[k], now)
  {
    seq(|to|, k requires 0 <= k < |to| => NewDelivery(event, to[k], now))
  }

  function CreateEvent(w: World, incident: nat, device: nat, kind: EventKind, now: Time, to: seq<string>): World {
    w.(events := w.events + [AlertEvent(incident, device, kind, now)],
       deliveries := w.deliveries + NewDeliveries(|w.events|, to, now))
  }

  /** Opens an incident and announces it. */
  function OpenIncident(w: World, d: nat, kind: Kind, reason: Reason, now: Time, to: seq<string>): World {
    CreateEvent(w.(incidents := w.incidents + [Incident(d, kind, now, None, None, Some(reason))]),
                |w.incidents|, d, Opening(kind), now, to)
  }

  function EnsureOpen(w: World, d: nat, kind: Kind, reason: Reason, now: Time, to: seq<string>): World {
    if ActiveIncident(w, d, kind).Some? then w else OpenIncident(w, d, kind, reason, now, to)
  }

  /** Closes an open incident, supersedes its opening announcements, and announces the closing. */
  function CloseIncident(w: World, i: nat, why: CloseReason, now: Time, to: seq<string>): World
    requires i < |w.incidents|
  {
    var incident := w.incidents[i];
    var closed := w.(incidents := w.incidents[i :=
      incident.(closedAt := Some(now), closeReason := Some(why), currentReason := None)]);
    CreateEvent(SupersedeAll(closed, OpeningOf(i), now), i, incident.device, Closing(incident.kind), now, to)
  }

  function SetDevice(w: World, d: nat, row: Device): World {
    w.(devices := w.devices[d := row])
  }

  // ----- availability -----

  function ResetGpuForOffline(w: World, d: nat, now: Time): World
    requires d in w.devices
  {
    SupersedeAll(SetDevice(w, d, w.devices[d].(gpu := G.ResetStreaks(w.devices[d].gpu))), DegradationsOf(d), now)
  }

  /** A device found overdue: its incident exists, and its GPU confirmation starts over. */
  function MarkOffline(w: World, d: nat, now: Time, route: Route): World
    requires d in w.devices
  {
    var marked := SetDevice(w, d, w.devices[d].(availability := Offline));
    ResetGpuForOffline(EnsureOpen(marked, d, AvailabilityKind, HeartbeatTimeout, now, route.For(DeviceOffline)), d, now)
  }

  /** One sweep visit of one device. */
  function EvaluateDevice(w: World, t: Thresholds, d: nat, now: Time, route: Route): World {
    if d !in w.devices || !w.devices[d].enabled then w
    else
      var desired := AvailabilityAt(Baseline(w.devices[d]), now, t);
      if desired == Offline then MarkOffline(w, d, now, route)
      else if w.devices[d].availability != Offline then SetDevice(w, d, w.devices[d].(availability := desired))
      else w
  }

  function CloseForRecovery(w: World, d: nat, now: Time, route: Route): World
    requires d in w.devices
  {
    var active := ActiveIncident(w, d, AvailabilityKind);
    var closed := if active.None? then w
                  else CloseIncident(w, active.value, HeartbeatReceived, now, route.For(DeviceRecovered));
    SetDevice(closed, d, closed.devices[d].(availability := Online))
  }

  /** The availability part of accepting a heartbeat of a known device. */
  function AcceptAvailability(w: World, t: Thresholds, d: nat, now: Time, route: Route): World
    requires d in w.devices
  {
    var overdue := AvailabilityAt(Baseline(w.devices[d]), now, t) == Offline;
    var reconciled := if overdue then MarkOffline(w, d, now, route) else w;
    var seen := SetDevice(reconciled, d, reconciled.devices[d].(lastSeenAt := Some(now)));
    if seen.devices[d].availability == Offline then CloseForRecovery(seen, d, now, route)
    else SetDevice(seen, d, seen.devices[d].(availability := Online))
  }

  // ----- GPU -----

  function UpdateReason(w: World, d: nat, state: G.GpuState): World {
    var active := ActiveIncident(w, d, GpuKind);
    if active.None? then w
    else w.(incidents := w.incidents[active.value :=
             w.incidents[active.value].(currentReason := Some(GpuReason(state)))])
  }

  /** The GPU part of accepting a heartbeat. */
  function AcceptGpu(w: World, d: nat, o: G.Observation, now: Time, route: Route): World
    requires d in w.devices
  {
    var row := w.devices[d];
    var (confirmed, event) := G.Evaluate(row.gpu, o, row.gpuPolicy, now, row.gpuEnabled && row.availability != Offline);
    var updated := SetDevice(w, d, row.(gpu := confirmed));
    match event
    case Degraded => EnsureOpen(updated, d, GpuKind, GpuReason(confirmed.state), now, route.For(GpuDegraded))
    case Recovered =>
      var active := ActiveIncident(updated, d, GpuKind);
      if active.None? then updated
      else CloseIncident(updated, active.value, ConfirmedOk, now, route.For(GpuRecovered))
    case NoEvent =>
      if confirmed.state == G.GpuOk || confirmed.state == G.NotMonitored then updated
      else UpdateReason(updated, d, confirmed.state)
  }

  /** A new heartbeat of a known device: availability first, then the GPU check. */
  function AcceptHeartbeat(w: World, t: Thresholds, d: nat, o: G.Observation, now: Time, route: Route): World
    requires d in w.devices
  {
    AcceptGpu(AcceptAvailability(w, t, d, now, route), d, o, now, route)
  }

  // ----- device administration (server/app/devices/service.py:246-257, 299-321) -----

  function EnrollDevice(w: World, d: nat, gpuEnabled: bool, policy: G.Policy, now: Time): World {
    if d in w.devices then w
    else SetDevice(w, d, Device(true, now, None, Online, gpuEnabled, policy, G.Initial()))
  }

  function SetEnabled(w: World, d: nat, enabled: bool, now: Time): World {
    if d !in w.devices || w.devices[d].enabled == enabled then w
    else SetDevice(w, d, w.devices[d].(enabled := enabled,
                                       startedAt := if enabled then now else w.devices[d].startedAt))
  }

  function SetGpuPolicy(w: World, d: nat, gpuEnabled: bool, policy: G.Policy): World {
    if d !in w.devices then w
    else SetDevice(w, d, w.devices[d].(gpuEnabled := gpuEnabled, gpuPolicy := policy))
  }

  // ----- the queue; `locked` are the rows another transaction holds, which every query skips -----

  function ExpiredIf(k: nat, d: Delivery, now: Time, locked: set<nat>): Delivery {
    if k !in locked && Lapsed(d, now) then Expire(d) else d
  }

  function ExpireUnclaimed(w: World, now: Time, locked: set<nat>): World {
    w.(deliveries := seq(|w.deliveries|, k requires 0 <= k < |w.deliveries| =>
                           ExpiredIf(k, w.deliveries[k], now, locked)))
  }

  function RecoveredIf(k: nat, d: Delivery, now: Time, locked: set<nat>): Delivery {
    if k !in locked && Stuck(d, now) then Recover(d, now) else d
  }

  function RecoverStuck(w: World, now: Time, locked: set<nat>): World {
    w.(deliveries := seq(|w.deliveries|, k requires 0 <= k < |w.deliveries| =>
                           RecoveredIf(k, w.deliveries[k], now, locked)))
  }

  predicate Claimable(ds: seq<Delivery>, k: nat, now: Time, locked: set<nat>) {
    k < |ds| && k !in locked && Due(ds[k], now)
  }

  /** The claim order: earliest due time first, then lowest id. */
  predicate ClaimsBefore(ds: seq<Delivery>, j: nat, k: nat)
    requires j < |ds| && k < |ds| && ds[j].nextAttemptAt.Some? && ds[k].nextAttemptAt.Some?
  {
    || ds[j].nextAttemptAt.value < ds[k].nextAttemptAt.value
    || (ds[j].nextAttemptAt == ds[k].nextAttemptAt && j < k)
  }

  /** `picks` are the first `limit` claimable rows in claim order. */
  ghost predicate EarliestDue(ds: seq<Delivery>, picks: seq<nat>, limit: nat, now: Time, locked: set<nat>) {
    && |picks| <= limit
    && (forall i :: 0 <= i < |picks| ==> Claimable(ds, picks[i], now, locked))
    && (forall i, j :: 0 <= i < j < |picks| ==> ClaimsBefore(ds, picks[i], picks[j]))
    && (forall k :: Claimable(ds, k, now, locked) && k !in picks ==>
          |picks| == limit && forall i :: 0 <= i < |picks| ==> ClaimsBefore(ds, picks[i], k))
  }

  function ClaimOne(w: World, k: nat, now: Time): World
    requires k < |w.deliveries|
  {
    w.(deliveries := w.deliveries[k := Claim(w.deliveries[k], now, |w.issued|)],
       issued := w.issued + [IssuedClaim(k, w.deliveries[k].attemptCount + 1)])
  }

  function ClaimAll(w: World, picks: seq<nat>, now: Time): (r: World)
    requires forall i :: 0 <= i < |picks| ==> picks[i] < |w.deliveries|
    ensures |r.deliveries| == |w.deliveries|
  {
    if picks == [] then w
    else
      var last := |picks| - 1;
      ClaimOne(ClaimAll(w, picks[..last], now), picks[last], now)
  }

  /** A worker reporting a result for a claim it once received, however late or often. The result
      is dropped unless the delivery still holds that claim's lease. */
  function RecordResult(w: World, claim: nat, r: ProviderResult, now: Time, jitter: int): Result<World, string>
    requires claim < |w.issued|
  {
    var IssuedClaim(k, attemptNo) := w.issued[claim];
    if k >= |w.deliveries| || w.deliveries[k].status != InProgress || w.deliveries[k].leaseToken != Some(claim) then Ok(w)
    else if attemptNo !in w.deliveries[k].attempts then Err("Claimed notification attempt is missing.")
    else Ok(w.(deliveries := w.deliveries[k := Finish(w.deliveries[k], attemptNo, r, now, jitter)]))
  }
}
