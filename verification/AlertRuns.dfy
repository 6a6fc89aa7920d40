/** Runs of the alerting system: any interleaving of sweeps, heartbeats, administration and
    queue transactions, and what holds after every one of them. */
module AlertRuns {
  import opened Prelude
  import opened NotificationQueue
  import opened AlertWorld
  import opened AlertInvariants
  import G = GpuConfirmation

  /** One committed transaction. */
  datatype Txn =
    | Enroll(device: nat, gpuEnabled: bool, policy: G.Policy)
    | Enable(device: nat, enabled: bool)
    | SetPolicy(device: nat, gpuEnabled: bool, policy: G.Policy)
    | Sweep(device: nat, route: Route)
    | Beat(device: nat, observation: G.Observation, route: Route)
    | Claims(picks: seq<nat>, limit: nat, expiryLocked: set<nat>, locked: set<nat>)
    | Report(claim: nat, result: ProviderResult, jitter: int)
    | Reclaim(locked: set<nat>)

  /** A transaction and the database time it read. */
  datatype Timed = Timed(now: Time, txn: Txn)

  /** What the callers guarantee: an authenticated, enabled device sends a heartbeat; a worker
      reports only claims it was given; the claim query returns the rows it selects. */
  ghost predicate Enabled(w: World, t: Timed) {
    match t.txn
    case Beat(d, _, _) => d in w.devices && w.devices[d].enabled
    case Claims(picks, limit, expiryLocked, locked) =>
      1 <= limit <= 4 && EarliestDue(ExpireUnclaimed(w, t.now, expiryLocked).deliveries, picks, limit, t.now, locked)
    case Report(claim, _, _) => claim < |w.issued|
    case _ => true
  }

  ghost function Apply(w: World, thresholds: Thresholds, t: Timed): World
    requires Enabled(w, t)
  {
    match t.txn
    case Enroll(d, gpuEnabled, policy) => EnrollDevice(w, d, gpuEnabled, policy, t.now)
    case Enable(d, enabled) => SetEnabled(w, d, enabled, t.now)
    case SetPolicy(d, gpuEnabled, policy) => SetGpuPolicy(w, d, gpuEnabled, policy)
    case Sweep(d, route) => EvaluateDevice(w, thresholds, d, t.now, route)
    case Beat(d, o, route) => AcceptHeartbeat(w, thresholds, d, o, t.now, route)
    case Claims(picks, _, expiryLocked, _) => ClaimAll(ExpireUnclaimed(w, t.now, expiryLocked), picks, t.now)
    case Report(claim, result, jitter) =>
      var r := RecordResult(w, claim, result, t.now, jitter);
      if r.Ok? then r.value else w
    case Reclaim(locked) => RecoverStuck(w, t.now, locked)
  }

  // ----- device writes -----

  lemma SetDeviceKeepsTables(w: World, d: nat, row: Device)
    requires Tables(w)
    ensures Tables(SetDevice(w, d, row)) && Extends(w, SetDevice(w, d, row))
  {
    var v := SetDevice(w, d, row);
    assert forall k :: 0 <= k < |w.deliveries| && Stale(v, k) ==> Stale(w, k);
  }

  lemma SameCoherence(w: World, v: World, d: nat)
    requires d in w.devices && d in v.devices && Coherent(w, d)
    requires v.devices[d].availability == w.devices[d].availability
    requires v.devices[d].gpu.state == w.devices[d].gpu.state
    requires forall kind :: HasOpen(w.incidents, d, kind) <==> HasOpen(v.incidents, d, kind)
    ensures Coherent(v, d)
  {
  }

  /** A step that touched only device `d` and its `kind` incidents left the others coherent. */
  lemma OthersStayCoherent(w: World, v: World, d: nat, kind: Kind)
    requires CoherentExcept(w, d) && SameOpenExcept(w, v, d, kind)
    requires v.devices.Keys == w.devices.Keys
    requires forall e :: e in w.devices && e != d ==> v.devices[e] == w.devices[e]
    ensures CoherentExcept(v, d)
  {
    forall e | e in v.devices && e != d ensures Coherent(v, e) {
      SameCoherence(w, v, e);
    }
  }

  // ----- availability transactions -----

  lemma MarkOfflineKeeps(w: World, d: nat, now: Time, route: Route)
    requires Tables(w) && d in w.devices && CoherentExcept(w, d) && GpuCoherent(w, d)
    ensures var v := MarkOffline(w, d, now, route);
      && Tables(v) && Extends(w, v) && CoherentExcept(v, d) && Coherent(v, d)
      && v.devices.Keys == w.devices.Keys
      && v.devices[d] == w.devices[d].(availability := Offline, gpu := G.ResetStreaks(w.devices[d].gpu))
  {
    hide Tables, Extends;
    var marked := SetDevice(w, d, w.devices[d].(availability := Offline));
    SetDeviceKeepsTables(w, d, marked.devices[d]);
    var announced := EnsureOpen(marked, d, AvailabilityKind, HeartbeatTimeout, now, route.For(DeviceOffline));
    EnsureOpenKeeps(marked, d, AvailabilityKind, HeartbeatTimeout, now, route.For(DeviceOffline));
    OthersStayCoherent(w, announced, d, AvailabilityKind);
    var row := announced.devices[d].(gpu := G.ResetStreaks(announced.devices[d].gpu));
    var reset := SetDevice(announced, d, row);
    SetDeviceKeepsTables(announced, d, row);
    SupersedeAllKeeps(reset, DegradationsOf(d), now);
    var v := MarkOffline(w, d, now, route);
    assert v.incidents == announced.incidents;
    OthersStayCoherent(announced, v, d, AvailabilityKind);
    ExtendsTransitive(w, marked, announced);
    ExtendsTransitive(w, announced, reset);
    ExtendsTransitive(w, reset, v);
  }

  lemma EvaluateKeepsInv(w: World, t: Thresholds, d: nat, now: Time, route: Route)
    requires Inv(w)
    ensures var v := EvaluateDevice(w, t, d, now, route); Inv(v) && Extends(w, v)
  {
    var v := EvaluateDevice(w, t, d, now, route);
    ExtendsReflexive(w);
    if d in w.devices && w.devices[d].enabled {
      if AvailabilityAt(Baseline(w.devices[d]), now, t) == Offline {
        MarkOfflineKeeps(w, d, now, route);
        assert forall e :: e in v.devices ==> Coherent(v, e);
      } else if w.devices[d].availability != Offline {
        SetDeviceKeepsTables(w, d, v.devices[d]);
        forall e | e in v.devices ensures Coherent(v, e) {
          assert Coherent(w, e);
        }
      }
    }
  }

  lemma ExtendsReflexive(w: World)
    requires Tables(w)
    ensures Extends(w, w)
  {
  }

  lemma InvExtendsItself(w: World)
    requires Inv(w)
    ensures Extends(w, w)
  {
  }

  lemma CloseForRecoveryKeeps(w: World, d: nat, now: Time, route: Route)
    requires Tables(w) && d in w.devices && CoherentExcept(w, d) && GpuCoherent(w, d)
    ensures var v := CloseForRecovery(w, d, now, route);
      && Tables(v) && Extends(w, v) && CoherentExcept(v, d) && Coherent(v, d)
      && v.devices.Keys == w.devices.Keys
      && v.devices[d] == w.devices[d].(availability := Online)
  {
    hide Tables, Extends;
    var v := CloseForRecovery(w, d, now, route);
    var active := ActiveIncident(w, d, AvailabilityKind);
    var closed := if active.None? then w
                  else CloseIncident(w, active.value, HeartbeatReceived, now, route.For(DeviceRecovered));
    if active.None? {
      ExtendsReflexive(w);
    } else {
      CloseIncidentKeeps(w, d, AvailabilityKind, HeartbeatReceived, now, route.For(DeviceRecovered));
    }
    assert !HasOpen(closed.incidents, d, AvailabilityKind);
    SetDeviceKeepsTables(closed, d, v.devices[d]);
    ExtendsTransitive(w, closed, v);
    OthersStayCoherent(w, v, d, AvailabilityKind);
  }

  lemma AcceptAvailabilityKeeps(w: World, t: Thresholds, d: nat, now: Time, route: Route)
    requires Inv(w) && d in w.devices
    ensures var v := AcceptAvailability(w, t, d, now, route);
      && Inv(v) && Extends(w, v)
      && v.devices.Keys == w.devices.Keys
      && v.devices[d].availability == Online && v.devices[d].lastSeenAt == Some(now)
  {
    hide Tables, Extends;
    var overdue := AvailabilityAt(Baseline(w.devices[d]), now, t) == Offline;
    var reconciled := if overdue then MarkOffline(w, d, now, route) else w;
    if overdue {
      MarkOfflineKeeps(w, d, now, route);
    } else {
      ExtendsReflexive(w);
    }
    var row := reconciled.devices[d].(lastSeenAt := Some(now));
    var seen := SetDevice(reconciled, d, row);
    SetDeviceKeepsTables(reconciled, d, row);
    ExtendsTransitive(w, reconciled, seen);
    OthersStayCoherent(reconciled, seen, d, AvailabilityKind);
    var v := AcceptAvailability(w, t, d, now, route);
    if row.availability == Offline {
      CloseForRecoveryKeeps(seen, d, now, route);
      ExtendsTransitive(w, seen, v);
    } else {
      SetDeviceKeepsTables(seen, d, v.devices[d]);
      ExtendsTransitive(w, seen, v);
      OthersStayCoherent(seen, v, d, AvailabilityKind);
      assert Coherent(v, d);
    }
    assert forall e :: e in v.devices ==> Coherent(v, e);
  }

  // ----- GPU transactions -----

  /** Rewriting the reason of an incident changes nothing the ledger speaks of. */
  ghost predicate SameShape(before: seq<Incident>, after: seq<Incident>) {
    && |before| == |after|
    && forall i :: 0 <= i < |before| ==>
         && after[i].device == before[i].device && after[i].kind == before[i].kind
         && after[i].closedAt == before[i].closedAt && after[i].openedAt == before[i].openedAt
  }

  lemma SameShapeSameOpen(before: seq<Incident>, after: seq<Incident>, d: nat, kind: Kind)
    requires SameShape(before, after)
    ensures HasOpen(before, d, kind) <==> HasOpen(after, d, kind)
  {
    if HasOpen(before, d, kind) {
      var i :| 0 <= i < |before| && IsOpen(before[i], d, kind);
      assert IsOpen(after[i], d, kind);
    }
    if HasOpen(after, d, kind) {
      var i :| 0 <= i < |after| && IsOpen(after[i], d, kind);
      assert IsOpen(before[i], d, kind);
    }
  }

  lemma SameShapeSameTables(w: World, incidents: seq<Incident>)
    requires Tables(w) && SameShape(w.incidents, incidents)
    ensures Tables(w.(incidents := incidents)) && Extends(w, w.(incidents := incidents))
  {
    var v := w.(incidents := incidents);
    assert forall k :: 0 <= k < |w.deliveries| && Stale(v, k) ==> Stale(w, k);
  }

  lemma UpdateReasonKeeps(w: World, d: nat, state: G.GpuState)
    requires Tables(w)
    ensures var v := UpdateReason(w, d, state);
      && Tables(v) && Extends(w, v) && v.devices == w.devices
      && forall e, kind :: HasOpen(w.incidents, e, kind) <==> HasOpen(v.incidents, e, kind)
  {
    hide Tables, Extends;
    var v := UpdateReason(w, d, state);
    SameShapeSameTables(w, v.incidents);
    forall e, kind ensures HasOpen(w.incidents, e, kind) <==> HasOpen(v.incidents, e, kind) {
      SameShapeSameOpen(w.incidents, v.incidents, e, kind);
    }
  }

  /** The row of `d` after its GPU check, before its incident is opened, closed or given another reason. */
  function Checked(w: World, d: nat, o: G.Observation, now: Time): World
    requires d in w.devices
  {
    var row := w.devices[d];
    SetDevice(w, d, row.(gpu :=
      G.Evaluate(row.gpu, o, row.gpuPolicy, now, row.gpuEnabled && row.availability != Offline).0))
  }

  lemma GpuEventKeeps(w: World, d: nat, o: G.Observation, now: Time, route: Route)
    requires d in w.devices && Tables(Checked(w, d, o, now)) && GpuCoherent(w, d)
    ensures var (u, v) := (Checked(w, d, o, now), AcceptGpu(w, d, o, now, route));
      && Tables(v) && Extends(u, v) && v.devices == u.devices
      && SameOpenExcept(u, v, d, GpuKind) && GpuCoherent(v, d)
  {
    hide Tables, Extends;
    var row := w.devices[d];
    var (confirmed, event) := G.Evaluate(row.gpu, o, row.gpuPolicy, now, row.gpuEnabled && row.availability != Offline);
    var updated := Checked(w, d, o, now);
    var v := AcceptGpu(w, d, o, now, route);
    match event {
      case Degraded =>
        EnsureOpenKeeps(updated, d, GpuKind, GpuReason(confirmed.state), now, route.For(GpuDegraded));
      case Recovered =>
        if ActiveIncident(updated, d, GpuKind).Some? {
          CloseIncidentKeeps(updated, d, GpuKind, ConfirmedOk, now, route.For(GpuRecovered));
        } else {
          ExtendsReflexive(updated);
        }
        assert !HasOpen(v.incidents, d, GpuKind);
      case NoEvent =>
        if confirmed.state == G.GpuOk || confirmed.state == G.NotMonitored {
          ExtendsReflexive(updated);
        } else {
          UpdateReasonKeeps(updated, d, confirmed.state);
        }
    }
  }

  lemma AcceptGpuKeeps(w: World, d: nat, o: G.Observation, now: Time, route: Route)
    requires Inv(w) && d in w.devices
    ensures var v := AcceptGpu(w, d, o, now, route); Inv(v) && Extends(w, v)
  {
    hide Tables, Extends, AcceptGpu, G.Evaluate, GpuCoherent, HasOpen;
    assert Coherent(w, d);
    var updated, v := Checked(w, d, o, now), AcceptGpu(w, d, o, now, route);
    SetDeviceKeepsTables(w, d, updated.devices[d]);
    GpuEventKeeps(w, d, o, now, route);
    ExtendsTransitive(w, updated, v);
    OthersStayCoherent(w, v, d, GpuKind);
    assert Coherent(v, d);
  }

  lemma HeartbeatKeepsInv(w: World, t: Thresholds, d: nat, o: G.Observation, now: Time, route: Route)
    requires Inv(w) && d in w.devices
    ensures var v := AcceptHeartbeat(w, t, d, o, now, route); Inv(v) && Extends(w, v)
  {
    AcceptAvailabilityKeeps(w, t, d, now, route);
    var available := AcceptAvailability(w, t, d, now, route);
    AcceptGpuKeeps(available, d, o, now, route);
    ExtendsTransitive(w, available, AcceptHeartbeat(w, t, d, o, now, route));
  }

  // ----- administration -----

  lemma AdministrationKeepsInv(w: World, d: nat, row: Device)
    requires Inv(w)
    requires d in w.devices ==> row.availability == w.devices[d].availability && row.gpu == w.devices[d].gpu
    requires d !in w.devices ==> row.availability == Online && row.gpu == G.Initial()
    ensures Inv(SetDevice(w, d, row)) && Extends(w, SetDevice(w, d, row))
  {
    var v := SetDevice(w, d, row);
    SetDeviceKeepsTables(w, d, row);
    forall e | e in v.devices ensures Coherent(v, e) {
      if e in w.devices {
        assert Coherent(w, e);
      } else {
        assert forall i :: 0 <= i < |w.incidents| ==> w.incidents[i].device in w.devices;
      }
    }
  }

  // ----- queue transactions -----

  /** A step that replaced delivery rows by later versions of themselves keeps the invariant. */
  lemma QueueStepKeepsInv(w: World, v: World)
    requires Inv(w)
    requires v.devices == w.devices && v.incidents == w.incidents && v.events == w.events && w.issued <= v.issued
    requires |v.deliveries| == |w.deliveries|
    requires forall k :: 0 <= k < |w.deliveries| ==> Evolves(w.deliveries[k], v.deliveries[k])
    requires QueueOk(v)
    ensures Inv(v) && Extends(w, v)
  {
    forall k | 0 <= k < |v.deliveries| && Stale(v, k)
      ensures !Waiting(v.deliveries[k].status)
      ensures v.deliveries[k].status == InProgress ==> v.deliveries[k].supersededAt.Some?
    {
      assert Stale(w, k);
      assert Evolves(w.deliveries[k], v.deliveries[k]);
    }
    forall d | d in v.devices ensures Coherent(v, d) {
      assert Coherent(w, d);
    }
  }

  lemma RecoverStuckKeepsInv(w: World, now: Time, locked: set<nat>)
    requires Inv(w)
    ensures var v := RecoverStuck(w, now, locked); Inv(v) && Extends(w, v)
  {
    var v := RecoverStuck(w, now, locked);
    forall k | 0 <= k < |w.deliveries|
      ensures Evolves(w.deliveries[k], v.deliveries[k])
      ensures v.deliveries[k].leaseToken.Some? ==> v.deliveries[k] == w.deliveries[k]
      ensures v.deliveries[k].attempts.Keys == w.deliveries[k].attempts.Keys
    {
      if k !in locked && Stuck(w.deliveries[k], now) {
        RecoverEvolves(w.deliveries[k], now);
      }
    }
    QueueStepKeepsInv(w, v);
  }

  lemma ExpireUnclaimedKeepsInv(w: World, now: Time, locked: set<nat>)
    requires Inv(w)
    ensures var v := ExpireUnclaimed(w, now, locked); Inv(v) && Extends(w, v)
  {
    var v := ExpireUnclaimed(w, now, locked);
    forall k | 0 <= k < |w.deliveries|
      ensures Evolves(w.deliveries[k], v.deliveries[k])
      ensures v.deliveries[k].leaseToken.Some? ==> v.deliveries[k] == w.deliveries[k]
      ensures v.deliveries[k].attempts == w.deliveries[k].attempts
    {
      if k !in locked && Lapsed(w.deliveries[k], now) {
        ExpireEvolves(w.deliveries[k]);
      }
    }
    QueueStepKeepsInv(w, v);
  }

  lemma ClaimOneKeepsInv(w: World, k: nat, now: Time)
    requires Inv(w) && k < |w.deliveries| && Due(w.deliveries[k], now)
    ensures var v := ClaimOne(w, k, now); Inv(v) && Extends(w, v)
  {
    var v := ClaimOne(w, k, now);
    ClaimedQueueOk(w, k, now);
    hide Claim, QueueOk, Linked, DistinctEvents, Announced, OnlyLastOpen, Silenced, Coherent, Due;
    QueueStepKeepsInv(w, v);
  }

  lemma ClaimedQueueOk(w: World, k: nat, now: Time)
    requires QueueOk(w) && k < |w.deliveries| && Due(w.deliveries[k], now)
    ensures QueueOk(ClaimOne(w, k, now))
    ensures forall j :: 0 <= j < |w.deliveries| ==> Evolves(w.deliveries[j], ClaimOne(w, k, now).deliveries[j])
  {
    ClaimEvolves(w.deliveries[k], now, |w.issued|);
  }

  /** Claiming distinct rows: each is claimed once with its own token, the others stay. */
  lemma {:induction false} ClaimedRows(w: World, picks: seq<nat>, now: Time)
    requires forall i :: 0 <= i < |picks| ==> picks[i] < |w.deliveries|
    requires forall i, j :: 0 <= i < j < |picks| ==> picks[i] != picks[j]
    ensures var v := ClaimAll(w, picks, now);
      && (forall k :: 0 <= k < |w.deliveries| && k !in picks ==> v.deliveries[k] == w.deliveries[k])
      && |v.issued| == |w.issued| + |picks|
      && (forall i :: 0 <= i < |picks| ==>
            v.deliveries[picks[i]] == Claim(w.deliveries[picks[i]], now, |w.issued| + i))
  {
    hide Claim;
    if picks != [] {
      ClaimedRows(w, picks[..|picks| - 1], now);
    }
  }

  lemma {:induction false} ClaimAllKeepsInv(w: World, picks: seq<nat>, now: Time)
    requires Inv(w)
    requires forall i :: 0 <= i < |picks| ==> picks[i] < |w.deliveries| && Due(w.deliveries[picks[i]], now)
    requires forall i, j :: 0 <= i < j < |picks| ==> picks[i] != picks[j]
    ensures Inv(ClaimAll(w, picks, now)) && Extends(w, ClaimAll(w, picks, now))
  {
    hide Inv, Extends, ClaimOne, Claim;
    if picks == [] {
      InvExtendsItself(w);
    } else {
      var last := |picks| - 1;
      var u := ClaimAll(w, picks[..last], now);
      ClaimAllKeepsInv(w, picks[..last], now);
      ClaimedRows(w, picks[..last], now);
      assert picks[last] !in picks[..last];
      ClaimOneKeepsInv(u, picks[last], now);
      ExtendsTransitive(w, u, ClaimOne(u, picks[last], now));
    }
  }

  lemma ClaimsKeepInv(w: World, picks: seq<nat>, limit: nat, now: Time, expiryLocked: set<nat>, locked: set<nat>)
    requires Inv(w) && EarliestDue(ExpireUnclaimed(w, now, expiryLocked).deliveries, picks, limit, now, locked)
    ensures var v := ClaimAll(ExpireUnclaimed(w, now, expiryLocked), picks, now);
      Inv(v) && Extends(w, v)
  {
    hide Inv, Extends;
    var expired := ExpireUnclaimed(w, now, expiryLocked);
    ExpireUnclaimedKeepsInv(w, now, expiryLocked);
    ClaimAllKeepsInv(expired, picks, now);
    ExtendsTransitive(w, expired, ClaimAll(expired, picks, now));
  }

  /** A returned claim finds its attempt: the missing-attempt error cannot be raised. */
  lemma ReportFindsItsAttempt(w: World, claim: nat, r: ProviderResult, now: Time, jitter: int)
    requires Inv(w) && claim < |w.issued|
    ensures RecordResult(w, claim, r, now, jitter).Ok?
  {
  }

  /** A result whose lease was lost changes nothing at the moment it arrives. */
  lemma StaleReportChangesNothing(w: World, claim: nat, r: ProviderResult, now: Time, jitter: int)
    requires Inv(w) && claim < |w.issued|
    requires w.deliveries[w.issued[claim].delivery].leaseToken != Some(claim)
    ensures RecordResult(w, claim, r, now, jitter) == Ok(w)
  {
  }

  lemma LeasesAreIssued(w: World)
    requires Inv(w)
    ensures forall k :: 0 <= k < |w.deliveries| && w.deliveries[k].leaseToken.Some? ==>
      w.deliveries[k].leaseToken.value < |w.issued|
  {
  }

  /** After a report nobody holds its lease any more, and no lease was handed out by it. */
  lemma ReportReleasesItsLease(w: World, claim: nat, r: ProviderResult, now: Time, jitter: int)
    requires Inv(w) && claim < |w.issued|
    ensures var v := RecordResult(w, claim, r, now, jitter);
      && v.Ok? && |v.value.deliveries| == |w.deliveries| && v.value.issued == w.issued
      && forall k :: 0 <= k < |w.deliveries| ==>
           && v.value.deliveries[k].leaseToken != Some(claim)
           && (v.value.deliveries[k].leaseToken.Some? ==>
                 v.value.deliveries[k].leaseToken == w.deliveries[k].leaseToken)
  {
  }

  lemma ReportKeepsInv(w: World, claim: nat, r: ProviderResult, now: Time, jitter: int)
    requires Inv(w) && claim < |w.issued|
    ensures var v := RecordResult(w, claim, r, now, jitter); v.Ok? && Inv(v.value) && Extends(w, v.value)
  {
    ReportFindsItsAttempt(w, claim, r, now, jitter);
    var k := w.issued[claim].delivery;
    ExtendsReflexive(w);
    if w.deliveries[k].leaseToken == Some(claim) {
      var d := w.deliveries[k];
      var v := RecordResult(w, claim, r, now, jitter).value;
      FinishEvolves(d, r, now, jitter);
      assert v.deliveries[k] == Finish(d, d.attemptCount, r, now, jitter);
      assert v.deliveries[k].attempts.Keys == d.attempts.Keys;
      QueueStepKeepsInv(w, v);
    }
  }

  // ----- every transaction, every run -----

  lemma TxnKeepsInv(w: World, thresholds: Thresholds, t: Timed)
    requires Inv(w) && Enabled(w, t)
    ensures Inv(Apply(w, thresholds, t)) && Extends(w, Apply(w, thresholds, t))
  {
    ExtendsReflexive(w);
    match t.txn
    case Enroll(d, gpuEnabled, policy) =>
      if d !in w.devices {
        AdministrationKeepsInv(w, d, Device(true, t.now, None, Online, gpuEnabled, policy, G.Initial()));
      }
    case Enable(d, enabled) =>
      if d in w.devices && w.devices[d].enabled != enabled {
        AdministrationKeepsInv(w, d, SetEnabled(w, d, enabled, t.now).devices[d]);
      }
    case SetPolicy(d, gpuEnabled, policy) =>
      if d in w.devices {
        AdministrationKeepsInv(w, d, w.devices[d].(gpuEnabled := gpuEnabled, gpuPolicy := policy));
      }
    case Sweep(d, route) => EvaluateKeepsInv(w, thresholds, d, t.now, route);
    case Beat(d, o, route) => HeartbeatKeepsInv(w, thresholds, d, o, t.now, route);
    case Claims(picks, limit, expiryLocked, locked) =>
      ClaimsKeepInv(w, picks, limit, t.now, expiryLocked, locked);
    case Report(claim, result, jitter) => ReportKeepsInv(w, claim, result, t.now, jitter);
    case Reclaim(locked) => RecoverStuckKeepsInv(w, t.now, locked);
  }

  function Empty(): World {
    World(map[], [], [], [], [])
  }

  ghost predicate ValidRun(w: World, thresholds: Thresholds, run: seq<Timed>)
    decreases |run|
  {
    run == [] ||
    (&& Enabled(w, run[0])
     && ValidRun(Apply(w, thresholds, run[0]), thresholds, run[1..]))
  }

  ghost function Run(w: World, thresholds: Thresholds, run: seq<Timed>): World
    requires ValidRun(w, thresholds, run)
    decreases |run|
  {
    if run == [] then w else Run(Apply(w, thresholds, run[0]), thresholds, run[1..])
  }

  /** After any run from empty tables, the whole ledger is coherent. */
  lemma {:induction false} RunKeepsInv(w: World, thresholds: Thresholds, run: seq<Timed>)
    requires Inv(w) && ValidRun(w, thresholds, run)
    ensures Inv(Run(w, thresholds, run)) && Extends(w, Run(w, thresholds, run))
    decreases |run|
  {
    if run == [] {
      ExtendsReflexive(w);
    } else {
      var next := Apply(w, thresholds, run[0]);
      TxnKeepsInv(w, thresholds, run[0]);
      RunKeepsInv(next, thresholds, run[1..]);
      ExtendsTransitive(w, next, Run(w, thresholds, run));
    }
  }

  lemma {:induction false} RunAppend(w: World, thresholds: Thresholds, run: seq<Timed>, step: Timed)
    requires ValidRun(w, thresholds, run) && Enabled(Run(w, thresholds, run), step)
    ensures ValidRun(w, thresholds, run + [step])
    ensures Run(w, thresholds, run + [step]) == Apply(Run(w, thresholds, run), thresholds, step)
    decreases |run|
  {
    hide Apply, Enabled;
    var all := run + [step];
    if run == [] {
      assert all == [step] && all[1..] == [];
    } else {
      RunAppend(Apply(w, thresholds, run[0]), thresholds, run[1..], step);
      assert all[1..] == run[1..] + [step];
    }
  }

  lemma NothingRun(w: World, thresholds: Thresholds)
    ensures ValidRun(w, thresholds, []) && Run(w, thresholds, []) == w
  {
  }

  lemma RunOfTwo(w: World, thresholds: Thresholds, one: Timed, two: Timed, rest: seq<Timed>)
    requires Enabled(w, one) && Enabled(Apply(w, thresholds, one), two)
    requires ValidRun(Apply(Apply(w, thresholds, one), thresholds, two), thresholds, rest)
    ensures ValidRun(w, thresholds, [one, two] + rest)
    ensures Run(w, thresholds, [one, two] + rest) ==
            Run(Apply(Apply(w, thresholds, one), thresholds, two), thresholds, rest)
  {
    hide Apply, Enabled;
    var all := [one, two] + rest;
    assert all[1..] == [two] + rest && all[1..][1..] == rest;
  }

  lemma {:induction false} ReportsIssueNothing(w: World, thresholds: Thresholds, run: seq<Timed>)
    requires Inv(w) && ValidRun(w, thresholds, run) && forall i :: 0 <= i < |run| ==> run[i].txn.Report?
    ensures Run(w, thresholds, run).issued == w.issued
    decreases |run|
  {
    hide Inv;
    if run != [] {
      TxnKeepsInv(w, thresholds, run[0]);
      ReportsIssueNothing(Apply(w, thresholds, run[0]), thresholds, run[1..]);
    }
  }

  // ----- what becomes of a claim -----

  /** Nobody holds the lease of `claim`. */
  predicate Lost(w: World, claim: nat) {
    forall k :: 0 <= k < |w.deliveries| ==> w.deliveries[k].leaseToken != Some(claim)
  }

  /** A lease is held, if at all, on the delivery it was handed out for. */
  lemma HeldWhereIssued(w: World, claim: nat)
    requires Inv(w) && claim < |w.issued|
    ensures w.issued[claim].delivery < |w.deliveries|
    ensures Lost(w, claim) <==> w.deliveries[w.issued[claim].delivery].leaseToken != Some(claim)
  {
  }

  /** A lease that nobody holds is never held again: a new lease comes with a new attempt. */
  lemma LostIsLost(w: World, v: World, claim: nat)
    requires Inv(w) && Inv(v) && Extends(w, v) && claim < |w.issued| && Lost(w, claim)
    ensures Lost(v, claim)
  {
    HeldWhereIssued(w, claim);
    HeldWhereIssued(v, claim);
    var k := w.issued[claim].delivery;
    assert v.issued[claim] == w.issued[claim];
    assert Evolves(w.deliveries[k], v.deliveries[k]);
    LedgerOf(w, claim);
    LedgerOf(v, claim);
  }

  /** The attempt of a claim is in the ledger, and it is the last one while the claim holds its lease. */
  lemma LedgerOf(w: World, claim: nat)
    requires Inv(w) && claim < |w.issued|
    ensures var d := w.deliveries[w.issued[claim].delivery];
            && w.issued[claim].attemptNo <= d.attemptCount
            && (d.leaseToken == Some(claim) ==> w.issued[claim].attemptNo == d.attemptCount)
  {
    assert Valid(w.deliveries[w.issued[claim].delivery]);
  }

  /**
   * Once a claim has lost its lease, to a report, to a recovery or to another claim, a result reported for it changes
   * nothing in any later state of any run.
   */
  lemma LostClaimsStayLost(
    w: World, thresholds: Thresholds, run: seq<Timed>, claim: nat, r: ProviderResult, now: Time, jitter: int)
    requires Inv(w) && ValidRun(w, thresholds, run) && claim < |w.issued| && Lost(w, claim)
    ensures var v := Run(w, thresholds, run);
            claim < |v.issued| && Lost(v, claim) && RecordResult(v, claim, r, now, jitter) == Ok(v)
  {
    hide Inv, Run;
    RunKeepsInv(w, thresholds, run);
    var v := Run(w, thresholds, run);
    LostIsLost(w, v, claim);
    HeldWhereIssued(v, claim);
    StaleReportChangesNothing(v, claim, r, now, jitter);
  }

  /** A claim that is reported in a run has lost its lease when the run is over, whatever else the run does. */
  lemma {:induction false} ReportedClaimsAreLost(w: World, thresholds: Thresholds, run: seq<Timed>, i: nat)
    requires Inv(w) && ValidRun(w, thresholds, run) && i < |run| && run[i].txn.Report?
    ensures run[i].txn.claim < |Run(w, thresholds, run).issued| && Lost(Run(w, thresholds, run), run[i].txn.claim)
    decreases |run|
  {
    hide Inv;
    var next := Apply(w, thresholds, run[0]);
    TxnKeepsInv(w, thresholds, run[0]);
    if i == 0 {
      var claim := run[0].txn.claim;
      ReportReleasesItsLease(w, claim, run[0].txn.result, run[0].now, run[0].txn.jitter);
      RunKeepsInv(next, thresholds, run[1..]);
      LostIsLost(next, Run(next, thresholds, run[1..]), claim);
    } else {
      ReportedClaimsAreLost(next, thresholds, run[1..], i - 1);
    }
  }
}
