/** The services as they run: each method is one transaction that updates the tables in place,
    and leaves exactly the tables its specification in `AlertWorld` describes. */
module AlertServices {
  import opened Prelude
  import opened NotificationQueue
  import W = AlertWorld
  import I = AlertInvariants
  import R = AlertRuns
  import G = GpuConfirmation

  /** The alerting tables. */
  /** What becomes of a message: there is no provider for its channel, the provider raises, or it answers. */
  datatype Reply = Missing | Raised | Answered(result: ProviderResult)

  /** The result recorded for each. */
  function Answer(reply: Reply): ProviderResult {
    match reply
    case Missing => ProviderResult(PermanentFailure, Some("provider_missing"), None)
    case Raised => ProviderResult(Uncertain, Some("provider_exception"), None)
    case Answered(result) => result
  }

  /** The transactions that settle `n` claims, whose tokens start at `first`. */
  function Reports(first: nat, n: nat, reply: nat -> Reply, clock: nat -> Time, jitter: nat -> int): (r: seq<R.Timed>)
    ensures |r| == n
    ensures forall i :: 0 <= i < n ==> r[i] == R.Timed(clock(2 + i), R.Report(first + i, Answer(reply(i)), jitter(i)))
  {
    if n == 0 then []
    else
      Reports(first, n - 1, reply, clock, jitter)
      + [R.Timed(clock(n + 1), R.Report(first + n - 1, Answer(reply(n - 1)), jitter(n - 1)))]
  }

  /** The transactions of one worker pass. */
  function Pass(picks: seq<nat>, limit: nat, first: nat, reply: nat -> Reply, clock: nat -> Time, locked: nat -> set<nat>,
                jitter: nat -> int): seq<R.Timed>
  {
    [R.Timed(clock(0), R.Reclaim(locked(0))), R.Timed(clock(1), R.Claims(picks, limit, locked(1), locked(2)))]
    + Reports(first, |picks|, reply, clock, jitter)
  }

  class Database {
    var devices: map<nat, W.Device>
    var incidents: seq<W.Incident>
    var events: seq<W.AlertEvent>
    var deliveries: seq<Delivery>
    var issued: seq<W.IssuedClaim>

    constructor ()
      ensures World() == R.Empty()
    {
      devices, incidents, events, deliveries, issued := map[], [], [], [], [];
    }

    function World(): W.World
      reads this
    {
      W.World(devices, incidents, events, deliveries, issued)
    }

    /** Inserts an alert event and one pending delivery per destination. */
    method CreateEvent(incident: nat, device: nat, kind: W.EventKind, now: Time, to: seq<string>)
      modifies this
      ensures World() == W.CreateEvent(old(World()), incident, device, kind, now, to)
    {
      var event := |events|;
      events := events + [W.AlertEvent(incident, device, kind, now)];
      for i := 0 to |to|
        invariant World() == W.CreateEvent(old(World()), incident, device, kind, now, to).(deliveries := deliveries)
        invariant |deliveries| == |old(deliveries)| + i
        invariant deliveries[..|old(deliveries)|] == old(deliveries)
        invariant forall k :: 0 <= k < i ==> deliveries[|old(deliveries)| + k] == NewDelivery(event, to[k], now)
      {
        deliveries := deliveries + [NewDelivery(event, to[i], now)];
      }
      assert deliveries == old(deliveries) + W.NewDeliveries(event, to, now);
    }

    /** Supersedes every unfinished delivery the selection matches. */
    method SupersedeAll(s: W.Selection, now: Time)
      modifies this
      ensures World() == W.SupersedeAll(old(World()), s, now)
    {
      ghost var before := World();
      for k := 0 to |deliveries|
        invariant World() == before.(deliveries := deliveries)
        invariant |deliveries| == |before.deliveries|
        invariant forall j :: 0 <= j < |deliveries| ==>
          deliveries[j] == if j < k then W.SupersededIf(before, s, now, before.deliveries[j]) else before.deliveries[j]
      {
        var d := deliveries[k];
        if W.Selected(World(), d.event, s) && !Terminal(d.status) {
          deliveries := deliveries[k := Supersede(d, now)];
        }
      }
      assert deliveries == W.Supersessions(before, s, now);
    }

    method CloseIncident(i: nat, why: W.CloseReason, now: Time, to: seq<string>)
      requires i < |incidents|
      modifies this
      ensures World() == W.CloseIncident(old(World()), i, why, now, to)
    {
      var incident := incidents[i];
      incidents := incidents[i := incident.(closedAt := Some(now), closeReason := Some(why), currentReason := None)];
      SupersedeAll(W.OpeningOf(i), now);
      CreateEvent(i, incident.device, W.Closing(incident.kind), now, to);
    }

    method EnsureOpen(d: nat, kind: W.Kind, reason: W.Reason, now: Time, to: seq<string>)
      modifies this
      ensures World() == W.EnsureOpen(old(World()), d, kind, reason, now, to)
    {
      if W.ActiveIncident(World(), d, kind).Some? {
        return;
      }
      incidents := incidents + [W.Incident(d, kind, now, None, None, Some(reason))];
      CreateEvent(|incidents| - 1, d, W.Opening(kind), now, to);
    }
  }

  class GPUIncidentService {
    const db: Database

    constructor (db: Database)
      ensures this.db == db
    {
      this.db := db;
    }

    method Accept(d: nat, o: G.Observation, now: Time, route: W.Route)
      requires d in db.devices
      modifies db
      ensures db.World() == W.AcceptGpu(old(db.World()), d, o, now, route)
    {
      var row := db.devices[d];
      var (confirmed, event) :=
        G.Evaluate(row.gpu, o, row.gpuPolicy, now, row.gpuEnabled && row.availability != W.Offline);
      db.devices := db.devices[d := row.(gpu := confirmed)];
      if event == G.Degraded {
        db.EnsureOpen(d, W.GpuKind, W.GpuReason(confirmed.state), now, route.For(W.GpuDegraded));
      } else if event == G.Recovered {
        var active := W.ActiveIncident(db.World(), d, W.GpuKind);
        if active.Some? {
          db.CloseIncident(active.value, W.ConfirmedOk, now, route.For(W.GpuRecovered));
        }
      } else if confirmed.state != G.GpuOk && confirmed.state != G.NotMonitored {
        var active := W.ActiveIncident(db.World(), d, W.GpuKind);
        if active.Some? {
          db.incidents := db.incidents[active.value :=
            db.incidents[active.value].(currentReason := Some(W.GpuReason(confirmed.state)))];
        }
      }
    }

    method ResetForDeviceOffline(d: nat, now: Time)
      requires d in db.devices
      modifies db
      ensures db.World() == W.ResetGpuForOffline(old(db.World()), d, now)
    {
      var gpu := db.devices[d].gpu;
      db.devices := db.devices[d := db.devices[d].(gpu := gpu.(failureStreak := 0, okStreak := 0, lastSampleAt := None))];
      db.SupersedeAll(W.DegradationsOf(d), now);
    }
  }

  class AvailabilityService {
    const db: Database
    const gpu: GPUIncidentService
    const thresholds: W.Thresholds

    constructor (gpu: GPUIncidentService, thresholds: W.Thresholds)
      requires W.ValidThresholds(thresholds)
      ensures this.gpu == gpu && this.db == gpu.db && this.thresholds == thresholds
    {
      this.gpu, this.db, this.thresholds := gpu, gpu.db, thresholds;
    }

    method MarkOffline(d: nat, now: Time, route: W.Route)
      requires d in db.devices && gpu.db == db
      modifies db
      ensures db.World() == W.MarkOffline(old(db.World()), d, now, route)
    {
      db.devices := db.devices[d := db.devices[d].(availability := W.Offline)];
      db.EnsureOpen(d, W.AvailabilityKind, W.HeartbeatTimeout, now, route.For(W.DeviceOffline));
      gpu.ResetForDeviceOffline(d, now);
    }

    /** One device of a sweep. */
    method EvaluateDevice(d: nat, now: Time, route: W.Route)
      requires gpu.db == db
      modifies db
      ensures db.World() == W.EvaluateDevice(old(db.World()), thresholds, d, now, route)
    {
      if d !in db.devices || !db.devices[d].enabled {
        return;
      }
      var desired := W.AvailabilityAt(W.Baseline(db.devices[d]), now, thresholds);
      if desired == W.Offline {
        MarkOffline(d, now, route);
      } else if db.devices[d].availability != W.Offline {
        db.devices := db.devices[d := db.devices[d].(availability := desired)];
      }
    }

    method CloseForRecovery(d: nat, now: Time, route: W.Route)
      requires d in db.devices
      modifies db
      ensures db.World() == W.CloseForRecovery(old(db.World()), d, now, route)
    {
      var active := W.ActiveIncident(db.World(), d, W.AvailabilityKind);
      if active.Some? {
        db.CloseIncident(active.value, W.HeartbeatReceived, now, route.For(W.DeviceRecovered));
      }
      db.devices := db.devices[d := db.devices[d].(availability := W.Online)];
    }

    /** Reconciles overdue state before a new heartbeat replaces its baseline. */
    method AcceptHeartbeat(d: nat, now: Time, route: W.Route)
      requires d in db.devices && gpu.db == db
      modifies db
      ensures db.World() == W.AcceptAvailability(old(db.World()), thresholds, d, now, route)
    {
      if W.AvailabilityAt(W.Baseline(db.devices[d]), now, thresholds) == W.Offline {
        MarkOffline(d, now, route);
      }
      db.devices := db.devices[d := db.devices[d].(lastSeenAt := Some(now))];
      if db.devices[d].availability == W.Offline {
        CloseForRecovery(d, now, route);
      } else {
        db.devices := db.devices[d := db.devices[d].(availability := W.Online)];
      }
    }
  }

  /** What a worker holds while it talks to a provider. */
  datatype ClaimedDelivery = ClaimedDelivery(delivery: nat, attemptNo: nat, leaseToken: nat)

  function Picks(claims: seq<ClaimedDelivery>): seq<nat> {
    seq(|claims|, i requires 0 <= i < |claims| => claims[i].delivery)
  }

  class NotificationService {
    const db: Database

    constructor (db: Database)
      ensures this.db == db
    {
      this.db := db;
    }

    method ExpireUnclaimed(now: Time, locked: set<nat>)
      modifies db
      ensures db.World() == W.ExpireUnclaimed(old(db.World()), now, locked)
    {
      ghost var before := db.World();
      for k := 0 to |db.deliveries|
        invariant db.World() == before.(deliveries := db.deliveries)
        invariant |db.deliveries| == |before.deliveries|
        invariant forall j :: 0 <= j < |db.deliveries| ==>
          db.deliveries[j] == if j < k then W.ExpiredIf(j, before.deliveries[j], now, locked) else before.deliveries[j]
      {
        if k !in locked && Lapsed(db.deliveries[k], now) {
          db.deliveries := db.deliveries[k := Expire(db.deliveries[k])];
        }
      }
      assert db.deliveries == W.ExpireUnclaimed(before, now, locked).deliveries;
    }

    method RecoverStuck(now: Time, locked: set<nat>)
      modifies db
      ensures db.World() == W.RecoverStuck(old(db.World()), now, locked)
    {
      ghost var before := db.World();
      for k := 0 to |db.deliveries|
        invariant db.World() == before.(deliveries := db.deliveries)
        invariant |db.deliveries| == |before.deliveries|
        invariant forall j :: 0 <= j < |db.deliveries| ==>
          db.deliveries[j] == if j < k then W.RecoveredIf(j, before.deliveries[j], now, locked) else before.deliveries[j]
      {
        if k !in locked && Stuck(db.deliveries[k], now) {
          db.deliveries := db.deliveries[k := Recover(db.deliveries[k], now)];
        }
      }
      assert db.deliveries == W.RecoverStuck(before, now, locked).deliveries;
    }

    /** The next row in claim order that is not yet picked. */
    method NextDue(picks: seq<nat>, now: Time, locked: set<nat>) returns (best: Option<nat>)
      ensures best.Some? ==> W.Claimable(db.deliveries, best.value, now, locked) && best.value !in picks
      ensures forall k :: W.Claimable(db.deliveries, k, now, locked) && k !in picks ==>
        best.Some? && (k == best.value || W.ClaimsBefore(db.deliveries, best.value, k))
    {
      best := None;
      for k := 0 to |db.deliveries|
        invariant best.Some? ==> W.Claimable(db.deliveries, best.value, now, locked) && best.value !in picks
        invariant forall j :: 0 <= j < k && W.Claimable(db.deliveries, j, now, locked) && j !in picks ==>
          best.Some? && (j == best.value || W.ClaimsBefore(db.deliveries, best.value, j))
      {
        if W.Claimable(db.deliveries, k, now, locked) && k !in picks
           && (best.None? || W.ClaimsBefore(db.deliveries, k, best.value)) {
          best := Some(k);
        }
      }
    }

    /** The claim query: the first `limit` due rows in claim order. */
    method SelectDue(limit: nat, now: Time, locked: set<nat>) returns (picks: seq<nat>)
      ensures W.EarliestDue(db.deliveries, picks, limit, now, locked)
    {
      picks := [];
      while |picks| < limit
        invariant |picks| <= limit
        invariant forall i :: 0 <= i < |picks| ==> W.Claimable(db.deliveries, picks[i], now, locked)
        invariant forall i, j :: 0 <= i < j < |picks| ==> W.ClaimsBefore(db.deliveries, picks[i], picks[j])
        invariant forall k, i :: W.Claimable(db.deliveries, k, now, locked) && k !in picks && 0 <= i < |picks| ==>
          W.ClaimsBefore(db.deliveries, picks[i], k)
      {
        var next := NextDue(picks, now, locked);
        if next.None? {
          return;
        }
        picks := picks + [next.value];
      }
    }

    /** Claims at most `limit` due deliveries, each under a fresh lease. */
    method ClaimDue(limit: nat, now: Time, expiryLocked: set<nat>, locked: set<nat>)
      returns (r: Result<seq<ClaimedDelivery>, string>)
      modifies db
      ensures r.Err? <==> !(1 <= limit <= 4)
      ensures r.Err? ==> db.World() == old(db.World())
      ensures r.Ok? ==>
        var expired := W.ExpireUnclaimed(old(db.World()), now, expiryLocked);
        && W.EarliestDue(expired.deliveries, Picks(r.value), limit, now, locked)
        && db.World() == W.ClaimAll(expired, Picks(r.value), now)
      ensures r.Ok? ==> |db.issued| == |old(db.issued)| + |r.value|
      ensures r.Ok? ==> forall i :: 0 <= i < |r.value| ==>
        && r.value[i].leaseToken == |old(db.issued)| + i < |db.issued|
        && db.issued[r.value[i].leaseToken] == W.IssuedClaim(r.value[i].delivery, r.value[i].attemptNo)
    {
      if !(1 <= limit <= 4) {
        return Err("Notification claim limit is out of range.");
      }
      ExpireUnclaimed(now, expiryLocked);
      var picks := SelectDue(limit, now, locked);
      var claims := TakeClaims(picks, now);
      assert Picks(claims) == picks;
      return Ok(claims);
    }

    /** Marks each picked row claimed, writes its attempt, and hands out its lease token. */
    method TakeClaims(picks: seq<nat>, now: Time) returns (claims: seq<ClaimedDelivery>)
      requires forall i :: 0 <= i < |picks| ==> picks[i] < |db.deliveries|
      modifies db
      ensures db.World() == W.ClaimAll(old(db.World()), picks, now)
      ensures |claims| == |picks| && |db.issued| == |old(db.issued)| + |picks|
      ensures forall i :: 0 <= i < |picks| ==>
        && claims[i].delivery == picks[i]
        && claims[i].leaseToken == |old(db.issued)| + i
        && db.issued[claims[i].leaseToken] == W.IssuedClaim(claims[i].delivery, claims[i].attemptNo)
    {
      claims := [];
      for i := 0 to |picks|
        invariant |claims| == i && |db.issued| == |old(db.issued)| + i
        invariant db.World() == W.ClaimAll(old(db.World()), picks[..i], now)
        invariant forall j :: 0 <= j < i ==>
          && claims[j].delivery == picks[j]
          && claims[j].leaseToken == |old(db.issued)| + j
          && db.issued[claims[j].leaseToken] == W.IssuedClaim(claims[j].delivery, claims[j].attemptNo)
      {
        var k, token := picks[i], |db.issued|;
        assert picks[..i + 1][..i] == picks[..i];
        assert W.ClaimAll(old(db.World()), picks[..i + 1], now) == W.ClaimOne(db.World(), k, now);
        db.deliveries := db.deliveries[k := Claim(db.deliveries[k], now, token)];
        db.issued := db.issued + [W.IssuedClaim(k, db.deliveries[k].attemptCount)];
        claims := claims + [ClaimedDelivery(k, db.deliveries[k].attemptCount, token)];
      }
      assert picks[..|picks|] == picks;
    }

    /** Records a provider's answer, unless the lease has been lost. */
    method RecordResult(claim: nat, result: ProviderResult, now: Time, jitter: int) returns (r: Result<(), string>)
      requires claim < |db.issued|
      modifies db
      ensures var spec := W.RecordResult(old(db.World()), claim, result, now, jitter);
        && (spec.Ok? ==> r.Ok? && db.World() == spec.value)
        && (spec.Err? ==> r == Err(spec.error) && db.World() == old(db.World()))
    {
      var k := db.issued[claim].delivery;
      var attemptNo := db.issued[claim].attemptNo;
      if k >= |db.deliveries| || db.deliveries[k].status != InProgress || db.deliveries[k].leaseToken != Some(claim) {
        return Ok(());
      }
      if attemptNo !in db.deliveries[k].attempts {
        return Err("Claimed notification attempt is missing.");
      }
      db.deliveries := db.deliveries[k := Finish(db.deliveries[k], attemptNo, result, now, jitter)];
      return Ok(());
    }

    /** Sends each claimed message and records the answer, one transaction for each. */
    method SettleClaims(claims: seq<ClaimedDelivery>, reply: nat -> Reply, clock: nat -> Time, jitter: nat -> int,
                        ghost t: W.Thresholds)
      requires I.Inv(db.World()) && |claims| <= |db.issued|
      requires forall i :: 0 <= i < |claims| ==> claims[i].leaseToken == |db.issued| - |claims| + i
      modifies db
      ensures var reports := Reports(|old(db.issued)| - |claims|, |claims|, reply, clock, jitter);
        R.ValidRun(old(db.World()), t, reports) && db.World() == R.Run(old(db.World()), t, reports)
    {
      hide I.Inv, I.Extends, W.RecordResult, R.Run, R.ValidRun;
      ghost var start, first := db.World(), |db.issued| - |claims|;
      R.NothingRun(start, t);
      for i := 0 to |claims|
        invariant db.issued == start.issued
        invariant R.ValidRun(start, t, Reports(first, i, reply, clock, jitter))
        invariant db.World() == R.Run(start, t, Reports(first, i, reply, clock, jitter))
      {
        var token := claims[i].leaseToken;
        ghost var step := R.Timed(clock(2 + i), R.Report(token, Answer(reply(i)), jitter(i)));
        R.RunKeepsInv(start, t, Reports(first, i, reply, clock, jitter));
        R.RunAppend(start, t, Reports(first, i, reply, clock, jitter), step);
        R.ReportReleasesItsLease(db.World(), token, Answer(reply(i)), clock(2 + i), jitter(i));
        var _ := RecordResult(token, Answer(reply(i)), clock(2 + i), jitter(i));
      }
    }

    /**
     * One worker pass: lost leases are recovered, due deliveries are claimed, and each claim is settled by what its
     * provider makes of it. Every query and every transaction has its own locked rows and its own instant.
     */
    method ProcessDue(limit: nat, reply: nat -> Reply, clock: nat -> Time, locked: nat -> set<nat>, jitter: nat -> int,
                      ghost t: W.Thresholds)
      returns (claims: seq<ClaimedDelivery>)
      requires 1 <= limit <= 4 && I.Inv(db.World())
      modifies db
      ensures var pass := Pass(Picks(claims), limit, |old(db.issued)|, reply, clock, locked, jitter);
        && R.ValidRun(old(db.World()), t, pass) && db.World() == R.Run(old(db.World()), t, pass)
      ensures forall k :: 0 <= k < |db.deliveries| && db.deliveries[k].leaseToken.Some? ==>
        db.deliveries[k].leaseToken.value < |old(db.issued)|
    {
      hide I.Inv, I.Extends, R.Run, R.ValidRun, W.ExpireUnclaimed, W.ClaimAll, W.EarliestDue;
      ghost var start := db.World();
      RecoverStuck(clock(0), locked(0));
      R.RecoverStuckKeepsInv(start, clock(0), locked(0));
      ghost var recovered := db.World();
      var claimed := ClaimDue(limit, clock(1), locked(1), locked(2));
      claims := claimed.value;
      ghost var picks := Picks(claims);
      R.ClaimsKeepInv(recovered, picks, limit, clock(1), locked(1), locked(2));
      ghost var taken := db.World();
      SettleClaims(claims, reply, clock, jitter, t);
      ghost var reports := Reports(|start.issued|, |claims|, reply, clock, jitter);
      ghost var one := R.Timed(clock(0), R.Reclaim(locked(0)));
      ghost var two := R.Timed(clock(1), R.Claims(picks, limit, locked(1), locked(2)));
      assert R.Apply(start, t, one) == recovered && R.Apply(recovered, t, two) == taken;
      R.RunOfTwo(start, t, one, two, reports);
      SettledTokens(taken, t, |start.issued|, |claims|, reply, clock, jitter);
    }
  }

  /** After the reports of the newest claims, only older claims can still hold a lease. */
  lemma SettledTokens(
    w: W.World, t: W.Thresholds, first: nat, n: nat, reply: nat -> Reply, clock: nat -> Time, jitter: nat -> int)
    requires I.Inv(w) && |w.issued| == first + n
    requires R.ValidRun(w, t, Reports(first, n, reply, clock, jitter))
    ensures var v := R.Run(w, t, Reports(first, n, reply, clock, jitter));
      && v.issued == w.issued
      && forall k :: 0 <= k < |v.deliveries| && v.deliveries[k].leaseToken.Some? ==> v.deliveries[k].leaseToken.value < first
  {
    hide I.Inv, R.Run, R.ValidRun, R.Lost, Reports;
    var reports := Reports(first, n, reply, clock, jitter);
    var v := R.Run(w, t, reports);
    R.RunKeepsInv(w, t, reports);
    R.ReportsIssueNothing(w, t, reports);
    R.LeasesAreIssued(v);
    forall claim | first <= claim < first + n ensures R.Lost(v, claim) {
      R.ReportedClaimsAreLost(w, t, reports, claim - first);
    }
    LostTokensAreOld(v, first, n);
  }

  lemma LostTokensAreOld(v: W.World, first: nat, n: nat)
    requires forall claim :: first <= claim < first + n ==> R.Lost(v, claim)
    requires forall k :: 0 <= k < |v.deliveries| && v.deliveries[k].leaseToken.Some? ==>
      v.deliveries[k].leaseToken.value < first + n
    ensures forall k :: 0 <= k < |v.deliveries| && v.deliveries[k].leaseToken.Some? ==> v.deliveries[k].leaseToken.value < first
  {
    forall k | 0 <= k < |v.deliveries| && v.deliveries[k].leaseToken.Some? ensures v.deliveries[k].leaseToken.value < first {
      var token := v.deliveries[k].leaseToken.value;
      assert token < first || R.Lost(v, token);
    }
  }
}
