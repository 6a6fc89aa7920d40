/** Heartbeat ingestion: every accepted heartbeat takes effect exactly once, however often and
    in whatever order it is delivered (server/app/heartbeats/service.py). */
module HeartbeatIngestion {
  import opened Prelude
  import W = AlertWorld
  import I = AlertInvariants
  import R = AlertRuns
  import S = AlertServices
  import A = AvailabilityHistory
  import G = GpuConfirmation

  /** A parsed heartbeat. Its payload digest is modelled by the payload itself: two heartbeats
      have equal digests iff they are equal. */
  datatype Heartbeat = Heartbeat(
    id: string, device: nat, collectedAt: Time, agentVersion: string, hostname: string,
    observation: G.Observation)

  datatype Ack = Ack(heartbeat: string, device: nat, acceptedAt: Time)

  datatype Receipt = Receipt(payload: Heartbeat, receivedAt: Time, response: Ack)

  datatype Sample = Sample(device: nat, receivedAt: Time, payload: Heartbeat)

  datatype Latest = Latest(
    heartbeat: string, receivedAt: Time, collectedAt: Time, agentVersion: string, hostname: string,
    payload: Heartbeat)

  datatype Error = AuthenticationFailed | IdentityMismatch | RateLimited | Conflict

  type Key = (nat, string)

  datatype Store = Store(world: W.World, receipts: map<Key, Receipt>, samples: seq<Sample>, latest: map<nat, Latest>)

  /** One delivery: the device its token authenticates, the limiter's verdict, the heartbeat. */
  datatype Delivery = Delivery(
    token: Option<nat>, allowed: bool, heartbeat: Heartbeat, now: Time, route: W.Route)

  function KeyOf(h: Heartbeat): Key {
    (h.device, h.id)
  }

  /** The device a delivery speaks for, once its token has been accepted. */
  predicate Authenticated(s: Store, d: Delivery) {
    d.token.Some? && d.token.value in s.world.devices && s.world.devices[d.token.value].enabled
  }

  function LatestOf(h: Heartbeat, now: Time): Latest {
    Latest(h.id, now, h.collectedAt, h.agentVersion, h.hostname, h)
  }

  /** Recording a heartbeat that has no receipt yet. */
  function Record(s: Store, t: W.Thresholds, h: Heartbeat, now: Time, route: W.Route): Store
    requires h.device in s.world.devices
  {
    Store(W.AcceptHeartbeat(s.world, t, h.device, h.observation, now, route),
          s.receipts[KeyOf(h) := Receipt(h, now, Ack(h.id, h.device, now))],
          s.samples + [Sample(h.device, now, h)],
          s.latest[h.device := LatestOf(h, now)])
  }

  function Ingest(s: Store, t: W.Thresholds, d: Delivery): (Store, Result<Ack, Error>) {
    var h := d.heartbeat;
    if !Authenticated(s, d) then (s, Err(AuthenticationFailed))
    else if d.token.value != h.device then (s, Err(IdentityMismatch))
    else if !d.allowed then (s, Err(RateLimited))
    else if KeyOf(h) in s.receipts then
      if s.receipts[KeyOf(h)].payload != h then (s, Err(Conflict)) else (s, Ok(s.receipts[KeyOf(h)].response))
    else
      (Record(s, t, h, d.now, d.route), Ok(Ack(h.id, h.device, d.now)))
  }

  // ----- the invariant -----

  /** Position of the last sample of `device`, or -1. */
  function LastSample(samples: seq<Sample>, device: nat): (i: int)
    ensures -1 <= i < |samples|
  {
    if samples == [] then -1
    else if samples[|samples| - 1].device == device then |samples| - 1
    else LastSample(samples[..|samples| - 1], device)
  }

  /** A receipt and its sample record the same heartbeat, acknowledged at the same instant. */
  predicate Records(r: Receipt, sample: Sample, key: Key) {
    && KeyOf(sample.payload) == key && sample.device == key.0
    && r.payload == sample.payload && r.receivedAt == sample.receivedAt
    && r.response == Ack(key.1, key.0, r.receivedAt)
  }

  /** Receipts and samples correspond one to one. */
  ghost predicate Ledger(receipts: map<Key, Receipt>, samples: seq<Sample>) {
    && (forall key :: key in receipts ==>
          exists i :: 0 <= i < |samples| && Records(receipts[key], samples[i], key))
    && (forall i :: 0 <= i < |samples| ==> KeyOf(samples[i].payload) in receipts)
    && (forall i, j :: 0 <= i < j < |samples| ==> KeyOf(samples[i].payload) != KeyOf(samples[j].payload))
  }

  ghost predicate Valid(s: Store) {
    && I.Inv(s.world)
    && Ledger(s.receipts, s.samples)
    && (forall i :: 0 <= i < |s.samples| ==> s.samples[i].device in s.world.devices)
    && LatestFollowsSamples(s)
  }

  /** The latest row of a device is its last sample, which is also when it was last seen. */
  ghost predicate LatestFollowsSamples(s: Store) {
    && (forall d :: d in s.latest <==> LastSample(s.samples, d) >= 0)
    && (forall d :: d in s.latest ==>
          var last := s.samples[LastSample(s.samples, d)];
          s.latest[d] == LatestOf(last.payload, last.receivedAt))
    && (forall d :: d in s.world.devices ==>
          s.world.devices[d].lastSeenAt == if d in s.latest then Some(s.latest[d].receivedAt) else None)
  }

  lemma GpuTouchesOneDevice(w: W.World, d: nat, o: G.Observation, now: Time, route: W.Route)
    requires d in w.devices
    ensures var v := W.AcceptGpu(w, d, o, now, route);
      && v.devices.Keys == w.devices.Keys && v.devices[d].lastSeenAt == w.devices[d].lastSeenAt
  {
  }

  lemma HeartbeatTouchesOneDevice(w: W.World, t: W.Thresholds, d: nat, o: G.Observation, now: Time, route: W.Route)
    requires I.Inv(w) && d in w.devices
    ensures var v := W.AcceptHeartbeat(w, t, d, o, now, route);
      && v.devices.Keys == w.devices.Keys && v.devices[d].lastSeenAt == Some(now)
      && forall e :: e in w.devices && e != d ==> v.devices[e] == w.devices[e]
  {
    hide I.Inv, I.Extends, W.AcceptAvailability, W.AcceptGpu;
    R.AcceptAvailabilityKeeps(w, t, d, now, route);
    GpuTouchesOneDevice(W.AcceptAvailability(w, t, d, now, route), d, o, now, route);
    var v := W.AcceptHeartbeat(w, t, d, o, now, route);
    forall e | e in w.devices && e != d ensures v.devices[e] == w.devices[e] {
      A.OtherBeatClosesNothing(w, t, e, d, o, now, route);
    }
  }

  /** Appending a sample moves the last sample of its own device only. */
  lemma LastSampleAfterAppend(samples: seq<Sample>, added: Sample, device: nat)
    ensures LastSample(samples + [added], device) ==
      if added.device == device then |samples| else LastSample(samples, device)
  {
    assert (samples + [added])[..|samples|] == samples;
  }

  /** It is a sample of the device, and none of the samples after it is. */
  lemma {:induction false} LastSampleIsLast(samples: seq<Sample>, device: nat)
    ensures var i := LastSample(samples, device);
      && (i >= 0 ==> samples[i].device == device)
      && forall j :: i < j < |samples| ==> samples[j].device != device
  {
    if samples != [] {
      LastSampleIsLast(samples[..|samples| - 1], device);
    }
  }

  lemma RecordKeepsLatest(s: Store, t: W.Thresholds, h: Heartbeat, now: Time, route: W.Route)
    requires I.Inv(s.world) && LatestFollowsSamples(s) && h.device in s.world.devices
    ensures LatestFollowsSamples(Record(s, t, h, now, route))
  {
    hide I.Inv, W.AcceptHeartbeat, LastSample, KeyOf;
    HeartbeatTouchesOneDevice(s.world, t, h.device, h.observation, now, route);
    forall d ensures LastSample(Record(s, t, h, now, route).samples, d) ==
                     if d == h.device then |s.samples| else LastSample(s.samples, d) {
      LastSampleAfterAppend(s.samples, Sample(h.device, now, h), d);
    }
  }

  lemma RecordKeepsLedger(receipts: map<Key, Receipt>, samples: seq<Sample>, h: Heartbeat, now: Time)
    requires Ledger(receipts, samples) && KeyOf(h) !in receipts
    ensures Ledger(receipts[KeyOf(h) := Receipt(h, now, Ack(h.id, h.device, now))], samples + [Sample(h.device, now, h)])
  {
    var receipts' := receipts[KeyOf(h) := Receipt(h, now, Ack(h.id, h.device, now))];
    var samples' := samples + [Sample(h.device, now, h)];
    forall key | key in receipts'
      ensures exists i :: 0 <= i < |samples'| && Records(receipts'[key], samples'[i], key)
    {
      if key == KeyOf(h) {
        assert Records(receipts'[key], samples'[|samples|], key);
      } else {
        var i :| 0 <= i < |samples| && Records(receipts[key], samples[i], key);
        assert Records(receipts'[key], samples'[i], key);
      }
    }
  }

  lemma RecordKeepsValid(s: Store, t: W.Thresholds, h: Heartbeat, now: Time, route: W.Route)
    requires Valid(s) && h.device in s.world.devices && KeyOf(h) !in s.receipts
    ensures Valid(Record(s, t, h, now, route))
  {
    hide I.Inv, W.AcceptHeartbeat, LatestFollowsSamples, Ledger;
    R.HeartbeatKeepsInv(s.world, t, h.device, h.observation, now, route);
    HeartbeatTouchesOneDevice(s.world, t, h.device, h.observation, now, route);
    RecordKeepsLatest(s, t, h, now, route);
    RecordKeepsLedger(s.receipts, s.samples, h, now);
  }

  // ----- deliveries and runs -----

  /** A heartbeat delivery, or any other alerting transaction. */
  datatype Step = Deliver(delivery: Delivery) | Other(timed: R.Timed)

  ghost predicate Enabled(s: Store, step: Step) {
    step.Other? ==> !step.timed.txn.Beat? && R.Enabled(s.world, step.timed)
  }

  ghost function Apply(s: Store, t: W.Thresholds, step: Step): Store
    requires Enabled(s, step)
  {
    match step
    case Deliver(d) => Ingest(s, t, d).0
    case Other(timed) => s.(world := R.Apply(s.world, t, timed))
  }

  /** A heartbeat id that already has a receipt changes nothing at all: the same payload gets
      the stored acknowledgement, another payload a conflict. */
  lemma ReplayChangesNothing(s: Store, t: W.Thresholds, d: Delivery)
    requires Valid(s) && KeyOf(d.heartbeat) in s.receipts
    ensures var (v, r) := Ingest(s, t, d); var receipt := s.receipts[KeyOf(d.heartbeat)];
      && v == s
      && (r.Ok? ==> r.value == receipt.response && receipt.payload == d.heartbeat)
      && (Authenticated(s, d) && d.token.value == d.heartbeat.device && d.allowed ==>
            r == if receipt.payload == d.heartbeat then Ok(receipt.response) else Err(Conflict))
  {
  }

  lemma DeliverKeepsValid(s: Store, t: W.Thresholds, d: Delivery)
    requires Valid(s)
    ensures Valid(Ingest(s, t, d).0)
    ensures forall key :: key in s.receipts ==>
      key in Ingest(s, t, d).0.receipts && Ingest(s, t, d).0.receipts[key] == s.receipts[key]
    ensures var (v, r) := Ingest(s, t, d);
      r.Ok? ==> KeyOf(d.heartbeat) in v.receipts && r.value == v.receipts[KeyOf(d.heartbeat)].response
  {
    hide I.Inv, W.AcceptHeartbeat, Ledger, LatestFollowsSamples;
    var h := d.heartbeat;
    if Authenticated(s, d) && d.token.value == h.device && d.allowed && KeyOf(h) !in s.receipts {
      RecordKeepsValid(s, t, h, d.now, d.route);
    }
  }

  /** No other alerting transaction changes when a device was last seen. */
  lemma OthersKeepLastSeen(w: W.World, t: W.Thresholds, timed: R.Timed)
    requires R.Enabled(w, timed) && !timed.txn.Beat?
    ensures var v := R.Apply(w, t, timed);
      && w.devices.Keys <= v.devices.Keys
      && (forall d :: d in w.devices ==> v.devices[d].lastSeenAt == w.devices[d].lastSeenAt)
      && (forall d :: d in v.devices && d !in w.devices ==> v.devices[d].lastSeenAt == None)
  {
    if timed.txn.Claims? {
      A.ClaimsTouchOnlyTheQueue(W.ExpireUnclaimed(w, timed.now, timed.txn.expiryLocked), timed.txn.picks, timed.now);
    }
  }

  lemma StepKeepsValid(s: Store, t: W.Thresholds, step: Step)
    requires Valid(s) && Enabled(s, step)
    ensures Valid(Apply(s, t, step))
    ensures forall key :: key in s.receipts ==>
      key in Apply(s, t, step).receipts && Apply(s, t, step).receipts[key] == s.receipts[key]
  {
    match step
    case Deliver(d) => DeliverKeepsValid(s, t, d);
    case Other(timed) => OtherKeepsValid(s, t, timed);
  }

  lemma LatestDevicesExist(s: Store)
    requires Valid(s)
    ensures forall d :: d in s.latest ==> d in s.world.devices
  {
    hide I.Inv, Ledger, LastSample;
    forall d | d in s.latest ensures d in s.world.devices {
      LastSampleIsLast(s.samples, d);
    }
  }

  lemma OtherKeepsValid(s: Store, t: W.Thresholds, timed: R.Timed)
    requires Valid(s) && R.Enabled(s.world, timed) && !timed.txn.Beat?
    ensures Valid(s.(world := R.Apply(s.world, t, timed)))
  {
    hide I.Inv, R.Apply, R.Enabled, Ledger, LastSample;
    LatestDevicesExist(s);
    R.TxnKeepsInv(s.world, t, timed);
    OthersKeepLastSeen(s.world, t, timed);
  }

  ghost predicate ValidRun(s: Store, t: W.Thresholds, run: seq<Step>)
    decreases |run|
  {
    run == [] || (Enabled(s, run[0]) && ValidRun(Apply(s, t, run[0]), t, run[1..]))
  }

  ghost function Run(s: Store, t: W.Thresholds, run: seq<Step>): Store
    requires ValidRun(s, t, run)
    decreases |run|
  {
    if run == [] then s else Run(Apply(s, t, run[0]), t, run[1..])
  }

  /** The acknowledgement that a step returns for a heartbeat, if it is a delivery of it and is accepted. */
  function AckOf(s: Store, t: W.Thresholds, step: Step, key: Key): seq<Ack>
    requires Enabled(s, step)
  {
    if step.Deliver? && KeyOf(step.delivery.heartbeat) == key && Ingest(s, t, step.delivery).1.Ok?
    then [Ingest(s, t, step.delivery).1.value] else []
  }

  /** The acknowledgements a run returns for one heartbeat, in order. */
  ghost function Acks(s: Store, t: W.Thresholds, run: seq<Step>, key: Key): seq<Ack>
    requires ValidRun(s, t, run)
    decreases |run|
  {
    if run == [] then []
    else
      AckOf(s, t, run[0], key) + Acks(Apply(s, t, run[0]), t, run[1..], key)
  }

  function Empty(): Store {
    Store(R.Empty(), map[], [], map[])
  }

  lemma {:induction false} RunKeepsValid(s: Store, t: W.Thresholds, run: seq<Step>)
    requires Valid(s) && ValidRun(s, t, run)
    ensures Valid(Run(s, t, run))
    ensures forall key :: key in s.receipts ==> key in Run(s, t, run).receipts && Run(s, t, run).receipts[key] == s.receipts[key]
    decreases |run|
  {
    hide Valid, Apply;
    if run != [] {
      StepKeepsValid(s, t, run[0]);
      RunKeepsValid(Apply(s, t, run[0]), t, run[1..]);
    }
  }

  /** Every acknowledgement in `acks` is the one stored with the receipt of `key`. */
  ghost predicate AllStored(acks: seq<Ack>, receipts: map<Key, Receipt>, key: Key) {
    forall ack :: ack in acks ==> key in receipts && ack == receipts[key].response
  }

  /** All acknowledgements of one heartbeat in a run are the one its final receipt stores. */
  lemma {:induction false} AcksAreIdentical(s: Store, t: W.Thresholds, run: seq<Step>, key: Key)
    requires Valid(s) && ValidRun(s, t, run)
    ensures AllStored(Acks(s, t, run, key), Run(s, t, run).receipts, key)
    decreases |run|
  {
    hide Valid, Ingest, Apply;
    if run != [] {
      var next := Apply(s, t, run[0]);
      StepKeepsValid(s, t, run[0]);
      RunKeepsValid(next, t, run[1..]);
      AcksAreIdentical(next, t, run[1..], key);
      AckIsStored(s, t, run[0], key);
    }
  }

  lemma AckIsStored(s: Store, t: W.Thresholds, step: Step, key: Key)
    requires Valid(s) && Enabled(s, step)
    ensures AllStored(AckOf(s, t, step, key), Apply(s, t, step).receipts, key)
  {
    hide Valid;
    if step.Deliver? {
      DeliverKeepsValid(s, t, step.delivery);
    }
    hide Ingest;
  }

  /** The sample at `i` is the only one of its heartbeat. */
  ghost predicate OnlySample(samples: seq<Sample>, i: nat, key: Key) {
    && i < |samples| && KeyOf(samples[i].payload) == key
    && forall j :: 0 <= j < |samples| && KeyOf(samples[j].payload) == key ==> j == i
  }

  /** Exactly once: after any run of deliveries, retries and reorderings, a heartbeat has a
      receipt iff it has exactly one sample, which holds the acknowledged payload. */
  lemma ExactlyOnce(t: W.Thresholds, run: seq<Step>, key: Key)
    requires ValidRun(Empty(), t, run)
    ensures var s := Run(Empty(), t, run);
      && (key in s.receipts <==> exists i: nat :: OnlySample(s.samples, i, key))
      && (key in s.receipts ==> exists i: nat :: OnlySample(s.samples, i, key) && Records(s.receipts[key], s.samples[i], key))
  {
    RunKeepsValid(Empty(), t, run);
    LedgerIsExact(Run(Empty(), t, run).receipts, Run(Empty(), t, run).samples, key);
  }

  lemma LedgerIsExact(receipts: map<Key, Receipt>, samples: seq<Sample>, key: Key)
    requires Ledger(receipts, samples)
    ensures key in receipts <==> exists i: nat :: OnlySample(samples, i, key)
    ensures key in receipts ==> exists i: nat :: OnlySample(samples, i, key) && Records(receipts[key], samples[i], key)
  {
    if key in receipts {
      var i :| 0 <= i < |samples| && Records(receipts[key], samples[i], key);
      assert OnlySample(samples, i, key);
    }
  }

  /** After any run, the latest row of a device is the last heartbeat accepted for it, and the
      instant the alerting state last saw it. */
  lemma LatestIsLastAccepted(t: W.Thresholds, run: seq<Step>, d: nat)
    requires ValidRun(Empty(), t, run)
    ensures var s := Run(Empty(), t, run); var i := LastSample(s.samples, d);
      && (d in s.latest <==> i >= 0)
      && (forall j :: i < j < |s.samples| ==> s.samples[j].device != d)
      && (i >= 0 ==>
            && s.samples[i].device == d
            && s.latest[d] == LatestOf(s.samples[i].payload, s.samples[i].receivedAt)
            && d in s.world.devices && s.world.devices[d].lastSeenAt == Some(s.samples[i].receivedAt))
  {
    EmptyIsValid();
    hide Run, ValidRun, I.Inv, Ledger, LastSample, Empty;
    RunKeepsValid(Empty(), t, run);
    var s := Run(Empty(), t, run);
    LastSampleIsLast(s.samples, d);
    var i := LastSample(s.samples, d);
    assert i >= 0 ==> s.samples[i].device in s.world.devices;
  }

  lemma EmptyIsValid()
    ensures Valid(Empty())
  {
  }

  // ----- the service -----

  class HeartbeatService {
    const availability: S.AvailabilityService
    var receipts: map<Key, Receipt>
    var samples: seq<Sample>
    var latest: map<nat, Latest>

    constructor (availability: S.AvailabilityService)
      ensures this.availability == availability
      ensures receipts == map[] && samples == [] && latest == map[]
    {
      this.availability := availability;
      receipts, samples, latest := map[], [], map[];
    }

    function Contents(): Store
      reads this, availability.db
    {
      Store(availability.db.World(), receipts, samples, latest)
    }

    method Accept(d: Delivery) returns (r: Result<Ack, Error>)
      requires availability.gpu.db == availability.db
      modifies this, availability.db
      ensures (Contents(), r) == Ingest(old(Contents()), availability.thresholds, d)
    {
      var db, h := availability.db, d.heartbeat;
      if d.token.None? || d.token.value !in db.devices || !db.devices[d.token.value].enabled {
        return Err(AuthenticationFailed);
      }
      if d.token.value != h.device {
        return Err(IdentityMismatch);
      }
      if !d.allowed {
        return Err(RateLimited);
      }
      if (h.device, h.id) in receipts {
        var receipt := receipts[(h.device, h.id)];
        if receipt.payload != h {
          return Err(Conflict);
        }
        return Ok(receipt.response);
      }
      availability.AcceptHeartbeat(h.device, d.now, d.route);
      availability.gpu.Accept(h.device, h.observation, d.now, d.route);
      var ack := Ack(h.id, h.device, d.now);
      receipts := receipts[(h.device, h.id) := Receipt(h, d.now, ack)];
      samples := samples + [Sample(h.device, d.now, h)];
      latest := latest[h.device := Latest(h.id, d.now, h.collectedAt, h.agentVersion, h.hostname, h)];
      return Ok(ack);
    }
  }
}
