/** What the alerting system guarantees after, and during, every run from empty tables. */
module AlertGuarantees {
  import opened Prelude
  import opened NotificationQueue
  import opened AlertWorld
  import opened AlertInvariants
  import opened AlertRuns
  import G = GpuConfirmation

  /** Exactly one incident of `kind` is open on device `d`. */
  ghost predicate ExactlyOneOpen(w: World, d: nat, kind: Kind) {
    exists i :: 0 <= i < |w.incidents| && IsOpen(w.incidents[i], d, kind)
                && forall j :: 0 <= j < |w.incidents| && IsOpen(w.incidents[j], d, kind) ==> j == i
  }

  /** Exactly one event of `kind` names incident `i`. */
  ghost predicate ExactlyOneEvent(w: World, i: nat, kind: EventKind) {
    exists e :: 0 <= e < |w.events| && w.events[e].incident == i && w.events[e].kind == kind
                && forall f :: 0 <= f < |w.events| && w.events[f].incident == i && w.events[f].kind == kind ==> f == e
  }

  lemma EmptyIsValid()
    ensures Inv(Empty())
  {
  }

  lemma OpenMeansExactlyOne(w: World, d: nat, kind: Kind)
    requires OnlyLastOpen(w)
    ensures HasOpen(w.incidents, d, kind) <==> ExactlyOneOpen(w, d, kind)
  {
    if HasOpen(w.incidents, d, kind) {
      var i :| 0 <= i < |w.incidents| && IsOpen(w.incidents[i], d, kind);
      forall j | 0 <= j < |w.incidents| && IsOpen(w.incidents[j], d, kind) ensures j == i {
      }
    }
  }

  lemma AnnouncedMeansExactlyOnce(w: World, i: nat, kind: EventKind)
    requires DistinctEvents(w)
    ensures HasEvent(w.events, i, kind) <==> ExactlyOneEvent(w, i, kind)
  {
    if HasEvent(w.events, i, kind) {
      var e :| 0 <= e < |w.events| && w.events[e].incident == i && w.events[e].kind == kind;
      forall f | 0 <= f < |w.events| && w.events[f].incident == i && w.events[f].kind == kind ensures f == e {
      }
    }
  }

  /** After any run, a device is OFFLINE iff exactly one availability incident is open; a GPU
      state of OK has no open GPU incident and a failing one exactly one. */
  lemma IncidentsMatchDeviceStates(t: Thresholds, run: seq<Timed>, d: nat)
    requires ValidRun(Empty(), t, run) && d in Run(Empty(), t, run).devices
    ensures var w := Run(Empty(), t, run); var state := w.devices[d].gpu.state;
      && (w.devices[d].availability == Offline <==> ExactlyOneOpen(w, d, AvailabilityKind))
      && (w.devices[d].availability != Offline <==> !HasOpen(w.incidents, d, AvailabilityKind))
      && (state == G.GpuOk ==> !HasOpen(w.incidents, d, GpuKind))
      && (state != G.GpuOk && state != G.NotMonitored ==> ExactlyOneOpen(w, d, GpuKind))
  {
    var w := Run(Empty(), t, run);
    RunKeepsInv(Empty(), t, run);
    OpenMeansExactlyOne(w, d, AvailabilityKind);
    OpenMeansExactlyOne(w, d, GpuKind);
    assert Coherent(w, d);
  }

  /** After any run, every incident has exactly one opening event, and exactly one closing event
      iff it has closed. */
  lemma IncidentsAreAnnouncedOnce(t: Thresholds, run: seq<Timed>, i: nat)
    requires ValidRun(Empty(), t, run) && i < |Run(Empty(), t, run).incidents|
    ensures var w := Run(Empty(), t, run); var incident := w.incidents[i];
      && ExactlyOneEvent(w, i, Opening(incident.kind))
      && (incident.closedAt.Some? ==> ExactlyOneEvent(w, i, Closing(incident.kind)))
      && (incident.closedAt.None? ==> !HasEvent(w.events, i, Closing(incident.kind)))
  {
    var w := Run(Empty(), t, run);
    RunKeepsInv(Empty(), t, run);
    AnnouncedMeansExactlyOnce(w, i, Opening(w.incidents[i].kind));
    AnnouncedMeansExactlyOnce(w, i, Closing(w.incidents[i].kind));
  }

  /** After any run, the lease and the ledger of every delivery agree. */
  lemma LeasesMatchLedgers(t: Thresholds, run: seq<Timed>, k: nat)
    requires ValidRun(Empty(), t, run) && k < |Run(Empty(), t, run).deliveries|
    ensures var d := Run(Empty(), t, run).deliveries[k];
      && (d.status == InProgress <==> d.leaseToken.Some?)
      && (d.status == InProgress <==> d.leaseExpiresAt.Some?)
      && (d.status == InProgress <==> exists n :: n in d.attempts && d.attempts[n].finishedAt.None?)
      && (forall n :: n in d.attempts && d.attempts[n].finishedAt.None? ==> n == d.attemptCount)
      && (forall n :: n in d.attempts <==> 1 <= n <= d.attemptCount)
      && d.attemptCount <= 5
      && (d.supersededAt.Some? ==> d.status == InProgress || d.status == Cancelled)
      && (d.status == Cancelled ==> d.supersededAt.Some?)
  {
    RunKeepsInv(Empty(), t, run);
    var d := Run(Empty(), t, run).deliveries[k];
    if d.status == InProgress {
      assert d.attemptCount in d.attempts;
    }
  }

  /** A claim takes a delivery only strictly before it expires, with an attempt to spare, and
      never one that is superseded or whose incident has closed. */
  lemma ClaimsAreTimely(w: World, t: Thresholds, step: Timed, k: nat)
    requires Inv(w) && Enabled(w, step) && step.txn.Claims? && k in step.txn.picks
    ensures k < |w.deliveries|
    ensures var d := w.deliveries[k];
      && Waiting(d.status) && step.now < d.expiresAt && d.attemptCount < 5
      && d.supersededAt.None? && !Stale(w, k)
      && Apply(w, t, step).deliveries[k].status == InProgress
      && Apply(w, t, step).deliveries[k].attemptCount == d.attemptCount + 1
  {
    var expired := ExpireUnclaimed(w, step.now, step.txn.expiryLocked);
    var i :| 0 <= i < |step.txn.picks| && step.txn.picks[i] == k;
    assert Claimable(expired.deliveries, step.txn.picks[i], step.now, step.txn.locked);
    assert Valid(w.deliveries[k]);
    ClaimedRows(expired, step.txn.picks, step.now);
  }

  /** A superseded delivery stays superseded, and its status can only become CANCELLED, whatever
      the provider answers. */
  lemma SupersededEndsCancelled(w: World, t: Thresholds, run: seq<Timed>, k: nat)
    requires Inv(w) && ValidRun(w, t, run) && k < |w.deliveries| && w.deliveries[k].supersededAt.Some?
    ensures var v := Run(w, t, run);
      && k < |v.deliveries| && v.deliveries[k].supersededAt.Some?
      && (v.deliveries[k].status == w.deliveries[k].status || v.deliveries[k].status == Cancelled)
  {
    RunKeepsInv(w, t, run);
  }

  /** The claims of delivery `k` in a run. */
  ghost function Sends(w: World, t: Thresholds, run: seq<Timed>, k: nat): nat
    requires ValidRun(w, t, run)
    decreases |run|
  {
    if run == [] then 0
    else
      (if run[0].txn.Claims? && k in run[0].txn.picks then 1 else 0) + Sends(Apply(w, t, run[0]), t, run[1..], k)
  }

  /** The transactions of a run that change the status of delivery `k`. */
  ghost function StatusChanges(w: World, t: Thresholds, run: seq<Timed>, k: nat): nat
    requires ValidRun(w, t, run)
    decreases |run|
  {
    if run == [] then 0
    else
      var next := Apply(w, t, run[0]);
      (if k < |w.deliveries| && k < |next.deliveries| && w.deliveries[k].status != next.deliveries[k].status
       then 1 else 0) + StatusChanges(next, t, run[1..], k)
  }

  /** A delivery that is superseded, or announces a closed incident, is never claimed again. */
  lemma {:induction false} SilencedIsNeverSent(w: World, t: Thresholds, run: seq<Timed>, k: nat)
    requires Inv(w) && ValidRun(w, t, run) && k < |w.deliveries|
    requires Stale(w, k) || w.deliveries[k].supersededAt.Some?
    ensures Sends(w, t, run, k) == 0
    decreases |run|
  {
    hide Apply, Inv;
    if run != [] {
      var next := Apply(w, t, run[0]);
      TxnKeepsInv(w, t, run[0]);
      if run[0].txn.Claims? && k in run[0].txn.picks {
        ClaimsAreTimely(w, t, run[0], k);
      }
      SilencedIsNeverSent(next, t, run[1..], k);
    }
  }

  /** However a run interleaves crashes, retries and recoveries, a delivery is claimed at most
      five times. */
  lemma {:induction false} AtMostFiveSends(w: World, t: Thresholds, run: seq<Timed>, k: nat)
    requires Inv(w) && ValidRun(w, t, run)
    ensures Sends(w, t, run, k) + (if k < |w.deliveries| then w.deliveries[k].attemptCount else 0) <= 5
    decreases |run|
  {
    hide Apply;
    if run == [] {
      assert k < |w.deliveries| ==> Valid(w.deliveries[k]);
    } else {
      var next := Apply(w, t, run[0]);
      TxnKeepsInv(w, t, run[0]);
      if run[0].txn.Claims? && k in run[0].txn.picks {
        ClaimsAreTimely(w, t, run[0], k);
      }
      AtMostFiveSends(next, t, run[1..], k);
      assert k < |w.deliveries| ==> Evolves(w.deliveries[k], next.deliveries[k]);
    }
  }

  /** The status of a delivery changes at most ten times, and never again once it is final. */
  lemma {:induction false} AtMostTenStatusChanges(w: World, t: Thresholds, run: seq<Timed>, k: nat)
    requires Inv(w) && ValidRun(w, t, run)
    ensures StatusChanges(w, t, run, k) <= 10
    ensures k < |w.deliveries| && Terminal(w.deliveries[k].status) ==> StatusChanges(w, t, run, k) == 0
  {
    if k < |w.deliveries| {
      assert Valid(w.deliveries[k]);
    }
    ChangesWithinMeasure(w, t, run, k);
  }

  lemma {:induction false} ChangesWithinMeasure(w: World, t: Thresholds, run: seq<Timed>, k: nat)
    requires Inv(w) && ValidRun(w, t, run)
    requires k < |w.deliveries| ==> Valid(w.deliveries[k])
    ensures StatusChanges(w, t, run, k) <= if k < |w.deliveries| then Measure(w.deliveries[k]) else 10
    decreases |run|
  {
    hide Apply;
    if run != [] {
      var next := Apply(w, t, run[0]);
      TxnKeepsInv(w, t, run[0]);
      if k < |w.deliveries| {
        assert Evolves(w.deliveries[k], next.deliveries[k]);
      }
      if k < |next.deliveries| {
        assert Valid(next.deliveries[k]);
      }
      ChangesWithinMeasure(next, t, run[1..], k);
    }
  }

  /** A final delivery never changes again, in any field. */
  lemma FinalDeliveriesAreFrozen(w: World, t: Thresholds, run: seq<Timed>, k: nat)
    requires Inv(w) && ValidRun(w, t, run) && k < |w.deliveries| && Terminal(w.deliveries[k].status)
    ensures k < |Run(w, t, run).deliveries| && Run(w, t, run).deliveries[k] == w.deliveries[k]
  {
    RunKeepsInv(w, t, run);
  }

  /** The claim query has one answer: which rows a batch takes, and in which order, is fixed. */
  lemma ClaimBatchIsDetermined(ds: seq<Delivery>, p: seq<nat>, q: seq<nat>, limit: nat, now: Time, locked: set<nat>)
    requires EarliestDue(ds, p, limit, now, locked) && EarliestDue(ds, q, limit, now, locked)
    ensures p == q
  {
    SamePrefix(ds, p, q, limit, now, locked, Min(|p|, |q|));
    NotLonger(ds, p, q, limit, now, locked);
    NotLonger(ds, q, p, limit, now, locked);
  }

  /** A batch cannot stop before another that starts the same way. */
  lemma NotLonger(ds: seq<Delivery>, p: seq<nat>, q: seq<nat>, limit: nat, now: Time, locked: set<nat>)
    requires EarliestDue(ds, p, limit, now, locked) && EarliestDue(ds, q, limit, now, locked)
    requires forall j :: 0 <= j < |p| && j < |q| ==> p[j] == q[j]
    ensures |q| <= |p|
  {
    var next := if |p| < |q| then q[|p|] else 0;
    assert |p| < |q| ==> Claimable(ds, next, now, locked) && next !in p;
  }

  lemma {:induction false} SamePrefix(ds: seq<Delivery>, p: seq<nat>, q: seq<nat>, limit: nat, now: Time, locked: set<nat>, n: nat)
    requires EarliestDue(ds, p, limit, now, locked) && EarliestDue(ds, q, limit, now, locked)
    requires n <= |p| && n <= |q|
    ensures forall j :: 0 <= j < n ==> p[j] == q[j]
  {
    if n > 0 {
      var i := n - 1;
      SamePrefix(ds, p, q, limit, now, locked, i);
      FirstDifference(ds, p, q, limit, now, locked, i);
      FirstDifference(ds, q, p, limit, now, locked, i);
    }
  }

  /** Where two batches first differ, neither can have skipped the earlier row. */
  lemma FirstDifference(ds: seq<Delivery>, p: seq<nat>, q: seq<nat>, limit: nat, now: Time, locked: set<nat>, i: nat)
    requires EarliestDue(ds, p, limit, now, locked) && EarliestDue(ds, q, limit, now, locked)
    requires i < |p| && i < |q| && forall j :: 0 <= j < i ==> p[j] == q[j]
    ensures Claimable(ds, p[i], now, locked) && Claimable(ds, q[i], now, locked) && !ClaimsBefore(ds, p[i], q[i])
  {
    var mine, theirs := p[i], q[i];
    assert Claimable(ds, mine, now, locked) && Claimable(ds, theirs, now, locked);
    assert ClaimsBefore(ds, mine, theirs) ==> mine !in q;
  }
}
