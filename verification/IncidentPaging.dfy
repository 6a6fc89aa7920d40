/** Listing incidents page by page (server/app/dashboard/read.py, `list_incidents`) while the alerting system runs. */
module IncidentPaging {
  import opened Prelude
  import opened AlertWorld
  import opened AlertInvariants
  import opened AlertRuns
  import opened KeysetPaging
  import A = AvailabilityHistory
  import G = GpuConfirmation

  /** The columns of an incident that the listing orders and filters by; they are never rewritten. */
  datatype Row = Row(id: nat, openedAt: Time, device: nat)

  function RowsOf(incidents: seq<Incident>): (r: seq<Row>)
    ensures |r| == |incidents|
    ensures forall i :: 0 <= i < |r| ==> r[i] == Row(i + 1, incidents[i].openedAt, incidents[i].device)
  {
    seq(|incidents|, i requires 0 <= i < |incidents| => Row(i + 1, incidents[i].openedAt, incidents[i].device))
  }

  /** From the newest down, all of them or those of one device. */
  function IncidentListing(device: Option<nat>): Listing<Row> {
    Listing((row: Row) => Rank(0 - row.openedAt, 0 - row.id, 0), (row: Row) => device.None? || row.device == device.value)
  }

  // ----- what a run does to the table -----

  ghost predicate OpenedBy(incidents: seq<Incident>, clock: Time) {
    forall i :: 0 <= i < |incidents| ==> incidents[i].openedAt <= clock
  }

  /** `later` has the rows of `earlier`, and then rows opened at `since` or later. */
  ghost predicate Grows(earlier: seq<Row>, later: seq<Row>, since: Time) {
    earlier <= later && forall i :: |earlier| <= i < |later| ==> later[i].openedAt >= since
  }

  /** An incident that a transaction opens carries the time the transaction read, and the others keep theirs. */
  ghost predicate OpensNow(before: seq<Incident>, after: seq<Incident>, now: Time) {
    && |before| <= |after|
    && (forall i :: 0 <= i < |before| ==> after[i].openedAt == before[i].openedAt)
    && forall i :: |before| <= i < |after| ==> after[i].openedAt == now
  }

  lemma OpensOn(a: seq<Incident>, b: seq<Incident>, c: seq<Incident>, now: Time)
    requires OpensNow(a, b, now) && OpensNow(b, c, now)
    ensures OpensNow(a, c, now)
  {
  }

  lemma OfflineOpensNow(w: World, d: nat, now: Time, route: Route)
    requires d in w.devices
    ensures OpensNow(w.incidents, MarkOffline(w, d, now, route).incidents, now)
    ensures d in MarkOffline(w, d, now, route).devices
  {
    hide Supersessions, FindOpen;
  }

  lemma RecoveryOpensNothing(w: World, d: nat, now: Time, route: Route)
    requires d in w.devices
    ensures OpensNow(w.incidents, CloseForRecovery(w, d, now, route).incidents, now)
    ensures d in CloseForRecovery(w, d, now, route).devices
  {
    hide Supersessions, FindOpen;
  }

  lemma AvailabilityOpensNow(w: World, t: Thresholds, d: nat, now: Time, route: Route)
    requires d in w.devices
    ensures OpensNow(w.incidents, AcceptAvailability(w, t, d, now, route).incidents, now)
    ensures d in AcceptAvailability(w, t, d, now, route).devices
  {
    hide MarkOffline, CloseForRecovery, OpensNow;
    SameOpensNow(w.incidents, now);
    var overdue := AvailabilityAt(Baseline(w.devices[d]), now, t) == Offline;
    if overdue {
      OfflineOpensNow(w, d, now, route);
    }
    var reconciled := if overdue then MarkOffline(w, d, now, route) else w;
    var seen := SetDevice(reconciled, d, reconciled.devices[d].(lastSeenAt := Some(now)));
    RecoveryOpensNothing(seen, d, now, route);
    OpensOn(w.incidents, seen.incidents, CloseForRecovery(seen, d, now, route).incidents, now);
  }

  lemma SameOpensNow(incidents: seq<Incident>, now: Time)
    ensures OpensNow(incidents, incidents, now)
  {
  }

  lemma GpuOpensNow(w: World, d: nat, o: G.Observation, now: Time, route: Route)
    requires d in w.devices
    ensures OpensNow(w.incidents, AcceptGpu(w, d, o, now, route).incidents, now)
  {
    hide Supersessions, FindOpen, G.Evaluate;
  }

  lemma BeatOpensNow(w: World, t: Thresholds, d: nat, o: G.Observation, now: Time, route: Route)
    requires d in w.devices
    ensures OpensNow(w.incidents, AcceptHeartbeat(w, t, d, o, now, route).incidents, now)
  {
    hide AcceptAvailability, AcceptGpu, OpensNow;
    AvailabilityOpensNow(w, t, d, now, route);
    var available := AcceptAvailability(w, t, d, now, route);
    GpuOpensNow(available, d, o, now, route);
    OpensOn(w.incidents, available.incidents, AcceptGpu(available, d, o, now, route).incidents, now);
  }

  lemma StepOpensNow(w: World, t: Thresholds, step: Timed)
    requires Enabled(w, step)
    ensures OpensNow(w.incidents, Apply(w, t, step).incidents, step.now)
  {
    hide MarkOffline, AcceptHeartbeat;
    match step.txn {
      case Beat(d, o, route) => BeatOpensNow(w, t, d, o, step.now, route);
      case Sweep(d, route) =>
        if d in w.devices {
          OfflineOpensNow(w, d, step.now, route);
        }
      case Claims(picks, limit, expiryLocked, locked) =>
        A.ClaimsTouchOnlyTheQueue(ExpireUnclaimed(w, step.now, expiryLocked), picks, step.now);
      case _ =>
    }
  }

  // ----- runs -----

  ghost predicate ValidRuns(w: World, t: Thresholds, runs: seq<seq<Timed>>)
    decreases |runs|
  {
    runs == [] || (ValidRun(w, t, runs[0]) && ValidRuns(Run(w, t, runs[0]), t, runs[1..]))
  }

  function ClockAfter(clock: Time, run: seq<Timed>): Time
    decreases |run|
  {
    if run == [] then clock else ClockAfter(run[0].now, run[1..])
  }

  predicate AllMonotone(clock: Time, runs: seq<seq<Timed>>)
    decreases |runs|
  {
    runs == [] || (A.Monotone(clock, runs[0]) && AllMonotone(ClockAfter(clock, runs[0]), runs[1..]))
  }

  /** The tables a reader meets whose pages are separated by the given runs. */
  ghost function Met(w: World, t: Thresholds, runs: seq<seq<Timed>>): seq<seq<Row>>
    requires ValidRuns(w, t, runs)
    decreases |runs|
  {
    if runs == [] then []
    else
      var next := Run(w, t, runs[0]);
      [RowsOf(next.incidents)] + Met(next, t, runs[1..])
  }

  lemma StepGrows(w: World, t: Thresholds, step: Timed, clock: Time)
    requires Inv(w) && Enabled(w, step) && clock <= step.now && OpenedBy(w.incidents, clock)
    ensures var v := Apply(w, t, step); OpenedBy(v.incidents, step.now) && Grows(RowsOf(w.incidents), RowsOf(v.incidents), clock)
  {
    TxnKeepsInv(w, t, step);
    StepOpensNow(w, t, step);
    hide Apply, Inv;
    assert forall i :: 0 <= i < |w.incidents| ==> RowsOf(Apply(w, t, step).incidents)[i] == RowsOf(w.incidents)[i];
  }

  lemma GrowsOn(a: seq<Row>, b: seq<Row>, c: seq<Row>, since: Time, later: Time)
    requires Grows(a, b, since) && Grows(b, c, later) && since <= later
    ensures Grows(a, c, since)
  {
    assert forall i :: |a| <= i < |b| ==> c[i] == b[i];
  }

  lemma GrowsItself(rows: seq<Row>, since: Time)
    ensures Grows(rows, rows, since)
  {
  }

  lemma {:induction false} RunGrows(w: World, t: Thresholds, run: seq<Timed>, clock: Time)
    requires Inv(w) && ValidRun(w, t, run) && A.Monotone(clock, run) && OpenedBy(w.incidents, clock)
    ensures var v := Run(w, t, run);
            && Inv(v) && clock <= ClockAfter(clock, run) && OpenedBy(v.incidents, ClockAfter(clock, run))
            && Grows(RowsOf(w.incidents), RowsOf(v.incidents), clock)
    decreases |run|
  {
    hide Inv, Apply, OpenedBy, Grows;
    if run == [] {
      GrowsItself(RowsOf(w.incidents), clock);
    } else {
      var next := Apply(w, t, run[0]);
      TxnKeepsInv(w, t, run[0]);
      StepGrows(w, t, run[0], clock);
      RunGrows(next, t, run[1..], run[0].now);
      GrowsOn(RowsOf(w.incidents), RowsOf(next.incidents), RowsOf(Run(w, t, run).incidents), clock, run[0].now);
    }
  }

  lemma {:induction false} MetGrows(base: seq<Row>, since: Time, w: World, t: Thresholds, runs: seq<seq<Timed>>, clock: Time)
    requires Inv(w) && ValidRuns(w, t, runs) && AllMonotone(clock, runs) && OpenedBy(w.incidents, clock)
    requires since <= clock && Grows(base, RowsOf(w.incidents), since)
    ensures |Met(w, t, runs)| == |runs|
    ensures forall i :: 0 <= i < |runs| ==> Grows(base, Met(w, t, runs)[i], since) && Numbered(Met(w, t, runs)[i])
    decreases |runs|
  {
    hide Inv, OpenedBy, Grows, Run;
    if runs != [] {
      var next := Run(w, t, runs[0]);
      RunGrows(w, t, runs[0], clock);
      GrowsOn(base, RowsOf(w.incidents), RowsOf(next.incidents), since, clock);
      MetGrows(base, since, next, t, runs[1..], ClockAfter(clock, runs[0]));
    }
  }

  ghost predicate Numbered(rows: seq<Row>) {
    forall i :: 0 <= i < |rows| ==> rows[i].id == i + 1
  }

  lemma NumberedRanks(rows: seq<Row>, device: Option<nat>)
    requires Numbered(rows)
    ensures DistinctRanks(rows, IncidentListing(device))
  {
  }

  lemma NewIncidentsComeFirst(earlier: seq<Row>, later: seq<Row>, since: Time, device: Option<nat>)
    requires Grows(earlier, later, since) && Numbered(later) && forall i :: 0 <= i < |earlier| ==> earlier[i].openedAt <= since
    ensures NewRowsComeFirst(earlier, later, IncidentListing(device))
  {
    var l := IncidentListing(device);
    assert forall i :: 0 <= i < |earlier| ==> later[i] == earlier[i] && later[i] in earlier;
    forall row, old_ | row in later && row !in earlier && old_ in earlier ensures Before(l.rank(row), l.rank(old_)) {
      var i :| 0 <= i < |later| && later[i] == row;
      var j :| 0 <= j < |earlier| && earlier[j] == old_;
      assert later[j] == old_;
    }
  }

  /** Newest first: later openings before earlier ones, and of one instant the larger id first. */
  predicate NewestFirst(rows: seq<Row>) {
    forall i, j :: 0 <= i < j < |rows| ==>
      rows[i].openedAt > rows[j].openedAt || (rows[i].openedAt == rows[j].openedAt && rows[i].id > rows[j].id)
  }

  ghost predicate Once(rows: seq<Row>, row: Row) {
    exists k :: 0 <= k < |rows| && rows[k] == row && forall j :: 0 <= j < |rows| && rows[j] == row ==> j == k
  }

  lemma InOrderIsNewestFirst(rows: seq<Row>, device: Option<nat>)
    requires InOrder(rows, IncidentListing(device), None)
    ensures NewestFirst(rows) && forall row :: row in rows ==> IncidentListing(device).matches(row)
  {
    var l := IncidentListing(device);
    forall i, j | 0 <= i < j < |rows|
      ensures rows[i].openedAt > rows[j].openedAt || (rows[i].openedAt == rows[j].openedAt && rows[i].id > rows[j].id)
    {
      assert Before(l.rank(rows[i]), l.rank(rows[j]));
    }
  }

  /** Listed from these tables, one a page, come newest first only rows of the first table that match and, when the
      listing ends, every one of them once; it ends as soon as its pages could have held them all. */
  ghost predicate IsSnapshot(tables: seq<seq<Row>>, device: Option<nat>, limit: nat)
    requires 1 <= limit
  {
    var (items, done) := Walk(tables, IncidentListing(device), None, limit);
    && tables != [] && NewestFirst(items)
    && (forall row :: row in items ==> row in tables[0] && (device == None || row.device == device.value))
    && (done ==> forall row :: row in tables[0] && (device == None || row.device == device.value) ==> Once(items, row))
    && (limit * |tables| > |tables[0]| ==> done)
  }

  /**
   * Listing incidents while the system runs on between the pages: newest first, only incidents that the first page's
   * table holds, and, when the listing ends, exactly the matching ones of that table, each once. It ends as soon as
   * its pages could have held them all.
   */
  lemma IncidentListingIsASnapshot(
    t: Thresholds, before: seq<Timed>, runs: seq<seq<Timed>>, clock: Time, device: Option<nat>, limit: nat)
    requires 1 <= limit && runs != []
    requires ValidRun(Empty(), t, before) && ValidRuns(Run(Empty(), t, before), t, runs)
    requires A.Monotone(clock, before) && AllMonotone(ClockAfter(clock, before), runs)
    ensures IsSnapshot(Met(Run(Empty(), t, before), t, runs), device, limit)
  {
    hide Run, Inv, IsSnapshot;
    EmptyOpensNothing(clock);
    RunGrows(Empty(), t, before, clock);
    var w := Run(Empty(), t, before);
    var since := ClockAfter(clock, before);
    RunGrows(w, t, runs[0], since);
    var first := Run(w, t, runs[0]);
    var tables := Met(w, t, runs);
    var base := RowsOf(first.incidents);
    var from := ClockAfter(since, runs[0]);
    GrowsItself(base, from);
    MetGrows(base, from, first, t, runs[1..], from);
    assert tables == [base] + Met(first, t, runs[1..]);
    ListingIsSnapshot(tables, from, device, limit);
  }

  lemma ListingIsSnapshot(tables: seq<seq<Row>>, since: Time, device: Option<nat>, limit: nat)
    requires 1 <= limit && tables != []
    requires forall i :: 0 <= i < |tables| ==> Grows(tables[0], tables[i], since) && Numbered(tables[i])
    requires forall i :: 0 <= i < |tables[0]| ==> tables[0][i].openedAt <= since
    ensures IsSnapshot(tables, device, limit)
  {
    assert forall row :: IncidentListing(device).matches(row) <==> (device == None || row.device == device.value);
    hide Walk, NewestFirst, Grows, Numbered, Once, IncidentListing;
    ListingOfGrowingTables(tables, since, device, limit);
  }

  lemma EmptyOpensNothing(clock: Time)
    ensures Inv(Empty()) && OpenedBy(Empty().incidents, clock)
  {
  }

  lemma ListingOfGrowingTables(tables: seq<seq<Row>>, since: Time, device: Option<nat>, limit: nat)
    requires 1 <= limit && tables != []
    requires forall i :: 0 <= i < |tables| ==> Grows(tables[0], tables[i], since) && Numbered(tables[i])
    requires forall i :: 0 <= i < |tables[0]| ==> tables[0][i].openedAt <= since
    ensures var (items, done) := Walk(tables, IncidentListing(device), None, limit);
            && NewestFirst(items)
            && (forall row :: row in items ==> row in tables[0] && IncidentListing(device).matches(row))
            && (done ==> forall row :: row in tables[0] && IncidentListing(device).matches(row) ==> Once(items, row))
            && (limit * |tables| > |tables[0]| ==> done)
  {
    hide Walk, NewestFirst, NewRowsComeFirst, Numbered, DistinctRanks;
    var l := IncidentListing(device);
    var (items, done) := Walk(tables, l, None, limit);
    WalkIsInOrder(tables, l, None, limit);
    InOrderIsNewestFirst(items, device);
    hide InOrder;
    forall i | 0 <= i < |tables| ensures NewRowsComeFirst(tables[0], tables[i], l) && DistinctRanks(tables[i], l) {
      NewIncidentsComeFirst(tables[0], tables[i], since, device);
      NumberedRanks(tables[i], device);
    }
    NewestFirstWalksEnd(tables, l, limit);
    if done {
      forall row | row in tables[0] && l.matches(row) ensures Once(items, row) {
        forall i | 0 <= i < |tables| ensures row in tables[i] {
          assert tables[0] <= tables[i];
        }
        WalkIsComplete(tables, l, None, limit, row);
      }
    }
  }
}
