/** GPU confirmation by two consecutive samples (server/app/gpu/service.py:16-86), and a
    declarative reading of it over whole sample traces. */
module GpuConfirmation {
  import opened Prelude

  const CONFIRMATION_GAP: int := 75 * SECOND

  datatype GpuState = GpuOk | GpuMissing | NvidiaSmiFailed | DriverError | Unknown | NotMonitored

  datatype Confirmation = Confirmation(
    state: GpuState, failureStreak: nat, okStreak: nat, lastSampleAt: Option<Time>)

  datatype GpuEvent = NoEvent | Degraded | Recovered

  /** The part of a heartbeat payload the GPU check reads: the reported state, whether the
      inventory is reliable, and for each listed GPU its UUID when it carries one. */
  datatype Observation = Observation(reported: GpuState, reliable: bool, gpus: seq<Option<string>>)

  datatype Policy = Policy(minCount: nat, uuids: seq<string>)

  function EffectiveState(o: Observation, policy: Policy): GpuState {
    if o.reported != GpuOk then o.reported
    else if !o.reliable then NvidiaSmiFailed
    else if |o.gpus| < policy.minCount || (exists u :: u in policy.uuids && Some(u) !in o.gpus) then GpuMissing
    else GpuOk
  }

  predicate Lists(gpus: seq<Option<string>>, uuid: string) {
    exists i :: 0 <= i < |gpus| && gpus[i] == Some(uuid)
  }

  /** A heartbeat counts as healthy iff the agent says so, can vouch for its inventory, and lists as many GPUs as are
      required and each required one; what counts instead is the reported failure, a failed inventory or a missing GPU. */
  lemma HealthyIffNothingIsMissing(o: Observation, policy: Policy)
    ensures var state := EffectiveState(o, policy);
      var complete := |o.gpus| >= policy.minCount && forall i :: 0 <= i < |policy.uuids| ==> Lists(o.gpus, policy.uuids[i]);
      && (state == GpuOk <==> o.reported == GpuOk && o.reliable && complete)
      && (o.reported != GpuOk ==> state == o.reported)
      && (o.reported == GpuOk && !o.reliable ==> state == NvidiaSmiFailed)
      && (o.reported == GpuOk && o.reliable && !complete ==> state == GpuMissing)
  {
    if o.reported == GpuOk && o.reliable {
      if forall i :: 0 <= i < |policy.uuids| ==> Lists(o.gpus, policy.uuids[i]) {
        forall u | u in policy.uuids ensures Some(u) in o.gpus {
          var i :| 0 <= i < |policy.uuids| && policy.uuids[i] == u;
          assert Lists(o.gpus, policy.uuids[i]);
        }
      } else {
        var i :| 0 <= i < |policy.uuids| && !Lists(o.gpus, policy.uuids[i]);
        assert policy.uuids[i] in policy.uuids && Some(policy.uuids[i]) !in o.gpus;
      }
    }
  }

  function Consecutive(prior: Confirmation, at: Time): bool {
    prior.lastSampleAt.Some? && at - prior.lastSampleAt.value <= CONFIRMATION_GAP
  }

  /** One sample whose effective state is `observed`, with monitoring on. */
  function Confirm(prior: Confirmation, observed: GpuState, at: Time): (Confirmation, GpuEvent) {
    if observed == GpuOk then
      var ok := if Consecutive(prior, at) then prior.okStreak + 1 else 1;
      var recovered := prior.state != GpuOk && ok == 2;
      (Confirmation(if recovered then GpuOk else prior.state, 0, ok, Some(at)),
       if recovered then Recovered else NoEvent)
    else
      var failures := if Consecutive(prior, at) then prior.failureStreak + 1 else 1;
      var degraded := prior.state == GpuOk && failures == 2;
      (Confirmation(if degraded then observed else prior.state, failures, 0, Some(at)),
       if degraded then Degraded else NoEvent)
  }

  function Evaluate(prior: Confirmation, o: Observation, policy: Policy, at: Time, enabled: bool)
    : (Confirmation, GpuEvent)
  {
    if !enabled then (Confirmation(NotMonitored, 0, 0, Some(at)), NoEvent)
    else Confirm(prior, EffectiveState(o, policy), at)
  }

  /** An offline device forgets its streaks and its last sample, never its state. */
  function ResetStreaks(c: Confirmation): Confirmation {
    c.(failureStreak := 0, okStreak := 0, lastSampleAt := None)
  }

  // ----- the declarative specification -----

  /** What one device goes through: a sample while monitored, a heartbeat while not, an offline reset. */
  datatype Item = Sample(observed: GpuState, at: Time) | Unmonitored(at: Time) | Reset

  function Initial(): Confirmation {
    Confirmation(GpuOk, 0, 0, None)
  }

  function Step(c: Confirmation, item: Item): (Confirmation, GpuEvent) {
    match item
    case Sample(observed, at) => Confirm(c, observed, at)
    case Unmonitored(at) => (Confirmation(NotMonitored, 0, 0, Some(at)), NoEvent)
    case Reset => (ResetStreaks(c), NoEvent)
  }

  function Fold(trace: seq<Item>): Confirmation {
    if trace == [] then Initial()
    else Step(Fold(trace[..|trace| - 1]), trace[|trace| - 1]).0
  }

  predicate Fails(item: Item) {
    item.Sample? && item.observed != GpuOk
  }

  /** Samples only report states that an agent may report. */
  predicate Reportable(trace: seq<Item>) {
    forall i :: 0 <= i < |trace| && trace[i].Sample? ==> trace[i].observed != NotMonitored
  }

  /** Items `i - 1` and `i` are samples of one class, at most 75 s apart, nothing between. */
  predicate Pair(trace: seq<Item>, i: int) {
    && 1 <= i < |trace|
    && trace[i].Sample? && trace[i - 1].Sample?
    && Fails(trace[i]) == Fails(trace[i - 1])
    && trace[i].at - trace[i - 1].at <= 75_000_000
  }

  predicate OkPair(trace: seq<Item>, i: int) {
    Pair(trace, i) && !Fails(trace[i])
  }

  predicate BadPair(trace: seq<Item>, i: int) {
    Pair(trace, i) && Fails(trace[i])
  }

  predicate NoOkPairAfter(trace: seq<Item>, i: int) {
    forall j :: i < j < |trace| ==> !OkPair(trace, j)
  }

  /** Monitoring was off at some heartbeat, and nothing has been confirmed healthy since. */
  ghost predicate Suspended(trace: seq<Item>) {
    exists i :: 0 <= i < |trace| && trace[i].Unmonitored? && NoOkPairAfter(trace, i)
  }

  /** A failing pair was confirmed while not suspended, and nothing has been confirmed healthy since. */
  ghost predicate Opened(trace: seq<Item>) {
    exists i :: Opens(trace, i) && NoOkPairAfter(trace, i)
  }

  ghost predicate Opens(trace: seq<Item>, i: int) {
    BadPair(trace, i) && !Suspended(trace[..i])
  }

  /** One announcement for each change of `Opened`, oldest first. */
  ghost function Announcements(trace: seq<Item>): seq<GpuEvent> {
    if trace == [] then []
    else
      var prefix := trace[..|trace| - 1];
      Announcements(prefix) +
      if Opened(trace) == Opened(prefix) then [] else [if Opened(trace) then Degraded else Recovered]
  }

  // ----- longer traces -----

  lemma PairOfPrefix(trace: seq<Item>, item: Item, i: int)
    requires i < |trace|
    ensures OkPair(trace + [item], i) <==> OkPair(trace, i)
    ensures BadPair(trace + [item], i) <==> BadPair(trace, i)
  {
  }

  lemma NoOkPairOfPrefix(trace: seq<Item>, item: Item, i: int)
    requires i < |trace|
    ensures NoOkPairAfter(trace + [item], i) <==> NoOkPairAfter(trace, i) && !OkPair(trace + [item], |trace|)
  {
    var longer := trace + [item];
    forall j | i < j < |trace| ensures OkPair(longer, j) <==> OkPair(trace, j) {
      PairOfPrefix(trace, item, j);
    }
    if NoOkPairAfter(longer, i) {
      assert forall j :: i < j < |trace| ==> !OkPair(longer, j);
    }
  }

  lemma SuspendedOfPrefix(trace: seq<Item>, item: Item)
    ensures Suspended(trace + [item]) <==> item.Unmonitored? || (Suspended(trace) && !OkPair(trace + [item], |trace|))
  {
    var longer := trace + [item];
    if Suspended(longer) {
      var i :| 0 <= i < |longer| && longer[i].Unmonitored? && NoOkPairAfter(longer, i);
      if i < |trace| {
        NoOkPairOfPrefix(trace, item, i);
        assert trace[i].Unmonitored?;
      }
    }
    if item.Unmonitored? {
      assert longer[|trace|].Unmonitored? && NoOkPairAfter(longer, |trace|);
    } else if Suspended(trace) && !OkPair(longer, |trace|) {
      var i :| 0 <= i < |trace| && trace[i].Unmonitored? && NoOkPairAfter(trace, i);
      NoOkPairOfPrefix(trace, item, i);
      assert longer[i].Unmonitored?;
    }
  }

  lemma OpensOfPrefix(trace: seq<Item>, item: Item, i: int)
    requires i < |trace|
    ensures Opens(trace + [item], i) <==> Opens(trace, i)
  {
    PairOfPrefix(trace, item, i);
    if BadPair(trace, i) {
      assert (trace + [item])[..i] == trace[..i];
    }
  }

  lemma OpenedOfPrefix(trace: seq<Item>, item: Item)
    ensures var longer := trace + [item];
      Opened(longer) <==>
      !OkPair(longer, |trace|) && (Opened(trace) || (BadPair(longer, |trace|) && !Suspended(trace)))
  {
    var longer := trace + [item];
    var n := |trace|;
    assert longer[..n] == trace;
    assert Opens(longer, n) <==> BadPair(longer, n) && !Suspended(trace);
    if Opened(longer) {
      var i :| Opens(longer, i) && NoOkPairAfter(longer, i);
      if i < n {
        OpensOfPrefix(trace, item, i);
        NoOkPairOfPrefix(trace, item, i);
      }
    }
    if Opens(longer, n) {
      assert NoOkPairAfter(longer, n);
    }
    if Opened(trace) && !OkPair(longer, n) {
      var i :| Opens(trace, i) && NoOkPairAfter(trace, i);
      OpensOfPrefix(trace, item, i);
      NoOkPairOfPrefix(trace, item, i);
    }
  }

  lemma FoldAppend(trace: seq<Item>, item: Item)
    ensures Fold(trace + [item]) == Step(Fold(trace), item).0
  {
    assert (trace + [item])[..|trace|] == trace;
  }

  lemma AnnouncementsAppend(trace: seq<Item>, item: Item)
    ensures var longer := trace + [item];
      Announcements(longer) == Announcements(trace) +
        if Opened(longer) == Opened(trace) then [] else [if Opened(longer) then Degraded else Recovered]
  {
    assert (trace + [item])[..|trace|] == trace;
  }

  lemma {:induction false} NothingOpenedYet()
    ensures Fold([]) == Initial() && Announcements([]) == [] && !Opened([]) && !Suspended([])
  {
    assert forall i :: !BadPair([], i);
  }

  // ----- what the confirmation means -----

  /** What the streak counters mean. */
  lemma {:induction false} StreaksMeanPairs(trace: seq<Item>)
    ensures var c := Fold(trace); var n := |trace| - 1;
      && (c.lastSampleAt == if n >= 0 && !trace[n].Reset? then Some(trace[n].at) else None)
      && (c.failureStreak >= 1 <==> n >= 0 && Fails(trace[n]))
      && (c.okStreak >= 1 <==> n >= 0 && trace[n].Sample? && !Fails(trace[n]))
      && (c.failureStreak >= 2 <==> BadPair(trace, n))
      && (c.okStreak >= 2 <==> OkPair(trace, n))
  {
    if trace != [] {
      var n := |trace| - 1;
      StreaksMeanPairs(trace[..n]);
    }
  }

  /** How one item changes the verdict. */
  lemma VerdictStep(c: Confirmation, item: Item, okPair: bool, badPair: bool, suspended: bool, failing: bool)
    requires c.state == GpuOk <==> !suspended && !failing
    requires (c.okStreak >= 2 ==> c.state == GpuOk) && (c.failureStreak >= 2 ==> c.state != GpuOk)
    requires var next := Step(c, item).0; (next.okStreak >= 2 <==> okPair) && (next.failureStreak >= 2 <==> badPair)
    ensures var next := Step(c, item).0;
      var suspends := item.Unmonitored? || (suspended && !okPair);
      && (next.state == GpuOk <==> !suspends && (okPair || (!failing && !(badPair && !suspended))))
      && (okPair ==> next.state == GpuOk) && (badPair ==> next.state != GpuOk)
      && ((c.state == NotMonitored <==> suspended) && (item.Sample? ==> item.observed != NotMonitored) ==>
            (next.state == NotMonitored <==> suspends))
  {
    hide Consecutive;
  }

  /** For every trace of samples, unmonitored heartbeats and offline resets: the state is OK exactly when neither
      suspended nor opened, and NOT_MONITORED exactly while suspended, which no sample may report. */
  lemma {:induction false} VerdictOfTrace(trace: seq<Item>)
    ensures Fold(trace).state == GpuOk <==> !Suspended(trace) && !Opened(trace)
    ensures Reportable(trace) ==> (Fold(trace).state == NotMonitored <==> Suspended(trace))
    ensures Fold(trace).okStreak >= 2 ==> Fold(trace).state == GpuOk
    ensures Fold(trace).failureStreak >= 2 ==> Fold(trace).state != GpuOk
  {
    if trace == [] {
      NothingOpenedYet();
    } else {
      var n := |trace| - 1;
      var prefix, item := trace[..n], trace[n];
      assert trace == prefix + [item];
      VerdictOfTrace(prefix);
      StreaksMeanPairs(prefix);
      StreaksMeanPairs(trace);
      SuspendedOfPrefix(prefix, item);
      OpenedOfPrefix(prefix, item);
      VerdictStep(Fold(prefix), item, OkPair(trace, n), BadPair(trace, n), Suspended(prefix), Opened(prefix));
      assert Reportable(trace) ==> Reportable(prefix) && (item.Sample? ==> item.observed != NotMonitored);
      assert Fold(trace) == Step(Fold(prefix), item).0;
      hide Suspended, Opened, Fold, Step, OkPair, BadPair, Reportable;
    }
  }

  /** A failing device reports the state of the sample that confirmed it, however the failure is reported afterwards. */
  lemma {:induction false} FailingKindIsFrozen(trace: seq<Item>) returns (i: nat)
    requires Reportable(trace) && Fold(trace).state != GpuOk && Fold(trace).state != NotMonitored
    ensures BadPair(trace, i) && trace[i].observed == Fold(trace).state
    ensures !Suspended(trace[..i]) && !Opened(trace[..i])
    ensures forall j :: i <= j < |trace| ==> !OkPair(trace, j) && !trace[j].Unmonitored?
  {
    var n := |trace| - 1;
    var prefix := trace[..n];
    VerdictOfTrace(prefix);
    StreaksMeanPairs(prefix);
    StreaksMeanPairs(trace);
    hide Suspended, Opened;
    if Fold(prefix).state == GpuOk {
      i := n;
    } else {
      i := FailingKindIsFrozen(prefix);
      assert trace[..i] == prefix[..i];
      forall j | i <= j < |trace| ensures !OkPair(trace, j) && !trace[j].Unmonitored? {
        if j < n {
          PairOfPrefix(prefix, trace[n], j);
          assert trace == prefix + [trace[n]] && trace[j] == prefix[j];
        }
      }
    }
  }

  /** A degradation fires exactly when the trace becomes opened, a recovery exactly when it stops being opened or
      suspended. */
  lemma EventIffVerdictChanges(trace: seq<Item>, item: Item)
    ensures var event := Step(Fold(trace), item).1; var longer := trace + [item];
      && (event == Degraded <==> !Opened(trace) && Opened(longer))
      && (event == Recovered <==> (Suspended(trace) || Opened(trace)) && !Suspended(longer) && !Opened(longer))
      && (event != Recovered ==> Opened(trace) ==> Opened(longer))
  {
    var longer := trace + [item];
    assert longer[..|trace|] == trace;
    VerdictOfTrace(trace);
    VerdictOfTrace(longer);
    StreaksMeanPairs(trace);
    StreaksMeanPairs(longer);
    SuspendedOfPrefix(trace, item);
    OpenedOfPrefix(trace, item);
    hide Suspended, Opened;
  }

  /** Announcements alternate, starting with a degradation, and the last is a degradation exactly when opened. */
  lemma {:induction false} AnnouncementsAlternate(trace: seq<Item>)
    ensures forall k :: 0 <= k < |Announcements(trace)| ==>
      Announcements(trace)[k] == if k % 2 == 0 then Degraded else Recovered
    ensures |Announcements(trace)| % 2 == 1 <==> Opened(trace)
  {
    if trace == [] {
      NothingOpenedYet();
    } else {
      AnnouncementsAlternate(trace[..|trace| - 1]);
      hide Opened;
    }
  }

  // ----- traces with monitoring on -----

  ghost predicate AlwaysMonitored(trace: seq<Item>) {
    forall i :: 0 <= i < |trace| ==> !trace[i].Unmonitored?
  }

  /** The most recent confirmed pair of the trace was a failing one. */
  ghost predicate ConfirmedBad(trace: seq<Item>) {
    exists i :: BadPair(trace, i) && NoOkPairAfter(trace, i)
  }

  /** With monitoring on throughout: the device is degraded exactly when the most recent confirmed pair failed. */
  lemma DegradedIffLatestPairFailed(trace: seq<Item>)
    requires AlwaysMonitored(trace)
    ensures Fold(trace).state != GpuOk <==> ConfirmedBad(trace)
  {
    VerdictOfTrace(trace);
    if ConfirmedBad(trace) {
      var i :| BadPair(trace, i) && NoOkPairAfter(trace, i);
      assert Opens(trace, i);
    }
    if Opened(trace) {
      var i :| Opens(trace, i) && NoOkPairAfter(trace, i);
      assert BadPair(trace, i);
    }
  }

  /** After a heartbeat without monitoring only a healthy pair counts: whatever else follows, the state stays
      NOT_MONITORED, and an incident is open exactly when one was. */
  lemma {:induction false} OnlyHealthResumesMonitoring(trace: seq<Item>, at: Time, later: seq<Item>)
    requires Reportable(trace + [Unmonitored(at)] + later)
    requires NoOkPairAfter(trace + [Unmonitored(at)] + later, |trace|)
    ensures Fold(trace + [Unmonitored(at)] + later).state == NotMonitored
    ensures Opened(trace + [Unmonitored(at)] + later) <==> Opened(trace)
  {
    var whole := trace + [Unmonitored(at)] + later;
    assert whole[|trace|].Unmonitored?;
    VerdictOfTrace(whole);
    if later == [] {
      assert whole == trace + [Unmonitored(at)];
      OpenedOfPrefix(trace, Unmonitored(at));
    } else {
      var front, item := later[..|later| - 1], later[|later| - 1];
      var shorter := trace + [Unmonitored(at)] + front;
      assert whole == shorter + [item];
      NoOkPairOfPrefix(shorter, item, |trace|);
      assert forall i :: 0 <= i < |shorter| ==> whole[i] == shorter[i];
      OnlyHealthResumesMonitoring(trace, at, front);
      assert shorter[|trace|].Unmonitored?;
      OpenedOfPrefix(shorter, item);
    }
  }

  /** An offline reset separates samples: no pair has one inside, and the two confirmations
      around it must each come from samples on its own side. */
  lemma NoPairSpansReset(before: seq<Item>, after: seq<Item>, i: int)
    requires Pair(before + [Reset] + after, i)
    ensures Pair(before, i) || Pair(after, i - |before| - 1)
  {
    var trace := before + [Reset] + after;
    assert trace[|before|] == Reset;
    if i > |before| + 1 {
      assert trace[i] == after[i - |before| - 1] && trace[i - 1] == after[i - |before| - 2];
    }
  }
}
