/** What holds of the log store over every run of uploads and pruning, with a database clock that never goes back. */
module LogRuns {
  import opened Prelude
  import opened Retention
  import opened LogStore

  // ----- the invariant -----

  ghost predicate Numbers(s: Store, clock: Time) {
    && 1 <= s.nextId && Ascending(s.entries)
    && forall e :: e in s.entries ==> 1 <= e.id < s.nextId && e.received <= clock
  }

  /** No hash is stored twice for a device, whatever the source. */
  ghost predicate UniqueHashes(entries: seq<Entry>) {
    forall e, f :: e in entries && f in entries && e.device == f.device && e.hash == f.hash ==> e == f
  }

  /** Ids follow the clock. */
  ghost predicate Chronological(entries: seq<Entry>) {
    forall e, f :: e in entries && f in entries && e.id < f.id ==> e.received <= f.received
  }

  ghost predicate Bounded(entries: seq<Entry>) {
    forall device, source :: |Slice(entries, device, source)| <= LIMIT
  }

  ghost predicate Valid(s: Store, clock: Time) {
    Numbers(s, clock) && UniqueHashes(s.entries) && Chronological(s.entries) && Bounded(s.entries)
  }

  // ----- one upload -----

  /** The rows an accepted upload inserts. */
  function Inserted(s: Store, device: nat, upload: Upload, now: Time): seq<Entry> {
    Numbered(Unseen(Hashes(s.entries, device), upload.lines), device, upload.source, now, s.nextId)
  }

  lemma InsertedRows(s: Store, device: nat, upload: Upload, now: Time)
    ensures var rows := Inserted(s, device, upload, now);
            && (forall i :: 0 <= i < |rows| ==>
                  && rows[i].id == s.nextId + i && rows[i].received == now
                  && rows[i].device == device && rows[i].hash !in Hashes(s.entries, device))
            && (forall i, j :: 0 <= i < j < |rows| ==> rows[i].hash != rows[j].hash)
            && |rows| == |Unseen(Hashes(s.entries, device), upload.lines)|
  {
    var stored := Hashes(s.entries, device);
    var lines := Unseen(stored, upload.lines);
    UnseenLines(stored, upload.lines);
    NumberedRows(lines, device, upload.source, now, s.nextId);
    hide Unseen, Numbered, Hashes;
    forall i | 0 <= i < |lines| ensures lines[i].hash !in stored {
      assert lines[i].hash in HashesOf(lines);
    }
  }

  lemma InsertKeepsNumbers(s: Store, device: nat, upload: Upload, now: Time, clock: Time)
    requires Numbers(s, clock) && clock <= now
    ensures var rows := Inserted(s, device, upload, now);
            Numbers(s.(entries := s.entries + rows, nextId := s.nextId + |rows|), now)
  {
    InsertedRows(s, device, upload, now);
    hide Inserted, Hashes;
    var entries := s.entries + Inserted(s, device, upload, now);
    forall i, j | 0 <= i < j < |entries| ensures entries[i].id < entries[j].id {
      if i < |s.entries| {
        assert s.entries[i] in s.entries;
      }
    }
  }

  lemma InsertKeepsUnique(s: Store, device: nat, upload: Upload, now: Time)
    requires UniqueHashes(s.entries)
    ensures UniqueHashes(s.entries + Inserted(s, device, upload, now))
  {
    InsertedRows(s, device, upload, now);
    hide Inserted;
    var rows := Inserted(s, device, upload, now);
    forall e, f | e in s.entries + rows && f in s.entries + rows && e.device == f.device && e.hash == f.hash
      ensures e == f
    {
    }
  }

  lemma InsertKeepsChronological(s: Store, device: nat, upload: Upload, now: Time, clock: Time)
    requires Numbers(s, clock) && clock <= now && Chronological(s.entries)
    ensures Chronological(s.entries + Inserted(s, device, upload, now))
  {
    InsertedRows(s, device, upload, now);
    hide Inserted, Hashes, Ascending;
  }

  /**
   * An accepted upload leaves its own device and source with the newest 500 of what was stored followed by the
   * lines not stored yet, in upload order, and leaves every other slice alone.
   */
  lemma AcceptedSlices(s: Store, device: nat, upload: Upload, now: Time, clock: Time, other: nat, source: Source)
    requires Valid(s, clock) && clock <= now
    ensures var (v, answer) := Accept(s, device, true, upload, now);
            var before := Slice(s.entries, other, source);
            Slice(v.entries, other, source) ==
            if answer.Ok? && other == device && source == upload.source
            then Newest(before + Inserted(s, device, upload, now)) else before
  {
    hide Slice, Trim, Inserted, Unseen, UniqueHashes, Chronological, Hashes, AllTimely, Touch, Newest;
    var rows := Inserted(s, device, upload, now);
    var before := Slice(s.entries, other, source);
    InsertKeepsNumbers(s, device, upload, now, clock);
    SliceConcat(s.entries, rows, other, source);
    InsertedSlice(s, device, upload, now, other, source);
    assert before + [] == before;
    TrimKeepsNewest(s.entries + rows, device, upload.source, other, source);
    AcceptInserts(s, device, upload, now);
    BoundedIsNewest(s.entries, other, source);
  }

  lemma BoundedIsNewest(entries: seq<Entry>, device: nat, source: Source)
    requires Bounded(entries)
    ensures Newest(Slice(entries, device, source)) == Slice(entries, device, source)
  {
    hide Slice;
  }

  lemma AcceptInserts(s: Store, device: nat, upload: Upload, now: Time)
    ensures var (v, answer) := Accept(s, device, true, upload, now);
            v.entries == if answer.Ok? then Trim(s.entries + Inserted(s, device, upload, now), device, upload.source)
                         else s.entries
  {
    hide Trim, Unseen, Numbered, Touch, AllTimely, Hashes;
  }

  lemma InsertedSlice(s: Store, device: nat, upload: Upload, now: Time, other: nat, source: Source)
    ensures Slice(Inserted(s, device, upload, now), other, source) ==
            if other == device && source == upload.source then Inserted(s, device, upload, now) else []
  {
    SliceOfNumbered(Unseen(Hashes(s.entries, device), upload.lines), device, upload.source, now, s.nextId, other, source);
    hide Slice, Unseen, Numbered;
  }

  /** Accepted and repeated lines add up: accepted is the number of different hashes that were not stored. */
  lemma AcceptedCounts(s: Store, device: nat, upload: Upload, now: Time)
    ensures var answer := Accept(s, device, true, upload, now).1;
            answer.Ok? ==>
              && answer.value.accepted == |HashesOf(upload.lines) - Hashes(s.entries, device)|
              && answer.value.accepted + answer.value.duplicates == |upload.lines|
  {
    UnseenLines(Hashes(s.entries, device), upload.lines);
    hide Unseen, Trim, Numbered, Touch;
  }

  predicate IsStored(entries: seq<Entry>, device: nat, hash: nat) {
    exists e :: e in entries && e.device == device && e.hash == hash
  }

  /** Line `i` of an upload is new: its hash is not stored for the device, and no earlier line has it. */
  predicate IsNew(seen: set<nat>, lines: seq<Line>, i: nat)
    requires i < |lines|
  {
    lines[i].hash !in seen && forall j :: 0 <= j < i ==> lines[j].hash != lines[i].hash
  }

  lemma {:induction false} UnseenAreTheNew(seen: set<nat>, lines: seq<Line>, now: Time)
    ensures AllTimely(Unseen(seen, lines), now) <==>
            forall i :: 0 <= i < |lines| && IsNew(seen, lines, i) ==> Timely(lines[i], now)
    decreases |lines|
  {
    if lines != [] {
      var rest, after := lines[1..], seen + {lines[0].hash};
      UnseenAreTheNew(after, rest, now);
      NewInRest(seen, lines);
      assert lines[0].hash in seen ==> after == seen;
      hide Timely, Unseen;
      UnseenSplits(seen, lines, now);
      if forall i :: 0 <= i < |lines| && IsNew(seen, lines, i) ==> Timely(lines[i], now) {
        forall i | 0 <= i < |rest| && IsNew(after, rest, i) ensures Timely(rest[i], now) {
          assert IsNew(seen, lines, i + 1);
        }
        assert IsNew(seen, lines, 0) ==> Timely(lines[0], now);
      }
      if forall i :: 0 <= i < |rest| && IsNew(after, rest, i) ==> Timely(rest[i], now) {
        forall i | 0 < i < |lines| && IsNew(seen, lines, i) ensures Timely(lines[i], now) {
          assert IsNew(after, rest, i - 1) && rest[i - 1] == lines[i];
        }
      }
    }
  }

  lemma NewInRest(seen: set<nat>, lines: seq<Line>)
    requires lines != []
    ensures forall i :: 0 < i < |lines| ==>
      (IsNew(seen, lines, i) <==> IsNew(seen + {lines[0].hash}, lines[1..], i - 1))
  {
    var rest := lines[1..];
    forall i | 0 < i < |lines| ensures IsNew(seen, lines, i) <==> IsNew(seen + {lines[0].hash}, rest, i - 1) {
      assert rest[i - 1] == lines[i];
      assert forall j :: 0 < j < i ==> rest[j - 1] == lines[j];
      if IsNew(seen + {lines[0].hash}, rest, i - 1) {
        forall j | 0 <= j < i ensures lines[j].hash != lines[i].hash {
          assert j > 0 ==> rest[j - 1].hash != rest[i - 1].hash;
        }
      }
    }
  }

  lemma UnseenSplits(seen: set<nat>, lines: seq<Line>, now: Time)
    requires lines != []
    ensures AllTimely(Unseen(seen, lines), now) <==>
            (lines[0].hash in seen || Timely(lines[0], now)) && AllTimely(Unseen(seen + {lines[0].hash}, lines[1..]), now)
  {
    hide Timely;
    assert lines[0].hash in seen ==> seen + {lines[0].hash} == seen;
    var rest := Unseen(seen + {lines[0].hash}, lines[1..]);
    if lines[0].hash !in seen {
      assert Unseen(seen, lines) == [lines[0]] + rest;
      assert forall line :: line in Unseen(seen, lines) <==> line == lines[0] || line in rest;
    }
  }

  predicate Untimely(line: Line, now: Time) {
    && line.occurred.Some?
    && (line.occurred.value < now - 86_400_000_000 || line.occurred.value > now + 300_000_000)
  }

  /**
   * An upload that is not over the rate is refused exactly when one of its lines occurred more than a day before it or
   * more than five minutes after it, was never stored for the device and is the first of its hash in the upload:
   * repeats are never too old. A refused upload leaves the store as it was.
   */
  lemma RefusedIffNewLineIsUntimely(s: Store, device: nat, allowed: bool, upload: Upload, now: Time)
    ensures var (v, answer) := Accept(s, device, allowed, upload, now);
            && (answer == Err(TimestampInvalid) <==>
                  && allowed
                  && exists i :: 0 <= i < |upload.lines| && Untimely(upload.lines[i], now)
                                 && !IsStored(s.entries, device, upload.lines[i].hash)
                                 && forall j :: 0 <= j < i ==> upload.lines[j].hash != upload.lines[i].hash)
            && (answer == Err(RateLimited) <==> !allowed)
            && (answer.Err? ==> v == s)
  {
    var stored := Hashes(s.entries, device);
    UnseenAreTheNew(stored, upload.lines, now);
    forall i | 0 <= i < |upload.lines|
      ensures IsNew(stored, upload.lines, i) <==>
              && !IsStored(s.entries, device, upload.lines[i].hash)
              && forall j :: 0 <= j < i ==> upload.lines[j].hash != upload.lines[i].hash
    {
    }
    assert forall line :: Untimely(line, now) <==> !Timely(line, now);
    hide Unseen, Trim, Numbered, Touch, AllTimely, Timely, Untimely, Hashes, IsStored;
  }

  lemma SubsetKeeps(entries: seq<Entry>, fewer: seq<Entry>)
    requires forall e :: e in fewer ==> e in entries
    requires UniqueHashes(entries) && Chronological(entries)
    ensures UniqueHashes(fewer) && Chronological(fewer)
  {
  }

  lemma ValidGrowsOlder(s: Store, clock: Time, now: Time)
    requires Valid(s, clock) && clock <= now
    ensures Valid(s, now)
  {
  }

  lemma TrimmedRows(s: Store, device: nat, upload: Upload, now: Time)
    requires Accept(s, device, true, upload, now).1.Ok? && Ascending(s.entries + Inserted(s, device, upload, now))
    ensures var v := Accept(s, device, true, upload, now).0;
            && Ascending(v.entries) && v.nextId == s.nextId + |Inserted(s, device, upload, now)|
            && forall e :: e in v.entries ==> e in s.entries + Inserted(s, device, upload, now)
  {
    InsertedRows(s, device, upload, now);
    TrimKeepsNewest(s.entries + Inserted(s, device, upload, now), device, upload.source, device, upload.source);
    hide Slice, Trim, Unseen, Numbered, Ascending, Hashes;
  }

  lemma AcceptKeepsBounded(s: Store, device: nat, upload: Upload, now: Time, clock: Time)
    requires Valid(s, clock) && clock <= now
    ensures Bounded(Accept(s, device, true, upload, now).0.entries)
  {
    hide Slice, Accept, Inserted, Numbers;
    var v := Accept(s, device, true, upload, now).0;
    forall other, source ensures |Slice(v.entries, other, source)| <= LIMIT {
      AcceptedSlices(s, device, upload, now, clock, other, source);
      assert |Slice(s.entries, other, source)| <= LIMIT;
    }
  }

  lemma AcceptKeepsValid(s: Store, device: nat, allowed: bool, upload: Upload, now: Time, clock: Time)
    requires Valid(s, clock) && clock <= now
    ensures Valid(Accept(s, device, allowed, upload, now).0, now)
  {
    hide Slice, Trim, Unseen, Numbered, Ascending, UniqueHashes, Chronological, Hashes, Bounded, Inserted, Touch;
    var (v, answer) := Accept(s, device, allowed, upload, now);
    if answer.Ok? {
      var rows := Inserted(s, device, upload, now);
      InsertedRows(s, device, upload, now);
      InsertKeepsNumbers(s, device, upload, now, clock);
      InsertKeepsUnique(s, device, upload, now);
      InsertKeepsChronological(s, device, upload, now, clock);
      TrimmedRows(s, device, upload, now);
      SubsetKeeps(s.entries + rows, v.entries);
      AcceptKeepsBounded(s, device, upload, now, clock);
    } else {
      ValidGrowsOlder(s, clock, now);
    }
  }

  // ----- one batch of pruning -----

  lemma SortedByKey(s: Store, clock: Time)
    requires Valid(s, clock)
    ensures Sorted(s.entries, EntryKey)
  {
    hide Bounded, UniqueHashes;
    var rows := s.entries;
    forall i, j | 0 <= i < j < |rows| ensures Precedes(EntryKey(rows[i]), EntryKey(rows[j])) {
      assert rows[i] in rows && rows[j] in rows;
    }
  }

  lemma LostAreExpired(gone: seq<Entry>, device: nat, source: Source, cutoff: Time)
    requires forall e :: e in gone ==> e.received < cutoff
    ensures forall e :: e in Slice(gone, device, source) ==> e.received < cutoff
  {
    hide Slice;
    forall e | e in Slice(gone, device, source) ensures e.received < cutoff {
      SliceMembers(gone, device, source, e);
    }
  }

  /** With the clock in order, a batch is a prefix of the table, all of it expired. */
  lemma BatchIsAPrefix(s: Store, days: int, now: Time, clock: Time) returns (k: nat)
    requires Valid(s, clock) && 1 <= days <= 365
    ensures k <= |s.entries| && Prune(s, days, now).0.entries == s.entries[k..]
    ensures forall e :: e in s.entries[..k] ==> e.received < now - days * DAY
  {
    hide Valid, Sorted, Purge, Expired, Slice;
    var cutoff := now - days * DAY;
    SortedByKey(s, clock);
    PurgeDropsAPrefix(s.entries, EntryKey, cutoff, BATCH);
    k := Min(BATCH, Expired(s.entries, EntryKey, cutoff));
    forall e | e in s.entries[..k] ensures e.received < cutoff {
      var j :| 0 <= j < k && s.entries[j] == e;
      ExpiredArePrefix(s.entries, EntryKey, cutoff, j);
    }
  }

  /** So it removes a prefix of every slice as well. */
  lemma PrunedSlices(s: Store, days: int, now: Time, clock: Time, device: nat, source: Source)
    requires Valid(s, clock) && 1 <= days <= 365
    ensures var v := Prune(s, days, now).0;
            var (before, after) := (Slice(s.entries, device, source), Slice(v.entries, device, source));
            && |after| <= |before| && after == before[|before| - |after|..]
            && forall i :: 0 <= i < |before| - |after| ==> before[i].received < now - days * DAY
  {
    hide Slice, Valid, Prune;
    var k := BatchIsAPrefix(s, days, now, clock);
    var gone, kept := s.entries[..k], s.entries[k..];
    assert s.entries == gone + kept;
    SliceConcat(gone, kept, device, source);
    LostAreExpired(gone, device, source, now - days * DAY);
    var lost := Slice(gone, device, source);
    assert forall i :: 0 <= i < |lost| ==> lost[i] in lost;
  }

  lemma SuffixKeepsNumbers(s: Store, v: Store, k: nat, clock: Time, now: Time)
    requires Numbers(s, clock) && clock <= now && k <= |s.entries|
    requires v.entries == s.entries[k..] && v.nextId == s.nextId
    ensures Numbers(v, now)
  {
  }

  lemma PruneKeepsValid(s: Store, days: int, now: Time, clock: Time)
    requires Valid(s, clock) && clock <= now
    ensures Valid(Prune(s, days, now).0, now)
  {
    hide Slice, Purge, Expired, Numbers, UniqueHashes, Chronological;
    var v := Prune(s, days, now).0;
    if 1 <= days <= 365 {
      var k := BatchIsAPrefix(s, days, now, clock);
      SuffixKeepsNumbers(s, v, k, clock, now);
      SubsetKeeps(s.entries, v.entries);
      forall device, source ensures |Slice(v.entries, device, source)| <= LIMIT {
        PrunedSlices(s, days, now, clock, device, source);
        assert |Slice(s.entries, device, source)| <= LIMIT;
      }
    } else {
      assert s.entries[0..] == s.entries;
      SuffixKeepsNumbers(s, v, 0, clock, now);
    }
  }

  // ----- runs -----

  datatype Step =
    | Accepting(device: nat, allowed: bool, upload: Upload, now: Time)
    | Pruning(days: int, now: Time)

  /** The store beside its unbounded specification: everything ever accepted, and the latest cutoff pruned to. */
  datatype Traced = Traced(store: Store, journal: seq<Entry>, horizon: Option<Time>)

  function Start(): Traced {
    Traced(Store([], 1, []), [], None)
  }

  function Apply(t: Traced, step: Step): Traced {
    match step
    case Accepting(device, allowed, upload, now) =>
      var (v, answer) := Accept(t.store, device, allowed, upload, now);
      t.(store := v, journal := t.journal + if answer.Ok? then Inserted(t.store, device, upload, now) else [])
    case Pruning(days, now) =>
      var (v, answer) := Prune(t.store, days, now);
      var cutoff := now - days * DAY;
      t.(store := v,
         horizon := if answer.Err? then t.horizon
                    else if t.horizon.Some? then Some(Max(t.horizon.value, cutoff)) else Some(cutoff))
  }

  function Run(t: Traced, run: seq<Step>): Traced
    decreases |run|
  {
    if run == [] then t else Run(Apply(t, run[0]), run[1..])
  }

  /** The clock readings of a run never go back. */
  predicate Clocked(clock: Time, run: seq<Step>)
    decreases |run|
  {
    run == [] || (clock <= run[0].now && Clocked(run[0].now, run[1..]))
  }

  function ClockAfter(clock: Time, run: seq<Step>): Time
    decreases |run|
  {
    if run == [] then clock else ClockAfter(run[0].now, run[1..])
  }

  /** `kept` is the newest 500 of `all`, less rows that pruning found to be older than `horizon`. */
  ghost predicate Refines(kept: seq<Entry>, all: seq<Entry>, horizon: Option<Time>) {
    && |kept| <= 500 && |kept| <= |all| && kept == all[|all| - |kept|..]
    && forall i :: 0 <= i < |all| - |kept| && |all| - 500 <= i ==> horizon.Some? && all[i].received < horizon.value
  }

  ghost predicate Refined(t: Traced) {
    forall device, source :: Refines(Slice(t.store.entries, device, source), Slice(t.journal, device, source), t.horizon)
  }

  lemma NothingRefined()
    ensures Refined(Start()) && forall clock :: Valid(Start().store, clock)
  {
    forall device, source
      ensures Refines(Slice(Start().store.entries, device, source), Slice(Start().journal, device, source), Start().horizon)
    {
      EmptyRefines(Start().store.entries, Start().journal, device, source);
    }
  }

  lemma EmptyRefines(entries: seq<Entry>, journal: seq<Entry>, device: nat, source: Source)
    requires entries == [] && journal == []
    ensures Refines(Slice(entries, device, source), Slice(journal, device, source), None)
  {
  }

  lemma SuffixOfSuffix(kept: seq<Entry>, after: seq<Entry>, all: seq<Entry>)
    requires |after| <= |kept| <= |all| && kept == all[|all| - |kept|..] && after == kept[|kept| - |after|..]
    ensures after == all[|all| - |after|..]
  {
    var base := |all| - |kept|;
    assert forall i :: 0 <= i < |after| ==> after[i] == kept[|kept| - |after| + i] == all[base + (|kept| - |after| + i)];
  }

  lemma SuffixAppend(kept: seq<Entry>, all: seq<Entry>, rows: seq<Entry>)
    requires |kept| <= |all| && kept == all[|all| - |kept|..]
    ensures kept + rows == (all + rows)[|all| - |kept|..]
  {
    var base, more := |all| - |kept|, all + rows;
    assert all == all[..base] + kept;
    assert more == all[..base] + (kept + rows);
  }

  lemma NewestIsSuffix(entries: seq<Entry>)
    ensures |Newest(entries)| == Min(|entries|, LIMIT)
    ensures Newest(entries) == entries[|entries| - |Newest(entries)|..]
  {
  }

  /** What is missing of the newest 500 was missing before. */
  lemma StillMissing(kept: seq<Entry>, all: seq<Entry>, horizon: Option<Time>, rows: seq<Entry>,
                     newest: seq<Entry>, more: seq<Entry>)
    requires Refines(kept, all, horizon) && more == all + rows && |newest| == Min(|kept| + |rows|, LIMIT)
    requires newest == more[|more| - |newest|..]
    ensures Refines(newest, more, horizon)
  {
    forall i | 0 <= i < |more| - |newest| && |more| - LIMIT <= i
      ensures horizon.Some? && more[i].received < horizon.value
    {
      assert |newest| == |kept| + |rows| && i < |all| - |kept|;
      var missing := all[i];
      assert more[i] == missing;
    }
  }

  lemma RefinesAppend(kept: seq<Entry>, all: seq<Entry>, horizon: Option<Time>, rows: seq<Entry>)
    requires Refines(kept, all, horizon)
    ensures Refines(Newest(kept + rows), all + rows, horizon)
  {
    NewestIsSuffix(kept + rows);
    SuffixAppend(kept, all, rows);
    SuffixOfSuffix(kept + rows, Newest(kept + rows), all + rows);
    StillMissing(kept, all, horizon, rows, Newest(kept + rows), all + rows);
  }

  lemma RefinesPruned(kept: seq<Entry>, after: seq<Entry>, all: seq<Entry>, horizon: Option<Time>, cutoff: Time)
    requires Refines(kept, all, horizon) && |after| <= |kept| && after == kept[|kept| - |after|..]
    requires forall i :: 0 <= i < |kept| - |after| ==> kept[i].received < cutoff
    ensures Refines(after, all, if horizon.Some? then Some(Max(horizon.value, cutoff)) else Some(cutoff))
  {
    var base, end := |all| - |kept|, |all| - |after|;
    var last := if horizon.Some? then Max(horizon.value, cutoff) else cutoff;
    forall i | 0 <= i < end && |all| - LIMIT <= i ensures all[i].received < last {
      if i >= base {
        assert all[i] == kept[i - base];
      }
    }
    SuffixOfSuffix(kept, after, all);
  }

  lemma AcceptKeepsRefined(t: Traced, device: nat, allowed: bool, upload: Upload, now: Time, clock: Time)
    requires Valid(t.store, clock) && clock <= now && Refined(t)
    ensures Refined(Apply(t, Accepting(device, allowed, upload, now)))
  {
    hide Accept, Slice, Refines, Valid;
    var after := Apply(t, Accepting(device, allowed, upload, now));
    if Accept(t.store, device, allowed, upload, now).1.Ok? {
      OkMeansAllowed(t.store, device, allowed, upload, now);
      var rows := Inserted(t.store, device, upload, now);
      var unseen := Unseen(Hashes(t.store.entries, device), upload.lines);
      forall other, source
        ensures Refines(Slice(after.store.entries, other, source), Slice(after.journal, other, source), after.horizon)
      {
        AcceptedSlices(t.store, device, upload, now, clock, other, source);
        SliceConcat(t.journal, rows, other, source);
        SliceOfNumbered(unseen, device, upload.source, now, t.store.nextId, other, source);
        var kept, all := Slice(t.store.entries, other, source), Slice(t.journal, other, source);
        assert kept + [] == kept && all + [] == all;
        if other == device && source == upload.source {
          RefinesAppend(kept, all, t.horizon, rows);
        }
      }
    } else {
      RefusedKeepsStore(t.store, device, allowed, upload, now);
      assert after.journal == t.journal;
    }
  }

  lemma OkMeansAllowed(s: Store, device: nat, allowed: bool, upload: Upload, now: Time)
    requires Accept(s, device, allowed, upload, now).1.Ok?
    ensures allowed
  {
  }

  lemma RefusedKeepsStore(s: Store, device: nat, allowed: bool, upload: Upload, now: Time)
    requires Accept(s, device, allowed, upload, now).1.Err?
    ensures Accept(s, device, allowed, upload, now).0 == s
  {
  }

  lemma PruneKeepsRefined(t: Traced, days: int, now: Time, clock: Time)
    requires Valid(t.store, clock) && clock <= now && Refined(t)
    ensures Refined(Apply(t, Pruning(days, now)))
  {
    hide Slice, Refines, Valid, Purge, Expired;
    var after := Apply(t, Pruning(days, now));
    if 1 <= days <= 365 {
      forall device, source
        ensures Refines(Slice(after.store.entries, device, source), Slice(after.journal, device, source), after.horizon)
      {
        PrunedSlices(t.store, days, now, clock, device, source);
        RefinesPruned(Slice(t.store.entries, device, source), Slice(after.store.entries, device, source),
                      Slice(t.journal, device, source), t.horizon, now - days * DAY);
      }
    }
  }

  lemma {:induction false} RunKeeps(t: Traced, run: seq<Step>, clock: Time)
    requires Valid(t.store, clock) && Refined(t) && Clocked(clock, run)
    ensures Refined(Run(t, run)) && Valid(Run(t, run).store, ClockAfter(clock, run))
    decreases |run|
  {
    hide Valid, Refined, Accept, Prune;
    if run != [] {
      var next := Apply(t, run[0]);
      match run[0] {
        case Accepting(device, allowed, upload, now) =>
          AcceptKeepsValid(t.store, device, allowed, upload, now, clock);
          AcceptKeepsRefined(t, device, allowed, upload, now, clock);
        case Pruning(days, now) =>
          PruneKeepsValid(t.store, days, now, clock);
          PruneKeepsRefined(t, days, now, clock);
      }
      RunKeeps(next, run[1..], run[0].now);
    }
  }

  lemma ValidIsUnique(s: Store, clock: Time)
    requires Valid(s, clock)
    ensures UniqueHashes(s.entries)
  {
  }

  /**
   * Refinement over every run from the empty store: each device and source holds a suffix of everything it ever
   * accepted, at most 500 rows long; of the newest 500 only rows older than the latest pruning cutoff are missing;
   * and no hash is stored twice for a device.
   */
  lemma StoreRefinesJournal(run: seq<Step>, clock: Time, device: nat, source: Source)
    requires Clocked(clock, run)
    ensures var t := Run(Start(), run);
            && Refines(Slice(t.store.entries, device, source), Slice(t.journal, device, source), t.horizon)
            && UniqueHashes(t.store.entries)
  {
    NothingRefined();
    hide Run, Refines;
    RunKeeps(Start(), run, clock);
    hide Valid;
    ValidIsUnique(Run(Start(), run).store, ClockAfter(clock, run));
  }

  lemma MissingWasPruned(kept: seq<Entry>, all: seq<Entry>, horizon: Option<Time>)
    requires Refines(kept, all, horizon) && |kept| < |all| && |kept| < LIMIT
    ensures horizon.Some?
  {
    var missing := all[|all| - |kept| - 1];
  }

  /** Without pruning the store is exactly the newest 500 of everything accepted. */
  lemma {:induction false} NewestOfEverything(run: seq<Step>, clock: Time, device: nat, source: Source)
    requires Clocked(clock, run) && forall step :: step in run ==> step.Accepting?
    ensures var t := Run(Start(), run);
            Slice(t.store.entries, device, source) == Newest(Slice(t.journal, device, source))
  {
    StoreRefinesJournal(run, clock, device, source);
    NoHorizon(Start(), run);
    hide Run, Slice;
    var t := Run(Start(), run);
    var kept, all := Slice(t.store.entries, device, source), Slice(t.journal, device, source);
    if |kept| < |all| && |kept| < LIMIT {
      MissingWasPruned(kept, all, t.horizon);
    }
  }

  lemma {:induction false} NoHorizon(t: Traced, run: seq<Step>)
    requires t.horizon.None? && forall step :: step in run ==> step.Accepting?
    ensures Run(t, run).horizon.None?
    decreases |run|
  {
    hide Accept, Prune;
    if run != [] {
      NoHorizon(Apply(t, run[0]), run[1..]);
    }
  }
}
