/** How far repeated pruning gets: with one clock reading, and in a run where the clock advances and uploads arrive. */
module LogPruning {
  import opened Prelude
  import opened Retention
  import opened LogStore
  import opened LogRuns

  // ----- one clock reading -----

  function PruneTimes(s: Store, days: int, now: Time, batches: nat): Store
    decreases batches
  {
    if batches == 0 then s else PruneTimes(Prune(s, days, now).0, days, now, batches - 1)
  }

  lemma {:induction false} PruneTimesIsRepeated(s: Store, days: int, now: Time, batches: nat)
    requires 1 <= days <= 365
    ensures var v := PruneTimes(s, days, now, batches);
            && v.entries == Repeated(s.entries, EntryKey, now - days * DAY, BATCH, batches)
            && v.sources == Repeated(s.sources, SourceKey, now - days * DAY, BATCH, batches)
    decreases batches
  {
    hide Purge;
    if batches != 0 {
      PruneTimesIsRepeated(Prune(s, days, now).0, days, now, batches - 1);
    }
  }

  /**
   * Repeated batches reach the table of exactly the rows that have not expired, and they do so as soon as there
   * have been enough of them: in any store, for entries and for sources alike.
   */
  lemma RepeatedPruningDeletesExactlyTheExpired(s: Store, days: int, now: Time, batches: nat)
    requires 1 <= days <= 365
    ensures var cutoff := now - days * DAY;
            var v := PruneTimes(s, days, now, batches);
            && (v.entries == Current(s.entries, EntryKey, cutoff) <==> Expired(s.entries, EntryKey, cutoff) <= 500 * batches)
            && (v.sources == Current(s.sources, SourceKey, cutoff) <==> Expired(s.sources, SourceKey, cutoff) <= 500 * batches)
  {
    hide PruneTimes, Repeated, Current, Expired, Purge;
    PruneTimesIsRepeated(s, days, now, batches);
    RepeatedPurgesReachCurrent(s.entries, EntryKey, now - days * DAY, BATCH, batches);
    RepeatedPurgesReachCurrent(s.sources, SourceKey, now - days * DAY, BATCH, batches);
  }

  // ----- an advancing clock, and uploads between the batches -----

  lemma {:induction false} DropOnlyDeletes(
    entries: seq<Entry>, device: nat, source: Source, from: nat, cutoff: Time)
    ensures Expired(Drop(entries, device, source, from), EntryKey, cutoff) <= Expired(entries, EntryKey, cutoff)
  {
    if entries != [] {
      var front, last := entries[..|entries| - 1], entries[|entries| - 1];
      DropOnlyDeletes(front, device, source, from, cutoff);
      var kept := Drop(front, device, source, from);
      assert (kept + [last])[..|kept|] == kept;
    }
  }

  lemma {:induction false} TouchAddsNothingExpired(
    sources: seq<SourceRow>, device: nat, source: Source, status: string, now: Time, cutoff: Time)
    requires cutoff <= now
    ensures Expired(Touch(sources, device, source, status, now), SourceKey, cutoff) <= Expired(sources, SourceKey, cutoff)
    decreases |sources|
  {
    var row := SourceRow(device, source, status, now);
    if sources == [] {
      assert [row][..0] == [];
    } else {
      var head, tail := sources[..1], sources[1..];
      assert sources == head + tail;
      ExpiredConcat(head, tail, SourceKey, cutoff);
      if sources[0].device == device && sources[0].source == source {
        ExpiredConcat([row], tail, SourceKey, cutoff);
      } else {
        TouchAddsNothingExpired(tail, device, source, status, now, cutoff);
        ExpiredConcat(head, Touch(tail, device, source, status, now), SourceKey, cutoff);
        assert head == [sources[0]];
      }
    }
  }

  lemma TrimOnlyDeletes(entries: seq<Entry>, device: nat, source: Source, cutoff: Time)
    ensures Expired(Trim(entries, device, source), EntryKey, cutoff) <= Expired(entries, EntryKey, cutoff)
  {
    hide Expired, Slice, Drop, EntryKey;
    var slice := Slice(entries, device, source);
    if |slice| >= LIMIT {
      DropOnlyDeletes(entries, device, source, slice[|slice| - LIMIT].id, cutoff);
    }
  }

  lemma InsertedAreCurrent(s: Store, device: nat, upload: Upload, now: Time, cutoff: Time)
    requires cutoff <= now
    ensures Expired(s.entries + Inserted(s, device, upload, now), EntryKey, cutoff) == Expired(s.entries, EntryKey, cutoff)
  {
    hide Expired, Inserted;
    var rows := Inserted(s, device, upload, now);
    InsertedRows(s, device, upload, now);
    assert forall j :: 0 <= j < |rows| ==> EntryKey(rows[j]).at >= cutoff;
    ExpiredZero(rows, EntryKey, cutoff);
    ExpiredConcat(s.entries, rows, EntryKey, cutoff);
  }

  /** An upload stores nothing that is older than its own clock reading. */
  lemma AcceptAddsNothingExpired(s: Store, device: nat, allowed: bool, upload: Upload, now: Time, cutoff: Time)
    requires cutoff <= now
    ensures var v := Accept(s, device, allowed, upload, now).0;
            && Expired(v.entries, EntryKey, cutoff) <= Expired(s.entries, EntryKey, cutoff)
            && Expired(v.sources, SourceKey, cutoff) <= Expired(s.sources, SourceKey, cutoff)
  {
    hide Expired, Trim, Unseen, Numbered, Touch, Hashes, AllTimely, EntryKey, SourceKey;
    InsertedAreCurrent(s, device, upload, now, cutoff);
    TrimOnlyDeletes(s.entries + Inserted(s, device, upload, now), device, upload.source, cutoff);
    TouchAddsNothingExpired(s.sources, device, upload.source, upload.status, now, cutoff);
  }

  /** A batch that deletes at least what is older than `cutoff`. */
  predicate Reaches(step: Step, cutoff: Time) {
    step.Pruning? && 1 <= step.days <= 365 && cutoff <= step.now - step.days * DAY
  }

  function Batches(run: seq<Step>, cutoff: Time): nat
    decreases |run|
  {
    if run == [] then 0 else (if Reaches(run[0], cutoff) then 1 else 0) + Batches(run[1..], cutoff)
  }

  lemma PruneOnlyDeletes(s: Store, days: int, now: Time, cutoff: Time)
    ensures var v := Prune(s, days, now).0;
            && Expired(v.entries, EntryKey, cutoff) <= Expired(s.entries, EntryKey, cutoff)
            && Expired(v.sources, SourceKey, cutoff) <= Expired(s.sources, SourceKey, cutoff)
  {
    hide Expired, Purge, EntryKey, SourceKey;
    PurgeOnlyDeletes(s.entries, EntryKey, cutoff, now - days * DAY, BATCH);
    PurgeOnlyDeletes(s.sources, SourceKey, cutoff, now - days * DAY, BATCH);
  }

  lemma PruneDeletesOldestFirst(s: Store, days: int, now: Time, cutoff: Time)
    requires Reaches(Pruning(days, now), cutoff)
    ensures var v := Prune(s, days, now).0;
            && Expired(v.entries, EntryKey, cutoff) == Max(0, Expired(s.entries, EntryKey, cutoff) - 500)
            && Expired(v.sources, SourceKey, cutoff) == Max(0, Expired(s.sources, SourceKey, cutoff) - 500)
  {
    hide Expired, Purge, EntryKey, SourceKey;
    PurgeDeletesOldestFirst(s.entries, EntryKey, cutoff, now - days * DAY, BATCH);
    PurgeDeletesOldestFirst(s.sources, SourceKey, cutoff, now - days * DAY, BATCH);
  }

  /**
   * In any run, whatever is uploaded between the batches and however the clock and the retention period change: every
   * batch whose own cutoff is not before `cutoff` deletes 500 of the rows that are older than `cutoff`, until none is
   * left, and none comes back.
   */
  lemma {:induction false} PruningKeepsUp(t: Traced, run: seq<Step>, clock: Time, cutoff: Time)
    requires Clocked(clock, run) && cutoff <= clock
    ensures var (s, v) := (t.store, Run(t, run).store);
            && Expired(v.entries, EntryKey, cutoff) <= Max(0, Expired(s.entries, EntryKey, cutoff) - 500 * Batches(run, cutoff))
            && Expired(v.sources, SourceKey, cutoff) <= Max(0, Expired(s.sources, SourceKey, cutoff) - 500 * Batches(run, cutoff))
    decreases |run|
  {
    hide Expired, Accept, Prune, Inserted;
    if run != [] {
      match run[0] {
        case Accepting(device, allowed, upload, now) =>
          AcceptAddsNothingExpired(t.store, device, allowed, upload, now, cutoff);
        case Pruning(days, now) =>
          PruneOnlyDeletes(t.store, days, now, cutoff);
          if Reaches(run[0], cutoff) {
            PruneDeletesOldestFirst(t.store, days, now, cutoff);
          }
      }
      PruningKeepsUp(Apply(t, run[0]), run[1..], run[0].now, cutoff);
    }
  }

  lemma NoneExpired(entries: seq<Entry>, cutoff: Time)
    requires Expired(entries, EntryKey, cutoff) == 0
    ensures forall e :: e in entries ==> e.received >= cutoff
  {
    ExpiredZero(entries, EntryKey, cutoff);
    hide Expired;
    forall e | e in entries ensures e.received >= cutoff {
      var j :| 0 <= j < |entries| && entries[j] == e;
      assert EntryKey(entries[j]).at >= cutoff;
    }
  }

  /** Enough such batches leave no row that is older than `cutoff`, in any run. */
  lemma NothingOutlivesItsRetention(t: Traced, run: seq<Step>, clock: Time, cutoff: Time)
    requires Clocked(clock, run) && cutoff <= clock
    requires Expired(t.store.entries, EntryKey, cutoff) <= 500 * Batches(run, cutoff)
    ensures forall e :: e in Run(t, run).store.entries ==> e.received >= cutoff
  {
    hide Run, Batches, Expired, Clocked;
    PruningKeepsUp(t, run, clock, cutoff);
    NoneExpired(Run(t, run).store.entries, cutoff);
  }
}
