/** The log services as they run: uploads insert and delete rows, pruning deletes batches. */
module LogService {
  import opened Prelude
  import opened Retention
  import opened LogStore

  class LogDatabase {
    var entries: seq<Entry>
    var nextId: nat
    var sources: seq<SourceRow>

    constructor ()
      ensures Contents() == Store([], 1, [])
    {
      entries, nextId, sources := [], 1, [];
    }

    function Contents(): Store
      reads this
    {
      Store(entries, nextId, sources)
    }
  }

  // ----- the loop over an upload -----

  /** Only the stored hashes that occur in the upload matter. */
  lemma {:induction false} SameUnseen(some: set<nat>, more: set<nat>, lines: seq<Line>)
    requires forall line :: line in lines ==> (line.hash in some <==> line.hash in more)
    ensures Unseen(some, lines) == Unseen(more, lines)
    decreases |lines|
  {
    if lines != [] {
      assert lines[0] in lines;
      assert forall line :: line in lines[1..] ==> line in lines;
      if lines[0].hash in some {
        SameUnseen(some, more, lines[1..]);
      } else {
        SameUnseen(some + {lines[0].hash}, more + {lines[0].hash}, lines[1..]);
      }
    }
  }

  /** The hashes of an upload that are stored already. */
  function Existing(entries: seq<Entry>, device: nat, lines: seq<Line>): set<nat> {
    set e | e in entries && e.device == device && e.hash in HashesOf(lines) :: e.hash
  }

  lemma ExistingDecides(entries: seq<Entry>, device: nat, lines: seq<Line>)
    ensures Unseen(Existing(entries, device, lines), lines) == Unseen(Hashes(entries, device), lines)
  {
    SameUnseen(Existing(entries, device, lines), Hashes(entries, device), lines);
  }

  /** The scan of an upload: what has been picked so far, and what the rest of the lines will add. */
  ghost predicate Scanned(existing: set<nat>, lines: seq<Line>, i: nat, seen: set<nat>, picked: seq<Line>, now: Time) {
    && i <= |lines|
    && Unseen(existing, lines) == picked + Unseen(seen, lines[i..])
    && AllTimely(picked, now)
    && existing <= seen && |seen| == |existing| + |picked| && |picked| <= i
  }

  lemma ScanSkips(existing: set<nat>, lines: seq<Line>, i: nat, seen: set<nat>, picked: seq<Line>, now: Time)
    requires Scanned(existing, lines, i, seen, picked, now) && i < |lines| && lines[i].hash in seen
    ensures Scanned(existing, lines, i + 1, seen, picked, now)
  {
    assert lines[i..][1..] == lines[i + 1..];
  }

  lemma ScanPicks(existing: set<nat>, lines: seq<Line>, i: nat, seen: set<nat>, picked: seq<Line>, now: Time)
    requires Scanned(existing, lines, i, seen, picked, now) && i < |lines| && lines[i].hash !in seen
    ensures Timely(lines[i], now) ==>
              Scanned(existing, lines, i + 1, seen + {lines[i].hash}, picked + [lines[i]], now)
    ensures !Timely(lines[i], now) ==> !AllTimely(Unseen(existing, lines), now)
  {
    var rest := Unseen(seen + {lines[i].hash}, lines[i + 1..]);
    assert lines[i..][1..] == lines[i + 1..];
    assert Unseen(seen, lines[i..]) == [lines[i]] + rest;
    assert picked + ([lines[i]] + rest) == (picked + [lines[i]]) + rest;
    assert lines[i] in Unseen(existing, lines);
  }

  lemma ScanStarts(existing: set<nat>, lines: seq<Line>, now: Time)
    ensures Scanned(existing, lines, 0, existing, [], now)
  {
    assert lines[0..] == lines;
  }

  lemma ScanEnds(existing: set<nat>, lines: seq<Line>, seen: set<nat>, picked: seq<Line>, now: Time)
    requires Scanned(existing, lines, |lines|, seen, picked, now)
    ensures Unseen(existing, lines) == picked && AllTimely(picked, now)
    ensures |seen| == |existing| + |picked| && |picked| <= |lines|
  {
    assert Unseen(seen, lines[|lines|..]) == [];
  }

  lemma NumberedAppend(lines: seq<Line>, line: Line, device: nat, source: Source, now: Time, first: nat)
    ensures Numbered(lines + [line], device, source, now, first) ==
            Numbered(lines, device, source, now, first) + [NewEntry(line, device, source, now, first + |lines|)]
  {
    assert (lines + [line])[..|lines|] == lines;
  }

  // ----- the state of a source -----

  lemma {:induction false} TouchFound(sources: seq<SourceRow>, k: nat, device: nat, source: Source, status: string, now: Time)
    requires k < |sources| && sources[k].device == device && sources[k].source == source
    requires forall j :: 0 <= j < k ==> sources[j].device != device || sources[j].source != source
    ensures Touch(sources, device, source, status, now) == sources[k := SourceRow(device, source, status, now)]
    decreases k
  {
    if k > 0 {
      TouchFound(sources[1..], k - 1, device, source, status, now);
    }
  }

  lemma {:induction false} TouchMissing(sources: seq<SourceRow>, device: nat, source: Source, status: string, now: Time)
    requires forall j :: 0 <= j < |sources| ==> sources[j].device != device || sources[j].source != source
    ensures Touch(sources, device, source, status, now) == sources + [SourceRow(device, source, status, now)]
    decreases |sources|
  {
    if sources != [] {
      TouchMissing(sources[1..], device, source, status, now);
    }
  }

  class LogWatchService {
    const db: LogDatabase

    constructor (database: LogDatabase)
      ensures db == database
    {
      db := database;
    }

    /** Picks the new lines of an upload; `None` if one of them is too late or too early. */
    method Pick(existing: set<nat>, device: nat, upload: Upload, now: Time)
      returns (added: Option<seq<Entry>>, seen: set<nat>)
      ensures added.Some? <==> AllTimely(Unseen(existing, upload.lines), now)
      ensures added.Some? ==>
                && added.value == Numbered(Unseen(existing, upload.lines), device, upload.source, now, db.nextId)
                && |seen| == |existing| + |added.value|
                && |Unseen(existing, upload.lines)| == |added.value| <= |upload.lines|
    {
      hide AllTimely, Timely, Scanned, NewEntry;
      ScanStarts(existing, upload.lines, now);
      seen := existing;
      var rows: seq<Entry> := [];
      ghost var picked: seq<Line> := [];
      for i := 0 to |upload.lines|
        invariant Scanned(existing, upload.lines, i, seen, picked, now)
        invariant |rows| == |picked| && rows == Numbered(picked, device, upload.source, now, db.nextId)
      {
        var line := upload.lines[i];
        if line.hash in seen {
          ScanSkips(existing, upload.lines, i, seen, picked, now);
        } else {
          ScanPicks(existing, upload.lines, i, seen, picked, now);
          if !Timely(line, now) {
            return None, seen;
          }
          seen := seen + {line.hash};
          rows := rows + [NewEntry(line, device, upload.source, now, db.nextId + |rows|)];
          NumberedAppend(picked, line, device, upload.source, now, db.nextId);
          picked := picked + [line];
        }
      }
      ScanEnds(existing, upload.lines, seen, picked, now);
      added := Some(rows);
    }

    method SetStatus(device: nat, source: Source, status: string, now: Time)
      modifies db
      ensures db.sources == Touch(old(db.sources), device, source, status, now)
      ensures db.entries == old(db.entries) && db.nextId == old(db.nextId)
    {
      var k := 0;
      while k < |db.sources| && (db.sources[k].device != device || db.sources[k].source != source)
        invariant 0 <= k <= |db.sources| && db.sources == old(db.sources)
        invariant db.entries == old(db.entries) && db.nextId == old(db.nextId)
        invariant forall j :: 0 <= j < k ==> db.sources[j].device != device || db.sources[j].source != source
      {
        k := k + 1;
      }
      if k < |db.sources| {
        TouchFound(db.sources, k, device, source, status, now);
        db.sources := db.sources[k := SourceRow(device, source, status, now)];
      } else {
        TouchMissing(db.sources, device, source, status, now);
        db.sources := db.sources + [SourceRow(device, source, status, now)];
      }
    }

    /** Deletes what is older than the 500th newest row of a device and source. */
    method TrimSource(device: nat, source: Source)
      modifies db
      ensures db.entries == Trim(old(db.entries), device, source)
      ensures db.sources == old(db.sources) && db.nextId == old(db.nextId)
    {
      hide Slice, Drop;
      var slice := Slice(db.entries, device, source);
      if |slice| >= LIMIT {
        var cutoff := slice[|slice| - LIMIT].id;
        db.entries := Drop(db.entries, device, source, cutoff);
      }
    }

    method Accept(device: nat, allowed: bool, upload: Upload, now: Time) returns (answer: Result<Answer, Error>)
      modifies db
      ensures (db.Contents(), answer) == LogStore.Accept(old(db.Contents()), device, allowed, upload, now)
    {
      if !allowed {
        return Err(RateLimited);
      }
      hide Slice, Drop, Unseen, Numbered, Touch, HashesOf, Hashes, Existing, AllTimely, Trim;
      var existing := Existing(db.entries, device, upload.lines);
      ExistingDecides(db.entries, device, upload.lines);
      var added, seen := Pick(existing, device, upload, now);
      if added.None? {
        return Err(TimestampInvalid);
      }
      db.entries := db.entries + added.value;
      db.nextId := db.nextId + |added.value|;
      SetStatus(device, upload.source, upload.status, now);
      TrimSource(device, upload.source);
      var accepted := |seen| - |existing|;
      answer := Ok(Answer(accepted, |upload.lines| - accepted));
    }
  }

  class LogRetentionService {
    const db: LogDatabase

    constructor (database: LogDatabase)
      ensures db == database
    {
      db := database;
    }

    /** Deletes one batch of expired rows, oldest first. */
    method DeleteBatch<T>(rows: seq<T>, key: T -> Key, cutoff: Time) returns (kept: seq<T>, deleted: nat)
      ensures kept == Purge(rows, key, cutoff, BATCH) && deleted == Min(BATCH, Expired(rows, key, cutoff))
    {
      kept, deleted := rows, 0;
      EarliestIsExpired(kept, key, cutoff);
      while deleted < BATCH && Earliest(kept, key, cutoff).Some?
        invariant 0 <= deleted <= BATCH
        invariant Purge(rows, key, cutoff, BATCH) == Purge(kept, key, cutoff, BATCH - deleted)
        invariant Expired(rows, key, cutoff) == Expired(kept, key, cutoff) + deleted
        invariant Earliest(kept, key, cutoff).None? <==> Expired(kept, key, cutoff) == 0
      {
        var first := Earliest(kept, key, cutoff).value;
        EarliestIsExpired(kept, key, cutoff);
        WithoutExpired(kept, key, cutoff, first);
        kept := Without(kept, first);
        deleted := deleted + 1;
        EarliestIsExpired(kept, key, cutoff);
      }
    }

    method PruneExpired(days: int, now: Time) returns (answer: Result<(nat, nat), Error>)
      modifies db
      ensures (db.Contents(), answer) == Prune(old(db.Contents()), days, now)
    {
      if !(1 <= days <= 365) {
        return Err(RetentionInvalid);
      }
      var cutoff := now - days * DAY;
      var entries, fewerEntries := DeleteBatch(db.entries, EntryKey, cutoff);
      db.entries := entries;
      var sources, fewerSources := DeleteBatch(db.sources, SourceKey, cutoff);
      db.sources := sources;
      answer := Ok((fewerEntries, fewerSources));
    }
  }
}
