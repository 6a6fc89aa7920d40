/** The bounded log store (server/app/logs/service.py): deduplicated, newest 500 per device and source, pruned by age. */
module LogStore {
  import opened Prelude
  import opened Retention

  datatype Source = SkybeatAgent | SystemJournal | Kernel

  datatype Line = Line(hash: nat, occurred: Option<Time>, severity: Option<string>, message: string)

  datatype Upload = Upload(source: Source, status: string, lines: seq<Line>)

  datatype Entry = Entry(
    id: nat, device: nat, source: Source, hash: nat,
    occurred: Option<Time>, received: Time, severity: Option<string>, message: string)

  datatype SourceRow = SourceRow(device: nat, source: Source, status: string, checked: Time)

  datatype Store = Store(entries: seq<Entry>, nextId: nat, sources: seq<SourceRow>)

  datatype Answer = Answer(accepted: nat, duplicates: nat)

  datatype Error = RateLimited | TimestampInvalid | RetentionInvalid

  const LIMIT: nat := 500
  const BATCH: nat := 500
  const LATE: Time := DAY
  const EARLY: Time := 300 * SECOND

  // ----- rows of one device and source -----

  function Slice(entries: seq<Entry>, device: nat, source: Source): seq<Entry> {
    if entries == [] then []
    else
      var front := Slice(entries[..|entries| - 1], device, source);
      var last := entries[|entries| - 1];
      if last.device == device && last.source == source then front + [last] else front
  }

  /** The last `LIMIT` of a sequence. */
  function Newest<T>(s: seq<T>): seq<T> {
    if |s| <= LIMIT then s else s[|s| - LIMIT..]
  }

  /** Removes the rows of one device and source whose id is below `cutoff`. */
  function Drop(entries: seq<Entry>, device: nat, source: Source, cutoff: nat): seq<Entry> {
    if entries == [] then []
    else
      var front := Drop(entries[..|entries| - 1], device, source, cutoff);
      var last := entries[|entries| - 1];
      if last.device == device && last.source == source && last.id < cutoff then front else front + [last]
  }

  /** Removes what is older than the 500th newest row of one device and source. */
  function Trim(entries: seq<Entry>, device: nat, source: Source): seq<Entry> {
    var slice := Slice(entries, device, source);
    if |slice| < LIMIT then entries else Drop(entries, device, source, slice[|slice| - LIMIT].id)
  }

  // ----- accept -----

  function Hashes(entries: seq<Entry>, device: nat): set<nat> {
    set e | e in entries && e.device == device :: e.hash
  }

  /** The lines whose hash has not been seen before, in order. */
  function Unseen(seen: set<nat>, lines: seq<Line>): seq<Line>
    decreases |lines|
  {
    if lines == [] then []
    else if lines[0].hash in seen then Unseen(seen, lines[1..])
    else [lines[0]] + Unseen(seen + {lines[0].hash}, lines[1..])
  }

  predicate Timely(line: Line, now: Time) {
    line.occurred.Some? ==> now - LATE <= line.occurred.value <= now + EARLY
  }

  predicate AllTimely(lines: seq<Line>, now: Time) {
    forall line :: line in lines ==> Timely(line, now)
  }

  function NewEntry(line: Line, device: nat, source: Source, now: Time, id: nat): Entry {
    Entry(id, device, source, line.hash, line.occurred, now, line.severity, line.message)
  }

  function Numbered(lines: seq<Line>, device: nat, source: Source, now: Time, first: nat): seq<Entry> {
    if lines == [] then []
    else
      var n := |lines| - 1;
      Numbered(lines[..n], device, source, now, first) + [NewEntry(lines[n], device, source, now, first + n)]
  }

  function Touch(sources: seq<SourceRow>, device: nat, source: Source, status: string, now: Time): seq<SourceRow> {
    if sources == [] then [SourceRow(device, source, status, now)]
    else if sources[0].device == device && sources[0].source == source then
      [SourceRow(device, source, status, now)] + sources[1..]
    else [sources[0]] + Touch(sources[1..], device, source, status, now)
  }

  function Accept(s: Store, device: nat, allowed: bool, upload: Upload, now: Time): (Store, Result<Answer, Error>) {
    var unseen := Unseen(Hashes(s.entries, device), upload.lines);
    if !allowed then (s, Err(RateLimited))
    else if !AllTimely(unseen, now) then (s, Err(TimestampInvalid))
    else
      (Store(Trim(s.entries + Numbered(unseen, device, upload.source, now, s.nextId), device, upload.source),
             s.nextId + |unseen|, Touch(s.sources, device, upload.source, upload.status, now)),
       Ok(Answer(|unseen|, Max(0, |upload.lines| - |unseen|))))
  }

  // ----- retention -----

  function EntryKey(e: Entry): Key {
    Key(e.received, e.id, 0)
  }

  /** Sources in the alphabetical order of their names. */
  function Rank(source: Source): nat {
    match source
    case Kernel => 0
    case SkybeatAgent => 1
    case SystemJournal => 2
  }

  function SourceKey(row: SourceRow): Key {
    Key(row.checked, row.device, Rank(row.source))
  }

  function Prune(s: Store, days: int, now: Time): (Store, Result<(nat, nat), Error>) {
    if !(1 <= days <= 365) then (s, Err(RetentionInvalid))
    else
      var cutoff := now - days * DAY;
      (Store(Purge(s.entries, EntryKey, cutoff, BATCH), s.nextId, Purge(s.sources, SourceKey, cutoff, BATCH)),
       Ok((Min(BATCH, Expired(s.entries, EntryKey, cutoff)), Min(BATCH, Expired(s.sources, SourceKey, cutoff)))))
  }

  // ----- slices -----

  lemma {:induction false} SliceConcat(a: seq<Entry>, b: seq<Entry>, device: nat, source: Source)
    ensures Slice(a + b, device, source) == Slice(a, device, source) + Slice(b, device, source)
    decreases |b|
  {
    if b == [] {
      assert a + b == a;
    } else {
      var front := b[..|b| - 1];
      SliceConcat(a, front, device, source);
      assert (a + b)[..|a + b| - 1] == a + front;
    }
  }

  lemma {:induction false} SliceMembers(entries: seq<Entry>, device: nat, source: Source, e: Entry)
    ensures e in Slice(entries, device, source) <==> e in entries && e.device == device && e.source == source
  {
    if entries != [] {
      var front, last := entries[..|entries| - 1], entries[|entries| - 1];
      SliceMembers(front, device, source, e);
      assert entries == front + [last];
    }
  }

  ghost predicate Ascending(entries: seq<Entry>) {
    forall i, j :: 0 <= i < j < |entries| ==> entries[i].id < entries[j].id
  }

  lemma AscendingAppend(front: seq<Entry>, last: Entry)
    requires Ascending(front) && forall e :: e in front ==> e.id < last.id
    ensures Ascending(front + [last])
  {
    assert forall i :: 0 <= i < |front| ==> front[i] in front;
  }

  lemma AscendingSplit(entries: seq<Entry>)
    requires Ascending(entries) && entries != []
    ensures Ascending(entries[..|entries| - 1])
    ensures forall e :: e in entries[..|entries| - 1] ==> e.id < entries[|entries| - 1].id
  {
  }

  lemma {:induction false} SliceAscending(entries: seq<Entry>, device: nat, source: Source)
    requires Ascending(entries)
    ensures Ascending(Slice(entries, device, source))
  {
    if entries != [] {
      var front, last := entries[..|entries| - 1], entries[|entries| - 1];
      AscendingSplit(entries);
      SliceAscending(front, device, source);
      var slice := Slice(front, device, source);
      forall e | e in slice ensures e.id < last.id {
        SliceMembers(front, device, source, e);
      }
      AscendingAppend(slice, last);
    }
  }

  lemma {:induction false} DropMembers(entries: seq<Entry>, device: nat, source: Source, cutoff: nat, e: Entry)
    ensures e in Drop(entries, device, source, cutoff) <==>
            e in entries && !(e.device == device && e.source == source && e.id < cutoff)
  {
    if entries != [] {
      var front, last := entries[..|entries| - 1], entries[|entries| - 1];
      DropMembers(front, device, source, cutoff, e);
      assert entries == front + [last];
    }
  }

  lemma {:induction false} DropAscending(entries: seq<Entry>, device: nat, source: Source, cutoff: nat)
    requires Ascending(entries)
    ensures Ascending(Drop(entries, device, source, cutoff))
  {
    if entries != [] {
      var front, last := entries[..|entries| - 1], entries[|entries| - 1];
      AscendingSplit(entries);
      DropAscending(front, device, source, cutoff);
      var dropped := Drop(front, device, source, cutoff);
      forall e | e in dropped ensures e.id < last.id {
        DropMembers(front, device, source, cutoff, e);
      }
      AscendingAppend(dropped, last);
    }
  }

  /** Dropping rows of one device and source drops exactly a prefix of its slice. */
  lemma {:induction false} DropIsSuffix(entries: seq<Entry>, device: nat, source: Source, k: nat)
    requires Ascending(entries) && k < |Slice(entries, device, source)|
    ensures Slice(Drop(entries, device, source, Slice(entries, device, source)[k].id), device, source)
            == Slice(entries, device, source)[k..]
  {
    var front, last := entries[..|entries| - 1], entries[|entries| - 1];
    var slice := Slice(entries, device, source);
    var cutoff := slice[k].id;
    var before := Slice(front, device, source);
    AscendingSplit(entries);
    SliceAscending(entries, device, source);
    if last.device == device && last.source == source {
      if k == |slice| - 1 {
        forall e | e in front && e.device == device && e.source == source ensures e.id < cutoff {}
        DropAll(front, device, source, cutoff);
      } else {
        DropIsSuffix(front, device, source, k);
        assert slice[k..] == before[k..] + [last];
      }
      assert k == |slice| - 1 || slice[k].id < slice[|slice| - 1].id;
      SliceAppend(Drop(front, device, source, cutoff), last, device, source);
    } else {
      DropIsSuffix(front, device, source, k);
      SliceAppend(Drop(front, device, source, cutoff), last, device, source);
    }
  }

  lemma SliceAppend(front: seq<Entry>, last: Entry, device: nat, source: Source)
    ensures Slice(front + [last], device, source) ==
            Slice(front, device, source) + if last.device == device && last.source == source then [last] else []
  {
    assert (front + [last])[..|front|] == front;
  }

  lemma {:induction false} DropAll(entries: seq<Entry>, device: nat, source: Source, cutoff: nat)
    requires forall e :: e in entries && e.device == device && e.source == source ==> e.id < cutoff
    ensures Slice(Drop(entries, device, source, cutoff), device, source) == []
  {
    if entries != [] {
      var front, last := entries[..|entries| - 1], entries[|entries| - 1];
      assert forall e :: e in front ==> e in entries;
      assert last in entries;
      DropAll(front, device, source, cutoff);
      SliceAppend(Drop(front, device, source, cutoff), last, device, source);
    }
  }

  lemma {:induction false} DropKeepsOthers(
    entries: seq<Entry>, device: nat, source: Source, cutoff: nat, other: nat, otherSource: Source)
    requires other != device || otherSource != source
    ensures Slice(Drop(entries, device, source, cutoff), other, otherSource) == Slice(entries, other, otherSource)
  {
    if entries != [] {
      var front, last := entries[..|entries| - 1], entries[|entries| - 1];
      DropKeepsOthers(front, device, source, cutoff, other, otherSource);
      SliceAppend(Drop(front, device, source, cutoff), last, other, otherSource);
    }
  }

  /** Trimming leaves the newest 500 rows of its device and source, and every other row. */
  lemma TrimKeepsNewest(entries: seq<Entry>, device: nat, source: Source, other: nat, otherSource: Source)
    requires Ascending(entries)
    ensures Ascending(Trim(entries, device, source))
    ensures var slice := Slice(entries, other, otherSource);
            Slice(Trim(entries, device, source), other, otherSource) ==
            if other == device && otherSource == source then Newest(slice) else slice
    ensures forall e :: e in Trim(entries, device, source) ==> e in entries
  {
    hide Ascending, Slice, Drop;
    var slice := Slice(entries, device, source);
    if |slice| >= LIMIT {
      var cutoff := slice[|slice| - LIMIT].id;
      DropAscending(entries, device, source, cutoff);
      if other == device && otherSource == source {
        DropIsSuffix(entries, device, source, |slice| - LIMIT);
      } else {
        DropKeepsOthers(entries, device, source, cutoff, other, otherSource);
      }
      forall e | e in Drop(entries, device, source, cutoff) ensures e in entries {
        DropMembers(entries, device, source, cutoff, e);
      }
    }
  }

  // ----- unseen lines -----

  function HashesOf(lines: seq<Line>): set<nat> {
    set line | line in lines :: line.hash
  }

  ghost predicate DistinctHashes(lines: seq<Line>) {
    forall i, j :: 0 <= i < j < |lines| ==> lines[i].hash != lines[j].hash
  }

  lemma {:induction false} UnseenMembers(seen: set<nat>, lines: seq<Line>, hash: nat)
    ensures hash in HashesOf(Unseen(seen, lines)) <==> hash in HashesOf(lines) && hash !in seen
    decreases |lines|
  {
    if lines != [] {
      var line, rest := lines[0], lines[1..];
      HashesOfSplit(lines);
      if line.hash in seen {
        UnseenMembers(seen, rest, hash);
      } else {
        UnseenMembers(seen + {line.hash}, rest, hash);
        HashesOfSplit(Unseen(seen, lines));
      }
    }
  }

  lemma HashesOfSplit(lines: seq<Line>)
    requires lines != []
    ensures HashesOf(lines) == {lines[0].hash} + HashesOf(lines[1..])
  {
    assert lines == [lines[0]] + lines[1..];
  }

  lemma PrependDistinct(line: Line, tail: seq<Line>)
    requires DistinctHashes(tail) && line.hash !in HashesOf(tail) && |tail| == |HashesOf(tail)|
    ensures DistinctHashes([line] + tail) && |[line] + tail| == |HashesOf([line] + tail)|
  {
    var all := [line] + tail;
    HashesOfSplit(all);
    assert all[1..] == tail;
    NotAmong(line.hash, tail);
    hide HashesOf;
    forall i, j | 0 <= i < j < |all| ensures all[i].hash != all[j].hash {
      assert all[j] == tail[j - 1];
    }
  }

  lemma NotAmong(hash: nat, lines: seq<Line>)
    requires hash !in HashesOf(lines)
    ensures forall j :: 0 <= j < |lines| ==> lines[j].hash != hash
  {
    forall j | 0 <= j < |lines| ensures lines[j].hash != hash {
      assert lines[j] in lines;
    }
  }

  lemma {:induction false} UnseenCount(seen: set<nat>, lines: seq<Line>)
    ensures DistinctHashes(Unseen(seen, lines))
    ensures |Unseen(seen, lines)| == |HashesOf(Unseen(seen, lines))| <= |lines|
    decreases |lines|
  {
    hide HashesOf, DistinctHashes;
    if lines == [] {
      NoHashes();
    } else {
      var line, rest := lines[0], lines[1..];
      if line.hash in seen {
        UnseenCount(seen, rest);
      } else {
        var tail := Unseen(seen + {line.hash}, rest);
        UnseenCount(seen + {line.hash}, rest);
        UnseenMembers(seen + {line.hash}, rest, line.hash);
        PrependDistinct(line, tail);
      }
    }
  }

  lemma NoHashes()
    ensures HashesOf([]) == {} && DistinctHashes([])
  {
  }

  /** Exactly the hashes not seen before, each once. */
  lemma UnseenLines(seen: set<nat>, lines: seq<Line>)
    ensures HashesOf(Unseen(seen, lines)) == HashesOf(lines) - seen && DistinctHashes(Unseen(seen, lines))
    ensures |Unseen(seen, lines)| == |HashesOf(lines) - seen| <= |lines|
  {
    forall hash ensures hash in HashesOf(Unseen(seen, lines)) <==> hash in HashesOf(lines) - seen {
      UnseenMembers(seen, lines, hash);
    }
    UnseenCount(seen, lines);
    assert HashesOf(Unseen(seen, lines)) == HashesOf(lines) - seen;
  }

  lemma {:induction false} NumberedRows(lines: seq<Line>, device: nat, source: Source, now: Time, first: nat)
    ensures var rows := Numbered(lines, device, source, now, first);
            && |rows| == |lines|
            && forall i :: 0 <= i < |rows| ==> rows[i] == NewEntry(lines[i], device, source, now, first + i)
  {
    if lines != [] {
      var n := |lines| - 1;
      NumberedRows(lines[..n], device, source, now, first);
    }
  }

  lemma {:induction false} SliceOfNumbered(
    lines: seq<Line>, device: nat, source: Source, now: Time, first: nat, other: nat, otherSource: Source)
    ensures Slice(Numbered(lines, device, source, now, first), other, otherSource) ==
            if other == device && otherSource == source then Numbered(lines, device, source, now, first) else []
  {
    if lines != [] {
      var n := |lines| - 1;
      SliceOfNumbered(lines[..n], device, source, now, first, other, otherSource);
      SliceAppend(Numbered(lines[..n], device, source, now, first), NewEntry(lines[n], device, source, now, first + n),
                  other, otherSource);
    }
  }
}
