/** What an upload stores, what pruning answers, which rows a page of the log holds, and which cursors are taken. */
module LogAnswers {
  import opened Prelude
  import opened Retention
  import opened LogStore
  import opened LogRuns
  import opened LogPaging
  import History
  import K = KeysetPaging

  // ----- uploads -----

  ghost predicate Ascends(places: seq<nat>) {
    forall i, j :: 0 <= i < j < |places| ==> places[i] < places[j]
  }

  /** `places` are those of the lines whose hash is neither in `seen` nor on an earlier line. */
  ghost predicate PlacesOfNew(seen: set<nat>, lines: seq<Line>, places: seq<nat>) {
    && Ascends(places)
    && (forall i :: i in places <==> 0 <= i < |lines| && IsNew(seen, lines, i))
  }

  lemma {:induction false} UnseenPlaces(seen: set<nat>, lines: seq<Line>) returns (places: seq<nat>)
    ensures PlacesOfNew(seen, lines, places) && |places| == |Unseen(seen, lines)|
    ensures forall k :: 0 <= k < |places| ==> places[k] < |lines| && Unseen(seen, lines)[k] == lines[places[k]]
    decreases |lines|
  {
    if lines == [] {
      places := [];
    } else {
      var after := seen + {lines[0].hash};
      var rest := UnseenPlaces(after, lines[1..]);
      NewInRest(seen, lines);
      var shifted := seq(|rest|, k requires 0 <= k < |rest| => rest[k] + 1);
      assert lines[0].hash in seen ==> after == seen;
      places := (if lines[0].hash in seen then [] else [0]) + shifted;
      hide Unseen;
      PlacesShift(seen, lines, rest, shifted);
      UnseenHead(seen, lines);
    }
  }

  lemma UnseenHead(seen: set<nat>, lines: seq<Line>)
    requires lines != []
    ensures Unseen(seen, lines) ==
            (if lines[0].hash in seen then [] else [lines[0]]) + Unseen(seen + {lines[0].hash}, lines[1..])
  {
    assert lines[0].hash in seen ==> seen + {lines[0].hash} == seen;
  }

  lemma PlacesShift(seen: set<nat>, lines: seq<Line>, rest: seq<nat>, shifted: seq<nat>)
    requires lines != [] && PlacesOfNew(seen + {lines[0].hash}, lines[1..], rest)
    requires |shifted| == |rest| && forall k :: 0 <= k < |rest| ==> shifted[k] == rest[k] + 1
    ensures PlacesOfNew(seen, lines, (if lines[0].hash in seen then [] else [0]) + shifted)
  {
    var places := (if lines[0].hash in seen then [] else [0]) + shifted;
    NewInRest(seen, lines);
    forall i ensures i in places <==> 0 <= i < |lines| && IsNew(seen, lines, i) {
      ShiftedMember(rest, shifted, i);
      if i > 0 {
        assert i - 1 in rest <==> 0 <= i - 1 < |lines[1..]| && IsNew(seen + {lines[0].hash}, lines[1..], i - 1);
      }
    }
  }

  lemma ShiftedMember(rest: seq<nat>, shifted: seq<nat>, i: int)
    requires |shifted| == |rest| && forall k :: 0 <= k < |rest| ==> shifted[k] == rest[k] + 1
    ensures i in shifted <==> i - 1 in rest
  {
    if i - 1 in rest {
      var k :| 0 <= k < |rest| && rest[k] == i - 1;
      assert shifted[k] == i;
    }
  }

  /** An accepted upload inserts exactly its new lines, in their order and under the next ids, each with its own columns
      and the time of the upload. */
  lemma NewLinesAreInserted(s: Store, device: nat, upload: Upload, now: Time) returns (places: seq<nat>)
    ensures PlacesOfNew(Hashes(s.entries, device), upload.lines, places)
    ensures var rows := Inserted(s, device, upload, now);
            && |rows| == |places|
            && forall k :: 0 <= k < |places| ==>
                 && places[k] < |upload.lines|
                 && var line := upload.lines[places[k]];
                    rows[k] == Entry(s.nextId + k, device, upload.source, line.hash, line.occurred, now, line.severity,
                                     line.message)
  {
    var unseen := Unseen(Hashes(s.entries, device), upload.lines);
    places := UnseenPlaces(Hashes(s.entries, device), upload.lines);
    NumberedRows(unseen, device, upload.source, now, s.nextId);
    hide Unseen, Numbered, Hashes, IsNew;
  }

  /** The row of a source, if there is one. */
  function Lookup(sources: seq<SourceRow>, device: nat, source: Source): Option<SourceRow> {
    if sources == [] then None
    else if sources[0].device == device && sources[0].source == source then Some(sources[0])
    else Lookup(sources[1..], device, source)
  }

  lemma {:induction false} TouchedRow(
    sources: seq<SourceRow>, device: nat, source: Source, status: string, now: Time, other: nat, otherSource: Source)
    ensures Lookup(Touch(sources, device, source, status, now), other, otherSource) ==
            if other == device && otherSource == source then Some(SourceRow(device, source, status, now))
            else Lookup(sources, other, otherSource)
    decreases |sources|
  {
    if sources != [] {
      TouchedRow(sources[1..], device, source, status, now, other, otherSource);
    }
  }

  /** An accepted upload notes the status of its source at its own time and no other source's; a refused one none. */
  lemma UploadNotesItsSource(
    s: Store, device: nat, allowed: bool, upload: Upload, now: Time, other: nat, otherSource: Source)
    ensures var (v, answer) := Accept(s, device, allowed, upload, now);
            Lookup(v.sources, other, otherSource) ==
            if answer.Ok? && other == device && otherSource == upload.source
            then Some(SourceRow(device, upload.source, upload.status, now)) else Lookup(s.sources, other, otherSource)
  {
    TouchedRow(s.sources, device, upload.source, upload.status, now, other, otherSource);
    hide Touch, Trim, Unseen, Numbered, Hashes;
  }

  // ----- pruning -----

  lemma NoEntryExpired(entries: seq<Entry>, cutoff: Time)
    requires Expired(entries, EntryKey, cutoff) == 0
    ensures forall e :: e in entries ==> e.received >= cutoff
  {
    ExpiredZero(entries, EntryKey, cutoff);
    hide Expired;
    forall e | e in entries ensures e.received >= cutoff {
      var j :| 0 <= j < |entries| && entries[j] == e;
      assert EntryKey(entries[j]).at >= cutoff;
    }
  }

  lemma NoSourceExpired(sources: seq<SourceRow>, cutoff: Time)
    requires Expired(sources, SourceKey, cutoff) == 0
    ensures forall row :: row in sources ==> row.checked >= cutoff
  {
    ExpiredZero(sources, SourceKey, cutoff);
    hide Expired;
    forall row | row in sources ensures row.checked >= cutoff {
      var j :| 0 <= j < |sources| && sources[j] == row;
      assert SourceKey(sources[j]).at >= cutoff;
    }
  }

  /** Pruning is refused iff the retention is not 1 to 365 days, and answers how many rows of each table it deleted: at
      most 500, and fewer only if none is left that is too old. */
  lemma PruneAnswers(s: Store, days: int, now: Time)
    ensures var (v, answer) := Prune(s, days, now);
            && (answer.Err? <==> days < 1 || days > 365)
            && (answer.Err? ==> v == s)
            && (answer.Ok? ==>
                  && answer.value == (|s.entries| - |v.entries|, |s.sources| - |v.sources|)
                  && 0 <= answer.value.0 <= 500 && 0 <= answer.value.1 <= 500
                  && (answer.value.0 < 500 ==> forall e :: e in v.entries ==> e.received >= now - days * 86_400_000_000)
                  && (answer.value.1 < 500 ==> forall row :: row in v.sources ==> row.checked >= now - days * 86_400_000_000)
                  && v.nextId == s.nextId)
  {
    hide Purge, Expired, EntryKey, SourceKey;
    if 1 <= days <= 365 {
      var cutoff := now - days * DAY;
      assert cutoff == now - days * 86_400_000_000;
      var v := Prune(s, days, now).0;
      PurgeDeletesOnlyExpired(s.entries, EntryKey, cutoff, BATCH);
      PurgeDeletesOnlyExpired(s.sources, SourceKey, cutoff, BATCH);
      if Expired(v.entries, EntryKey, cutoff) == 0 {
        NoEntryExpired(v.entries, cutoff);
      }
      if Expired(v.sources, SourceKey, cutoff) == 0 {
        NoSourceExpired(v.sources, cutoff);
      }
    }
  }

  function NameOf(source: Source): string {
    match source
    case SkybeatAgent => "skybeat_agent"
    case SystemJournal => "system_journal"
    case Kernel => "kernel"
  }

  /** Checked earlier, or at the same time and of a device with a lower id, or of a source earlier in the alphabet. */
  predicate OlderSource(a: SourceRow, b: SourceRow) {
    if a.checked != b.checked then a.checked < b.checked
    else if a.device != b.device then a.device < b.device
    else History.Before(NameOf(a.source), NameOf(b.source))
  }

  /** Received earlier, or at the same time and stored before. */
  predicate OlderEntry(a: Entry, b: Entry) {
    if a.received != b.received then a.received < b.received else a.id < b.id
  }

  lemma NamesInOrder(a: Source, b: Source)
    ensures History.Before(NameOf(a), NameOf(b)) <==> Rank(a) < Rank(b)
  {
    var (k, s, j) := ("kernel", "skybeat_agent", "system_journal");
    assert k[0] == 'k' && s[0] == 's' && j[0] == 's' && s[1..][0] == 'k' && j[1..][0] == 'y';
    History.BeforeIsTotal(NameOf(a), NameOf(b));
    assert History.Before(k, s) && History.Before(k, j);
    assert History.Before(s[1..], j[1..]) && History.Before(s, j);
    History.BeforeIsTotal(k, s);
    History.BeforeIsTotal(k, j);
    History.BeforeIsTotal(s, j);
  }

  lemma EntryOrder(a: Entry, b: Entry)
    ensures Precedes(EntryKey(a), EntryKey(b)) <==> OlderEntry(a, b)
  {
  }

  lemma SourceOrder(a: SourceRow, b: SourceRow)
    ensures Precedes(SourceKey(a), SourceKey(b)) <==> OlderSource(a, b)
  {
    NamesInOrder(a.source, b.source);
    hide History.Before, NameOf, Rank;
  }

  /** A batch deletes the oldest entries: whatever it deletes is too old, and nothing too old that it leaves is older. */
  lemma OldestEntriesGoFirst(s: Store, days: int, now: Time, gone: Entry)
    requires 1 <= days <= 365 && gone in s.entries && gone !in Prune(s, days, now).0.entries
    ensures var (v, cutoff) := (Prune(s, days, now).0, now - days * 86_400_000_000);
            && gone.received < cutoff
            && forall e :: e in v.entries && e.received < cutoff ==> !OlderEntry(e, gone)
  {
    hide Purge, Precedes, OlderEntry;
    var cutoff := now - days * DAY;
    PurgeTakesTheFirst(s.entries, EntryKey, cutoff, BATCH);
    forall e | e in Prune(s, days, now).0.entries && e.received < cutoff ensures !OlderEntry(e, gone) {
      EntryOrder(e, gone);
    }
  }

  /** And the sources that were checked first, by device and name among those checked at one time. */
  lemma OldestSourcesGoFirst(s: Store, days: int, now: Time, gone: SourceRow)
    requires 1 <= days <= 365 && gone in s.sources && gone !in Prune(s, days, now).0.sources
    ensures var (v, cutoff) := (Prune(s, days, now).0, now - days * 86_400_000_000);
            && gone.checked < cutoff
            && forall row :: row in v.sources && row.checked < cutoff ==> !OlderSource(row, gone)
  {
    hide Purge, Precedes, OlderSource;
    var cutoff := now - days * DAY;
    PurgeTakesTheFirst(s.sources, SourceKey, cutoff, BATCH);
    forall row | row in Prune(s, days, now).0.sources && row.checked < cutoff ensures !OlderSource(row, gone) {
      SourceOrder(row, gone);
    }
  }

  // ----- cursors -----

  /** The version of a cursor: 3 by time of occurrence, else 2 with a search, else 1; as a JSON number, or true for 1. */
  predicate Versioned(v: Value, q: Query) {
    var n := if q.basis == Occurred then 3 else if q.search != None then 2 else 1;
    v == Number(n) || v == Fraction(n as real) || (v == Flag(true) && n == 1)
  }

  /** The fields a cursor for row `id` has: those of every query, and the text and the time basis where they matter. */
  ghost predicate PointsTo(p: Payload, q: Query, id: int) {
    && (forall f :: f in p <==>
          || f in {Version, LastId, DeviceId, SourceName, From, Until, DirectionName}
          || (f == Search && q.search != None)
          || (f == TimeBasis && q.basis == Occurred))
    && p[LastId] == Number(id) && p[DeviceId] == DeviceName(q.device)
    && p[SourceName] == (if q.source == None then Null else SourceText(q.source.value))
    && p[From] == (if q.from == None then Null else Moment(q.from.value))
    && p[Until] == (if q.until == None then Null else Moment(q.until.value))
    && p[DirectionName] == DirectionText(q.direction)
    && (q.search != None ==> p[Search] == Text(q.search.value))
    && (q.basis == Occurred ==> p[TimeBasis] == BasisText(Occurred))
  }

  lemma FieldsExpected(p: Payload, q: Query)
    ensures p.Keys == Expected(q) <==>
            forall f :: f in p <==>
              || f in {Version, LastId, DeviceId, SourceName, From, Until, DirectionName}
              || (f == Search && q.search != None)
              || (f == TimeBasis && q.basis == Occurred)
  {
    if forall f :: f in p <==> f in Expected(q) {
      assert p.Keys == Expected(q);
    }
  }

  lemma VersionsEqual(v: Value, q: Query)
    ensures EqualsNumber(v, VersionOf(q)) <==> Versioned(v, q)
  {
  }

  /** A cursor is taken iff it points to a valid row id under exactly this query; and so does the one that a page of this
      query hands out. */
  lemma CursorTakenIff(p: Payload, q: Query, id: nat)
    ensures Decode(p, q) == Some(id) <==>
            PointsTo(p, q, id) && Versioned(p[Version], q) && 1 <= id <= 0xFFFF_FFFF_FFFF_FFFF
    ensures PointsTo(Encode(id, q), q, id) && Versioned(Encode(id, q)[Version], q)
  {
    CursorDecodes(p, q, id);
    CursorEncodes(q, id);
    hide Decode, Encode, Versioned;
  }

  lemma CursorDecodes(p: Payload, q: Query, id: nat)
    ensures Decode(p, q) == Some(id) <==>
            PointsTo(p, q, id) && Versioned(p[Version], q) && 1 <= id <= 0xFFFF_FFFF_FFFF_FFFF
  {
    FieldsExpected(p, q);
    if Version in p {
      VersionsEqual(p[Version], q);
    }
    hide Expected, Versioned, EqualsNumber, VersionOf;
  }

  lemma CursorEncodes(q: Query, id: nat)
    ensures PointsTo(Encode(id, q), q, id) && Versioned(Encode(id, q)[Version], q)
  {
    EncodedKeys(id, q);
    FieldsExpected(Encode(id, q), q);
    assert EqualsNumber(Encode(id, q)[Version], VersionOf(q));
    VersionsEqual(Encode(id, q)[Version], q);
    hide Expected, Versioned, VersionOf, EqualsNumber;
  }

  // ----- one page -----

  /** What a query asks for: the device, the source if one is named, the time of receipt or of occurrence within the
      window, both ends included, and the text. */
  predicate Asked(e: Entry, q: Query, like: (string, string) -> bool) {
    var time := if q.basis == Received then Some(e.received) else e.occurred;
    && e.device == q.device
    && (q.source == None || q.source == Some(e.source))
    && (q.basis == Occurred ==> e.occurred != None)
    && (q.from != None && time != None ==> time.value >= q.from.value)
    && (q.until != None && time != None ==> time.value <= q.until.value)
    && (q.search == None || like(e.message, q.search.value))
  }

  /** Row `e` lies beyond row id `last` in the direction of reading. */
  predicate Past(last: Option<nat>, id: nat, direction: Direction) {
    last == None || if direction == NewestFirst then id < last.value else id > last.value
  }

  lemma AskedIsEligible(e: Entry, q: Query, last: Option<nat>, like: (string, string) -> bool)
    ensures K.Eligible(LogListing(q, like), if last.Some? then Some(RankOf(last.value, q.direction)) else None, e) <==>
            Asked(e, q, like) && Past(last, e.id, q.direction)
  {
  }

  lemma RanksDiffer(entries: seq<Entry>, q: Query, like: (string, string) -> bool)
    requires Ascending(entries)
    ensures K.DistinctRanks(entries, LogListing(q, like))
  {
  }

  /**
   * The three reasons for which a page is refused, in their order, and otherwise its rows: strictly in the direction of
   * reading, at most as many as asked for, each asked for and beyond the cursor; every other such row comes after a
   * full page, and only then is there a next cursor, that of the last row.
   */
  lemma PageAnswers(s: Store, q: Query, limit: int, cursor: Option<Payload>, like: (string, string) -> bool)
    requires Ascending(s.entries)
    ensures var answer := Recent(s, q, limit, cursor, like);
            var inRange := 1 <= limit <= 100;
            var ordered := q.from == None || q.until == None || q.from.value <= q.until.value;
            var last := if cursor.Some? then Decode(cursor.value, q) else None;
            && (answer == Err(InvalidLimit) <==> !inRange)
            && (answer == Err(ReversedWindow) <==> inRange && !ordered)
            && (answer == Err(InvalidCursor) <==> inRange && ordered && cursor.Some? && last == None)
            && (answer.Ok? ==>
                  && inRange && ordered && (cursor.Some? ==> last.Some?)
                  && var items := answer.value.items;
                     && |items| <= limit
                     && (forall i :: 0 <= i < |items| ==>
                           items[i] in s.entries && Asked(items[i], q, like) && Past(last, items[i].id, q.direction))
                     && (forall i, j :: 0 <= i < j < |items| ==> Past(Some(items[i].id), items[j].id, q.direction))
                     && (forall e :: e in s.entries && Asked(e, q, like) && Past(last, e.id, q.direction) && e !in items ==>
                           |items| == limit && Past(Some(items[limit - 1].id), e.id, q.direction) && answer.value.next.Some?)
                     && (answer.value.next.Some? ==> |items| == limit && answer.value.next.value == Encode(items[limit - 1].id, q)))
  {
    hide K.Page, Decode, Encode, Asked;
    if 1 <= limit <= 100 && Recent(s, q, limit, cursor, like).Ok? {
      var last := if cursor.Some? then Decode(cursor.value, q) else None;
      PageRows(s, q, limit, last, like);
    }
  }

  lemma PageRows(s: Store, q: Query, limit: nat, last: Option<nat>, like: (string, string) -> bool)
    requires 1 <= limit && Ascending(s.entries)
    ensures var after := if last.Some? then Some(RankOf(last.value, q.direction)) else None;
            var (items, next) := K.Page(s.entries, LogListing(q, like), after, limit);
            && |items| <= limit
            && (forall i :: 0 <= i < |items| ==>
                  items[i] in s.entries && Asked(items[i], q, like) && Past(last, items[i].id, q.direction))
            && (forall i, j :: 0 <= i < j < |items| ==> Past(Some(items[i].id), items[j].id, q.direction))
            && (forall e :: e in s.entries && Asked(e, q, like) && Past(last, e.id, q.direction) && e !in items ==>
                  next.Some? && Past(Some(items[limit - 1].id), e.id, q.direction))
            && (next.Some? ==> |items| == limit)
  {
    var after := if last.Some? then Some(RankOf(last.value, q.direction)) else None;
    var l := LogListing(q, like);
    var (items, next) := K.Page(s.entries, l, after, limit);
    K.PageInOrder(s.entries, l, after, limit);
    RanksDiffer(s.entries, q, like);
    forall i | 0 <= i < |items|
      ensures items[i] in s.entries && Asked(items[i], q, like) && Past(last, items[i].id, q.direction)
    {
      AskedIsEligible(items[i], q, last, like);
    }
    forall e | e in s.entries && Asked(e, q, like) && Past(last, e.id, q.direction) && e !in items
      ensures next.Some? && Past(Some(items[limit - 1].id), e.id, q.direction)
    {
      AskedIsEligible(e, q, last, like);
      K.PageIsComplete(s.entries, l, after, limit, e);
    }
  }
}
