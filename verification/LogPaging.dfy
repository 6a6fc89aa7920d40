/** Reading the log page by page (server/app/logs/service.py, cursors and `recent`). */
module LogPaging {
  import opened Prelude
  import opened LogStore
  import opened KeysetPaging
  import R = LogRuns

  datatype Direction = NewestFirst | OldestFirst

  datatype Basis = Received | Occurred

  /** The parameters of a listing, with times parsed and the search text normalized. */
  datatype Query = Query(
    device: nat, source: Option<Source>, from: Option<Time>, until: Option<Time>,
    direction: Direction, search: Option<string>, basis: Basis)

  // ----- cursors -----

  datatype Field = Version | LastId | DeviceId | SourceName | From | Until | DirectionName | Search | TimeBasis | Unknown(string)

  /** A JSON value; moments, sources and the like are the strings that render them. */
  datatype Value =
    | Number(n: int) | Flag(b: bool) | Text(s: string) | Null | Fraction(r: real)
    | Moment(t: Time) | DeviceName(device: nat) | SourceText(source: Source)
    | DirectionText(direction: Direction) | BasisText(basis: Basis) | Compound(json: string)

  type Payload = map<Field, Value>

  const MAX_ID: nat := 0xFFFF_FFFF_FFFF_FFFF

  function VersionOf(q: Query): int {
    if q.basis == Occurred then 3 else if q.search.Some? then 2 else 1
  }

  function MomentOf(t: Option<Time>): Value {
    if t.Some? then Moment(t.value) else Null
  }

  function SourceOf(source: Option<Source>): Value {
    if source.Some? then SourceText(source.value) else Null
  }

  function Encode(id: nat, q: Query): Payload {
    var base: Payload :=
      map[Version := Number(VersionOf(q)), LastId := Number(id), DeviceId := DeviceName(q.device),
          SourceName := SourceOf(q.source), From := MomentOf(q.from), Until := MomentOf(q.until),
          DirectionName := DirectionText(q.direction)];
    var searched := if q.search.Some? then base[Search := Text(q.search.value)] else base;
    if q.basis == Occurred then searched[TimeBasis := BasisText(Occurred)] else searched
  }

  function Expected(q: Query): set<Field> {
    {Version, LastId, DeviceId, SourceName, From, Until, DirectionName}
    + (if q.search.Some? then {Search} else {}) + (if q.basis == Occurred then {TimeBasis} else {})
  }

  /** Comparing a JSON value with a number, where true and 1.0 equal 1. */
  predicate EqualsNumber(v: Value, n: int) {
    match v
    case Number(m) => m == n
    case Flag(b) => n == if b then 1 else 0
    case Fraction(r) => r == n as real
    case _ => false
  }

  function Decode(p: Payload, q: Query): Option<nat> {
    if && p.Keys == Expected(q)
       && EqualsNumber(p[Version], VersionOf(q))
       && p[LastId].Number? && 1 <= p[LastId].n <= MAX_ID
       && p[DeviceId] == DeviceName(q.device) && p[SourceName] == SourceOf(q.source)
       && p[From] == MomentOf(q.from) && p[Until] == MomentOf(q.until)
       && p[DirectionName] == DirectionText(q.direction)
       && (q.search.Some? ==> p[Search] == Text(q.search.value))
       && (q.basis == Occurred ==> p[TimeBasis] == BasisText(Occurred))
    then Some(p[LastId].n)
    else None
  }

  lemma EncodedKeys(id: nat, q: Query)
    ensures Encode(id, q).Keys == Expected(q)
  {
  }

  lemma SameFields(a: Query, b: Query)
    requires Expected(a) == Expected(b)
    ensures a.search.Some? == b.search.Some? && a.basis == b.basis
  {
    assert (Search in Expected(a)) == (Search in Expected(b));
    assert (TimeBasis in Expected(a)) == (TimeBasis in Expected(b));
  }

  /** A cursor decodes under exactly the parameters it was encoded with, and then to the id it was encoded from. */
  lemma CursorFitsOnlyItsQuery(id: nat, made: Query, used: Query)
    ensures Decode(Encode(id, made), used) == if made == used && 1 <= id <= MAX_ID then Some(id) else None
  {
    EncodedKeys(id, made);
    if Expected(made) == Expected(used) {
      SameFields(made, used);
    }
  }

  // ----- one page -----

  predicate Within(from: Option<Time>, until: Option<Time>, t: Time) {
    (from.Some? ==> from.value <= t) && (until.Some? ==> t <= until.value)
  }

  /** The rows a listing selects; `like` is the database's substring comparison of the search text. */
  predicate Matches(e: Entry, q: Query, like: (string, string) -> bool) {
    && e.device == q.device
    && (q.source.Some? ==> e.source == q.source.value)
    && (if q.basis == Occurred then e.occurred.Some? && Within(q.from, q.until, e.occurred.value)
        else Within(q.from, q.until, e.received))
    && (q.search.Some? ==> like(e.message, q.search.value))
  }

  function RankOf(id: int, direction: Direction): Rank {
    Rank(if direction == NewestFirst then -id else id, 0, 0)
  }

  function LogListing(q: Query, like: (string, string) -> bool): Listing<Entry> {
    Listing((e: Entry) => RankOf(e.id, q.direction), (e: Entry) => Matches(e, q, like))
  }

  datatype Listed = Listed(items: seq<Entry>, next: Option<Payload>)

  datatype QueryError = InvalidLimit | ReversedWindow | InvalidCursor

  function Recent(s: Store, q: Query, limit: int, cursor: Option<Payload>, like: (string, string) -> bool)
    : Result<Listed, QueryError>
  {
    if !(1 <= limit <= 100) then Err(InvalidLimit)
    else if q.from.Some? && q.until.Some? && q.from.value > q.until.value then Err(ReversedWindow)
    else if cursor.Some? && Decode(cursor.value, q).None? then Err(InvalidCursor)
    else
      var after := if cursor.Some? then Some(RankOf(Decode(cursor.value, q).value, q.direction)) else None;
      var (items, next) := Page(s.entries, LogListing(q, like), after, limit);
      Ok(Listed(items, if next.Some? && items != [] then Some(Encode(items[|items| - 1].id, q)) else None))
  }

  // ----- following the cursors -----

  /** A reader follows the cursors it is given, one page from each store in turn. */
  function Browse(stores: seq<Store>, q: Query, limit: int, cursor: Option<Payload>, like: (string, string) -> bool)
    : Result<(seq<Entry>, bool), QueryError>
    decreases |stores|
  {
    if stores == [] then Ok(([], false))
    else
      match Recent(stores[0], q, limit, cursor, like)
      case Err(error) => Err(error)
      case Ok(answer) =>
        if answer.next.None? then Ok((answer.items, true))
        else
          match Browse(stores[1..], q, limit, answer.next, like)
          case Err(error) => Err(error)
          case Ok((rest, done)) => Ok((answer.items + rest, done))
  }

  function EntriesOf(stores: seq<Store>): seq<seq<Entry>> {
    if stores == [] then [] else [stores[0].entries] + EntriesOf(stores[1..])
  }

  ghost predicate Identified(s: Store) {
    Ascending(s.entries) && forall e :: e in s.entries ==> 1 <= e.id <= MAX_ID
  }

  predicate ValidQuery(q: Query, limit: int) {
    1 <= limit <= 100 && !(q.from.Some? && q.until.Some? && q.from.value > q.until.value)
  }

  /** No cursor the service hands out is ever refused: following them is the walk over the keys. */
  lemma {:induction false} BrowseIsWalk(
    stores: seq<Store>, q: Query, limit: int, cursor: Option<Payload>, after: Option<Rank>, like: (string, string) -> bool)
    requires ValidQuery(q, limit) && forall i :: 0 <= i < |stores| ==> Identified(stores[i])
    requires if cursor.None? then after.None?
             else Decode(cursor.value, q).Some? && after == Some(RankOf(Decode(cursor.value, q).value, q.direction))
    ensures Browse(stores, q, limit, cursor, like) == Ok(Walk(EntriesOf(stores), LogListing(q, like), after, limit))
    decreases |stores|
  {
    hide Page, Decode, Encode, Matches, InOrder;
    if stores != [] {
      var l := LogListing(q, like);
      PageInOrder(stores[0].entries, l, after, limit);
      var (items, next) := Page(stores[0].entries, l, after, limit);
      if next.Some? {
        var last := items[limit - 1];
        assert Identified(stores[0]) && last in stores[0].entries;
        CursorFitsOnlyItsQuery(last.id, q, q);
        BrowseIsWalk(stores[1..], q, limit, Some(Encode(last.id, q)), next, like);
      }
    }
  }

  // ----- walks while uploads and pruning go on -----

  /** What happens to the table between two pages: rows go, and only rows with larger ids come. */
  ghost predicate Follows(s: Store, v: Store) {
    && s.nextId <= v.nextId
    && forall e :: e in v.entries ==> e in s.entries || e.id >= s.nextId
  }

  lemma AcceptFollows(s: Store, device: nat, allowed: bool, upload: Upload, now: Time, clock: Time)
    requires R.Valid(s, clock) && clock <= now
    ensures Follows(s, Accept(s, device, allowed, upload, now).0)
  {
    var (v, answer) := Accept(s, device, allowed, upload, now);
    if answer.Ok? {
      var rows := R.Inserted(s, device, upload, now);
      R.InsertKeepsNumbers(s, device, upload, now, clock);
      R.InsertedRows(s, device, upload, now);
      TrimKeepsNewest(s.entries + rows, device, upload.source, device, upload.source);
      hide Trim, Unseen, Numbered, Slice, R.Valid, R.Inserted, Ascending, Hashes;
    }
  }

  lemma PruneFollows(s: Store, days: int, now: Time, clock: Time)
    requires R.Valid(s, clock)
    ensures Follows(s, Prune(s, days, now).0)
  {
    if 1 <= days <= 365 {
      var k := R.BatchIsAPrefix(s, days, now, clock);
    }
  }

  lemma {:induction false} RunFollows(t: R.Traced, run: seq<R.Step>, clock: Time)
    requires R.Valid(t.store, clock) && R.Clocked(clock, run)
    ensures Follows(t.store, R.Run(t, run).store)
    decreases |run|
  {
    hide R.Valid, Accept, Prune;
    if run != [] {
      var next := R.Apply(t, run[0]);
      match run[0] {
        case Accepting(device, allowed, upload, now) =>
          AcceptFollows(t.store, device, allowed, upload, now, clock);
          R.AcceptKeepsValid(t.store, device, allowed, upload, now, clock);
        case Pruning(days, now) =>
          PruneFollows(t.store, days, now, clock);
          R.PruneKeepsValid(t.store, days, now, clock);
      }
      RunFollows(next, run[1..], run[0].now);
    }
  }

  /** The stores a reader meets whose pages are separated by the given runs. */
  function Met(t: R.Traced, runs: seq<seq<R.Step>>): seq<Store>
    decreases |runs|
  {
    if runs == [] then []
    else
      var next := R.Run(t, runs[0]);
      [next.store] + Met(next, runs[1..])
  }

  predicate AllClocked(clock: Time, runs: seq<seq<R.Step>>)
    decreases |runs|
  {
    runs == [] || (R.Clocked(clock, runs[0]) && AllClocked(R.ClockAfter(clock, runs[0]), runs[1..]))
  }

  ghost predicate Sound(s: Store) {
    && Ascending(s.entries) && 1 <= s.nextId
    && forall e :: e in s.entries ==> 1 <= e.id < s.nextId
  }

  lemma FollowsOn(s: Store, v: Store, w: Store)
    requires Follows(s, v) && Follows(v, w)
    ensures Follows(s, w)
  {
  }

  lemma ValidIsSound(s: Store, clock: Time)
    requires R.Valid(s, clock)
    ensures Sound(s)
  {
  }

  /** Every store met is sound, and follows whatever came before. */
  lemma {:induction false} MetStores(base: Store, t: R.Traced, runs: seq<seq<R.Step>>, clock: Time)
    requires R.Valid(t.store, clock) && R.Refined(t) && AllClocked(clock, runs) && Follows(base, t.store)
    ensures |Met(t, runs)| == |runs|
    ensures forall i :: 0 <= i < |runs| ==> Sound(Met(t, runs)[i]) && Follows(base, Met(t, runs)[i])
    decreases |runs|
  {
    hide R.Valid, R.Refined, Follows, Sound, R.Run;
    if runs != [] {
      var next := R.Run(t, runs[0]);
      RunFollows(t, runs[0], clock);
      R.RunKeeps(t, runs[0], clock);
      FollowsOn(base, t.store, next.store);
      ValidIsSound(next.store, R.ClockAfter(clock, runs[0]));
      MetStores(base, next, runs[1..], R.ClockAfter(clock, runs[0]));
    }
  }

  lemma {:induction false} EntriesAt(stores: seq<Store>)
    ensures |EntriesOf(stores)| == |stores|
    ensures forall i :: 0 <= i < |stores| ==> EntriesOf(stores)[i] == stores[i].entries
  {
    if stores != [] {
      EntriesAt(stores[1..]);
    }
  }

  lemma NewIdsComeFirst(s: Store, v: Store, q: Query, like: (string, string) -> bool)
    requires Sound(s) && Follows(s, v) && q.direction == NewestFirst
    ensures NewRowsComeFirst(s.entries, v.entries, LogListing(q, like))
  {
    hide Matches, Ascending;
  }

  lemma SoundRanks(s: Store, q: Query, like: (string, string) -> bool)
    requires Sound(s)
    ensures DistinctRanks(s.entries, LogListing(q, like))
  {
    hide Matches;
  }

  /** The ids of a listing go strictly down or strictly up. */
  predicate InDirection(items: seq<Entry>, direction: Direction) {
    forall i, j :: 0 <= i < j < |items| ==>
      if direction == NewestFirst then items[i].id > items[j].id else items[i].id < items[j].id
  }

  lemma InOrderIsInDirection(items: seq<Entry>, q: Query, like: (string, string) -> bool)
    requires InOrder(items, LogListing(q, like), None)
    ensures InDirection(items, q.direction) && forall e :: e in items ==> Matches(e, q, like)
  {
    hide Matches;
    var l := LogListing(q, like);
    forall i, j | 0 <= i < j < |items|
      ensures if q.direction == NewestFirst then items[i].id > items[j].id else items[i].id < items[j].id
    {
      assert Before(l.rank(items[i]), l.rank(items[j]));
    }
  }

  predicate Once(items: seq<Entry>, e: Entry) {
    exists k :: 0 <= k < |items| && items[k] == e && forall j :: 0 <= j < |items| && items[j] == e ==> j == k
  }

  /**
   * Following cursors while anything may be uploaded, trimmed and pruned between the pages: no cursor is refused,
   * ids go strictly in the chosen direction, every row returned matches, and when the walk ends every matching row
   * that was there throughout has been returned exactly once. From the newest down, only rows of the first page's
   * table are ever returned, and the walk ends as soon as its pages could have held that table.
   */
  lemma BrowsingIsConsistent(
    before: seq<R.Step>, runs: seq<seq<R.Step>>, clock: Time, q: Query, limit: int, like: (string, string) -> bool)
    requires ValidQuery(q, limit) && runs != []
    requires R.Clocked(clock, before) && AllClocked(R.ClockAfter(clock, before), runs)
    requires var stores := Met(R.Run(R.Start(), before), runs);
             forall i :: 0 <= i < |stores| ==> stores[i].nextId <= MAX_ID + 1
    ensures var stores := Met(R.Run(R.Start(), before), runs);
            var walk := Browse(stores, q, limit, None, like);
            && walk.Ok?
            && InDirection(walk.value.0, q.direction)
            && (forall e :: e in walk.value.0 ==> Matches(e, q, like))
            && (walk.value.1 ==> forall e :: (forall s :: s in stores ==> e in s.entries) && Matches(e, q, like) ==>
                  Once(walk.value.0, e))
            && (q.direction == NewestFirst && stores != [] ==>
                  && (forall e :: e in walk.value.0 ==> e in stores[0].entries)
                  && (limit * |stores| > |stores[0].entries| ==> walk.value.1))
  {
    hide R.Run, R.Valid, R.Refined, Matches, InOrder, Follows, Page, Walk, InDirection;
    var t := R.Run(R.Start(), before);
    R.RunKeeps(R.Start(), before, clock) by {
      StartIsValid(clock);
    }
    var stores := Met(t, runs);
    FollowsItself(t.store);
    MetStores(t.store, t, runs, R.ClockAfter(clock, before));
    BrowseIsWalk(stores, q, limit, None, None, like);
    WalkInDetail(stores, q, limit, like);
    if q.direction == NewestFirst {
      var first := R.Run(t, runs[0]);
      R.RunKeeps(t, runs[0], R.ClockAfter(clock, before));
      FollowsItself(first.store);
      MetStores(first.store, first, runs[1..], R.ClockAfter(R.ClockAfter(clock, before), runs[0]));
      assert stores == [first.store] + Met(first, runs[1..]);
      NewestFirstInDetail(stores, q, limit, like);
    }
  }

  lemma StartIsValid(clock: Time)
    ensures R.Valid(R.Start().store, clock) && R.Refined(R.Start())
  {
  }

  lemma FollowsItself(s: Store)
    ensures Follows(s, s)
  {
  }

  lemma WalkInDetail(stores: seq<Store>, q: Query, limit: int, like: (string, string) -> bool)
    requires 1 <= limit && forall i :: 0 <= i < |stores| ==> Sound(stores[i])
    ensures var (items, done) := Walk(EntriesOf(stores), LogListing(q, like), None, limit);
            && InDirection(items, q.direction) && (forall e :: e in items ==> Matches(e, q, like))
            && (done ==> forall e :: (forall s :: s in stores ==> e in s.entries) && Matches(e, q, like) ==> Once(items, e))
  {
    hide Walk, Matches, Sound, InDirection, EntriesOf;
    var l := LogListing(q, like);
    var (items, done) := Walk(EntriesOf(stores), l, None, limit);
    EntriesAt(stores);
    WalkIsInOrder(EntriesOf(stores), l, None, limit);
    InOrderIsInDirection(items, q, like);
    if done {
      forall i | 0 <= i < |stores| ensures DistinctRanks(stores[i].entries, l) {
        SoundRanks(stores[i], q, like);
      }
      hide DistinctRanks;
      forall e | (forall s :: s in stores ==> e in s.entries) && Matches(e, q, like) ensures Once(items, e) {
        WalkIsComplete(EntriesOf(stores), l, None, limit, e);
      }
    }
  }

  lemma NewestFirstInDetail(stores: seq<Store>, q: Query, limit: int, like: (string, string) -> bool)
    requires 1 <= limit && stores != [] && q.direction == NewestFirst && Sound(stores[0])
    requires forall i :: 0 <= i < |stores| ==> Follows(stores[0], stores[i])
    ensures var (items, done) := Walk(EntriesOf(stores), LogListing(q, like), None, limit);
            && (forall e :: e in items ==> e in stores[0].entries)
            && (limit * |stores| > |stores[0].entries| ==> done)
  {
    hide Walk, Matches, Sound, Follows, NewRowsComeFirst;
    EntriesAt(stores);
    var snapshots := EntriesOf(stores);
    forall i | 0 <= i < |stores| ensures NewRowsComeFirst(snapshots[0], snapshots[i], LogListing(q, like)) {
      NewIdsComeFirst(stores[0], stores[i], q, like);
    }
    NewestFirstWalksEnd(snapshots, LogListing(q, like), limit);
  }
}
