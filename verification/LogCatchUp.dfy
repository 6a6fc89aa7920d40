/** When reading the log from the oldest row up comes to an end (server/app/logs/service.py, `recent`). */
module LogCatchUp {
  import opened Prelude
  import opened LogStore
  import opened KeysetPaging
  import opened LogPaging
  import R = LogRuns

  // ----- an unfinished reader is behind -----

  function CursorOf(id: nat): Option<Rank> {
    if id == 0 then None else Some(RankOf(id, OldestFirst))
  }

  /** Ids that only go up, from beyond `id`, are at least as far as they are many. */
  lemma {:induction false} FetchedIds(rows: seq<Entry>, q: Query, id: nat, k: nat, like: (string, string) -> bool)
    requires q.direction == OldestFirst && InOrder(rows, LogListing(q, like), CursorOf(id)) && k < |rows|
    requires id == 0 ==> rows[0].id >= 1
    ensures rows[k].id > id + k
  {
    hide Matches;
    var l := LogListing(q, like);
    assert Eligible(l, CursorOf(id), rows[0]);
    if k > 0 {
      FetchedIds(rows, q, id, k - 1, like);
      assert Before(l.rank(rows[k - 1]), l.rank(rows[k]));
    }
  }

  /** A reader that still has a next page after these has had a full page of each, and one more row was there. */
  lemma {:induction false} UnfinishedIsBehind(
    stores: seq<Store>, q: Query, limit: int, id: nat, like: (string, string) -> bool)
    requires stores != [] && 1 <= limit && q.direction == OldestFirst
    requires forall i :: 0 <= i < |stores| ==> Sound(stores[i])
    requires !Walk(EntriesOf(stores), LogListing(q, like), CursorOf(id), limit).1
    ensures stores[|stores| - 1].nextId > id + limit * |stores| + 1
    decreases |stores|
  {
    hide Take, InOrder, Matches;
    var l := LogListing(q, like);
    var rows := stores[0].entries;
    var fetched := Take(rows, l, CursorOf(id), limit + 1);
    TakeInOrder(rows, l, CursorOf(id), limit + 1);
    assert Sound(stores[0]);
    assert |fetched| == limit + 1;
    if |stores| > 1 {
      assert EntriesOf(stores)[1..] == EntriesOf(stores[1..]);
      assert !Walk(EntriesOf(stores[1..]), l, CursorOf(fetched[limit - 1].id), limit).1;
    }
    hide Walk, EntriesOf;
    assert fetched[0] in rows && fetched[limit] in rows && fetched[limit - 1] in rows;
    FetchedIds(fetched, q, id, limit - 1, like);
    FetchedIds(fetched, q, id, limit, like);
    if |stores| > 1 {
      var last := fetched[limit - 1].id;
      UnfinishedIsBehind(stores[1..], q, limit, last, like);
      assert limit * |stores| == limit + limit * (|stores| - 1);
    }
  }

  // ----- a reader can be behind for as long as rows arrive -----

  /** One new line of the kernel log, twenty seconds after the one before it. */
  function OneLine(id: nat): R.Step {
    R.Accepting(0, true, Upload(Kernel, "available", [Line(id, None, None, "line")]), id * 20 * SECOND)
  }

  /** `n` such uploads, the first of them stored under `id`. */
  function Feed(id: nat, n: nat): seq<R.Step>
    decreases n
  {
    if n == 0 then [] else [OneLine(id)] + Feed(id + 1, n - 1)
  }

  function Feeds(id: nat, n: nat, pages: nat): seq<seq<R.Step>>
    decreases pages
  {
    if pages == 0 then [] else [Feed(id, n)] + Feeds(id + n, n, pages - 1)
  }

  /** The newest `k` rows of the kernel log have the last `k` ids, and the next line will be new. */
  ghost predicate Fed(s: Store, k: nat) {
    var slice := Slice(s.entries, 0, Kernel);
    && k <= |slice| && (forall i :: |slice| - k <= i < |slice| ==> slice[i].id == s.nextId - |slice| + i)
    && forall e :: e in s.entries ==> e.hash < s.nextId
  }

  /** The latest of the clock readings so far. */
  function ClockOf(s: Store): Time {
    (s.nextId - 1) * 20 * SECOND
  }

  lemma OneLineIsNew(s: Store)
    requires forall e :: e in s.entries ==> e.hash < s.nextId
    ensures var lines := [Line(s.nextId, None, None, "line")];
            && Unseen(Hashes(s.entries, 0), lines) == lines
            && Numbered(lines, 0, Kernel, s.nextId * 20 * SECOND, s.nextId) ==
               [NewEntry(lines[0], 0, Kernel, s.nextId * 20 * SECOND, s.nextId)]
  {
    var line := Line(s.nextId, None, None, "line");
    assert [line][1..] == [] && [line][..0] == [];
  }

  /** The row stored for the next line. */
  function NextRow(s: Store): Entry {
    NewEntry(Line(s.nextId, None, None, "line"), 0, Kernel, s.nextId * 20 * SECOND, s.nextId)
  }

  lemma OneLineIsInserted(s: Store)
    requires forall e :: e in s.entries ==> e.hash < s.nextId
    ensures var step := OneLine(s.nextId);
            var (v, answer) := Accept(s, 0, true, step.upload, step.now);
            && R.Inserted(s, 0, step.upload, step.now) == [NextRow(s)]
            && answer.Ok? && v.nextId == s.nextId + 1 && v.entries == Trim(s.entries + [NextRow(s)], 0, Kernel)
  {
    OneLineIsNew(s);
    hide Trim, Unseen, Numbered, Hashes, Touch;
  }

  lemma FeedOne(s: Store, k: nat)
    requires R.Valid(s, ClockOf(s)) && Fed(s, k) && k < LIMIT
    ensures var step := OneLine(s.nextId);
            var (v, answer) := Accept(s, 0, true, step.upload, step.now);
            answer.Ok? && v.nextId == s.nextId + 1 && Fed(v, k + 1)
  {
    hide Trim, Slice, Accept, R.Valid, R.Inserted, Ascending, R.Numbers;
    var step := OneLine(s.nextId);
    var v := Accept(s, 0, true, step.upload, step.now).0;
    OneLineIsInserted(s);
    R.AcceptedSlices(s, 0, step.upload, step.now, ClockOf(s), 0, Kernel);
    EnlargedIsAscending(s);
    TrimKeepsNewest(s.entries + [NextRow(s)], 0, Kernel, 0, Kernel);
    NewestTail(Slice(s.entries, 0, Kernel), NextRow(s), k);
  }

  lemma EnlargedIsAscending(s: Store)
    requires R.Valid(s, ClockOf(s)) && forall e :: e in s.entries ==> e.hash < s.nextId
    ensures Ascending(s.entries + [NextRow(s)])
  {
    var step := OneLine(s.nextId);
    OneLineIsInserted(s);
    R.InsertKeepsNumbers(s, 0, step.upload, step.now, ClockOf(s));
    hide Accept, R.Inserted;
  }

  lemma NewestTail(before: seq<Entry>, added: Entry, k: nat)
    requires k <= |before| && k < LIMIT
    ensures var after := Newest(before + [added]);
            && k + 1 <= |after| && after[|after| - 1] == added
            && forall i :: |after| - 1 - k <= i < |after| - 1 ==> after[i] == before[i + |before| + 1 - |after|]
  {
  }

  lemma FedLess(s: Store, k: nat, fewer: nat)
    requires Fed(s, k) && fewer <= k
    ensures Fed(s, fewer)
  {
  }

  /** Feeding keeps the clock in order and lengthens the known end of the log. */
  lemma {:induction false} FeedRun(t: R.Traced, n: nat, k: nat)
    requires R.Valid(t.store, ClockOf(t.store)) && R.Refined(t) && Fed(t.store, k) && k <= LIMIT
    ensures var run := Feed(t.store.nextId, n);
            var v := R.Run(t, run).store;
            && R.Clocked(ClockOf(t.store), run) && R.ClockAfter(ClockOf(t.store), run) == ClockOf(v)
            && v.nextId == t.store.nextId + n && Fed(v, Min(k + n, LIMIT))
            && R.Valid(v, ClockOf(v)) && R.Refined(R.Run(t, run))
    decreases n
  {
    hide R.Valid, R.Refined, Fed, Accept;
    if n > 0 {
      var s, step := t.store, OneLine(t.store.nextId);
      var known := Min(k, LIMIT - 1);
      FedLess(s, k, known);
      FeedOne(s, known);
      R.AcceptKeepsValid(s, 0, true, step.upload, step.now, ClockOf(s));
      R.AcceptKeepsRefined(t, 0, true, step.upload, step.now, ClockOf(s));
      FeedRun(R.Apply(t, step), n - 1, known + 1);
    }
  }

  // ----- the rows ahead of a reader -----

  /** The last `n` rows of the kernel log. */
  function LastRows(s: Store, n: nat): seq<Entry> {
    var slice := Slice(s.entries, 0, Kernel);
    if n <= |slice| then slice[|slice| - n..] else slice
  }

  function AllLastRows(stores: seq<Store>, n: nat): seq<seq<Entry>> {
    if stores == [] then [] else [LastRows(stores[0], n)] + AllLastRows(stores[1..], n)
  }

  /** All rows of one device, from the oldest up. */
  function Upwards(): Query {
    Query(0, None, None, None, OldestFirst, None, Received)
  }

  lemma LastRowsAreAhead(s: Store, n: nat, after: nat, like: (string, string) -> bool)
    requires Fed(s, n) && 1 <= n && s.nextId > after + n
    ensures var rows := LastRows(s, n);
            && |rows| == n && InOrder(rows, LogListing(Upwards(), like), CursorOf(after))
            && (forall i :: 0 <= i < n ==> rows[i] in s.entries && rows[i].id == s.nextId - n + i)
  {
    var slice, rows := Slice(s.entries, 0, Kernel), LastRows(s, n);
    hide Slice;
    forall i | 0 <= i < n
      ensures rows[i].id == s.nextId - n + i && rows[i] in s.entries && rows[i].device == 0
    {
      assert rows[i] == slice[|slice| - n + i];
      SliceMembers(s.entries, 0, Kernel, rows[i]);
    }
  }

  lemma NothingStaysAhead(limit: nat, after: nat, like: (string, string) -> bool)
    requires 1 <= limit
    ensures StaysAhead(EntriesOf([]), LogListing(Upwards(), like), CursorOf(after), limit, AllLastRows([], limit + 1))
  {
  }

  lemma OneMoreAhead(first: Store, rest: seq<Store>, limit: nat, after: nat, like: (string, string) -> bool)
    requires 1 <= limit < LIMIT && Fed(first, limit + 1) && first.nextId > after + limit + 1
    requires StaysAhead(EntriesOf(rest), LogListing(Upwards(), like), CursorOf(first.nextId - 2), limit,
                        AllLastRows(rest, limit + 1))
    ensures StaysAhead(EntriesOf([first] + rest), LogListing(Upwards(), like), CursorOf(after), limit,
                       AllLastRows([first] + rest, limit + 1))
  {
    hide Fed, InOrder, LastRows, Matches, EntriesOf, AllLastRows;
    LastRowsAreAhead(first, limit + 1, after, like);
    EntriesOfMore(first, rest, limit + 1);
    var l, rows := LogListing(Upwards(), like), LastRows(first, limit + 1);
    assert rows[limit - 1].id == first.nextId - 2;
    assert Some(l.rank(rows[limit - 1])) == CursorOf(first.nextId - 2);
    var entries, ahead := [first.entries] + EntriesOf(rest), [rows] + AllLastRows(rest, limit + 1);
    assert entries[1..] == EntriesOf(rest) && ahead[1..] == AllLastRows(rest, limit + 1);
    assert StaysAhead(entries, l, CursorOf(after), limit, ahead);
  }

  lemma EntriesOfMore(first: Store, rest: seq<Store>, n: nat)
    ensures EntriesOf([first] + rest) == [first.entries] + EntriesOf(rest)
    ensures AllLastRows([first] + rest, n) == [LastRows(first, n)] + AllLastRows(rest, n)
  {
    assert ([first] + rest)[1..] == rest;
    hide LastRows;
  }

  /** With a page of new rows between the pages, each table holds a page and one more row beyond the last page. */
  lemma {:induction false} FeedStaysAhead(t: R.Traced, limit: nat, pages: nat, after: nat, like: (string, string) -> bool)
    requires R.Valid(t.store, ClockOf(t.store)) && R.Refined(t) && Fed(t.store, 1)
    requires 1 <= limit < LIMIT && t.store.nextId >= after + 2
    ensures var runs := Feeds(t.store.nextId, limit, pages);
            var stores := Met(t, runs);
            && |stores| == |runs| == pages && AllClocked(ClockOf(t.store), runs)
            && (pages > 0 ==> stores[pages - 1].nextId == t.store.nextId + limit * pages)
            && StaysAhead(EntriesOf(stores), LogListing(Upwards(), like), CursorOf(after), limit,
                          AllLastRows(stores, limit + 1))
    decreases pages
  {
    hide R.Valid, R.Refined, Fed, LastRows, Feed, R.Run, StaysAhead, CursorOf, Upwards, LogListing;
    if pages == 0 {
      NothingStaysAhead(limit, after, like);
    } else {
      FeedRun(t, limit, 1);
      var next := R.Run(t, Feed(t.store.nextId, limit));
      FedLess(next.store, limit + 1, 1);
      FeedStaysAhead(next, limit, pages - 1, next.store.nextId - 2, like);
      var runs := Feeds(t.store.nextId, limit, pages);
      assert runs[1..] == Feeds(t.store.nextId + limit, limit, pages - 1);
      assert Met(t, runs) == [next.store] + Met(next, runs[1..]);
      assert limit * pages == limit + limit * (pages - 1);
      hide Met, Feeds, EntriesOf, AllLastRows;
      OneMoreAhead(next.store, Met(next, runs[1..]), limit, after, like);
    }
  }

  // ----- exactly when a reader can be unfinished -----

  /** The ids handed out number the rows accepted so far. */
  lemma {:induction false} IdsCountAccepted(t: R.Traced, run: seq<R.Step>)
    requires |t.journal| + 1 == t.store.nextId
    ensures |R.Run(t, run).journal| + 1 == R.Run(t, run).store.nextId
    decreases |run|
  {
    if run != [] {
      var next := R.Apply(t, run[0]);
      match run[0] {
        case Accepting(device, allowed, upload, now) => R.InsertedRows(t.store, device, upload, now);
        case Pruning(_, _) =>
      }
      hide R.Inserted, Trim, Unseen, Touch, Prune;
      IdsCountAccepted(next, run[1..]);
    }
  }

  /** Ids are only ever handed out, so the last table met knows them all. */
  lemma {:induction false} LastKnowsAllIds(t: R.Traced, runs: seq<seq<R.Step>>, clock: Time)
    requires R.Valid(t.store, clock) && R.Refined(t) && AllClocked(clock, runs) && runs != []
    ensures var stores := Met(t, runs);
            |stores| == |runs| && forall i :: 0 <= i < |stores| ==> stores[i].nextId <= stores[|stores| - 1].nextId
    decreases |runs|
  {
    hide R.Valid, R.Refined, R.Run;
    var next := R.Run(t, runs[0]);
    R.RunKeeps(t, runs[0], clock);
    FollowsItself(next.store);
    MetStores(next.store, next, runs[1..], R.ClockAfter(clock, runs[0]));
    if |runs| > 1 {
      LastKnowsAllIds(next, runs[1..], R.ClockAfter(clock, runs[0]));
    }
  }

  /**
   * A reader of `accepted` rows so far has a next page after each of its pages, uploads and pruning coming in between
   * as `runs` say: it has followed the cursors from the oldest row up and is not at the end.
   */
  ghost predicate Unfinished(
    before: seq<R.Step>, runs: seq<seq<R.Step>>, clock: Time, q: Query, limit: int, like: (string, string) -> bool,
    accepted: nat)
  {
    && ValidQuery(q, limit) && q.direction == OldestFirst
    && R.Clocked(clock, before) && AllClocked(R.ClockAfter(clock, before), runs)
    && var stores := Met(R.Run(R.Start(), before), runs);
       && stores != [] && stores[|stores| - 1].nextId == accepted + 1
       && Browse(stores, q, limit, None, like).Ok? && !Browse(stores, q, limit, None, like).value.1
  }

  /** What is known of the tables met in any run that stays within the ids a cursor can carry. */
  lemma MetInRun(
    before: seq<R.Step>, runs: seq<seq<R.Step>>, clock: Time, q: Query, limit: int, like: (string, string) -> bool)
    requires ValidQuery(q, limit) && runs != []
    requires R.Clocked(clock, before) && AllClocked(R.ClockAfter(clock, before), runs)
    ensures var stores := Met(R.Run(R.Start(), before), runs);
            && |stores| == |runs| && (forall i :: 0 <= i < |stores| ==> Sound(stores[i]))
            && (stores[|stores| - 1].nextId <= MAX_ID + 1 ==>
                  Browse(stores, q, limit, None, like) == Ok(Walk(EntriesOf(stores), LogListing(q, like), None, limit)))
  {
    hide R.Run, R.Valid, R.Refined, Browse, Walk, Matches, EntriesOf;
    StartIsValid(clock);
    R.RunKeeps(R.Start(), before, clock);
    var t := R.Run(R.Start(), before);
    FollowsItself(t.store);
    MetStores(t.store, t, runs, R.ClockAfter(clock, before));
    LastKnowsAllIds(t, runs, R.ClockAfter(clock, before));
    var stores := Met(t, runs);
    if stores[|stores| - 1].nextId <= MAX_ID + 1 {
      forall i | 0 <= i < |stores| ensures Identified(stores[i]) {
        assert Sound(stores[i]) && stores[i].nextId <= stores[|stores| - 1].nextId;
      }
      hide Identified, Sound;
      BrowseIsWalk(stores, q, limit, None, None, like);
    }
  }

  lemma StartIsFed()
    ensures R.Valid(R.Start().store, ClockOf(R.Start().store)) && R.Refined(R.Start()) && Fed(R.Start().store, 0)
  {
    R.NothingRefined();
  }

  /** Enough rows before the first page and a page of them between the pages keep a reader behind. */
  lemma SteadyUploadsKeepAReaderBehind(limit: int, pages: nat, accepted: nat, like: (string, string) -> bool)
    requires 1 <= limit <= 100 && 1 <= pages && limit * pages < accepted <= MAX_ID
    ensures var first := accepted - limit * pages;
            Unfinished(Feed(1, first), Feeds(1 + first, limit, pages), 0, Upwards(), limit, like, accepted)
  {
    hide R.Run, R.Valid, R.Refined, Fed, Browse, Walk, LogListing, StaysAhead, EntriesOf, AllLastRows, Feed, Feeds, Met;
    var first := accepted - limit * pages;
    var before, runs := Feed(1, first), Feeds(1 + first, limit, pages);
    StartIsFed();
    FeedRun(R.Start(), first, 0);
    var t := R.Run(R.Start(), before);
    FedLess(t.store, Min(first, LIMIT), 1);
    FeedStaysAhead(t, limit, pages, 0, like);
    var stores := Met(t, runs);
    assert R.Clocked(0, before) && AllClocked(R.ClockAfter(0, before), runs);
    assert |runs| == |stores| == pages && stores[|stores| - 1].nextId == accepted + 1;
    assert ValidQuery(Upwards(), limit) && Upwards().direction == OldestFirst && CursorOf(0) == None;
    MetInRun(before, runs, 0, Upwards(), limit, like);
    WalkStaysBehind(EntriesOf(stores), LogListing(Upwards(), like), None, limit, AllLastRows(stores, limit + 1));
    assert Browse(stores, Upwards(), limit, None, like) == Ok(Walk(EntriesOf(stores), LogListing(Upwards(), like), None, limit));
  }

  /**
   * From the oldest row up a reader can still be unfinished after any number of pages, if and only if more rows have
   * been accepted by then than the pages hold: with fewer it has come to the end, and uploads that keep pace with it
   * keep it from the end.
   */
  lemma OldestFirstEndsUnlessOutpaced(limit: int, pages: nat, accepted: nat, like: (string, string) -> bool)
    requires 1 <= limit <= 100 && 1 <= pages && accepted <= MAX_ID
    ensures (exists before, runs, clock, q :: |runs| == pages && Unfinished(before, runs, clock, q, limit, like, accepted))
            <==> accepted > limit * pages
  {
    hide Met, R.Run, Browse, Walk, Matches, EntriesOf, Sound;
    if accepted > limit * pages {
      SteadyUploadsKeepAReaderBehind(limit, pages, accepted, like);
      var first := accepted - limit * pages;
      FeedsLength(1 + first, limit, pages);
      assert |Feeds(1 + first, limit, pages)| == pages;
    }
    forall before, runs, clock, q
      | |runs| == pages && Unfinished(before, runs, clock, q, limit, like, accepted)
      ensures accepted > limit * pages
    {
      MetInRun(before, runs, clock, q, limit, like);
      UnfinishedIsBehind(Met(R.Run(R.Start(), before), runs), q, limit, 0, like);
    }
  }

  lemma {:induction false} FeedsLength(id: nat, n: nat, pages: nat)
    ensures |Feeds(id, n, pages)| == pages
    decreases pages
  {
    if pages > 0 {
      FeedsLength(id + n, n, pages - 1);
    }
  }
}
