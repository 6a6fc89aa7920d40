/** Following cursors through a table that changes between the pages (keyset pagination, as in
    server/app/logs/service.py and server/app/dashboard/read.py). */
module KeysetPaging {
  import opened Prelude

  /** The columns a listing is ordered by, negated where the order is descending; unused ones are 0. */
  datatype Rank = Rank(first: int, second: int, third: int)

  predicate Before(a: Rank, b: Rank) {
    || a.first < b.first
    || (a.first == b.first && a.second < b.second)
    || (a.first == b.first && a.second == b.second && a.third < b.third)
  }

  datatype Listing<!T> = Listing(rank: T -> Rank, matches: T -> bool)

  predicate Beyond(after: Option<Rank>, r: Rank) {
    after.None? || Before(after.value, r)
  }

  predicate Eligible<T>(l: Listing<T>, after: Option<Rank>, row: T) {
    l.matches(row) && Beyond(after, l.rank(row))
  }

  /** The first row of the listing beyond the cursor. */
  function First<T>(rows: seq<T>, l: Listing<T>, after: Option<Rank>): Option<T> {
    if rows == [] then None
    else
      var rest := First(rows[..|rows| - 1], l, after);
      var last := rows[|rows| - 1];
      if Eligible(l, after, last) && (rest.None? || Before(l.rank(last), l.rank(rest.value))) then Some(last) else rest
  }

  /** The first `n` rows of the listing beyond the cursor. */
  function Take<T>(rows: seq<T>, l: Listing<T>, after: Option<Rank>, n: nat): (r: seq<T>)
    ensures |r| <= n
    decreases n
  {
    if n == 0 then []
    else
      var first := First(rows, l, after);
      if first.None? then [] else [first.value] + Take(rows, l, Some(l.rank(first.value)), n - 1)
  }

  /** One page, and the cursor for the next: one row more than the page is fetched to see if there is one. */
  function Page<T>(rows: seq<T>, l: Listing<T>, after: Option<Rank>, limit: nat): (seq<T>, Option<Rank>)
    requires 1 <= limit
  {
    var fetched := Take(rows, l, after, limit + 1);
    if |fetched| > limit then (fetched[..limit], Some(l.rank(fetched[limit - 1]))) else (fetched, None)
  }

  /** All the rows of a walk that takes one page from each snapshot in turn, and whether it came to the end. */
  function Walk<T>(snapshots: seq<seq<T>>, l: Listing<T>, after: Option<Rank>, limit: nat): (seq<T>, bool)
    requires 1 <= limit
    decreases |snapshots|
  {
    if snapshots == [] then ([], false)
    else
      var (page, next) := Page(snapshots[0], l, after, limit);
      if next.None? then (page, true)
      else
        var (rest, done) := Walk(snapshots[1..], l, next, limit);
        (page + rest, done)
  }

  // ----- one page -----

  ghost predicate DistinctRanks<T>(rows: seq<T>, l: Listing<T>) {
    forall i, j :: 0 <= i < j < |rows| ==> l.rank(rows[i]) != l.rank(rows[j])
  }

  lemma {:induction false} FirstIsFirst<T>(rows: seq<T>, l: Listing<T>, after: Option<Rank>)
    ensures var r := First(rows, l, after);
            && (r.Some? ==> r.value in rows && Eligible(l, after, r.value))
            && (forall row :: row in rows && Eligible(l, after, row) ==>
                  r.Some? && !Before(l.rank(row), l.rank(r.value)))
  {
    if rows != [] {
      var front, last := rows[..|rows| - 1], rows[|rows| - 1];
      assert rows == front + [last];
      FirstIsFirst(front, l, after);
    }
  }

  /** Each row comes before the next, starting beyond the cursor. */
  ghost predicate InOrder<T>(rows: seq<T>, l: Listing<T>, after: Option<Rank>) {
    && (forall i :: 0 <= i < |rows| ==> Eligible(l, after, rows[i]))
    && (forall i, j :: 0 <= i < j < |rows| ==> Before(l.rank(rows[i]), l.rank(rows[j])))
  }

  lemma InOrderPrepend<T>(row: T, rows: seq<T>, l: Listing<T>, after: Option<Rank>)
    requires Eligible(l, after, row) && InOrder(rows, l, Some(l.rank(row)))
    ensures InOrder([row] + rows, l, after)
  {
    var all := [row] + rows;
    forall i, j | 0 <= i < j < |all| ensures Before(l.rank(all[i]), l.rank(all[j])) {
      assert all[j] == rows[j - 1];
    }
  }

  lemma InOrderConcat<T>(a: seq<T>, b: seq<T>, l: Listing<T>, after: Option<Rank>)
    requires a != [] && InOrder(a, l, after) && InOrder(b, l, Some(l.rank(a[|a| - 1])))
    ensures InOrder(a + b, l, after)
  {
    var last := a[|a| - 1];
    forall j | 0 <= j < |b| ensures forall i :: 0 <= i < |a| ==> Before(l.rank(a[i]), l.rank(b[j])) {
      assert Eligible(l, Some(l.rank(last)), b[j]);
      assert Eligible(l, after, last);
    }
  }

  /** A row of rank `r` is among `rows`. */
  ghost predicate HasRank<T>(rows: seq<T>, l: Listing<T>, r: Rank) {
    exists i :: 0 <= i < |rows| && l.rank(rows[i]) == r
  }

  /** `taken` is full, and `r` comes after all of it. */
  predicate LeftOut<T>(taken: seq<T>, l: Listing<T>, n: nat, r: Rank) {
    |taken| == n && (n > 0 ==> Before(l.rank(taken[n - 1]), r))
  }

  lemma {:induction false} TakeInOrder<T>(rows: seq<T>, l: Listing<T>, after: Option<Rank>, n: nat)
    ensures InOrder(Take(rows, l, after, n), l, after)
    ensures forall row :: row in Take(rows, l, after, n) ==> row in rows
    decreases n
  {
    hide First, InOrder, Eligible;
    if n == 0 {
      NothingInOrder(l, after);
    } else {
      FirstIsFirst(rows, l, after);
      var first := First(rows, l, after);
      if first.None? {
        NothingInOrder(l, after);
      } else {
        TakeInOrder(rows, l, Some(l.rank(first.value)), n - 1);
        InOrderPrepend(first.value, Take(rows, l, Some(l.rank(first.value)), n - 1), l, after);
      }
    }
  }

  lemma NothingInOrder<T>(l: Listing<T>, after: Option<Rank>)
    ensures InOrder([], l, after)
  {
  }

  /** Nothing comes before the first row but what has its rank. */
  lemma FirstOrLater<T>(rows: seq<T>, l: Listing<T>, after: Option<Rank>, row: T)
    requires row in rows && Eligible(l, after, row)
    ensures var first := First(rows, l, after);
            && first.Some?
            && (l.rank(row) == l.rank(first.value) || Eligible(l, Some(l.rank(first.value)), row))
  {
    FirstIsFirst(rows, l, after);
    hide First;
  }

  lemma HasRankPrepend<T>(row: T, rows: seq<T>, l: Listing<T>, r: Rank)
    ensures l.rank(row) == r || HasRank(rows, l, r) ==> HasRank([row] + rows, l, r)
  {
    var all := [row] + rows;
    if l.rank(row) == r {
      assert l.rank(all[0]) == r;
    } else if HasRank(rows, l, r) {
      var i :| 0 <= i < |rows| && l.rank(rows[i]) == r;
      assert l.rank(all[i + 1]) == r;
    }
  }

  lemma LeftOutPrepend<T>(row: T, rows: seq<T>, l: Listing<T>, n: nat, r: Rank)
    requires LeftOut(rows, l, n, r) && (n == 0 ==> Before(l.rank(row), r))
    ensures LeftOut([row] + rows, l, n + 1, r)
  {
  }

  /** An eligible row is among the first `n` by its rank, or comes after all of them. */
  lemma {:induction false} TakeCovers<T>(rows: seq<T>, l: Listing<T>, after: Option<Rank>, n: nat, row: T)
    requires row in rows && Eligible(l, after, row)
    ensures var taken := Take(rows, l, after, n); HasRank(taken, l, l.rank(row)) || LeftOut(taken, l, n, l.rank(row))
    decreases n
  {
    hide First, HasRank, LeftOut, Before;
    if n == 0 {
      NoneLeftOut(l, l.rank(row));
    } else {
      FirstOrLater(rows, l, after, row);
      var first := First(rows, l, after).value;
      var rest := Take(rows, l, Some(l.rank(first)), n - 1);
      HasRankPrepend(first, rest, l, l.rank(row));
      if l.rank(row) != l.rank(first) {
        TakeCovers(rows, l, Some(l.rank(first)), n - 1, row);
        if LeftOut(rest, l, n - 1, l.rank(row)) {
          LeftOutPrepend(first, rest, l, n - 1, l.rank(row));
        }
      }
    }
  }

  lemma NoneLeftOut<T>(l: Listing<T>, r: Rank)
    ensures LeftOut([], l, 0, r)
  {
  }

  /** A page fetch is the ordered, limited query: rows in order, and whatever it leaves out comes after what it took. */
  lemma TakeIsOrderedAndLimited<T>(rows: seq<T>, l: Listing<T>, after: Option<Rank>, n: nat)
    ensures var taken := Take(rows, l, after, n);
            && InOrder(taken, l, after) && (forall row :: row in taken ==> row in rows)
            && forall row :: row in rows && Eligible(l, after, row) ==>
                 HasRank(taken, l, l.rank(row)) || LeftOut(taken, l, n, l.rank(row))
  {
    hide Take, InOrder, Eligible, HasRank, LeftOut;
    TakeInOrder(rows, l, after, n);
    forall row | row in rows && Eligible(l, after, row)
      ensures HasRank(Take(rows, l, after, n), l, l.rank(row)) || LeftOut(Take(rows, l, after, n), l, n, l.rank(row))
    {
      TakeCovers(rows, l, after, n, row);
    }
  }

  // ----- the walk -----

  lemma PageInOrder<T>(rows: seq<T>, l: Listing<T>, after: Option<Rank>, limit: nat)
    requires 1 <= limit
    ensures var (page, next) := Page(rows, l, after, limit);
            && InOrder(page, l, after) && (forall row :: row in page ==> row in rows)
            && (next.Some? ==> |page| == limit && next.value == l.rank(page[limit - 1]))
  {
    hide Take, InOrder;
    TakeInOrder(rows, l, after, limit + 1);
    var fetched := Take(rows, l, after, limit + 1);
    InOrderPrefix(fetched, l, after, Min(limit, |fetched|));
    PrefixMembers(fetched, Min(limit, |fetched|));
    assert fetched[..|fetched|] == fetched;
  }

  lemma InOrderPrefix<T>(rows: seq<T>, l: Listing<T>, after: Option<Rank>, n: nat)
    requires InOrder(rows, l, after) && n <= |rows|
    ensures InOrder(rows[..n], l, after)
  {
    hide Before, Eligible;
  }

  lemma PrefixMembers<T>(rows: seq<T>, n: nat)
    requires n <= |rows|
    ensures forall row :: row in rows[..n] ==> row in rows
  {
  }

  /** A walk returns rows in strict order, so none of them twice, however the table changes between the pages. */
  lemma {:induction false} WalkIsInOrder<T>(snapshots: seq<seq<T>>, l: Listing<T>, after: Option<Rank>, limit: nat)
    requires 1 <= limit
    ensures InOrder(Walk(snapshots, l, after, limit).0, l, after)
    decreases |snapshots|
  {
    hide InOrder, Page;
    if snapshots == [] {
      NothingInOrder(l, after);
    } else {
      PageInOrder(snapshots[0], l, after, limit);
      var (page, next) := Page(snapshots[0], l, after, limit);
      if next.Some? {
        WalkIsInOrder(snapshots[1..], l, next, limit);
        InOrderConcat(page, Walk(snapshots[1..], l, next, limit).0, l, after);
      }
    }
  }

  /** A matching row that a page leaves out is ahead of the next cursor. */
  lemma PageIsComplete<T>(rows: seq<T>, l: Listing<T>, after: Option<Rank>, limit: nat, row: T)
    requires 1 <= limit && DistinctRanks(rows, l) && row in rows && Eligible(l, after, row)
    ensures var (page, next) := Page(rows, l, after, limit);
            row in page || (next.Some? && Eligible(l, next, row))
  {
    hide Take, First, DistinctRanks, InOrder, HasRank;
    var fetched := Take(rows, l, after, limit + 1);
    TakeInOrder(rows, l, after, limit + 1);
    TakeCovers(rows, l, after, limit + 1, row);
    if HasRank(fetched, l, l.rank(row)) {
      TakenItself(rows, fetched, l, row);
      CutAt(fetched, l, after, limit, row);
    } else {
      LastIsNext(fetched, l, after, limit);
    }
  }

  /** With distinct ranks, a row of the same rank is the row. */
  lemma TakenItself<T>(rows: seq<T>, taken: seq<T>, l: Listing<T>, row: T)
    requires DistinctRanks(rows, l) && row in rows && HasRank(taken, l, l.rank(row))
    requires forall other :: other in taken ==> other in rows
    ensures row in taken
  {
    var i :| 0 <= i < |taken| && l.rank(taken[i]) == l.rank(row);
    assert taken[i] in rows;
    var j :| 0 <= j < |rows| && rows[j] == row;
    var k :| 0 <= k < |rows| && rows[k] == taken[i];
    assert j == k;
  }

  /** A fetched row is on the page, or it is the one row more. */
  lemma CutAt<T>(fetched: seq<T>, l: Listing<T>, after: Option<Rank>, limit: nat, row: T)
    requires 1 <= limit && |fetched| <= limit + 1 && InOrder(fetched, l, after) && row in fetched
    ensures if |fetched| > limit then row in fetched[..limit] || Eligible(l, Some(l.rank(fetched[limit - 1])), row)
            else row in fetched
  {
    var i :| 0 <= i < |fetched| && fetched[i] == row;
    hide Before;
    if i < limit && |fetched| > limit {
      assert fetched[..limit][i] == row;
    }
  }

  lemma LastIsNext<T>(fetched: seq<T>, l: Listing<T>, after: Option<Rank>, limit: nat)
    requires 1 <= limit && |fetched| == limit + 1 && InOrder(fetched, l, after)
    ensures Before(l.rank(fetched[limit - 1]), l.rank(fetched[limit]))
  {
  }

  /**
   * A walk that came to its end has returned every matching row that was in the table at each of its pages, at
   * exactly one place.
   */
  lemma {:induction false} WalkIsComplete<T>(
    snapshots: seq<seq<T>>, l: Listing<T>, after: Option<Rank>, limit: nat, row: T)
    requires 1 <= limit && Eligible(l, after, row)
    requires forall i :: 0 <= i < |snapshots| ==> row in snapshots[i] && DistinctRanks(snapshots[i], l)
    ensures var (items, done) := Walk(snapshots, l, after, limit);
            done ==> exists k :: 0 <= k < |items| && items[k] == row
                                 && forall j :: 0 <= j < |items| && items[j] == row ==> j == k
  {
    WalkFinds(snapshots, l, after, limit, row);
    WalkIsInOrder(snapshots, l, after, limit);
    hide Walk;
    var (items, done) := Walk(snapshots, l, after, limit);
    if done {
      var k :| 0 <= k < |items| && items[k] == row;
      forall j | 0 <= j < |items| && items[j] == row ensures j == k {
        assert j < k ==> Before(l.rank(items[j]), l.rank(items[k]));
        assert k < j ==> Before(l.rank(items[k]), l.rank(items[j]));
      }
    }
  }

  lemma {:induction false} WalkFinds<T>(
    snapshots: seq<seq<T>>, l: Listing<T>, after: Option<Rank>, limit: nat, row: T)
    requires 1 <= limit && Eligible(l, after, row)
    requires forall i :: 0 <= i < |snapshots| ==> row in snapshots[i] && DistinctRanks(snapshots[i], l)
    ensures Walk(snapshots, l, after, limit).1 ==> row in Walk(snapshots, l, after, limit).0
    decreases |snapshots|
  {
    hide DistinctRanks, Page, Eligible;
    if snapshots != [] {
      PageIsComplete(snapshots[0], l, after, limit, row);
      var (page, next) := Page(snapshots[0], l, after, limit);
      if next.Some? && row !in page {
        WalkFinds(snapshots[1..], l, next, limit, row);
      }
    }
  }

  // ----- walks away from the new rows end -----

  /** Every row of `later` was in `earlier`, or comes before all of it. */
  ghost predicate NewRowsComeFirst<T(!new)>(earlier: seq<T>, later: seq<T>, l: Listing<T>) {
    forall row, old_ :: row in later && row !in earlier && old_ in earlier ==> Before(l.rank(row), l.rank(old_))
  }

  /** Beyond a cursor taken from a row of `base`, later pages only see rows of `base`. */
  lemma {:induction false} WalkStaysInside<T(!new)>(
    snapshots: seq<seq<T>>, l: Listing<T>, after: Option<Rank>, limit: nat, base: seq<T>, last: T)
    requires 1 <= limit && last in base && after == Some(l.rank(last))
    requires forall i :: 0 <= i < |snapshots| ==> NewRowsComeFirst(base, snapshots[i], l)
    ensures forall row :: row in Walk(snapshots, l, after, limit).0 ==> row in base
    decreases |snapshots|
  {
    hide Page, InOrder;
    if snapshots != [] {
      PageInOrder(snapshots[0], l, after, limit);
      var (page, next) := Page(snapshots[0], l, after, limit);
      forall row | row in page ensures row in base {
        InOrderMember(page, l, after, row);
        assert NewRowsComeFirst(base, snapshots[0], l);
      }
      if next.Some? {
        WalkStaysInside(snapshots[1..], l, next, limit, base, page[limit - 1]);
      }
    }
  }

  lemma InOrderMember<T>(rows: seq<T>, l: Listing<T>, after: Option<Rank>, row: T)
    requires InOrder(rows, l, after) && row in rows
    ensures Eligible(l, after, row)
  {
  }

  lemma {:induction false} UnfinishedWalksAreFull<T>(snapshots: seq<seq<T>>, l: Listing<T>, after: Option<Rank>, limit: nat)
    requires 1 <= limit
    ensures var (items, done) := Walk(snapshots, l, after, limit); !done ==> |items| == limit * |snapshots|
    decreases |snapshots|
  {
    hide Page;
    if snapshots != [] {
      PageInOrder(snapshots[0], l, after, limit);
      var (page, next) := Page(snapshots[0], l, after, limit);
      if next.Some? {
        UnfinishedWalksAreFull(snapshots[1..], l, next, limit);
        assert limit * |snapshots| == limit + limit * (|snapshots| - 1);
      }
    }
  }

  /** Distinct members of a sequence are no more than its elements. */
  lemma {:induction false} DistinctMembersFit<T>(items: seq<T>, base: seq<T>)
    requires forall i, j :: 0 <= i < j < |items| ==> items[i] != items[j]
    requires forall row :: row in items ==> row in base
    ensures |items| <= |base|
    decreases |items|
  {
    if items != [] {
      var n := |items| - 1;
      assert items[n] in items;
      var k :| 0 <= k < |base| && base[k] == items[n];
      var fewer := base[..k] + base[k + 1..];
      forall row | row in items[..n] ensures row in fewer {
        var i :| 0 <= i < n && items[i] == row;
        assert items[i] in items && items[i] != items[n];
        var m :| 0 <= m < |base| && base[m] == row;
        assert m < k ==> fewer[m] == row;
        assert m > k ==> fewer[m - 1] == row;
      }
      DistinctMembersFit(items[..n], fewer);
    }
  }

  /**
   * Where new rows come first in the order, as in every listing from the newest down, a walk only ever returns rows
   * that were there when it started, and it ends as soon as its pages could have held them all.
   */
  lemma NewestFirstWalksEnd<T(!new)>(snapshots: seq<seq<T>>, l: Listing<T>, limit: nat)
    requires 1 <= limit && snapshots != []
    requires forall i :: 0 <= i < |snapshots| ==> NewRowsComeFirst(snapshots[0], snapshots[i], l)
    ensures var (items, done) := Walk(snapshots, l, None, limit);
            && (forall row :: row in items ==> row in snapshots[0])
            && (limit * |snapshots| > |snapshots[0]| ==> done)
  {
    hide Page, InOrder, NewRowsComeFirst;
    var base := snapshots[0];
    PageInOrder(base, l, None, limit);
    var (page, next) := Page(base, l, None, limit);
    if next.Some? {
      WalkStaysInside(snapshots[1..], l, next, limit, base, page[limit - 1]);
    }
    WalkIsInOrder(snapshots, l, None, limit);
    UnfinishedWalksAreFull(snapshots, l, None, limit);
    var items := Walk(snapshots, l, None, limit).0;
    assert forall row :: row in items ==> row in base;
    hide Walk;
    InOrderIsDistinct(items, l, None);
    DistinctMembersFit(items, base);
  }

  lemma InOrderIsDistinct<T>(rows: seq<T>, l: Listing<T>, after: Option<Rank>)
    requires InOrder(rows, l, after)
    ensures forall i, j :: 0 <= i < j < |rows| ==> rows[i] != rows[j]
  {
    forall i, j | 0 <= i < j < |rows| ensures rows[i] != rows[j] {
      assert Before(l.rank(rows[i]), l.rank(rows[j]));
    }
  }

  // ----- walks that stay behind -----

  /** Rows that lie beyond a cursor lie beyond every cursor that is not after it. */
  lemma InOrderSooner<T>(rows: seq<T>, l: Listing<T>, after: Rank, sooner: Rank)
    requires InOrder(rows, l, Some(after)) && !Before(after, sooner)
    ensures InOrder(rows, l, Some(sooner))
  {
    forall i | 0 <= i < |rows| ensures Eligible(l, Some(sooner), rows[i]) {
      assert Eligible(l, Some(after), rows[i]);
    }
  }

  lemma InOrderTail<T>(rows: seq<T>, l: Listing<T>, after: Option<Rank>)
    requires InOrder(rows, l, after) && rows != []
    ensures InOrder(rows[1..], l, Some(l.rank(rows[0])))
  {
    forall i | 0 <= i < |rows| - 1 ensures Eligible(l, Some(l.rank(rows[0])), rows[1..][i]) {
      assert Eligible(l, after, rows[i + 1]) && Before(l.rank(rows[0]), l.rank(rows[i + 1]));
    }
  }

  /** Of `ahead`, rows of the table beyond the cursor, a fetch of as many rows comes no further than each. */
  lemma {:induction false} TakeReaches<T>(rows: seq<T>, l: Listing<T>, after: Option<Rank>, ahead: seq<T>)
    requires InOrder(ahead, l, after) && forall i :: 0 <= i < |ahead| ==> ahead[i] in rows
    ensures var taken := Take(rows, l, after, |ahead|);
            |taken| == |ahead| && forall k :: 0 <= k < |ahead| ==> !Before(l.rank(ahead[k]), l.rank(taken[k]))
    decreases |ahead|
  {
    hide First;
    if ahead != [] {
      assert Eligible(l, after, ahead[0]);
      FirstOrLater(rows, l, after, ahead[0]);
      var first := First(rows, l, after).value;
      InOrderTail(ahead, l, after);
      InOrderSooner(ahead[1..], l, l.rank(ahead[0]), l.rank(first));
      TakeReaches(rows, l, Some(l.rank(first)), ahead[1..]);
      var rest := Take(rows, l, Some(l.rank(first)), |ahead| - 1);
      hide InOrder, Before;
      assert forall k :: 1 <= k < |ahead| ==> ahead[k] == ahead[1..][k - 1] && ([first] + rest)[k] == rest[k - 1];
    }
  }

  /** With a page of rows and one more ahead, there is a next page, and its cursor is no further than that page of them. */
  lemma PageReaches<T>(rows: seq<T>, l: Listing<T>, after: Option<Rank>, limit: nat, ahead: seq<T>)
    requires 1 <= limit && |ahead| == limit + 1
    requires InOrder(ahead, l, after) && forall i :: 0 <= i < |ahead| ==> ahead[i] in rows
    ensures var next := Page(rows, l, after, limit).1;
            next.Some? && !Before(l.rank(ahead[limit - 1]), next.value)
  {
    TakeReaches(rows, l, after, ahead);
    hide Take, InOrder, Before;
  }

  /** `ahead[i]` are a page of rows and one more in the i-th table, beyond where the page before it can have come. */
  ghost predicate StaysAhead<T>(snapshots: seq<seq<T>>, l: Listing<T>, after: Option<Rank>, limit: nat, ahead: seq<seq<T>>)
    requires 1 <= limit
    decreases |snapshots|
  {
    && |ahead| == |snapshots|
    && (snapshots != [] ==>
          && |ahead[0]| == limit + 1 && InOrder(ahead[0], l, after)
          && (forall i :: 0 <= i < |ahead[0]| ==> ahead[0][i] in snapshots[0])
          && StaysAhead(snapshots[1..], l, Some(l.rank(ahead[0][limit - 1])), limit, ahead[1..]))
  }

  lemma StaysAheadSooner<T>(
    snapshots: seq<seq<T>>, l: Listing<T>, after: Rank, sooner: Rank, limit: nat, ahead: seq<seq<T>>)
    requires 1 <= limit && StaysAhead(snapshots, l, Some(after), limit, ahead) && !Before(after, sooner)
    ensures StaysAhead(snapshots, l, Some(sooner), limit, ahead)
  {
    if snapshots != [] {
      InOrderSooner(ahead[0], l, after, sooner);
    }
  }

  /** As long as that is so a walk does not end. */
  lemma {:induction false} WalkStaysBehind<T>(
    snapshots: seq<seq<T>>, l: Listing<T>, after: Option<Rank>, limit: nat, ahead: seq<seq<T>>)
    requires 1 <= limit && StaysAhead(snapshots, l, after, limit, ahead)
    ensures !Walk(snapshots, l, after, limit).1
    decreases |snapshots|
  {
    hide Page, InOrder, Before;
    if snapshots != [] {
      PageReaches(snapshots[0], l, after, limit, ahead[0]);
      var next := Page(snapshots[0], l, after, limit).1;
      StaysAheadSooner(snapshots[1..], l, l.rank(ahead[0][limit - 1]), next.value, limit, ahead[1..]);
      WalkStaysBehind(snapshots[1..], l, next, limit, ahead[1..]);
    }
  }
}
