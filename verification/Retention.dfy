/** Deleting expired rows in batches of the oldest (server/app/logs/service.py, `LogRetentionService`). */
module Retention {
  import opened Prelude

  /** What a batch is ordered by: a time, then the columns that make the order total. */
  datatype Key = Key(at: Time, major: nat, minor: nat)

  predicate Precedes(a: Key, b: Key) {
    || a.at < b.at
    || (a.at == b.at && a.major < b.major)
    || (a.at == b.at && a.major == b.major && a.minor < b.minor)
  }

  function Without<T>(rows: seq<T>, i: nat): seq<T>
    requires i < |rows|
  {
    rows[..i] + rows[i + 1..]
  }

  /** The first expired row in the order of the keys. */
  function Earliest<T>(rows: seq<T>, key: T -> Key, cutoff: Time): (r: Option<nat>)
    ensures r.Some? ==> r.value < |rows|
  {
    if rows == [] then None
    else
      var n := |rows| - 1;
      var rest := Earliest(rows[..n], key, cutoff);
      if key(rows[n]).at < cutoff && (rest.None? || Precedes(key(rows[n]), key(rows[rest.value]))) then Some(n) else rest
  }

  lemma {:induction false} EarliestIsFirst<T>(rows: seq<T>, key: T -> Key, cutoff: Time)
    ensures var r := Earliest(rows, key, cutoff);
            && (r.None? <==> forall j :: 0 <= j < |rows| ==> key(rows[j]).at >= cutoff)
            && (r.Some? ==>
                  && key(rows[r.value]).at < cutoff
                  && forall j :: 0 <= j < |rows| && key(rows[j]).at < cutoff ==> !Precedes(key(rows[j]), key(rows[r.value])))
  {
    if rows != [] {
      var n := |rows| - 1;
      var front := rows[..n];
      EarliestIsFirst(front, key, cutoff);
      assert forall j :: 0 <= j < n ==> front[j] == rows[j];
    }
  }

  /** Deletes the first `n` expired rows. */
  function Purge<T>(rows: seq<T>, key: T -> Key, cutoff: Time, n: nat): seq<T>
    decreases n
  {
    var first := Earliest(rows, key, cutoff);
    if n == 0 || first.None? then rows else Purge(Without(rows, first.value), key, cutoff, n - 1)
  }

  function Expired<T>(rows: seq<T>, key: T -> Key, cutoff: Time): nat {
    if rows == [] then 0
    else Expired(rows[..|rows| - 1], key, cutoff) + if key(rows[|rows| - 1]).at < cutoff then 1 else 0
  }

  /** The rows that are not expired, in table order. */
  function Current<T>(rows: seq<T>, key: T -> Key, cutoff: Time): seq<T> {
    if rows == [] then []
    else
      var front := Current(rows[..|rows| - 1], key, cutoff);
      if key(rows[|rows| - 1]).at < cutoff then front else front + [rows[|rows| - 1]]
  }

  lemma {:induction false} WithoutExpired<T>(rows: seq<T>, key: T -> Key, cutoff: Time, i: nat)
    requires i < |rows| && key(rows[i]).at < cutoff
    ensures Expired(rows, key, cutoff) == Expired(Without(rows, i), key, cutoff) + 1
    ensures Current(rows, key, cutoff) == Current(Without(rows, i), key, cutoff)
  {
    var n := |rows| - 1;
    if i == n {
      assert Without(rows, i) == rows[..n];
    } else {
      WithoutExpired(rows[..n], key, cutoff, i);
      assert Without(rows, i)[..n - 1] == Without(rows[..n], i);
    }
  }

  lemma {:induction false} ExpiredZero<T>(rows: seq<T>, key: T -> Key, cutoff: Time)
    ensures Expired(rows, key, cutoff) == 0 <==> forall j :: 0 <= j < |rows| ==> key(rows[j]).at >= cutoff
    ensures Expired(rows, key, cutoff) == 0 ==> Current(rows, key, cutoff) == rows
    ensures Expired(rows, key, cutoff) <= |rows|
  {
    if rows != [] {
      var front := rows[..|rows| - 1];
      ExpiredZero(front, key, cutoff);
      assert forall j :: 0 <= j < |front| ==> front[j] == rows[j];
      assert rows == front + [rows[|rows| - 1]];
    }
  }

  lemma EarliestIsExpired<T>(rows: seq<T>, key: T -> Key, cutoff: Time)
    ensures var r := Earliest(rows, key, cutoff);
            && (r.None? <==> Expired(rows, key, cutoff) == 0)
            && (r.Some? ==> key(rows[r.value]).at < cutoff)
  {
    EarliestIsFirst(rows, key, cutoff);
    ExpiredZero(rows, key, cutoff);
  }

  /** One batch deletes `n` expired rows, or all of them, and nothing else. */
  lemma {:induction false} PurgeDeletesOnlyExpired<T>(rows: seq<T>, key: T -> Key, cutoff: Time, n: nat)
    ensures Expired(Purge(rows, key, cutoff, n), key, cutoff) == Max(0, Expired(rows, key, cutoff) - n)
    ensures Current(Purge(rows, key, cutoff, n), key, cutoff) == Current(rows, key, cutoff)
    ensures |Purge(rows, key, cutoff, n)| == |rows| - Min(n, Expired(rows, key, cutoff))
    decreases n
  {
    hide Expired, Current, Earliest;
    EarliestIsExpired(rows, key, cutoff);
    var first := Earliest(rows, key, cutoff);
    if n != 0 && first.Some? {
      WithoutExpired(rows, key, cutoff, first.value);
      PurgeDeletesOnlyExpired(Without(rows, first.value), key, cutoff, n - 1);
    }
  }

  lemma {:induction false} WithoutCurrent<T>(rows: seq<T>, key: T -> Key, cutoff: Time, i: nat)
    requires i < |rows| && key(rows[i]).at >= cutoff
    ensures Expired(Without(rows, i), key, cutoff) == Expired(rows, key, cutoff)
  {
    var n := |rows| - 1;
    if i == n {
      assert Without(rows, i) == rows[..n];
    } else {
      WithoutCurrent(rows[..n], key, cutoff, i);
      assert Without(rows, i)[..n - 1] == Without(rows[..n], i);
    }
  }

  /** The first row that is expired later is one that is expired now, as long as there is one. */
  lemma EarliestIsOldest<T>(rows: seq<T>, key: T -> Key, cutoff: Time, later: Time)
    requires cutoff <= later
    ensures var r := Earliest(rows, key, later);
            && (r.None? ==> Expired(rows, key, cutoff) == 0)
            && (r.Some? && key(rows[r.value]).at >= cutoff ==> Expired(rows, key, cutoff) == 0)
  {
    EarliestIsFirst(rows, key, later);
    ExpiredZero(rows, key, cutoff);
    hide Earliest, Expired;
    var r := Earliest(rows, key, later);
    if r.Some? && key(rows[r.value]).at >= cutoff {
      forall j | 0 <= j < |rows| ensures key(rows[j]).at >= cutoff {
        assert key(rows[j]).at < later ==> !Precedes(key(rows[j]), key(rows[r.value]));
      }
    }
  }

  /** A batch with a later cutoff deletes as many of the rows that had expired earlier: the oldest go first. */
  lemma {:induction false} PurgeDeletesOldestFirst<T>(rows: seq<T>, key: T -> Key, cutoff: Time, later: Time, n: nat)
    requires cutoff <= later
    ensures Expired(Purge(rows, key, later, n), key, cutoff) == Max(0, Expired(rows, key, cutoff) - n)
    decreases n
  {
    hide Expired, Earliest, Without;
    var first := Earliest(rows, key, later);
    EarliestIsOldest(rows, key, cutoff, later);
    if n != 0 && first.Some? {
      if key(rows[first.value]).at < cutoff {
        WithoutExpired(rows, key, cutoff, first.value);
      } else {
        WithoutCurrent(rows, key, cutoff, first.value);
      }
      PurgeDeletesOldestFirst(Without(rows, first.value), key, cutoff, later, n - 1);
    }
  }

  /** Whatever its cutoff, a batch adds no row. */
  lemma {:induction false} PurgeOnlyDeletes<T>(rows: seq<T>, key: T -> Key, cutoff: Time, other: Time, n: nat)
    ensures Expired(Purge(rows, key, other, n), key, cutoff) <= Expired(rows, key, cutoff)
    decreases n
  {
    hide Expired, Earliest, Without;
    var first := Earliest(rows, key, other);
    if n != 0 && first.Some? {
      if key(rows[first.value]).at < cutoff {
        WithoutExpired(rows, key, cutoff, first.value);
      } else {
        WithoutCurrent(rows, key, cutoff, first.value);
      }
      PurgeOnlyDeletes(Without(rows, first.value), key, cutoff, other, n - 1);
    }
  }

  /** What a batch deletes is expired, and nothing it leaves expired comes before it. */
  lemma {:induction false} PurgeTakesTheFirst<T>(rows: seq<T>, key: T -> Key, cutoff: Time, n: nat)
    ensures forall row :: row in Purge(rows, key, cutoff, n) ==> row in rows
    ensures forall row :: row in rows && row !in Purge(rows, key, cutoff, n) ==> key(row).at < cutoff
    ensures forall gone, left :: gone in rows && gone !in Purge(rows, key, cutoff, n)
                                 && left in Purge(rows, key, cutoff, n) && key(left).at < cutoff ==>
              !Precedes(key(left), key(gone))
    decreases n
  {
    hide Earliest, Precedes;
    var first := Earliest(rows, key, cutoff);
    EarliestIsFirst(rows, key, cutoff);
    if n != 0 && first.Some? {
      var rest := Without(rows, first.value);
      PurgeTakesTheFirst(rest, key, cutoff, n - 1);
      WithoutMembers(rows, first.value);
      hide Without;
      forall row | row in rows && key(row).at < cutoff ensures !Precedes(key(row), key(rows[first.value])) {
        var j :| 0 <= j < |rows| && rows[j] == row;
      }
    }
  }

  lemma WithoutMembers<T>(rows: seq<T>, i: nat)
    requires i < |rows|
    ensures forall row :: row in Without(rows, i) ==> row in rows
    ensures forall row :: row in rows && row != rows[i] ==> row in Without(rows, i)
  {
    forall row | row in rows && row != rows[i] ensures row in Without(rows, i) {
      var j :| 0 <= j < |rows| && rows[j] == row;
      assert j < i ==> Without(rows, i)[j] == row;
      assert j > i ==> Without(rows, i)[j - 1] == row;
    }
  }

  lemma {:induction false} ExpiredConcat<T>(a: seq<T>, b: seq<T>, key: T -> Key, cutoff: Time)
    ensures Expired(a + b, key, cutoff) == Expired(a, key, cutoff) + Expired(b, key, cutoff)
    decreases |b|
  {
    if b == [] {
      assert a + b == a;
    } else {
      ExpiredConcat(a, b[..|b| - 1], key, cutoff);
      assert (a + b)[..|a + b| - 1] == a + b[..|b| - 1];
    }
  }

  function Repeated<T>(rows: seq<T>, key: T -> Key, cutoff: Time, n: nat, batches: nat): seq<T>
    decreases batches
  {
    if batches == 0 then rows else Repeated(Purge(rows, key, cutoff, n), key, cutoff, n, batches - 1)
  }

  /** Enough batches leave exactly the rows that are not expired; with fewer, expired rows remain. */
  lemma {:induction false} RepeatedPurgesReachCurrent<T>(rows: seq<T>, key: T -> Key, cutoff: Time, n: nat, batches: nat)
    ensures Repeated(rows, key, cutoff, n, batches) == Current(rows, key, cutoff) <==>
            Expired(rows, key, cutoff) <= n * batches
    decreases batches
  {
    hide Expired, Current, Purge;
    if batches == 0 {
      ExpiredZero(rows, key, cutoff);
      CurrentHasNoExpired(rows, key, cutoff);
    } else {
      var purged := Purge(rows, key, cutoff, n);
      PurgeDeletesOnlyExpired(rows, key, cutoff, n);
      RepeatedPurgesReachCurrent(purged, key, cutoff, n, batches - 1);
      assert n * batches == n * (batches - 1) + n;
    }
  }

  lemma {:induction false} CurrentHasNoExpired<T>(rows: seq<T>, key: T -> Key, cutoff: Time)
    ensures Expired(Current(rows, key, cutoff), key, cutoff) == 0
  {
    if rows != [] {
      var front := Current(rows[..|rows| - 1], key, cutoff);
      CurrentHasNoExpired(rows[..|rows| - 1], key, cutoff);
      assert (front + [rows[|rows| - 1]])[..|front|] == front;
    }
  }

  ghost predicate Sorted<T>(rows: seq<T>, key: T -> Key) {
    forall i, j :: 0 <= i < j < |rows| ==> Precedes(key(rows[i]), key(rows[j]))
  }

  lemma EarliestOfSorted<T>(rows: seq<T>, key: T -> Key, cutoff: Time)
    requires Sorted(rows, key) && Earliest(rows, key, cutoff).Some?
    ensures Earliest(rows, key, cutoff) == Some(0) && key(rows[0]).at < cutoff
  {
    hide Earliest;
    EarliestIsFirst(rows, key, cutoff);
    var i := Earliest(rows, key, cutoff).value;
    assert i == 0 || Precedes(key(rows[0]), key(rows[i]));
  }

  lemma SortedTail<T>(rows: seq<T>, key: T -> Key)
    requires Sorted(rows, key) && rows != []
    ensures Sorted(rows[1..], key)
  {
    hide Precedes;
    var tail := rows[1..];
    forall i, j | 0 <= i < j < |tail| ensures Precedes(key(tail[i]), key(tail[j])) {
      assert tail[i] == rows[i + 1] && tail[j] == rows[j + 1];
    }
  }

  lemma ExpiredFit<T>(rows: seq<T>, key: T -> Key, cutoff: Time)
    ensures Expired(rows, key, cutoff) <= |rows|
  {
    ExpiredZero(rows, key, cutoff);
  }

  lemma FirstExpiredGone<T>(rows: seq<T>, key: T -> Key, cutoff: Time)
    requires rows != [] && key(rows[0]).at < cutoff
    ensures Without(rows, 0) == rows[1..] && Expired(rows, key, cutoff) == Expired(rows[1..], key, cutoff) + 1
  {
    WithoutExpired(rows, key, cutoff, 0);
    assert Without(rows, 0) == rows[1..];
  }

  /** In a table that is kept in key order a batch is a prefix. */
  lemma {:induction false} PurgeDropsAPrefix<T>(rows: seq<T>, key: T -> Key, cutoff: Time, n: nat)
    requires Sorted(rows, key)
    ensures Expired(rows, key, cutoff) <= |rows|
    ensures Purge(rows, key, cutoff, n) == rows[Min(n, Expired(rows, key, cutoff))..]
    decreases n
  {
    hide Expired, Earliest, Precedes, Sorted, Without;
    ExpiredFit(rows, key, cutoff);
    EarliestIsExpired(rows, key, cutoff);
    if n != 0 && Earliest(rows, key, cutoff).Some? {
      EarliestOfSorted(rows, key, cutoff);
      FirstExpiredGone(rows, key, cutoff);
      SortedTail(rows, key);
      PurgeDropsAPrefix(rows[1..], key, cutoff, n - 1);
    }
  }

  /** In such a table the expired rows are exactly the first ones. */
  lemma {:induction false} ExpiredArePrefix<T>(rows: seq<T>, key: T -> Key, cutoff: Time, j: nat)
    requires Sorted(rows, key) && j < |rows|
    ensures key(rows[j]).at < cutoff <==> j < Expired(rows, key, cutoff)
    decreases |rows|
  {
    var n := |rows| - 1;
    var front := rows[..n];
    ExpiredZero(front, key, cutoff);
    if j < n {
      ExpiredArePrefix(front, key, cutoff, j);
    } else if n > 0 {
      ExpiredArePrefix(front, key, cutoff, n - 1);
      assert Precedes(key(rows[n - 1]), key(rows[n]));
    }
  }
}
