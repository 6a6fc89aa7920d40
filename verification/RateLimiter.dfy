/** The sliding-window limiter (server/app/api/heartbeats.py): a purged deque per device that refines the full history. */
module RateLimiter {

  const WINDOW: real := 60.0
  const LIMIT: nat := 6

  /** One call, in the order in which calls take the lock: the clock reading and the answer. */
  datatype Call = Call(at: real, allowed: bool)

  // ----- the unbounded specification -----

  /** How many calls were allowed after `lo` and up to `hi`. */
  function Count(history: seq<Call>, lo: real, hi: real): nat {
    if history == [] then 0
    else
      var last := history[|history| - 1];
      Count(history[..|history| - 1], lo, hi) + if last.allowed && lo < last.at <= hi then 1 else 0
  }

  /** A call is answered from the whole history. */
  function Judge(history: seq<Call>, now: real): seq<Call> {
    history + [Call(now, Count(history, now - WINDOW, now) < LIMIT)]
  }

  function JudgeAll(history: seq<Call>, readings: seq<real>): seq<Call>
    decreases |readings|
  {
    if readings == [] then history else JudgeAll(Judge(history, readings[0]), readings[1..])
  }

  // ----- the deque -----

  function PurgeTo(events: seq<real>, cutoff: real): seq<real>
    decreases |events|
  {
    if events != [] && events[0] <= cutoff then PurgeTo(events[1..], cutoff) else events
  }

  function Admit(events: seq<real>, now: real): (seq<real>, bool) {
    var live := PurgeTo(events, now - WINDOW);
    if |live| >= LIMIT then (live, false) else (live + [now], true)
  }

  function AdmitAll(events: seq<real>, readings: seq<real>): seq<Call>
    decreases |readings|
  {
    if readings == [] then []
    else
      var (after, allowed) := Admit(events, readings[0]);
      [Call(readings[0], allowed)] + AdmitAll(after, readings[1..])
  }

  // ----- refinement -----

  predicate Nondecreasing(readings: seq<real>) {
    forall i, j :: 0 <= i < j < |readings| ==> readings[i] <= readings[j]
  }

  /** Readings so far do not go back, and none is after `now`. */
  predicate Clocked(history: seq<Call>, now: real) {
    && (forall i, j :: 0 <= i < j < |history| ==> history[i].at <= history[j].at)
    && (forall i :: 0 <= i < |history| ==> history[i].at <= now)
  }

  /** The times of the allowed calls after `cutoff`. */
  function Recent(history: seq<Call>, cutoff: real): seq<real> {
    if history == [] then []
    else
      var front := Recent(history[..|history| - 1], cutoff);
      var last := history[|history| - 1];
      if last.allowed && last.at > cutoff then front + [last.at] else front
  }

  lemma {:induction false} RecentBounds(history: seq<Call>, cutoff: real, now: real)
    requires Clocked(history, now)
    ensures forall i :: 0 <= i < |Recent(history, cutoff)| ==> cutoff < Recent(history, cutoff)[i] <= now
  {
    if history != [] {
      RecentBounds(history[..|history| - 1], cutoff, now);
    }
  }

  lemma {:induction false} PurgeAll(events: seq<real>, cutoff: real)
    requires forall i :: 0 <= i < |events| ==> events[i] <= cutoff
    ensures PurgeTo(events, cutoff) == []
    decreases |events|
  {
    if events != [] {
      PurgeAll(events[1..], cutoff);
    }
  }

  lemma {:induction false} PurgeAppend(events: seq<real>, t: real, cutoff: real)
    requires t > cutoff
    ensures PurgeTo(events + [t], cutoff) == PurgeTo(events, cutoff) + [t]
    decreases |events|
  {
    if events != [] && events[0] <= cutoff {
      PurgeAppend(events[1..], t, cutoff);
      assert (events + [t])[1..] == events[1..] + [t];
    }
  }

  /** Popping from the left of the deque is filtering the history. */
  lemma {:induction false} PurgeIsFilter(history: seq<Call>, earlier: real, cutoff: real)
    requires history != [] ==> Clocked(history, history[|history| - 1].at)
    requires earlier <= cutoff
    ensures PurgeTo(Recent(history, earlier), cutoff) == Recent(history, cutoff)
  {
    if history != [] {
      var front, last := history[..|history| - 1], history[|history| - 1];
      PurgeIsFilter(front, earlier, cutoff);
      if last.allowed && last.at > cutoff {
        PurgeAppend(Recent(front, earlier), last.at, cutoff);
      } else if last.at <= cutoff {
        RecentBounds(history, earlier, last.at);
        PurgeAll(Recent(history, earlier), cutoff);
        RecentBounds(front, cutoff, last.at);
        assert |Recent(front, cutoff)| == 0;
      }
    }
  }

  lemma {:induction false} RecentCounts(history: seq<Call>, cutoff: real, now: real)
    requires Clocked(history, now)
    ensures |Recent(history, cutoff)| == Count(history, cutoff, now)
  {
    if history != [] {
      RecentCounts(history[..|history| - 1], cutoff, now);
    }
  }

  /** The deque after a history: its allowed calls of the last minute before the last reading. */
  function Deque(history: seq<Call>): seq<real> {
    if history == [] then [] else Recent(history, history[|history| - 1].at - WINDOW)
  }

  lemma AdmitIsJudge(history: seq<Call>, now: real)
    requires Clocked(history, now)
    ensures var (after, allowed) := Admit(Deque(history), now);
            && Judge(history, now) == history + [Call(now, allowed)]
            && after == Deque(Judge(history, now))
            && Clocked(Judge(history, now), now)
  {
    var cutoff := now - WINDOW;
    if history != [] {
      PurgeIsFilter(history, history[|history| - 1].at - WINDOW, cutoff);
    }
    RecentCounts(history, cutoff, now);
    assert Judge(history, now)[..|history|] == history;
  }

  /** With readings that do not go back, the bounded deque answers every call as the full history would. */
  lemma {:induction false} DequeRefinesHistory(history: seq<Call>, readings: seq<real>)
    requires Nondecreasing(readings) && (readings != [] ==> Clocked(history, readings[0]))
    ensures history + AdmitAll(Deque(history), readings) == JudgeAll(history, readings)
    decreases |readings|
  {
    hide Admit, Judge, Deque;
    if readings == [] {
      assert history + [] == history;
    } else {
      var now := readings[0];
      var (after, allowed) := Admit(Deque(history), now);
      AdmitIsJudge(history, now);
      DequeRefinesHistory(Judge(history, now), readings[1..]);
      assert history + ([Call(now, allowed)] + AdmitAll(after, readings[1..])) ==
             (history + [Call(now, allowed)]) + AdmitAll(after, readings[1..]);
    }
  }

  // ----- readings that go back -----

  /** The clock is read before the lock is taken, so calls can take it in another order: a reading may be up to `skew`
      before one that took the lock earlier. */
  predicate SkewedBy(readings: seq<real>, skew: real) {
    forall i, j :: 0 <= i < j < |readings| ==> readings[i] - skew <= readings[j]
  }

  /** The times of all allowed calls, in lock order. */
  function Times(history: seq<Call>): seq<real> {
    if history == [] then []
    else
      var last := history[|history| - 1];
      Times(history[..|history| - 1]) + if last.allowed then [last.at] else []
  }

  function Within(times: seq<real>, lo: real, hi: real): nat {
    if times == [] then 0
    else Within(times[..|times| - 1], lo, hi) + if lo < times[|times| - 1] <= hi then 1 else 0
  }

  lemma {:induction false} CountIsWithin(history: seq<Call>, lo: real, hi: real)
    ensures Count(history, lo, hi) == Within(Times(history), lo, hi)
  {
    if history != [] {
      var front, last := history[..|history| - 1], history[|history| - 1];
      CountIsWithin(front, lo, hi);
      var times := Times(front);
      assert times + [] == times && (times + [last.at])[..|times|] == times;
    }
  }

  lemma {:induction false} WithinConcat(a: seq<real>, b: seq<real>, lo: real, hi: real)
    ensures Within(a + b, lo, hi) == Within(a, lo, hi) + Within(b, lo, hi)
    decreases |b|
  {
    if b == [] {
      assert a + b == a;
    } else {
      WithinConcat(a, b[..|b| - 1], lo, hi);
      assert (a + b)[..|a + b| - 1] == a + b[..|b| - 1];
    }
  }

  lemma {:induction false} WithinBounds(times: seq<real>, lo: real, hi: real)
    ensures Within(times, lo, hi) <= |times|
    ensures (forall i :: 0 <= i < |times| ==> times[i] <= lo) ==> Within(times, lo, hi) == 0
    ensures (forall i :: 0 <= i < |times| ==> lo < times[i] <= hi) ==> Within(times, lo, hi) == |times|
  {
    if times != [] {
      WithinBounds(times[..|times| - 1], lo, hi);
    }
  }

  /** `events` are the newest of the allowed times, and what is missing is a minute older than `top`. */
  ghost predicate Kept(history: seq<Call>, events: seq<real>, top: real) {
    var times := Times(history);
    && |events| <= |times| && events == times[|times| - |events|..]
    && forall i :: 0 <= i < |times| - |events| ==> times[i] <= top - WINDOW
  }

  lemma {:induction false} PurgeDropsAPrefix(events: seq<real>, cutoff: real)
    ensures var live := PurgeTo(events, cutoff);
            && |live| <= |events| && live == events[|events| - |live|..]
            && (forall i :: 0 <= i < |events| - |live| ==> events[i] <= cutoff)
            && (live != [] ==> live[0] > cutoff)
    decreases |events|
  {
    if events != [] && events[0] <= cutoff {
      PurgeDropsAPrefix(events[1..], cutoff);
    }
  }

  lemma PurgeKeeps(history: seq<Call>, events: seq<real>, now: real, top: real)
    requires Kept(history, events, top) && now <= top
    ensures Kept(history, PurgeTo(events, now - WINDOW), top)
  {
    hide PurgeTo, Times;
    PurgeDropsAPrefix(events, now - WINDOW);
    var times, live := Times(history), PurgeTo(events, now - WINDOW);
    var base := |times| - |events|;
    forall i | 0 <= i < |times| - |live| ensures times[i] <= top - WINDOW {
      assert i < base || times[i] == events[i - base];
    }
  }

  lemma AdmitKeeps(history: seq<Call>, events: seq<real>, now: real, top: real)
    requires Kept(history, events, top) && now <= top
    ensures var (after, allowed) := Admit(events, now); Kept(history + [Call(now, allowed)], after, top)
  {
    PurgeKeeps(history, events, now, top);
    var allowed := Admit(events, now).1;
    var more := history + [Call(now, allowed)];
    assert more[..|more| - 1] == history;
    assert Times(more) == Times(history) + if allowed then [now] else [];
    hide PurgeTo, Times;
  }

  /** The deque after a sequence of calls. */
  function DequeAfter(events: seq<real>, readings: seq<real>): seq<real>
    decreases |readings|
  {
    if readings == [] then events else DequeAfter(Admit(events, readings[0]).0, readings[1..])
  }

  lemma {:induction false} DequeIsKept(history: seq<Call>, events: seq<real>, readings: seq<real>, top: real)
    requires Kept(history, events, top) && forall i :: 0 <= i < |readings| ==> readings[i] <= top
    ensures Kept(history + AdmitAll(events, readings), DequeAfter(events, readings), top)
    decreases |readings|
  {
    hide Kept, Admit;
    if readings == [] {
      assert history + [] == history;
    } else {
      var now := readings[0];
      var (after, allowed) := Admit(events, now);
      AdmitKeeps(history, events, now, top);
      DequeIsKept(history + [Call(now, allowed)], after, readings[1..], top);
      assert history + ([Call(now, allowed)] + AdmitAll(after, readings[1..])) ==
             (history + [Call(now, allowed)]) + AdmitAll(after, readings[1..]);
    }
  }

  /** The last call of a sequence is answered by the deque that the calls before it left. */
  lemma {:induction false} LastAnswer(events: seq<real>, readings: seq<real>, now: real)
    ensures AdmitAll(events, readings + [now]) ==
            AdmitAll(events, readings) + [Call(now, Admit(DequeAfter(events, readings), now).1)]
    decreases |readings|
  {
    hide Admit;
    var all := readings + [now];
    if readings == [] {
      assert all == [now] && all[1..] == [];
    } else {
      LastAnswer(Admit(events, readings[0]).0, readings[1..], now);
      assert all[1..] == readings[1..] + [now];
    }
  }

  lemma {:induction false} TimesOf(readings: seq<real>, skew: real)
    requires SkewedBy(readings, skew)
    ensures SkewedBy(Times(AdmitAll([], readings)), skew)
    ensures forall t :: 0 <= t < |Times(AdmitAll([], readings))| ==> Times(AdmitAll([], readings))[t] in readings
    decreases |readings|
  {
    if readings != [] {
      var n := |readings| - 1;
      var front, now := readings[..n], readings[n];
      TimesOf(front, skew);
      LastAnswer([], front, now);
      assert readings == front + [now];
      var answers := AdmitAll([], front);
      var allowed := Admit(DequeAfter([], front), now).1;
      assert (answers + [Call(now, allowed)])[..|answers|] == answers;
      var times := Times(answers);
      assert Times(AdmitAll([], readings)) == times + if allowed then [now] else [];
      forall t | 0 <= t < |times| ensures times[t] - skew <= now {
        var i :| 0 <= i < n && front[i] == times[t];
      }
    }
  }

  /** How often times in a skewed list fall in a window that reaches back by the skew as well. */
  lemma AllRecent(live: seq<real>, skew: real, now: real)
    requires SkewedBy(live, skew) && (live != [] ==> live[0] > now - WINDOW) && skew >= 0.0
    requires forall i :: 0 <= i < |live| ==> live[i] <= now + skew
    ensures Within(live, now - WINDOW - skew, now + skew) == |live|
  {
    WithinBounds(live, now - WINDOW - skew, now + skew);
  }

  /** What a deque says of the history behind it: all that is recent is in it. */
  lemma RecentAreKept(history: seq<Call>, live: seq<real>, top: real, hi: real)
    requires Kept(history, live, top)
    ensures Count(history, top - WINDOW, hi) <= |live|
  {
    hide Count, Times, Within;
    var times := Times(history);
    var gone := times[..|times| - |live|];
    CountIsWithin(history, top - WINDOW, hi);
    assert times == gone + live;
    WithinConcat(gone, live, top - WINDOW, hi);
    WithinBounds(gone, top - WINDOW, hi);
    WithinBounds(live, top - WINDOW, hi);
  }

  lemma SuffixCounts(history: seq<Call>, live: seq<real>, top: real, lo: real, hi: real)
    requires Kept(history, live, top)
    ensures Count(history, lo, hi) >= Within(live, lo, hi)
  {
    hide Count, Within;
    var times := Times(history);
    var gone := times[..|times| - |live|];
    CountIsWithin(history, lo, hi);
    assert times == gone + live;
    WithinConcat(gone, live, lo, hi);
  }

  lemma SkewedEarlier(readings: seq<real>, now: real, skew: real)
    requires SkewedBy(readings + [now], skew)
    ensures SkewedBy(readings, skew) && forall i :: 0 <= i < |readings| ==> readings[i] <= now + skew
  {
    var all := readings + [now];
    assert all[|readings|] == now;
    forall i | 0 <= i < |readings| ensures readings[i] == all[i] && readings[i] <= now + skew {
      assert all[i] - skew <= all[|readings|];
    }
  }

  lemma NothingKept(top: real)
    ensures Kept([], [], top)
  {
  }

  lemma LiveIsSkewed(times: seq<real>, live: seq<real>, readings: seq<real>, skew: real, top: real)
    requires SkewedBy(times, skew) && |live| <= |times| && live == times[|times| - |live|..]
    requires forall t :: 0 <= t < |times| ==> times[t] in readings
    requires forall i :: 0 <= i < |readings| ==> readings[i] <= top
    ensures SkewedBy(live, skew) && forall i :: 0 <= i < |live| ==> live[i] <= top
  {
    var base := |times| - |live|;
    assert forall i :: 0 <= i < |live| ==> live[i] == times[base + i];
  }

  /** What the purged deque is when a call with reading `now` is decided. */
  ghost predicate LiveAt(history: seq<Call>, live: seq<real>, now: real, skew: real) {
    && Kept(history, live, now + skew) && SkewedBy(live, skew)
    && (live != [] ==> live[0] > now - WINDOW)
    && forall i :: 0 <= i < |live| ==> live[i] <= now + skew
  }

  lemma DequeIsLive(readings: seq<real>, now: real, skew: real)
    requires skew >= 0.0 && SkewedBy(readings + [now], skew)
    ensures LiveAt(AdmitAll([], readings), PurgeTo(DequeAfter([], readings), now - WINDOW), now, skew)
  {
    hide AdmitAll, DequeAfter, PurgeTo, Times;
    var before, events, top := AdmitAll([], readings), DequeAfter([], readings), now + skew;
    SkewedEarlier(readings, now, skew);
    NothingKept(top);
    DequeIsKept([], [], readings, top);
    assert [] + before == before;
    PurgeKeeps(before, events, now, top);
    TimesOf(readings, skew);
    PurgeDropsAPrefix(events, now - WINDOW);
    LiveIsSkewed(Times(before), PurgeTo(events, now - WINDOW), readings, skew, top);
  }

  /** It holds all calls of the last minute less the skew, and only calls of the last minute and the skew. */
  lemma LiveCounts(history: seq<Call>, live: seq<real>, now: real, skew: real, hi: real)
    requires LiveAt(history, live, now, skew) && skew >= 0.0
    ensures Count(history, now + skew - WINDOW, hi) <= |live| <= Count(history, now - WINDOW - skew, now + skew)
  {
    hide Count, Within, Kept;
    RecentAreKept(history, live, now + skew, hi);
    AllRecent(live, skew, now);
    SuffixCounts(history, live, now + skew, now - WINDOW - skew, now + skew);
  }

  /**
   * One call whose reading is at most `skew` behind earlier ones: it is refused if six calls were allowed in the last
   * minute less the skew, and only if six were allowed in the last minute and the skew.
   */
  lemma CallWithinSkew(readings: seq<real>, now: real, skew: real, hi: real)
    requires skew >= 0.0 && SkewedBy(readings + [now], skew)
    ensures var before := AdmitAll([], readings);
            var answer := Call(now, Admit(DequeAfter([], readings), now).1);
            && AdmitAll([], readings + [now]) == before + [answer]
            && (answer.allowed ==> Count(before, now + skew - 60.0, hi) < 6)
            && (!answer.allowed ==> Count(before, now - 60.0 - skew, now + skew) >= 6)
  {
    hide AdmitAll, DequeAfter, PurgeTo, Count, LiveAt, SkewedBy;
    LastAnswer([], readings, now);
    DequeIsLive(readings, now, skew);
    LiveCounts(AdmitAll([], readings), PurgeTo(DequeAfter([], readings), now - WINDOW), now, skew, hi);
  }

  // ----- the bound -----

  /** The calls allowed in the half-open window of the given length that starts at `lo`. */
  function CountFrom(history: seq<Call>, lo: real, length: real): nat {
    Count(history, lo, lo + length)
  }

  lemma {:induction false} CountWider(history: seq<Call>, lo: real, lower: real, hi: real)
    requires lower <= lo
    ensures Count(history, lo, hi) <= Count(history, lower, hi)
  {
    if history != [] {
      CountWider(history[..|history| - 1], lo, lower, hi);
    }
  }

  /** No window that is shorter than a minute by the skew holds more than six allowed calls. */
  lemma {:induction false} AtMostSixPerWindow(readings: seq<real>, skew: real, lo: real, length: real)
    requires skew >= 0.0 && SkewedBy(readings, skew) && length <= WINDOW - skew
    ensures CountFrom(AdmitAll([], readings), lo, length) <= LIMIT
    decreases |readings|
  {
    hide AdmitAll, Admit, DequeAfter, SkewedBy;
    if readings == [] {
      NoAnswers();
    } else {
      var n := |readings| - 1;
      var front, now := readings[..n], readings[n];
      assert readings == front + [now];
      SkewedEarlier(front, now, skew);
      AtMostSixPerWindow(front, skew, lo, length);
      CallWithinSkew(front, now, skew, lo + length);
      var before := AdmitAll([], front);
      var answer := Call(now, Admit(DequeAfter([], front), now).1);
      assert (before + [answer])[..|before|] == before;
      if answer.allowed && lo < now <= lo + length {
        CountWider(before, lo, now + skew - WINDOW, lo + length);
      }
    }
  }

  lemma NoAnswers()
    ensures AdmitAll([], []) == []
  {
  }

  /** Whatever the readings, as long as none is more than `skew` behind an earlier one, six calls are the most that any
      window of this length holds. */
  ghost predicate Bounded(skew: real, length: real) {
    forall readings, lo :: SkewedBy(readings, skew) ==> CountFrom(AdmitAll([], readings), lo, length) <= 6
  }

  // ----- the bound is exact -----

  /** Six calls at once, one a minute later, and one whose reading is `back` before that. */
  function Overtaken(back: real): seq<real> {
    [0.0, 0.0, 0.0, 0.0, 0.0, 0.0, WINDOW, WINDOW - back]
  }

  function AllAllowed(readings: seq<real>): (r: seq<Call>)
    ensures |r| == |readings| && forall i :: 0 <= i < |r| ==> r[i] == Call(readings[i], true)
  {
    seq(|readings|, i requires 0 <= i < |readings| => Call(readings[i], true))
  }

  /** Up to six calls within a minute of the first are all allowed. */
  lemma {:induction false} FillsUp(readings: seq<real>)
    requires |readings| <= LIMIT && forall i :: 0 <= i < |readings| ==> readings[0] > readings[i] - WINDOW
    ensures AdmitAll([], readings) == AllAllowed(readings) && DequeAfter([], readings) == readings
    decreases |readings|
  {
    hide Admit;
    if readings != [] {
      var n := |readings| - 1;
      var front, now := readings[..n], readings[n];
      FillsUp(front);
      LastAnswer([], front, now);
      LastDeque([], front, now);
      NotFull(front, now);
      assert readings == front + [now];
      assert AllAllowed(readings) == AllAllowed(front) + [Call(now, true)];
    }
  }

  lemma {:induction false} LastDeque(events: seq<real>, readings: seq<real>, now: real)
    ensures DequeAfter(events, readings + [now]) == Admit(DequeAfter(events, readings), now).0
    decreases |readings|
  {
    hide Admit;
    var all := readings + [now];
    if readings == [] {
      assert all == [now] && all[1..] == [];
    } else {
      LastDeque(Admit(events, readings[0]).0, readings[1..], now);
      assert all[1..] == readings[1..] + [now];
    }
  }

  lemma NotFull(events: seq<real>, now: real)
    requires |events| < LIMIT && (events != [] ==> events[0] > now - WINDOW)
    ensures Admit(events, now) == (events + [now], true)
  {
  }

  /** The call a minute later purges all six, so the overtaken one finds room. */
  lemma OvertakenAreAllowed(back: real)
    requires 0.0 <= back <= WINDOW
    ensures AdmitAll([], Overtaken(back)) == AllAllowed(Overtaken(back))
  {
    hide AdmitAll, DequeAfter, PurgeTo;
    var six := [0.0, 0.0, 0.0, 0.0, 0.0, 0.0];
    FillsUp(six);
    PurgeAll(six, 0.0);
    LastAnswer([], six, WINDOW);
    LastDeque([], six, WINDOW);
    assert WINDOW - WINDOW == 0.0 && [] + [WINDOW] == [WINDOW];
    assert Admit(six, WINDOW) == ([WINDOW], true);
    var seven := six + [WINDOW];
    LastAnswer([], seven, WINDOW - back);
    NotFull([WINDOW], WINDOW - back);
    assert seven + [WINDOW - back] == Overtaken(back);
    assert AllAllowed(Overtaken(back)) == AllAllowed(six) + [Call(WINDOW, true)] + [Call(WINDOW - back, true)];
  }

  lemma CountPrefix(history: seq<Call>, n: nat, lo: real, hi: real)
    requires 1 <= n <= |history|
    ensures Count(history[..n], lo, hi) ==
            Count(history[..n - 1], lo, hi) + if history[n - 1].allowed && lo < history[n - 1].at <= hi then 1 else 0
  {
    assert history[..n][..n - 1] == history[..n - 1];
  }

  lemma SixAtOnce(answers: seq<Call>, lo: real, hi: real)
    requires |answers| >= 6 && forall i :: 0 <= i < 6 ==> answers[i] == Call(0.0, true)
    requires lo < 0.0 <= hi
    ensures Count(answers[..6], lo, hi) == 6
  {
    CountPrefix(answers, 6, lo, hi);
    CountPrefix(answers, 5, lo, hi);
    CountPrefix(answers, 4, lo, hi);
    CountPrefix(answers, 3, lo, hi);
    CountPrefix(answers, 2, lo, hi);
    CountPrefix(answers, 1, lo, hi);
    assert answers[..0] == [];
  }

  lemma SevenInTheWindow(back: real, length: real)
    requires 0.0 <= back <= WINDOW && length > WINDOW - back
    ensures CountFrom(AdmitAll([], Overtaken(back)), WINDOW - back - length, length) > LIMIT
  {
    hide AdmitAll, Count;
    OvertakenAreAllowed(back);
    var answers, lo := AllAllowed(Overtaken(back)), WINDOW - back - length;
    SixAtOnce(answers, lo, lo + length);
    CountPrefix(answers, 7, lo, lo + length);
    CountPrefix(answers, 8, lo, lo + length);
    assert answers[..8] == answers;
  }

  lemma OvertakenIsSkewed(back: real)
    requires 0.0 <= back <= WINDOW
    ensures SkewedBy(Overtaken(back), back)
  {
  }

  /**
   * Exactly what a caller gets. If readings are at most `skew` behind earlier ones, every window of a given length
   * holds at most six allowed calls if and only if the length is at most a minute less the skew.
   */
  lemma WindowBoundIsExact(skew: real, length: real)
    requires skew >= 0.0 && length > 0.0
    ensures Bounded(skew, length) <==> length <= 60.0 - skew
  {
    if length <= WINDOW - skew {
      forall readings, lo | SkewedBy(readings, skew) ensures CountFrom(AdmitAll([], readings), lo, length) <= LIMIT {
        AtMostSixPerWindow(readings, skew, lo, length);
      }
    } else {
      var back := if skew <= WINDOW then skew else WINDOW;
      OvertakenIsSkewed(back);
      SevenInTheWindow(back, length);
      assert SkewedBy(Overtaken(back), skew);
    }
  }

  /** So the promised bound of six calls a minute is kept exactly when no reading goes back. */
  lemma SixPerMinuteIffInOrder(skew: real)
    requires skew >= 0.0
    ensures Bounded(skew, 60.0) <==> skew == 0.0
  {
    WindowBoundIsExact(skew, WINDOW);
  }

  /** Without going back: at most six calls allowed in any half-open minute, and a call is refused if and only if six
      were allowed in the minute before it. */
  lemma LimiterKeepsItsPromise(readings: seq<real>, now: real, lo: real)
    requires Nondecreasing(readings + [now])
    ensures var before := AdmitAll([], readings);
            var answers := AdmitAll([], readings + [now]);
            && |answers| == |before| + 1 && answers[..|before|] == before && answers[|before|].at == now
            && CountFrom(answers, lo, WINDOW) <= LIMIT
            && (!answers[|before|].allowed <==> Count(before, now - WINDOW, now) == LIMIT)
  {
    hide AdmitAll, Admit, DequeAfter, Count;
    assert SkewedBy(readings + [now], 0.0);
    CallWithinSkew(readings, now, 0.0, now);
    SkewedEarlier(readings, now, 0.0);
    AtMostSixPerWindow(readings + [now], 0.0, lo, WINDOW);
    AtMostSixPerWindow(readings, 0.0, now - WINDOW, WINDOW);
  }

  // ----- refining the full history -----

  /** Every call in the history was answered from the calls before it. */
  ghost predicate Judged(history: seq<Call>) {
    forall i :: 0 <= i < |history| ==>
      (history[i].allowed <==> Count(history[..i], history[i].at - WINDOW, history[i].at) < LIMIT)
  }

  lemma {:induction false} JudgeAllIsJudged(history: seq<Call>, readings: seq<real>)
    requires Judged(history)
    ensures Judged(JudgeAll(history, readings))
    decreases |readings|
  {
    hide Count;
    if readings != [] {
      var next := Judge(history, readings[0]);
      assert forall i :: 0 <= i <= |history| ==> next[..i] == history[..i];
      JudgeAllIsJudged(next, readings[1..]);
    }
  }

  lemma EmptyHistory(now: real)
    ensures Clocked([], now) && Deque([]) == [] && Judged([])
  {
  }

  ghost predicate Refines(skew: real) {
    forall readings :: SkewedBy(readings, skew) ==> AdmitAll([], readings) == JudgeAll([], readings)
  }

  /** The deque answers like the full history for all readings exactly when no reading goes back. */
  lemma DequeRefinesHistoryIffInOrder(skew: real)
    requires skew >= 0.0
    ensures Refines(skew) <==> skew == 0.0
  {
    hide AdmitAll, JudgeAll, Judge, Count, Clocked, Deque;
    if skew == 0.0 {
      forall readings | SkewedBy(readings, 0.0) ensures AdmitAll([], readings) == JudgeAll([], readings) {
        EmptyHistory(if readings == [] then 0.0 else readings[0]);
        DequeRefinesHistory([], readings);
        assert [] + AdmitAll([], readings) == AdmitAll([], readings);
      }
    } else {
      var back := if skew <= WINDOW then skew else WINDOW;
      var answers := AllAllowed(Overtaken(back));
      OvertakenIsSkewed(back);
      OvertakenAreAllowed(back);
      SixAtOnce(answers, 0.0 - back, WINDOW - back);
      CountPrefix(answers, 7, 0.0 - back, WINDOW - back);
      EmptyHistory(0.0);
      JudgeAllIsJudged([], Overtaken(back));
      assert SkewedBy(Overtaken(back), skew);
      assert !(answers[7].allowed <==> Count(answers[..7], answers[7].at - WINDOW, answers[7].at) < LIMIT);
    }
  }

  // ----- the limiter -----

  class PerDeviceRateLimiter {
    var events: map<nat, seq<real>>

    constructor ()
      ensures events == map[]
    {
      events := map[];
    }

    function EventsOf(device: nat): seq<real>
      reads this
    {
      if device in events then events[device] else []
    }

    /** Answers one call of `device`, and touches no other device. */
    method Allow(device: nat, now: real) returns (allowed: bool)
      modifies this
      ensures (EventsOf(device), allowed) == Admit(old(EventsOf(device)), now)
      ensures events.Keys == old(events.Keys) + {device}
      ensures forall other :: other in old(events) && other != device ==> events[other] == old(events[other])
    {
      var live := EventsOf(device);
      while live != [] && live[0] <= now - WINDOW
        invariant PurgeTo(live, now - WINDOW) == PurgeTo(old(EventsOf(device)), now - WINDOW)
        decreases |live|
      {
        live := live[1..];
      }
      if |live| >= LIMIT {
        events := events[device := live];
        return false;
      }
      events := events[device := live + [now]];
      allowed := true;
    }
  }
}
