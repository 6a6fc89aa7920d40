/** Which upgrades, rollbacks and reports the lifecycle service grants, with versions read as decimal numbers. */
module LifecycleRequests {
  import opened Prelude
  import opened Lifecycle

  // ----- versions -----

  function Power(n: nat): nat {
    if n == 0 then 1 else 10 * Power(n - 1)
  }

  /** The number a decimal numeral stands for: each digit counts by its place. */
  function Worth(s: string): int {
    if s == [] then 0 else (s[0] as int - '0' as int) * Power(|s| - 1) + Worth(s[1..])
  }

  predicate Numeral(s: string) {
    s != [] && forall i :: 0 <= i < |s| ==> '0' <= s[i] <= '9'
  }

  /** `s` is three numerals with dots between them that stand for the numbers of `t`. */
  ghost predicate Spells(s: string, t: Triple) {
    exists a: string, b: string, c: string :: SpelledAs(s, t, a, b, c)
  }

  ghost predicate SpelledAs(s: string, t: Triple, a: string, b: string, c: string) {
    && s == a + "." + b + "." + c && Numeral(a) && Numeral(b) && Numeral(c)
    && Worth(a) == t.major && Worth(b) == t.minor && Worth(c) == t.patch
  }

  lemma {:induction false} WorthAppend(s: string, c: char)
    ensures Worth(s + [c]) == 10 * Worth(s) + (c as int - '0' as int)
  {
    if s == [] {
      assert [c][1..] == [];
      assert Power(0) == 1;
    } else {
      WorthAppend(s[1..], c);
      assert (s + [c])[1..] == s[1..] + [c];
      assert Power(|s|) == 10 * Power(|s| - 1);
    }
  }

  lemma {:induction false} NumberIsWorth(s: string)
    ensures Number(s).Some? <==> Numeral(s)
    ensures Numeral(s) ==> Number(s) == Some(Worth(s))
  {
    if s != [] {
      var front, last := s[..|s| - 1], s[|s| - 1];
      assert s == front + [last];
      WorthAppend(front, last);
      NumberIsWorth(front);
      if Number(s).Some? {
        forall i | 0 <= i < |s| ensures '0' <= s[i] <= '9' {
          assert i < |s| - 1 ==> s[i] == front[i];
        }
      }
      assert Worth([]) == 0;
    }
  }

  predicate Dotless(s: string) {
    '.' !in s
  }

  lemma {:induction false} DotsOfPart(s: string, rest: string)
    requires Dotless(s)
    ensures Dots(s) == [s]
    ensures Dots(s + "." + rest) == [s] + Dots(rest)
    decreases |s|
  {
    if s == [] {
      assert [] + "." + rest == "." + rest && ("." + rest)[1..] == rest;
    } else {
      DotsOfPart(s[1..], rest);
      assert s + "." + rest == [s[0]] + (s[1..] + "." + rest);
      assert [s[0]] + s[1..] == s;
    }
  }

  /** The parts of a text, joined again with dots. */
  function Joined(parts: seq<string>): string {
    if parts == [] then "" else if |parts| == 1 then parts[0] else parts[0] + "." + Joined(parts[1..])
  }

  lemma {:induction false} DotsJoin(s: string)
    ensures |Dots(s)| >= 1 && Joined(Dots(s)) == s
    decreases |s|
  {
    if s != [] {
      DotsJoin(s[1..]);
      var rest := Dots(s[1..]);
      assert s == [s[0]] + s[1..];
      if s[0] == '.' {
        assert Dots(s)[1..] == rest;
      } else {
        assert Dots(s)[1..] == rest[1..];
      }
    }
  }

  lemma NumeralsAreDotless(s: string)
    requires Numeral(s)
    ensures Dotless(s)
  {
  }

  /** A version is parsed iff it spells a triple, and then as that triple. */
  lemma ParsedIffSpelled(s: string, t: Triple)
    ensures ParseVersion(Some(s)) == Some(t) <==> Spells(s, t)
  {
    hide Worth, Number, Dots;
    if Spells(s, t) {
      var a: string, b: string, c: string :| SpelledAs(s, t, a, b, c);
      NumeralsAreDotless(a);
      NumeralsAreDotless(b);
      NumeralsAreDotless(c);
      assert s == a + "." + (b + "." + c);
      DotsOfPart(a, b + "." + c);
      DotsOfPart(b, c);
      DotsOfPart(c, "");
      NumberIsWorth(a);
      NumberIsWorth(b);
      NumberIsWorth(c);
    }
    if ParseVersion(Some(s)) == Some(t) {
      var parts := Dots(s);
      DotsJoin(s);
      assert Joined(parts[1..]) == parts[1] + "." + parts[2] by {
        assert parts[1..][1..] == [parts[2]];
      }
      assert s == parts[0] + "." + (parts[1] + "." + parts[2]);
      NumberIsWorth(parts[0]);
      NumberIsWorth(parts[1]);
      NumberIsWorth(parts[2]);
      assert s == parts[0] + "." + parts[1] + "." + parts[2];
      assert SpelledAs(s, t, parts[0], parts[1], parts[2]);
    }
  }

  function Decimal(n: nat): string {
    (if n < 10 then "" else Decimal(n / 10)) + [(('0' as int) + n % 10) as char]
  }

  lemma {:induction false} DecimalIsWorth(n: nat)
    ensures Numeral(Decimal(n)) && Worth(Decimal(n)) == n
  {
    var last := (('0' as int) + n % 10) as char;
    assert last as int - '0' as int == n % 10 && '0' <= last <= '9';
    if n < 10 {
      WorthAppend("", last);
      assert "" + [last] == [last];
    } else {
      DecimalIsWorth(n / 10);
      WorthAppend(Decimal(n / 10), last);
    }
  }

  /** Writing a triple with dots and reading it gives the triple back. */
  lemma WrittenVersionsParse(t: Triple)
    ensures ParseVersion(Some(Decimal(t.major) + "." + Decimal(t.minor) + "." + Decimal(t.patch))) == Some(t)
  {
    var a, b, c := Decimal(t.major), Decimal(t.minor), Decimal(t.patch);
    DecimalIsWorth(t.major);
    DecimalIsWorth(t.minor);
    DecimalIsWorth(t.patch);
    hide Numeral, Worth, Decimal, ParseVersion;
    assert SpelledAs(a + "." + b + "." + c, t, a, b, c);
    ParsedIffSpelled(a + "." + b + "." + c, t);
  }

  // ----- upgrades -----

  /** The first number in which they differ is smaller in `a`. */
  predicate Below(a: Triple, b: Triple) {
    if a.major != b.major then a.major < b.major
    else if a.minor != b.minor then a.minor < b.minor
    else a.patch < b.patch
  }

  ghost predicate Readable(version: string) {
    exists t :: Spells(version, t)
  }

  /** Both versions can be read, the installed one is 1.0.4 or later, and the target is later still. */
  ghost predicate Upgradable(installed: Option<string>, target: string) {
    && installed.Some?
    && exists a, b :: Spells(installed.value, a) && Spells(target, b) && !Below(a, Triple(1, 0, 4)) && Below(a, b)
  }

  lemma ParsedMeans(installed: Option<string>, target: string)
    ensures ParseVersion(Some(target)).Some? <==> Readable(target)
    ensures var (a, b) := (ParseVersion(installed), ParseVersion(Some(target)));
            a.Some? && b.Some? && !Older(a.value, FIRST_CAPABLE) && Older(a.value, b.value) <==> Upgradable(installed, target)
  {
    var b := ParseVersion(Some(target));
    forall t ensures b == Some(t) <==> Spells(target, t) {
      ParsedIffSpelled(target, t);
    }
    if b.Some? {
      assert Spells(target, b.value);
    }
    if installed.Some? {
      var a := ParseVersion(installed);
      forall t ensures a == Some(t) <==> Spells(installed.value, t) {
        ParsedIffSpelled(installed.value, t);
      }
      hide Spells, ParseVersion;
      if a.Some? && b.Some? && !Older(a.value, FIRST_CAPABLE) && Older(a.value, b.value) {
        assert Spells(installed.value, a.value) && Spells(target, b.value);
        assert !Below(a.value, Triple(1, 0, 4)) && Below(a.value, b.value);
      }
    }
  }

  predicate Ended(state: State) {
    state in {Succeeded, Failed, RolledBack, RollbackFailed}
  }

  /**
   * With a readable release an upgrade is created iff no operation is under way, the last one is not this very upgrade
   * completed, and the installed version can be upgraded to it. An upgrade to the same release that is under way or
   * completed is answered with. Everything else is refused, and only a created operation changes anything.
   */
  lemma UpgradeAnswers(s: Slots, d: nat, release: Release, installed: Option<string>, now: Time)
    ensures var (v, answer) := RequestUpgrade(s, d, release, installed, now);
            var busy := d in s.active && !Ended(s.active[d].state);
            var already := d in s.active && s.active[d].targetWheel == release.wheel &&
                           (if busy then s.active[d].action == Upgrade else s.active[d].state == Succeeded);
            var created := Readable(release.version) && !busy && !already && Upgradable(installed, release.version);
            && (answer.Ok? <==> created || (Readable(release.version) && already))
            && (answer == Err(Invalid("Agent release is unavailable.")) <==> !Readable(release.version))
            && (answer == Err(Conflict("An agent lifecycle operation is active.")) <==>
                  Readable(release.version) && busy && !already)
            && (!created ==> v == s)
            && (answer.Ok? && !created ==> answer.value == s.active[d])
            && (created ==>
                  && answer.value == Operation(s.nextId, d, Upgrade, Requested, release.version, release.wheel,
                                               Some(release.archive), installed, None, false, None, None, now, now, None)
                  && v.active == s.active[d := answer.value] && v.nextId == s.nextId + 1
                  && v.audits == s.audits + [Audit(s.nextId, d, UpgradeRequested)]
                  && v.retired == s.retired + if d in s.active then [s.active[d]] else [])
  {
    ParsedMeans(installed, release.version);
    hide Upgradable, Readable, ParseVersion, Older;
  }

  // ----- rollbacks -----

  /** Operation `e` is new in the slot in place of a succeeded upgrade and aims at the release that upgrade replaced. */
  predicate TurnsBack(s: Slots, v: Slots, d: nat, e: Operation, now: Time)
    requires d in s.active
  {
    var prior := s.active[d];
    && prior.state == Succeeded && prior.action == Upgrade && prior.previousVersion.Some? && prior.previousWheel.Some?
    && e == Operation(s.nextId, d, Rollback, Requested, prior.previousVersion.value, prior.previousWheel.value, None,
                      Some(prior.targetVersion), Some(prior.targetWheel), false, None, None, now, now, None)
    && v.active == s.active[d := e] && v.nextId == s.nextId + 1
    && v.audits == s.audits + [Audit(s.nextId, d, RollbackRequested)] && v.retired == s.retired + [prior]
  }

  /**
   * A rollback is created iff the slot holds a succeeded upgrade that left a previous release behind, and the device
   * reports the upgraded version; it aims at that previous release. Everything else is refused and changes nothing.
   */
  lemma RollbackAnswers(s: Slots, d: nat, installed: Option<string>, now: Time)
    requires Valid(s)
    ensures var (v, answer) := RequestRollback(s, d, installed, now);
            var offered := d in s.active && s.active[d].rollbackAvailable && s.active[d].previousVersion.Some?;
            && (answer.Ok? <==> offered && installed == Some(s.active[d].targetVersion))
            && (!offered ==> answer == Err(Conflict("No known-good previous release is available.")))
            && (offered && answer.Err? ==>
                  answer == Err(Conflict("Await a heartbeat from the installed release before rollback.")))
            && (answer.Err? ==> v == s)
            && (answer.Ok? ==> TurnsBack(s, v, d, answer.value, now))
  {
    if d in s.active {
      assert Coherent(s.active[d]);
      if Rollbackable(s.active[d], installed) {
        RollbackTurnsBack(s, d, installed, now);
      } else {
        RollbackRefused(s, d, installed, now);
      }
      hide Valid, TurnsBack, RequestRollback;
    }
  }

  lemma RollbackRefused(s: Slots, d: nat, installed: Option<string>, now: Time)
    requires d in s.active && Coherent(s.active[d]) && !Rollbackable(s.active[d], installed)
    ensures var offered := s.active[d].rollbackAvailable && s.active[d].previousVersion.Some?;
            RequestRollback(s, d, installed, now) == (s, Err(Conflict(
              if offered then "Await a heartbeat from the installed release before rollback."
              else "No known-good previous release is available.")))
  {
  }

  predicate Rollbackable(o: Operation, installed: Option<string>) {
    o.rollbackAvailable && o.previousVersion.Some? && installed == Some(o.targetVersion)
  }

  lemma RollbackTurnsBack(s: Slots, d: nat, installed: Option<string>, now: Time)
    requires d in s.active && Coherent(s.active[d]) && Rollbackable(s.active[d], installed)
    ensures var (v, answer) := RequestRollback(s, d, installed, now);
            answer.Ok? && TurnsBack(s, v, d, answer.value, now)
  {
  }

  // ----- reports -----

  const ORDER: seq<State> := [Requested, Downloading, Verifying, Installing, Restarting, VerifyingHealth]

  /** `later` comes after `earlier` in the order of progress. */
  predicate After(earlier: State, later: State) {
    exists i, j :: 0 <= i < j < |ORDER| && ORDER[i] == earlier && ORDER[j] == later
  }

  predicate Hexadecimal(s: string) {
    |s| == 64 && forall c :: c in s ==> c in "0123456789abcdef"
  }

  /** What a message may say: a failure names its category and no other message does, a detail is one of its category,
      and only a success names a previous release, by a digest, and offers to go back to it. */
  predicate Sensible(m: Message) {
    && m.state != Requested
    && (m.category.Some? ==> m.state == Failed || m.state == RollbackFailed || m.state == RolledBack)
    && (m.state == Failed || m.state == RollbackFailed ==> m.category.Some?)
    && (m.detail.Some? ==> m.category == Some(CategoryOf(m.detail.value)))
    && (m.previousWheel.Some? ==> m.state == Succeeded && Hexadecimal(m.previousWheel.value))
    && (m.rollbackAvailable ==> m.state == Succeeded && m.previousWheel.Some?)
  }

  lemma HexDigits(s: string)
    ensures HexDigest(s) <==> Hexadecimal(s)
  {
    var hex := "0123456789abcdef";
    forall c: char ensures c in hex <==> Digit(c) || 'a' <= c <= 'f' {
      IsHex(c);
    }
    if forall c :: c in s ==> c in hex {
      forall i | 0 <= i < |s| ensures Digit(s[i]) || 'a' <= s[i] <= 'f' {
        assert s[i] in s;
      }
    }
  }

  lemma IsHex(c: char)
    ensures c in "0123456789abcdef" <==> Digit(c) || 'a' <= c <= 'f'
  {
    var hex := "0123456789abcdef";
    if Digit(c) {
      assert hex[c as int - '0' as int] == c;
    } else if 'a' <= c <= 'f' {
      assert hex[10 + (c as int - 'a' as int)] == c;
    }
  }

  lemma SensibleIffWellFormed(m: Message)
    ensures Malformed(m).None? <==> Sensible(m)
  {
    if m.previousWheel.Some? {
      HexDigits(m.previousWheel.value);
    }
    hide HexDigest, CategoryOf, Hexadecimal;
  }

  /** The message moves operation `o` on: it had not ended, progress goes forward, only an upgrade succeeds, and a
      rollback names a failure exactly if it was not asked for. */
  predicate MovesOn(o: Operation, m: Message) {
    && !Ended(o.state)
    && (!Ended(m.state) ==> After(o.state, m.state))
    && (m.state == Succeeded ==> o.action == Upgrade)
    && (m.state == RolledBack ==> (m.category.None? <==> o.action == Rollback))
  }

  /** The message says again what is on record. */
  predicate Repeats(o: Operation, m: Message) {
    && o.state == m.state
    && (Ended(m.state) ==>
          && o.category == m.category && o.detail == m.detail && o.rollbackAvailable == m.rollbackAvailable
          && (m.state == Succeeded ==> o.previousWheel == m.previousWheel))
  }

  lemma OrderIsProgress(earlier: State, later: State)
    requires !Ended(earlier) && !Ended(later)
    ensures After(earlier, later) <==> Progress(earlier) < Progress(later)
  {
    assert ORDER[Progress(earlier)] == earlier && ORDER[Progress(later)] == later;
    assert forall i :: 0 <= i < |ORDER| ==> Progress(ORDER[i]) == i;
  }

  /** Row `e` is row `o` after it took over what message `m` says. */
  predicate TakesOver(o: Operation, e: Operation, m: Message, now: Time) {
    && e.state == m.state && e.updatedAt == now
    && (if Ended(m.state) then e.category == m.category && e.detail == m.detail && e.completedAt == Some(now)
        else e.category == None && e.detail == None && e.completedAt == o.completedAt)
    && (if m.previousWheel.Some? then e.previousWheel == m.previousWheel && e.rollbackAvailable == m.rollbackAvailable
        else e.previousWheel == o.previousWheel && e.rollbackAvailable == o.rollbackAvailable)
  }

  lemma AdvanceTakesOver(o: Operation, m: Message, now: Time)
    requires Malformed(m).None?
    ensures TakesOver(o, Advance(o, m, now), m, now)
  {
  }

  lemma NoObjectionIffMovesOn(o: Operation, m: Message)
    requires o.state != m.state
    ensures Objection(o, m).None? <==> MovesOn(o, m)
  {
    hide Progress, After;
    EndedIsTerminal(o.state);
    EndedIsTerminal(m.state);
    hide Ended, Terminal;
    if !Ended(o.state) && !Ended(m.state) {
      OrderIsProgress(o.state, m.state);
    }
  }

  lemma EndedIsTerminal(state: State)
    ensures Ended(state) <==> Terminal(state)
    ensures Ended(state) <==> state == Failed || state == RollbackFailed || state == Succeeded || state == RolledBack
  {
  }

  /**
   * A report is accepted iff it makes sense, names the operation in the slot, and repeats what is on record or moves
   * the operation on. Then, and only then if it moves it on, the row takes over what it says, and an ending is audited.
   */
  lemma ReportAnswers(s: Slots, d: nat, id: nat, m: Message, now: Time)
    ensures var (v, answer) := Report(s, d, id, m, now);
            var found := d in s.active && s.active[d].id == id;
            && (answer.Ok? <==> Sensible(m) && found && (Repeats(s.active[d], m) || MovesOn(s.active[d], m)))
            && (answer == Err(NotFound) <==> Sensible(m) && !found)
            && (answer.Err? || Repeats(s.active[d], m) ==> v == s)
            && (answer.Ok? && Repeats(s.active[d], m) ==> answer.value == s.active[d])
            && (answer.Ok? && !Repeats(s.active[d], m) ==>
                  && TakesOver(s.active[d], answer.value, m, now)
                  && v == s.(active := s.active[d := answer.value],
                             audits := s.audits + if Ended(m.state) then [Audit(id, d, Lifecycle.Ended(m.state))] else []))
  {
    SensibleIffWellFormed(m);
    NoOtherErrorIsNotFound(m);
    if d in s.active {
      var o := s.active[d];
      RepeatsOrMoves(o, m);
      if Malformed(m).None? {
        AdvanceTakesOver(o, m, now);
      }
      if o.state != m.state {
        NoObjectionIffMovesOn(o, m);
        NoObjectionIsNotFound(o, m);
      }
    }
    hide Malformed, Sensible, Objection, MovesOn, Advance, TakesOver, Repeats, SameResult;
  }

  lemma NoOtherErrorIsNotFound(m: Message)
    ensures Malformed(m) != Some(NotFound)
  {
    hide HexDigest;
  }

  lemma NoObjectionIsNotFound(o: Operation, m: Message)
    ensures Objection(o, m) != Some(NotFound)
  {
    hide Progress;
  }

  lemma RepeatsOrMoves(o: Operation, m: Message)
    ensures Repeats(o, m) <==> o.state == m.state && (Terminal(m.state) ==> SameResult(o, m))
    ensures o.state == m.state ==> !MovesOn(o, m)
  {
  }
}
