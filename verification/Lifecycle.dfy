/** The one lifecycle operation a device may have at a time (server/app/lifecycle/service.py). */
module Lifecycle {
  import opened Prelude

  datatype State =
    | Requested | Downloading | Verifying | Installing | Restarting | VerifyingHealth
    | Succeeded | Failed | RolledBack | RollbackFailed

  datatype Action = Upgrade | Rollback

  datatype Category =
    | VerificationFailed | InstallationFailed | ServiceStartFailed | HealthCheckFailed | RollbackFailure

  datatype Detail =
    | ArchiveDigestMismatch | BundleVerificationFailed | PreviousReleaseMismatch
    | InstallerFailed | InterruptedSwitch | RollbackTargetUnhealthy | PreviousServiceUnhealthy

  function CategoryOf(detail: Detail): Category {
    match detail
    case ArchiveDigestMismatch => VerificationFailed
    case BundleVerificationFailed => VerificationFailed
    case PreviousReleaseMismatch => VerificationFailed
    case InstallerFailed => InstallationFailed
    case InterruptedSwitch => InstallationFailed
    case RollbackTargetUnhealthy => HealthCheckFailed
    case PreviousServiceUnhealthy => RollbackFailure
  }

  predicate Terminal(s: State) {
    s.Succeeded? || s.Failed? || s.RolledBack? || s.RollbackFailed?
  }

  /** Position of an active state in the forward order of progress. */
  function Progress(s: State): nat {
    match s
    case Requested => 0
    case Downloading => 1
    case Verifying => 2
    case Installing => 3
    case Restarting => 4
    case VerifyingHealth => 5
    case _ => 6
  }

  datatype Release = Release(version: string, wheel: string, archive: string)

  datatype Operation = Operation(
    id: nat, device: nat, action: Action, state: State,
    targetVersion: string, targetWheel: string, archive: Option<string>,
    previousVersion: Option<string>, previousWheel: Option<string>, rollbackAvailable: bool,
    category: Option<Category>, detail: Option<Detail>,
    requestedAt: Time, updatedAt: Time, completedAt: Option<Time>)

  datatype AuditKind = UpgradeRequested | RollbackRequested | Ended(state: State)

  datatype Audit = Audit(operation: nat, device: nat, kind: AuditKind)

  /** The slots, the audit trail, the rows deleted so far, and the next fresh operation id. */
  datatype Slots = Slots(active: map<nat, Operation>, audits: seq<Audit>, retired: seq<Operation>, nextId: nat)

  datatype Error = Invalid(reason: string) | NotFound | Conflict(reason: string)

  // ----- versions -----

  predicate Digit(c: char) {
    '0' <= c <= '9'
  }

  /** The number a run of digits names, `None` for anything else. */
  function Number(s: string): Option<nat> {
    if s == [] || !Digit(s[|s| - 1]) then None
    else
      var last := (s[|s| - 1] - '0') as nat;
      if |s| == 1 then Some(last)
      else
        var front := Number(s[..|s| - 1]);
        if front.None? then None else Some(10 * front.value + last)
  }

  function Dots(s: string): seq<string> {
    if s == [] then [[]]
    else
      var rest := Dots(s[1..]);
      if s[0] == '.' then [[]] + rest else [[s[0]] + rest[0]] + rest[1..]
  }

  datatype Triple = Triple(major: nat, minor: nat, patch: nat)

  function ParseVersion(s: Option<string>): Option<Triple> {
    if s.None? then None
    else
      var parts := Dots(s.value);
      if |parts| != 3 then None
      else
        var (a, b, c) := (Number(parts[0]), Number(parts[1]), Number(parts[2]));
        if a.None? || b.None? || c.None? then None else Some(Triple(a.value, b.value, c.value))
  }

  predicate Older(a: Triple, b: Triple) {
    || a.major < b.major
    || (a.major == b.major && a.minor < b.minor)
    || (a.major == b.major && a.minor == b.minor && a.patch < b.patch)
  }

  const FIRST_CAPABLE: Triple := Triple(1, 0, 4)

  // ----- requests -----

  /** Puts a fresh operation into the slot of `d`, deleting the row it replaces. */
  function Replace(s: Slots, d: nat, operation: Operation, kind: AuditKind): Slots {
    Slots(s.active[d := operation],
          s.audits + [Audit(operation.id, d, kind)],
          if d in s.active then s.retired + [s.active[d]] else s.retired,
          s.nextId + 1)
  }

  function RequestUpgrade(s: Slots, d: nat, release: Release, installed: Option<string>, now: Time)
    : (Slots, Result<Operation, Error>)
  {
    var target := ParseVersion(Some(release.version));
    var current := ParseVersion(installed);
    if target.None? then (s, Err(Invalid("Agent release is unavailable.")))
    else if d in s.active && !Terminal(s.active[d].state) then
      if s.active[d].action == Upgrade && s.active[d].targetWheel == release.wheel then (s, Ok(s.active[d]))
      else (s, Err(Conflict("An agent lifecycle operation is active.")))
    else if d in s.active && s.active[d].state == Succeeded && s.active[d].targetWheel == release.wheel then
      (s, Ok(s.active[d]))
    else if current.None? || Older(current.value, FIRST_CAPABLE) || !Older(current.value, target.value) then
      (s, Err(Conflict("Agent upgrade is not available.")))
    else
      var operation := Operation(s.nextId, d, Upgrade, Requested, release.version, release.wheel, Some(release.archive),
                                 installed, None, false, None, None, now, now, None);
      (Replace(s, d, operation, UpgradeRequested), Ok(operation))
  }

  function RequestRollback(s: Slots, d: nat, installed: Option<string>, now: Time): (Slots, Result<Operation, Error>) {
    if d !in s.active || s.active[d].state != Succeeded || !s.active[d].rollbackAvailable
       || s.active[d].previousVersion.None? || s.active[d].previousWheel.None? then
      (s, Err(Conflict("No known-good previous release is available.")))
    else
      var prior := s.active[d];
      if installed != Some(prior.targetVersion) then
        (s, Err(Conflict("Await a heartbeat from the installed release before rollback.")))
      else
        var operation := Operation(s.nextId, d, Rollback, Requested, prior.previousVersion.value, prior.previousWheel.value, None,
                                   Some(prior.targetVersion), Some(prior.targetWheel), false, None, None, now, now, None);
        (Replace(s, d, operation, RollbackRequested), Ok(operation))
  }

  // ----- reports -----

  datatype Message = Message(
    state: State, category: Option<Category>, detail: Option<Detail>,
    previousWheel: Option<string>, rollbackAvailable: bool)

  predicate HexDigest(s: string) {
    |s| == 64 && forall i :: 0 <= i < |s| ==> Digit(s[i]) || 'a' <= s[i] <= 'f'
  }

  /** The checks made before the slot is looked at. */
  function Malformed(m: Message): Option<Error> {
    if m.state.Requested? then Some(Invalid("Invalid lifecycle state."))
    else if m.detail.Some? && m.category.None? then Some(Invalid("Lifecycle failure detail requires a category."))
    else if m.detail.Some? && CategoryOf(m.detail.value) != m.category.value then
      Some(Invalid("Lifecycle failure detail does not match its category."))
    else if (m.state.Failed? || m.state.RollbackFailed?) && m.category.None? then
      Some(Invalid("Lifecycle failure requires a category."))
    else if !(m.state.Failed? || m.state.RollbackFailed? || m.state.RolledBack?) && m.category.Some? then
      Some(Invalid("Lifecycle progress cannot include a failure category."))
    else if m.previousWheel.Some? && !HexDigest(m.previousWheel.value) then Some(Invalid("Invalid previous release digest."))
    else if m.previousWheel.Some? && !m.state.Succeeded? then
      Some(Invalid("Previous release digest requires upgrade success."))
    else if m.rollbackAvailable && (!m.state.Succeeded? || m.previousWheel.None?) then
      Some(Invalid("Rollback availability requires a verified previous release."))
    else None
  }

  predicate SameResult(o: Operation, m: Message) {
    && o.category == m.category && o.detail == m.detail && o.rollbackAvailable == m.rollbackAvailable
    && (m.state.Succeeded? ==> o.previousWheel == m.previousWheel)
  }

  /** The row after a state change that has passed every check. */
  function Advance(o: Operation, m: Message, now: Time): Operation {
    var ended := Terminal(m.state);
    var kept := m.state.Succeeded? && m.previousWheel.Some?;
    o.(state := m.state,
       updatedAt := now,
       category := if ended then m.category else None,
       detail := if ended then m.detail else None,
       completedAt := if ended then Some(now) else o.completedAt,
       previousWheel := if kept then m.previousWheel else o.previousWheel,
       rollbackAvailable := if kept then m.rollbackAvailable else o.rollbackAvailable)
  }

  /** Why a well-formed report cannot change the state of operation `o`. */
  function Objection(o: Operation, m: Message): Option<Error> {
    if Terminal(o.state) then Some(Conflict("Agent lifecycle operation is complete."))
    else if !Terminal(m.state) && Progress(m.state) <= Progress(o.state) then
      Some(Conflict("Agent lifecycle status is out of order."))
    else if m.state.RolledBack? && o.action != Rollback && m.category.None? then
      Some(Invalid("Rollback requires a failure category."))
    else if m.state.Succeeded? && o.action != Upgrade then
      Some(Invalid("Rollback operation cannot report upgrade success."))
    else if m.state.RolledBack? && o.action == Rollback && m.category.Some? then
      Some(Invalid("Operator rollback has no upgrade failure category."))
    else None
  }

  function Report(s: Slots, d: nat, id: nat, m: Message, now: Time): (Slots, Result<Operation, Error>) {
    if Malformed(m).Some? then (s, Err(Malformed(m).value))
    else if d !in s.active || s.active[d].id != id then (s, Err(NotFound))
    else
      var o := s.active[d];
      if o.state == m.state then
        if Terminal(m.state) && !SameResult(o, m) then
          (s, Err(Conflict("Agent lifecycle result differs from the recorded result.")))
        else (s, Ok(o))
      else if Objection(o, m).Some? then (s, Err(Objection(o, m).value))
      else
        var advanced := Advance(o, m, now);
        (s.(active := s.active[d := advanced],
            audits := if Terminal(m.state) then s.audits + [Audit(id, d, Ended(m.state))] else s.audits),
         Ok(advanced))
  }

  // ----- the invariant -----

  /** What holds of every row a slot ever contains. */
  predicate Coherent(o: Operation) {
    && (o.completedAt.Some? <==> Terminal(o.state))
    && (o.action == Rollback ==> o.state != Succeeded && o.archive.None?)
    && (o.action == Upgrade && o.state != Succeeded ==> o.previousWheel.None?)
    && (o.rollbackAvailable ==> o.state == Succeeded && o.action == Upgrade && o.previousWheel.Some?)
    && (o.category.Some? ==> o.state in {Failed, RolledBack, RollbackFailed})
    && (o.detail.Some? ==> o.category == Some(CategoryOf(o.detail.value)))
    && (o.state in {Failed, RollbackFailed} ==> o.category.Some?)
    && (o.state == RolledBack ==> (o.category.None? <==> o.action == Rollback))
  }

  /** How often the trail says operation `id` ended. */
  function Endings(audits: seq<Audit>, id: nat): nat {
    if audits == [] then 0
    else
      var last := audits[|audits| - 1];
      Endings(audits[..|audits| - 1], id) + if last.operation == id && last.kind.Ended? then 1 else 0
  }

  /** A rollback operation undoes exactly the upgrade `u`. */
  predicate Inverts(o: Operation, u: Operation) {
    && u.device == o.device && u.action == Upgrade && u.state == Succeeded && u.rollbackAvailable
    && u.previousVersion == Some(o.targetVersion) && u.previousWheel == Some(o.targetWheel)
    && o.previousVersion == Some(u.targetVersion) && o.previousWheel == Some(u.targetWheel)
  }

  ghost predicate InvertsRetired(s: Slots, o: Operation) {
    exists i :: 0 <= i < |s.retired| && Inverts(o, s.retired[i])
  }

  /** Rows are well formed, ids are unique, and only finished rows were ever deleted. */
  ghost predicate Rows(s: Slots) {
    && (forall d :: d in s.active ==> Coherent(s.active[d]) && s.active[d].device == d && s.active[d].id < s.nextId)
    && (forall i :: 0 <= i < |s.retired| ==>
          Coherent(s.retired[i]) && Terminal(s.retired[i].state) && s.retired[i].id < s.nextId)
    && (forall d, e :: d in s.active && e in s.active && d != e ==> s.active[d].id != s.active[e].id)
    && (forall d, i :: d in s.active && 0 <= i < |s.retired| ==> s.active[d].id != s.retired[i].id)
  }

  /** Every rollback ever requested inverts a succeeded upgrade that the slot held before it. */
  ghost predicate Rollbacks(s: Slots) {
    && (forall d :: d in s.active && s.active[d].action == Rollback ==> InvertsRetired(s, s.active[d]))
    && (forall i :: 0 <= i < |s.retired| && s.retired[i].action == Rollback ==> InvertsRetired(s, s.retired[i]))
  }

  /** An operation has exactly one ending on record if it is terminal, and none otherwise. */
  ghost predicate Audited(s: Slots) {
    && (forall d :: d in s.active ==> Endings(s.audits, s.active[d].id) == if Terminal(s.active[d].state) then 1 else 0)
    && (forall i :: 0 <= i < |s.retired| ==> Endings(s.audits, s.retired[i].id) == 1)
    && (forall id :: id >= s.nextId ==> Endings(s.audits, id) == 0)
  }

  ghost predicate Valid(s: Slots) {
    Rows(s) && Rollbacks(s) && Audited(s)
  }

  // ----- one step -----

  /** The same operation, later: everything pinned at request time is kept, progress only moves forward. */
  predicate Moves(before: Operation, after: Operation) {
    && after.id == before.id && after.device == before.device && after.action == before.action && after.archive == before.archive
    && after.targetVersion == before.targetVersion && after.targetWheel == before.targetWheel
    && after.previousVersion == before.previousVersion && after.requestedAt == before.requestedAt
    && Progress(before.state) <= Progress(after.state)
    && (Terminal(before.state) ==> after == before)
  }

  /** Nothing is forgotten, and a slot moves its operation forward or replaces a finished one by a newer one. */
  ghost predicate Extends(s: Slots, v: Slots) {
    && s.audits <= v.audits && s.retired <= v.retired && s.nextId <= v.nextId
    && (forall d :: d in s.active ==>
          && d in v.active
          && (|| Moves(s.active[d], v.active[d])
              || (Terminal(s.active[d].state) && s.active[d] in v.retired && v.active[d].id >= s.nextId)))
  }

  lemma EndingsAfterAppend(audits: seq<Audit>, added: Audit, id: nat)
    ensures Endings(audits + [added], id) ==
            Endings(audits, id) + if added.operation == id && added.kind.Ended? then 1 else 0
  {
    assert (audits + [added])[..|audits|] == audits;
  }

  /** A row that only takes over the pinned fields still inverts the same upgrade. */
  lemma InversionIsKept(s: Slots, v: Slots, before: Operation, after: Operation)
    requires s.retired <= v.retired && InvertsRetired(s, before) && before.action == Rollback
    requires after.device == before.device
    requires after.targetVersion == before.targetVersion && after.targetWheel == before.targetWheel
    requires after.previousVersion == before.previousVersion && after.previousWheel == before.previousWheel
    ensures InvertsRetired(v, after)
  {
    var i :| 0 <= i < |s.retired| && Inverts(before, s.retired[i]);
    assert Inverts(after, v.retired[i]);
  }

  lemma ReplaceKeepsRows(s: Slots, d: nat, o: Operation, kind: AuditKind)
    requires Rows(s) && (d in s.active ==> Terminal(s.active[d].state))
    requires Coherent(o) && o.id == s.nextId && o.device == d
    ensures Rows(Replace(s, d, o, kind)) && Extends(s, Replace(s, d, o, kind))
  {
    hide Coherent;
    var v := Replace(s, d, o, kind);
    assert d in s.active ==> v.retired[|s.retired|] == s.active[d];
  }

  lemma ReplaceKeepsRollbacks(s: Slots, d: nat, o: Operation, kind: AuditKind)
    requires Rollbacks(s)
    requires o.action == Rollback ==> d in s.active && Inverts(o, s.active[d])
    ensures Rollbacks(Replace(s, d, o, kind))
  {
    hide Inverts, InvertsRetired;
    var v := Replace(s, d, o, kind);
    forall e | e in v.active && v.active[e].action == Rollback ensures InvertsRetired(v, v.active[e]) {
      if e == d {
        InvertsReplaced(s, d, o, kind);
      } else {
        InversionIsKept(s, v, s.active[e], s.active[e]);
      }
    }
    forall i | 0 <= i < |v.retired| && v.retired[i].action == Rollback ensures InvertsRetired(v, v.retired[i]) {
      InversionIsKept(s, v, v.retired[i], v.retired[i]);
    }
  }

  lemma InvertsReplaced(s: Slots, d: nat, o: Operation, kind: AuditKind)
    requires d in s.active && Inverts(o, s.active[d])
    ensures InvertsRetired(Replace(s, d, o, kind), o)
  {
    assert Inverts(o, Replace(s, d, o, kind).retired[|s.retired|]);
  }

  lemma ReplaceKeepsAudited(s: Slots, d: nat, o: Operation, kind: AuditKind)
    requires Audited(s) && (d in s.active ==> Terminal(s.active[d].state))
    requires o.id == s.nextId && o.state == Requested && !kind.Ended?
    ensures Audited(Replace(s, d, o, kind))
  {
    var v := Replace(s, d, o, kind);
    forall id: nat ensures Endings(v.audits, id) == Endings(s.audits, id) {
      EndingsAfterAppend(s.audits, Audit(o.id, d, kind), id);
    }
  }

  lemma ReplaceKeepsValid(s: Slots, d: nat, o: Operation, kind: AuditKind)
    requires Valid(s) && (d in s.active ==> Terminal(s.active[d].state))
    requires Coherent(o) && o.id == s.nextId && o.device == d && o.state == Requested && !kind.Ended?
    requires o.action == Rollback ==> d in s.active && Inverts(o, s.active[d])
    ensures Valid(Replace(s, d, o, kind)) && Extends(s, Replace(s, d, o, kind))
  {
    ReplaceKeepsRows(s, d, o, kind);
    ReplaceKeepsRollbacks(s, d, o, kind);
    ReplaceKeepsAudited(s, d, o, kind);
  }

  lemma SameExtends(s: Slots)
    ensures Extends(s, s)
  {
  }

  lemma RequestUpgradeKeepsValid(s: Slots, d: nat, release: Release, installed: Option<string>, now: Time)
    requires Valid(s)
    ensures var v := RequestUpgrade(s, d, release, installed, now).0; Valid(v) && Extends(s, v)
  {
    hide ParseVersion, Older, Extends, Valid;
    var (v, r) := RequestUpgrade(s, d, release, installed, now);
    if v == s {
      SameExtends(s);
    } else {
      ReplaceKeepsValid(s, d, r.value, UpgradeRequested);
    }
  }

  lemma RequestRollbackKeepsValid(s: Slots, d: nat, installed: Option<string>, now: Time)
    requires Valid(s)
    ensures var v := RequestRollback(s, d, installed, now).0; Valid(v) && Extends(s, v)
  {
    hide Extends, Rollbacks, Audited;
    var (v, r) := RequestRollback(s, d, installed, now);
    if v == s {
      SameExtends(s);
    } else {
      ReplaceKeepsValid(s, d, r.value, RollbackRequested);
    }
  }

  /** What an accepted change of state does to the row. */
  lemma AdvanceIsForward(o: Operation, m: Message, now: Time)
    requires Coherent(o) && Malformed(m).None? && o.state != m.state && Objection(o, m).None?
    ensures Coherent(Advance(o, m, now)) && Moves(o, Advance(o, m, now)) && !Terminal(o.state)
    ensures o.action == Rollback ==> Advance(o, m, now).previousWheel == o.previousWheel
  {
  }

  /** Writes an advanced row back, with its audit record when it has ended. */
  function Settle(s: Slots, d: nat, o: Operation): Slots {
    s.(active := s.active[d := o],
       audits := if Terminal(o.state) then s.audits + [Audit(o.id, d, Ended(o.state))] else s.audits)
  }

  lemma SettleKeepsRows(s: Slots, d: nat, o: Operation)
    requires Rows(s) && d in s.active && Coherent(o) && Moves(s.active[d], o)
    ensures Rows(Settle(s, d, o)) && Extends(s, Settle(s, d, o))
  {
    hide Coherent;
  }

  lemma SettleKeepsRollbacks(s: Slots, d: nat, o: Operation)
    requires Rollbacks(s) && d in s.active && Moves(s.active[d], o)
    requires o.action == Rollback ==> o.previousWheel == s.active[d].previousWheel
    ensures Rollbacks(Settle(s, d, o))
  {
    hide Inverts, InvertsRetired;
    var v := Settle(s, d, o);
    forall e | e in v.active && v.active[e].action == Rollback ensures InvertsRetired(v, v.active[e]) {
      InversionIsKept(s, v, s.active[e], v.active[e]);
    }
    forall i | 0 <= i < |v.retired| && v.retired[i].action == Rollback ensures InvertsRetired(v, v.retired[i]) {
      InversionIsKept(s, v, v.retired[i], v.retired[i]);
    }
  }

  lemma SettleKeepsAudited(s: Slots, d: nat, o: Operation)
    requires Rows(s) && Audited(s) && d in s.active && o.id == s.active[d].id && !Terminal(s.active[d].state)
    ensures Audited(Settle(s, d, o))
  {
    hide Coherent;
    var v := Settle(s, d, o);
    forall id: nat ensures Endings(v.audits, id) ==
                           Endings(s.audits, id) + (if Terminal(o.state) && id == o.id then 1 else 0) {
      EndingsAfterAppend(s.audits, Audit(o.id, d, Ended(o.state)), id);
    }
  }

  lemma ReportKeepsValid(s: Slots, d: nat, id: nat, m: Message, now: Time)
    requires Valid(s)
    ensures var v := Report(s, d, id, m, now).0; Valid(v) && Extends(s, v)
  {
    hide Extends, Rollbacks, Audited, Malformed, Objection, Coherent, Moves, SameResult;
    var v := Report(s, d, id, m, now).0;
    if v == s {
      SameExtends(s);
    } else {
      var o := Advance(s.active[d], m, now);
      AdvanceIsForward(s.active[d], m, now);
      assert v == Settle(s, d, o);
      SettleKeepsRows(s, d, o);
      SettleKeepsRollbacks(s, d, o);
      SettleKeepsAudited(s, d, o);
    }
  }

  // ----- runs -----

  datatype Step =
    | AskUpgrade(device: nat, release: Release, installed: Option<string>, now: Time)
    | AskRollback(device: nat, installed: Option<string>, now: Time)
    | Tell(device: nat, id: nat, message: Message, now: Time)

  function Apply(s: Slots, step: Step): Slots {
    match step
    case AskUpgrade(d, release, installed, now) => RequestUpgrade(s, d, release, installed, now).0
    case AskRollback(d, installed, now) => RequestRollback(s, d, installed, now).0
    case Tell(d, id, m, now) => Report(s, d, id, m, now).0
  }

  function Run(s: Slots, run: seq<Step>): Slots
    decreases |run|
  {
    if run == [] then s else Run(Apply(s, run[0]), run[1..])
  }

  function Empty(): Slots {
    Slots(map[], [], [], 0)
  }

  lemma ApplyKeepsValid(s: Slots, step: Step)
    requires Valid(s)
    ensures Valid(Apply(s, step)) && Extends(s, Apply(s, step))
  {
    hide Valid, Extends, RequestUpgrade, RequestRollback, Report;
    match step {
      case AskUpgrade(d, release, installed, now) => RequestUpgradeKeepsValid(s, d, release, installed, now);
      case AskRollback(d, installed, now) => RequestRollbackKeepsValid(s, d, installed, now);
      case Tell(d, id, m, now) => ReportKeepsValid(s, d, id, m, now);
    }
  }

  /** Where the row `o` of device `d` is later: still in the slot and further on, or ended and then replaced. */
  ghost predicate Survives(o: Operation, d: nat, v: Slots) {
    || (d in v.active && Moves(o, v.active[d]))
    || exists i :: 0 <= i < |v.retired| && Moves(o, v.retired[i]) && Terminal(v.retired[i].state)
  }

  lemma SurvivesEarlier(o: Operation, later: Operation, d: nat, v: Slots)
    requires Moves(o, later) && Survives(later, d, v)
    ensures Survives(o, d, v)
  {
    if d in v.active && Moves(later, v.active[d]) {
      assert Moves(o, v.active[d]);
    } else {
      var i :| 0 <= i < |v.retired| && Moves(later, v.retired[i]) && Terminal(v.retired[i].state);
      assert Moves(o, v.retired[i]);
    }
  }

  /** After any run the invariant holds, the trail has only grown, and every row is further on or was finished. */
  lemma {:induction false} RunKeepsEverything(s: Slots, run: seq<Step>)
    requires Valid(s)
    ensures Valid(Run(s, run)) && s.audits <= Run(s, run).audits && s.retired <= Run(s, run).retired
    ensures forall d :: d in s.active ==> Survives(s.active[d], d, Run(s, run))
    decreases |run|
  {
    hide Valid, Apply;
    var v := Run(s, run);
    if run == [] {
      assert forall d :: d in s.active ==> Moves(s.active[d], v.active[d]);
    } else {
      var next := Apply(s, run[0]);
      ApplyKeepsValid(s, run[0]);
      RunKeepsEverything(next, run[1..]);
      hide Moves, Survives, Run;
      forall d | d in s.active ensures Survives(s.active[d], d, v) {
        if Moves(s.active[d], next.active[d]) {
          SurvivesEarlier(s.active[d], next.active[d], d, v);
        } else {
          SurvivesInArchive(s.active[d], d, next, v);
        }
      }
    }
  }

  lemma SurvivesInArchive(o: Operation, d: nat, next: Slots, v: Slots)
    requires Terminal(o.state) && o in next.retired && next.retired <= v.retired
    ensures Survives(o, d, v)
  {
    var i :| 0 <= i < |next.retired| && next.retired[i] == o;
    assert Moves(o, v.retired[i]);
  }

  lemma EmptyIsValid()
    ensures Valid(Empty())
  {
  }

  /**
   * Slot safety over any run from the empty table: an operation that was active at some point is later either
   * still in its slot, with the target it was pinned to and no earlier in its progress, or it has ended with
   * exactly one ending on record.
   */
  lemma ActiveIsNeverReplaced(run: seq<Step>, later: seq<Step>, d: nat)
    requires d in Run(Empty(), run).active
    ensures var o := Run(Empty(), run).active[d];
            var v := Run(Run(Empty(), run), later);
            && d in v.active
            && (v.active[d].id == o.id ==>
                  && Moves(o, v.active[d])
                  && Endings(v.audits, o.id) == if Terminal(v.active[d].state) then 1 else 0)
            && (v.active[d].id != o.id ==> Endings(v.audits, o.id) == 1)
  {
    EmptyIsValid();
    RunKeepsEverything(Empty(), run);
    var s := Run(Empty(), run);
    RunKeepsEverything(s, later);
    SlotsStayOccupied(s, later, d);
    var o, v := s.active[d], Run(s, later);
    hide Endings, Coherent, Rollbacks, Run;
    if d in v.active && Moves(o, v.active[d]) {
    } else {
      var i :| 0 <= i < |v.retired| && Moves(o, v.retired[i]) && Terminal(v.retired[i].state);
      assert v.retired[i].id == o.id;
    }
  }

  lemma {:induction false} SlotsStayOccupied(s: Slots, run: seq<Step>, d: nat)
    requires Valid(s) && d in s.active
    ensures d in Run(s, run).active
    decreases |run|
  {
    hide Valid, Apply;
    if run == [] {
    } else {
      ApplyKeepsValid(s, run[0]);
      SlotsStayOccupied(Apply(s, run[0]), run[1..], d);
    }
  }

  /** Over any run, a rollback in a slot inverts the version and digest pair of an upgrade that succeeded there. */
  lemma RollbackInvertsAnUpgrade(run: seq<Step>, d: nat)
    requires d in Run(Empty(), run).active && Run(Empty(), run).active[d].action == Rollback
    ensures var s := Run(Empty(), run);
            exists i :: 0 <= i < |s.retired| && Inverts(s.active[d], s.retired[i])
                        && Endings(s.audits, s.retired[i].id) == 1
  {
    EmptyIsValid();
    RunKeepsEverything(Empty(), run);
    hide Run, Inverts, Endings;
    var s := Run(Empty(), run);
    var i :| 0 <= i < |s.retired| && Inverts(s.active[d], s.retired[i]);
    assert Endings(s.audits, s.retired[i].id) == 1;
  }
}
