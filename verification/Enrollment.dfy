/** Enrollment authorizations and the credentials they issue (server/app/enrollment/service.py). */
module Enrollment {
  import opened Prelude
  import opened Credentials

  datatype Mode = New | Replace(device: nat)

  /** A one-time authorization; `secret` stands for the digest of its token. */
  datatype Intent = Intent(mode: Mode, secret: nat, createdAt: Time, expiresAt: Time, usedAt: Option<Time>, issued: Option<nat>)

  /** A credential that an exchange handed out: its device and its place among the credentials of that device. */
  datatype Grant = Grant(intent: nat, device: nat, place: nat)

  /** The tables. `revoked` and `deleted` are the intents with such an audit record; `grants` is the history of exchanges. */
  datatype Registry = Registry(
    devices: seq<seq<Credential>>, intents: seq<Intent>, revoked: set<nat>, deleted: set<nat>, grants: seq<Grant>)

  const LIFETIME: Time := 24 * HOUR

  datatype Status = Pending | Enrolled | Expired | Revoked

  function StatusOf(s: Registry, id: nat, now: Time): Status
    requires id < |s.intents|
  {
    if s.intents[id].usedAt.Some? then Enrolled
    else if id in s.revoked then Revoked
    else if s.intents[id].expiresAt <= now then Expired
    else Pending
  }

  // ----- devices -----

  function Enroll(s: Registry, projectActive: bool, expiry: Option<Time>, now: Time): (Registry, Result<nat, Error>) {
    if !projectActive then (s, Err(ProjectInactive))
    else
      match First(expiry, now)
      case Err(error) => (s, Err(error))
      case Ok(credentials) => (s.(devices := s.devices + [credentials]), Ok(|s.devices|))
  }

  function RotateDevice(s: Registry, d: nat, overlap: int, expiry: Option<Time>, now: Time): (Registry, Result<nat, Error>) {
    if !(1 <= overlap <= 24) then (s, Err(InvalidOverlap))
    else if d >= |s.devices| then (s, Err(NotFound))
    else
      match Rotate(s.devices[d], overlap, expiry, now)
      case Err(error) => (s, Err(error))
      case Ok(credentials) => (s.(devices := s.devices[d := credentials]), Ok(d))
  }

  function RevokeCredential(s: Registry, d: nat, i: nat, now: Time): (Registry, Result<nat, Error>) {
    if d >= |s.devices| then (s, Err(NotFound))
    else
      match Revoke(s.devices[d], i, now)
      case Err(error) => (s, Err(error))
      case Ok(credentials) => (s.(devices := s.devices[d := credentials]), Ok(d))
  }

  // ----- intents -----

  function CreateIntent(s: Registry, mode: Mode, secret: nat, projectActive: bool, now: Time): (Registry, Result<nat, Error>) {
    if mode.New? && !projectActive then (s, Err(ProjectInactive))
    else if mode.Replace? && mode.device >= |s.devices| then (s, Err(NotFound))
    else
      (s.(intents := s.intents + [Intent(mode, secret, now, now + LIFETIME, None, None)]), Ok(|s.intents|))
  }

  /** The credential part of an exchange, inside its transaction. */
  function Issue(s: Registry, mode: Mode, projectActive: bool, now: Time): (Registry, Result<nat, Error>) {
    match mode
    case New => Enroll(s, projectActive, None, now)
    case Replace(device) => RotateDevice(s, device, 1, None, now)
  }

  function Exchange(s: Registry, id: nat, secret: nat, expected: Option<nat>, projectActive: bool, now: Time)
    : (Registry, Result<nat, Error>)
  {
    if id >= |s.intents| || s.intents[id].secret != secret then (s, Err(Rejected))
    else
      var intent := s.intents[id];
      if expected.Some? && intent.mode != Replace(expected.value) then (s, Err(Rejected))
      else if intent.usedAt.Some? || intent.expiresAt <= now then (s, Err(Rejected))
      else
        var (issued, answer) := Issue(s, intent.mode, projectActive, now);
        match answer
        case Err(error) => (s, Err(error))
        case Ok(device) =>
          (issued.(intents := s.intents[id := intent.(usedAt := Some(now), issued := Some(device))],
                   grants := s.grants + [Grant(id, device, LastPlace(issued, device))]),
           Ok(device))
  }

  function LastPlace(s: Registry, device: nat): nat {
    if device < |s.devices| && s.devices[device] != [] then |s.devices[device]| - 1 else 0
  }

  function RevokeUnused(s: Registry, id: nat, now: Time): (Registry, Result<nat, Error>) {
    if id >= |s.intents| then (s, Err(NotFound))
    else if s.intents[id].usedAt.Some? then (s, Err(AlreadyUsed))
    else if s.intents[id].expiresAt <= now then (s, Err(NoLongerValid))
    else (s.(intents := s.intents[id := s.intents[id].(expiresAt := now)], revoked := s.revoked + {id}), Ok(id))
  }

  function DeleteUnused(s: Registry, id: nat, now: Time): (Registry, Result<nat, Error>) {
    if id >= |s.intents| then (s, Err(NotFound))
    else if s.intents[id].usedAt.Some? then (s, Err(AlreadyUsed))
    else
      var ended := if id !in s.revoked && s.intents[id].expiresAt > now
                   then s.intents[id := s.intents[id].(expiresAt := now)] else s.intents;
      (s.(intents := ended, revoked := s.revoked + {id}, deleted := s.deleted + {id}), Ok(id))
  }

  // ----- the invariant -----

  ghost predicate DevicesValid(s: Registry, clock: Time) {
    forall d :: 0 <= d < |s.devices| ==> s.devices[d] != [] && Credentials.Valid(s.devices[d], clock)
  }

  ghost predicate IntentsValid(s: Registry, clock: Time) {
    && (forall id :: 0 <= id < |s.intents| ==>
          var intent := s.intents[id];
          && intent.createdAt <= clock && intent.expiresAt <= intent.createdAt + LIFETIME
          && (intent.mode.Replace? ==> intent.mode.device < |s.devices|)
          && (intent.usedAt.Some? ==> intent.usedAt.value < intent.expiresAt && id !in s.revoked)
          && (intent.usedAt.Some? <==> intent.issued.Some?)
          && (id in s.revoked ==> intent.expiresAt <= clock))
    && s.deleted <= s.revoked
    && forall id :: id in s.revoked ==> id < |s.intents|
  }

  /** Every used intent has handed out one credential, and no credential was handed out by two. */
  ghost predicate GrantsValid(s: Registry) {
    && (forall g :: 0 <= g < |s.grants| ==>
          var grant := s.grants[g];
          && grant.intent < |s.intents| && s.intents[grant.intent].issued == Some(grant.device)
          && grant.device < |s.devices| && grant.place < |s.devices[grant.device]|)
    && (forall g, h :: 0 <= g < h < |s.grants| ==>
          && s.grants[g].intent != s.grants[h].intent
          && (s.grants[g].device, s.grants[g].place) != (s.grants[h].device, s.grants[h].place))
    && (forall id :: 0 <= id < |s.intents| && s.intents[id].usedAt.Some? ==> HasGrant(s, id))
  }

  ghost predicate HasGrant(s: Registry, id: nat) {
    exists g :: 0 <= g < |s.grants| && s.grants[g].intent == id
  }

  ghost predicate Valid(s: Registry, clock: Time) {
    DevicesValid(s, clock) && IntentsValid(s, clock) && GrantsValid(s)
  }

  /** Devices, credentials, intents and grants are only ever added; nothing that has ended comes back. */
  ghost predicate Extends(s: Registry, v: Registry) {
    && |s.devices| <= |v.devices| && (forall d :: 0 <= d < |s.devices| ==> Ages(s.devices[d], v.devices[d]))
    && |s.intents| <= |v.intents|
    && (forall id :: 0 <= id < |s.intents| ==>
          && v.intents[id].mode == s.intents[id].mode && v.intents[id].expiresAt <= s.intents[id].expiresAt
          && (s.intents[id].usedAt.Some? ==> v.intents[id] == s.intents[id]))
    && s.revoked <= v.revoked && s.grants <= v.grants
  }

  // ----- each step keeps it -----

  /** A change of the credentials of one device, or one more device. */
  ghost predicate DeviceStep(s: Registry, v: Registry) {
    && v == s.(devices := v.devices)
    && |s.devices| <= |v.devices| && forall d :: 0 <= d < |s.devices| ==> Ages(s.devices[d], v.devices[d])
  }

  lemma DeviceStepKeeps(s: Registry, v: Registry, clock: Time, now: Time)
    requires Valid(s, clock) && clock <= now && DeviceStep(s, v) && DevicesValid(v, now)
    ensures Valid(v, now) && Extends(s, v)
  {
    hide Credentials.Valid, DevicesValid, Shortened;
    forall id | 0 <= id < |v.intents| && v.intents[id].usedAt.Some? ensures HasGrant(v, id) {
      assert HasGrant(s, id);
      var g :| 0 <= g < |s.grants| && s.grants[g].intent == id;
      assert v.grants[g].intent == id;
    }
  }

  lemma DevicesLater(s: Registry, clock: Time, now: Time)
    requires DevicesValid(s, clock) && clock <= now
    ensures DevicesValid(s, now)
  {
    forall d | 0 <= d < |s.devices| ensures Credentials.Valid(s.devices[d], now) {
      ValidLater(s.devices[d], clock, now);
    }
  }

  lemma AllAge(s: Registry)
    ensures forall d :: 0 <= d < |s.devices| ==> Ages(s.devices[d], s.devices[d])
  {
  }

  lemma EnrollIsDeviceStep(s: Registry, projectActive: bool, expiry: Option<Time>, now: Time, clock: Time)
    requires DevicesValid(s, clock) && clock <= now
    ensures var v := Enroll(s, projectActive, expiry, now).0; DeviceStep(s, v) && DevicesValid(v, now)
  {
    DevicesLater(s, clock, now);
    AllAge(s);
    if projectActive && First(expiry, now).Ok? {
      FirstIsValid(expiry, now);
    }
    hide Credentials.Valid, Ages;
  }

  lemma RotateIsDeviceStep(s: Registry, d: nat, overlap: int, expiry: Option<Time>, now: Time, clock: Time)
    requires DevicesValid(s, clock) && clock <= now
    ensures var v := RotateDevice(s, d, overlap, expiry, now).0; DeviceStep(s, v) && DevicesValid(v, now)
  {
    DevicesLater(s, clock, now);
    AllAge(s);
    if d < |s.devices| && Rotate(s.devices[d], overlap, expiry, now).Ok? {
      RotateKeepsValid(s.devices[d], overlap, expiry, now, clock);
    }
    hide Credentials.Valid, Ages;
  }

  lemma RevokeIsDeviceStep(s: Registry, d: nat, i: nat, now: Time, clock: Time)
    requires DevicesValid(s, clock) && clock <= now
    ensures var v := RevokeCredential(s, d, i, now).0; DeviceStep(s, v) && DevicesValid(v, now)
  {
    DevicesLater(s, clock, now);
    AllAge(s);
    if d < |s.devices| && Revoke(s.devices[d], i, now).Ok? {
      RevokeKeepsValid(s.devices[d], i, now, clock);
    }
    hide Credentials.Valid, Ages;
  }

  /** A change of unused intents only. */
  lemma IntentStepKeeps(s: Registry, v: Registry, clock: Time, now: Time)
    requires Valid(s, clock) && clock <= now
    requires v.devices == s.devices && v.grants == s.grants && |s.intents| <= |v.intents| && s.revoked <= v.revoked
    requires IntentsValid(v, now)
    requires forall id :: 0 <= id < |s.intents| ==>
               && v.intents[id].mode == s.intents[id].mode && v.intents[id].expiresAt <= s.intents[id].expiresAt
               && v.intents[id].usedAt == s.intents[id].usedAt && v.intents[id].issued == s.intents[id].issued
               && (s.intents[id].usedAt.Some? ==> v.intents[id] == s.intents[id])
    requires forall id :: |s.intents| <= id < |v.intents| ==> v.intents[id].usedAt.None?
    ensures Valid(v, now) && Extends(s, v)
  {
    hide Credentials.Valid, IntentsValid;
    DevicesLater(s, clock, now);
    AllAge(s);
    hide DevicesValid, Ages;
    forall id | 0 <= id < |v.intents| && v.intents[id].usedAt.Some? ensures HasGrant(v, id) {
      assert HasGrant(s, id);
      var g :| 0 <= g < |s.grants| && s.grants[g].intent == id;
      assert v.grants[g].intent == id;
    }
  }

  lemma CreateIntentKeeps(s: Registry, mode: Mode, secret: nat, projectActive: bool, now: Time, clock: Time)
    requires Valid(s, clock) && clock <= now
    ensures var v := CreateIntent(s, mode, secret, projectActive, now).0; Valid(v, now) && Extends(s, v)
  {
    hide DevicesValid, GrantsValid, Extends;
    IntentStepKeeps(s, CreateIntent(s, mode, secret, projectActive, now).0, clock, now);
  }

  lemma RevokeUnusedKeeps(s: Registry, id: nat, now: Time, clock: Time)
    requires Valid(s, clock) && clock <= now
    ensures var v := RevokeUnused(s, id, now).0; Valid(v, now) && Extends(s, v)
  {
    hide DevicesValid, GrantsValid, Extends;
    IntentStepKeeps(s, RevokeUnused(s, id, now).0, clock, now);
  }

  lemma DeleteUnusedKeeps(s: Registry, id: nat, now: Time, clock: Time)
    requires Valid(s, clock) && clock <= now
    ensures var v := DeleteUnused(s, id, now).0; Valid(v, now) && Extends(s, v)
  {
    hide DevicesValid, GrantsValid, Extends;
    IntentStepKeeps(s, DeleteUnused(s, id, now).0, clock, now);
  }

  /** What an exchange issues is a new credential, in last place on its device. */
  lemma IssueAppends(s: Registry, mode: Mode, projectActive: bool, now: Time, clock: Time)
    requires DevicesValid(s, clock) && clock <= now && Issue(s, mode, projectActive, now).1.Ok?
    ensures var (v, answer) := Issue(s, mode, projectActive, now);
            var (d, place) := (answer.value, LastPlace(v, answer.value));
            && DeviceStep(s, v) && DevicesValid(v, now)
            && d < |v.devices| && place < |v.devices[d]| && Active(v.devices[d][place], now)
            && (mode.New? ==> d == |s.devices|)
            && (mode.Replace? ==> d == mode.device && d < |s.devices| && place == |s.devices[d]|)
  {
    hide Credentials.Valid, Ages;
    match mode {
      case New =>
        EnrollIsDeviceStep(s, projectActive, None, now, clock);
      case Replace(device) =>
        RotateIsDeviceStep(s, device, 1, None, now, clock);
    }
  }

  /** Records an exchange that issued credential `place` of `device`. */
  function Record(s: Registry, id: nat, device: nat, place: nat, now: Time): Registry
    requires id < |s.intents|
  {
    s.(intents := s.intents[id := s.intents[id].(usedAt := Some(now), issued := Some(device))],
       grants := s.grants + [Grant(id, device, place)])
  }

  lemma RecordKeepsGrants(s: Registry, id: nat, device: nat, place: nat, now: Time)
    requires GrantsValid(s) && id < |s.intents| && s.intents[id].usedAt.None? && s.intents[id].issued.None?
    requires device < |s.devices| && place < |s.devices[device]|
    requires forall g :: 0 <= g < |s.grants| ==> (s.grants[g].device, s.grants[g].place) != (device, place)
    ensures GrantsValid(Record(s, id, device, place, now))
  {
    var v := Record(s, id, device, place, now);
    var n := |s.grants|;
    forall g | 0 <= g < n ensures v.grants[g] == s.grants[g] && s.grants[g].intent != id {
      assert s.intents[s.grants[g].intent].issued == Some(s.grants[g].device);
    }
    forall other | 0 <= other < |v.intents| && v.intents[other].usedAt.Some? ensures HasGrant(v, other) {
      if other == id {
        assert v.grants[n].intent == id;
      } else {
        assert HasGrant(s, other);
        var g :| 0 <= g < |s.grants| && s.grants[g].intent == other;
        assert v.grants[g].intent == other;
      }
    }
  }

  lemma RecordKeepsIntents(s: Registry, id: nat, device: nat, place: nat, now: Time)
    requires IntentsValid(s, now) && id < |s.intents| && s.intents[id].usedAt.None? && now < s.intents[id].expiresAt
    ensures IntentsValid(Record(s, id, device, place, now), now)
  {
  }

  /** The grants so far name other credentials than the one just issued. */
  lemma IssuedIsNew(s: Registry, v: Registry, clock: Time, mode: Mode, projectActive: bool, now: Time)
    requires Valid(s, clock) && clock <= now && Issue(s, mode, projectActive, now).1.Ok?
    requires v == Issue(s, mode, projectActive, now).0
    ensures var d := Issue(s, mode, projectActive, now).1.value;
            forall g :: 0 <= g < |s.grants| ==> (s.grants[g].device, s.grants[g].place) != (d, LastPlace(v, d))
  {
    IssueAppends(s, mode, projectActive, now, clock);
    hide Issue, DevicesValid, IntentsValid, DeviceStep, LastPlace;
  }

  lemma ExchangeKeeps(
    s: Registry, id: nat, secret: nat, expected: Option<nat>, projectActive: bool, now: Time, clock: Time)
    requires Valid(s, clock) && clock <= now
    ensures var v := Exchange(s, id, secret, expected, projectActive, now).0; Valid(v, now) && Extends(s, v)
  {
    hide Issue, LastPlace, DevicesValid, GrantsValid, Ages;
    var (v, answer) := Exchange(s, id, secret, expected, projectActive, now);
    if answer.Ok? {
      var mode, d := s.intents[id].mode, answer.value;
      var issued := Issue(s, mode, projectActive, now).0;
      IssueAppends(s, mode, projectActive, now, clock);
      IssuedIsNew(s, issued, clock, mode, projectActive, now);
      DeviceStepKeeps(s, issued, clock, now);
      RecordKeepsGrants(issued, id, d, LastPlace(issued, d), now);
      RecordKeepsIntents(issued, id, d, LastPlace(issued, d), now);
      assert v == Record(issued, id, d, LastPlace(issued, d), now);
      SameDevicesValid(issued, v, now);
    } else {
      AllAge(s);
      DevicesLater(s, clock, now);
    }
  }

  lemma SameDevicesValid(s: Registry, v: Registry, now: Time)
    requires DevicesValid(s, now) && v.devices == s.devices
    ensures DevicesValid(v, now)
  {
  }

  // ----- runs -----

  datatype Step =
    | Enrolling(projectActive: bool, expiry: Option<Time>, now: Time)
    | Rotating(device: nat, overlap: int, expiry: Option<Time>, now: Time)
    | RevokingCredential(device: nat, place: nat, now: Time)
    | Creating(mode: Mode, secret: nat, projectActive: bool, now: Time)
    | Exchanging(id: nat, secret: nat, expected: Option<nat>, projectActive: bool, now: Time)
    | RevokingIntent(id: nat, now: Time)
    | DeletingIntent(id: nat, now: Time)

  function Apply(s: Registry, step: Step): Registry {
    match step
    case Enrolling(projectActive, expiry, now) => Enroll(s, projectActive, expiry, now).0
    case Rotating(device, overlap, expiry, now) => RotateDevice(s, device, overlap, expiry, now).0
    case RevokingCredential(device, place, now) => RevokeCredential(s, device, place, now).0
    case Creating(mode, secret, projectActive, now) => CreateIntent(s, mode, secret, projectActive, now).0
    case Exchanging(id, secret, expected, projectActive, now) => Exchange(s, id, secret, expected, projectActive, now).0
    case RevokingIntent(id, now) => RevokeUnused(s, id, now).0
    case DeletingIntent(id, now) => DeleteUnused(s, id, now).0
  }

  function Run(s: Registry, run: seq<Step>): Registry
    decreases |run|
  {
    if run == [] then s else Run(Apply(s, run[0]), run[1..])
  }

  /** The clock readings of a run never go back. */
  predicate Clocked(clock: Time, run: seq<Step>)
    decreases |run|
  {
    run == [] || (clock <= run[0].now && Clocked(run[0].now, run[1..]))
  }

  function ClockAfter(clock: Time, run: seq<Step>): Time
    decreases |run|
  {
    if run == [] then clock else ClockAfter(run[0].now, run[1..])
  }

  function Empty(): Registry {
    Registry([], [], {}, {}, [])
  }

  lemma ApplyKeeps(s: Registry, step: Step, clock: Time)
    requires Valid(s, clock) && clock <= step.now
    ensures Valid(Apply(s, step), step.now) && Extends(s, Apply(s, step))
  {
    hide Extends, DevicesValid, IntentsValid, GrantsValid;
    var now := step.now;
    match step {
      case Enrolling(projectActive, expiry, _) =>
        EnrollIsDeviceStep(s, projectActive, expiry, now, clock);
        DeviceStepKeeps(s, Apply(s, step), clock, now);
      case Rotating(device, overlap, expiry, _) =>
        RotateIsDeviceStep(s, device, overlap, expiry, now, clock);
        DeviceStepKeeps(s, Apply(s, step), clock, now);
      case RevokingCredential(device, place, _) =>
        RevokeIsDeviceStep(s, device, place, now, clock);
        DeviceStepKeeps(s, Apply(s, step), clock, now);
      case Creating(mode, secret, projectActive, _) => CreateIntentKeeps(s, mode, secret, projectActive, now, clock);
      case Exchanging(id, secret, expected, projectActive, _) =>
        ExchangeKeeps(s, id, secret, expected, projectActive, now, clock);
      case RevokingIntent(id, _) => RevokeUnusedKeeps(s, id, now, clock);
      case DeletingIntent(id, _) => DeleteUnusedKeeps(s, id, now, clock);
    }
  }

  lemma ExtendsTransitive(a: Registry, b: Registry, c: Registry)
    requires Extends(a, b) && Extends(b, c)
    ensures Extends(a, c)
  {
    hide Ages;
    forall d | 0 <= d < |a.devices| ensures Ages(a.devices[d], c.devices[d]) {
      AgesTransitive(a.devices[d], b.devices[d], c.devices[d]);
    }
  }

  lemma ExtendsItself(s: Registry)
    ensures Extends(s, s)
  {
    AllAge(s);
  }

  lemma {:induction false} RunKeeps(s: Registry, run: seq<Step>, clock: Time)
    requires Valid(s, clock) && Clocked(clock, run)
    ensures Valid(Run(s, run), ClockAfter(clock, run)) && Extends(s, Run(s, run)) && clock <= ClockAfter(clock, run)
    decreases |run|
  {
    hide Valid, Extends, Apply;
    if run == [] {
      ExtendsItself(s);
    } else {
      ApplyKeeps(s, run[0], clock);
      RunKeeps(Apply(s, run[0]), run[1..], run[0].now);
      ExtendsTransitive(s, Apply(s, run[0]), Run(s, run));
    }
  }

  lemma EmptyIsValid(clock: Time)
    ensures Valid(Empty(), clock)
  {
  }

  // ----- guarantees over runs -----

  /**
   * Over any run of enrolling, rotating, revoking and exchanging, at any instant from its end on: a device has at
   * most two active credentials, and all of them but the newest expire within 24 hours of the newest's creation.
   */
  lemma CredentialsAreBounded(run: seq<Step>, clock: Time, d: nat, t: Time)
    requires Clocked(clock, run) && d < |Run(Empty(), run).devices| && ClockAfter(clock, run) <= t
    ensures var credentials := Run(Empty(), run).devices[d];
            && Actives(credentials, t) <= 2
            && forall i :: 0 <= i < |credentials| - 1 && Active(credentials[i], t) ==>
                 && credentials[i].expiresAt.Some?
                 && credentials[i].expiresAt.value <= credentials[|credentials| - 1].createdAt + 86_400_000_000
  {
    hide Run, GrantsValid, IntentsValid, Credentials.Valid, Actives, ClockAfter, Empty, Extends;
    EmptyIsValid(clock);
    RunKeeps(Empty(), run, clock);
    AtMostTwoActive(Run(Empty(), run).devices[d], ClockAfter(clock, run), t);
  }

  /** A credential that has stopped working at some point of a run never works again, and no expiry moves back. */
  lemma CredentialsOnlyEnd(run: seq<Step>, later: seq<Step>, clock: Time, d: nat, i: nat, t: Time)
    requires Clocked(clock, run) && Clocked(ClockAfter(clock, run), later)
    requires ClockAfter(ClockAfter(clock, run), later) <= t
    requires d < |Run(Empty(), run).devices| && i < |Run(Empty(), run).devices[d]|
    ensures var (s, v) := (Run(Empty(), run), Run(Run(Empty(), run), later));
            && d < |v.devices| && i < |v.devices[d]|
            && Shortened(s.devices[d][i], v.devices[d][i])
            && (Active(v.devices[d][i], t) ==> Active(s.devices[d][i], ClockAfter(clock, run)))
  {
    hide Run, Valid, ClockAfter, Empty, Shortened, Active;
    EmptyIsValid(clock);
    RunKeeps(Empty(), run, clock);
    var s := Run(Empty(), run);
    RunKeeps(s, later, ClockAfter(clock, run));
    var v := Run(s, later);
    assert Ages(s.devices[d], v.devices[d]);
    if Active(v.devices[d][i], t) {
      EndedStaysEnded(s.devices[d][i], v.devices[d][i], ClockAfter(clock, run), t);
    }
  }

  /** Over any run an authorization has handed out one credential if it was used, and none otherwise; no credential
      was handed out twice; and no authorization was both used and revoked. */
  lemma OneCredentialPerIntent(run: seq<Step>, clock: Time, id: nat)
    requires Clocked(clock, run) && id < |Run(Empty(), run).intents|
    ensures var s := Run(Empty(), run);
            && (s.intents[id].usedAt.Some? <==> exists g :: 0 <= g < |s.grants| && s.grants[g].intent == id)
            && (forall g, h :: 0 <= g < h < |s.grants| ==>
                  && s.grants[g].intent != s.grants[h].intent
                  && (s.grants[g].device, s.grants[g].place) != (s.grants[h].device, s.grants[h].place))
            && !(s.intents[id].usedAt.Some? && id in s.revoked)
  {
    hide Run, DevicesValid, ClockAfter, Empty, Extends;
    EmptyIsValid(clock);
    RunKeeps(Empty(), run, clock);
    var s := Run(Empty(), run);
    assert s.intents[id].usedAt.Some? ==> HasGrant(s, id);
  }

  /**
   * With the right token an exchange succeeds exactly while the authorization is pending, its project is active or
   * its device has room for a credential, and the device is the expected one; it then hands out a working credential.
   */
  lemma ExchangeNeedsPending(s: Registry, id: nat, expected: Option<nat>, projectActive: bool, now: Time, clock: Time)
    requires Valid(s, clock) && clock <= now && id < |s.intents|
    ensures var intent := s.intents[id];
            var (v, answer) := Exchange(s, id, intent.secret, expected, projectActive, now);
            && (answer.Ok? <==>
                  && StatusOf(s, id, now) == Pending
                  && (expected.Some? ==> intent.mode == Replace(expected.value))
                  && (if intent.mode.New? then projectActive else Actives(s.devices[intent.mode.device], now) < 2))
            && (answer.Ok? ==>
                  && StatusOf(v, id, now) == Enrolled && answer.value < |v.devices|
                  && var credentials := v.devices[answer.value];
                     credentials != [] && Active(credentials[|credentials| - 1], now))
  {
    hide GrantsValid, Credentials.Valid;
    var intent := s.intents[id];
    if Exchange(s, id, intent.secret, expected, projectActive, now).1.Ok? {
      IssueAppends(s, intent.mode, projectActive, now, clock);
    }
  }

  /** An authorization that is no longer pending never is again: its token is rejected in every later state. */
  lemma SpentTokensAreRejected(
    s: Registry, later: seq<Step>, clock: Time, id: nat, secret: nat, expected: Option<nat>, projectActive: bool, now: Time)
    requires Valid(s, clock) && Clocked(clock, later) && ClockAfter(clock, later) <= now
    requires id < |s.intents| && StatusOf(s, id, clock) != Pending
    ensures var v := Run(s, later);
            && id < |v.intents| && StatusOf(v, id, now) != Pending
            && Exchange(v, id, secret, expected, projectActive, now) == (v, Err(Rejected))
  {
    RunKeeps(s, later, clock);
    hide Run, DevicesValid, GrantsValid, Issue;
  }
}
