/** The identity and enrollment services as they run: credential and intent rows are updated in place. */
module EnrollmentService {
  import opened Prelude
  import opened Credentials
  import E = Enrollment

  class IdentityDatabase {
    var devices: seq<seq<Credential>>
    var intents: seq<E.Intent>
    var revoked: set<nat>
    var deleted: set<nat>
    var grants: seq<E.Grant>

    constructor ()
      ensures Tables() == E.Empty()
    {
      devices, intents, revoked, deleted, grants := [], [], {}, {}, [];
    }

    function Tables(): E.Registry
      reads this
    {
      E.Registry(devices, intents, revoked, deleted, grants)
    }
  }

  lemma ActivesPrefix(credentials: seq<Credential>, i: nat, now: Time)
    requires i < |credentials|
    ensures Actives(credentials[..i + 1], now) ==
            Actives(credentials[..i], now) + if Active(credentials[i], now) then 1 else 0
  {
    assert credentials[..i + 1] == credentials[..i] + [credentials[i]];
    ActivesAppend(credentials[..i], credentials[i], now);
  }

  class IdentityService {
    const db: IdentityDatabase

    constructor (database: IdentityDatabase)
      ensures db == database
    {
      db := database;
    }

    /** The places of the active credentials of a device. */
    method SelectActive(device: nat, now: Time) returns (active: seq<nat>)
      requires device < |db.devices|
      ensures |active| == Actives(db.devices[device], now)
      ensures forall i :: i in active <==> 0 <= i < |db.devices[device]| && Active(db.devices[device][i], now)
      ensures forall j, k :: 0 <= j < k < |active| ==> active[j] != active[k]
    {
      var credentials := db.devices[device];
      active := [];
      for i := 0 to |credentials|
        invariant |active| == Actives(credentials[..i], now)
        invariant forall k :: k in active <==> 0 <= k < i && Active(credentials[k], now)
        invariant forall j, k :: 0 <= j < k < |active| ==> active[j] != active[k]
      {
        ActivesPrefix(credentials, i, now);
        if Active(credentials[i], now) {
          active := active + [i];
        }
      }
      assert credentials[..|credentials|] == credentials;
    }

    method Enroll(projectActive: bool, expiry: Option<Time>, now: Time) returns (answer: Result<nat, Error>)
      modifies db
      ensures (db.Tables(), answer) == E.Enroll(old(db.Tables()), projectActive, expiry, now)
    {
      if !projectActive {
        return Err(ProjectInactive);
      }
      if !ValidExpiry(expiry, now) {
        return Err(ExpiryInPast);
      }
      var device := |db.devices|;
      db.devices := db.devices + [[Credential(now, expiry, None)]];
      answer := Ok(device);
    }

    /** Caps the credentials at the given places, one by one. */
    method CapActive(device: nat, active: seq<nat>, now: Time, end: Time)
      requires device < |db.devices|
      requires forall i :: i in active <==> 0 <= i < |db.devices[device]| && Active(db.devices[device][i], now)
      requires forall j, k :: 0 <= j < k < |active| ==> active[j] != active[k]
      modifies db
      ensures db.Tables() ==
              old(db.Tables()).(devices := old(db.devices)[device := CapAll(old(db.devices[device]), now, end)])
    {
      ghost var before := db.devices;
      var credentials := db.devices[device];
      for k := 0 to |active|
        invariant |credentials| == |before[device]|
        invariant forall i :: 0 <= i < |credentials| ==>
                    credentials[i] == if i in active[..k] then Capped(before[device][i], now, end) else before[device][i]
      {
        var i := active[k];
        assert i in active && i !in active[..k];
        var expires := credentials[i].expiresAt;
        credentials := credentials[i := credentials[i].(expiresAt := Some(if expires.Some? then Min(expires.value, end) else end))];
        assert active[..k + 1] == active[..k] + [i];
      }
      assert active[..|active|] == active;
      assert credentials == CapAll(before[device], now, end);
      db.devices := db.devices[device := credentials];
    }

    method Rotate(device: nat, overlap: int, expiry: Option<Time>, now: Time) returns (answer: Result<nat, Error>)
      modifies db
      ensures (db.Tables(), answer) == E.RotateDevice(old(db.Tables()), device, overlap, expiry, now)
    {
      if !(1 <= overlap <= 24) {
        return Err(InvalidOverlap);
      }
      if device >= |db.devices| {
        return Err(NotFound);
      }
      if !ValidExpiry(expiry, now) {
        return Err(ExpiryInPast);
      }
      var active := SelectActive(device, now);
      if |active| >= 2 {
        return Err(TwoActive);
      }
      CapActive(device, active, now, now + overlap * HOUR);
      var rotated := db.devices[device] + [Credential(now, expiry, None)];
      db.devices := db.devices[device := rotated];
      assert db.devices == old(db.devices)[device := rotated];
      answer := Ok(device);
    }

    method Revoke(device: nat, place: nat, now: Time) returns (answer: Result<nat, Error>)
      modifies db
      ensures (db.Tables(), answer) == E.RevokeCredential(old(db.Tables()), device, place, now)
    {
      if device >= |db.devices| || place >= |db.devices[device]| {
        return Err(NotFound);
      }
      var credential := db.devices[device][place];
      if credential.revokedAt.None? {
        db.devices := db.devices[device := db.devices[device][place := credential.(revokedAt := Some(now))]];
      } else {
        assert db.devices[device := db.devices[device]] == db.devices;
      }
      answer := Ok(device);
    }
  }

  class AgentEnrollmentService {
    const db: IdentityDatabase
    const identity: IdentityService

    constructor (database: IdentityDatabase)
      ensures db == database && identity.db == database
    {
      db := database;
      identity := new IdentityService(database);
    }

    method CreateIntent(mode: E.Mode, secret: nat, projectActive: bool, now: Time) returns (answer: Result<nat, Error>)
      modifies db
      ensures (db.Tables(), answer) == E.CreateIntent(old(db.Tables()), mode, secret, projectActive, now)
    {
      match mode {
        case New =>
          if !projectActive {
            return Err(ProjectInactive);
          }
        case Replace(device) =>
          if device >= |db.devices| {
            return Err(NotFound);
          }
      }
      answer := Ok(|db.intents|);
      db.intents := db.intents + [E.Intent(mode, secret, now, now + E.LIFETIME, None, None)];
    }

    method Exchange(id: nat, secret: nat, expected: Option<nat>, projectActive: bool, now: Time)
      returns (answer: Result<nat, Error>)
      requires identity.db == db
      modifies db
      ensures (db.Tables(), answer) == E.Exchange(old(db.Tables()), id, secret, expected, projectActive, now)
    {
      if id >= |db.intents| || db.intents[id].secret != secret {
        return Err(Rejected);
      }
      var intent := db.intents[id];
      if expected.Some? && intent.mode != E.Replace(expected.value) {
        return Err(Rejected);
      }
      if intent.usedAt.Some? || intent.expiresAt <= now {
        return Err(Rejected);
      }
      match intent.mode {
        case New => answer := identity.Enroll(projectActive, None, now);
        case Replace(device) => answer := identity.Rotate(device, 1, None, now);
      }
      if answer.Ok? {
        db.grants := db.grants + [E.Grant(id, answer.value, E.LastPlace(db.Tables(), answer.value))];
        db.intents := db.intents[id := intent.(usedAt := Some(now), issued := Some(answer.value))];
      }
    }

    method RevokeUnused(id: nat, now: Time) returns (answer: Result<nat, Error>)
      modifies db
      ensures (db.Tables(), answer) == E.RevokeUnused(old(db.Tables()), id, now)
    {
      if id >= |db.intents| {
        return Err(NotFound);
      }
      var intent := db.intents[id];
      if intent.usedAt.Some? {
        return Err(AlreadyUsed);
      }
      if intent.expiresAt <= now {
        return Err(NoLongerValid);
      }
      db.intents := db.intents[id := intent.(expiresAt := now)];
      db.revoked := db.revoked + {id};
      answer := Ok(id);
    }

    method DeleteUnused(id: nat, now: Time) returns (answer: Result<nat, Error>)
      modifies db
      ensures (db.Tables(), answer) == E.DeleteUnused(old(db.Tables()), id, now)
    {
      if id >= |db.intents| {
        return Err(NotFound);
      }
      var intent := db.intents[id];
      if intent.usedAt.Some? {
        return Err(AlreadyUsed);
      }
      if id !in db.revoked {
        if intent.expiresAt > now {
          db.intents := db.intents[id := intent.(expiresAt := now)];
        }
        db.revoked := db.revoked + {id};
      }
      if id !in db.deleted {
        db.deleted := db.deleted + {id};
      }
      assert db.revoked == old(db.revoked) + {id} && db.deleted == old(db.deleted) + {id};
      answer := Ok(id);
    }
  }
}
