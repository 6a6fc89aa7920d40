/** What each operation on credentials and enrollment authorizations grants, and what it leaves behind. */
module EnrollmentAnswers {
  import opened Prelude
  import opened Credentials
  import opened Enrollment

  const DAY_AND_NIGHT: int := 86_400_000_000

  /** The credential at `place` of device `d` works at `t`. */
  predicate Works(s: Registry, d: nat, place: nat, t: Time)
    requires d < |s.devices| && place < |s.devices[d]|
  {
    var c := s.devices[d][place];
    c.revokedAt == None && (c.expiresAt == None || t < c.expiresAt.value)
  }

  // ----- devices -----

  /** A device is enrolled iff its project is active and its expiry lies ahead; its one credential works from then on
      until that expiry. */
  lemma EnrollAnswers(s: Registry, projectActive: bool, expiry: Option<Time>, now: Time, t: Time)
    ensures var (v, answer) := Enroll(s, projectActive, expiry, now);
            && (answer.Ok? <==> projectActive && (expiry.Some? ==> expiry.value > now))
            && (answer == Err(ProjectInactive) <==> !projectActive)
            && (answer.Err? ==> v == s)
            && (answer.Ok? ==>
                  && answer.value == |s.devices| && v == s.(devices := v.devices)
                  && |v.devices| == |s.devices| + 1 && v.devices[..|s.devices|] == s.devices
                  && |v.devices[answer.value]| == 1 && v.devices[answer.value][0].createdAt == now
                  && (Works(v, answer.value, 0, t) <==> (expiry.Some? ==> t < expiry.value)))
  {
  }

  /** A rotation is refused for one reason each: an overlap outside 1 to 24 hours, an unknown device, an expiry that has
      passed, or two credentials that work. Otherwise the device has one credential more, and the others are as before. */
  lemma RotateAnswers(s: Registry, d: nat, overlap: int, expiry: Option<Time>, now: Time, clock: Time, t: Time)
    requires Enrollment.Valid(s, clock) && clock <= now <= t
    ensures var (v, answer) := RotateDevice(s, d, overlap, expiry, now);
            var timely := expiry.Some? ==> expiry.value > now;
            && (answer == Err(InvalidOverlap) <==> !(1 <= overlap <= 24))
            && (answer == Err(NotFound) <==> 1 <= overlap <= 24 && d >= |s.devices|)
            && (answer == Err(ExpiryInPast) <==> 1 <= overlap <= 24 && d < |s.devices| && !timely)
            && (answer == Err(TwoActive) <==>
                  1 <= overlap <= 24 && d < |s.devices| && timely && Actives(s.devices[d], now) == 2)
            && (answer.Ok? <==> 1 <= overlap <= 24 && d < |s.devices| && timely && Actives(s.devices[d], now) < 2)
            && (answer.Err? ==> v == s)
            && (answer.Ok? ==>
                  var n := |s.devices[d]|;
                  && answer.value == d && v == s.(devices := s.devices[d := v.devices[d]]) && |v.devices[d]| == n + 1
                  && v.devices[d][n].createdAt == now
                  && (Works(v, d, n, t) <==> (expiry.Some? ==> t < expiry.value))
                  && forall i :: 0 <= i < n ==>
                       (Works(v, d, i, t) <==> Works(s, d, i, t) && t < now + overlap * 3_600_000_000))
  {
    if 1 <= overlap <= 24 && d < |s.devices| {
      var credentials := s.devices[d];
      assert Credentials.Valid(credentials, clock);
      if expiry.Some? ==> expiry.value > now {
        RotationNeedsRoom(credentials, overlap, expiry, now, clock);
      }
      if Rotate(credentials, overlap, expiry, now).Ok? {
        forall i | 0 <= i < |credentials|
          ensures Active(Rotate(credentials, overlap, expiry, now).value[i], t) <==>
                  Active(credentials[i], t) && t < now + overlap * HOUR
        {
          RotationOverlaps(credentials, overlap, expiry, now, i, t);
        }
      }
    }
  }

  /** Revoking an existing credential always succeeds; it works at no instant after that, in any later state, and no
      other credential is touched. */
  lemma RevokedNeverWorks(s: Registry, d: nat, place: nat, now: Time, clock: Time, later: seq<Step>, t: Time)
    requires Enrollment.Valid(s, clock) && clock <= now && Enrollment.Clocked(now, later)
    ensures var (v, answer) := RevokeCredential(s, d, place, now);
            && (answer.Ok? <==> d < |s.devices| && place < |s.devices[d]|)
            && (answer.Err? ==> answer == Err(NotFound) && v == s)
            && (answer.Ok? ==>
                  && v == s.(devices := v.devices) && |v.devices| == |s.devices| && |v.devices[d]| == |s.devices[d]|
                  && (forall e, i :: 0 <= e < |s.devices| && 0 <= i < |s.devices[e]| && (e != d || i != place) ==>
                        v.devices[e] == s.devices[e] || (e == d && v.devices[e][i] == s.devices[e][i]))
                  && v.devices[d][place].revokedAt ==
                       (if s.devices[d][place].revokedAt.Some? then s.devices[d][place].revokedAt else Some(now))
                  && var last := Run(v, later);
                     d < |last.devices| && place < |last.devices[d]| && !Works(last, d, place, t))
  {
    var (v, answer) := RevokeCredential(s, d, place, now);
    ApplyKeeps(s, RevokingCredential(d, place, now), clock);
    RunKeeps(v, later, now);
    hide Run, Enrollment.Valid, ClockAfter;
    if answer.Ok? {
      assert Ages(v.devices[d], Run(v, later).devices[d]);
      assert Shortened(v.devices[d][place], Run(v, later).devices[d][place]);
    }
  }

  // ----- authorizations -----

  /** An authorization is created iff its project is active, or the device to replace exists; it is pending from then on
      for one day, and has expired after that. */
  lemma CreateAnswers(s: Registry, mode: Mode, secret: nat, projectActive: bool, now: Time, clock: Time, t: Time)
    requires Enrollment.Valid(s, clock)
    ensures var (v, answer) := CreateIntent(s, mode, secret, projectActive, now);
            && (answer.Ok? <==> if mode.New? then projectActive else mode.device < |s.devices|)
            && (answer.Err? ==> v == s && answer == Err(if mode.New? then ProjectInactive else NotFound))
            && (answer.Ok? ==>
                  && answer.value == |s.intents| && v == s.(intents := v.intents)
                  && |v.intents| == |s.intents| + 1 && v.intents[..|s.intents|] == s.intents
                  && var intent := v.intents[answer.value];
                     && intent.mode == mode && intent.secret == secret && intent.createdAt == now
                     && StatusOf(v, answer.value, t) == if t < now + DAY_AND_NIGHT then Pending else Expired)
  {
    hide DevicesValid, GrantsValid;
  }

  /** The status that is shown: used, else withdrawn, else expired, else pending. */
  lemma StatusMeans(s: Registry, id: nat, now: Time)
    requires id < |s.intents|
    ensures var intent := s.intents[id];
            && (StatusOf(s, id, now) == Enrolled <==> intent.usedAt != None)
            && (StatusOf(s, id, now) == Revoked <==> intent.usedAt == None && id in s.revoked)
            && (StatusOf(s, id, now) == Expired <==> intent.usedAt == None && id !in s.revoked && intent.expiresAt <= now)
            && (StatusOf(s, id, now) == Pending <==> intent.usedAt == None && id !in s.revoked && now < intent.expiresAt)
  {
  }

  /** A pending authorization can be withdrawn, a used or ended one cannot; it shows as withdrawn from then on. */
  lemma RevokeAnswers(s: Registry, id: nat, now: Time, clock: Time, t: Time)
    requires Enrollment.Valid(s, clock) && clock <= now
    ensures var (v, answer) := RevokeUnused(s, id, now);
            && (answer.Ok? <==> id < |s.intents| && StatusOf(s, id, now) == Pending)
            && (answer == Err(NotFound) <==> id >= |s.intents|)
            && (answer == Err(AlreadyUsed) <==> id < |s.intents| && StatusOf(s, id, now) == Enrolled)
            && (answer == Err(NoLongerValid) <==> id < |s.intents| && StatusOf(s, id, now) in {Expired, Revoked})
            && (answer.Err? ==> v == s)
            && (answer.Ok? ==>
                  && answer.value == id && StatusOf(v, id, t) == Revoked
                  && v.intents == s.intents[id := s.intents[id].(expiresAt := now)]
                  && v == s.(intents := v.intents, revoked := s.revoked + {id}))
  {
    hide DevicesValid, GrantsValid;
  }

  /** Any authorization that was not used can be deleted, again and again; it shows as withdrawn and is hidden. */
  lemma DeleteAnswers(s: Registry, id: nat, now: Time, t: Time)
    ensures var (v, answer) := DeleteUnused(s, id, now);
            && (answer.Ok? <==> id < |s.intents| && s.intents[id].usedAt == None)
            && (answer == Err(NotFound) <==> id >= |s.intents|)
            && (answer == Err(AlreadyUsed) <==> id < |s.intents| && s.intents[id].usedAt != None)
            && (answer.Err? ==> v == s)
            && (answer.Ok? ==>
                  && answer.value == id && StatusOf(v, id, t) == Revoked && id in v.deleted
                  && (id !in s.revoked ==> v.intents[id].expiresAt <= now)
                  && v == s.(intents := v.intents, revoked := s.revoked + {id}, deleted := s.deleted + {id})
                  && |v.intents| == |s.intents|
                  && (forall j :: 0 <= j < |s.intents| && j != id ==> v.intents[j] == s.intents[j])
                  && v.intents[id] == s.intents[id].(expiresAt := v.intents[id].expiresAt))
  {
  }

  /** An exchange with an unknown authorization or the wrong token is rejected and changes nothing. */
  lemma WrongTokenIsRejected(
    s: Registry, id: nat, secret: nat, expected: Option<nat>, projectActive: bool, now: Time)
    requires id < |s.intents| ==> s.intents[id].secret != secret
    ensures Exchange(s, id, secret, expected, projectActive, now) == (s, Err(Rejected))
  {
  }

  /**
   * A granted exchange uses its authorization up, and hands out the newest credential of the device it names: of the
   * device to replace, whose older credentials stop within the hour, or of a new device.
   */
  lemma ExchangeIssues(s: Registry, id: nat, secret: nat, expected: Option<nat>, projectActive: bool, now: Time, clock: Time, t: Time)
    requires Enrollment.Valid(s, clock) && clock <= now <= t
    requires Exchange(s, id, secret, expected, projectActive, now).1.Ok?
    ensures var (v, answer) := Exchange(s, id, secret, expected, projectActive, now);
            var d := answer.value;
            && id < |s.intents| && s.intents[id].secret == secret
            && v.intents == s.intents[id := s.intents[id].(usedAt := Some(now), issued := Some(d))]
            && v.revoked == s.revoked && v.deleted == s.deleted
            && d < |v.devices| && v.devices[d] != [] && v.devices[d][|v.devices[d]| - 1].createdAt == now
            && v.grants == s.grants + [Grant(id, d, |v.devices[d]| - 1)]
            && Works(v, d, |v.devices[d]| - 1, t)
            && match s.intents[id].mode
               case New => d == |s.devices| && v.devices[..d] == s.devices && |v.devices| == d + 1 && |v.devices[d]| == 1
               case Replace(e) =>
                 && d == e && v.devices == s.devices[d := v.devices[d]] && |v.devices[d]| == |s.devices[d]| + 1
                 && forall i :: 0 <= i < |s.devices[d]| ==>
                      (Works(v, d, i, t) <==> Works(s, d, i, t) && t < now + 3_600_000_000)
  {
    var intent := s.intents[id];
    if intent.mode.Replace? {
      RotateAnswers(s, intent.mode.device, 1, None, now, clock, t);
    } else {
      EnrollAnswers(s, projectActive, None, now, t);
    }
    hide Enrollment.Valid, Rotate, First;
  }
}
