/** The credentials of one device (server/app/devices/service.py): rotation with an overlap, and revocation. */
module Credentials {
  import opened Prelude

  datatype Credential = Credential(createdAt: Time, expiresAt: Option<Time>, revokedAt: Option<Time>)

  datatype Error = InvalidOverlap | NotFound | ExpiryInPast | TwoActive | ProjectInactive | Rejected | AlreadyUsed | NoLongerValid

  const OVERLAP: Time := 24 * HOUR

  predicate Active(c: Credential, now: Time) {
    c.revokedAt.None? && (c.expiresAt.None? || c.expiresAt.value > now)
  }

  function Actives(credentials: seq<Credential>, now: Time): nat {
    if credentials == [] then 0
    else Actives(credentials[..|credentials| - 1], now) + if Active(credentials[|credentials| - 1], now) then 1 else 0
  }

  /** An active credential lasts until `end` at most. */
  function Capped(c: Credential, now: Time, end: Time): Credential {
    if Active(c, now) then c.(expiresAt := Some(if c.expiresAt.Some? then Min(c.expiresAt.value, end) else end)) else c
  }

  function CapAll(credentials: seq<Credential>, now: Time, end: Time): (r: seq<Credential>)
    ensures |r| == |credentials|
    ensures forall i :: 0 <= i < |r| ==> r[i] == Capped(credentials[i], now, end)
  {
    if credentials == [] then []
    else
      var n := |credentials| - 1;
      CapAll(credentials[..n], now, end) + [Capped(credentials[n], now, end)]
  }

  predicate ValidExpiry(expiry: Option<Time>, now: Time) {
    expiry.Some? ==> expiry.value > now
  }

  /** The first credential of a device. */
  function First(expiry: Option<Time>, now: Time): Result<seq<Credential>, Error> {
    if !ValidExpiry(expiry, now) then Err(ExpiryInPast) else Ok([Credential(now, expiry, None)])
  }

  function Rotate(credentials: seq<Credential>, overlap: int, expiry: Option<Time>, now: Time)
    : Result<seq<Credential>, Error>
  {
    if !(1 <= overlap <= 24) then Err(InvalidOverlap)
    else if !ValidExpiry(expiry, now) then Err(ExpiryInPast)
    else if Actives(credentials, now) >= 2 then Err(TwoActive)
    else Ok(CapAll(credentials, now, now + overlap * HOUR) + [Credential(now, expiry, None)])
  }

  function Revoke(credentials: seq<Credential>, i: nat, now: Time): Result<seq<Credential>, Error> {
    if i >= |credentials| then Err(NotFound)
    else if credentials[i].revokedAt.Some? then Ok(credentials)
    else Ok(credentials[i := credentials[i].(revokedAt := Some(now))])
  }

  // ----- the invariant -----

  /** `c` is revoked, or expires within 24 hours of `t`. */
  predicate EndsBy(c: Credential, t: Time) {
    c.revokedAt.Some? || (c.expiresAt.Some? && c.expiresAt.value <= t + OVERLAP)
  }

  /** Every credential but the newest ends within 24 hours of the creation of each one after it. */
  ghost predicate Superseding(credentials: seq<Credential>) {
    forall i, j :: 0 <= i < j < |credentials| ==>
      credentials[i].createdAt <= credentials[j].createdAt && EndsBy(credentials[i], credentials[j].createdAt)
  }

  ghost predicate Valid(credentials: seq<Credential>, clock: Time) {
    && Superseding(credentials)
    && (forall i :: 0 <= i < |credentials| ==> credentials[i].createdAt <= clock)
    && Actives(credentials, clock) <= 2
  }

  /** The same credential, later: nothing about it is undone and its life is never prolonged. */
  predicate Shortened(before: Credential, after: Credential) {
    && after.createdAt == before.createdAt
    && (before.revokedAt.Some? ==> after.revokedAt == before.revokedAt)
    && (before.expiresAt.Some? ==> after.expiresAt.Some? && after.expiresAt.value <= before.expiresAt.value)
  }

  ghost predicate Ages(before: seq<Credential>, after: seq<Credential>) {
    |before| <= |after| && forall i :: 0 <= i < |before| ==> Shortened(before[i], after[i])
  }

  lemma AgesTransitive(a: seq<Credential>, b: seq<Credential>, c: seq<Credential>)
    requires Ages(a, b) && Ages(b, c)
    ensures Ages(a, c)
  {
    forall i | 0 <= i < |a| ensures Shortened(a[i], c[i]) {
      assert Shortened(a[i], b[i]) && Shortened(b[i], c[i]);
    }
  }

  /** An aged credential that is active was active before: what has ended never comes back. */
  lemma EndedStaysEnded(before: Credential, after: Credential, now: Time, later: Time)
    requires Shortened(before, after) && now <= later && Active(after, later)
    ensures Active(before, now)
  {
  }

  lemma {:induction false} ActivesOnlyDrop(before: seq<Credential>, after: seq<Credential>, now: Time, later: Time)
    requires |before| == |after| && Ages(before, after) && now <= later
    ensures Actives(after, later) <= Actives(before, now)
  {
    if before != [] {
      var n := |before| - 1;
      ActivesOnlyDrop(before[..n], after[..n], now, later);
      assert Shortened(before[n], after[n]);
    }
  }

  lemma ActivesAppend(credentials: seq<Credential>, c: Credential, now: Time)
    ensures Actives(credentials + [c], now) == Actives(credentials, now) + if Active(c, now) then 1 else 0
  {
    assert (credentials + [c])[..|credentials|] == credentials;
  }

  lemma ValidLater(credentials: seq<Credential>, clock: Time, now: Time)
    requires Valid(credentials, clock) && clock <= now
    ensures Valid(credentials, now)
  {
    ActivesOnlyDrop(credentials, credentials, clock, now);
  }

  lemma FirstIsValid(expiry: Option<Time>, now: Time)
    requires First(expiry, now).Ok?
    ensures Valid(First(expiry, now).value, now)
  {
    ActivesAppend([], Credential(now, expiry, None), now);
  }

  lemma RotateKeepsSuperseding(credentials: seq<Credential>, overlap: int, expiry: Option<Time>, now: Time, clock: Time)
    requires Valid(credentials, clock) && clock <= now && Rotate(credentials, overlap, expiry, now).Ok?
    ensures Superseding(Rotate(credentials, overlap, expiry, now).value)
  {
    var after := Rotate(credentials, overlap, expiry, now).value;
    forall i, j | 0 <= i < j < |after|
      ensures after[i].createdAt <= after[j].createdAt && EndsBy(after[i], after[j].createdAt)
    {
      assert after[i] == Capped(credentials[i], now, now + overlap * HOUR);
      assert overlap * HOUR <= OVERLAP;
      if j < |credentials| {
        assert after[j] == Capped(credentials[j], now, now + overlap * HOUR);
        assert EndsBy(credentials[i], credentials[j].createdAt);
      }
    }
  }

  lemma RotateKeepsValid(credentials: seq<Credential>, overlap: int, expiry: Option<Time>, now: Time, clock: Time)
    requires Valid(credentials, clock) && clock <= now && Rotate(credentials, overlap, expiry, now).Ok?
    ensures var after := Rotate(credentials, overlap, expiry, now).value;
            Valid(after, now) && Ages(credentials, after)
  {
    RotateKeepsSuperseding(credentials, overlap, expiry, now, clock);
    var capped := CapAll(credentials, now, now + overlap * HOUR);
    assert Ages(credentials, capped);
    ActivesOnlyDrop(credentials, capped, now, now);
    ActivesAppend(capped, Credential(now, expiry, None), now);
  }

  lemma RevokeKeepsValid(credentials: seq<Credential>, i: nat, now: Time, clock: Time)
    requires Valid(credentials, clock) && clock <= now && Revoke(credentials, i, now).Ok?
    ensures var after := Revoke(credentials, i, now).value;
            Valid(after, now) && Ages(credentials, after)
  {
    var after := Revoke(credentials, i, now).value;
    ActivesOnlyDrop(credentials, after, clock, now);
    forall a, b | 0 <= a < b < |after|
      ensures after[a].createdAt <= after[b].createdAt && EndsBy(after[a], after[b].createdAt)
    {
      assert EndsBy(credentials[a], credentials[b].createdAt);
    }
  }

  // ----- what it means -----

  /** At every instant from now on: at most two are active, and all but the newest end within 24 hours of its creation. */
  lemma AtMostTwoActive(credentials: seq<Credential>, clock: Time, t: Time)
    requires Valid(credentials, clock) && clock <= t
    ensures Actives(credentials, t) <= 2
    ensures forall i :: 0 <= i < |credentials| - 1 && Active(credentials[i], t) ==>
              && credentials[i].expiresAt.Some?
              && credentials[i].expiresAt.value <= credentials[|credentials| - 1].createdAt + OVERLAP
  {
    ActivesOnlyDrop(credentials, credentials, clock, t);
    forall i | 0 <= i < |credentials| - 1 && Active(credentials[i], t)
      ensures credentials[i].expiresAt.Some?
      ensures credentials[i].expiresAt.value <= credentials[|credentials| - 1].createdAt + OVERLAP
    {
      assert EndsBy(credentials[i], credentials[|credentials| - 1].createdAt);
    }
  }

  /**
   * A rotation never interrupts a device: the new credential works at once, and an older one works after the
   * rotation exactly when it would have worked without it and the overlap is not over.
   */
  lemma RotationOverlaps(credentials: seq<Credential>, overlap: int, expiry: Option<Time>, now: Time, i: nat, t: Time)
    requires Rotate(credentials, overlap, expiry, now).Ok? && i < |credentials| && now <= t
    ensures var after := Rotate(credentials, overlap, expiry, now).value;
            && Active(after[|credentials|], now)
            && (Active(after[i], t) <==> Active(credentials[i], t) && t < now + overlap * HOUR)
  {
    var after := Rotate(credentials, overlap, expiry, now).value;
    assert after[i] == Capped(credentials[i], now, now + overlap * HOUR);
  }

  /** A rotation is refused for its credentials exactly while two of them are active. */
  lemma RotationNeedsRoom(credentials: seq<Credential>, overlap: int, expiry: Option<Time>, now: Time, clock: Time)
    requires Valid(credentials, clock) && clock <= now && 1 <= overlap <= 24 && ValidExpiry(expiry, now)
    ensures Rotate(credentials, overlap, expiry, now).Err? <==> Actives(credentials, now) == 2
  {
    ActivesOnlyDrop(credentials, credentials, clock, now);
  }
}
