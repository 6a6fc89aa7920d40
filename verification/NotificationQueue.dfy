/** One notification delivery with its attempt ledger, and the transitions the queue
    makes on it (server/app/notifications/service.py). */
module NotificationQueue {
  import opened Prelude

  const MAX_ATTEMPTS: nat := 5
  const LEASE: int := 60 * SECOND
  const RETRY_BASE: int := 30 * SECOND
  const RETRY_MAX: int := 15 * 60 * SECOND
  const NOTIFICATION_EXPIRY: int := 24 * HOUR

  datatype Status = Pending | InProgress | RetryWait | Succeeded | Failed | Cancelled

  datatype Outcome = Accepted | TransientFailure | PermanentFailure | Uncertain

  datatype ProviderResult = ProviderResult(
    outcome: Outcome, errorCategory: Option<string>, messageId: Option<string>)

  datatype Attempt = Attempt(
    startedAt: Time, finishedAt: Option<Time>, outcome: Option<Outcome>,
    errorCategory: Option<string>, messageId: Option<string>)

  /** A delivery row; `attempts` are its rows of the attempt table, keyed by attempt number. */
  datatype Delivery = Delivery(
    event: nat, destination: string, status: Status, attemptCount: nat,
    nextAttemptAt: Option<Time>, expiresAt: Time,
    leaseToken: Option<nat>, leaseExpiresAt: Option<Time>,
    supersededAt: Option<Time>, lastError: Option<string>, messageId: Option<string>,
    attempts: map<nat, Attempt>)

  predicate Waiting(status: Status) {
    status == Pending || status == RetryWait
  }

  predicate Terminal(status: Status) {
    status == Succeeded || status == Failed || status == Cancelled
  }

  // ----- the transitions -----

  /** The row inserted when an alert event is created. */
  function NewDelivery(event: nat, destination: string, now: Time): Delivery {
    Delivery(event, destination, Pending, 0, Some(now), now + NOTIFICATION_EXPIRY,
             None, None, None, None, None, map[])
  }

  /** What the claim query selects. */
  predicate Due(d: Delivery, now: Time) {
    Waiting(d.status) && d.nextAttemptAt.Some? && d.nextAttemptAt.value <= now && now < d.expiresAt
  }

  /** What the expiry query selects. */
  predicate Lapsed(d: Delivery, now: Time) {
    Waiting(d.status) && d.expiresAt <= now
  }

  /** What the recovery query selects. */
  predicate Stuck(d: Delivery, now: Time) {
    d.status == InProgress && d.leaseExpiresAt.Some? && d.leaseExpiresAt.value <= now
  }

  function Claim(d: Delivery, now: Time, token: nat): Delivery {
    d.(status := InProgress,
       attemptCount := d.attemptCount + 1,
       leaseToken := Some(token),
       leaseExpiresAt := Some(now + LEASE),
       attempts := d.attempts[d.attemptCount + 1 := Attempt(now, None, None, None, None)])
  }

  function Pow2(n: nat): nat {
    if n == 0 then 1 else 2 * Pow2(n - 1)
  }

  function RetryBase(attemptNo: nat): int {
    Min(RETRY_BASE * (if attemptNo == 0 then 1 else Pow2(attemptNo - 1)), RETRY_MAX)
  }

  function RetryDelay(attemptNo: nat, jitter: int): int {
    Min(RETRY_MAX, Max(0, RetryBase(attemptNo) + jitter))
  }

  /** The status a delivery takes when its running attempt ends with `outcome`. */
  function StatusAfter(d: Delivery, outcome: Outcome, now: Time): Status {
    if d.supersededAt.Some? then Cancelled
    else if outcome == Accepted then Succeeded
    else if outcome == PermanentFailure then Failed
    else if d.attemptCount >= MAX_ATTEMPTS || d.expiresAt <= now then Failed
    else RetryWait
  }

  /** Recording a provider result for attempt `attemptNo`, which must be in the ledger. */
  function Finish(d: Delivery, attemptNo: nat, r: ProviderResult, now: Time, jitter: int): Delivery
    requires attemptNo in d.attempts
  {
    var status := StatusAfter(d, r.outcome, now);
    d.(status := status,
       nextAttemptAt := if status == RetryWait then Some(now + RetryDelay(d.attemptCount, jitter)) else None,
       leaseToken := None,
       leaseExpiresAt := None,
       lastError := r.errorCategory,
       messageId := r.messageId,
       attempts := d.attempts[attemptNo :=
         d.attempts[attemptNo].(finishedAt := Some(now), outcome := Some(r.outcome),
                                errorCategory := r.errorCategory, messageId := r.messageId)])
  }

  /** Taking a delivery back from a worker whose lease ran out. */
  function Recover(d: Delivery, now: Time): Delivery {
    var status := StatusAfter(d, Uncertain, now);
    d.(status := status,
       nextAttemptAt := if status == RetryWait then Some(now) else None,
       leaseToken := None,
       leaseExpiresAt := None,
       lastError := Some("worker_crash"),
       attempts :=
         if d.attemptCount in d.attempts && d.attempts[d.attemptCount].finishedAt.None?
         then d.attempts[d.attemptCount :=
                d.attempts[d.attemptCount].(finishedAt := Some(now), outcome := Some(Uncertain),
                                            errorCategory := Some("worker_crash"))]
         else d.attempts)
  }

  function Expire(d: Delivery): Delivery {
    d.(status := Failed, nextAttemptAt := None, lastError := Some("delivery_expired"))
  }

  /** Superseding an undelivered alert; a claimed one keeps its lease until it is settled. */
  function Supersede(d: Delivery, now: Time): Delivery {
    if Waiting(d.status)
    then d.(supersededAt := Some(now), status := Cancelled, nextAttemptAt := None)
    else d.(supersededAt := Some(now))
  }

  // ----- the lease and ledger invariant -----

  /** What holds of every delivery in every reachable queue. */
  ghost predicate Valid(d: Delivery) {
    && Leased(d)
    && Ledger(d)
    && Superseded(d)
    && Scheduled(d)
  }

  /** A delivery is claimed iff it holds a lease token, iff it holds a lease expiry. */
  predicate Leased(d: Delivery) {
    && (d.status == InProgress <==> d.leaseToken.Some?)
    && (d.status == InProgress <==> d.leaseExpiresAt.Some?)
  }

  /** Attempts are numbered 1..attemptCount, at most five; only the last one of a claimed
      delivery is unfinished, and only the last one can have ended the delivery. */
  ghost predicate Ledger(d: Delivery) {
    && d.attemptCount <= MAX_ATTEMPTS
    && (forall n :: n in d.attempts <==> 1 <= n <= d.attemptCount)
    && (forall n :: n in d.attempts ==>
          (d.attempts[n].finishedAt.None? <==> d.status == InProgress && n == d.attemptCount))
    && (forall n :: n in d.attempts ==>
          (d.attempts[n].outcome.None? <==> d.attempts[n].finishedAt.None?))
    && (forall n :: n in d.attempts && n < d.attemptCount ==>
          d.attempts[n].outcome in {Some(TransientFailure), Some(Uncertain)})
    && (d.status == Pending ==> d.attemptCount == 0)
    && (d.status == InProgress ==> 1 <= d.attemptCount)
    && (d.status == RetryWait ==>
          (&& 1 <= d.attemptCount < MAX_ATTEMPTS
           && d.attempts[d.attemptCount].outcome in {Some(TransientFailure), Some(Uncertain)}))
    && (d.status == Succeeded <==>
          d.supersededAt.None? && 1 <= d.attemptCount && d.attempts[d.attemptCount].outcome == Some(Accepted))
  }

  /** A superseded delivery is claimed or cancelled, and only superseded ones are cancelled. */
  predicate Superseded(d: Delivery) {
    && (d.supersededAt.Some? ==> d.status == InProgress || d.status == Cancelled)
    && (d.status == Cancelled ==> d.supersededAt.Some?)
  }

  predicate Scheduled(d: Delivery) {
    && (Waiting(d.status) ==> d.nextAttemptAt.Some?)
    && (Terminal(d.status) ==> d.nextAttemptAt.None?)
  }

  /** Retries back off: each wait is at least the last one and at most twice it, starting at
      thirty seconds, and never more than fifteen minutes whatever the jitter. */
  lemma RetriesBackOff(attemptNo: nat, jitter: int)
    requires 1 <= attemptNo
    ensures 0 <= RetryDelay(attemptNo, jitter) <= RETRY_MAX
    ensures 0 <= jitter ==> RetryBase(attemptNo) <= RetryDelay(attemptNo, jitter)
    ensures RetryBase(1) == RETRY_BASE
    ensures RetryBase(attemptNo) <= RetryBase(attemptNo + 1) <= 2 * RetryBase(attemptNo)
  {
    assert Pow2(attemptNo) == 2 * Pow2(attemptNo - 1);
    Pow2Positive(attemptNo - 1);
  }

  /** A delivery that failed and is retried can be claimed from the end of its delay until it expires, and at no
      other time. */
  lemma RetryWaitsItsDelay(d: Delivery, r: ProviderResult, now: Time, jitter: int, t: Time)
    requires Valid(d) && d.status == InProgress && Finish(d, d.attemptCount, r, now, jitter).status == RetryWait
    ensures Due(Finish(d, d.attemptCount, r, now, jitter), t) <==>
            now + RetryDelay(d.attemptCount, jitter) <= t < d.expiresAt
    ensures Due(Finish(d, d.attemptCount, r, now, jitter), t) && 0 <= jitter ==>
            now + RetryBase(d.attemptCount) <= t
  {
    RetriesBackOff(d.attemptCount, jitter);
  }

  lemma {:induction false} Pow2Positive(n: nat)
    ensures Pow2(n) >= 1
  {
    if n > 0 {
      Pow2Positive(n - 1);
    }
  }

  // ----- what one transition may change -----

  /** Bounds the status changes a delivery still has ahead of it. */
  function Measure(d: Delivery): nat
    requires d.attemptCount <= MAX_ATTEMPTS
  {
    if Terminal(d.status) then 0
    else 2 * (MAX_ATTEMPTS - d.attemptCount) + (if d.status == InProgress then 1 else 0)
  }

  /** The relation between a delivery and any later version of it. */
  ghost predicate Evolves(d: Delivery, e: Delivery) {
    && Valid(d) && Valid(e)
    && e.event == d.event && e.destination == d.destination && e.expiresAt == d.expiresAt
    && (Terminal(d.status) ==> e == d)
    && (d.supersededAt.Some? ==> e.supersededAt.Some? && (e.status == d.status || e.status == Cancelled))
    && Measure(e) <= Measure(d)
    && (e.status != d.status ==> Measure(e) < Measure(d))
    && d.attemptCount <= e.attemptCount
    && (e.leaseToken.Some? && e.leaseToken != d.leaseToken ==> d.attemptCount < e.attemptCount)
    && (forall n :: n in d.attempts && d.attempts[n].finishedAt.Some? ==>
          n in e.attempts && e.attempts[n] == d.attempts[n])
  }

  lemma EvolvesTransitive(d: Delivery, e: Delivery, f: Delivery)
    requires Evolves(d, e) && Evolves(e, f)
    ensures Evolves(d, f)
  {
    forall n | n in d.attempts && d.attempts[n].finishedAt.Some?
      ensures n in f.attempts && f.attempts[n] == d.attempts[n]
    {
      assert n in e.attempts && e.attempts[n] == d.attempts[n];
    }
  }

  lemma ClaimEvolves(d: Delivery, now: Time, token: nat)
    requires Valid(d) && Due(d, now)
    ensures Evolves(d, Claim(d, now, token))
    ensures d.supersededAt.None? && now < d.expiresAt
  {
    var c := Claim(d, now, token);
    assert forall n :: n in c.attempts && n < c.attemptCount ==> c.attempts[n] == d.attempts[n];
  }

  lemma FinishEvolves(d: Delivery, r: ProviderResult, now: Time, jitter: int)
    requires Valid(d) && d.status == InProgress
    ensures Evolves(d, Finish(d, d.attemptCount, r, now, jitter))
    ensures d.supersededAt.Some? ==> Finish(d, d.attemptCount, r, now, jitter).status == Cancelled
  {
  }

  lemma RecoverEvolves(d: Delivery, now: Time)
    requires Valid(d) && d.status == InProgress
    ensures Evolves(d, Recover(d, now))
    ensures d.supersededAt.Some? ==> Recover(d, now).status == Cancelled
  {
  }

  lemma ExpireEvolves(d: Delivery)
    requires Valid(d) && Waiting(d.status)
    ensures Evolves(d, Expire(d))
  {
  }

  lemma SupersedeEvolves(d: Delivery, now: Time)
    requires Valid(d) && !Terminal(d.status)
    ensures Evolves(d, Supersede(d, now))
    ensures !Waiting(Supersede(d, now).status) && Supersede(d, now).supersededAt.Some?
  {
  }
}
