/** Which deliveries of a heartbeat are acknowledged, and why the others are refused. */
module HeartbeatAnswers {
  import opened Prelude
  import opened HeartbeatIngestion
  import W = AlertWorld

  /** The token is that of an enabled device. */
  predicate Known(s: Store, token: Option<nat>) {
    token.Some? && token.value in s.world.devices && s.world.devices[token.value].enabled
  }

  /** The token is that of the enabled device the heartbeat is from, and the limiter lets it through. */
  predicate Admissible(s: Store, d: Delivery) {
    Known(s, d.token) && d.token == Some(d.heartbeat.device) && d.allowed
  }

  /**
   * A delivery is acknowledged iff it is admissible and its heartbeat has no receipt with another payload. A first one
   * is recorded and acknowledged with its own instant, a repeated one gets the stored acknowledgement and changes
   * nothing. Otherwise the refusal names the first condition that fails, and nothing changes either.
   */
  lemma DeliveryAnswers(s: Store, t: W.Thresholds, d: Delivery)
    ensures var (v, r) := Ingest(s, t, d);
            var (h, key) := (d.heartbeat, (d.heartbeat.device, d.heartbeat.id));
            var repeated := key in s.receipts;
            var mine := d.token == Some(h.device);
            && (r.Ok? <==> Admissible(s, d) && (repeated ==> s.receipts[key].payload == h))
            && (r == Err(AuthenticationFailed) <==> !Known(s, d.token))
            && (r == Err(IdentityMismatch) <==> Known(s, d.token) && !mine)
            && (r == Err(RateLimited) <==> Known(s, d.token) && mine && !d.allowed)
            && (r == Err(Conflict) <==> Admissible(s, d) && repeated && s.receipts[key].payload != h)
            && (r.Ok? && repeated ==> r.value == s.receipts[key].response)
            && (r.Err? || repeated ==> v == s)
            && (r.Ok? && !repeated ==>
                  && r.value == Ack(h.id, h.device, d.now)
                  && v.receipts == s.receipts[key := Receipt(h, d.now, r.value)]
                  && v.samples == s.samples + [Sample(h.device, d.now, h)]
                  && v.latest == s.latest[h.device := Latest(h.id, d.now, h.collectedAt, h.agentVersion, h.hostname, h)]
                  && v.world == W.AcceptHeartbeat(s.world, t, h.device, h.observation, d.now, d.route))
  {
    hide W.AcceptHeartbeat;
  }

  /** The first admissible delivery of a heartbeat in a run. */
  ghost function FirstAdmissible(s: Store, t: W.Thresholds, run: seq<Step>, key: Key): Option<Delivery>
    requires ValidRun(s, t, run)
    decreases |run|
  {
    if run == [] then None
    else if run[0].Deliver? && KeyOf(run[0].delivery.heartbeat) == key && Admissible(s, run[0].delivery) then
      Some(run[0].delivery)
    else FirstAdmissible(Apply(s, t, run[0]), t, run[1..], key)
  }

  /** Over any run a heartbeat gets a receipt iff an admissible delivery of it arrives, and the receipt is that of the
      first one: its payload, its instant, and the acknowledgement of both. */
  lemma {:induction false} ReceiptOfTheFirst(s: Store, t: W.Thresholds, run: seq<Step>, key: Key)
    requires Valid(s) && ValidRun(s, t, run) && key !in s.receipts
    ensures var (receipts, first) := (Run(s, t, run).receipts, FirstAdmissible(s, t, run, key));
            && (key in receipts <==> first.Some?)
            && (first.Some? ==>
                  receipts[key] == Receipt(first.value.heartbeat, first.value.now, Ack(key.1, key.0, first.value.now)))
    decreases |run|
  {
    hide Valid, Ingest;
    if run != [] {
      var next := Apply(s, t, run[0]);
      StepKeepsValid(s, t, run[0]);
      if run[0].Deliver? {
        DeliveryAnswers(s, t, run[0].delivery);
      }
      if key in next.receipts {
        RunKeepsValid(next, t, run[1..]);
      } else {
        ReceiptOfTheFirst(next, t, run[1..], key);
      }
    }
  }
}
