/** One lookup with retries, on a circuit that other workers move while it waits. */
module EnrichmentFetch {
  import opened Prelude
  import opened EnrichmentPool

  /** What one request brings, and how many 429s the other workers record while it is under way and
      during the pause after it. */
  datatype Turn = Turn(reply: Reply, meanwhile: nat, pausing: nat)

  datatype FetchResult = Fetched | Failed(reply: Reply) | Stopped(responses: nat)

  function RecordedTimes(c: Circuit, n: nat, limit: nat): Circuit {
    if n == 0 then c else Recorded(RecordedTimes(c, n - 1, limit), limit)
  }

  /** The stop reason, once there, never changes, and every response is counted. */
  lemma {:induction false} RecordedTimesFacts(c: Circuit, n: nat, limit: nat)
    requires c.stopped.None? ==> limit == 0 || c.responses < limit
    ensures RecordedTimes(c, n, limit).responses == c.responses + n
    ensures c.stopped.Some? ==> RecordedTimes(c, n, limit).stopped == c.stopped
    ensures c.stopped.None? ==>
      RecordedTimes(c, n, limit).stopped == if limit > 0 && c.responses + n >= limit then Some(limit) else None
  {
    if n > 0 { RecordedTimesFacts(c, n - 1, limit); }
  }

  predicate Retryable(r: Reply) { r.RateLimited? || r.Transient? }

  /** The 429s among the first `n` replies. */
  function Own(turns: seq<Turn>, n: nat): nat
    requires n <= |turns|
  {
    if n == 0 then 0 else Own(turns, n - 1) + (if turns[n - 1].reply.RateLimited? then 1 else 0)
  }

  /** Those that others record while the first `n` requests are under way, and in the pauses after them. */
  function Meanwhile(turns: seq<Turn>, n: nat): nat
    requires n <= |turns|
  {
    if n == 0 then 0 else Meanwhile(turns, n - 1) + turns[n - 1].meanwhile
  }

  function Pausing(turns: seq<Turn>, n: nat): nat
    requires n <= |turns|
  {
    if n == 0 then 0 else Pausing(turns, n - 1) + turns[n - 1].pausing
  }

  /** All that the circuit has seen since `start` once `sent` requests are answered and `paused` of
      the pauses are over. */
  function Seen(start: Circuit, turns: seq<Turn>, sent: nat, paused: nat, limit: nat): Circuit
    requires paused <= sent <= |turns|
  {
    RecordedTimes(start, Own(turns, sent) + Meanwhile(turns, sent) + Pausing(turns, paused), limit)
  }

  /** `n` more responses, seen from a circuit that stood at `start` `before` responses ago. */
  method RecordMany(circuit: RateLimitCircuit, n: nat, limit: nat, ghost start: Circuit, ghost before: nat)
    requires circuit.Value() == RecordedTimes(start, before, limit)
    modifies circuit
    ensures circuit.Value() == RecordedTimes(start, before + n, limit)
  {
    for k := 0 to n
      invariant circuit.Value() == RecordedTimes(start, before + k, limit)
    {
      var _ := circuit.Record(limit);
    }
  }

  /** `fetchShipStationJsonWithRetries`. At most one request more than there are retries is sent; the
      circuit is closed just before each of them, whoever might have opened it; only retryable replies
      are retried; the circuit counts each 429 of this lookup once, and nothing but those and what
      the others recorded meanwhile. */
  method FetchWithRetries(circuit: RateLimitCircuit, turns: seq<Turn>, maxRetries: nat, limit: nat)
    returns (result: FetchResult, sent: nat, ghost paused: nat)
    requires |turns| > maxRetries
    modifies circuit
    ensures sent <= maxRetries + 1 && paused <= sent <= paused + 1
    ensures forall k :: 0 <= k < sent ==> Seen(old(circuit.Value()), turns, k, k, limit).stopped.None?
    ensures circuit.Value() == Seen(old(circuit.Value()), turns, sent, paused, limit)
    ensures forall k :: 0 <= k < sent - 1 ==> Retryable(turns[k].reply)
    ensures result.Fetched? <==> sent > 0 && turns[sent - 1].reply.Listed?
    ensures result.Failed? ==>
      && sent > 0 && result.reply == turns[sent - 1].reply
      && (result.reply.Permanent? || (Retryable(result.reply) && sent == maxRetries + 1))
    ensures result.Stopped? ==> circuit.stoppedEarlyReason == Some(result.responses)
    ensures sent == paused ==> result.Stopped?
    ensures sent > paused && result.Stopped? ==> turns[sent - 1].reply.RateLimited?
    ensures result.Failed? && result.reply.RateLimited? ==> circuit.stoppedEarlyReason.None?
  {
    sent, paused := 0, 0;
    ghost var start := circuit.Value();
    var attempt := 0;
    while true
      invariant sent == attempt == paused <= maxRetries
      invariant forall k :: 0 <= k < sent ==> Retryable(turns[k].reply)
      invariant forall k :: 0 <= k < sent ==> Seen(start, turns, k, k, limit).stopped.None?
      invariant circuit.Value() == Seen(start, turns, sent, paused, limit)
      decreases maxRetries - attempt
    {
      if circuit.stoppedEarlyReason.Some? {
        return Stopped(circuit.stoppedEarlyReason.value), sent, paused;
      }
      var turn := turns[attempt];
      ghost var seen := Own(turns, sent) + Meanwhile(turns, sent) + Pausing(turns, paused);
      RecordMany(circuit, turn.meanwhile, limit, start, seen);
      sent := sent + 1;
      if turn.reply.Listed? { return Fetched, sent, paused; }
      if turn.reply.RateLimited? {
        var reason := circuit.Record(limit);
        if reason.Some? { return Stopped(reason.value), sent, paused; }
      }
      if attempt >= maxRetries || turn.reply.Permanent? { return Failed(turn.reply), sent, paused; }
      seen := Own(turns, sent) + Meanwhile(turns, sent) + Pausing(turns, paused);
      RecordMany(circuit, turn.pausing, limit, start, seen);
      paused := paused + 1;
      attempt := attempt + 1;
    }
  }
}
