/** The worker pool of `runEnrichment`: workers share a claim counter, an array of outcomes
    and a rate-limit circuit breaker, and may interleave at every await point. */
module EnrichmentPool {
  import opened Prelude

  /** The circuit's fields. `stopped` carries the count printed in the stop reason. */
  datatype Circuit = Circuit(responses: nat, stopped: Option<nat>)

  const NEW_CIRCUIT := Circuit(0, None)

  function Recorded(c: Circuit, limit: nat): (r: Circuit)
    ensures r.responses == c.responses + 1
    ensures c.stopped.Some? ==> r.stopped == c.stopped
    ensures r.stopped.Some? && c.stopped.None? ==> 0 < limit <= r.responses && r.stopped == Some(r.responses)
    ensures r.stopped.None? ==> limit == 0 || r.responses < limit
  {
    var n := c.responses + 1;
    Circuit(n, if c.stopped.None? && limit > 0 && n >= limit then Some(n) else c.stopped)
  }

  /** The mutable object the workers share. */
  class RateLimitCircuit {
    var rateLimitResponses: nat
    var stoppedEarlyReason: Option<nat>

    ghost function Value(): Circuit
      reads this
    {
      Circuit(rateLimitResponses, stoppedEarlyReason)
    }

    constructor ()
      ensures Value() == NEW_CIRCUIT
    {
      rateLimitResponses, stoppedEarlyReason := 0, None;
    }

    method Record(maxRateLimitErrors: nat) returns (reason: Option<nat>)
      modifies this
      ensures Value() == Recorded(old(Value()), maxRateLimitErrors)
      ensures reason == stoppedEarlyReason
    {
      rateLimitResponses := rateLimitResponses + 1;
      if stoppedEarlyReason == None && maxRateLimitErrors > 0 && rateLimitResponses >= maxRateLimitErrors {
        stoppedEarlyReason := Some(rateLimitResponses);
      }
      reason := stoppedEarlyReason;
    }
  }

  /** What one HTTP request comes back with: a list, a 429, an error the lookup retries
      (timeout, 5xx, network), or one it does not. */
  datatype Reply = Listed | RateLimited | Transient | Permanent

  datatype Outcome<C> = Decided(candidate: C) | LookupError(candidate: C)

  /** `lookups[i]` is the number of distinct lookup URLs of candidate `i` (one to three). */
  datatype Config<C> = Config(candidates: seq<C>, lookups: seq<nat>, concurrency: nat, limit: nat, maxRetries: nat)
  {
    ghost predicate Valid() {
      && |lookups| == |candidates|
      && (forall i :: 0 <= i < |lookups| ==> 1 <= lookups[i] <= 3)
      && 1 <= concurrency
    }

    function WorkerCount(): nat {
      if concurrency < |candidates| then concurrency else |candidates|
    }
  }

  /** Where a worker is, between two of its atomic stretches of code. */
  datatype Worker<C> =
    | Top                                            // head of the worker loop
    | Ready(index: nat, url: nat, attempt: nat)      // head of the retry loop
    | InFlight(index: nat, url: nat, attempt: nat)   // awaiting the HTTP response
    | Persisting(index: nat)                         // awaiting the database
    | Returning(index: nat, outcome: Outcome<C>)     // awaiting enrichCandidate
    | Finished
  {
    /** The candidate index this worker has claimed and not yet settled, or -1. */
    function Claimed(): int {
      if Top? || Finished? then -1 else index
    }
  }

  datatype State<C> = State(
    circuit: Circuit,
    next: nat,
    workers: seq<Worker<C>>,
    outcomesByIndex: seq<Option<Outcome<C>>>,
    processed: nat,
    errors: nat,
    requests: nat)   // requests sent so far; bookkeeping of this model only

  function Start<C>(cfg: Config<C>): State<C> {
    State(NEW_CIRCUIT, 0, seq(cfg.WorkerCount(), _ => Top), seq(|cfg.candidates|, _ => None), 0, 0, 0)
  }

  /** The scheduler's choice: which worker resumes, and what its await produced. */
  datatype Choice = Choice(worker: nat, reply: Reply, databaseFails: bool)

  predicate Enabled<C>(s: State<C>, ch: Choice) {
    ch.worker < |s.workers| && !s.workers[ch.worker].Finished?
  }

  function At<C>(s: State<C>, w: nat, to: Worker<C>): State<C>
    requires w < |s.workers|
  {
    s.(workers := s.workers[w := to])
  }

  /** A worker resumes and runs to its next await. */
  function Step<C>(cfg: Config<C>, s: State<C>, ch: Choice): State<C>
    requires Inv(cfg, s) && Enabled(s, ch)
  {
    var w := ch.worker;
    assert WorkerOk(cfg, s, s.workers[w]);
    match s.workers[w]
    case Top => Claim(cfg, s, w)
    case Ready(i, u, a) =>
      if s.circuit.stopped.Some? then At(s, w, Returning(i, LookupError(cfg.candidates[i])))
      else At(s, w, InFlight(i, u, a)).(requests := s.requests + 1)
    case InFlight(i, u, a) => Respond(cfg, s, w, ch.reply)
    case Persisting(i) =>
      At(s, w, Returning(i, if ch.databaseFails then LookupError(cfg.candidates[i]) else Decided(cfg.candidates[i])))
    case Returning(i, outcome) =>
      At(s, w, if s.circuit.stopped.Some? then Finished else Top).(
        outcomesByIndex := s.outcomesByIndex[i := Some(outcome)],
        processed := s.processed + 1,
        errors := s.errors + (if outcome.LookupError? then 1 else 0))
    case Finished => s
  }

  function Claim<C>(cfg: Config<C>, s: State<C>, w: nat): State<C>
    requires w < |s.workers|
  {
    if s.circuit.stopped.Some? then At(s, w, Finished)
    else
      var s' := s.(next := s.next + 1);
      if s.next >= |cfg.candidates| then At(s', w, Finished) else At(s', w, Ready(s.next, 0, 0))
  }

  function Respond<C>(cfg: Config<C>, s: State<C>, w: nat, reply: Reply): State<C>
    requires w < |s.workers| && s.workers[w].InFlight?
    requires s.workers[w].index < |cfg.candidates| == |cfg.lookups|
  {
    var InFlight(i, u, a) := s.workers[w];
    if reply.Listed? then
      At(s, w, if u + 1 < cfg.lookups[i] then Ready(i, u + 1, 0) else Persisting(i))
    else
      var circuit := if reply.RateLimited? then Recorded(s.circuit, cfg.limit) else s.circuit;
      var gaveUp := (reply.RateLimited? && circuit.stopped.Some?) || a >= cfg.maxRetries || reply.Permanent?;
      At(s, w, if gaveUp then Returning(i, LookupError(cfg.candidates[i])) else Ready(i, u, a + 1)).(circuit := circuit)
  }

  /** A run is any sequence of choices of enabled workers. */
  ghost predicate Admissible<C>(cfg: Config<C>, s: State<C>, run: seq<Choice>)
    requires Inv(cfg, s)
    decreases |run|
  {
    run == [] ||
    (Enabled(s, run[0]) && (StepKeepsInv(cfg, s, run[0]); Admissible(cfg, Step(cfg, s, run[0]), run[1..])))
  }

  ghost function After<C>(cfg: Config<C>, s: State<C>, run: seq<Choice>): (s': State<C>)
    requires Inv(cfg, s) && Admissible(cfg, s, run)
    ensures Inv(cfg, s')
    decreases |run|
  {
    if run == [] then s
    else StepKeepsInv(cfg, s, run[0]); After(cfg, Step(cfg, s, run[0]), run[1..])
  }

  /** All workers have returned, so `Promise.all` resolves. */
  predicate Done<C>(s: State<C>) {
    forall w :: 0 <= w < |s.workers| ==> s.workers[w].Finished?
  }

  /** The outcomes the run returns: the defined slots, in index order. */
  function Returned<C>(slots: seq<Option<Outcome<C>>>): seq<Outcome<C>> {
    if slots == [] then []
    else if slots[0].Some? then [slots[0].value] + Returned(slots[1..])
    else Returned(slots[1..])
  }

  // ---------------------------------------------------------------- invariant

  ghost predicate Inv<C>(cfg: Config<C>, s: State<C>) {
    && cfg.Valid()
    && |s.workers| == cfg.WorkerCount()
    && |s.outcomesByIndex| == |cfg.candidates|
    && ClaimsInv(cfg, s)
    && CircuitInv(cfg, s)
    && CountersInv(s)
  }

  /** What one worker may rely on. */
  ghost predicate WorkerOk<C>(cfg: Config<C>, s: State<C>, x: Worker<C>)
    requires cfg.Valid() && |s.outcomesByIndex| == |cfg.candidates|
  {
    match x
    case Top => true
    case Finished => s.circuit.stopped.Some? || s.next >= |cfg.candidates|
    case Ready(i, u, a) => Unsettled(cfg, s, i) && u < cfg.lookups[i] && a <= cfg.maxRetries
    case InFlight(i, u, a) => Unsettled(cfg, s, i) && u < cfg.lookups[i] && a <= cfg.maxRetries
    case Persisting(i) => Unsettled(cfg, s, i)
    case Returning(i, outcome) => Unsettled(cfg, s, i) && outcome.candidate == cfg.candidates[i]
  }

  /** Candidate `i` has been claimed and has no outcome yet. */
  ghost predicate Unsettled<C>(cfg: Config<C>, s: State<C>, i: nat)
    requires |s.outcomesByIndex| == |cfg.candidates|
  {
    i < |cfg.candidates| && i < s.next && s.outcomesByIndex[i].None?
  }

  ghost predicate Held<C>(ws: seq<Worker<C>>, i: nat) {
    exists w :: 0 <= w < |ws| && ws[w].Claimed() == i
  }

  /** Claimed indices are either decided, for the right candidate, or held by exactly one worker. */
  ghost predicate ClaimsInv<C>(cfg: Config<C>, s: State<C>)
    requires cfg.Valid() && |s.outcomesByIndex| == |cfg.candidates|
  {
    && (forall w :: 0 <= w < |s.workers| ==> WorkerOk(cfg, s, s.workers[w]))
    && (forall w, v :: 0 <= w < v < |s.workers| && s.workers[w].Claimed() >= 0 ==>
          s.workers[w].Claimed() != s.workers[v].Claimed())
    && (forall i :: 0 <= i < |cfg.candidates| && s.next <= i ==> s.outcomesByIndex[i].None?)
    && (forall i :: 0 <= i < |cfg.candidates| && Unsettled(cfg, s, i) ==> Held(s.workers, i))
    && (forall i :: 0 <= i < |cfg.candidates| && s.outcomesByIndex[i].Some? ==>
          s.outcomesByIndex[i].value.candidate == cfg.candidates[i])
  }

  predicate IsInFlight<C>(x: Worker<C>) { x.InFlight? }

  predicate IsLookupError<C>(o: Outcome<C>) { o.LookupError? }

  function InFlightCount<C>(s: State<C>): nat {
    Count(IsInFlight, s.workers)
  }

  /** The circuit is open exactly from the `limit`-th response on; what is still in flight
      bounds how far the count can run over. */
  ghost predicate CircuitInv<C>(cfg: Config<C>, s: State<C>) {
    && (s.circuit.stopped.Some? <==> 0 < cfg.limit <= s.circuit.responses)
    && (s.circuit.stopped.Some? ==>
          s.circuit.stopped == Some(cfg.limit) &&
          s.circuit.responses + InFlightCount(s) <= cfg.limit + cfg.WorkerCount() - 1)
    && s.circuit.responses + InFlightCount(s) <= s.requests
  }

  ghost predicate CountersInv<C>(s: State<C>) {
    && s.processed == |Returned(s.outcomesByIndex)|
    && s.errors == Count(IsLookupError, Returned(s.outcomesByIndex))
  }

  // ------------------------------------------------------- preservation

  lemma {:induction false} StartInv<C>(cfg: Config<C>)
    requires cfg.Valid()
    ensures Inv(cfg, Start(cfg))
  {
    NothingReturned(Start(cfg).outcomesByIndex);
    NoneInFlight(Start(cfg).workers);
  }

  lemma {:induction false} NothingReturned<C>(slots: seq<Option<Outcome<C>>>)
    requires forall i :: 0 <= i < |slots| ==> slots[i].None?
    ensures Returned(slots) == []
  {
    if slots != [] { NothingReturned(slots[1..]); }
  }

  lemma {:induction false} NoneInFlight<C>(ws: seq<Worker<C>>)
    requires forall w :: 0 <= w < |ws| ==> !ws[w].InFlight?
    ensures Count(IsInFlight, ws) == 0
  {
    if ws != [] { NoneInFlight(ws[1..]); }
  }

  /** Filling an empty slot adds exactly that outcome to the returned ones. */
  lemma {:induction false} ReturnedUpdate<C>(slots: seq<Option<Outcome<C>>>, i: nat, o: Outcome<C>)
    requires i < |slots| && slots[i].None?
    ensures |Returned(slots[i := Some(o)])| == |Returned(slots)| + 1
    ensures Count(IsLookupError, Returned(slots[i := Some(o)])) ==
            Count(IsLookupError, Returned(slots)) + (if o.LookupError? then 1 else 0)
  {
    var slots' := slots[i := Some(o)];
    if i == 0 {
      assert slots'[1..] == slots[1..];
      CountCons(o, Returned(slots[1..]));
    } else {
      assert slots'[1..] == slots[1..][i - 1 := Some(o)];
      ReturnedUpdate(slots[1..], i - 1, o);
      if slots[0].Some? {
        CountCons(slots[0].value, Returned(slots[1..]));
        CountCons(slots[0].value, Returned(slots'[1..]));
      }
    }
  }

  lemma {:induction false} CountCons<C>(o: Outcome<C>, rest: seq<Outcome<C>>)
    ensures Count(IsLookupError, [o] + rest) == (if o.LookupError? then 1 else 0) + Count(IsLookupError, rest)
  {
    assert ([o] + rest)[1..] == rest;
  }

  lemma {:induction false} StepKeepsInv<C>(cfg: Config<C>, s: State<C>, ch: Choice)
    requires Inv(cfg, s) && Enabled(s, ch)
    ensures Inv(cfg, Step(cfg, s, ch))
  {
    StepKeepsClaims(cfg, s, ch);
    StepKeepsCircuit(cfg, s, ch);
    var w := ch.worker;
    if s.workers[w].Returning? {
      assert WorkerOk(cfg, s, s.workers[w]);
      ReturnedUpdate(s.outcomesByIndex, s.workers[w].index, s.workers[w].outcome);
    }
  }

  lemma {:induction false} StepKeepsClaims<C>(cfg: Config<C>, s: State<C>, ch: Choice)
    requires Inv(cfg, s) && Enabled(s, ch)
    ensures |Step(cfg, s, ch).workers| == cfg.WorkerCount()
    ensures |Step(cfg, s, ch).outcomesByIndex| == |cfg.candidates|
    ensures ClaimsInv(cfg, Step(cfg, s, ch))
  {
    var w := ch.worker;
    var s' := Step(cfg, s, ch);
    var x, x' := s.workers[w], s'.workers[w];
    assert WorkerOk(cfg, s, x);
    if x.Top? && x'.Ready? {
      ClaimKeepsClaims(cfg, s, w);
    } else if x.Returning? {
      SettleKeepsClaims(cfg, s, ch);
    } else {
      MoveKeepsClaims(cfg, s, s', w);
    }
  }

  /** Moving on while keeping the claimed index (or holding none). */
  lemma {:induction false} MoveKeepsClaims<C>(cfg: Config<C>, s: State<C>, s': State<C>, w: nat)
    requires Inv(cfg, s) && w < |s.workers|
    requires |s'.workers| == |s.workers| && s'.workers == s.workers[w := s'.workers[w]]
    requires s'.workers[w].Claimed() == s.workers[w].Claimed()
    requires s'.outcomesByIndex == s.outcomesByIndex
    requires s'.next == s.next || (s.next >= |cfg.candidates| && s'.next == s.next + 1)
    requires s.circuit.stopped.Some? ==> s'.circuit.stopped.Some?
    requires WorkerOk(cfg, s', s'.workers[w])
    ensures ClaimsInv(cfg, s')
  {
    forall v | 0 <= v < |s'.workers| ensures WorkerOk(cfg, s', s'.workers[v]) {
      assert WorkerOk(cfg, s, s.workers[v]);
    }
    forall i | 0 <= i < |cfg.candidates| && Unsettled(cfg, s', i) ensures Held(s'.workers, i) {
      assert Unsettled(cfg, s, i);
      var v :| 0 <= v < |s.workers| && s.workers[v].Claimed() == i;
      assert s'.workers[v].Claimed() == i;
    }
  }

  lemma {:induction false} ClaimKeepsClaims<C>(cfg: Config<C>, s: State<C>, w: nat)
    requires Inv(cfg, s) && w < |s.workers| && s.workers[w].Top?
    requires s.circuit.stopped.None? && s.next < |cfg.candidates|
    ensures ClaimsInv(cfg, Claim(cfg, s, w))
  {
    var s' := Claim(cfg, s, w);
    forall v | 0 <= v < |s'.workers| ensures WorkerOk(cfg, s', s'.workers[v]) {
      assert WorkerOk(cfg, s, s.workers[v]);
    }
    forall v | 0 <= v < |s.workers| ensures s.workers[v].Claimed() < s.next {
      assert WorkerOk(cfg, s, s.workers[v]);
    }
    forall i | 0 <= i < |cfg.candidates| && Unsettled(cfg, s', i) ensures Held(s'.workers, i) {
      if i == s.next {
        assert s'.workers[w].Claimed() == i;
      } else {
        assert Unsettled(cfg, s, i);
        var v :| 0 <= v < |s.workers| && s.workers[v].Claimed() == i;
        assert s'.workers[v].Claimed() == i;
      }
    }
  }

  lemma {:induction false} SettleKeepsClaims<C>(cfg: Config<C>, s: State<C>, ch: Choice)
    requires Inv(cfg, s) && Enabled(s, ch) && s.workers[ch.worker].Returning?
    ensures ClaimsInv(cfg, Step(cfg, s, ch))
  {
    var w := ch.worker;
    var s' := Step(cfg, s, ch);
    assert WorkerOk(cfg, s, s.workers[w]);
    forall v | 0 <= v < |s'.workers| ensures WorkerOk(cfg, s', s'.workers[v]) {
      assert WorkerOk(cfg, s, s.workers[v]);
      assert v != w ==> s.workers[v].Claimed() != s.workers[w].Claimed();
    }
    forall i | 0 <= i < |cfg.candidates| && Unsettled(cfg, s', i) ensures Held(s'.workers, i) {
      assert Unsettled(cfg, s, i);
      var v :| 0 <= v < |s.workers| && s.workers[v].Claimed() == i;
      assert s'.workers[v].Claimed() == i;
    }
  }

  lemma {:induction false} StepKeepsCircuit<C>(cfg: Config<C>, s: State<C>, ch: Choice)
    requires Inv(cfg, s) && Enabled(s, ch)
    ensures CircuitInv(cfg, Step(cfg, s, ch))
  {
    var w := ch.worker;
    var s' := Step(cfg, s, ch);
    CountUpdate(IsInFlight, s.workers, w, s'.workers[w]);
    assert s'.workers == s.workers[w := s'.workers[w]];
    if s.workers[w].InFlight? && !s'.workers[w].InFlight? {
      assert InFlightCount(s') == InFlightCount(s) - 1 <= |s.workers| - 1;
    }
  }

  // ------------------------------------------------------- main results

  /** In every interleaving, what `Promise.all` leaves behind is the outcomes of a prefix of the
      candidate list, in order and each once; the whole list when the circuit stayed closed. */
  lemma {:induction false} OutcomesArePrefix<C>(cfg: Config<C>, run: seq<Choice>)
    requires cfg.Valid() && Inv(cfg, Start(cfg)) && Admissible(cfg, Start(cfg), run)
    requires Done(After(cfg, Start(cfg), run))
    ensures
      var s := After(cfg, Start(cfg), run);
      var returned := Returned(s.outcomesByIndex);
      && |returned| <= |cfg.candidates|
      && (forall i :: 0 <= i < |returned| ==> returned[i].candidate == cfg.candidates[i])
      && s.processed == |returned|
      && (s.circuit.stopped.None? ==> |returned| == |cfg.candidates|)
  {
    var s := After(cfg, Start(cfg), run);
    var k := if s.next < |cfg.candidates| then s.next else |cfg.candidates|;
    forall i | 0 <= i < k ensures s.outcomesByIndex[i].Some? {
      assert !Held(s.workers, i);
      assert !Unsettled(cfg, s, i);
    }
    ReturnedPrefix(s.outcomesByIndex, k);
    if s.circuit.stopped.None? && |cfg.candidates| > 0 {
      assert WorkerOk(cfg, s, s.workers[0]);
    }
  }

  lemma {:induction false} ReturnedPrefix<C>(slots: seq<Option<Outcome<C>>>, k: nat)
    requires k <= |slots|
    requires forall i :: 0 <= i < |slots| ==> (slots[i].Some? <==> i < k)
    ensures |Returned(slots)| == k
    ensures forall i :: 0 <= i < k ==> Returned(slots)[i] == slots[i].value
  {
    if slots != [] {
      if k == 0 {
        NothingReturned(slots);
      } else {
        ReturnedPrefix(slots[1..], k - 1);
      }
    }
  }

  /** At most `limit + W - 1` responses are ever counted, and the reported stop count is `limit`. */
  lemma {:induction false} RateLimitBound<C>(cfg: Config<C>, run: seq<Choice>)
    requires cfg.Valid() && Inv(cfg, Start(cfg)) && Admissible(cfg, Start(cfg), run)
    requires cfg.limit > 0 && |cfg.candidates| > 0
    ensures After(cfg, Start(cfg), run).circuit.responses <= cfg.limit + cfg.WorkerCount() - 1
    ensures After(cfg, Start(cfg), run).circuit.stopped.Some? ==>
              After(cfg, Start(cfg), run).circuit.stopped == Some(cfg.limit)
  {
    assert CircuitInv(cfg, After(cfg, Start(cfg), run));
  }

  /** With the limit disabled the circuit stays closed whatever the provider answers. */
  lemma {:induction false} DisabledLimitNeverStops<C>(cfg: Config<C>, run: seq<Choice>)
    requires cfg.Valid() && Inv(cfg, Start(cfg)) && Admissible(cfg, Start(cfg), run)
    requires cfg.limit == 0
    ensures After(cfg, Start(cfg), run).circuit.stopped.None?
  {
    assert CircuitInv(cfg, After(cfg, Start(cfg), run));
  }

  /** Once open, the circuit stays open for the same reason, and from then on no candidate is
      claimed and no request is sent. */
  lemma {:induction false} OpenCircuitIsFinal<C>(cfg: Config<C>, s: State<C>, run: seq<Choice>)
    requires Inv(cfg, s) && Admissible(cfg, s, run)
    requires s.circuit.stopped.Some?
    ensures
      var s' := After(cfg, s, run);
      s'.circuit.stopped == s.circuit.stopped && s'.next == s.next && s'.requests == s.requests
    decreases |run|
  {
    if run != [] {
      StepKeepsInv(cfg, s, run[0]);
      OpenCircuitIsFinal(cfg, Step(cfg, s, run[0]), run[1..]);
    }
  }

  // ------------------------------------------------------- termination

  /** Steps a worker can still take before it is back at the loop head, plus one. */
  function Rank<C>(cfg: Config<C>, x: Worker<C>): (r: nat)
    requires (x.Ready? || x.InFlight?) ==>
               x.index < |cfg.lookups| && x.url < cfg.lookups[x.index] && x.attempt <= cfg.maxRetries
  {
    match x
    case Finished => 0
    case Top => 1
    case Returning(_, _) => 2
    case Persisting(_) => 3
    case InFlight(i, u, a) => 2 + 2 * AttemptsLeft(cfg.lookups[i] - u, a, cfg.maxRetries)
    case Ready(i, u, a) => 3 + 2 * AttemptsLeft(cfg.lookups[i] - u, a, cfg.maxRetries)
  }

  /** Requests left to a lookup on its `attempt`-th try of the first of `urls` URLs. */
  function AttemptsLeft(urls: nat, attempt: nat, maxRetries: nat): (n: nat)
    requires urls >= 1 && attempt <= maxRetries
    ensures n >= 1
  {
    (urls - 1) * (maxRetries + 1) + (maxRetries + 1 - attempt)
  }

  function RankSum<C>(cfg: Config<C>, ws: seq<Worker<C>>): nat
    requires forall x :: x in ws && (x.Ready? || x.InFlight?) ==>
               x.index < |cfg.lookups| && x.url < cfg.lookups[x.index] && x.attempt <= cfg.maxRetries
  {
    if ws == [] then 0 else Rank(cfg, ws[0]) + RankSum(cfg, ws[1..])
  }

  lemma {:induction false} RankSumUpdate<C>(cfg: Config<C>, ws: seq<Worker<C>>, w: nat, x: Worker<C>)
    requires w < |ws|
    requires forall y :: (y in ws || y == x) && (y.Ready? || y.InFlight?) ==>
               y.index < |cfg.lookups| && y.url < cfg.lookups[y.index] && y.attempt <= cfg.maxRetries
    ensures RankSum(cfg, ws[w := x]) == RankSum(cfg, ws) - Rank(cfg, ws[w]) + Rank(cfg, x)
  {
    if w == 0 {
      assert ws[w := x][1..] == ws[1..];
    } else {
      assert ws[w := x][1..] == ws[1..][w - 1 := x];
      RankSumUpdate(cfg, ws[1..], w - 1, x);
    }
  }

  /** An upper bound on how many more steps the whole pool can take. */
  ghost function StepsLeft<C>(cfg: Config<C>, s: State<C>): nat
    requires Inv(cfg, s)
  {
    RanksDefined(cfg, s);
    RankSum(cfg, s.workers) + Unclaimed(cfg, s) * CandidateSteps(cfg)
  }

  function Unclaimed<C>(cfg: Config<C>, s: State<C>): nat {
    if s.next < |cfg.candidates| then |cfg.candidates| - s.next else 0
  }

  function CandidateSteps<C>(cfg: Config<C>): nat { 3 + 6 * (cfg.maxRetries + 1) }

  lemma {:induction false} RanksDefined<C>(cfg: Config<C>, s: State<C>)
    requires Inv(cfg, s)
    ensures forall x :: x in s.workers && (x.Ready? || x.InFlight?) ==>
              x.index < |cfg.lookups| && x.url < cfg.lookups[x.index] && x.attempt <= cfg.maxRetries
  {
    forall x | x in s.workers && (x.Ready? || x.InFlight?)
      ensures x.index < |cfg.lookups| && x.url < cfg.lookups[x.index] && x.attempt <= cfg.maxRetries
    {
      assert WorkerOk(cfg, s, x);
    }
  }

  lemma {:induction false} StepMakesProgress<C>(cfg: Config<C>, s: State<C>, ch: Choice)
    requires Inv(cfg, s) && Enabled(s, ch)
    ensures Inv(cfg, Step(cfg, s, ch))
    ensures StepsLeft(cfg, Step(cfg, s, ch)) < StepsLeft(cfg, s)
  {
    StepKeepsInv(cfg, s, ch);
    var s' := Step(cfg, s, ch);
    var x, x' := s.workers[ch.worker], s'.workers[ch.worker];
    RanksDefined(cfg, s);
    RanksDefined(cfg, s');
    StepRankSum(cfg, s, ch);
    StepUnclaimed(cfg, s, ch);
    if x.Top? && x'.Ready? {
      ClaimIsPaidFor(cfg, x');
      OneFewer(Unclaimed(cfg, s), Unclaimed(cfg, s'), CandidateSteps(cfg));
    } else {
      StepMoves(cfg, s, ch);
      RankDrops(cfg, x, x');
    }
  }

  lemma {:induction false} OneFewer(u: nat, u': nat, c: nat)
    requires u == u' + 1
    ensures u * c == u' * c + c
  {
  }

  lemma {:induction false} StepUnclaimed<C>(cfg: Config<C>, s: State<C>, ch: Choice)
    requires Inv(cfg, s) && Enabled(s, ch)
    ensures var claims := s.workers[ch.worker].Top? && Step(cfg, s, ch).workers[ch.worker].Ready?;
            Unclaimed(cfg, s) == Unclaimed(cfg, Step(cfg, s, ch)) + (if claims then 1 else 0)
  {
  }

  lemma {:induction false} StepRankSum<C>(cfg: Config<C>, s: State<C>, ch: Choice)
    requires Inv(cfg, s) && Enabled(s, ch) && Inv(cfg, Step(cfg, s, ch))
    ensures (RanksDefined(cfg, s); RanksDefined(cfg, Step(cfg, s, ch));
             RankSum(cfg, Step(cfg, s, ch).workers) ==
             RankSum(cfg, s.workers) - Rank(cfg, s.workers[ch.worker]) + Rank(cfg, Step(cfg, s, ch).workers[ch.worker]))
  {
    var s' := Step(cfg, s, ch);
    RanksDefined(cfg, s);
    RanksDefined(cfg, s');
    var x' := s'.workers[ch.worker];
    assert x' in s'.workers;
    assert s'.workers == s.workers[ch.worker := x'];
    RankSumUpdate(cfg, s.workers, ch.worker, x');
  }

  lemma {:induction false} ClaimIsPaidFor<C>(cfg: Config<C>, x: Worker<C>)
    requires cfg.Valid() && x.Ready? && x.index < |cfg.lookups| && x.url == 0 && x.attempt == 0
    ensures Rank(cfg, x) <= CandidateSteps(cfg)
  {
    var l, r := cfg.lookups[x.index], cfg.maxRetries + 1;
    assert 1 <= l <= 3;
    assert l == 1 ==> (l - 1) * r == 0;
    assert l == 2 ==> (l - 1) * r == r;
    assert l == 3 ==> (l - 1) * r == 2 * r;
  }

  /** How a worker can change in a step that claims nothing. */
  predicate Moves<C>(cfg: Config<C>, x: Worker<C>, x': Worker<C>)
    requires x.Ready? || x.InFlight? ==> x.index < |cfg.lookups|
  {
    match x
    case Top => x'.Finished?
    case Ready(i, u, a) => x'.Returning? || x' == InFlight(i, u, a)
    case InFlight(i, u, a) =>
      || x'.Persisting? || x'.Returning?
      || (u + 1 < cfg.lookups[i] && x' == Ready(i, u + 1, 0))
      || (a < cfg.maxRetries && x' == Ready(i, u, a + 1))
    case Persisting(_) => x'.Returning?
    case Returning(_, _) => x'.Top? || x'.Finished?
    case Finished => false
  }

  lemma {:induction false} StepMoves<C>(cfg: Config<C>, s: State<C>, ch: Choice)
    requires Inv(cfg, s) && Enabled(s, ch)
    requires !(s.workers[ch.worker].Top? && Step(cfg, s, ch).workers[ch.worker].Ready?)
    ensures (RanksDefined(cfg, s); Moves(cfg, s.workers[ch.worker], Step(cfg, s, ch).workers[ch.worker]))
  {
    RanksDefined(cfg, s);
  }

  lemma {:induction false} RankDrops<C>(cfg: Config<C>, x: Worker<C>, x': Worker<C>)
    requires cfg.Valid()
    requires x.Ready? || x.InFlight? ==>
               x.index < |cfg.lookups| && x.url < cfg.lookups[x.index] && x.attempt <= cfg.maxRetries
    requires Moves(cfg, x, x')
    ensures Rank(cfg, x') < Rank(cfg, x)
  {
    if x.InFlight? {
      var l, r := cfg.lookups[x.index] - x.url, cfg.maxRetries + 1;
      assert (l - 1) * r == (l - 1 - 1) * r + r;
    }
  }

  /** Every run is finite, with a bound known before it starts. */
  lemma {:induction false} RunsAreBounded<C>(cfg: Config<C>, s: State<C>, run: seq<Choice>)
    requires Inv(cfg, s) && Admissible(cfg, s, run)
    ensures |run| + StepsLeft(cfg, After(cfg, s, run)) <= StepsLeft(cfg, s)
    decreases |run|
  {
    if run != [] {
      StepMakesProgress(cfg, s, run[0]);
      RunsAreBounded(cfg, Step(cfg, s, run[0]), run[1..]);
    }
  }

  lemma {:induction false} StartStepsLeft<C>(cfg: Config<C>)
    requires cfg.Valid() && Inv(cfg, Start(cfg))
    ensures StepsLeft(cfg, Start(cfg)) == cfg.WorkerCount() + |cfg.candidates| * (3 + 6 * (cfg.maxRetries + 1))
  {
    AllTopRank(cfg, Start(cfg).workers);
  }

  lemma {:induction false} AllTopRank<C>(cfg: Config<C>, ws: seq<Worker<C>>)
    requires forall w :: 0 <= w < |ws| ==> ws[w].Top?
    ensures RankSum(cfg, ws) == |ws|
  {
    if ws != [] { AllTopRank(cfg, ws[1..]); }
  }

  /** No deadlock: from any reachable state the pool can be driven to completion. */
  lemma {:induction false} EveryRunCompletes<C>(cfg: Config<C>, s: State<C>) returns (run: seq<Choice>)
    requires Inv(cfg, s)
    ensures Admissible(cfg, s, run) && Done(After(cfg, s, run))
    decreases StepsLeft(cfg, s)
  {
    if Done(s) {
      run := [];
    } else {
      var w :| 0 <= w < |s.workers| && !s.workers[w].Finished?;
      var ch := Choice(w, Listed, false);
      StepMakesProgress(cfg, s, ch);
      var rest := EveryRunCompletes(cfg, Step(cfg, s, ch));
      run := [ch] + rest;
      assert run[1..] == rest;
    }
  }

  // ------------------------------------------------------- the bound is exact

  lemma {:induction false} Extend<C>(cfg: Config<C>, s: State<C>, run: seq<Choice>, ch: Choice)
    requires Inv(cfg, s) && Admissible(cfg, s, run) && Enabled(After(cfg, s, run), ch)
    ensures Admissible(cfg, s, run + [ch])
    ensures After(cfg, s, run + [ch]) == Step(cfg, After(cfg, s, run), ch)
    decreases |run|
  {
    if run == [] {
      assert run + [ch] == [ch];
      StepKeepsInv(cfg, s, ch);
      assert [ch][1..] == [];
    } else {
      StepKeepsInv(cfg, s, run[0]);
      assert (run + [ch])[1..] == run[1..] + [ch];
      Extend(cfg, Step(cfg, s, run[0]), run[1..], ch);
    }
  }

  /** A worker at the loop head claims the next candidate and sends its first request. */
  lemma {:induction false} SendRequest(cfg: Config<nat>, run: seq<Choice>, w: nat) returns (run': seq<Choice>)
    requires cfg.Valid() && Inv(cfg, Start(cfg)) && Admissible(cfg, Start(cfg), run)
    requires var s := After(cfg, Start(cfg), run);
             w < |s.workers| && s.workers[w].Top? && s.circuit.stopped.None? && s.next < |cfg.candidates|
    ensures Admissible(cfg, Start(cfg), run')
    ensures var s := After(cfg, Start(cfg), run);
            After(cfg, Start(cfg), run') ==
            s.(workers := s.workers[w := InFlight(s.next, 0, 0)], next := s.next + 1, requests := s.requests + 1)
    ensures run <= run'
  {
    var s := After(cfg, Start(cfg), run);
    var ch := Choice(w, RateLimited, false);
    Extend(cfg, Start(cfg), run, ch);
    ClaimThenSend(cfg, s, w);
    Extend(cfg, Start(cfg), run + [ch], ch);
    run' := run + [ch] + [ch];
  }

  lemma {:induction false} ClaimThenSend<C>(cfg: Config<C>, s: State<C>, w: nat)
    requires Inv(cfg, s) && w < |s.workers| && s.workers[w].Top?
    requires s.circuit.stopped.None? && s.next < |cfg.candidates|
    ensures var ch := Choice(w, RateLimited, false);
      && Inv(cfg, Step(cfg, s, ch)) && Enabled(Step(cfg, s, ch), ch)
      && Step(cfg, Step(cfg, s, ch), ch)
         == s.(workers := s.workers[w := InFlight(s.next, 0, 0)], next := s.next + 1, requests := s.requests + 1)
  {
    StepKeepsInv(cfg, s, Choice(w, RateLimited, false));
    assert s.workers[w := Ready(s.next, 0, 0)][w := InFlight(s.next, 0, 0)] == s.workers[w := InFlight(s.next, 0, 0)];
  }

  /** The reply is a 429 that leaves the circuit closed; the worker gives up and loops. */
  lemma {:induction false} RejectOne(cfg: Config<nat>, run: seq<Choice>, w: nat) returns (run': seq<Choice>)
    requires cfg.Valid() && Inv(cfg, Start(cfg)) && Admissible(cfg, Start(cfg), run)
    requires cfg.maxRetries == 0
    requires var s := After(cfg, Start(cfg), run);
             && w < |s.workers| && s.workers[w].InFlight?
             && s.circuit.stopped.None? && s.circuit.responses + 1 < cfg.limit
    ensures Admissible(cfg, Start(cfg), run')
    ensures var s, s' := After(cfg, Start(cfg), run), After(cfg, Start(cfg), run');
            && s'.circuit == Circuit(s.circuit.responses + 1, None)
            && s'.next == s.next && s'.workers == s.workers[w := Top]
    ensures run <= run'
  {
    var ch := Choice(w, RateLimited, false);
    Extend(cfg, Start(cfg), run, ch);
    Extend(cfg, Start(cfg), run + [ch], ch);
    run' := run + [ch] + [ch];
  }

  /** Every worker has sent its first request before any reply has come. */
  ghost predicate AllOpened<C>(cfg: Config<C>, s: State<C>) {
    && s.circuit == NEW_CIRCUIT && s.next == cfg.WorkerCount() == |s.workers|
    && forall w :: 0 <= w < |s.workers| ==> s.workers[w].InFlight?
  }

  /** `Array.from` starts the workers one after the other, each up to its first await. */
  lemma {:induction false} Opening(cfg: Config<nat>, j: nat) returns (run: seq<Choice>)
    requires cfg.Valid() && Inv(cfg, Start(cfg)) && j <= cfg.WorkerCount()
    ensures Admissible(cfg, Start(cfg), run)
    ensures var s := After(cfg, Start(cfg), run);
            && s.circuit == NEW_CIRCUIT && s.next == j
            && (forall w :: 0 <= w < j ==> s.workers[w].InFlight?)
            && (forall w :: j <= w < |s.workers| ==> s.workers[w].Top?)
  {
    if j == 0 {
      run := [];
    } else {
      run := Opening(cfg, j - 1);
      run := SendRequest(cfg, run, j - 1);
    }
  }

  /** From there the first worker gets `k` replies, all 429s, and sends another request after each. */
  lemma {:induction false} SpendAlone(cfg: Config<nat>, opening: seq<Choice>, k: nat) returns (run: seq<Choice>)
    requires cfg.Valid() && Inv(cfg, Start(cfg)) && Admissible(cfg, Start(cfg), opening)
    requires AllOpened(cfg, After(cfg, Start(cfg), opening)) && cfg.WorkerCount() > 0
    requires cfg.maxRetries == 0 && k < cfg.limit && cfg.WorkerCount() + k <= |cfg.candidates|
    ensures Admissible(cfg, Start(cfg), opening + run)
    ensures var s := After(cfg, Start(cfg), opening + run);
            && s.circuit == Circuit(k, None) && s.next == cfg.WorkerCount() + k
            && forall w :: 0 <= w < |s.workers| ==> s.workers[w].InFlight?
  {
    if k == 0 {
      run := [];
      assert opening + [] == opening;
    } else {
      run := SpendAlone(cfg, opening, k - 1);
      var spent := RejectOne(cfg, opening + run, 0);
      var sent := SendRequest(cfg, spent, 0);
      run := sent[|opening|..];
      assert sent == opening + run;
    }
  }

  /** Then every request still under way comes back rate-limited. */
  lemma {:induction false} AllRejected(cfg: Config<nat>, opening: seq<Choice>, j: nat) returns (run: seq<Choice>)
    requires cfg.Valid() && Inv(cfg, Start(cfg)) && Admissible(cfg, Start(cfg), opening)
    requires AllOpened(cfg, After(cfg, Start(cfg), opening)) && cfg.WorkerCount() > 0 && j <= cfg.WorkerCount()
    requires cfg.maxRetries == 0 && cfg.limit > 0
    requires cfg.limit + cfg.WorkerCount() - 1 == |cfg.candidates|
    ensures Admissible(cfg, Start(cfg), opening + run)
    ensures var s := After(cfg, Start(cfg), opening + run);
            && s.circuit.responses == cfg.limit - 1 + j
            && (forall w :: j <= w < |s.workers| ==> s.workers[w].InFlight?)
  {
    if j == 0 {
      run := SpendAlone(cfg, opening, cfg.limit - 1);
    } else {
      run := AllRejected(cfg, opening, j - 1);
      var ch := Choice(j - 1, RateLimited, false);
      Extend(cfg, Start(cfg), opening + run, ch);
      assert opening + run + [ch] == opening + (run + [ch]);
      run := run + [ch];
    }
  }

  /** For every pool size and limit some run counts exactly `limit + W - 1` responses. It begins as
      every run of the program does, with all workers sending a request before any reply is seen. */
  lemma {:induction false} RateLimitBoundIsReached(workers: nat, limit: nat)
    returns (cfg: Config<nat>, opening: seq<Choice>, run: seq<Choice>)
    requires workers >= 1 && limit >= 1
    ensures cfg.Valid() && cfg.WorkerCount() == workers && cfg.limit == limit && Inv(cfg, Start(cfg))
    ensures Admissible(cfg, Start(cfg), opening) && AllOpened(cfg, After(cfg, Start(cfg), opening))
    ensures Admissible(cfg, Start(cfg), opening + run)
    ensures After(cfg, Start(cfg), opening + run).circuit.responses == limit + workers - 1
  {
    var n := limit + workers - 1;
    cfg := Config(seq(n, i => i), seq(n, _ => 1), workers, limit, 0);
    StartInv(cfg);
    opening := Opening(cfg, workers);
    run := AllRejected(cfg, opening, workers);
  }
}
