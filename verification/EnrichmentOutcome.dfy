/** What becomes of a candidate, told from the replies and database results of a whole run. */
module EnrichmentOutcome {
  import opened Prelude
  import opened EnrichmentPool

  /** What the world answered: a reply to a lookup of URL `url` of candidate `index`, or the result of
      its database update. */
  datatype Answer =
    | Replied(index: nat, url: nat, reply: Reply)
    | Persisted(index: nat, failed: bool)

  /** What one step hears, if anything. */
  function Heard<C>(x: Worker<C>, ch: Choice): seq<Answer> {
    match x
    case InFlight(i, u, _) => [Replied(i, u, ch.reply)]
    case Persisting(i) => [Persisted(i, ch.databaseFails)]
    case _ => []
  }

  /** Everything a run hears, in order. */
  ghost function Answers<C>(cfg: Config<C>, s: State<C>, run: seq<Choice>): seq<Answer>
    requires Inv(cfg, s) && Admissible(cfg, s, run)
    decreases |run|
  {
    if run == [] then []
    else
      StepKeepsInv(cfg, s, run[0]);
      Heard(s.workers[run[0].worker], run[0]) + Answers(cfg, Step(cfg, s, run[0]), run[1..])
  }

  // ---------------------------------------------------------- what was heard of a candidate

  predicate IsListed(answers: seq<Answer>, i: nat, u: nat) { Replied(i, u, Listed) in answers }

  /** Every URL of the candidate brought a list, and the database update went through. */
  ghost predicate AllListed<C>(cfg: Config<C>, answers: seq<Answer>, i: nat)
    requires i < |cfg.lookups|
  {
    forall u :: 0 <= u < cfg.lookups[i] ==> IsListed(answers, i, u)
  }

  ghost predicate IsRejected(answers: seq<Answer>, i: nat) {
    exists u: nat :: Replied(i, u, Permanent) in answers
  }

  function IsFailure(i: nat, u: nat): Answer -> bool {
    (a: Answer) => a.Replied? && a.index == i && a.url == u && !a.reply.Listed?
  }

  /** How many replies to this URL were no list. */
  function Failures(answers: seq<Answer>, i: nat, u: nat): nat { Count(IsFailure(i, u), answers) }

  ghost predicate IsExhausted<C>(cfg: Config<C>, answers: seq<Answer>, i: nat) {
    exists u: nat :: Failures(answers, i, u) > cfg.maxRetries
  }

  ghost predicate Unheard(answers: seq<Answer>, i: nat) { forall a :: a in answers ==> a.index != i }

  ghost predicate NothingPersisted(answers: seq<Answer>, i: nat) {
    Persisted(i, true) !in answers && Persisted(i, false) !in answers
  }

  /** After a permanent error nothing more is heard of a candidate: it is not looked up again. */
  ghost predicate PermanentIsLast(answers: seq<Answer>) {
    forall k, l :: 0 <= k < l < |answers| && answers[k].Replied? && answers[k].reply.Permanent? ==>
      answers[l].index != answers[k].index
  }

  // ---------------------------------------------------------- the invariant

  /** The lookups so far of a candidate that is at try `a` of URL `u`. */
  ghost predicate Asking<C>(cfg: Config<C>, answers: seq<Answer>, i: nat, u: nat, a: nat) {
    && (forall v :: 0 <= v < u ==> IsListed(answers, i, v))
    && (forall v: nat :: Failures(answers, i, v) <= cfg.maxRetries)
    && Failures(answers, i, u) == a
    && (forall v: nat :: u < v ==> Failures(answers, i, v) == 0)
    && (forall v: nat :: u <= v ==> !IsListed(answers, i, v))
    && !IsRejected(answers, i) && NothingPersisted(answers, i)
  }

  ghost predicate Answered<C>(cfg: Config<C>, answers: seq<Answer>, i: nat)
    requires i < |cfg.lookups|
  {
    && AllListed(cfg, answers, i) && (forall v: nat :: Failures(answers, i, v) <= cfg.maxRetries)
    && !IsRejected(answers, i) && NothingPersisted(answers, i)
  }

  /** The outcome a candidate deserves. */
  ghost predicate Deserves<C>(cfg: Config<C>, closed: bool, answers: seq<Answer>, i: nat, o: Outcome<C>)
    requires i < |cfg.lookups|
  {
    && (o.Decided? <==> AllListed(cfg, answers, i) && Persisted(i, false) in answers)
    && (forall v: nat :: Failures(answers, i, v) <= cfg.maxRetries + 1)
    && (closed ==> (o.LookupError? <==>
          IsRejected(answers, i) || IsExhausted(cfg, answers, i) || Persisted(i, true) in answers))
  }

  ghost predicate WorkerTells<C>(cfg: Config<C>, closed: bool, answers: seq<Answer>, x: Worker<C>)
    requires cfg.Valid()
  {
    match x
    case Top => true
    case Finished => true
    case Ready(i, u, a) => Asking(cfg, answers, i, u, a)
    case InFlight(i, u, a) => Asking(cfg, answers, i, u, a)
    case Persisting(i) => i < |cfg.lookups| && Answered(cfg, answers, i)
    case Returning(i, o) => i < |cfg.lookups| && Deserves(cfg, closed, answers, i, o)
  }

  ghost predicate SlotTells<C>(cfg: Config<C>, s: State<C>, answers: seq<Answer>, i: nat)
    requires cfg.Valid() && i < |cfg.candidates| == |s.outcomesByIndex|
  {
    && (s.next <= i ==> Unheard(answers, i))
    && (s.outcomesByIndex[i].Some? ==>
          Deserves(cfg, s.circuit.stopped.None?, answers, i, s.outcomesByIndex[i].value))
  }

  /** The state and what was heard on the way to it agree. */
  ghost predicate Agrees<C>(cfg: Config<C>, s: State<C>, answers: seq<Answer>)
    requires Inv(cfg, s)
  {
    && (forall w :: 0 <= w < |s.workers| ==> WorkerTells(cfg, s.circuit.stopped.None?, answers, s.workers[w]))
    && (forall i :: 0 <= i < |cfg.candidates| ==> SlotTells(cfg, s, answers, i))
    && PermanentIsLast(answers)
  }

  // ---------------------------------------------------------- what an answer changes

  lemma {:induction false} CountSnoc(p: Answer -> bool, answers: seq<Answer>, a: Answer)
    ensures Count(p, answers + [a]) == Count(p, answers) + (if p(a) then 1 else 0)
  {
    if answers == [] {
      assert [] + [a] == [a];
    } else {
      assert (answers + [a])[1..] == answers[1..] + [a];
      CountSnoc(p, answers[1..], a);
    }
  }

  /** An answer about `i` changes nothing for another candidate. */
  lemma {:induction false} OtherCandidate<C>(cfg: Config<C>, answers: seq<Answer>, a: Answer, j: nat)
    requires a.index != j
    ensures forall u: nat :: Failures(answers + [a], j, u) == Failures(answers, j, u)
    ensures forall u: nat :: IsListed(answers + [a], j, u) <==> IsListed(answers, j, u)
    ensures IsRejected(answers + [a], j) <==> IsRejected(answers, j)
    ensures forall failed :: Persisted(j, failed) in answers + [a] <==> Persisted(j, failed) in answers
    ensures Unheard(answers, j) ==> Unheard(answers + [a], j)
  {
    forall u: nat ensures Failures(answers + [a], j, u) == Failures(answers, j, u) {
      CountSnoc(IsFailure(j, u), answers, a);
    }
    forall b: Answer ensures b in answers + [a] <==> b in answers || b == a {}
    if IsRejected(answers, j) {
      var u: nat :| Replied(j, u, Permanent) in answers;
      assert Replied(j, u, Permanent) in answers + [a];
    }
  }

  lemma {:induction false} OtherWorkerTells<C>(
    cfg: Config<C>, closed: bool, answers: seq<Answer>, a: Answer, x: Worker<C>)
    requires cfg.Valid() && WorkerTells(cfg, closed, answers, x) && x.Claimed() != a.index
    ensures WorkerTells(cfg, closed, answers + [a], x)
  {
    if !x.Top? && !x.Finished? { OtherCandidate(cfg, answers, a, x.index); }
  }

  lemma {:induction false} OtherSlotTells<C>(cfg: Config<C>, s: State<C>, answers: seq<Answer>, a: Answer, i: nat)
    requires cfg.Valid() && i < |cfg.candidates| == |s.outcomesByIndex| && i != a.index && SlotTells(cfg, s, answers, i)
    ensures SlotTells(cfg, s, answers + [a], i)
  {
    OtherCandidate(cfg, answers, a, i);
  }

  lemma {:induction false} NothingFailed(answers: seq<Answer>, i: nat, u: nat)
    requires Unheard(answers, i)
    ensures Failures(answers, i, u) == 0
  {
    if answers != [] {
      assert answers[0] in answers;
      assert forall a :: a in answers[1..] ==> a in answers;
      NothingFailed(answers[1..], i, u);
    }
  }

  lemma {:induction false} UnheardAsks<C>(cfg: Config<C>, answers: seq<Answer>, i: nat)
    requires Unheard(answers, i)
    ensures Asking(cfg, answers, i, 0, 0)
  {
    forall v: nat ensures Failures(answers, i, v) == 0 { NothingFailed(answers, i, v); }
  }

  /** With fewer promises once the circuit is open. */
  lemma {:induction false} OpenTellsLess<C>(cfg: Config<C>, closed: bool, now: bool, answers: seq<Answer>, x: Worker<C>)
    requires cfg.Valid() && WorkerTells(cfg, closed, answers, x) && (now ==> closed)
    ensures WorkerTells(cfg, now, answers, x)
  {
  }

  /** A list moves the lookup on to its next URL, or to the database. */
  lemma {:induction false} ListedTells<C>(cfg: Config<C>, answers: seq<Answer>, i: nat, u: nat, a: nat)
    requires cfg.Valid() && i < |cfg.lookups| && u < cfg.lookups[i] && Asking(cfg, answers, i, u, a)
    ensures var heard := answers + [Replied(i, u, Listed)];
            if u + 1 < cfg.lookups[i] then Asking(cfg, heard, i, u + 1, 0) else Answered(cfg, heard, i)
  {
    var heard := answers + [Replied(i, u, Listed)];
    assert Replied(i, u, Listed) in heard;
    forall v: nat ensures Failures(heard, i, v) == Failures(answers, i, v) {
      CountSnoc(IsFailure(i, v), answers, Replied(i, u, Listed));
    }
    forall v: nat ensures IsListed(heard, i, v) <==> IsListed(answers, i, v) || v == u {}
  }

  lemma {:induction false} FailureCounts(answers: seq<Answer>, i: nat, u: nat, reply: Reply)
    requires !reply.Listed?
    ensures forall v: nat ::
              Failures(answers + [Replied(i, u, reply)], i, v) == Failures(answers, i, v) + (if v == u then 1 else 0)
    ensures forall v: nat :: IsListed(answers + [Replied(i, u, reply)], i, v) <==> IsListed(answers, i, v)
    ensures IsRejected(answers + [Replied(i, u, reply)], i) <==> IsRejected(answers, i) || reply.Permanent?
    ensures NothingPersisted(answers + [Replied(i, u, reply)], i) <==> NothingPersisted(answers, i)
  {
    var heard := answers + [Replied(i, u, reply)];
    assert Replied(i, u, reply) in heard;
    forall v: nat ensures Failures(heard, i, v) == Failures(answers, i, v) + (if v == u then 1 else 0) {
      CountSnoc(IsFailure(i, v), answers, Replied(i, u, reply));
    }
    if IsRejected(answers, i) {
      var v: nat :| Replied(i, v, Permanent) in answers;
      assert Replied(i, v, Permanent) in heard;
    }
  }

  /** Any other reply is followed by another try, or ends the lookup for good reason. */
  lemma {:induction false} FailureTells<C>(cfg: Config<C>, answers: seq<Answer>, i: nat, u: nat, a: nat, reply: Reply)
    requires cfg.Valid() && i < |cfg.lookups| && u < cfg.lookups[i] && a <= cfg.maxRetries
    requires Asking(cfg, answers, i, u, a) && !reply.Listed?
    ensures var heard := answers + [Replied(i, u, reply)];
      && (a < cfg.maxRetries && !reply.Permanent? ==> Asking(cfg, heard, i, u, a + 1))
      && forall o: Outcome<C> :: o.LookupError? ==>
           && Deserves(cfg, false, heard, i, o)
           && (a >= cfg.maxRetries || reply.Permanent? ==> Deserves(cfg, true, heard, i, o))
  {
    var heard := answers + [Replied(i, u, reply)];
    FailureCounts(answers, i, u, reply);
    assert !IsListed(heard, i, u);
    if a >= cfg.maxRetries { assert Failures(heard, i, u) > cfg.maxRetries; }
  }

  /** The database decides. */
  lemma {:induction false} PersistedTells<C>(cfg: Config<C>, answers: seq<Answer>, i: nat, failed: bool, o: Outcome<C>)
    requires cfg.Valid() && i < |cfg.lookups| && Answered(cfg, answers, i) && (o.LookupError? <==> failed)
    ensures Deserves(cfg, true, answers + [Persisted(i, failed)], i, o)
  {
    var heard := answers + [Persisted(i, failed)];
    assert Persisted(i, failed) in heard;
    forall v: nat
      ensures Failures(heard, i, v) == Failures(answers, i, v)
      ensures IsListed(heard, i, v) <==> IsListed(answers, i, v)
    {
      CountSnoc(IsFailure(i, v), answers, Persisted(i, failed));
    }
  }

  // ---------------------------------------------------------- every step keeps it

  /** What `w` becomes agrees with what was heard. */
  lemma {:induction false} MoverTells<C>(cfg: Config<C>, s: State<C>, ch: Choice, answers: seq<Answer>)
    requires Inv(cfg, s) && Enabled(s, ch) && Agrees(cfg, s, answers)
    ensures var s' := Step(cfg, s, ch);
            WorkerTells(cfg, s'.circuit.stopped.None?, answers + Heard(s.workers[ch.worker], ch), s'.workers[ch.worker])
  {
    var x, s' := s.workers[ch.worker], Step(cfg, s, ch);
    assert WorkerOk(cfg, s, x) && WorkerTells(cfg, s.circuit.stopped.None?, answers, x);
    assert answers + [] == answers;
    match x
    case Top =>
      if s'.workers[ch.worker].Ready? {
        assert SlotTells(cfg, s, answers, s.next);
        UnheardAsks(cfg, answers, s.next);
      }
    case Ready(i, u, a) =>
      assert !IsListed(answers, i, u);
    case InFlight(i, u, a) =>
      if ch.reply.Listed? {
        ListedTells(cfg, answers, i, u, a);
      } else {
        FailureTells(cfg, answers, i, u, a, ch.reply);
      }
    case Persisting(i) =>
      PersistedTells(cfg, answers, i, ch.databaseFails, s'.workers[ch.worker].outcome);
    case Returning(_, _) =>
    case Finished =>
  }

  lemma {:induction false} OthersTell<C>(cfg: Config<C>, s: State<C>, ch: Choice, answers: seq<Answer>, v: nat)
    requires Inv(cfg, s) && Enabled(s, ch) && Agrees(cfg, s, answers) && v < |s.workers| && v != ch.worker
    ensures var s' := Step(cfg, s, ch);
            WorkerTells(cfg, s'.circuit.stopped.None?, answers + Heard(s.workers[ch.worker], ch), s'.workers[v])
  {
    var x, closed := s.workers[ch.worker], s.circuit.stopped.None?;
    assert WorkerTells(cfg, closed, answers, s.workers[v]);
    assert s.workers[v].Claimed() >= 0 ==> s.workers[v].Claimed() != x.Claimed();
    if Heard(x, ch) == [] {
      assert answers + [] == answers;
      OpenTellsLess(cfg, closed, Step(cfg, s, ch).circuit.stopped.None?, answers, s.workers[v]);
    } else {
      var a := Heard(x, ch)[0];
      assert answers + Heard(x, ch) == answers + [a] && a.index == x.Claimed();
      OtherWorkerTells(cfg, closed, answers, a, s.workers[v]);
      OpenTellsLess(cfg, closed, Step(cfg, s, ch).circuit.stopped.None?, answers + [a], s.workers[v]);
    }
  }

  lemma {:induction false} SlotsTell<C>(cfg: Config<C>, s: State<C>, ch: Choice, answers: seq<Answer>, i: nat)
    requires Inv(cfg, s) && Enabled(s, ch) && Agrees(cfg, s, answers) && i < |cfg.candidates|
    ensures Inv(cfg, Step(cfg, s, ch))
    ensures SlotTells(cfg, Step(cfg, s, ch), answers + Heard(s.workers[ch.worker], ch), i)
  {
    StepKeepsInv(cfg, s, ch);
    var x := s.workers[ch.worker];
    assert WorkerOk(cfg, s, x) && SlotTells(cfg, s, answers, i);
    assert WorkerTells(cfg, s.circuit.stopped.None?, answers, x);
    if Heard(x, ch) == [] {
      assert answers + [] == answers;
    } else {
      var a := Heard(x, ch)[0];
      assert answers + Heard(x, ch) == answers + [a] && a.index == x.Claimed();
      if i != a.index { OtherSlotTells(cfg, s, answers, a, i); }
    }
  }

  lemma {:induction false} PermanentStaysLast(answers: seq<Answer>, a: Answer)
    requires PermanentIsLast(answers) && !IsRejected(answers, a.index)
    ensures PermanentIsLast(answers + [a])
  {
    var heard := answers + [a];
    forall k, l | 0 <= k < l < |heard| && heard[k].Replied? && heard[k].reply.Permanent?
      ensures heard[l].index != heard[k].index
    {
      assert heard[k] == answers[k] && answers[k] in answers;
      assert answers[k] == Replied(answers[k].index, answers[k].url, Permanent);
    }
  }

  lemma {:induction false} StepAgrees<C>(cfg: Config<C>, s: State<C>, ch: Choice, answers: seq<Answer>)
    requires Inv(cfg, s) && Enabled(s, ch) && Agrees(cfg, s, answers)
    ensures Inv(cfg, Step(cfg, s, ch))
    ensures Agrees(cfg, Step(cfg, s, ch), answers + Heard(s.workers[ch.worker], ch))
  {
    StepKeepsInv(cfg, s, ch);
    var x, s' := s.workers[ch.worker], Step(cfg, s, ch);
    var heard := answers + Heard(x, ch);
    forall v | 0 <= v < |s'.workers| ensures WorkerTells(cfg, s'.circuit.stopped.None?, heard, s'.workers[v]) {
      if v == ch.worker { MoverTells(cfg, s, ch, answers); } else { OthersTell(cfg, s, ch, answers, v); }
    }
    forall i | 0 <= i < |cfg.candidates| ensures SlotTells(cfg, s', heard, i) {
      SlotsTell(cfg, s, ch, answers, i);
    }
    assert WorkerTells(cfg, s.circuit.stopped.None?, answers, x);
    if Heard(x, ch) == [] {
      assert heard == answers;
    } else {
      assert heard == answers + [Heard(x, ch)[0]];
      PermanentStaysLast(answers, Heard(x, ch)[0]);
    }
  }

  lemma {:induction false} RunAgrees<C>(cfg: Config<C>, s: State<C>, run: seq<Choice>, answers: seq<Answer>)
    requires Inv(cfg, s) && Admissible(cfg, s, run) && Agrees(cfg, s, answers)
    ensures Agrees(cfg, After(cfg, s, run), answers + Answers(cfg, s, run))
    decreases |run|
  {
    if run == [] {
      assert answers + [] == answers;
    } else {
      StepAgrees(cfg, s, run[0], answers);
      var heard, s' := Heard(s.workers[run[0].worker], run[0]), Step(cfg, s, run[0]);
      RunAgrees(cfg, s', run[1..], answers + heard);
      Regroup(answers, heard, Answers(cfg, s', run[1..]));
    }
  }

  lemma {:induction false} Regroup(a: seq<Answer>, b: seq<Answer>, c: seq<Answer>)
    ensures a + b + c == a + (b + c)
  {
  }

  // ---------------------------------------------------------- main results

  /** A candidate that is returned was decided on if and only if each of its lookups brought a list and
      its database update went through; otherwise it counts as an error. With the circuit closed to the
      end it is an error if and only if some reply was a permanent error, some URL failed one time more
      than there are retries, or the update failed. */
  lemma {:induction false} OutcomeExactly<C>(cfg: Config<C>, run: seq<Choice>, i: nat)
    requires cfg.Valid() && Inv(cfg, Start(cfg)) && Admissible(cfg, Start(cfg), run)
    requires Done(After(cfg, Start(cfg), run)) && i < |Returned(After(cfg, Start(cfg), run).outcomesByIndex)|
    ensures i < |cfg.candidates| == |cfg.lookups|
    ensures
      var s, answers := After(cfg, Start(cfg), run), Answers(cfg, Start(cfg), run);
      var outcome := Returned(s.outcomesByIndex)[i];
      && outcome == (if AllListed(cfg, answers, i) && Persisted(i, false) in answers
                     then Decided(cfg.candidates[i]) else LookupError(cfg.candidates[i]))
      && (s.circuit.stopped.None? ==> (outcome.LookupError? <==>
            IsRejected(answers, i) || IsExhausted(cfg, answers, i) || Persisted(i, true) in answers))
      && s.errors == Count(IsLookupError, Returned(s.outcomesByIndex))
  {
    var s, answers := After(cfg, Start(cfg), run), Answers(cfg, Start(cfg), run);
    OutcomesArePrefix(cfg, run);
    StartAgrees(cfg);
    RunAgrees(cfg, Start(cfg), run, []);
    assert [] + answers == answers;
    ReturnedSlot(cfg, run, i);
    assert SlotTells(cfg, s, answers, i);
  }

  lemma {:induction false} StartAgrees<C>(cfg: Config<C>)
    requires cfg.Valid() && Inv(cfg, Start(cfg))
    ensures Agrees(cfg, Start(cfg), [])
  {
  }

  lemma {:induction false} ReturnedSlot<C>(cfg: Config<C>, run: seq<Choice>, i: nat)
    requires cfg.Valid() && Inv(cfg, Start(cfg)) && Admissible(cfg, Start(cfg), run)
    requires Done(After(cfg, Start(cfg), run)) && i < |Returned(After(cfg, Start(cfg), run).outcomesByIndex)|
    ensures var s := After(cfg, Start(cfg), run);
            i < |s.outcomesByIndex| && s.outcomesByIndex[i] == Some(Returned(s.outcomesByIndex)[i])
  {
    var s := After(cfg, Start(cfg), run);
    var k := if s.next < |cfg.candidates| then s.next else |cfg.candidates|;
    forall j | 0 <= j < k ensures s.outcomesByIndex[j].Some? {
      assert !Held(s.workers, j);
      assert !Unsettled(cfg, s, j);
    }
    ReturnedPrefix(s.outcomesByIndex, k);
  }

  /** No URL gets more than one request beyond the retries, and nothing is asked about a candidate once
      a permanent error came back for it. */
  lemma {:induction false} RetriesAreBounded<C>(cfg: Config<C>, run: seq<Choice>, i: nat, u: nat)
    requires cfg.Valid() && Inv(cfg, Start(cfg)) && Admissible(cfg, Start(cfg), run) && i < |cfg.candidates|
    ensures var answers := Answers(cfg, Start(cfg), run);
            Failures(answers, i, u) <= cfg.maxRetries + 1 && PermanentIsLast(answers)
  {
    var s, answers := After(cfg, Start(cfg), run), Answers(cfg, Start(cfg), run);
    StartAgrees(cfg);
    RunAgrees(cfg, Start(cfg), run, []);
    assert [] + answers == answers;
    assert SlotTells(cfg, s, answers, i);
    if s.next <= i {
      NothingFailed(answers, i, u);
    } else if s.outcomesByIndex[i].None? {
      assert Unsettled(cfg, s, i);
      var w :| 0 <= w < |s.workers| && s.workers[w].Claimed() == i;
      assert WorkerTells(cfg, s.circuit.stopped.None?, answers, s.workers[w]);
    }
  }
}
