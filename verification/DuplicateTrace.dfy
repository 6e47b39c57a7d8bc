/** Retirements beside other writers: what a run leaves when others change orders between its
    transactions. */
module DuplicateTrace {
  import opened Prelude
  import opened DuplicateRetirement

  datatype Job = Job(plan: Plan, decision: Decision)

  /** One transaction begun: the rows others had written by then, and the job if it was committed. */
  datatype Turn = Turn(edits: seq<Order>, done: Option<Job>)

  /** Another writer stores a row: over the one with its id, or as a new one. */
  function Put(orders: seq<Order>, o: Order): seq<Order> {
    if orders == [] then [o]
    else if orders[0].id == o.id then [o] + orders[1..]
    else [orders[0]] + Put(orders[1..], o)
  }

  function Edited(orders: seq<Order>, edits: seq<Order>): seq<Order> {
    if edits == [] then orders else Put(Edited(orders, edits[..|edits| - 1]), edits[|edits| - 1])
  }

  /** What writers do before transaction `k`. */
  function EditsAt(writers: seq<seq<Order>>, k: nat): seq<Order> { if k < |writers| then writers[k] else [] }

  ghost predicate Follows(trace: seq<Turn>, writers: seq<seq<Order>>) {
    forall k :: 0 <= k < |trace| ==> trace[k].edits == EditsAt(writers, k)
  }

  function After(orders: seq<Order>, t: Turn): seq<Order> {
    var found := Edited(orders, t.edits);
    if t.done.None? then found else RetireMany(found, {t.done.value.decision.row.id})
  }

  /** The table after the transactions of a run, and the jobs that they committed. */
  function Played(rows: seq<Order>, trace: seq<Turn>): seq<Order> {
    if trace == [] then rows else After(Played(rows, trace[..|trace| - 1]), trace[|trace| - 1])
  }

  function Done(trace: seq<Turn>): seq<Job> {
    if trace == [] then []
    else
      var earlier, t := Done(trace[..|trace| - 1]), trace[|trace| - 1];
      if t.done.Some? then earlier + [t.done.value] else earlier
  }

  function Ids(jobs: seq<Job>): set<int> {
    set i | 0 <= i < |jobs| :: jobs[i].decision.row.id
  }

  lemma {:induction false} IdsSnoc(jobs: seq<Job>, j: Job)
    ensures Ids(jobs + [j]) == Ids(jobs) + {j.decision.row.id}
  {
    var all := jobs + [j];
    assert all[|jobs|] == j;
    forall id | id in Ids(jobs) ensures id in Ids(all) {
      var i :| 0 <= i < |jobs| && jobs[i].decision.row.id == id;
      assert all[i] == jobs[i];
    }
  }

  lemma {:induction false} IdsPrefix(a: seq<Job>, b: seq<Job>)
    requires a <= b
    ensures Ids(a) <= Ids(b)
  {
    forall id | id in Ids(a) ensures id in Ids(b) {
      var i :| 0 <= i < |a| && a[i].decision.row.id == id;
      assert b[i] == a[i];
    }
  }

  /** One more transaction. */
  lemma {:induction false} NextTurn(rows: seq<Order>, trace: seq<Turn>, t: Turn, writers: seq<seq<Order>>)
    ensures Follows(trace, writers) && t.edits == EditsAt(writers, |trace|) ==> Follows(trace + [t], writers)
    ensures Played(rows, trace + [t]) == After(Played(rows, trace), t)
    ensures Done(trace + [t]) == if t.done.Some? then Done(trace) + [t.done.value] else Done(trace)
  {
    assert (trace + [t])[..|trace|] == trace;
  }

  /** When nobody else writes, the committed jobs are all there is. */
  lemma {:induction false} PlayedQuietly(rows: seq<Order>, trace: seq<Turn>)
    requires forall k :: 0 <= k < |trace| ==> trace[k].edits == []
    ensures Played(rows, trace) == RetireMany(rows, Ids(Done(trace)))
  {
    if trace != [] {
      var before, t := trace[..|trace| - 1], trace[|trace| - 1];
      PlayedQuietly(rows, before);
      if t.done.Some? {
        IdsSnoc(Done(before), t.done.value);
        RetireManyCompose(rows, Ids(Done(before)), {t.done.value.decision.row.id});
      }
    }
  }

  // ---------------------------------------------------------- conservation

  /** What others added to a total, seen from one transaction to the next. */
  function Added(total: seq<Order> -> nat, rows: seq<Order>, trace: seq<Turn>): int {
    if trace == [] then 0
    else
      var before := trace[..|trace| - 1];
      var now := Played(rows, before);
      Added(total, rows, before) + total(Edited(now, trace[|trace| - 1].edits)) - total(now)
  }

  /** The job of transaction `k`, if committed, finds its order cancelled already or without any
      quantity. */
  ghost predicate IdleAtBegin(rows: seq<Order>, trace: seq<Turn>, k: nat)
    requires k < |trace|
  {
    trace[k].done.Some? ==>
      IsIdle(Edited(Played(rows, trace[..k]), trace[k].edits), trace[k].done.value.decision.row.id)
  }

  ghost predicate AllIdleAtBegin(rows: seq<Order>, trace: seq<Turn>) {
    forall k :: 0 <= k < |trace| ==> IdleAtBegin(rows, trace, k)
  }

  ghost predicate IsIdle(orders: seq<Order>, id: int) {
    forall o :: o in orders && o.id == id && o.status != "cancelled" ==> Picked(o.items) == 0 && Fulfilled(o.items) == 0
  }

  /** A run never raises picked or fulfilled quantity over uncancelled orders beyond what others
      write; and it loses none of it if and only if each committed job finds its order idle at its
      BEGIN. */
  lemma {:induction false} RunConservesExactly(rows: seq<Order>, trace: seq<Turn>)
    ensures OpenPicked(Played(rows, trace)) <= OpenPicked(rows) + Added(OpenPicked, rows, trace)
    ensures OpenFulfilled(Played(rows, trace)) <= OpenFulfilled(rows) + Added(OpenFulfilled, rows, trace)
    ensures OpenPicked(Played(rows, trace)) == OpenPicked(rows) + Added(OpenPicked, rows, trace) &&
            OpenFulfilled(Played(rows, trace)) == OpenFulfilled(rows) + Added(OpenFulfilled, rows, trace) <==>
            AllIdleAtBegin(rows, trace)
  {
    if trace != [] {
      var before, t := trace[..|trace| - 1], trace[|trace| - 1];
      RunConservesExactly(rows, before);
      AllIdleSnoc(rows, before, t);
      assert trace == before + [t];
      var now := Played(rows, before);
      TurnConservesExactly(now, t);
      assert Played(rows, trace) == After(now, t);
    }
  }

  lemma {:induction false} AllIdleSnoc(rows: seq<Order>, before: seq<Turn>, t: Turn)
    ensures AllIdleAtBegin(rows, before + [t]) <==>
              AllIdleAtBegin(rows, before)
              && (t.done.Some? ==> IsIdle(Edited(Played(rows, before), t.edits), t.done.value.decision.row.id))
  {
    var trace := before + [t];
    assert trace[..|before|] == before && trace[|before|] == t;
    forall k | 0 <= k < |before| ensures IdleAtBegin(rows, before, k) <==> IdleAtBegin(rows, trace, k) {
      assert before[..k] == trace[..k];
    }
    assert AllIdleAtBegin(rows, trace) ==> IdleAtBegin(rows, trace, |before|);
  }

  lemma {:induction false} TurnConservesExactly(now: seq<Order>, t: Turn)
    ensures OpenPicked(After(now, t)) <= OpenPicked(Edited(now, t.edits))
    ensures OpenFulfilled(After(now, t)) <= OpenFulfilled(Edited(now, t.edits))
    ensures OpenPicked(After(now, t)) == OpenPicked(Edited(now, t.edits)) &&
            OpenFulfilled(After(now, t)) == OpenFulfilled(Edited(now, t.edits)) <==>
            (t.done.Some? ==> IsIdle(Edited(now, t.edits), t.done.value.decision.row.id))
  {
    if t.done.Some? {
      ConservedExactly(Edited(now, t.edits), {t.done.value.decision.row.id});
    }
  }

  /** Others write no row with this id. */
  ghost predicate Untouched(edits: seq<Order>, id: int) { forall e :: e in edits ==> e.id != id }

  ghost predicate UntouchedFrom(trace: seq<Turn>, k: nat, id: int) {
    forall n :: k <= n < |trace| ==> Untouched(trace[n].edits, id)
  }

  lemma {:induction false} PutElsewhere(orders: seq<Order>, e: Order, o: Order)
    requires o.id != e.id
    ensures o in Put(orders, e) <==> o in orders
  {
    if orders != [] {
      PutElsewhere(orders[1..], e, o);
      assert orders == [orders[0]] + orders[1..];
    }
  }

  lemma {:induction false} EditedElsewhere(orders: seq<Order>, edits: seq<Order>, o: Order)
    requires Untouched(edits, o.id)
    ensures o in Edited(orders, edits) <==> o in orders
  {
    if edits != [] {
      var last := edits[|edits| - 1];
      assert last in edits;
      forall e | e in edits[..|edits| - 1] ensures e.id != o.id { assert e in edits; }
      EditedElsewhere(orders, edits[..|edits| - 1], o);
      PutElsewhere(Edited(orders, edits[..|edits| - 1]), last, o);
    }
  }

  /** A row that no other writer touches is as found, or that row retired. */
  lemma {:induction false} UntouchedRow(rows: seq<Order>, trace: seq<Turn>, o: Order) returns (was: Order)
    requires o in Played(rows, trace) && UntouchedFrom(trace, 0, o.id)
    ensures was in rows && was.id == o.id && (o == was || o == Retired(was))
  {
    if trace == [] {
      was := o;
    } else {
      var before, t := trace[..|trace| - 1], trace[|trace| - 1];
      var x := BeforeTurn(Played(rows, before), t, o);
      was := UntouchedRow(rows, before, x);
      RetiredTwice(was);
    }
  }

  lemma {:induction false} BeforeTurn(now: seq<Order>, t: Turn, o: Order) returns (was: Order)
    requires o in After(now, t) && Untouched(t.edits, o.id)
    ensures was in now && was.id == o.id && (o == was || o == Retired(was))
    ensures t.done.Some? && t.done.value.decision.row.id == o.id ==> o == Retired(was)
  {
    var found := Edited(now, t.edits);
    var i :| 0 <= i < |After(now, t)| && After(now, t)[i] == o;
    was := found[i];
    assert was in found && was.id == o.id;
    EditedElsewhere(now, t.edits, was);
  }

  /** A planned run loses quantity only through an order that someone else wrote to before it was
      retired. */
  lemma {:induction false} UntouchedIsConserved(
    rows: seq<Order>, planned: seq<Order>, flags: Flags, trace: seq<Turn>)
    requires DistinctIds(rows) && DistinctIds(planned) && forall o :: o in planned ==> o in rows
    requires Ids(Done(trace)) <= RetireSet(planned, flags)
    requires forall k :: 0 <= k < |trace| && trace[k].done.Some? ==>
               UntouchedFrom(trace[..k + 1], 0, trace[k].done.value.decision.row.id)
    ensures OpenPicked(Played(rows, trace)) == OpenPicked(rows) + Added(OpenPicked, rows, trace)
    ensures OpenFulfilled(Played(rows, trace)) == OpenFulfilled(rows) + Added(OpenFulfilled, rows, trace)
  {
    forall k | 0 <= k < |trace| && trace[k].done.Some? ensures IdleAtBegin(rows, trace, k) {
      var id, upTo := trace[k].done.value.decision.row.id, trace[..k + 1];
      DoneAt(trace, k);
      assert upTo[..k] == trace[..k] && upTo[k] == trace[k];
      forall o | o in Edited(Played(rows, trace[..k]), trace[k].edits) && o.id == id
        ensures Picked(o.items) == 0 && Fulfilled(o.items) == 0
      {
        EditedElsewhere(Played(rows, trace[..k]), trace[k].edits, o);
        UntouchedEarlier(upTo, k, id);
        var was := UntouchedRow(rows, trace[..k], o);
        var i :| 0 <= i < |planned| && planned[i].id == id;
        assert planned[i] in planned;
        SameIdSameRow(rows, was, planned[i]);
        RetirementsAreIdle(planned, flags, was);
        RetiredFacts(was);
      }
    }
    RunConservesExactly(rows, trace);
  }

  lemma {:induction false} UntouchedEarlier(trace: seq<Turn>, k: nat, id: int)
    requires k <= |trace| && UntouchedFrom(trace, 0, id)
    ensures UntouchedFrom(trace[..k], 0, id)
  {
  }

  lemma {:induction false} DoneAt(trace: seq<Turn>, k: nat)
    requires k < |trace| && trace[k].done.Some?
    ensures trace[k].done.value.decision.row.id in Ids(Done(trace))
  {
    var before, t := trace[..|trace| - 1], trace[|trace| - 1];
    if k < |before| { DoneAt(before, k); }
    if t.done.Some? { IdsSnoc(Done(before), t.done.value); }
  }

  // ---------------------------------------------------------- a losing run

  /** An order without picks, shipments or tracking has its twin with a higher id retired. */
  lemma {:induction false} TwinIsRetired(o: Order, id: int, flags: Flags)
    requires o.id < id && o.shipments == [] && !HasText(o.tracking) && o.status != "cancelled"
    requires Picked(o.items) == 0 && Fulfilled(o.items) == 0
    ensures GroupOf([o, o.(id := id)], OmsId(o)) == [o, o.(id := id)]
    ensures ChooseCanonical([o, o.(id := id)]) == o
    ensures DecideRow(o.(id := id), o, flags) == Decision(o.(id := id), RetireDbOnly, [])
  {
    var twin := o.(id := id);
    var rows := [o, twin];
    assert rows[1..] == [twin] && rows[1..][1..] == [];
    assert GroupOf([twin], OmsId(o)) == [twin];
    assert HasShippedEvidence(twin) == HasShippedEvidence(o) == false;
    forall r | r in rows ensures Precedes(o, r) {}
    CanonicalIsUnique(rows, o);
  }

  /** Two such orders, and someone who picks `picked` units of the second after the run has read
      them: the plan is to retire it, the transaction commits, and the pick is gone. */
  lemma {:induction false} LosingRun(o: Order, id: int, flags: Flags, picked: Order)
    requires o.id < id && o.shipments == [] && !HasText(o.tracking) && o.status != "cancelled"
    requires Picked(o.items) == 0 && Fulfilled(o.items) == 0
    requires picked.id == id && picked.status != "cancelled" && Picked(picked.items) > 0
    ensures var rows := [o, o.(id := id)];
      && GroupOf(rows, OmsId(o)) == rows
      && var plan := PlanOf(rows, OmsId(o), flags);
         && plan.decisions[1].action == RetireDbOnly
         && var trace := [Turn([picked], Some(Job(plan, plan.decisions[1])))];
            OpenPicked(Played(rows, trace)) + Picked(picked.items) == OpenPicked(rows) + Added(OpenPicked, rows, trace)
  {
    var rows := [o, o.(id := id)];
    TwinIsRetired(o, id, flags);
    var plan := PlanOf(rows, OmsId(o), flags);
    var t := Turn([picked], Some(Job(plan, plan.decisions[1])));
    NextTurn(rows, [], t, []);
    assert [] + [t] == [t] && [t][..0] == [];
    assert rows[1..] == [o.(id := id)];
    assert Put(rows[1..], picked) == [picked];
    assert [picked][..0] == [];
    var found := [o, picked];
    assert Edited(rows, [picked]) == found;
    var after := RetireMany(found, {id});
    assert after == [o, Retired(picked)];
    assert found[1..] == [picked] && after[1..] == [Retired(picked)] && [picked][1..] == [];
    assert OpenPicked([picked]) == Picked(picked.items) && OpenPicked([Retired(picked)]) == 0;
  }

  // ---------------------------------------------------------- live orders and evidence

  /** The row with this id that others stored last. */
  function LastWritten(edits: seq<Order>, id: int): Option<Order> {
    if edits == [] then None
    else if edits[|edits| - 1].id == id then Some(edits[|edits| - 1])
    else LastWritten(edits[..|edits| - 1], id)
  }

  function LastWrite(trace: seq<Turn>, id: int): Option<Order> {
    if trace == [] then None
    else
      var w := LastWritten(trace[|trace| - 1].edits, id);
      if w.Some? then w else LastWrite(trace[..|trace| - 1], id)
  }

  /** `o` is the row with its id, given what was there and what others stored over it. */
  ghost predicate IsCurrent(o: Order, rows: seq<Order>, written: Option<Order>) {
    if written.Some? then o == written.value else o in rows
  }

  lemma {:induction false} PutOver(orders: seq<Order>, e: Order)
    requires DistinctIds(orders)
    ensures DistinctIds(Put(orders, e))
    ensures forall o :: o in Put(orders, e) <==> o == e || (o in orders && o.id != e.id)
  {
    if orders != [] {
      var rest := orders[1..];
      assert DistinctIds(rest) && orders == [orders[0]] + rest;
      if orders[0].id == e.id {
        forall j | 0 <= j < |rest| ensures rest[j].id != e.id { assert rest[j] == orders[j + 1]; }
      } else {
        PutOver(rest, e);
        forall j | 0 <= j < |Put(rest, e)| ensures Put(rest, e)[j].id != orders[0].id {
          assert Put(rest, e)[j] in Put(rest, e);
        }
      }
    }
  }

  lemma {:induction false} EditedRow(orders: seq<Order>, edits: seq<Order>, o: Order)
    requires DistinctIds(orders)
    ensures DistinctIds(Edited(orders, edits))
    ensures LastWritten(edits, o.id).Some? ==> LastWritten(edits, o.id).value.id == o.id
    ensures o in Edited(orders, edits) <==> IsCurrent(o, orders, LastWritten(edits, o.id))
  {
    if edits != [] {
      EditedRow(orders, edits[..|edits| - 1], o);
      PutOver(Edited(orders, edits[..|edits| - 1]), edits[|edits| - 1]);
    }
  }

  lemma {:induction false} PlayedRow(rows: seq<Order>, trace: seq<Turn>, o: Order)
    requires DistinctIds(rows) && o.id !in Ids(Done(trace))
    ensures DistinctIds(Played(rows, trace))
    ensures o in Played(rows, trace) <==> IsCurrent(o, rows, LastWrite(trace, o.id))
  {
    if trace != [] {
      var before, t := trace[..|trace| - 1], trace[|trace| - 1];
      if t.done.Some? { IdsSnoc(Done(before), t.done.value); }
      PlayedRow(rows, before, o);
      EditedRow(Played(rows, before), t.edits, o);
      if t.done.Some? { OtherRowKept(Edited(Played(rows, before), t.edits), t.done.value.decision.row.id, o); }
    }
  }

  lemma {:induction false} OtherRowKept(found: seq<Order>, id: int, o: Order)
    requires o.id != id
    ensures o in RetireMany(found, {id}) <==> o in found
  {
    var after := RetireMany(found, {id});
    if o in after {
      var i :| 0 <= i < |after| && after[i] == o;
      assert found[i] == o;
    }
    if o in found {
      var i :| 0 <= i < |found| && found[i] == o;
      assert after[i] == o;
    }
  }

  /** The table as transaction `k` finds it. */
  function FoundBy(rows: seq<Order>, trace: seq<Turn>, k: nat): seq<Order>
    requires k < |trace|
  {
    Edited(Played(rows, trace[..k]), trace[k].edits)
  }

  lemma {:induction false} FoundRow(rows: seq<Order>, trace: seq<Turn>, k: nat, o: Order)
    requires DistinctIds(rows) && k < |trace| && o.id !in Ids(Done(trace[..k]))
    ensures o in FoundBy(rows, trace, k) <==> IsCurrent(o, rows, LastWrite(trace[..k + 1], o.id))
  {
    assert trace[..k + 1][..k] == trace[..k];
    PlayedRow(rows, trace[..k], o);
    EditedRow(Played(rows, trace[..k]), trace[k].edits, o);
  }

  /** Whatever is live at ShipStation under the job's order is on the list that was cancelled. */
  ghost predicate AllLiveListed(found: seq<Order>, d: Decision) {
    forall o, x :: o in found && o.id == d.row.id && x in ActiveShipStationOrderIds(o) ==> x in d.shipstationOrderIds
  }

  ghost predicate NoEvidence(found: seq<Order>, id: int) {
    forall o :: o in found && o.id == id ==> !HasShippedEvidence(o)
  }

  /** A committed retirement finds nothing live beyond what was cancelled if and only if the row that
      others stored last, if any did since the plan, names no ShipStation order that the planned row did
      not; and it finds no evidence of shipping if and only if that row has none. */
  lemma {:induction false} NothingLiveExactly(
    rows: seq<Order>, trace: seq<Turn>, k: nat, d: Decision, canonical: Order, flags: Flags)
    requires DistinctIds(rows) && k < |trace| && d.row in rows && d.row.id !in Ids(Done(trace[..k]))
    requires d == DecideRow(d.row, canonical, flags) && d.action.Retires()
    ensures var written := LastWrite(trace[..k + 1], d.row.id);
      && (AllLiveListed(FoundBy(rows, trace, k), d) <==>
            (written.Some? ==> forall x :: x in ActiveShipStationOrderIds(written.value) ==>
                                 x in ActiveShipStationOrderIds(d.row)))
      && (NoEvidence(FoundBy(rows, trace, k), d.row.id) <==> (written.Some? ==> !HasShippedEvidence(written.value)))
  {
    var found, written := FoundBy(rows, trace, k), LastWrite(trace[..k + 1], d.row.id);
    assert d.shipstationOrderIds == ActiveShipStationOrderIds(d.row) && !HasShippedEvidence(d.row);
    LastWriteId(trace[..k + 1], d.row.id);
    forall o: Order | o.id == d.row.id
      ensures o in found <==> if written.Some? then o == written.value else o == d.row
    {
      FoundRow(rows, trace, k, o);
      if o in rows { SameIdSameRow(rows, o, d.row); }
    }
    if written.Some? { assert written.value in found; }
  }

  lemma {:induction false} LastWriteId(trace: seq<Turn>, id: int)
    ensures LastWrite(trace, id).Some? ==> LastWrite(trace, id).value.id == id
  {
    if trace != [] {
      LastWriteId(trace[..|trace| - 1], id);
      LastWrittenId(trace[|trace| - 1].edits, id);
    }
  }

  lemma {:induction false} LastWrittenId(edits: seq<Order>, id: int)
    ensures LastWritten(edits, id).Some? ==> LastWritten(edits, id).value.id == id
  {
    if edits != [] { LastWrittenId(edits[..|edits| - 1], id); }
  }

  /** A ShipStation order attached after the plan was made: the plan cancels nothing, the transaction
      retires the row, and no active shipment is left that points at the live order. */
  lemma {:induction false} LiveOrderIsOrphaned(o: Order, id: int, flags: Flags, attached: Order, live: int)
    requires o.id < id && o.shipments == [] && !HasText(o.tracking) && o.status != "cancelled"
    requires Picked(o.items) == 0 && Fulfilled(o.items) == 0
    requires attached.id == id && live in ActiveShipStationOrderIds(attached)
    ensures var rows := [o, o.(id := id)];
      && GroupOf(rows, OmsId(o)) == rows
      && var plan := PlanOf(rows, OmsId(o), flags);
         && plan.decisions[1] == Decision(rows[1], RetireDbOnly, [])
         && var trace := [Turn([attached], Some(Job(plan, plan.decisions[1])))];
            && !AllLiveListed(FoundBy(rows, trace, 0), plan.decisions[1])
            && Played(rows, trace) == [o, Retired(attached)]
            && Count(IsActive, Retired(attached).shipments) == 0
  {
    var rows := [o, o.(id := id)];
    TwinIsRetired(o, id, flags);
    var plan := PlanOf(rows, OmsId(o), flags);
    var t := Turn([attached], Some(Job(plan, plan.decisions[1])));
    NextTurn(rows, [], t, []);
    assert [] + [t] == [t] && [t][..0] == [];
    assert rows[1..] == [o.(id := id)];
    assert Put(rows[1..], attached) == [attached];
    assert [attached][..0] == [];
    assert Edited(rows, [attached]) == [o, attached] && attached in [o, attached];
    assert RetireMany([o, attached], {id}) == [o, Retired(attached)];
    RetiredFacts(attached);
  }

  /** No two of the jobs are for one order. */
  ghost predicate OnceEach(jobs: seq<Job>) {
    forall i, j :: 0 <= i < j < |jobs| ==> jobs[i].decision.row.id != jobs[j].decision.row.id
  }

  lemma {:induction false} DonePrefix(trace: seq<Turn>, k: nat)
    requires k < |trace| && trace[k].done.Some?
    ensures Done(trace[..k]) + [trace[k].done.value] <= Done(trace)
  {
    var before := trace[..|trace| - 1];
    if k < |before| {
      DonePrefix(before, k);
      assert before[..k] == trace[..k];
    }
  }

  lemma {:induction false} NotDoneBefore(trace: seq<Turn>, k: nat)
    requires k < |trace| && trace[k].done.Some? && OnceEach(Done(trace))
    ensures trace[k].done.value.decision.row.id !in Ids(Done(trace[..k]))
  {
    DonePrefix(trace, k);
    var before, j := Done(trace[..k]), trace[k].done.value;
    assert (before + [j])[|before|] == j;
    assert Done(trace)[|before|] == j && forall i :: 0 <= i < |before| ==> Done(trace)[i] == before[i];
  }

  // ---------------------------------------------------------- what is left of the fixpoint

  /** No plan retires this row again. */
  ghost predicate IsRetired(o: Order) { o.status == "cancelled" && Count(IsActive, o.shipments) == 0 }

  lemma {:induction false} NotRetiredAgain(o: Order, canonical: Order, flags: Flags)
    requires IsRetired(o)
    ensures !DecideRow(o, canonical, flags).action.Retires()
  {
    assert Count(IsActive, o.shipments) == 0;
  }

  /** An order that was retired and that nobody wrote to since is not retired again, whatever has
      become of its group. */
  lemma {:induction false} RetiredStaysRetired(
    rows: seq<Order>, trace: seq<Turn>, k: nat, o: Order, canonical: Order, flags: Flags)
    requires k < |trace| && trace[k].done.Some? && trace[k].done.value.decision.row.id == o.id
    requires UntouchedFrom(trace, k + 1, o.id) && o in Played(rows, trace)
    ensures IsRetired(o) && !DecideRow(o, canonical, flags).action.Retires()
  {
    var before, t := trace[..|trace| - 1], trace[|trace| - 1];
    if k < |before| {
      var was := BeforeTurn(Played(rows, before), t, o);
      RetiredStaysRetired(rows, before, k, was, canonical, flags);
      RetiredFacts(was);
    } else {
      var found := Edited(Played(rows, before), t.edits);
      var i :| 0 <= i < |After(Played(rows, before), t)| && After(Played(rows, before), t)[i] == o;
      RetiredFacts(found[i]);
    }
    NotRetiredAgain(o, canonical, flags);
  }

  /** Others write no row of this group, nor any into it. */
  ghost predicate GroupUntouched(group: seq<Order>, omsId: int, edits: seq<Order>) {
    forall e :: e in edits ==> OmsId(e) != omsId && forall o :: o in group ==> o.id != e.id
  }

  lemma {:induction false} PutOutside(orders: seq<Order>, e: Order, omsId: int)
    requires OmsId(e) != omsId && forall o :: o in GroupOf(orders, omsId) ==> o.id != e.id
    ensures GroupOf(Put(orders, e), omsId) == GroupOf(orders, omsId)
  {
    if orders != [] {
      var head := if OmsId(orders[0]) == omsId then [orders[0]] else [];
      assert forall o :: o in GroupOf(orders[1..], omsId) ==> o in GroupOf(orders, omsId);
      if orders[0].id == e.id {
        GroupMembers(orders, omsId);
        assert OmsId(orders[0]) != omsId;
        assert ([e] + orders[1..])[1..] == orders[1..];
      } else {
        PutOutside(orders[1..], e, omsId);
        assert ([orders[0]] + Put(orders[1..], e))[1..] == Put(orders[1..], e);
      }
    }
  }

  lemma {:induction false} EditedOutside(orders: seq<Order>, edits: seq<Order>, omsId: int)
    requires GroupUntouched(GroupOf(orders, omsId), omsId, edits)
    ensures GroupOf(Edited(orders, edits), omsId) == GroupOf(orders, omsId)
  {
    if edits != [] {
      var before, last := edits[..|edits| - 1], edits[|edits| - 1];
      assert last in edits;
      forall e | e in before ensures e in edits {}
      EditedOutside(orders, before, omsId);
      PutOutside(Edited(orders, before), last, omsId);
    }
  }

  /** A group that nobody else writes to is left as if nobody wrote at all. */
  lemma {:induction false} GroupPlayed(rows: seq<Order>, trace: seq<Turn>, omsId: int)
    requires forall k :: 0 <= k < |trace| ==> GroupUntouched(GroupOf(rows, omsId), omsId, trace[k].edits)
    ensures GroupOf(Played(rows, trace), omsId) == RetireMany(GroupOf(rows, omsId), Ids(Done(trace)))
  {
    if trace != [] {
      var before, t := trace[..|trace| - 1], trace[|trace| - 1];
      GroupPlayed(rows, before, omsId);
      var group, ids := GroupOf(rows, omsId), Ids(Done(before));
      SameIdsUntouched(group, ids, omsId, t.edits);
      EditedOutside(Played(rows, before), t.edits, omsId);
      if t.done.Some? {
        var id := t.done.value.decision.row.id;
        GroupOfRetireMany(Edited(Played(rows, before), t.edits), {id}, omsId);
        IdsSnoc(Done(before), t.done.value);
        RetireManyCompose(group, ids, {id});
      }
    }
  }

  lemma {:induction false} SameIdsUntouched(group: seq<Order>, ids: set<int>, omsId: int, edits: seq<Order>)
    requires GroupUntouched(group, omsId, edits)
    ensures GroupUntouched(RetireMany(group, ids), omsId, edits)
  {
    forall e, o | e in edits && o in RetireMany(group, ids) ensures o.id != e.id {
      var i :| 0 <= i < |group| && RetireMany(group, ids)[i] == o;
      assert group[i] in group;
    }
  }

  /** On a group as retired, planning again chooses the same canonical row and asks for the
      retirements that are still missing. */
  lemma {:induction false} RetiredGroup(planned: seq<Order>, flags: Flags, ids: set<int>, omsId: int)
    requires DistinctIds(planned) && GroupOf(planned, omsId) != [] && ids <= RetireSet(planned, flags)
    ensures var group := GroupOf(planned, omsId);
      && ChooseCanonical(RetireMany(group, ids)) == ChooseCanonical(group)
      && RetireIds(RetireMany(group, ids), flags) == RetireIds(group, flags) - ids
  {
    var group := GroupOf(planned, omsId);
    GroupMembers(planned, omsId);
    GroupDistinct(planned, omsId);
    var own := OwnRetirements(planned, flags, ids, omsId);
    forall k | 0 <= k < |group| ensures group[k].id in own <==> group[k].id in ids {
      assert group[k] in group;
    }
    assert RetireMany(group, ids) == RetireMany(group, own);
    ReplanningAfterRetirement(group, flags, own);
    forall id | id in RetireIds(group, flags) ensures id in own <==> id in ids {
      var k :| 0 <= k < |group| && group[k].id == id;
    }
  }
}
