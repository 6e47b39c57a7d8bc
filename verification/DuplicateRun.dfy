/** Executing the plans against ShipStation and the database, cut off at any call. */
module DuplicateRun {
  import opened Prelude
  import opened Faults
  import opened StableSort
  import opened DuplicateRetirement
  import opened DuplicateTrace

  datatype Event = Event(omsId: int, retired: int, canonical: int, cancelled: seq<int>)

  datatype Summary = Summary(retired: nat, alreadyRetired: nat, needsCancel: nat, manualReview: nat, kept: nat)

  const NO_SUMMARY := Summary(0, 0, 0, 0, 0)

  function Tally(t: Summary, a: Action): Summary {
    match a
    case Keep => t.(kept := t.kept + 1)
    case AlreadyRetired => t.(alreadyRetired := t.alreadyRetired + 1)
    case NeedsCancel => t.(needsCancel := t.needsCancel + 1)
    case ManualReview => t.(manualReview := t.manualReview + 1)
    case RetireDbOnly => t.(retired := t.retired + 1)
    case RetireAfterCancel => t.(retired := t.retired + 1)
  }

  predicate Cancellable(remote: map<int, string>, id: int) { id in remote && remote[id] != "shipped" }

  /** Cancellations are only ever added, and never over a shipped order. */
  ghost predicate OnlyCancels(before: map<int, string>, after: map<int, string>) {
    && after.Keys == before.Keys
    && forall id :: id in after ==> after[id] == before[id] || (after[id] == "cancelled" && before[id] != "shipped")
  }

  /** What stops a retirement even when no call fails: no OMS order to file the event under, or a
      ShipStation order that is unknown or already shipped. */
  ghost predicate Blocked(remote: map<int, string>, omsOrders: set<int>, j: Job) {
    j.plan.omsId !in omsOrders || exists id :: id in j.decision.shipstationOrderIds && !Cancellable(remote, id)
  }

  /** The database and the provider, reached over one client. `omsOrders` are the ids an event may
      refer to, `writers` the rows that others store before each of the transactions, and `trace` what
      has happened in those so far. */
  class Warehouse {
    const client: Client
    const omsOrders: set<int>
    const writers: seq<seq<Order>>
    var orders: seq<Order>
    var events: seq<Event>
    var remote: map<int, string>
    var turns: nat
    ghost var trace: seq<Turn>

    constructor (rows: seq<Order>, oms: set<int>, provider: map<int, string>, others: seq<seq<Order>>, c: Client)
      ensures orders == rows && omsOrders == oms && remote == provider && events == []
      ensures writers == others && turns == 0 && trace == [] && client == c
    {
      orders, omsOrders, remote, events, client := rows, oms, provider, [], c;
      writers, turns, trace := others, 0, [];
    }

    method CancelShipStationOrder(id: int) returns (ok: bool)
      modifies client, this`remote
      ensures ok ==> id in remote && remote[id] == "cancelled"
      ensures !ok ==> client.callsLeft == 0 || !Cancellable(old(remote), id)
      ensures remote == old(remote) || (Cancellable(old(remote), id) && remote == old(remote)[id := "cancelled"])
      ensures ok ==> client.callsLeft == old(client.callsLeft) - (if old(remote)[id] == "cancelled" then 1 else 2)
    {
      var lands;
      ok, lands := client.Call();
      if !ok || id !in remote {
        return false;
      }
      if remote[id] == "cancelled" {
        return true;
      }
      if remote[id] == "shipped" {
        return false;
      }
      ok, lands := client.Call();
      if lands {
        remote := remote[id := "cancelled"];
      }
    }

    ghost predicate AllCancelled(ids: seq<int>)
      reads this
    {
      forall id :: id in ids ==> id in remote && remote[id] == "cancelled"
    }

    method CancelAll(ids: seq<int>) returns (ok: bool)
      modifies client, this`remote
      ensures ok ==> AllCancelled(ids)
      ensures !ok ==> client.callsLeft == 0 || exists id :: id in ids && !Cancellable(old(remote), id)
      ensures OnlyCancels(old(remote), remote)
      ensures ok ==> client.callsLeft <= old(client.callsLeft) - |ids|
    {
      for k := 0 to |ids|
        invariant AllCancelled(ids[..k])
        invariant client.callsLeft <= old(client.callsLeft) - k
        invariant OnlyCancels(old(remote), remote)
      {
        assert ids[k] in ids;
        ok := CancelShipStationOrder(ids[k]);
        if !ok { return; }
        assert ids[..k + 1] == ids[..k] + [ids[k]];
      }
      assert ids[..|ids|] == ids;
      ok := true;
    }

    /** If the transaction begins at all, others have written by then. Beyond that either nothing
        changes in the database, or (`committed`) the order is retired and its event recorded; the
        latter only once every ShipStation order of the decision is cancelled, and only under an OMS
        order that exists. */
    method RetireDuplicate(plan: Plan, d: Decision) returns (ok: bool, ghost committed: bool)
      modifies this, client
      ensures ok ==> committed
      ensures !ok ==> client.callsLeft == 0 || Blocked(old(remote), omsOrders, Job(plan, d))
      ensures turns == old(turns) ==> !committed && trace == old(trace) && orders == old(orders)
      ensures turns != old(turns) ==>
        && turns == old(turns) + 1
        && var t := Turn(EditsAt(writers, old(turns)), if committed then Some(Job(plan, d)) else None);
           trace == old(trace) + [t] && orders == After(old(orders), t)
      ensures !committed ==> events == old(events)
      ensures committed ==>
        && events == old(events) + [Event(plan.omsId, d.row.id, plan.canonical.id, d.shipstationOrderIds)]
        && plan.omsId in omsOrders
        && (d.action.RetireAfterCancel? ==> AllCancelled(d.shipstationOrderIds))
      ensures OnlyCancels(old(remote), remote)
      ensures ok && !d.action.RetireAfterCancel? ==> client.callsLeft == old(client.callsLeft) - 6
      ensures ok && d.action.RetireAfterCancel? ==>
        client.callsLeft <= old(client.callsLeft) - 6 - |d.shipstationOrderIds|
    {
      committed := false;
      if d.action.RetireAfterCancel? {
        ok := CancelAll(d.shipstationOrderIds);
        if !ok { return; }
      }
      var edits := EditsAt(writers, turns);
      orders, turns, trace := Edited(orders, edits), turns + 1, trace + [Turn(edits, None)];
      var lands;
      ok, lands := client.Call();
      if !ok { return; }
      var staged := orders;                      // BEGIN
      ok, lands := client.Call();
      if !ok { return; }
      staged := CancelShipments(staged, d.row.id);
      ok, lands := client.Call();
      if !ok { return; }
      staged := CancelItems(staged, d.row.id);
      ok, lands := client.Call();
      if !ok { return; }
      staged := CancelOrder(staged, d.row.id);
      ok, lands := client.Call();
      if !ok || plan.omsId !in omsOrders {       // foreign key of the event
        return false, false;
      }
      var event := Event(plan.omsId, d.row.id, plan.canonical.id, d.shipstationOrderIds);
      RetiredInSteps(orders, d.row.id);
      ok, lands := client.Call();
      if lands {                                 // COMMIT
        orders, events := staged, events + [event];
        trace, committed := old(trace) + [Turn(edits, Some(Job(plan, d)))], true;
      }
    }

    ghost predicate Honoured(j: Job)
      reads this
    {
      && j.plan.omsId in omsOrders
      && (j.decision.action.RetireAfterCancel? ==> AllCancelled(j.decision.shipstationOrderIds))
    }

    /** Where a run that found `rows` and `log` stands. */
    ghost predicate Reached(rows: seq<Order>, log: seq<Event>)
      reads this
    {
      && turns == |trace| && Follows(trace, writers)
      && orders == Played(rows, trace)
      && events == log + Events(Done(trace))
      && forall j :: j in Done(trace) ==> Honoured(j)
    }

    method RunJob(job: Job, ghost rows: seq<Order>, ghost log: seq<Event>, ghost first: map<int, string>)
      returns (ok: bool)
      requires Reached(rows, log) && OnlyCancels(first, remote)
      modifies this, client
      ensures Done(trace) == old(Done(trace)) || Done(trace) == old(Done(trace)) + [job]
      ensures ok ==> Done(trace) == old(Done(trace)) + [job]
      ensures !ok ==> client.callsLeft == 0 || Blocked(first, omsOrders, job)
      ensures Reached(rows, log) && OnlyCancels(first, remote)
    {
      ghost var committed;
      ghost var before := trace;
      BlockedEarlier(first, remote, omsOrders, job);
      ok, committed := RetireDuplicate(job.plan, job.decision);
      if turns != old(turns) {
        ghost var t := Turn(EditsAt(writers, |before|), if committed then Some(job) else None);
        NextTurn(rows, before, t, writers);
        if committed { EventsSnoc(Done(before), job); }
      }
      assert forall j :: j in old(Done(trace)) ==> Honoured(j);
      assert committed ==> Honoured(job);
    }

    /** The jobs are run in order and the first failure ends the run. Whatever happens, and whatever
        others write between the transactions: what is done is a prefix of the jobs, the table is what
        the others left of it with exactly those orders retired in their turns, each event is recorded
        once, and each retired order had its ShipStation orders cancelled first. A run that no failed
        call cuts off and no blocked job stops goes through them all. */
    method ExecutePlans(plans: seq<Plan>, flags: Flags) returns (ok: bool, summary: Summary)
      requires turns == 0 && trace == []
      modifies this, client
      ensures Done(trace) <= Jobs(plans, |plans|) && (!flags.execute ==> orders == old(orders) && Done(trace) == [])
      ensures Reached(old(orders), old(events))
      ensures OnlyCancels(old(remote), remote)
      ensures ok ==> summary == Tallies(plans, |plans|) && (flags.execute ==> Done(trace) == Jobs(plans, |plans|))
      ensures !ok ==> flags.execute
      ensures !ok ==>
        client.callsLeft == 0 || exists j :: j in Jobs(plans, |plans|) && Blocked(old(remote), omsOrders, j)
    {
      summary := NO_SUMMARY;
      ghost var rows, log := orders, events;
      for p := 0 to |plans|
        invariant Done(trace) == if flags.execute then Jobs(plans, p) else []
        invariant !flags.execute ==> trace == []
        invariant Reached(rows, log)
        invariant OnlyCancels(old(remote), remote)
        invariant summary == Tallies(plans, p)
      {
        JobsGrow(plans, p, |plans|);
        JobsGrow(plans, p + 1, |plans|);
        ghost var own, blocked;
        ghost var done := Done(trace);
        ok, summary, own, blocked := ExecutePlan(plans[p], flags, summary, rows, log);
        PrefixAfter(done, own, JobsOf(plans[p], |plans[p].decisions|));
        if !ok {
          if blocked.Some? { JobsIn(plans, p, blocked.value); }
          return;
        }
      }
      ok := true;
    }

    /** The decisions of one plan; `own` are the jobs among them that got done, and `blocked` names the
        one that could not be, if that is why. */
    method ExecutePlan(plan: Plan, flags: Flags, before: Summary, ghost rows: seq<Order>, ghost log: seq<Event>)
      returns (ok: bool, summary: Summary, ghost own: seq<Job>, ghost blocked: Option<Job>)
      requires Reached(rows, log)
      modifies this, client
      ensures Reached(rows, log) && Done(trace) == old(Done(trace)) + own
      ensures own <= JobsOf(plan, |plan.decisions|)
      ensures !flags.execute ==> own == [] && trace == old(trace)
      ensures OnlyCancels(old(remote), remote)
      ensures ok ==> summary == TallyOf(plan, |plan.decisions|, before)
      ensures ok && flags.execute ==> own == JobsOf(plan, |plan.decisions|)
      ensures !ok ==> flags.execute
      ensures !ok && blocked.None? ==> client.callsLeft == 0
      ensures blocked.Some? ==>
        blocked.value in JobsOf(plan, |plan.decisions|) && Blocked(old(remote), omsOrders, blocked.value)
    {
      summary, own, blocked := before, [], None;
      ghost var already := Done(trace);
      for q := 0 to |plan.decisions|
        invariant own == if flags.execute then JobsOf(plan, q) else []
        invariant !flags.execute ==> trace == old(trace)
        invariant Reached(rows, log) && Done(trace) == already + own
        invariant OnlyCancels(old(remote), remote)
        invariant summary == TallyOf(plan, q, before) && blocked == None
      {
        var d := plan.decisions[q];
        NextJob(plan, q);
        ghost var more;
        ok, summary, more, blocked := ExecuteDecision(plan, d, flags, summary, rows, log, old(remote));
        assert already + own + more == already + (own + more);
        own := own + more;
        if !ok { return; }
      }
      ok := true;
    }

    method ExecuteDecision(plan: Plan, d: Decision, flags: Flags, before: Summary,
                           ghost rows: seq<Order>, ghost log: seq<Event>, ghost first: map<int, string>)
      returns (ok: bool, summary: Summary, ghost more: seq<Job>, ghost blocked: Option<Job>)
      requires Reached(rows, log) && OnlyCancels(first, remote)
      modifies this, client
      ensures Reached(rows, log) && OnlyCancels(first, remote)
      ensures Done(trace) == old(Done(trace)) + more && (!flags.execute ==> trace == old(trace))
      ensures more == [] || (flags.execute && d.action.Retires() && more == [Job(plan, d)])
      ensures ok ==> summary == Tally(before, d.action) && blocked == None
      ensures ok && flags.execute && d.action.Retires() ==> more == [Job(plan, d)]
      ensures !ok ==> flags.execute && d.action.Retires()
      ensures !ok && blocked.None? ==> client.callsLeft == 0
      ensures blocked.Some? ==> blocked.value == Job(plan, d) && Blocked(first, omsOrders, blocked.value)
    {
      ok, summary, more, blocked := true, before, [], None;
      if d.action.Retires() && flags.execute {
        ghost var already := Done(trace);
        ok := RunJob(Job(plan, d), rows, log, first);
        more := if Done(trace) == already then [] else [Job(plan, d)];
        if !ok {
          blocked := if client.callsLeft == 0 then None else Some(Job(plan, d));
          return;
        }
      }
      summary := Tally(summary, d.action);
    }
  }

  // ---------------------------------------------------------- jobs

  /** The retirements among the first `k` decisions of a plan. */
  function JobsOf(plan: Plan, k: nat): seq<Job>
    requires k <= |plan.decisions|
  {
    if k == 0 then []
    else
      var d := plan.decisions[k - 1];
      JobsOf(plan, k - 1) + (if d.action.Retires() then [Job(plan, d)] else [])
  }

  function Jobs(plans: seq<Plan>, k: nat): seq<Job>
    requires k <= |plans|
  {
    if k == 0 then [] else Jobs(plans, k - 1) + JobsOf(plans[k - 1], |plans[k - 1].decisions|)
  }

  lemma {:induction false} JobsOfGrow(plan: Plan, q: nat, k: nat)
    requires q <= k <= |plan.decisions|
    ensures JobsOf(plan, q) <= JobsOf(plan, k)
  {
    if q < k { JobsOfGrow(plan, q, k - 1); }
  }

  lemma {:induction false} PrefixAfter(done: seq<Job>, own: seq<Job>, all: seq<Job>)
    requires own <= all
    ensures done + own <= done + all
  {
  }

  lemma {:induction false} NextJob(plan: Plan, q: nat)
    requires q < |plan.decisions|
    ensures JobsOf(plan, q) <= JobsOf(plan, q + 1) <= JobsOf(plan, |plan.decisions|)
    ensures plan.decisions[q].action.Retires() ==>
      var job := Job(plan, plan.decisions[q]);
      JobsOf(plan, q + 1) == JobsOf(plan, q) + [job] && job in JobsOf(plan, |plan.decisions|)
    ensures !plan.decisions[q].action.Retires() ==> JobsOf(plan, q + 1) == JobsOf(plan, q)
  {
    JobsOfGrow(plan, q + 1, |plan.decisions|);
    if plan.decisions[q].action.Retires() {
      assert JobsOf(plan, |plan.decisions|)[|JobsOf(plan, q)|] == JobsOf(plan, q + 1)[|JobsOf(plan, q)|];
    }
  }

  lemma {:induction false} BlockedEarlier(before: map<int, string>, now: map<int, string>, omsOrders: set<int>, j: Job)
    requires OnlyCancels(before, now)
    ensures Blocked(now, omsOrders, j) ==> Blocked(before, omsOrders, j)
  {
    forall id | id in j.decision.shipstationOrderIds && !Cancellable(now, id) ensures !Cancellable(before, id) {
    }
  }

  lemma {:induction false} JobsGrow(plans: seq<Plan>, p: nat, k: nat)
    requires p <= k <= |plans|
    ensures Jobs(plans, p) <= Jobs(plans, k)
  {
    if p < k { JobsGrow(plans, p, k - 1); }
  }

  lemma {:induction false} JobsIn(plans: seq<Plan>, p: nat, j: Job)
    requires p < |plans| && j in JobsOf(plans[p], |plans[p].decisions|)
    ensures j in Jobs(plans, |plans|)
  {
    JobsGrow(plans, p + 1, |plans|);
    var upTo := Jobs(plans, p + 1);
    assert j in upTo;
    var i :| 0 <= i < |upTo| && upTo[i] == j;
    assert Jobs(plans, |plans|)[i] == j;
  }

  function EventOf(j: Job): Event {
    Event(j.plan.omsId, j.decision.row.id, j.plan.canonical.id, j.decision.shipstationOrderIds)
  }

  function Events(jobs: seq<Job>): seq<Event> {
    seq(|jobs|, i requires 0 <= i < |jobs| => EventOf(jobs[i]))
  }

  lemma {:induction false} EventsSnoc(jobs: seq<Job>, j: Job)
    ensures Events(jobs + [j]) == Events(jobs) + [EventOf(j)]
  {
  }

  function TallyOf(plan: Plan, k: nat, t: Summary): Summary
    requires k <= |plan.decisions|
  {
    if k == 0 then t else Tally(TallyOf(plan, k - 1, t), plan.decisions[k - 1].action)
  }

  function Tallies(plans: seq<Plan>, k: nat): Summary
    requires k <= |plans|
  {
    if k == 0 then NO_SUMMARY else TallyOf(plans[k - 1], |plans[k - 1].decisions|, Tallies(plans, k - 1))
  }

  function TallyCount(t: Summary): nat { t.retired + t.alreadyRetired + t.needsCancel + t.manualReview + t.kept }

  function Rows(plans: seq<Plan>, k: nat): nat
    requires k <= |plans|
  {
    if k == 0 then 0 else Rows(plans, k - 1) + |plans[k - 1].decisions|
  }

  ghost predicate Grows(t: Summary, u: Summary, a: Action) {
    && u.kept == t.kept + (if a.Keep? then 1 else 0)
    && u.alreadyRetired == t.alreadyRetired + (if a.AlreadyRetired? then 1 else 0)
    && u.needsCancel == t.needsCancel + (if a.NeedsCancel? then 1 else 0)
    && u.manualReview == t.manualReview + (if a.ManualReview? then 1 else 0)
    && u.retired == t.retired + (if a.Retires() then 1 else 0)
  }

  lemma {:induction false} PlanSummary(plan: Plan, k: nat, t: Summary)
    requires k <= |plan.decisions|
    ensures TallyOf(plan, k, t).retired == t.retired + |JobsOf(plan, k)|
    ensures TallyCount(TallyOf(plan, k, t)) == TallyCount(t) + k
    ensures k > 0 ==> Grows(TallyOf(plan, k - 1, t), TallyOf(plan, k, t), plan.decisions[k - 1].action)
  {
    if k > 0 { PlanSummary(plan, k - 1, t); }
  }

  /** What is printed at the end: every row is counted once, under its decision, and `retired` is the
      number of jobs. */
  lemma {:induction false} SummaryBalances(plans: seq<Plan>, k: nat)
    requires k <= |plans|
    ensures Tallies(plans, k).retired == |Jobs(plans, k)|
    ensures TallyCount(Tallies(plans, k)) == Rows(plans, k)
  {
    if k > 0 {
      SummaryBalances(plans, k - 1);
      PlanSummary(plans[k - 1], |plans[k - 1].decisions|, Tallies(plans, k - 1));
    }
  }

  // ---------------------------------------------------------- the transaction's statements

  function CancelShipments(orders: seq<Order>, id: int): seq<Order> {
    seq(|orders|, i requires 0 <= i < |orders| =>
      if orders[i].id == id then orders[i].(shipments := Retired(orders[i]).shipments) else orders[i])
  }

  function CancelItems(orders: seq<Order>, id: int): seq<Order> {
    seq(|orders|, i requires 0 <= i < |orders| =>
      if orders[i].id == id then orders[i].(items := Retired(orders[i]).items) else orders[i])
  }

  function CancelOrder(orders: seq<Order>, id: int): seq<Order> {
    seq(|orders|, i requires 0 <= i < |orders| =>
      if orders[i].id == id then orders[i].(status := "cancelled") else orders[i])
  }

  lemma {:induction false} RetiredInSteps(orders: seq<Order>, id: int)
    ensures CancelOrder(CancelItems(CancelShipments(orders, id), id), id) == RetireMany(orders, {id})
  {
  }

  // ---------------------------------------------------------- a whole run

  /** `counts` tells whether the row gets past the filters: from the OMS, and with a key. */
  datatype Skeleton = Skeleton(id: int, counts: bool, key: string, created: int)

  predicate Qualifies(o: Order) { o.source == "oms" && o.key != "" }

  function Outline(orders: seq<Order>): seq<Skeleton> {
    seq(|orders|, i requires 0 <= i < |orders| =>
      Skeleton(orders[i].id, Qualifies(orders[i]), orders[i].key, orders[i].created))
  }

  predicate Bears(row: Skeleton, key: string) { row.counts && row.key == key }

  function WithKey(rows: seq<Skeleton>, key: string): seq<Skeleton> {
    if rows == [] then [] else (if Bears(rows[0], key) then [rows[0]] else []) + WithKey(rows[1..], key)
  }

  /** Distinct keys, in order of first appearance. */
  function Keys(rows: seq<Skeleton>): seq<string> {
    if rows == [] then []
    else
      var before, last := Keys(rows[..|rows| - 1]), rows[|rows| - 1];
      if last.key in before || !last.counts then before else before + [last.key]
  }

  function MinCreated(rows: seq<Skeleton>): int
    requires rows != []
  {
    if |rows| == 1 || rows[0].created <= MinCreated(rows[1..]) then rows[0].created else MinCreated(rows[1..])
  }

  function MinId(rows: seq<Skeleton>): int
    requires rows != []
  {
    if |rows| == 1 || rows[0].id <= MinId(rows[1..]) then rows[0].id else MinId(rows[1..])
  }

  datatype Group = Group(key: string, created: int, id: int)

  predicate GroupLe(a: Group, b: Group) {
    a.created < b.created || (a.created == b.created && a.id <= b.id)
  }

  function Groups(rows: seq<Skeleton>, keys: seq<string>): seq<Group> {
    if keys == [] then []
    else
      var own := WithKey(rows, keys[0]);
      (if |own| > 1 then [Group(keys[0], MinCreated(own), MinId(own))] else []) + Groups(rows, keys[1..])
  }

  /** `duplicate_keys`: keys borne by more than one qualifying order, oldest first, at most `limit` of
      them. */
  function DuplicateKeys(orders: seq<Order>, limit: nat): set<string> {
    var outline := Outline(orders);
    var sorted := Sort(GroupLe, Groups(outline, Keys(outline)));
    set i | 0 <= i < |sorted| && i < limit :: sorted[i].key
  }

  predicate IsFetched(o: Order, keys: set<string>) { o.source == "oms" && o.key in keys }

  function Fetch(orders: seq<Order>, keys: set<string>): seq<Order> {
    if orders == [] then []
    else (if IsFetched(orders[0], keys) then [orders[0]] else []) + Fetch(orders[1..], keys)
  }

  lemma {:induction false} FetchMembers(orders: seq<Order>, keys: set<string>)
    ensures forall o :: o in Fetch(orders, keys) <==> o in orders && o.source == "oms" && o.key in keys
  {
    if orders != [] {
      FetchMembers(orders[1..], keys);
      assert orders == [orders[0]] + orders[1..];
    }
  }

  lemma {:induction false} FetchDistinct(orders: seq<Order>, keys: set<string>)
    requires DistinctIds(orders)
    ensures DistinctIds(Fetch(orders, keys))
  {
    if orders != [] {
      assert DistinctIds(orders[1..]);
      FetchDistinct(orders[1..], keys);
      FetchMembers(orders[1..], keys);
      var rest := Fetch(orders[1..], keys);
      forall j | 0 <= j < |rest| ensures rest[j].id != orders[0].id {
        assert rest[j] in orders[1..];
      }
    }
  }

  lemma {:induction false} FetchRetireMany(orders: seq<Order>, ids: set<int>, keys: set<string>)
    ensures Fetch(RetireMany(orders, ids), keys) == RetireMany(Fetch(orders, keys), ids)
  {
    if orders != [] {
      FetchRetireMany(orders[1..], ids, keys);
      assert RetireMany(orders, ids)[1..] == RetireMany(orders[1..], ids);
    }
  }

  /** The plans built from the fetched rows retire exactly `RetireSet` of those rows. */
  lemma {:induction false} PlansRetireSet(rows: seq<Order>, flags: Flags, plans: seq<Plan>)
    requires DistinctIds(rows)
    requires forall i :: 0 <= i < |plans| ==>
               GroupOf(rows, plans[i].omsId) != [] && plans[i] == PlanOf(rows, plans[i].omsId, flags)
    requires forall o :: o in rows ==> exists i :: 0 <= i < |plans| && plans[i].omsId == OmsId(o)
    ensures Ids(Jobs(plans, |plans|)) == RetireSet(rows, flags)
  {
    var jobs := Jobs(plans, |plans|);
    forall n | 0 <= n < |jobs| ensures jobs[n].decision.row.id in RetireSet(rows, flags) {
      var p, q := WhichDecision(plans, |plans|, jobs[n]);
      DecisionInRetireSet(rows, flags, plans[p].omsId, q);
    }
    forall i | 0 <= i < |rows| && InRetireIds(rows, flags, i) ensures rows[i].id in Ids(jobs) {
      assert rows[i] in rows;
      var p :| 0 <= p < |plans| && plans[p].omsId == OmsId(rows[i]);
      RowIsRun(rows, flags, i, plans, p);
    }
  }

  lemma {:induction false} RowIsRun(rows: seq<Order>, flags: Flags, i: nat, plans: seq<Plan>, p: nat)
    requires i < |rows| && InRetireIds(rows, flags, i)
    requires p < |plans| && plans[p].omsId == OmsId(rows[i])
    requires GroupOf(rows, plans[p].omsId) != [] && plans[p] == PlanOf(rows, plans[p].omsId, flags)
    ensures rows[i].id in Ids(Jobs(plans, |plans|))
  {
    var jobs := Jobs(plans, |plans|);
    var job := JobForRow(rows, flags, i, plans[p]);
    JobsIn(plans, p, job);
    var n :| 0 <= n < |jobs| && jobs[n] == job;
    assert jobs[n].decision.row.id == rows[i].id;
  }

  lemma {:induction false} DecisionInRetireSet(rows: seq<Order>, flags: Flags, omsId: int, q: nat)
    requires q < |GroupOf(rows, omsId)|
    ensures var group := GroupOf(rows, omsId);
            DecideRow(group[q], ChooseCanonical(group), flags).action.Retires() ==>
              group[q].id in RetireSet(rows, flags)
  {
    var group := GroupOf(rows, omsId);
    if DecideRow(group[q], ChooseCanonical(group), flags).action.Retires() {
      RetiresInGroup(group, flags, q);
      MemberInRetireSet(rows, flags, omsId, group, q);
    }
  }

  lemma {:induction false} MemberInRetireSet(rows: seq<Order>, flags: Flags, omsId: int, group: seq<Order>, q: nat)
    requires group == GroupOf(rows, omsId) && q < |group|
    ensures group[q].id in RetireIds(group, flags) ==> group[q].id in RetireSet(rows, flags)
  {
    GroupMembers(rows, omsId);
    assert group[q] in group;
    var i :| 0 <= i < |rows| && rows[i] == group[q];
    if group[q].id in RetireIds(group, flags) { InSet(rows, flags, i); }
  }

  lemma {:induction false} RetiresInGroup(group: seq<Order>, flags: Flags, q: nat)
    requires group != [] && q < |group| && DecideRow(group[q], ChooseCanonical(group), flags).action.Retires()
    ensures group[q].id in RetireIds(group, flags)
  {
  }

  lemma {:induction false} InSet(rows: seq<Order>, flags: Flags, i: nat)
    requires i < |rows| && GroupOf(rows, OmsId(rows[i])) != []
    requires rows[i].id in RetireIds(GroupOf(rows, OmsId(rows[i])), flags)
    ensures rows[i].id in RetireSet(rows, flags)
  {
    assert InRetireIds(rows, flags, i);
  }

  lemma {:induction false} JobForRow(rows: seq<Order>, flags: Flags, i: nat, plan: Plan) returns (job: Job)
    requires i < |rows| && InRetireIds(rows, flags, i)
    requires GroupOf(rows, plan.omsId) != [] && plan == PlanOf(rows, plan.omsId, flags)
    requires plan.omsId == OmsId(rows[i])
    ensures job in JobsOf(plan, |plan.decisions|) && job.decision.row.id == rows[i].id
  {
    var group := GroupOf(rows, plan.omsId);
    var q := WhichRow(group, flags, rows[i].id);
    job := JobAt(plan, q);
  }

  lemma {:induction false} WhichRow(group: seq<Order>, flags: Flags, id: int) returns (q: nat)
    requires group != [] && id in RetireIds(group, flags)
    ensures q < |group| && group[q].id == id && DecideRow(group[q], ChooseCanonical(group), flags).action.Retires()
  {
    q :| 0 <= q < |group| && group[q].id == id && DecideRow(group[q], ChooseCanonical(group), flags).action.Retires();
  }

  lemma {:induction false} JobAt(plan: Plan, q: nat) returns (job: Job)
    requires q < |plan.decisions| && plan.decisions[q].action.Retires()
    ensures job == Job(plan, plan.decisions[q]) && job in JobsOf(plan, |plan.decisions|)
  {
    NextJob(plan, q);
    job := Job(plan, plan.decisions[q]);
  }

  lemma {:induction false} WhichDecision(plans: seq<Plan>, k: nat, j: Job) returns (p: nat, q: nat)
    requires k <= |plans| && j in Jobs(plans, k)
    ensures p < k && q < |plans[p].decisions|
    ensures j == Job(plans[p], plans[p].decisions[q]) && j.decision.action.Retires()
  {
    if j in JobsOf(plans[k - 1], |plans[k - 1].decisions|) {
      p := k - 1;
      q := WhichOf(plans[p], |plans[p].decisions|, j);
    } else {
      p, q := WhichDecision(plans, k - 1, j);
    }
  }

  lemma {:induction false} WhichOf(plan: Plan, k: nat, j: Job) returns (q: nat)
    requires k <= |plan.decisions| && j in JobsOf(plan, k)
    ensures q < k && j == Job(plan, plan.decisions[q]) && j.decision.action.Retires()
  {
    if plan.decisions[k - 1].action.Retires() && j == Job(plan, plan.decisions[k - 1]) {
      q := k - 1;
    } else {
      q := WhichOf(plan, k - 1, j);
    }
  }

  /** A retirement that the plans for these rows ask for. */
  ghost predicate IsPlanned(rows: seq<Order>, flags: Flags, j: Job) {
    && GroupOf(rows, j.plan.omsId) != [] && j.plan == PlanOf(rows, j.plan.omsId, flags)
    && j.decision in j.plan.decisions && j.decision.action.Retires()
  }

  lemma {:induction false} JobIsPlanned(rows: seq<Order>, flags: Flags, plans: seq<Plan>, j: Job)
    requires forall i :: 0 <= i < |plans| ==>
               GroupOf(rows, plans[i].omsId) != [] && plans[i] == PlanOf(rows, plans[i].omsId, flags)
    requires j in Jobs(plans, |plans|)
    ensures IsPlanned(rows, flags, j)
  {
    var p, q := WhichDecision(plans, |plans|, j);
  }

  /** `main`: fetch, plan, execute. When others keep out of it, the table is the old one with the
      committed jobs' orders retired; a run that stops short has no call left or meets a planned job
      that is blocked. */
  method CleanUp(w: Warehouse, flags: Flags, limit: nat) returns (ok: bool)
    requires DistinctIds(w.orders) && w.turns == 0 && w.trace == []
    modifies w, w.client
    ensures Follows(w.trace, w.writers) && w.orders == Played(old(w.orders), w.trace)
    ensures w.events == old(w.events) + Events(Done(w.trace))
    ensures OnceEach(Done(w.trace)) && forall j :: j in Done(w.trace) ==>
              IsPlanned(Fetch(old(w.orders), DuplicateKeys(old(w.orders), limit)), flags, j)
    ensures Ids(Done(w.trace)) <= RetireSet(Fetch(old(w.orders), DuplicateKeys(old(w.orders), limit)), flags)
    ensures ok && flags.execute ==>
      Ids(Done(w.trace)) == RetireSet(Fetch(old(w.orders), DuplicateKeys(old(w.orders), limit)), flags)
    ensures w.writers == [] ==> w.orders == RetireMany(old(w.orders), Ids(Done(w.trace)))
    ensures !flags.execute ==> ok && Done(w.trace) == [] && w.orders == old(w.orders)
    ensures !ok ==>
      || w.client.callsLeft == 0
      || exists j :: IsPlanned(Fetch(old(w.orders), DuplicateKeys(old(w.orders), limit)), flags, j)
                     && Blocked(old(w.remote), w.omsOrders, j)
    ensures OnlyCancels(old(w.remote), w.remote)
  {
    var keys := DuplicateKeys(w.orders, limit);
    var rows := Fetch(w.orders, keys);
    FetchDistinct(w.orders, keys);
    var plans := BuildPlans(rows, flags);
    PlansRetireSet(rows, flags, plans);
    var summary: Summary;
    ok, summary := w.ExecutePlans(plans, flags);
    IdsPrefix(Done(w.trace), Jobs(plans, |plans|));
    PlansOnceEach(rows, flags, plans);
    forall j | j in Done(w.trace) ensures IsPlanned(rows, flags, j) {
      JobIsPlanned(rows, flags, plans, j);
    }
    if w.writers == [] { PlayedQuietly(old(w.orders), w.trace); }
    if !ok && w.client.callsLeft > 0 {
      ghost var j :| j in Jobs(plans, |plans|) && Blocked(old(w.remote), w.omsOrders, j);
      JobIsPlanned(rows, flags, plans, j);
    }
  }

  /** The table after a complete execute run. */
  ghost function CleanedUp(orders: seq<Order>, flags: Flags, limit: nat): seq<Order> {
    RetireMany(orders, RetireSet(Fetch(orders, DuplicateKeys(orders, limit)), flags))
  }

  /** A run completes what an interrupted one began, a further run changes nothing, and the groups
      looked at are the same every time: no number of runs gets past the first `limit` of them. */
  lemma {:induction false} RerunsConverge(orders: seq<Order>, flags: Flags, limit: nat, retired: set<int>)
    requires DistinctIds(orders)
    requires retired <= RetireSet(Fetch(orders, DuplicateKeys(orders, limit)), flags)
    ensures DuplicateKeys(RetireMany(orders, retired), limit) == DuplicateKeys(orders, limit)
    ensures CleanedUp(RetireMany(orders, retired), flags, limit) == CleanedUp(orders, flags, limit)
    ensures CleanedUp(CleanedUp(orders, flags, limit), flags, limit) == CleanedUp(orders, flags, limit)
    ensures forall i ::
              0 <= i < |orders| && (orders[i].source != "oms" || orders[i].key !in DuplicateKeys(orders, limit)) ==>
              CleanedUp(orders, flags, limit)[i] == orders[i]
  {
    var keys := DuplicateKeys(orders, limit);
    var rows := Fetch(orders, keys);
    var all := RetireSet(rows, flags);
    FetchDistinct(orders, keys);
    Resumed(orders, flags, limit, retired);
    Resumed(orders, flags, limit, all);
    forall i | 0 <= i < |orders| && (orders[i].source != "oms" || orders[i].key !in keys)
      ensures orders[i].id !in all
    {
      FetchMembers(orders, keys);
      if orders[i].id in all {
        var k :| 0 <= k < |rows| && rows[k].id == orders[i].id;
        assert rows[k] in rows;
        SameIdSameRow(orders, orders[i], rows[k]);
      }
    }
  }

  lemma {:induction false} Resumed(orders: seq<Order>, flags: Flags, limit: nat, retired: set<int>)
    requires DistinctIds(orders)
    requires retired <= RetireSet(Fetch(orders, DuplicateKeys(orders, limit)), flags)
    ensures DuplicateKeys(RetireMany(orders, retired), limit) == DuplicateKeys(orders, limit)
    ensures CleanedUp(RetireMany(orders, retired), flags, limit) == CleanedUp(orders, flags, limit)
  {
    var cut := RetireMany(orders, retired);
    var keys := DuplicateKeys(orders, limit);
    var rows := Fetch(orders, keys);
    assert Outline(cut) == Outline(orders);
    FetchRetireMany(orders, retired, keys);
    FetchDistinct(orders, keys);
    RetireSetShrinks(rows, flags, retired);
    RetireManyCompose(orders, retired, RetireSet(rows, flags) - retired);
    assert retired + (RetireSet(rows, flags) - retired) == RetireSet(rows, flags);
  }

  // ---------------------------------------------------------- reruns beside other writers

  lemma {:induction false} FetchGroup(orders: seq<Order>, keys: set<string>, omsId: int)
    ensures GroupOf(Fetch(orders, keys), omsId) == Fetch(GroupOf(orders, omsId), keys)
  {
    if orders != [] {
      FetchGroup(orders[1..], keys, omsId);
      var fetched, group := Fetch(orders[1..], keys), GroupOf(orders[1..], omsId);
      assert ([orders[0]] + fetched)[1..] == fetched && ([orders[0]] + group)[1..] == group;
      assert [] + fetched == fetched && [] + group == group;
    }
  }

  /** The fixpoint is kept for a group that nobody else writes to: fetched again, it has the same
      canonical row and the same retirements but for those done, so none after a complete run. */
  lemma {:induction false} UntouchedGroupConverges(
    orders: seq<Order>, keys: set<string>, flags: Flags, trace: seq<Turn>, omsId: int)
    requires DistinctIds(orders) && Ids(Done(trace)) <= RetireSet(Fetch(orders, keys), flags)
    requires forall k :: 0 <= k < |trace| ==> GroupUntouched(GroupOf(orders, omsId), omsId, trace[k].edits)
    requires GroupOf(Fetch(orders, keys), omsId) != []
    ensures
      var group := GroupOf(Fetch(orders, keys), omsId);
      var group' := GroupOf(Fetch(Played(orders, trace), keys), omsId);
      && group' != [] && ChooseCanonical(group') == ChooseCanonical(group)
      && RetireIds(group', flags) == RetireIds(group, flags) - Ids(Done(trace))
  {
    var ids := Ids(Done(trace));
    FetchDistinct(orders, keys);
    GroupPlayed(orders, trace, omsId);
    FetchGroup(orders, keys, omsId);
    FetchGroup(Played(orders, trace), keys, omsId);
    FetchRetireMany(GroupOf(orders, omsId), ids, keys);
    RetiredGroup(Fetch(orders, keys), flags, ids, omsId);
  }

  /** A planned run conserves quantity when nobody else writes to the orders it retires. */
  lemma {:induction false} PlannedRunConserves(orders: seq<Order>, keys: set<string>, flags: Flags, trace: seq<Turn>)
    requires DistinctIds(orders) && Ids(Done(trace)) <= RetireSet(Fetch(orders, keys), flags)
    requires forall k :: 0 <= k < |trace| && trace[k].done.Some? ==>
               UntouchedFrom(trace[..k + 1], 0, trace[k].done.value.decision.row.id)
    ensures OpenPicked(Played(orders, trace)) == OpenPicked(orders) + Added(OpenPicked, orders, trace)
    ensures OpenFulfilled(Played(orders, trace)) == OpenFulfilled(orders) + Added(OpenFulfilled, orders, trace)
  {
    FetchMembers(orders, keys);
    FetchDistinct(orders, keys);
    UntouchedIsConserved(orders, Fetch(orders, keys), flags, trace);
  }

  lemma {:induction false} PlannedDecision(rows: seq<Order>, flags: Flags, j: Job)
    requires IsPlanned(rows, flags, j)
    ensures j.decision.row in rows && j.decision == DecideRow(j.decision.row, j.plan.canonical, flags)
  {
    GroupMembers(rows, j.plan.omsId);
    var q :| 0 <= q < |j.plan.decisions| && j.plan.decisions[q] == j.decision;
    assert j.plan.rows[q] in j.plan.rows;
  }

  /** A job of a run finds nothing live at ShipStation beyond what it cancelled if and only if nobody
      has attached a new ShipStation order to its row since the rows were fetched; and no evidence of
      shipping if and only if nobody has added any. */
  lemma {:induction false} JobFindsNothingLiveExactly(
    orders: seq<Order>, keys: set<string>, flags: Flags, trace: seq<Turn>, k: nat)
    requires DistinctIds(orders) && OnceEach(Done(trace)) && k < |trace|
    requires trace[k].done.Some? && IsPlanned(Fetch(orders, keys), flags, trace[k].done.value)
    ensures var d := trace[k].done.value.decision;
      var written := LastWrite(trace[..k + 1], d.row.id);
      && (AllLiveListed(FoundBy(orders, trace, k), d) <==>
            (written.Some? ==> forall x :: x in ActiveShipStationOrderIds(written.value) ==>
                                 x in ActiveShipStationOrderIds(d.row)))
      && (NoEvidence(FoundBy(orders, trace, k), d.row.id) <==> (written.Some? ==> !HasShippedEvidence(written.value)))
  {
    var j := trace[k].done.value;
    PlannedDecision(Fetch(orders, keys), flags, j);
    FetchMembers(orders, keys);
    NotDoneBefore(trace, k);
    NothingLiveExactly(orders, trace, k, j.decision, j.plan.canonical, flags);
  }

  lemma {:induction false} JobsOfOnceEach(plan: Plan, k: nat)
    requires k <= |plan.decisions|
    requires forall i, j :: 0 <= i < j < |plan.decisions| ==> plan.decisions[i].row.id != plan.decisions[j].row.id
    ensures OnceEach(JobsOf(plan, k))
  {
    if k > 0 {
      JobsOfOnceEach(plan, k - 1);
      var before := JobsOf(plan, k - 1);
      forall i | 0 <= i < |before| ensures before[i].decision.row.id != plan.decisions[k - 1].row.id {
        var q := WhichOf(plan, k - 1, before[i]);
      }
    }
  }

  lemma {:induction false} PlanOnceEach(rows: seq<Order>, flags: Flags, plan: Plan)
    requires DistinctIds(rows) && GroupOf(rows, plan.omsId) != [] && plan == PlanOf(rows, plan.omsId, flags)
    ensures OnceEach(JobsOf(plan, |plan.decisions|))
  {
    GroupDistinct(rows, plan.omsId);
    forall i, j | 0 <= i < j < |plan.decisions| ensures plan.decisions[i].row.id != plan.decisions[j].row.id {
      assert plan.decisions[i].row == plan.rows[i] && plan.decisions[j].row == plan.rows[j];
    }
    JobsOfOnceEach(plan, |plan.decisions|);
  }

  lemma {:induction false} OtherPlansJobs(rows: seq<Order>, flags: Flags, plans: seq<Plan>, k: nat, a: Job, b: Job)
    requires DistinctIds(rows) && k < |plans|
    requires forall i :: 0 <= i < |plans| ==>
               GroupOf(rows, plans[i].omsId) != [] && plans[i] == PlanOf(rows, plans[i].omsId, flags)
    requires forall i, j :: 0 <= i < j < |plans| ==> plans[i].omsId != plans[j].omsId
    requires a in Jobs(plans, k) && b in JobsOf(plans[k], |plans[k].decisions|)
    ensures a.decision.row.id != b.decision.row.id
  {
    var p, q := WhichDecision(plans, k, a);
    var r := WhichOf(plans[k], |plans[k].decisions|, b);
    GroupsShareNoId(rows, plans[p].omsId, q, plans[k].omsId, r);
  }

  /** The jobs of plan `k` are for different orders, none of which an earlier plan's job is for. */
  ghost predicate AddsOtherOrders(plans: seq<Plan>, k: nat)
    requires k < |plans|
  {
    var own := JobsOf(plans[k], |plans[k].decisions|);
    OnceEach(own) && forall a, b :: a in Jobs(plans, k) && b in own ==> a.decision.row.id != b.decision.row.id
  }

  lemma {:induction false} JobsOnceEach(plans: seq<Plan>, k: nat)
    requires k <= |plans| && forall p :: 0 <= p < k ==> AddsOtherOrders(plans, p)
    ensures OnceEach(Jobs(plans, k))
  {
    if k > 0 {
      JobsOnceEach(plans, k - 1);
      assert AddsOtherOrders(plans, k - 1);
      OnceEachConcat(Jobs(plans, k - 1), JobsOf(plans[k - 1], |plans[k - 1].decisions|));
    }
  }

  lemma {:induction false} PlansOnceEach(rows: seq<Order>, flags: Flags, plans: seq<Plan>)
    requires DistinctIds(rows)
    requires forall i :: 0 <= i < |plans| ==>
               GroupOf(rows, plans[i].omsId) != [] && plans[i] == PlanOf(rows, plans[i].omsId, flags)
    requires forall i, j :: 0 <= i < j < |plans| ==> plans[i].omsId != plans[j].omsId
    ensures OnceEach(Jobs(plans, |plans|))
  {
    forall p | 0 <= p < |plans| ensures AddsOtherOrders(plans, p) {
      PlanOnceEach(rows, flags, plans[p]);
      forall a, b | a in Jobs(plans, p) && b in JobsOf(plans[p], |plans[p].decisions|)
        ensures a.decision.row.id != b.decision.row.id
      {
        OtherPlansJobs(rows, flags, plans, p, a, b);
      }
    }
    JobsOnceEach(plans, |plans|);
  }

  lemma {:induction false} OnceEachConcat(a: seq<Job>, b: seq<Job>)
    requires OnceEach(a) && OnceEach(b)
    requires forall x, y :: x in a && y in b ==> x.decision.row.id != y.decision.row.id
    ensures OnceEach(a + b)
  {
  }

  lemma {:induction false} GroupsShareNoId(rows: seq<Order>, a: int, q: nat, b: int, r: nat)
    requires DistinctIds(rows) && a != b && q < |GroupOf(rows, a)| && r < |GroupOf(rows, b)|
    ensures GroupOf(rows, a)[q].id != GroupOf(rows, b)[r].id
  {
    GroupMembers(rows, a);
    GroupMembers(rows, b);
    var x, y := GroupOf(rows, a)[q], GroupOf(rows, b)[r];
    assert x in GroupOf(rows, a) && y in GroupOf(rows, b);
    if x.id == y.id { SameIdSameRow(rows, x, y); }
  }

  // ---------------------------------------------------------- the limit

  ghost predicate IsDuplicated(orders: seq<Order>, key: string) {
    exists i, j :: 0 <= i < j < |orders| && BearsKey(orders[i], key) && BearsKey(orders[j], key)
  }

  ghost predicate BearsKey(o: Order, key: string) { o.source == "oms" && o.key != "" && o.key == key }

  lemma {:induction false} KeysFacts(rows: seq<Skeleton>)
    ensures NoRepeats(Keys(rows))
    ensures forall i :: 0 <= i < |rows| && rows[i].counts ==> rows[i].key in Keys(rows)
  {
    if rows != [] {
      var n := |rows| - 1;
      KeysFacts(rows[..n]);
      forall i | 0 <= i < |rows| && rows[i].counts ensures rows[i].key in Keys(rows) {
        if i < n { assert rows[..n][i].counts && rows[..n][i].key in Keys(rows[..n]); }
      }
    }
  }

  lemma {:induction false} SharedKey(rows: seq<Skeleton>, key: string)
    ensures |WithKey(rows, key)| > 0 <==> exists i :: 0 <= i < |rows| && Bears(rows[i], key)
    ensures |WithKey(rows, key)| > 1 <==>
              exists i, j :: 0 <= i < j < |rows| && Bears(rows[i], key) && Bears(rows[j], key)
  {
    if rows != [] {
      SharedKey(rows[1..], key);
      if i :| 0 <= i < |rows[1..]| && Bears(rows[1..][i], key) {
        assert Bears(rows[i + 1], key);
      }
      if i, j :| 0 <= i < j < |rows[1..]| && Bears(rows[1..][i], key) && Bears(rows[1..][j], key) {
        assert Bears(rows[i + 1], key) && Bears(rows[j + 1], key);
      }
      if j :| 0 < j < |rows| && Bears(rows[j], key) {
        assert Bears(rows[1..][j - 1], key);
      }
      if i, j :| 0 < i < j < |rows| && Bears(rows[i], key) && Bears(rows[j], key) {
        assert Bears(rows[1..][i - 1], key) && Bears(rows[1..][j - 1], key);
      }
    }
  }

  predicate OtherKey(a: Group, b: Group) { a.key != b.key }

  lemma {:induction false} GroupsMembers(rows: seq<Skeleton>, keys: seq<string>)
    ensures forall g :: g in Groups(rows, keys) ==> g.key in keys && |WithKey(rows, g.key)| > 1
  {
    if keys != [] { GroupsMembers(rows, keys[1..]); }
  }

  lemma {:induction false} GroupsApart(rows: seq<Skeleton>, keys: seq<string>)
    requires NoRepeats(keys)
    ensures Pairwise(OtherKey, Groups(rows, keys))
  {
    if keys != [] {
      assert NoRepeats(keys[1..]);
      GroupsApart(rows, keys[1..]);
      GroupsMembers(rows, keys[1..]);
      var rest := Groups(rows, keys[1..]);
      forall j | 0 <= j < |rest| ensures rest[j].key != keys[0] {
        assert rest[j] in rest && rest[j].key in keys[1..];
      }
    }
  }

  lemma {:induction false} GroupsCover(rows: seq<Skeleton>, keys: seq<string>, key: string) returns (g: Group)
    requires key in keys && |WithKey(rows, key)| > 1
    ensures g in Groups(rows, keys) && g.key == key
  {
    if keys[0] == key {
      g := Groups(rows, keys)[0];
    } else {
      g := GroupsCover(rows, keys[1..], key);
    }
  }

  /** The duplicate groups of the table, oldest first. */
  function AllGroups(orders: seq<Order>): seq<Group> {
    Sort(GroupLe, Groups(Outline(orders), Keys(Outline(orders))))
  }

  lemma {:induction false} AllGroupsFacts(orders: seq<Order>)
    ensures Pairwise(OtherKey, AllGroups(orders))
    ensures forall g :: g in AllGroups(orders) ==> IsDuplicated(orders, g.key)
  {
    var outline := Outline(orders);
    var groups := Groups(outline, Keys(outline));
    KeysFacts(outline);
    GroupsApart(outline, Keys(outline));
    GroupsMembers(outline, Keys(outline));
    SortMultiset(GroupLe, groups);
    SortKeepsSymmetric(GroupLe, OtherKey, groups);
    forall g | g in AllGroups(orders) ensures IsDuplicated(orders, g.key) {
      SharedKey(outline, g.key);
      var i, j :| 0 <= i < j < |outline| && Bears(outline[i], g.key) && Bears(outline[j], g.key);
      assert BearsKey(orders[i], g.key) && BearsKey(orders[j], g.key);
    }
  }

  lemma {:induction false} GroupOfKey(orders: seq<Order>, key: string) returns (k: nat)
    requires IsDuplicated(orders, key)
    ensures k < |AllGroups(orders)| && AllGroups(orders)[k].key == key
  {
    var outline := Outline(orders);
    var i, j :| 0 <= i < j < |orders| && BearsKey(orders[i], key) && BearsKey(orders[j], key);
    assert Bears(outline[i], key) && Bears(outline[j], key);
    SharedKey(outline, key);
    KeysFacts(outline);
    var g := GroupsCover(outline, Keys(outline), key);
    SortMultiset(GroupLe, Groups(outline, Keys(outline)));
    assert g in AllGroups(orders);
    k :| 0 <= k < |AllGroups(orders)| && AllGroups(orders)[k] == g;
  }

  lemma {:induction false} NotAmongFirst(groups: seq<Group>, limit: nat)
    requires Pairwise(OtherKey, groups) && limit < |groups|
    ensures forall i :: 0 <= i < limit ==> groups[i].key != groups[limit].key
  {
    forall i | 0 <= i < limit ensures groups[i].key != groups[limit].key {
      assert OtherKey(groups[i], groups[limit]);
    }
  }

  /** A run looks at duplicated keys only, and at all of them if and only if the limit covers them. */
  lemma {:induction false} LimitCoversExactly(orders: seq<Order>, limit: nat)
    ensures forall key :: key in DuplicateKeys(orders, limit) ==> IsDuplicated(orders, key)
    ensures (forall key :: IsDuplicated(orders, key) ==> key in DuplicateKeys(orders, limit)) <==>
              |AllGroups(orders)| <= limit
  {
    var groups := AllGroups(orders);
    AllGroupsFacts(orders);
    forall key | key in DuplicateKeys(orders, limit) ensures IsDuplicated(orders, key) {
      var i :| 0 <= i < |groups| && i < limit && groups[i].key == key;
      assert groups[i] in groups;
    }
    if limit < |groups| {
      NotAmongFirst(groups, limit);
      assert groups[limit] in groups;
      assert groups[limit].key !in DuplicateKeys(orders, limit);
    } else {
      forall key | IsDuplicated(orders, key) ensures key in DuplicateKeys(orders, limit) {
        var k := GroupOfKey(orders, key);
      }
    }
  }

  /** The oldest order that bears `a` is older than every order that bears `b`; or it is no younger, and
      no order that bears `b` has a lower id than the lowest that bears `a`. */
  ghost predicate KeyComesFirst(orders: seq<Order>, a: string, b: string) {
    || (exists i :: IsBefore(orders, i, a, b))
    || (exists i, j :: IsNoLater(orders, i, a, b) && HasNoHigherId(orders, j, a, b))
  }

  ghost predicate BearsAt(orders: seq<Order>, i: int, key: string) {
    0 <= i < |orders| && BearsKey(orders[i], key)
  }

  ghost predicate IsBefore(orders: seq<Order>, i: int, a: string, b: string) {
    BearsAt(orders, i, a) && forall o :: o in orders && BearsKey(o, b) ==> orders[i].created < o.created
  }

  ghost predicate IsNoLater(orders: seq<Order>, i: int, a: string, b: string) {
    BearsAt(orders, i, a) && forall o :: o in orders && BearsKey(o, b) ==> orders[i].created <= o.created
  }

  ghost predicate HasNoHigherId(orders: seq<Order>, j: int, a: string, b: string) {
    BearsAt(orders, j, a) && forall o :: o in orders && BearsKey(o, b) ==> orders[j].id <= o.id
  }

  lemma {:induction false} LeastFacts(rows: seq<Skeleton>)
    requires rows != []
    ensures exists i :: 0 <= i < |rows| && rows[i].created == MinCreated(rows)
    ensures exists i :: 0 <= i < |rows| && rows[i].id == MinId(rows)
    ensures forall i :: 0 <= i < |rows| ==> MinCreated(rows) <= rows[i].created && MinId(rows) <= rows[i].id
  {
    if |rows| > 1 {
      LeastFacts(rows[1..]);
      var i :| 0 <= i < |rows[1..]| && rows[1..][i].created == MinCreated(rows[1..]);
      var j :| 0 <= j < |rows[1..]| && rows[1..][j].id == MinId(rows[1..]);
      assert rows[i + 1].created == MinCreated(rows[1..]) && rows[j + 1].id == MinId(rows[1..]);
      assert rows[0].created == MinCreated(rows) || rows[i + 1].created == MinCreated(rows);
      assert rows[0].id == MinId(rows) || rows[j + 1].id == MinId(rows);
    } else {
      assert rows[0].created == MinCreated(rows) && rows[0].id == MinId(rows);
    }
  }

  lemma {:induction false} WithKeyMembers(rows: seq<Skeleton>, key: string)
    ensures forall r :: r in WithKey(rows, key) <==> r in rows && Bears(r, key)
  {
    if rows != [] {
      WithKeyMembers(rows[1..], key);
      assert rows == [rows[0]] + rows[1..];
    }
  }

  lemma {:induction false} GroupsAre(rows: seq<Skeleton>, keys: seq<string>, g: Group)
    requires g in Groups(rows, keys)
    ensures WithKey(rows, g.key) != []
    ensures g.created == MinCreated(WithKey(rows, g.key)) && g.id == MinId(WithKey(rows, g.key))
  {
    var own := WithKey(rows, keys[0]);
    if |own| <= 1 || g != Group(keys[0], MinCreated(own), MinId(own)) { GroupsAre(rows, keys[1..], g); }
  }

  /** A group carries the least time and the least id of the orders that bear its key. */
  lemma {:induction false} GroupLeast(orders: seq<Order>, g: Group) returns (i: nat, j: nat)
    requires g in AllGroups(orders)
    ensures BearsAt(orders, i, g.key) && orders[i].created == g.created
    ensures BearsAt(orders, j, g.key) && orders[j].id == g.id
    ensures forall o :: o in orders && BearsKey(o, g.key) ==> g.created <= o.created && g.id <= o.id
  {
    var outline := Outline(orders);
    var own := WithKey(outline, g.key);
    SortMultiset(GroupLe, Groups(outline, Keys(outline)));
    GroupsAre(outline, Keys(outline), g);
    LeastFacts(own);
    var p :| 0 <= p < |own| && own[p].created == g.created;
    var q :| 0 <= q < |own| && own[q].id == g.id;
    i := BearerOf(orders, g.key, own[p]);
    j := BearerOf(orders, g.key, own[q]);
    forall o | o in orders && BearsKey(o, g.key) ensures g.created <= o.created && g.id <= o.id {
      var k := BearerAmong(orders, g.key, o);
    }
  }

  lemma {:induction false} GroupComesFirst(orders: seq<Order>, g: Group, h: Group)
    requires g in AllGroups(orders) && h in AllGroups(orders) && GroupLe(g, h)
    ensures KeyComesFirst(orders, g.key, h.key)
  {
    var i, j := GroupLeast(orders, g);
    var k, l := GroupLeast(orders, h);
    if g.created < h.created {
      assert IsBefore(orders, i, g.key, h.key);
    } else {
      assert IsNoLater(orders, i, g.key, h.key) && HasNoHigherId(orders, j, g.key, h.key);
    }
  }

  lemma {:induction false} BearerOf(orders: seq<Order>, key: string, r: Skeleton) returns (i: nat)
    requires r in WithKey(Outline(orders), key)
    ensures i < |orders| && BearsKey(orders[i], key) && r.created == orders[i].created && r.id == orders[i].id
  {
    var outline := Outline(orders);
    WithKeyMembers(outline, key);
    i :| 0 <= i < |outline| && outline[i] == r;
  }

  lemma {:induction false} BearerAmong(orders: seq<Order>, key: string, o: Order) returns (k: nat)
    requires o in orders && BearsKey(o, key)
    ensures var own := WithKey(Outline(orders), key);
      k < |own| && own[k].created == o.created && own[k].id == o.id
  {
    var outline := Outline(orders);
    var own := WithKey(outline, key);
    WithKeyMembers(outline, key);
    var i :| 0 <= i < |orders| && orders[i] == o;
    assert outline[i] in outline && Bears(outline[i], key);
    k :| 0 <= k < |own| && own[k] == outline[i];
  }

  /** The limit takes the oldest: a key looked at comes before every duplicated key that is not. */
  lemma {:induction false} LimitTakesOldest(orders: seq<Order>, limit: nat, taken: string, left: string)
    requires taken in DuplicateKeys(orders, limit)
    requires IsDuplicated(orders, left) && left !in DuplicateKeys(orders, limit)
    ensures KeyComesFirst(orders, taken, left)
  {
    var groups := AllGroups(orders);
    var i :| 0 <= i < |groups| && i < limit && groups[i].key == taken;
    var j := GroupOfKey(orders, left);
    SortRefines(GroupLe, GroupLe, Groups(Outline(orders), Keys(Outline(orders))));
    assert limit <= j;
    assert GroupLe(groups[i], groups[j]);
    assert groups[i] in groups && groups[j] in groups;
    GroupComesFirst(orders, groups[i], groups[j]);
  }

  /** `omsOrder` is the OMS order whose id, as text, is the key. */
  ghost predicate JoinedByKey(rows: seq<Order>) {
    forall a, b :: a in rows && b in rows ==>
      && (a.key == b.key ==> a.omsOrder == b.omsOrder)
      && (a.omsOrder.Some? && a.omsOrder == b.omsOrder ==> a.key == b.key)
      && (a.omsOrder.Some? ==> a.omsOrder.value > 0)
  }

  /** Two fetched rows are planned as duplicates of one another exactly when they have the same key
      or neither key belongs to any OMS order; in the second case no retirement can be recorded. */
  lemma {:induction false} PlannedTogetherExactly(rows: seq<Order>, a: Order, b: Order)
    requires JoinedByKey(rows) && a in rows && b in rows
    ensures a in GroupOf(rows, OmsId(b)) <==> a.key == b.key || (a.omsOrder.None? && b.omsOrder.None?)
  {
    GroupMembers(rows, OmsId(b));
  }
}
