/** The merge as a program: one transaction for each duplicate group, counters kept outside it. */
module OmsDedupRun {
  import opened Prelude
  import opened StableSort
  import opened OmsDedup

  /** What becomes of a group's transaction: its statements are BEGIN, the two updates, the delete and
      COMMIT. `ReplyLost` commits and still reports an error. */
  datatype Fault = Works | FailsBegin | FailsLines | FailsEvents | FailsDelete | FailsCommit | ReplyLost
  {
    predicate Lands() { Works? || ReplyLost? }
    predicate CountsLines() { Works? || ReplyLost? || FailsEvents? || FailsDelete? || FailsCommit? }
    predicate CountsEvents() { Works? || ReplyLost? || FailsDelete? || FailsCommit? }
    predicate CountsDeleted() { Works? || ReplyLost? || FailsCommit? }
  }

  function FaultAt(faults: seq<Fault>, k: nat): Fault { if k < |faults| then faults[k] else Works }

  /** The groups of a run: distinct pairs, each complete. */
  ghost predicate AreGroups(gs: seq<Group>, orders: seq<Order>) {
    DistinctIds(orders) && Pairwise(OtherPair, gs) && forall k :: 0 <= k < |gs| ==> IsGroup(gs[k], orders)
  }

  lemma {:induction false} SelectedAreGroups(orders: seq<Order>, limit: nat)
    requires DistinctIds(orders)
    ensures AreGroups(Selected(orders, limit), orders)
  {
    var gs := Selected(orders, limit);
    SelectedFacts(orders, limit);
    forall k | 0 <= k < |gs| ensures IsGroup(gs[k], orders) {
      assert gs[k] in gs;
    }
  }

  /** The merges committed by the first `n` groups. */
  function Committed(gs: seq<Group>, n: nat, faults: seq<Fault>): Merges
    requires n <= |gs|
  {
    if n == 0 then map[]
    else Committed(gs, n - 1, faults) + (if FaultAt(faults, n - 1).Lands() then MergesOf(gs[n - 1]) else map[])
  }

  /** Order `id` is a later row of group `k`. */
  ghost predicate LaterRow(id: int, gs: seq<Group>, k: nat)
    requires k < |gs|
  {
    exists i :: 1 <= i < |gs[k].rows| && gs[k].rows[i].id == id
  }

  lemma {:induction false} MergesOfFacts(g: Group, orders: seq<Order>, id: int)
    requires IsGroup(g, orders)
    ensures id in MergesOf(g) <==> exists i :: 1 <= i < |g.rows| && g.rows[i].id == id
    ensures id in MergesOf(g) ==> MergesOf(g)[id] == g.rows[0].id
  {
    var later := g.rows[1..];
    if id in MergesOf(g) {
      var j :| 0 <= j < |later| && later[j].id == id;
      assert g.rows[j + 1].id == id;
    } else {
      forall i | 1 <= i < |g.rows| ensures g.rows[i].id != id {
        assert later[i - 1] in later;
      }
    }
  }

  /** Rows of different groups are different orders. */
  lemma {:induction false} GroupsApart(gs: seq<Group>, orders: seq<Order>, j: nat, k: nat, a: nat, b: nat)
    requires AreGroups(gs, orders) && j < |gs| && k < |gs| && a < |gs[j].rows| && b < |gs[k].rows|
    requires gs[j].rows[a].id == gs[k].rows[b].id
    ensures j == k && a == b
  {
    assert gs[j].rows[a] in gs[j].rows && gs[k].rows[b] in gs[k].rows;
    SameId(orders, gs[j].rows[a], gs[k].rows[b]);
    assert j < k ==> OtherPair(gs[j], gs[k]);
    assert k < j ==> OtherPair(gs[k], gs[j]);
  }

  lemma {:induction false} WhichGroup(gs: seq<Group>, n: nat, faults: seq<Fault>, id: int) returns (k: nat)
    requires n <= |gs| && id in Committed(gs, n, faults)
    ensures k < n && FaultAt(faults, k).Lands() && id in MergesOf(gs[k])
    ensures Committed(gs, n, faults)[id] == MergesOf(gs[k])[id]
  {
    if FaultAt(faults, n - 1).Lands() && id in MergesOf(gs[n - 1]) {
      k := n - 1;
    } else {
      k := WhichGroup(gs, n - 1, faults, id);
    }
  }

  /** Only the later rows of the committed groups go, each to the first row of its group. */
  lemma {:induction false} WhoCommitted(gs: seq<Group>, n: nat, faults: seq<Fault>, orders: seq<Order>, id: int)
    returns (k: nat)
    requires AreGroups(gs, orders) && n <= |gs| && id in Committed(gs, n, faults)
    ensures k < n && FaultAt(faults, k).Lands() && LaterRow(id, gs, k)
    ensures Committed(gs, n, faults)[id] == gs[k].rows[0].id
  {
    k := WhichGroup(gs, n, faults, id);
    MergesOfFacts(gs[k], orders, id);
  }

  /** And all of them go. */
  lemma {:induction false} LaterRowGoes(gs: seq<Group>, n: nat, faults: seq<Fault>, orders: seq<Order>, id: int, k: nat)
    requires AreGroups(gs, orders) && k < n <= |gs| && FaultAt(faults, k).Lands() && LaterRow(id, gs, k)
    ensures id in Committed(gs, n, faults) && Committed(gs, n, faults)[id] == gs[k].rows[0].id
  {
    MergesOfFacts(gs[n - 1], orders, id);
    if k < n - 1 {
      LaterRowGoes(gs, n - 1, faults, orders, id, k);
      var a :| 1 <= a < |gs[k].rows| && gs[k].rows[a].id == id;
      NotInGroup(gs, orders, k, a, n - 1);
    }
  }

  lemma {:induction false} CommittedCoherent(gs: seq<Group>, n: nat, faults: seq<Fault>, orders: seq<Order>)
    requires AreGroups(gs, orders) && n <= |gs|
    ensures Coherent(Committed(gs, n, faults), orders)
  {
    var m := Committed(gs, n, faults);
    forall id | id in m
      ensures m[id] !in m
      ensures exists o, q :: o in orders && q in orders && o.id == id && q.id == m[id] && PairOf(o) == PairOf(q)
    {
      var k := WhoCommitted(gs, n, faults, orders, id);
      var i :| 1 <= i < |gs[k].rows| && gs[k].rows[i].id == id;
      assert gs[k].rows[i] in gs[k].rows && gs[k].rows[0] in gs[k].rows;
      FirstRowStays(gs, n, faults, orders, k);
    }
  }

  lemma {:induction false} FirstRowStays(gs: seq<Group>, n: nat, faults: seq<Fault>, orders: seq<Order>, k: nat)
    requires AreGroups(gs, orders) && n <= |gs| && k < |gs|
    ensures gs[k].rows[0].id !in Committed(gs, n, faults)
  {
    var id := gs[k].rows[0].id;
    if id in Committed(gs, n, faults) {
      var j := WhoCommitted(gs, n, faults, orders, id);
      var a :| 1 <= a < |gs[j].rows| && gs[j].rows[a].id == id;
      GroupsApart(gs, orders, j, k, a, 0);
    }
  }

  /** The next group's merges do not meet those already made. */
  lemma {:induction false} NextGroupApart(gs: seq<Group>, n: nat, faults: seq<Fault>, orders: seq<Order>)
    requires AreGroups(gs, orders) && n < |gs|
    ensures var m, g := Committed(gs, n, faults), MergesOf(gs[n]);
            m.Keys !! g.Keys && forall id :: id in m ==> m[id] !in g
  {
    var m, g := Committed(gs, n, faults), MergesOf(gs[n]);
    forall id | id in m ensures id !in g && m[id] !in g {
      var k := WhoCommitted(gs, n, faults, orders, id);
      var a :| 1 <= a < |gs[k].rows| && gs[k].rows[a].id == id;
      NotInGroup(gs, orders, k, a, n);
      NotInGroup(gs, orders, k, 0, n);
    }
  }

  lemma {:induction false} NotInGroup(gs: seq<Group>, orders: seq<Order>, k: nat, a: nat, n: nat)
    requires AreGroups(gs, orders) && k < n < |gs| && a < |gs[k].rows|
    ensures gs[k].rows[a].id !in MergesOf(gs[n])
  {
    var id := gs[k].rows[a].id;
    MergesOfFacts(gs[n], orders, id);
    if id in MergesOf(gs[n]) {
      var b :| 1 <= b < |gs[n].rows| && gs[n].rows[b].id == id;
      GroupsApart(gs, orders, k, n, a, b);
    }
  }

  // ---------------------------------------------------------- counting

  function CountIn(cs: seq<Child>, m: Merges): nat {
    if cs == [] then 0 else (if cs[0].order in m then 1 else 0) + CountIn(cs[1..], m)
  }

  lemma {:induction false} CountInMoved(cs: seq<Child>, m: Merges, g: Merges)
    requires m.Keys !! g.Keys && forall id :: id in m ==> m[id] !in g
    ensures CountIn(Moved(cs, m), g) == CountIn(cs, g)
    ensures CountIn(cs, m + g) == CountIn(cs, m) + CountIn(cs, g)
  {
    if cs != [] {
      CountInMoved(cs[1..], m, g);
      assert Moved(cs, m)[1..] == Moved(cs[1..], m);
    }
  }

  lemma {:induction false} KeptLength(orders: seq<Order>, g: Group, all: seq<Order>)
    requires DistinctIds(orders) && IsGroup(g, all) && forall o :: o in g.rows ==> o in orders
    ensures |Kept(orders, MergesOf(g))| == |orders| - (|g.rows| - 1)
  {
    var gone := Filter((o: Order) => o.id in MergesOf(g), orders);
    KeptComplement(orders, MergesOf(g));
    FilterNoRepeats((o: Order) => o.id in MergesOf(g), orders);
    forall i, j | 0 <= i < j < |g.rows[1..]| ensures g.rows[1..][i] != g.rows[1..][j] {
      assert g.rows[i + 1].id != g.rows[j + 1].id;
    }
    forall o ensures o in gone <==> o in g.rows[1..] {
      MergesOfFacts(g, all, o.id);
      if o in gone {
        var i :| 1 <= i < |g.rows| && g.rows[i].id == o.id;
        assert g.rows[i] in g.rows;
        SameId(orders, g.rows[i], o);
        assert g.rows[1..][i - 1] == o;
      }
      if o in g.rows[1..] {
        var i :| 0 <= i < |g.rows[1..]| && g.rows[1..][i] == o;
        assert g.rows[i + 1] == o;
      }
    }
    SameElements(gone, g.rows[1..]);
  }

  lemma {:induction false} KeptComplement(orders: seq<Order>, m: Merges)
    ensures |Kept(orders, m)| + |Filter((o: Order) => o.id in m, orders)| == |orders|
  {
    if orders != [] { KeptComplement(orders[1..], m); }
  }

  lemma {:induction false} FilterNoRepeats(p: Order -> bool, orders: seq<Order>)
    requires DistinctIds(orders)
    ensures NoRepeats(Filter(p, orders))
  {
    if orders != [] {
      assert DistinctIds(orders[1..]);
      FilterNoRepeats(p, orders[1..]);
      var rest := Filter(p, orders[1..]);
      forall j | 0 <= j < |rest| ensures rest[j] != orders[0] {
        assert rest[j] in rest && rest[j] in orders[1..];
      }
    }
  }

  datatype Stats = Stats(deleted: int, lines: nat, events: nat, errors: nat)

  const NO_STATS := Stats(0, 0, 0, 0)

  /** What the counters show after `n` groups. */
  function Reported(t: Tables, gs: seq<Group>, n: nat, faults: seq<Fault>): Stats
    requires n <= |gs|
  {
    if n == 0 then NO_STATS
    else
      var s, f, g := Reported(t, gs, n - 1, faults), FaultAt(faults, n - 1), MergesOf(gs[n - 1]);
      Stats(s.deleted + (if f.CountsDeleted() then |gs[n - 1].rows| - 1 else 0),
            s.lines + (if f.CountsLines() then CountIn(t.lines, g) else 0),
            s.events + (if f.CountsEvents() then CountIn(t.events, g) else 0),
            s.errors + (if f.Works? then 0 else 1))
  }

  // ---------------------------------------------------------- the program

  class Oms {
    var tables: Tables

    constructor (t: Tables)
      ensures tables == t
    {
      tables := t;
    }

    /** One transaction. The counters move with the statements, not with the commit. After a failure
        the ROLLBACK can fail as well (`broken`); nothing catches that. */
    method MergeGroup(g: Group, fault: Fault, broken: bool, before: Stats) returns (ok: bool, s: Stats)
      modifies this
      ensures ok <==> fault.Works? || !broken
      ensures tables == if fault.Lands() then Merged(old(tables), MergesOf(g)) else old(tables)
      ensures s.lines == before.lines + (if fault.CountsLines() then CountIn(old(tables.lines), MergesOf(g)) else 0)
      ensures s.events == before.events + (if fault.CountsEvents() then CountIn(old(tables.events), MergesOf(g)) else 0)
      ensures s.deleted == before.deleted +
        (if fault.CountsDeleted() then |old(tables.orders)| - |Kept(old(tables.orders), MergesOf(g))| else 0)
      ensures s.errors == before.errors + (if fault.Works? || broken then 0 else 1)
    {
      s := MergeRows(g, fault, before);
      ok := fault.Works? || !broken;
      if !fault.Works? && !broken { s := s.(errors := s.errors + 1); }
    }

    /** The statements, up to the one that fails. */
    method MergeRows(g: Group, fault: Fault, before: Stats) returns (s: Stats)
      modifies this
      ensures tables == if fault.Lands() then Merged(old(tables), MergesOf(g)) else old(tables)
      ensures s.lines == before.lines + (if fault.CountsLines() then CountIn(old(tables.lines), MergesOf(g)) else 0)
      ensures s.events == before.events + (if fault.CountsEvents() then CountIn(old(tables.events), MergesOf(g)) else 0)
      ensures s.deleted == before.deleted +
        (if fault.CountsDeleted() then |old(tables.orders)| - |Kept(old(tables.orders), MergesOf(g))| else 0)
      ensures s.errors == before.errors
    {
      s := before;
      var m := MergesOf(g);
      if fault.FailsBegin? { return; }
      var staged := tables;
      if fault.FailsLines? { return; }
      s := s.(lines := s.lines + CountIn(staged.lines, m));
      staged := staged.(lines := Moved(staged.lines, m));
      if fault.FailsEvents? { return; }
      s := s.(events := s.events + CountIn(staged.events, m));
      staged := staged.(events := Moved(staged.events, m));
      if fault.FailsDelete? { return; }
      s := s.(deleted := s.deleted + |staged.orders| - |Kept(staged.orders, m)|);
      staged := staged.(orders := Kept(staged.orders, m));
      if fault.FailsCommit? { return; }
      tables := staged;
    }

    /** The whole run: the merges of the groups that were committed among the first `n`, and nothing
        else. It gets through them all unless the ROLLBACK of group `broken` fails. What is printed
        as safe is worth this: an execute run leaves each pair unique if and only if the limit covers
        all groups; a dry run leaves the tables as they are. */
    method Dedup(execute: bool, limit: nat, faults: seq<Fault>, broken: nat)
      returns (finished: bool, s: Stats, safe: bool, ghost n: nat)
      requires Sound(tables)
      modifies this
      ensures var gs := Selected(old(tables.orders), limit);
        && AreGroups(gs, old(tables.orders)) && n <= |gs|
        && tables == (if execute then Merged(old(tables), Committed(gs, n, faults)) else old(tables))
        && (finished ==> n == |gs| && s == if execute then Reported(old(tables), gs, n, faults) else NO_STATS)
        && (!finished ==> execute && n == broken + 1 && FaultAt(faults, broken) != Works)
        && (safe <==> finished && s.errors == 0)
      ensures safe && execute ==>
        (UniquePairs(tables.orders) <==> |GroupsOf(old(tables.orders), Unique(Pairs(old(tables.orders))))| <= limit)
      ensures !execute ==> safe
    {
      var groups := Selected(tables.orders, limit);
      SelectedAreGroups(tables.orders, limit);
      ghost var found := tables;
      finished, s, n := MergeGroups(groups, execute, faults, broken);
      safe := finished && s.errors == 0;
      if safe && execute { SafeExactly(found, limit, faults); }
    }

    /** The loop over the groups, which in a dry run only lists them. */
    method MergeGroups(groups: seq<Group>, execute: bool, faults: seq<Fault>, broken: nat)
      returns (finished: bool, s: Stats, ghost n: nat)
      requires AreGroups(groups, tables.orders)
      modifies this
      ensures n <= |groups|
      ensures tables == (if execute then Merged(old(tables), Committed(groups, n, faults)) else old(tables))
      ensures finished ==> n == |groups| && s == if execute then Reported(old(tables), groups, n, faults) else NO_STATS
      ensures !finished ==> execute && n == broken + 1 && FaultAt(faults, broken) != Works
    {
      ghost var found := tables;
      finished, s, n := true, NO_STATS, 0;
      MergedNothing(found);
      for k := 0 to |groups|
        invariant n == k && finished
        invariant tables == (if execute then Merged(found, Committed(groups, k, faults)) else found)
        invariant s == (if execute then Reported(found, groups, k, faults) else NO_STATS)
      {
        n := k + 1;
        if execute {
          finished, s := NextInTurn(groups, k, faults, broken, s, found);
          if !finished { return; }
        }
      }
    }

    method NextInTurn(groups: seq<Group>, k: nat, faults: seq<Fault>, broken: nat, before: Stats, ghost found: Tables)
      returns (ok: bool, s: Stats)
      requires AreGroups(groups, found.orders) && k < |groups|
      requires tables == Merged(found, Committed(groups, k, faults)) && before == Reported(found, groups, k, faults)
      modifies this
      ensures tables == Merged(found, Committed(groups, k + 1, faults))
      ensures ok ==> s == Reported(found, groups, k + 1, faults)
      ensures !ok ==> k == broken && FaultAt(faults, broken) != Works
    {
      Advance(found, groups, k, faults, tables);
      ok, s := MergeGroup(groups[k], FaultAt(faults, k), k == broken, before);
    }
  }

  lemma {:induction false} MergedNothing(t: Tables)
    ensures Merged(t, map[]) == t
  {
    KeptNothing(t.orders);
    assert Moved(t.lines, map[]) == t.lines && Moved(t.events, map[]) == t.events;
  }

  lemma {:induction false} KeptNothing(orders: seq<Order>)
    ensures Kept(orders, map[]) == orders
  {
    if orders != [] { KeptNothing(orders[1..]); }
  }

  /** One more group, seen from the tables as found. */
  lemma {:induction false} NextGroup(t: Tables, gs: seq<Group>, n: nat, faults: seq<Fault>)
    requires AreGroups(gs, t.orders) && n < |gs|
    ensures var m, g := Committed(gs, n, faults), MergesOf(gs[n]);
      && Merged(Merged(t, m), g) == Merged(t, m + g) && m + map[] == m
      && CountIn(Moved(t.lines, m), g) == CountIn(t.lines, g)
      && CountIn(Moved(t.events, m), g) == CountIn(t.events, g)
  {
    var m, g := Committed(gs, n, faults), MergesOf(gs[n]);
    NextGroupApart(gs, n, faults, t.orders);
    MergedTwice(t, m, g);
    CountInMoved(t.lines, m, g);
    CountInMoved(t.events, m, g);
  }

  lemma {:induction false} NextGroupRows(orders: seq<Order>, gs: seq<Group>, n: nat, faults: seq<Fault>)
    requires AreGroups(gs, orders) && n < |gs|
    ensures var left := Kept(orders, Committed(gs, n, faults));
            |left| - |Kept(left, MergesOf(gs[n]))| == |gs[n].rows| - 1 > 0
  {
    var m := Committed(gs, n, faults);
    KeptMembers(orders, m);
    forall o | o in gs[n].rows ensures o in Kept(orders, m) {
      RowStillThere(gs, n, faults, orders, o);
    }
    KeptLength(Kept(orders, m), gs[n], orders);
  }

  lemma {:induction false} RowStillThere(gs: seq<Group>, n: nat, faults: seq<Fault>, orders: seq<Order>, o: Order)
    requires AreGroups(gs, orders) && n < |gs| && o in gs[n].rows
    ensures o.id !in Committed(gs, n, faults)
  {
    var b :| 0 <= b < |gs[n].rows| && gs[n].rows[b] == o;
    if o.id in Committed(gs, n, faults) {
      var k := WhoCommitted(gs, n, faults, orders, o.id);
      var a :| 1 <= a < |gs[k].rows| && gs[k].rows[a].id == o.id;
      GroupsApart(gs, orders, k, n, a, b);
    }
  }

  /** One more group, counted. */
  lemma {:induction false} Advance(t: Tables, gs: seq<Group>, n: nat, faults: seq<Fault>, now: Tables)
    requires AreGroups(gs, t.orders) && n < |gs|
    requires now == Merged(t, Committed(gs, n, faults))
    ensures
      var f, g := FaultAt(faults, n), MergesOf(gs[n]);
      var s, s' := Reported(t, gs, n, faults), Reported(t, gs, n + 1, faults);
      && Merged(t, Committed(gs, n + 1, faults)) == (if f.Lands() then Merged(now, g) else now)
      && s'.deleted == s.deleted + (if f.CountsDeleted() then |now.orders| - |Kept(now.orders, g)| else 0)
      && s'.lines == s.lines + (if f.CountsLines() then CountIn(now.lines, g) else 0)
      && s'.events == s.events + (if f.CountsEvents() then CountIn(now.events, g) else 0)
      && s'.errors == s.errors + (if f.Works? then 0 else 1)
  {
    NextGroup(t, gs, n, faults);
    NextGroupRows(t.orders, gs, n, faults);
  }

  // ---------------------------------------------------------- main results

  /** Whatever fails, and after however many groups the run ends: the foreign keys hold, and the
      contents under each pair are the same. */
  lemma {:induction false} NothingIsLost(t: Tables, limit: nat, n: nat, faults: seq<Fault>, p: Pair)
    requires Sound(t) && n <= |Selected(t.orders, limit)|
    ensures var gs := Selected(t.orders, limit);
      && AreGroups(gs, t.orders)
      && var t' := Merged(t, Committed(gs, n, faults));
         && Sound(t')
         && Contents(t'.lines, t'.orders, p) == Contents(t.lines, t.orders, p)
         && Contents(t'.events, t'.orders, p) == Contents(t.events, t.orders, p)
  {
    var gs := Selected(t.orders, limit);
    SelectedAreGroups(t.orders, limit);
    var m := Committed(gs, n, faults);
    CommittedCoherent(gs, n, faults, t.orders);
    MergedSound(t, m);
    ContentsPreserved(t.lines, t.orders, m, p);
    ContentsPreserved(t.events, t.orders, m, p);
  }

  /** Group `k` is not among the first `n`, or its transaction does not land. */
  predicate LeftAlone(k: nat, n: nat, faults: seq<Fault>) { k >= n || !FaultAt(faults, k).Lands() }

  /** Such a group is left as it was: its orders are all there, and so are the rows that point at
      them. */
  lemma {:induction false} FailedGroupUntouched(
    t: Tables, gs: seq<Group>, n: nat, faults: seq<Fault>, k: nat, i: nat)
    requires Sound(t) && AreGroups(gs, t.orders) && n <= |gs| && k < |gs| && i < |gs[k].rows| && LeftAlone(k, n, faults)
    ensures var t', o := Merged(t, Committed(gs, n, faults)), gs[k].rows[i];
      && o in t'.orders
      && (forall j :: 0 <= j < |t.lines| ==> (t'.lines[j].order == o.id <==> t.lines[j].order == o.id))
      && (forall j :: 0 <= j < |t.events| ==> (t'.events[j].order == o.id <==> t.events[j].order == o.id))
  {
    var m, id := Committed(gs, n, faults), gs[k].rows[i].id;
    KeptMembers(t.orders, m);
    assert gs[k].rows[i] in gs[k].rows;
    FailedIdApart(gs, n, faults, t.orders, k, i);
  }

  lemma {:induction false} FailedIdApart(
    gs: seq<Group>, n: nat, faults: seq<Fault>, orders: seq<Order>, k: nat, i: nat)
    requires AreGroups(gs, orders) && n <= |gs| && k < |gs| && i < |gs[k].rows| && LeftAlone(k, n, faults)
    ensures var m := Committed(gs, n, faults);
            gs[k].rows[i].id !in m && forall x :: x in m ==> m[x] != gs[k].rows[i].id
  {
    var m, id := Committed(gs, n, faults), gs[k].rows[i].id;
    if id in m {
      var j := WhoCommitted(gs, n, faults, orders, id);
      var a :| 1 <= a < |gs[j].rows| && gs[j].rows[a].id == id;
      GroupsApart(gs, orders, j, k, a, i);
    }
    forall x | x in m ensures m[x] != id {
      var j := WhoCommitted(gs, n, faults, orders, x);
      if gs[j].rows[0].id == id { GroupsApart(gs, orders, j, k, 0, i); }
    }
  }

  /** When no transaction fails and the limit covers every group, each pair is left unique. */
  lemma {:induction false} PairsBecomeUnique(t: Tables, limit: nat, faults: seq<Fault>)
    requires Sound(t)
    requires |GroupsOf(t.orders, Unique(Pairs(t.orders)))| <= limit
    requires forall k: nat :: k < |Selected(t.orders, limit)| ==> FaultAt(faults, k).Lands()
    ensures var gs := Selected(t.orders, limit);
            AreGroups(gs, t.orders) && UniquePairs(Merged(t, Committed(gs, |gs|, faults)).orders)
  {
    var gs := Selected(t.orders, limit);
    SelectedAreGroups(t.orders, limit);
    var m := Committed(gs, |gs|, faults);
    KeptMembers(t.orders, m);
    var left := Kept(t.orders, m);
    forall o, q | o in left && q in left && o.number.Some? && PairOf(o) == PairOf(q) ensures o == q {
      if o.id == q.id {
        SameId(t.orders, o, q);
      } else {
        var k := GroupOfPair(t.orders, limit, o, q);
        SurvivorIsFirst(t.orders, gs, faults, k, o);
        SurvivorIsFirst(t.orders, gs, faults, k, q);
      }
    }
  }

  lemma {:induction false} GroupOfPair(orders: seq<Order>, limit: nat, o: Order, q: Order) returns (k: nat)
    requires DistinctIds(orders) && |GroupsOf(orders, Unique(Pairs(orders)))| <= limit
    requires o in orders && q in orders && o.id != q.id && o.number.Some? && PairOf(o) == PairOf(q)
    ensures k < |Selected(orders, limit)| && Selected(orders, limit)[k].pair == PairOf(o)
  {
    DuplicatesSelected(orders, limit, o, q);
    var g :| g in Selected(orders, limit) && g.pair == PairOf(o);
    k :| 0 <= k < |Selected(orders, limit)| && Selected(orders, limit)[k] == g;
  }

  lemma {:induction false} SurvivorIsFirst(orders: seq<Order>, gs: seq<Group>, faults: seq<Fault>, k: nat, o: Order)
    requires AreGroups(gs, orders) && k < |gs| && FaultAt(faults, k).Lands()
    requires o in orders && PairOf(o) == gs[k].pair && o.id !in Committed(gs, |gs|, faults)
    ensures o == gs[k].rows[0]
  {
    assert o in gs[k].rows;
    var i :| 0 <= i < |gs[k].rows| && gs[k].rows[i] == o;
    if i >= 1 { LaterRowGoes(gs, |gs|, faults, orders, o.id, k); }
  }

  lemma {:induction false} NoErrors(t: Tables, gs: seq<Group>, n: nat, faults: seq<Fault>)
    requires n <= |gs| && Reported(t, gs, n, faults).errors == 0
    ensures forall k :: 0 <= k < n ==> FaultAt(faults, k).Works?
  {
    if n > 0 { NoErrors(t, gs, n - 1, faults); }
  }

  /** What a run without errors is worth: each pair is unique after it if and only if the limit covers
      all groups. */
  lemma {:induction false} SafeExactly(t: Tables, limit: nat, faults: seq<Fault>)
    requires Sound(t)
    requires var gs := Selected(t.orders, limit); Reported(t, gs, |gs|, faults).errors == 0
    ensures var gs := Selected(t.orders, limit);
            UniquePairs(Merged(t, Committed(gs, |gs|, faults)).orders) <==>
              |GroupsOf(t.orders, Unique(Pairs(t.orders)))| <= limit
  {
    var gs := Selected(t.orders, limit);
    NoErrors(t, gs, |gs|, faults);
    if |GroupsOf(t.orders, Unique(Pairs(t.orders)))| <= limit {
      PairsBecomeUnique(t, limit, faults);
    } else {
      GroupBeyondLimit(t, limit, faults);
    }
  }

  lemma {:induction false} GroupBeyondLimit(t: Tables, limit: nat, faults: seq<Fault>)
    requires Sound(t) && |GroupsOf(t.orders, Unique(Pairs(t.orders)))| > limit
    ensures var gs := Selected(t.orders, limit); !UniquePairs(Merged(t, Committed(gs, |gs|, faults)).orders)
  {
    var count := |GroupsOf(t.orders, Unique(Pairs(t.orders)))|;
    var gs, all := Selected(t.orders, limit), Selected(t.orders, count);
    SortMultiset(GroupLe, GroupsOf(t.orders, Unique(Pairs(t.orders))));
    assert gs == all[..limit] && |all| == count;
    SelectedAreGroups(t.orders, count);
    SameCommitted(all, limit, limit, faults);
    var m, g := Committed(all, limit, faults), all[limit];
    KeptMembers(t.orders, m);
    assert g.rows[0] in g.rows && g.rows[1] in g.rows;
    RowStillThere(all, limit, faults, t.orders, g.rows[0]);
    RowStillThere(all, limit, faults, t.orders, g.rows[1]);
    assert g.rows[0].id != g.rows[1].id;
  }

  lemma {:induction false} SameCommitted(gs: seq<Group>, limit: nat, n: nat, faults: seq<Fault>)
    requires n <= limit <= |gs|
    ensures Committed(gs[..limit], n, faults) == Committed(gs, n, faults)
  {
    if n > 0 { SameCommitted(gs, limit, n - 1, faults); }
  }

  /** A dry run leaves the tables alone, so afterwards each pair is unique if and only if there was no
      group to begin with, whatever it prints. */
  lemma {:induction false} DryRunExactly(t: Tables)
    requires Sound(t)
    ensures UniquePairs(t.orders) <==> GroupsOf(t.orders, Unique(Pairs(t.orders))) == []
  {
    assert Selected(t.orders, 0) == [];
    MergedNothing(t);
    SafeExactly(t, 0, []);
  }

  /** Deletions that were counted and then rolled back. */
  function PhantomDeletes(gs: seq<Group>, n: nat, faults: seq<Fault>): int
    requires n <= |gs|
  {
    if n == 0 then 0
    else PhantomDeletes(gs, n - 1, faults) + (if FaultAt(faults, n - 1).FailsCommit? then |gs[n - 1].rows| - 1 else 0)
  }

  lemma {:induction false} NoPhantomDeletes(gs: seq<Group>, n: nat, faults: seq<Fault>)
    requires n <= |gs| && forall k :: 0 <= k < |gs| ==> |gs[k].rows| > 1
    ensures PhantomDeletes(gs, n, faults) >= 0
    ensures PhantomDeletes(gs, n, faults) == 0 <==> forall k :: 0 <= k < n ==> !FaultAt(faults, k).FailsCommit?
  {
    if n > 0 { NoPhantomDeletes(gs, n - 1, faults); }
  }

  lemma {:induction false} DeletedIsInflated(t: Tables, gs: seq<Group>, n: nat, faults: seq<Fault>)
    requires n <= |gs| && forall k :: 0 <= k < n ==> OrdersStep(t, gs, k, faults)
    ensures Reported(t, gs, n, faults).deleted
         == |t.orders| - |Kept(t.orders, Committed(gs, n, faults))| + PhantomDeletes(gs, n, faults)
  {
    if n == 0 {
      KeptNothing(t.orders);
    } else {
      DeletedIsInflated(t, gs, n - 1, faults);
      assert OrdersStep(t, gs, n - 1, faults);
    }
  }

  /** The counters are honest about deletions if and only if no group fails at its COMMIT. */
  lemma {:induction false} DeletedIsExact(t: Tables, gs: seq<Group>, n: nat, faults: seq<Fault>)
    requires AreGroups(gs, t.orders) && n <= |gs|
    ensures Reported(t, gs, n, faults).deleted == |t.orders| - |Merged(t, Committed(gs, n, faults)).orders| <==>
              forall k :: 0 <= k < n ==> !FaultAt(faults, k).FailsCommit?
  {
    forall k | 0 <= k < n ensures OrdersStep(t, gs, k, faults) {
      OrdersStepHolds(t, gs, k, faults);
    }
    DeletedIsInflated(t, gs, n, faults);
    NoPhantomDeletes(gs, n, faults);
  }

  ghost predicate OrdersStep(t: Tables, gs: seq<Group>, n: nat, faults: seq<Fault>)
    requires n < |gs|
  {
    |Kept(t.orders, Committed(gs, n + 1, faults))|
    == |Kept(t.orders, Committed(gs, n, faults))| - (if FaultAt(faults, n).Lands() then |gs[n].rows| - 1 else 0)
  }

  lemma {:induction false} OrdersStepHolds(t: Tables, gs: seq<Group>, n: nat, faults: seq<Fault>)
    requires AreGroups(gs, t.orders) && n < |gs|
    ensures OrdersStep(t, gs, n, faults)
  {
    Advance(t, gs, n, faults, Merged(t, Committed(gs, n, faults)));
    NextGroupRows(t.orders, gs, n, faults);
  }

  /** What a counter of reassigned rows shows, and how much of that was rolled back. `counts` tells
      after which faults it has moved. */
  function Counted(cs: seq<Child>, counts: Fault -> bool, gs: seq<Group>, n: nat, faults: seq<Fault>): nat
    requires n <= |gs|
  {
    if n == 0 then 0
    else
      Counted(cs, counts, gs, n - 1, faults)
      + (if counts(FaultAt(faults, n - 1)) then CountIn(cs, MergesOf(gs[n - 1])) else 0)
  }

  function ForLines(): Fault -> bool { (f: Fault) => f.CountsLines() }

  function ForEvents(): Fault -> bool { (f: Fault) => f.CountsEvents() }

  lemma {:induction false} ReportedIsCounted(t: Tables, gs: seq<Group>, n: nat, faults: seq<Fault>)
    requires n <= |gs|
    ensures Reported(t, gs, n, faults).lines == Counted(t.lines, ForLines(), gs, n, faults)
    ensures Reported(t, gs, n, faults).events == Counted(t.events, ForEvents(), gs, n, faults)
  {
    if n > 0 { ReportedIsCounted(t, gs, n - 1, faults); }
  }

  /** Group `k` has no rows to move, or does not fail after the counter moved. */
  ghost predicate NotRolledBack(cs: seq<Child>, counts: Fault -> bool, g: Group, fault: Fault) {
    counts(fault) && !fault.Lands() ==> CountIn(cs, MergesOf(g)) == 0
  }

  ghost predicate NothingRolledBack(cs: seq<Child>, counts: Fault -> bool, gs: seq<Group>, n: nat, faults: seq<Fault>)
    requires n <= |gs|
  {
    forall k :: 0 <= k < n ==> NotRolledBack(cs, counts, gs[k], FaultAt(faults, k))
  }

  ghost predicate MovesStep(cs: seq<Child>, gs: seq<Group>, n: nat, faults: seq<Fault>)
    requires n < |gs|
  {
    CountIn(cs, Committed(gs, n + 1, faults))
    == CountIn(cs, Committed(gs, n, faults)) + (if FaultAt(faults, n).Lands() then CountIn(cs, MergesOf(gs[n])) else 0)
  }

  lemma {:induction false} MovesStepHolds(
    cs: seq<Child>, gs: seq<Group>, n: nat, faults: seq<Fault>, orders: seq<Order>)
    requires AreGroups(gs, orders) && n < |gs|
    ensures MovesStep(cs, gs, n, faults)
  {
    var m, g := Committed(gs, n, faults), MergesOf(gs[n]);
    NextGroupApart(gs, n, faults, orders);
    CountInMoved(cs, m, g);
    assert Committed(gs, n + 1, faults) == if FaultAt(faults, n).Lands() then m + g else m;
  }

  lemma {:induction false} CountedSteps(
    cs: seq<Child>, counts: Fault -> bool, gs: seq<Group>, n: nat, faults: seq<Fault>)
    requires n <= |gs| && forall f: Fault :: f.Lands() ==> counts(f)
    requires forall k :: 0 <= k < n ==> MovesStep(cs, gs, k, faults)
    ensures Counted(cs, counts, gs, n, faults) >= CountIn(cs, Committed(gs, n, faults))
    ensures Counted(cs, counts, gs, n, faults) == CountIn(cs, Committed(gs, n, faults)) <==>
              NothingRolledBack(cs, counts, gs, n, faults)
  {
    if n == 0 {
      CountNone(cs);
    } else {
      CountedSteps(cs, counts, gs, n - 1, faults);
      assert MovesStep(cs, gs, n - 1, faults);
    }
  }

  lemma {:induction false} CountedExactly(
    cs: seq<Child>, counts: Fault -> bool, gs: seq<Group>, n: nat, faults: seq<Fault>, orders: seq<Order>)
    requires AreGroups(gs, orders) && n <= |gs| && forall f: Fault :: f.Lands() ==> counts(f)
    ensures Counted(cs, counts, gs, n, faults) == CountIn(cs, Committed(gs, n, faults)) <==>
              NothingRolledBack(cs, counts, gs, n, faults)
  {
    forall k | 0 <= k < n ensures MovesStep(cs, gs, k, faults) {
      MovesStepHolds(cs, gs, k, faults, orders);
    }
    CountedSteps(cs, counts, gs, n, faults);
  }

  /** And about reassigned lines if and only if no group with lines to move fails after moving them. */
  lemma {:induction false} LinesAreExact(t: Tables, gs: seq<Group>, n: nat, faults: seq<Fault>)
    requires AreGroups(gs, t.orders) && n <= |gs|
    ensures Reported(t, gs, n, faults).lines == CountIn(t.lines, Committed(gs, n, faults)) <==>
              forall k :: 0 <= k < n && FaultAt(faults, k) in {FailsEvents, FailsDelete, FailsCommit}
                ==> CountIn(t.lines, MergesOf(gs[k])) == 0
  {
    ReportedIsCounted(t, gs, n, faults);
    CountedExactly(t.lines, ForLines(), gs, n, faults, t.orders);
  }

  /** About events: if and only if no group with events to move fails after moving those. */
  lemma {:induction false} EventsAreExact(t: Tables, gs: seq<Group>, n: nat, faults: seq<Fault>)
    requires AreGroups(gs, t.orders) && n <= |gs|
    ensures Reported(t, gs, n, faults).events == CountIn(t.events, Committed(gs, n, faults)) <==>
              forall k :: 0 <= k < n && FaultAt(faults, k) in {FailsDelete, FailsCommit}
                ==> CountIn(t.events, MergesOf(gs[k])) == 0
  {
    ReportedIsCounted(t, gs, n, faults);
    CountedExactly(t.events, ForEvents(), gs, n, faults, t.orders);
  }

  lemma {:induction false} CountNone(cs: seq<Child>)
    ensures CountIn(cs, map[]) == 0
  {
    if cs != [] { CountNone(cs[1..]); }
  }
}
