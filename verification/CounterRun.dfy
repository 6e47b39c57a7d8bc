/** The counter repair as a program: one transaction, audit rows in batches, one bulk update. */
module CounterRun {
  import opened Prelude
  import opened Faults
  import opened StableSort
  import opened CounterRepair

  const AUDIT_INSERT_BATCH_SIZE: int := 500

  function Flatten<T>(batches: seq<seq<T>>): seq<T> {
    if batches == [] then [] else Flatten(batches[..|batches| - 1]) + batches[|batches| - 1]
  }

  /** `None` when the batch size is not positive. Otherwise the batches, joined, are the values; all
      are full except perhaps the last, and none is empty. */
  method ChunkForAuditInsert<T>(values: seq<T>, batchSize: int) returns (batches: Option<seq<seq<T>>>)
    ensures batches.None? <==> batchSize <= 0
    ensures batches.Some? ==> Flatten(batches.value) == values
    ensures batches.Some? ==> forall k :: 0 <= k < |batches.value| ==> 0 < |batches.value[k]| <= batchSize
    ensures batches.Some? ==> forall k :: 0 <= k < |batches.value| - 1 ==> |batches.value[k]| == batchSize
    ensures batches.Some? ==>
      && |values| <= |batches.value| * batchSize
      && (values != [] ==> (|batches.value| - 1) * batchSize < |values|)
  {
    if batchSize <= 0 { return None; }
    var out: seq<seq<T>> := [];
    var start := 0;
    while start < |values|
      invariant 0 <= start == |out| * batchSize
      invariant |out| > 0 ==> (|out| - 1) * batchSize < |values|
      invariant Flatten(out) == values[..if start < |values| then start else |values|]
      invariant forall k :: 0 <= k < |out| ==> 0 < |out[k]| <= batchSize
      invariant forall k :: 0 <= k < |out| && (k < |out| - 1 || start <= |values|) ==> |out[k]| == batchSize
    {
      var end := if start + batchSize < |values| then start + batchSize else |values|;
      out := out + [values[start..end]];
      assert out[..|out| - 1] + [values[start..end]] == out;
      assert values[..end] == values[..start] + values[start..end];
      start := start + batchSize;
    }
    batches := Some(out);
  }

  predicate Int32(x: int) { -0x8000_0000 <= x <= 0x7fff_ffff }

  /** Every `::int` cast, and every integer difference of the candidate query, is in range. */
  predicate SumsFit(items: seq<Item>) {
    forall k :: 0 <= k < |items| && items[k].line.Some? ==> Int32(Actual(items, items[k].line.value))
  }

  predicate Computable(t: Tables, a: Args) {
    && SumsFit(t.items)
    && (forall c :: c in Drifting(t.lines, t.items, a) ==> Int32(Drift(c)) && Int32(Abs(Drift(c))))
  }

  /** The sum of every line is a 32-bit integer. */
  lemma {:induction false} SumsFitExactly(items: seq<Item>)
    ensures SumsFit(items) <==> forall line :: FitsFor(items, line)
  {
    if SumsFit(items) {
      forall line ensures FitsFor(items, line) {
        if HasItem(items, line) {
          var k :| 0 <= k < |items| && items[k].line == Some(line);
          assert Int32(Actual(items, items[k].line.value));
        } else {
          NoItemNoSum(items, line);
        }
      }
    }
    if forall line :: FitsFor(items, line) {
      forall k | 0 <= k < |items| && items[k].line.Some? ensures Int32(Actual(items, items[k].line.value)) {
        assert FitsFor(items, items[k].line.value);
      }
    }
  }

  ghost predicate FitsFor(items: seq<Item>, line: int) { -2147483648 <= Actual(items, line) <= 2147483647 }

  ghost predicate HasItem(items: seq<Item>, line: int) { exists k :: 0 <= k < |items| && items[k].line == Some(line) }

  lemma {:induction false} NoItemNoSum(items: seq<Item>, line: int)
    requires !HasItem(items, line)
    ensures Actual(items, line) == 0
  {
    if items != [] {
      assert items[0].line != Some(line);
      forall k | 0 <= k < |items[1..]| ensures items[1..][k].line != Some(line) {
        assert items[k + 1].line != Some(line);
      }
      NoItemNoSum(items[1..], line);
    }
  }

  /** The candidate query can be computed when all sums fit, and so do the drifts of the lines it
      selects, with either sign. */
  lemma {:induction false} ComputableExactly(t: Tables, a: Args)
    ensures Computable(t, a) <==>
      && (forall line :: FitsFor(t.items, line))
      && forall l :: l in t.lines && Eligible(l, Actual(t.items, l.id), a) ==>
           -2147483647 <= Actual(t.items, l.id) - (if l.recorded.Some? then l.recorded.value else 0) <= 2147483647
  {
    SumsFitExactly(t.items);
    DriftingFacts(t.lines, t.items, a);
    forall l | l in t.lines && Eligible(l, Actual(t.items, l.id), a)
      ensures Candidate(l, Actual(t.items, l.id)) in Drifting(t.lines, t.items, a)
    {
    }
  }

  datatype Outcome =
    | Rejected(error: FlagError) | Planned(candidates: nat) | NothingToDo
    | Failed | RolledBack | Done(lines: nat)

  class Database {
    const client: Client
    var tables: Tables
    var audit: seq<AuditRow>

    constructor (t: Tables, trail: seq<AuditRow>, c: Client)
      ensures tables == t && audit == trail && client == c
    {
      tables, audit, client := t, trail, c;
    }

    /** Committed: every selected line repaired to the sum of its items, and one audit row for each.
        Not committed: both tables as the other writers left them. */
    ghost predicate Settled(
      found: Tables, trail: seq<AuditRow>, sel: seq<Candidate>, left: Tables, now: int, committed: bool)
      reads this
    {
      if committed then
        && tables == Tables(Repaired(left.lines, sel, now), left.items)
        && audit == trail + AuditRows(sel, now)
        && forall c :: c in sel ==> c.actual == Actual(left.items, c.before.id)
      else
        audit == trail && (tables == found || tables == left)
    }

    /** This many statements insert that many rows, 500 at a time. */
    static ghost predicate InBatches(statements: int, rows: nat) {
      rows <= statements * 500 && (rows > 0 ==> (statements - 1) * 500 < rows) && (rows == 0 ==> statements == 0)
    }

    /** Inserts in batches. `staged` is the trail as the open transaction sees it. */
    method InsertAuditRows(sel: seq<Candidate>, now: int) returns (ok: bool, staged: seq<AuditRow>)
      modifies client
      ensures ok ==> staged == audit + AuditRows(sel, now) && InBatches(old(client.callsLeft) - client.callsLeft, |sel|)
      ensures !ok ==> client.callsLeft == 0
    {
      staged := audit;
      var inserted := 0;
      var batches := ChunkForAuditInsert(sel, AUDIT_INSERT_BATCH_SIZE);
      for k := 0 to |batches.value|
        invariant staged == audit + AuditRows(Flatten(batches.value[..k]), now)
        invariant inserted == |Flatten(batches.value[..k])|
        invariant client.callsLeft == old(client.callsLeft) - k
      {
        var batch := batches.value[k];
        assert batches.value[..k + 1][..k] == batches.value[..k];
        var lands;
        ok, lands := client.Call();
        if !ok { return; }
        staged := staged + AuditRows(batch, now);
        inserted := inserted + |batch|;
      }
      assert batches.value[..|batches.value|] == batches.value;
      ok := inserted == |sel|;
    }

    /** The whole operation: all or nothing, and why it was nothing. */
    method RefreshMaterializedCounters(a: Args, now: int, others: seq<Edit>)
      returns (outcome: Outcome, ghost committed: bool)
      requires DistinctLines(tables.lines) && a.drift
      modifies this, client
      ensures var sel := Selected(old(tables.lines), old(tables.items), a);
              var left := WriteAll(old(tables), others, LineIds(sel));
        && Settled(old(tables), old(audit), sel, left, now, committed)
        && (committed ==> Admitted(a))
        && (outcome.Done? ==> committed && outcome.lines == |sel|)
        && (outcome.Planned? ==> !a.execute && outcome.candidates == |sel| && tables == old(tables))
        && (outcome == NothingToDo ==> sel == [] && tables == old(tables))
        && (outcome == RolledBack ==> exists c :: c in sel && Actual(left.items, c.before.id) != c.actual)
        && (outcome == Failed ==> client.callsLeft == 0 || !Computable(old(tables), a) || !SumsFit(left.items))
        && (committed ==> Computable(old(tables), a) && SumsFit(left.items))
        && (outcome in {Planned(|sel|), NothingToDo} ==> Computable(old(tables), a))
        && (outcome.Done? ==> InBatches(old(client.callsLeft) - client.callsLeft - 5, |sel|))
        && (outcome.Planned? ==> client.callsLeft == old(client.callsLeft) - 1)
        && (outcome == NothingToDo ==> client.callsLeft == old(client.callsLeft) - 3)
        && (outcome.Rejected? <==> FlagErrorOf(a).Some?)
        && (outcome.Rejected? ==> outcome.error == FlagErrorOf(a).value)
    {
      committed := false;
      if FlagErrorOf(a).Some? { return Rejected(FlagErrorOf(a).value), false; }
      var ok, lands;
      if a.execute {
        ok, lands := client.Call();              // BEGIN
        if !ok { return Failed, false; }
      }
      ok, lands := client.Call();                // candidates, FOR UPDATE when executing
      if !ok || !Computable(tables, a) { return Failed, false; }
      var sel := Selected(tables.lines, tables.items, a);
      if !a.execute { return Planned(|sel|), false; }
      if sel == [] {
        ok, lands := client.Call();              // COMMIT
        return if ok then NothingToDo else Failed, false;
      }
      outcome, committed := Repair(sel, a, now, others);
    }

    method Repair(sel: seq<Candidate>, a: Args, now: int, others: seq<Edit>)
      returns (outcome: Outcome, ghost committed: bool)
      requires DistinctLines(tables.lines) && Admitted(a)
      requires sel == Selected(tables.lines, tables.items, a)
      modifies this, client
      ensures var left := WriteAll(old(tables), others, LineIds(sel));
        && Settled(old(tables), old(audit), sel, left, now, committed)
        && (outcome.Done? ==> committed && outcome.lines == |sel|)
        && (outcome == RolledBack ==> exists c :: c in sel && Actual(left.items, c.before.id) != c.actual)
        && (outcome == Failed ==> client.callsLeft == 0 || !SumsFit(left.items))
        && (committed ==> SumsFit(left.items))
        && (outcome.Done? ==> InBatches(old(client.callsLeft) - client.callsLeft - 3, |sel|))
        && outcome in {Done(|sel|), RolledBack, Failed}
    {
      committed := false;
      ghost var found := tables;
      var ok, lands := client.Call();            // SELECT NOW()
      if !ok { return Failed, false; }
      var staged;
      ok, staged := InsertAuditRows(sel, now);
      if !ok { return Failed, false; }
      tables := WriteAll(tables, others, LineIds(sel));
      ok, lands := client.Call();                // UPDATE
      if !ok || !SumsFit(tables.items) { return Failed, false; }
      var repaired := UpdatedLines(tables.lines, sel, tables.items, a.direction, now);
      var updated := UpdateCount(sel, tables.lines, tables.items, a.direction);
      UpdateHits(found, others, a, now);
      if updated != |sel| { return RolledBack, false; }
      ok, lands := client.Call();                // COMMIT
      if lands {
        tables, audit := tables.(lines := repaired), staged;
        committed := true;
      }
      outcome := if ok then Done(|sel|) else Failed;
    }
  }

  lemma {:induction false} UpdateHits(t: Tables, others: seq<Edit>, a: Args, now: int)
    requires DistinctLines(t.lines) && Admitted(a)
    ensures var sel := Selected(t.lines, t.items, a);
            var left := WriteAll(t, others, LineIds(sel));
            if UpdateCount(sel, left.lines, left.items, a.direction) == |sel|
            then
              && UpdatedLines(left.lines, sel, left.items, a.direction, now) == Repaired(left.lines, sel, now)
              && forall c :: c in sel ==> c.actual == Actual(left.items, c.before.id)
            else exists c :: c in sel && Actual(left.items, c.before.id) != c.actual
  {
    var sel := Selected(t.lines, t.items, a);
    var left := WriteAll(t, others, LineIds(sel));
    SelectedFacts(t.lines, t.items, a);
    MatchesExactly(t, others, a);
    SelectedIsLocked(t, others, a);
    UpdateCountIsAll(sel, left.lines, left.items, a.direction);
    if UpdateCount(sel, left.lines, left.items, a.direction) == |sel| {
      UpdateIsRepair(left.lines, sel, left.items, a.direction, now);
    }
  }
}
