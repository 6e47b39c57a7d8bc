/** The rebuild as a program: guards, statements that may fail, one transaction. */
module ObservationRebuild {
  import opened Prelude
  import opened Faults
  import opened ObservationSwap

  datatype Flags = Flags(execute: bool, keepLegacy: bool, force: bool)

  datatype Outcome =
    | EmptyKeepSet | AlreadyClean | TooManyKept | DryRun   // decided on the survey alone
    | CallFailed | WaitingForLock | LegacyInTheWay | VerificationFailed
    | Rebuilt

  /** The guards, in order; `None` lets the run go on to change the table. */
  function Verdict(s: Survey, flags: Flags): Option<Outcome> {
    if s.keep == 0 then Some(EmptyKeepSet)
    else if s.total - s.keep == 0 then Some(AlreadyClean)
    else if 4 * s.keep > s.total && !flags.force then Some(TooManyKept)
    else if !flags.execute then Some(DryRun)
    else None
  }

  /** How many rows the predicate keeps. */
  function KeepCount(rows: seq<Row>): nat { |Filter(Keep, rows)| }

  /** The first guards: there is something to keep and something to discard, and what is kept is at
      most a quarter of the table, unless forced. */
  predicate WorthRebuilding(rows: seq<Row>, force: bool) {
    && 0 < KeepCount(rows) < |rows|
    && (force || 4 * KeepCount(rows) <= |rows|)
  }

  /** What the writers do while the script is between its statements. */
  datatype Schedule = Schedule(beforeCopy: seq<Write>, beforeLock: seq<Write>, afterSwap: seq<Write>)

  function AtCopy(log: Log, s: Schedule): Log { ApplyAll(log, s.beforeCopy) }

  function AtLock(log: Log, s: Schedule): Log { ApplyAll(AtCopy(log, s), s.beforeLock) }

  function AtSwap(log: Log, s: Schedule): Log {
    Swapped(MaxId(log.rows), AtCopy(log, s).rows, AtLock(log, s).rows)
  }

  /** The live table is still the old one, with whatever the writers did to it. */
  ghost predicate OnlyWriters(found: Log, log: Log, s: Schedule) {
    log == found || log == AtCopy(found, s) || log == AtLock(found, s)
  }

  /** The three tables. */
  class Database {
    const client: Client
    var log: Log
    var clone: Option<seq<Row>>
    var legacy: Option<seq<Row>>

    constructor (live: Log, leftover: Option<seq<Row>>, c: Client)
      ensures log == live && clone == None && legacy == leftover && client == c
    {
      log, clone, legacy, client := live, None, leftover, c;
    }

    /** Statements 1 to 3: an empty clone, the copy at one snapshot, constraints and trigger. */
    method CopyKeepers(m: int, s: Schedule) returns (ok: bool)
      modifies client, this`log, this`clone
      ensures ok ==> log == AtCopy(old(log), s) && clone == Some(Filter(KeptUpTo(m), log.rows))
      ensures !ok ==> client.callsLeft == 0 && (log == old(log) || log == AtCopy(old(log), s))
      ensures ok ==> client.callsLeft == old(client.callsLeft) - 5
    {
      var lands;
      ok, lands := client.Call();                // DROP TABLE IF EXISTS
      if lands { clone := None; }
      if !ok { return; }
      ok, lands := client.Call();                // CREATE TABLE ... LIKE
      if lands { clone := Some([]); }
      if !ok { return; }
      log := ApplyAll(log, s.beforeCopy);
      ok, lands := client.Call();                // INSERT ... SELECT
      if lands { clone := Some(Filter(KeptUpTo(m), log.rows)); }
      if !ok { return; }
      ok, lands := client.Call();                // foreign keys
      if !ok { return; }
      ok, lands := client.Call();                // immutability trigger
    }

    /** Statement 4, one transaction under the exclusive lock. Either it commits as a whole or the
        database is left as the writers left it. */
    method Swap(m: int, s: Schedule, atCopy: seq<Row>) returns (outcome: Outcome, ghost swapped: bool)
      requires clone == Some(Filter(KeptUpTo(m), atCopy))
      modifies this, client
      ensures var atLock := ApplyAll(old(log), s.beforeLock);
              if swapped then log == Swapped(m, atCopy, atLock.rows) && legacy == Some(atLock.rows) && clone == None
              else legacy == old(legacy) && clone == old(clone) && (log == old(log) || log == atLock)
      ensures outcome in {Rebuilt, CallFailed, WaitingForLock, LegacyInTheWay}
      ensures outcome == Rebuilt ==> swapped
      ensures swapped ==> ApplyAll(old(log), s.beforeLock).inFlight == [] && old(legacy) == None
      ensures outcome == CallFailed ==> client.callsLeft == 0
      ensures outcome == WaitingForLock ==> ApplyAll(old(log), s.beforeLock).inFlight != []
      ensures outcome == LegacyInTheWay ==> old(legacy).Some?
      ensures outcome == Rebuilt ==> client.callsLeft == old(client.callsLeft) - 8
    {
      var failure, staged := Stage(m, s);
      if failure.Some? { return failure.value, false; }
      var ok, lands := client.Call();            // COMMIT
      swapped := lands;
      if lands {
        log, legacy, clone := staged, Some(log.rows), None;
      }
      outcome := if ok then Rebuilt else CallFailed;
    }

    /** The transaction up to its COMMIT. */
    method Stage(m: int, s: Schedule) returns (failure: Option<Outcome>, staged: Log)
      requires clone.Some?
      modifies client, this`log
      ensures log == old(log) || log == ApplyAll(old(log), s.beforeLock)
      ensures failure.None? ==>
        && log == ApplyAll(old(log), s.beforeLock) && log.inFlight == [] && legacy == None
        && staged == Log(clone.value + Filter(KeptAbove(m), log.rows), [], MaxId(log.rows) + 1)
      ensures failure == Some(CallFailed) ==> client.callsLeft == 0
      ensures failure == Some(WaitingForLock) ==> ApplyAll(old(log), s.beforeLock).inFlight != []
      ensures failure == Some(LegacyInTheWay) ==> legacy.Some?
      ensures failure.Some? ==> failure.value in {CallFailed, WaitingForLock, LegacyInTheWay}
      ensures failure.None? ==> client.callsLeft == old(client.callsLeft) - 7
    {
      staged := log;
      failure := Some(CallFailed);
      var ok, lands := client.Call();            // BEGIN
      if !ok { return; }
      log := ApplyAll(log, s.beforeLock);
      if log.inFlight != [] { return Some(WaitingForLock), log; }
      ok, lands := client.Call();                // LOCK TABLE ... IN ACCESS EXCLUSIVE MODE
      if !ok { return; }
      ok, lands := client.Call();                // INSERT ... SELECT the delta
      if !ok { return; }
      var filled := clone.value + Filter(KeptAbove(m), log.rows);
      ok, lands := client.Call();                // SELECT max(id)
      if !ok { return; }
      var nextId := MaxId(log.rows) + 1;
      ok, lands := client.Call();                // RENAME the old table away
      if !ok { return; }
      if legacy.Some? { return Some(LegacyInTheWay), log; }
      ok, lands := client.Call();                // RENAME the clone
      if !ok { return; }
      ok, lands := client.Call();                // RESTART WITH nextId
      if !ok { return; }
      failure, staged := None, Log(filled, [], nextId);
    }

    /** Statement 5: the survey again, then the old table goes. */
    method Verify(expected: nat, flags: Flags, writes: seq<Write>) returns (outcome: Outcome)
      requires |ApplyAll(log, writes).rows| >= expected && legacy.Some?
      modifies client, this`log, this`legacy
      ensures log == ApplyAll(old(log), writes) && legacy in {old(legacy), None}
      ensures outcome in {Rebuilt, CallFailed}
      ensures outcome == Rebuilt ==> legacy == if flags.keepLegacy then old(legacy) else None
      ensures outcome == CallFailed ==> client.callsLeft == 0
      ensures outcome == Rebuilt ==> client.callsLeft == old(client.callsLeft) - (if flags.keepLegacy then 1 else 2)
    {
      log := ApplyAll(log, writes);
      var ok, lands := client.Call();            // the survey
      if !ok { return CallFailed; }
      var after := SurveyOf(log.rows);
      if after.total < expected { return VerificationFailed; }
      if !flags.keepLegacy {
        ok, lands := client.Call();              // DROP TABLE legacy
        if lands { legacy := None; }
        if !ok { return CallFailed; }
      }
      outcome := Rebuilt;
    }

    /** The whole run. Before the commit the live table only ever holds what the writers put there;
        from the commit on it is the swapped one. The verification of step 5 never fails, and a run
        that reports success has swapped, has disposed of the old table as asked, and has sent every
        statement. */
    method Rebuild(flags: Flags, s: Schedule) returns (outcome: Outcome, ghost swapped: bool)
      requires Sound(log)
      modifies this, client
      ensures outcome != VerificationFailed
      ensures !flags.execute || !WorthRebuilding(old(log).rows, flags.force) ==>
        && log == old(log) && clone == old(clone) && legacy == old(legacy) && !swapped
        && outcome in {EmptyKeepSet, AlreadyClean, TooManyKept, DryRun, CallFailed}
      ensures flags.execute && WorthRebuilding(old(log).rows, flags.force) ==>
        outcome in {Rebuilt, CallFailed, WaitingForLock, LegacyInTheWay}
      ensures outcome == EmptyKeepSet ==> KeepCount(old(log).rows) == 0
      ensures outcome == AlreadyClean ==> 0 < KeepCount(old(log).rows) == |old(log).rows|
      ensures outcome == TooManyKept ==>
        KeepCount(old(log).rows) < |old(log).rows| < 4 * KeepCount(old(log).rows) && !flags.force
      ensures outcome == DryRun ==> WorthRebuilding(old(log).rows, flags.force) && !flags.execute
      ensures !swapped ==> OnlyWriters(old(log), log, s) && legacy == old(legacy)
      ensures swapped ==> old(legacy) == None && HasSwapped(old(log), s)
      ensures outcome == Rebuilt ==>
        && swapped && log == ApplyAll(AtSwap(old(log), s), s.afterSwap)
        && legacy == if flags.keepLegacy then Some(AtLock(old(log), s).rows) else None
      ensures outcome == CallFailed ==> client.callsLeft == 0
      ensures outcome == WaitingForLock ==> AtLock(old(log), s).inFlight != []
      ensures outcome == LegacyInTheWay ==> old(legacy).Some?
      ensures outcome == Rebuilt ==> client.callsLeft == old(client.callsLeft) - (if flags.keepLegacy then 15 else 16)
    {
      swapped := false;
      var ok, lands := client.Call();            // the survey
      if !ok { return CallFailed, false; }
      var before := SurveyOf(log.rows);
      var verdict := Verdict(before, flags);
      if verdict.Some? { return verdict.value, false; }
      outcome, swapped := Execute(before, flags, s);
    }

    /** What a run leaves once it has committed the swap. */
    ghost predicate HasSwapped(found: Log, s: Schedule)
      reads this
    {
      && AtLock(found, s).inFlight == [] && clone == None
      && (log == AtSwap(found, s) || log == ApplyAll(AtSwap(found, s), s.afterSwap))
      && (legacy == Some(AtLock(found, s).rows) || legacy == None)
    }

    method Execute(before: Survey, flags: Flags, s: Schedule) returns (outcome: Outcome, ghost swapped: bool)
      requires Sound(log) && before == SurveyOf(log.rows)
      modifies this, client
      ensures !swapped ==> OnlyWriters(old(log), log, s) && legacy == old(legacy)
      ensures swapped ==> old(legacy) == None && HasSwapped(old(log), s)
      ensures outcome == Rebuilt ==>
        && swapped && log == ApplyAll(AtSwap(old(log), s), s.afterSwap)
        && legacy == if flags.keepLegacy then Some(AtLock(old(log), s).rows) else None
      ensures outcome in {Rebuilt, CallFailed, WaitingForLock, LegacyInTheWay}
      ensures outcome == CallFailed ==> client.callsLeft == 0
      ensures outcome == WaitingForLock ==> AtLock(old(log), s).inFlight != []
      ensures outcome == LegacyInTheWay ==> old(legacy).Some?
      ensures outcome == Rebuilt ==> client.callsLeft == old(client.callsLeft) - (if flags.keepLegacy then 14 else 15)
    {
      ghost var found := log;
      var ok := CopyKeepers(before.maxId, s);
      if !ok { return CallFailed, false; }
      outcome, swapped := Swap(before.maxId, s, log.rows);
      if outcome != Rebuilt { return; }
      SwappedIsVerified(found, s);
      outcome := Verify(before.keep, flags, s.afterSwap);
    }
  }

  lemma {:induction false} SwappedIsVerified(log: Log, s: Schedule)
    requires Sound(log)
    ensures Sound(AtSwap(log, s))
    ensures |ApplyAll(AtSwap(log, s), s.afterSwap).rows| >= SurveyOf(log.rows).keep
  {
    WritersGrow(log, s.beforeCopy);
    SwapKeepsSound(AtCopy(log, s), s.beforeLock, MaxId(log.rows));
    SwappedSurvey(log, s.beforeCopy, s.beforeLock);
    WritersGrow(AtSwap(log, s), s.afterSwap);
  }

  /** The schedule a successful run ran under decides what the new table holds: every KEEP row of
      the old table at the lock, once - exactly when no KEEP row from the surveyed range became
      visible between copy and lock. */
  lemma {:induction false} RebuiltContents(log: Log, s: Schedule)
    requires Sound(log)
    ensures AtCopy(log, s).rows <= AtLock(log, s).rows
    ensures multiset(AtSwap(log, s).rows) == multiset(Filter(Keep, AtLock(log, s).rows)) <==>
              forall i :: |AtCopy(log, s).rows| <= i < |AtLock(log, s).rows| && Keep(AtLock(log, s).rows[i]) ==>
                AtLock(log, s).rows[i].id > MaxId(log.rows)
  {
    WritersGrow(log, s.beforeCopy);
    WritersGrow(AtCopy(log, s), s.beforeLock);
    ExactWithoutStragglers(MaxId(log.rows), AtCopy(log, s).rows, AtLock(log, s).rows);
  }

  /** A second run right after the swap finds nothing to do. */
  lemma {:induction false} RebuiltIsClean(log: Log, s: Schedule, flags: Flags)
    requires Sound(log)
    ensures var rows := AtSwap(log, s).rows; KeepCount(rows) == |rows| && !WorthRebuilding(rows, flags.force)
    ensures Verdict(SurveyOf(AtSwap(log, s).rows), flags) in {Some(EmptyKeepSet), Some(AlreadyClean)}
  {
    SwappedSurvey(log, s.beforeCopy, s.beforeLock);
  }

  /** After the swap ids stay unique, and every row added gets an id above all of the old table's. */
  lemma {:induction false} RebuiltContinues(log: Log, s: Schedule)
    requires Sound(log)
    ensures var live := AtSwap(log, s);
            var later := ApplyAll(live, s.afterSwap);
            && Sound(later) && live.rows <= later.rows
            && forall i, r :: |live.rows| <= i < |later.rows| && r in AtLock(log, s).rows ==> later.rows[i].id > r.id
  {
    WritersGrow(log, s.beforeCopy);
    SwapKeepsSound(AtCopy(log, s), s.beforeLock, MaxId(log.rows));
    WritersGrow(AtSwap(log, s), s.afterSwap);
  }
}
