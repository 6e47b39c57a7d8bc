/** At most once: for which directories no history executes a migration twice, and for which none
    executes a migration that was tracked at the outset. */
module MigrationOnce {
  import opened Prelude
  import opened StableSort
  import opened MigrationExecutor
  import opened MigrationRunner
  import opened MigrationHistory

  /** A listing as `MigrationFiles` gives it; a content hash is never empty. */
  ghost predicate IsListing(files: seq<File>) {
    DistinctNames(files) && ProperRenames(files) && forall f :: f in files ==> IsSql(f) && f.hash != ""
  }

  /** Files `a` and `b` stand side by side although `a` is the new name of `b`, with another content. */
  ghost predicate RenamesOther(files: seq<File>, a: nat, b: nat) {
    && a < |files| && b < |files|
    && files[a].former == Some(files[b].name)
    && files[a].hash != files[b].hash
  }

  /** An earlier file with the content of file `b`. */
  ghost predicate HasEarlierTwin(files: seq<File>, b: nat)
    requires b < |files|
  {
    exists c :: 0 <= c < b && files[c].hash == files[b].hash
  }

  // ---------------------------------------------------------- what keeps a file from running again

  /** Whatever rows are stored under the name of `c` hold its content hash. */
  ghost predicate RowsCurrent(d: Db, c: File) {
    forall i :: 0 <= i < |d.tracking| && d.tracking[i].filename == c.name ==> d.tracking[i].hash == Some(c.hash)
  }

  ghost predicate HasOtherName(files: seq<File>, b: nat) { exists a :: RenamesOther(files, a, b) }

  /** File `b` is tracked, or tracked under its new name with the same content. */
  ghost predicate TrackedSomehow(d: Db, files: seq<File>, b: nat)
    requires b < |files|
  {
    || files[b].name in Names(d.tracking)
    || exists g :: 0 <= g < |files| && TrackedAs(d, files, b, g)
  }

  ghost predicate TrackedAs(d: Db, files: seq<File>, b: nat, g: nat)
    requires b < |files| && g < |files|
  {
    && files[g].former == Some(files[b].name)
    && files[g].hash == files[b].hash && files[g].name in Names(d.tracking) && RowsCurrent(d, files[g])
  }

  /** An earlier file with the same content will always record it first. */
  ghost predicate Guarded(d: Db, files: seq<File>, b: nat)
    requires b < |files|
  {
    exists c :: 0 <= c < b && files[c].hash == files[b].hash && RowsCurrent(d, files[c])
  }

  ghost predicate Safe(d: Db, files: seq<File>, b: nat)
    requires b < |files|
  {
    if HasOtherName(files, b) then Guarded(d, files, b) else TrackedSomehow(d, files, b)
  }

  lemma {:induction false} RowsStayCurrent(m: Memory, d: Db, files: seq<File>, f: File, c: File)
    requires DistinctNames(files) && f in files && c in files && RowsCurrent(d, c)
    ensures RowsCurrent(NextDb(m, d, f), c)
  {
    SameNameSameFile(files, f, c);
  }

  /** Names in the table are only lost to a rename. */
  lemma {:induction false} NamesKept(m: Memory, d: Db, f: File, name: string)
    requires Names(d.tracking) <= m.names && name in Names(d.tracking)
    requires !(Renames(m, f) && f.former.value == name)
    ensures name in Names(NextDb(m, d, f).tracking)
  {
    var row := Row(f.name, Some(f.hash));
    if Renames(m, f) {
      NamesWithRow(d.tracking, f.former.value, row);
    } else if Calls(m, f) {
      NamesAppend(d.tracking, row);
    } else if f.name in m.names && f.hash !in m.hashes {
      NamesWithRow(d.tracking, f.name, row);
    }
  }

  lemma {:induction false} StepKeepsSafe(m: Memory, d: Db, files: seq<File>, k: nat, b: nat)
    requires DistinctNames(files) && ProperRenames(files) && k < |files| && b < |files|
    requires Names(d.tracking) <= m.names && Safe(d, files, b)
    ensures Safe(NextDb(m, d, files[k]), files, b)
  {
    var d' := NextDb(m, d, files[k]);
    if HasOtherName(files, b) {
      var c :| 0 <= c < b && files[c].hash == files[b].hash && RowsCurrent(d, files[c]);
      RowsStayCurrent(m, d, files, files[k], files[c]);
    } else if files[b].name in Names(d.tracking) {
      StepKeepsTracked(m, d, files, k, b);
    } else {
      var g :| 0 <= g < |files| && TrackedAs(d, files, b, g);
      RowsStayCurrent(m, d, files, files[k], files[g]);
      assert files[k].former.Some? ==> ProperPair(files, k, g);
      NamesKept(m, d, files[k], files[g].name);
      assert TrackedAs(d', files, b, g);
    }
  }

  lemma {:induction false} StepKeepsTracked(m: Memory, d: Db, files: seq<File>, k: nat, b: nat)
    requires DistinctNames(files) && k < |files| && b < |files| && Names(d.tracking) <= m.names
    requires files[b].name in Names(d.tracking) && !HasOtherName(files, b)
    ensures TrackedSomehow(NextDb(m, d, files[k]), files, b)
  {
    var f, d' := files[k], NextDb(m, d, files[k]);
    if Renames(m, f) && f.former.value == files[b].name {
      assert !RenamesOther(files, k, b);
      NamesWithRow(d.tracking, files[b].name, Row(f.name, Some(f.hash)));
      forall i | 0 <= i < |d'.tracking| && d'.tracking[i].filename == f.name
        ensures d'.tracking[i].hash == Some(f.hash)
      {
        assert d.tracking[i].filename in Names(d.tracking);
      }
      assert TrackedAs(d', files, b, k);
    } else {
      NamesKept(m, d, f, files[b].name);
    }
  }

  /** Induction over the files of a run. */
  lemma {:induction false} OverRun(p: (nat, Memory, Db) -> bool, d: Db, files: seq<File>, j: nat, k: nat)
    requires j <= k <= |files| && p(j, MemoryAfter(Load(d), files, j), DbAfter(d, files, j))
    requires forall i, m, x :: j <= i < k && p(i, m, x) && Names(x.tracking) <= m.names ==>
               p(i + 1, NextMemory(m, files[i]), NextDb(m, x, files[i]))
    ensures p(k, MemoryAfter(Load(d), files, k), DbAfter(d, files, k))
  {
    if j < k {
      OverRun(p, d, files, j, k - 1);
      MemoryCoversNames(d, files, k - 1);
    }
  }

  lemma {:induction false} SafeLater(d: Db, files: seq<File>, b: nat, j: nat, k: nat)
    requires DistinctNames(files) && ProperRenames(files) && b < |files| && j <= k <= |files|
    requires Safe(DbAfter(d, files, j), files, b)
    ensures Safe(DbAfter(d, files, k), files, b)
  {
    var p := (i: nat, m: Memory, x: Db) => Safe(x, files, b);
    forall i, m, x | j <= i < k && p(i, m, x) && Names(x.tracking) <= m.names
      ensures p(i + 1, NextMemory(m, files[i]), NextDb(m, x, files[i]))
    {
      StepKeepsSafe(m, x, files, i, b);
    }
    OverRun(p, d, files, j, k);
  }

  // ---------------------------------------------------------- a safe file is not executed

  lemma {:induction false} NotNamedYet(m: Memory, files: seq<File>, k: nat, c: nat)
    requires DistinctNames(files) && k <= c < |files| && files[c].name in MemoryAfter(m, files, k).names
    ensures files[c].name in m.names
  {
    if k > 0 {
      assert OtherName(files[k - 1], files[c]);
      NotNamedYet(m, files, k - 1, c);
    }
  }

  lemma {:induction false} HashInTable(d: Db, name: string, h: string)
    requires name in Names(d.tracking) && h != ""
    requires forall i :: 0 <= i < |d.tracking| && d.tracking[i].filename == name ==> d.tracking[i].hash == Some(h)
    ensures h in Hashes(d.tracking)
  {
    var i :| 0 <= i < |d.tracking| && d.tracking[i].filename == name;
  }

  lemma {:induction false} SafeIsPassedOver(d: Db, files: seq<File>, b: nat)
    requires IsListing(files) && b < |files| && Safe(d, files, b)
    ensures !Calls(MemoryAfter(Load(d), files, b), files[b])
  {
    MemoryGrows(Load(d), files, 0, b);
    assert files[b] in files;
    if HasOtherName(files, b) {
      var c :| 0 <= c < b && files[c].hash == files[b].hash && RowsCurrent(d, files[c]);
      GuardRecords(d, files, c);
      MemoryGrows(Load(d), files, c + 1, b);
    } else if files[b].name !in Names(d.tracking) {
      var g :| 0 <= g < |files| && TrackedAs(d, files, b, g);
      HashInTable(d, files[g].name, files[b].hash);
    }
  }

  /** After file `c` its content hash is in memory, if its rows hold nothing else. */
  lemma {:induction false} GuardRecords(d: Db, files: seq<File>, c: nat)
    requires IsListing(files) && c < |files| && RowsCurrent(d, files[c])
    ensures files[c].hash in MemoryAfter(Load(d), files, c + 1).hashes
  {
    var m := MemoryAfter(Load(d), files, c);
    assert files[c] in files;
    MemoryGrows(Load(d), files, 0, c);
    if files[c].name in m.names {
      NotNamedYet(Load(d), files, c, c);
      HashInTable(d, files[c].name, files[c].hash);
    }
  }

  /** A file that has just been executed is safe, if an earlier twin exists wherever one is needed. */
  lemma {:induction false} ExecutedIsSafe(d: Db, files: seq<File>, b: nat)
    requires IsListing(files) && b < |files| && Calls(MemoryAfter(Load(d), files, b), files[b])
    requires HasOtherName(files, b) ==> HasEarlierTwin(files, b)
    ensures Safe(DbAfter(d, files, b + 1), files, b)
  {
    if HasOtherName(files, b) {
      var c :| 0 <= c < b && files[c].hash == files[b].hash;
      TwinBackfilled(d, files, c, b);
    } else {
      NamesAppend(DbAfter(d, files, b).tracking, Row(files[b].name, Some(files[b].hash)));
    }
  }

  lemma {:induction false} TwinBackfilled(d: Db, files: seq<File>, c: nat, b: nat)
    requires IsListing(files) && c < b < |files| && files[c].hash == files[b].hash
    requires Calls(MemoryAfter(Load(d), files, b), files[b])
    ensures RowsCurrent(DbAfter(d, files, b + 1), files[c])
  {
    MemoryGrows(Load(d), files, c + 1, b);
    BackfilledAt(d, files, c);
    RowsCurrentLater(d, files, c, c + 1, b + 1);
  }

  lemma {:induction false} BackfilledAt(d: Db, files: seq<File>, c: nat)
    requires c < |files| && files[c].hash !in MemoryAfter(Load(d), files, c + 1).hashes
    ensures RowsCurrent(DbAfter(d, files, c + 1), files[c])
  {
    Backfilled(MemoryAfter(Load(d), files, c), DbAfter(d, files, c), files[c]);
  }

  lemma {:induction false} Backfilled(m: Memory, d: Db, c: File)
    requires c.hash !in NextMemory(m, c).hashes
    ensures RowsCurrent(NextDb(m, d, c), c)
  {
    if !Renames(m, c) {
      assert c.hash !in m.hashes;
      assert Skips(m, c) && c.name in m.names;
    }
  }

  lemma {:induction false} RowsCurrentLater(d: Db, files: seq<File>, c: nat, j: nat, k: nat)
    requires DistinctNames(files) && c < |files| && j <= k <= |files| && RowsCurrent(DbAfter(d, files, j), files[c])
    ensures RowsCurrent(DbAfter(d, files, k), files[c])
  {
    var p := (i: nat, m: Memory, x: Db) => RowsCurrent(x, files[c]);
    forall i, m, x | j <= i < k && p(i, m, x)
      ensures p(i + 1, NextMemory(m, files[i]), NextDb(m, x, files[i]))
    {
      RowsStayCurrent(m, x, files, files[i], files[c]);
    }
    OverRun(p, d, files, j, k);
  }

  // ---------------------------------------------------------- whole histories

  /** What has been executed since `before`. */
  function NewLog(before: Db, d: Db): seq<File>
    requires |before.log| <= |d.log|
  {
    d.log[|before.log|..]
  }

  predicate OtherFile(f: File, g: File) { f.name != g.name }

  /** What a run executes was not safe before it, and is safe afterwards. */
  lemma {:induction false} RunExecutes(d: Db, files: seq<File>, k: nat, f: File) returns (b: nat)
    requires IsListing(files) && k <= |files| && f in PendingUpTo(Load(d), files, k)
    requires TwinsWhereNeeded(files)
    ensures b < |files| && files[b] == f && !Safe(d, files, b) && Safe(DbAfter(d, files, k), files, b)
  {
    b := ExecutedAreEarlier(Load(d), files, k, f);
    ExecutedWasUnsafe(d, files, b);
    ExecutedStaysSafe(d, files, b, k);
  }

  lemma {:induction false} ExecutedStaysSafe(d: Db, files: seq<File>, b: nat, k: nat)
    requires IsListing(files) && b < k <= |files| && Calls(MemoryAfter(Load(d), files, b), files[b])
    requires TwinsWhereNeeded(files)
    ensures Safe(DbAfter(d, files, k), files, b)
  {
    ExecutedIsSafe(d, files, b);
    SafeLater(d, files, b, b + 1, k);
  }

  lemma {:induction false} ExecutedWasUnsafe(d: Db, files: seq<File>, b: nat)
    requires IsListing(files) && b < |files| && Calls(MemoryAfter(Load(d), files, b), files[b])
    ensures !Safe(d, files, b)
  {
    if Safe(d, files, b) { SafeIsPassedOver(d, files, b); }
  }

  ghost predicate TwinsWhereNeeded(files: seq<File>) {
    forall b :: 0 <= b < |files| && HasOtherName(files, b) ==> HasEarlierTwin(files, b)
  }

  lemma {:induction false} RunIsDistinct(m: Memory, files: seq<File>, k: nat)
    requires DistinctNames(files) && k <= |files|
    ensures Pairwise(OtherFile, PendingUpTo(m, files, k))
  {
    if k > 0 {
      var before := PendingUpTo(m, files, k - 1);
      RunIsDistinct(m, files, k - 1);
      forall i | 0 <= i < |before| ensures OtherFile(before[i], files[k - 1]) {
        var l := ExecutedAreEarlier(m, files, k - 1, before[i]);
        assert OtherName(files[l], files[k - 1]);
      }
    }
  }

  lemma {:induction false} OtherIndex(files: seq<File>, b: nat, c: nat)
    requires DistinctNames(files) && b < |files| && c < |files| && b != c
    ensures OtherFile(files[b], files[c])
  {
    if files[b].name == files[c].name { SameIndex(files, b, c); }
  }

  ghost predicate OnceSoFar(before: Db, files: seq<File>, d: Db) {
    && before.log <= d.log
    && Pairwise(OtherFile, NewLog(before, d))
    && forall f :: f in NewLog(before, d) ==> SafeFile(d, files, f)
  }

  ghost predicate SafeFile(d: Db, files: seq<File>, f: File) {
    exists b :: 0 <= b < |files| && files[b] == f && Safe(d, files, b)
  }

  lemma {:induction false} RunKeepsOnce(before: Db, files: seq<File>, d: Db, k: nat)
    requires IsListing(files) && OnceSoFar(before, files, d) && k <= |files|
    requires TwinsWhereNeeded(files)
    ensures OnceSoFar(before, files, DbAfter(d, files, k))
  {
    var d', run, earlier := DbAfter(d, files, k), PendingUpTo(Load(d), files, k), NewLog(before, d);
    LogAfter(d, files, k);
    RunIsDistinct(Load(d), files, k);
    assert NewLog(before, d') == earlier + run;
    forall f | f in earlier ensures SafeFile(d', files, f) {
      StillSafe(d, files, k, f);
    }
    forall f | f in run ensures SafeFile(d', files, f) {
      var b := RunExecutes(d, files, k, f);
    }
    forall i, j | 0 <= i < |earlier| && 0 <= j < |run| ensures OtherFile(earlier[i], run[j]) {
      assert earlier[i] in earlier && run[j] in run;
      NotTwice(d, files, k, earlier[i], run[j]);
    }
  }

  lemma {:induction false} StillSafe(d: Db, files: seq<File>, k: nat, f: File)
    requires IsListing(files) && k <= |files| && SafeFile(d, files, f)
    ensures SafeFile(DbAfter(d, files, k), files, f)
  {
    var b :| 0 <= b < |files| && files[b] == f && Safe(d, files, b);
    assert DbAfter(d, files, 0) == d;
    SafeLater(d, files, b, 0, k);
  }

  lemma {:induction false} NotTwice(d: Db, files: seq<File>, k: nat, f: File, g: File)
    requires IsListing(files) && k <= |files| && TwinsWhereNeeded(files)
    requires SafeFile(d, files, f) && g in PendingUpTo(Load(d), files, k)
    ensures OtherFile(f, g)
  {
    var b :| 0 <= b < |files| && files[b] == f && Safe(d, files, b);
    var c := RunExecutes(d, files, k, g);
    OtherIndex(files, b, c);
  }

  /** No migration takes effect twice in this history. */
  ghost predicate NothingTwice(db: Db, files: seq<File>, runners: nat, events: seq<Event>) {
    History(AtOutset(db, runners), files, events) ==>
      var d := Outcome(AtOutset(db, runners), files, events).db;
      db.log <= d.log && NoRepeats(NewLog(db, d))
  }

  lemma {:induction false} NothingTwiceHolds(db: Db, files: seq<File>, runners: nat, events: seq<Event>)
    requires IsListing(files) && TwinsWhereNeeded(files)
    ensures NothingTwice(db, files, runners, events)
  {
    if History(AtOutset(db, runners), files, events) {
      var p := d => OnceSoFar(db, files, d);
      forall d, k | p(d) && 0 <= k <= |files| ensures p(DbAfter(d, files, k)) {
        RunKeepsOnce(db, files, d, k);
      }
      HistoryInvariant(p, AtOutset(db, runners), files, events);
      var executed := NewLog(db, Outcome(AtOutset(db, runners), files, events).db);
      forall i, j | 0 <= i < j < |executed| ensures executed[i] != executed[j] {
        assert OtherFile(executed[i], executed[j]);
      }
    }
  }

  /** No migration that was tracked at the outset takes effect in this history. */
  ghost predicate NothingTracked(db: Db, files: seq<File>, runners: nat, events: seq<Event>) {
    History(AtOutset(db, runners), files, events) ==>
      var d := Outcome(AtOutset(db, runners), files, events).db;
      db.log <= d.log && forall f :: f in NewLog(db, d) ==> f.name !in Names(db.tracking)
  }

  ghost predicate TrackedSoFar(before: Db, files: seq<File>, d: Db) {
    && before.log <= d.log
    && (forall b :: 0 <= b < |files| && files[b].name in Names(before.tracking) ==> Safe(d, files, b))
    && forall f :: f in NewLog(before, d) ==> f.name !in Names(before.tracking)
  }

  lemma {:induction false} RunKeepsTracked(before: Db, files: seq<File>, d: Db, k: nat)
    requires IsListing(files) && TrackedSoFar(before, files, d) && k <= |files|
    ensures TrackedSoFar(before, files, DbAfter(d, files, k))
  {
    var d', run := DbAfter(d, files, k), PendingUpTo(Load(d), files, k);
    LogAfter(d, files, k);
    assert NewLog(before, d') == NewLog(before, d) + run;
    forall b | 0 <= b < |files| && files[b].name in Names(before.tracking) ensures Safe(d', files, b) {
      SafeLater(d, files, b, 0, k);
    }
    forall f | f in run ensures f.name !in Names(before.tracking) {
      var b := ExecutedAreEarlier(Load(d), files, k, f);
      if f.name in Names(before.tracking) { SafeIsPassedOver(d, files, b); }
    }
  }

  lemma {:induction false} NothingTrackedHolds(db: Db, files: seq<File>, runners: nat, events: seq<Event>)
    requires IsListing(files) && forall b :: 0 <= b < |files| ==> !HasOtherName(files, b)
    ensures NothingTracked(db, files, runners, events)
  {
    if History(AtOutset(db, runners), files, events) {
      var p := d => TrackedSoFar(db, files, d);
      forall d, k | p(d) && 0 <= k <= |files| ensures p(DbAfter(d, files, k)) {
        RunKeepsTracked(db, files, d, k);
      }
      HistoryInvariant(p, AtOutset(db, runners), files, events);
    }
  }

  // ---------------------------------------------------------- histories that go wrong

  /** Every file but `a` and `b` is tracked. */
  ghost predicate OthersIn(names: set<string>, files: seq<File>, a: nat, b: nat) {
    forall k :: 0 <= k < |files| && k != a && k != b ==> files[k].name in names
  }

  /** The hash `h` is stored under this name only. */
  ghost predicate OnlyUnder(d: Db, name: string, h: string) {
    forall i :: 0 <= i < |d.tracking| && d.tracking[i].hash == Some(h) ==> d.tracking[i].filename == name
  }

  /** Neither `a` nor `b` is tracked; the content of `a` is recorded, that of `b` is not. */
  ghost predicate BothOpen(d: Db, files: seq<File>, a: nat, b: nat)
    requires RenamesOther(files, a, b)
  {
    && OthersIn(Names(d.tracking), files, a, b)
    && files[a].name !in Names(d.tracking) && files[b].name !in Names(d.tracking)
    && files[a].hash in Hashes(d.tracking) && files[b].hash !in Hashes(d.tracking)
  }

  /** `b` is tracked under its own name, and nothing else holds its content. */
  ghost predicate OldTracked(d: Db, files: seq<File>, a: nat, b: nat)
    requires RenamesOther(files, a, b)
  {
    && OthersIn(Names(d.tracking), files, a, b)
    && files[a].name !in Names(d.tracking) && files[b].name in Names(d.tracking)
    && files[b].hash in Hashes(d.tracking) && OnlyUnder(d, files[b].name, files[b].hash)
  }

  /** The row of `b` has been renamed to `a`, and its content is recorded nowhere. */
  ghost predicate OldLost(d: Db, files: seq<File>, a: nat, b: nat)
    requires RenamesOther(files, a, b)
  {
    && OthersIn(Names(d.tracking), files, a, b)
    && files[a].name in Names(d.tracking) && files[b].name !in Names(d.tracking)
    && files[b].hash !in Hashes(d.tracking)
  }

  /** What the runner remembers once it has seen `b` tracked or has executed it. */
  ghost predicate Remembers(m: Memory, files: seq<File>, a: nat, b: nat)
    requires RenamesOther(files, a, b)
  {
    OthersIn(m.names, files, a, b) && files[b].name in m.names && files[b].hash in m.hashes
  }

  lemma {:induction false} OldIsNotRenamed(files: seq<File>, a: nat, b: nat)
    requires ProperRenames(files) && RenamesOther(files, a, b)
    ensures files[b].former.None? && a != b
  {
    assert ProperPair(files, a, b);
  }

  /** Up to file `b` such a run learns nothing. */
  lemma {:induction false} MemoryIdle(d: Db, files: seq<File>, a: nat, b: nat, k: nat)
    requires RenamesOther(files, a, b) && k <= b && (BothOpen(d, files, a, b) || OldLost(d, files, a, b))
    ensures MemoryAfter(Load(d), files, k) == Load(d)
  {
    if k > 0 { MemoryIdle(d, files, a, b, k - 1); }
  }

  lemma {:induction false} OldIsExecuted(d: Db, files: seq<File>, a: nat, b: nat)
    requires IsListing(files) && RenamesOther(files, a, b) && (BothOpen(d, files, a, b) || OldLost(d, files, a, b))
    ensures files[b] in Pending(d, files)
  {
    MemoryIdle(d, files, a, b, b);
    OldIsNotRenamed(files, a, b);
    PendingAt(Load(d), files, 0, b);
  }

  /** Recording the hash of a file that is not `b`'s twin. */
  lemma {:induction false} BackfillKeeps(m: Memory, d: Db, f: File)
    requires f.name in m.names
    ensures Names(NextDb(m, d, f).tracking) == Names(d.tracking)
    ensures forall h :: h != f.hash && h !in Hashes(d.tracking) ==> h !in Hashes(NextDb(m, d, f).tracking)
    ensures f.hash in m.hashes ==> NextDb(m, d, f) == d
    ensures forall name, h :: h != f.hash && OnlyUnder(d, name, h) ==> OnlyUnder(NextDb(m, d, f), name, h)
    ensures forall h :: h in Hashes(d.tracking) && !OnlyUnder(d, f.name, h) ==> h in Hashes(NextDb(m, d, f).tracking)
  {
    var row, d' := Row(f.name, Some(f.hash)), NextDb(m, d, f);
    if f.hash !in m.hashes {
      NamesWithRow(d.tracking, f.name, row);
      forall h | h in Hashes(d.tracking) && !OnlyUnder(d, f.name, h) ensures h in Hashes(d'.tracking) {
        var i :| 0 <= i < |d.tracking| && d.tracking[i].hash == Some(h) && d.tracking[i].filename != f.name;
        assert d'.tracking[i].hash == Some(h);
      }
      forall h | h != f.hash && h in Hashes(d'.tracking) ensures h in Hashes(d.tracking) {
        var i :| 0 <= i < |d'.tracking| && d'.tracking[i].hash == Some(h);
        assert d.tracking[i].hash == Some(h);
      }
      forall name, h | h != f.hash && OnlyUnder(d, name, h) ensures OnlyUnder(d', name, h) {
        forall i | 0 <= i < |d'.tracking| && d'.tracking[i].hash == Some(h) ensures d'.tracking[i].filename == name {
          assert d.tracking[i].hash == Some(h);
        }
      }
    }
  }

  /** Memory and table while `b` is tracked under its own name, and once it no longer is. */
  ghost predicate Ready(m: Memory, d: Db, files: seq<File>, a: nat, b: nat)
    requires RenamesOther(files, a, b)
  {
    Remembers(m, files, a, b) && files[a].name !in m.names && OldTracked(d, files, a, b)
  }

  ghost predicate Gone(m: Memory, d: Db, files: seq<File>, a: nat, b: nat)
    requires RenamesOther(files, a, b)
  {
    Remembers(m, files, a, b) && files[a].name in m.names && OldLost(d, files, a, b)
  }

  lemma {:induction false} StepReady(m: Memory, d: Db, files: seq<File>, a: nat, b: nat, k: nat)
    requires IsListing(files) && RenamesOther(files, a, b) && k < |files| && k != a && Ready(m, d, files, a, b)
    ensures Ready(NextMemory(m, files[k]), NextDb(m, d, files[k]), files, a, b)
  {
    var f, h := files[k], files[b].hash;
    BackfillKeeps(m, d, f);
    if f.hash != h {
      OtherIndex(files, k, b);
      var i :| 0 <= i < |d.tracking| && d.tracking[i].hash == Some(h);
      assert d.tracking[i].filename == files[b].name;
      assert !OnlyUnder(d, f.name, h);
    }
  }

  lemma {:induction false} StepRename(m: Memory, d: Db, files: seq<File>, a: nat, b: nat)
    requires IsListing(files) && RenamesOther(files, a, b) && Ready(m, d, files, a, b)
    ensures Gone(NextMemory(m, files[a]), NextDb(m, d, files[a]), files, a, b)
  {
    var f, d' := files[a], NextDb(m, d, files[a]);
    OldIsNotRenamed(files, a, b);
    OtherIndex(files, a, b);
    NamesWithRow(d.tracking, files[b].name, Row(f.name, Some(f.hash)));
    forall i | 0 <= i < |d'.tracking| ensures d'.tracking[i].hash != Some(files[b].hash) {
      assert d.tracking[i].hash == Some(files[b].hash) ==> d.tracking[i].filename == files[b].name;
    }
    forall k | 0 <= k < |files| && k != a && k != b ensures files[k].name in Names(d'.tracking) {
      OtherIndex(files, k, b);
    }
  }

  lemma {:induction false} StepGone(m: Memory, d: Db, files: seq<File>, a: nat, b: nat, k: nat)
    requires IsListing(files) && RenamesOther(files, a, b) && k < |files| && Gone(m, d, files, a, b)
    ensures Gone(NextMemory(m, files[k]), NextDb(m, d, files[k]), files, a, b)
  {
    BackfillKeeps(m, d, files[k]);
  }

  ghost predicate Phase(m: Memory, d: Db, files: seq<File>, a: nat, b: nat, gone: bool)
    requires RenamesOther(files, a, b)
  {
    if gone then Gone(m, d, files, a, b) else Ready(m, d, files, a, b)
  }

  lemma {:induction false} StepPhase(m: Memory, d: Db, files: seq<File>, a: nat, b: nat, gone: bool, k: nat)
    requires IsListing(files) && RenamesOther(files, a, b) && k < |files| && Phase(m, d, files, a, b, gone)
    ensures Phase(NextMemory(m, files[k]), NextDb(m, d, files[k]), files, a, b, gone || k == a)
  {
    if gone {
      StepGone(m, d, files, a, b, k);
    } else if k == a {
      StepRename(m, d, files, a, b);
    } else {
      StepReady(m, d, files, a, b, k);
    }
  }

  /** What a run leaves: `b` tracked as ever, or lost to `a`. */
  ghost predicate Left(d: Db, files: seq<File>, a: nat, b: nat, gone: bool)
    requires RenamesOther(files, a, b)
  {
    if gone then OldLost(d, files, a, b) else OldTracked(d, files, a, b)
  }

  lemma {:induction false} PhaseLater(d: Db, files: seq<File>, a: nat, b: nat, j: nat, k: nat)
    requires IsListing(files) && RenamesOther(files, a, b) && j <= k <= |files|
    requires Phase(MemoryAfter(Load(d), files, j), DbAfter(d, files, j), files, a, b, false)
    ensures Left(DbAfter(d, files, k), files, a, b, j <= a < k)
  {
    var p := (i: nat, m: Memory, x: Db) => Phase(m, x, files, a, b, j <= a < i) && Left(x, files, a, b, j <= a < i);
    forall i, m, x | j <= i < k && p(i, m, x)
      ensures p(i + 1, NextMemory(m, files[i]), NextDb(m, x, files[i]))
    {
      StepPhase(m, x, files, a, b, j <= a < i, i);
      PhaseLeaves(NextMemory(m, files[i]), NextDb(m, x, files[i]), files, a, b, j <= a < i + 1);
    }
    PhaseLeaves(MemoryAfter(Load(d), files, j), DbAfter(d, files, j), files, a, b, false);
    OverRun(p, d, files, j, k);
  }

  lemma {:induction false} PhaseLeaves(m: Memory, d: Db, files: seq<File>, a: nat, b: nat, gone: bool)
    requires RenamesOther(files, a, b) && Phase(m, d, files, a, b, gone)
    ensures Left(d, files, a, b, gone)
  {
  }

  /** A run on a table that tracks `b` loses it. */
  lemma {:induction false} TrackedIsLost(d: Db, files: seq<File>, a: nat, b: nat)
    requires IsListing(files) && RenamesOther(files, a, b) && OldTracked(d, files, a, b)
    ensures Left(DbAfter(d, files, |files|), files, a, b, true)
  {
    PhaseLater(d, files, a, b, 0, |files|);
  }

  ghost predicate StillOpen(d: Db, files: seq<File>, a: nat, b: nat)
    requires RenamesOther(files, a, b)
  {
    && OthersIn(Names(d.tracking), files, a, b)
    && files[a].name !in Names(d.tracking) && files[b].name !in Names(d.tracking)
    && files[b].hash !in Hashes(d.tracking)
  }

  lemma {:induction false} OpenUntil(d: Db, files: seq<File>, a: nat, b: nat)
    requires IsListing(files) && RenamesOther(files, a, b) && BothOpen(d, files, a, b) && !HasEarlierTwin(files, b)
    ensures StillOpen(DbAfter(d, files, b), files, a, b)
  {
    var p := (i: nat, m: Memory, x: Db) => m == Load(d) && StillOpen(x, files, a, b);
    forall i, m, x | 0 <= i < b && p(i, m, x)
      ensures p(i + 1, NextMemory(m, files[i]), NextDb(m, x, files[i]))
    {
      StepOpen(d, x, files, a, b, i);
    }
    assert MemoryAfter(Load(d), files, 0) == Load(d) && DbAfter(d, files, 0) == d;
    OverRun(p, d, files, 0, b);
  }

  lemma {:induction false} StepOpen(d: Db, x: Db, files: seq<File>, a: nat, b: nat, i: nat)
    requires RenamesOther(files, a, b) && BothOpen(d, files, a, b) && !HasEarlierTwin(files, b)
    requires StillOpen(x, files, a, b) && i < b
    ensures NextMemory(Load(d), files[i]) == Load(d) && StillOpen(NextDb(Load(d), x, files[i]), files, a, b)
  {
    if i != a {
      assert files[i].name in Load(d).names;
      BackfillKeeps(Load(d), x, files[i]);
    }
  }

  /** A run on a table that tracks neither executes `b`, and leaves it tracked or already lost. */
  lemma {:induction false} OpenIsExecuted(d: Db, files: seq<File>, a: nat, b: nat)
    requires IsListing(files) && RenamesOther(files, a, b) && BothOpen(d, files, a, b) && !HasEarlierTwin(files, b)
    ensures Left(DbAfter(d, files, |files|), files, a, b, a > b)
  {
    ReadyAfterOld(d, files, a, b);
    PhaseToEnd(d, files, a, b);
  }

  lemma {:induction false} PhaseToEnd(d: Db, files: seq<File>, a: nat, b: nat)
    requires IsListing(files) && RenamesOther(files, a, b)
    requires Phase(MemoryAfter(Load(d), files, b + 1), DbAfter(d, files, b + 1), files, a, b, false)
    ensures Left(DbAfter(d, files, |files|), files, a, b, a > b)
  {
    assert b + 1 <= a < |files| <==> a > b;
    PhaseLater(d, files, a, b, b + 1, |files|);
  }

  lemma {:induction false} ReadyAfterOld(d: Db, files: seq<File>, a: nat, b: nat)
    requires IsListing(files) && RenamesOther(files, a, b) && BothOpen(d, files, a, b) && !HasEarlierTwin(files, b)
    ensures Phase(MemoryAfter(Load(d), files, b + 1), DbAfter(d, files, b + 1), files, a, b, false)
  {
    OpenUntil(d, files, a, b);
    MemoryIdle(d, files, a, b, b);
    OldIsNotRenamed(files, a, b);
    ExecutedIsTracked(Load(d), DbAfter(d, files, b), files, a, b);
  }

  lemma {:induction false} ExecutedIsTracked(m: Memory, d: Db, files: seq<File>, a: nat, b: nat)
    requires IsListing(files) && RenamesOther(files, a, b) && StillOpen(d, files, a, b)
    requires Calls(m, files[b]) && OthersIn(m.names, files, a, b) && files[a].name !in m.names
    ensures Ready(NextMemory(m, files[b]), NextDb(m, d, files[b]), files, a, b)
  {
    var row := Row(files[b].name, Some(files[b].hash));
    assert files[b] in files;
    OldIsNotRenamed(files, a, b);
    OtherIndex(files, a, b);
    NamesAppend(d.tracking, row);
    HashesAppend(d.tracking, row);
    forall i | 0 <= i < |d.tracking| ensures d.tracking[i].hash != Some(files[b].hash) {
      var h := files[b].hash;
      assert d.tracking[i].hash == Some(h) ==> h in Hashes(d.tracking);
    }
  }

  // ---------------------------------------------------------- tables to start from

  /** One row without a hash for every file but `a` and `b`. */
  function OtherRows(files: seq<File>, k: nat, a: nat, b: nat): seq<Row>
    requires k <= |files|
  {
    if k == 0 then []
    else OtherRows(files, k - 1, a, b) + (if k - 1 == a || k - 1 == b then [] else [Row(files[k - 1].name, None)])
  }

  lemma {:induction false} OtherRowsFacts(files: seq<File>, k: nat, a: nat, b: nat)
    requires k <= |files|
    ensures forall i :: 0 <= i < |OtherRows(files, k, a, b)| ==> OtherRows(files, k, a, b)[i].hash == None
    ensures forall n :: n in Names(OtherRows(files, k, a, b)) <==>
              exists l :: 0 <= l < k && l != a && l != b && files[l].name == n
  {
    if k > 0 {
      OtherRowsFacts(files, k - 1, a, b);
      if k - 1 != a && k - 1 != b {
        NamesAppend(OtherRows(files, k - 1, a, b), Row(files[k - 1].name, None));
      } else {
        assert OtherRows(files, k, a, b) == OtherRows(files, k - 1, a, b);
      }
    }
  }

  /** The table with one more row, which holds a hash. */
  function TableWith(files: seq<File>, a: nat, b: nat, row: Row): Db {
    Db(OtherRows(files, |files|, a, b) + [row], [])
  }

  lemma {:induction false} TableFacts(files: seq<File>, a: nat, b: nat, row: Row)
    requires IsListing(files) && RenamesOther(files, a, b) && row.hash.Some? && row.hash.value != ""
    requires forall k :: 0 <= k < |files| && k != b ==> row.filename != files[k].name
    ensures var d := TableWith(files, a, b, row);
      && OthersIn(Names(d.tracking), files, a, b) && files[a].name !in Names(d.tracking)
      && (files[b].name in Names(d.tracking) <==> row.filename == files[b].name)
      && Hashes(d.tracking) == {row.hash.value} && OnlyUnder(d, row.filename, row.hash.value)
  {
    var rows := OtherRows(files, |files|, a, b);
    OtherRowsFacts(files, |files|, a, b);
    OldIsNotRenamed(files, a, b);
    NamesAppend(rows, row);
    HashesAppend(rows, row);
    assert Hashes(rows) == {};
    forall n | n in {files[a].name, files[b].name} ensures n !in Names(rows) {
      forall l | 0 <= l < |files| && l != a && l != b ensures files[l].name != n {
        OtherIndex(files, l, a);
        OtherIndex(files, l, b);
      }
    }
  }

  // ---------------------------------------------------------- main results

  /** No history, from any table and with any number of runners, executes a migration twice - if and
      only if the prefix check refuses the directory or every file that stands beside its renamed self,
      with another content, has an earlier twin. */
  lemma {:induction false} AtMostOnceExactly(files: seq<File>)
    requires IsListing(files)
    ensures (forall db, runners, events :: NothingTwice(db, files, runners, events)) <==>
            Collides(files) || forall a, b :: RenamesOther(files, a, b) ==> HasEarlierTwin(files, b)
  {
    if Collides(files) {
      forall db, runners, events ensures NothingTwice(db, files, runners, events) {
        if History(AtOutset(db, runners), files, events) { CollisionStops(AtOutset(db, runners), files, events); }
      }
    } else if forall a, b :: RenamesOther(files, a, b) ==> HasEarlierTwin(files, b) {
      assert TwinsWhereNeeded(files);
      forall db, runners, events ensures NothingTwice(db, files, runners, events) {
        NothingTwiceHolds(db, files, runners, events);
      }
    } else {
      var a, b :| RenamesOther(files, a, b) && !HasEarlierTwin(files, b);
      var db := RunsTwice(files, a, b);
    }
  }

  /** Three complete runs, one after the other, that execute `b` twice. */
  lemma {:induction false} RunsTwice(files: seq<File>, a: nat, b: nat) returns (db: Db)
    requires IsListing(files) && RenamesOther(files, a, b) && !HasEarlierTwin(files, b) && !Collides(files)
    ensures !NothingTwice(db, files, 3, RunsInTurn(files, 3))
  {
    db := OpenTable(files, a, b);
    RunsInTurnHappen(db, files, 3, 3);
    TwiceInThree(db, files, a, b);
    var executed := NewLog(db, CompleteRuns(db, files, 3));
    if NoRepeats(executed) { AtMostOnce(executed, files[b]); }
  }

  lemma {:induction false} OpenTable(files: seq<File>, a: nat, b: nat) returns (db: Db)
    requires IsListing(files) && RenamesOther(files, a, b)
    ensures BothOpen(db, files, a, b)
  {
    var row := Row("", Some(files[a].hash));
    db := TableWith(files, a, b, row);
    assert files[a] in files && files[b] in files;
    forall k | 0 <= k < |files| ensures row.filename != files[k].name { assert files[k] in files; }
    TableFacts(files, a, b, row);
  }

  lemma {:induction false} RunAdds(d: Db, files: seq<File>)
    ensures DbAfter(d, files, |files|).log == d.log + Pending(d, files)
  {
    OneRunIsAPrefix(d, files, |files|);
  }

  lemma {:induction false} TwiceInThree(db: Db, files: seq<File>, a: nat, b: nat)
    requires IsListing(files) && RenamesOther(files, a, b) && !HasEarlierTwin(files, b) && BothOpen(db, files, a, b)
    ensures db.log <= CompleteRuns(db, files, 3).log
    ensures multiset(NewLog(db, CompleteRuns(db, files, 3)))[files[b]] >= 2
  {
    var d1, d2 := CompleteRuns(db, files, 1), CompleteRuns(db, files, 2);
    ThreeRuns(db, files);
    TwoOfThree(db, d1, d2, files, a, b);
    InThree(db.log, Pending(db, files), Pending(d1, files), Pending(d2, files), files[b]);
  }

  lemma {:induction false} ThreeRuns(db: Db, files: seq<File>)
    ensures CompleteRuns(db, files, 1) == DbAfter(db, files, |files|)
    ensures CompleteRuns(db, files, 2) == DbAfter(CompleteRuns(db, files, 1), files, |files|)
    ensures CompleteRuns(db, files, 2).log == db.log + Pending(db, files) + Pending(CompleteRuns(db, files, 1), files)
    ensures CompleteRuns(db, files, 3).log
         == CompleteRuns(db, files, 2).log + Pending(CompleteRuns(db, files, 2), files)
  {
    assert CompleteRuns(db, files, 0) == db;
    RunAdds(db, files);
    RunAdds(CompleteRuns(db, files, 1), files);
    RunAdds(CompleteRuns(db, files, 2), files);
  }

  lemma {:induction false} TwoOfThree(db: Db, d1: Db, d2: Db, files: seq<File>, a: nat, b: nat)
    requires IsListing(files) && RenamesOther(files, a, b) && !HasEarlierTwin(files, b) && BothOpen(db, files, a, b)
    requires d1 == DbAfter(db, files, |files|) && d2 == DbAfter(d1, files, |files|)
    ensures files[b] in Pending(db, files) && (files[b] in Pending(d1, files) || files[b] in Pending(d2, files))
  {
    OldIsExecuted(db, files, a, b);
    OpenIsExecuted(db, files, a, b);
    if a > b {
      LostIsExecuted(d1, files, a, b);
    } else {
      LostThenRun(d1, d2, files, a, b);
    }
  }

  lemma {:induction false} LostIsExecuted(d: Db, files: seq<File>, a: nat, b: nat)
    requires IsListing(files) && RenamesOther(files, a, b) && Left(d, files, a, b, true)
    ensures files[b] in Pending(d, files)
  {
    OldIsExecuted(d, files, a, b);
  }

  lemma {:induction false} InThree(log: seq<File>, p: seq<File>, q: seq<File>, r: seq<File>, f: File)
    requires f in p && (f in q || f in r)
    ensures multiset((log + p + q + r)[|log|..])[f] >= 2
  {
    assert (log + p + q + r)[|log|..] == p + q + r;
    assert multiset(p)[f] >= 1 && (multiset(q)[f] >= 1 || multiset(r)[f] >= 1);
  }

  /** No history executes a migration that was tracked at the outset - if and only if the prefix check
      refuses the directory or no file stands beside its renamed self with another content. */
  lemma {:induction false} TrackedNeverRunsExactly(files: seq<File>)
    requires IsListing(files)
    ensures (forall db, runners, events :: NothingTracked(db, files, runners, events)) <==>
            Collides(files) || forall a, b :: !RenamesOther(files, a, b)
  {
    if Collides(files) {
      forall db, runners, events ensures NothingTracked(db, files, runners, events) {
        if History(AtOutset(db, runners), files, events) { CollisionStops(AtOutset(db, runners), files, events); }
      }
    } else if forall a, b :: !RenamesOther(files, a, b) {
      forall db, runners, events ensures NothingTracked(db, files, runners, events) {
        NothingTrackedHolds(db, files, runners, events);
      }
    } else {
      var a, b :| RenamesOther(files, a, b);
      var db := RunsThoughTracked(files, a, b);
    }
  }

  lemma {:induction false} RunsThoughTracked(files: seq<File>, a: nat, b: nat) returns (db: Db)
    requires IsListing(files) && RenamesOther(files, a, b) && !Collides(files)
    ensures !NothingTracked(db, files, 2, RunsInTurn(files, 2))
  {
    var row := Row(files[b].name, Some(files[b].hash));
    db := TableWith(files, a, b, row);
    assert files[b] in files;
    forall k | 0 <= k < |files| && k != b ensures row.filename != files[k].name { OtherIndex(files, k, b); }
    TableFacts(files, a, b, row);
    RunsInTurnHappen(db, files, 2, 2);
    TrackedThenRun(db, files, a, b);
  }

  lemma {:induction false} TrackedThenRun(db: Db, files: seq<File>, a: nat, b: nat)
    requires IsListing(files) && RenamesOther(files, a, b) && OldTracked(db, files, a, b)
    ensures db.log <= CompleteRuns(db, files, 2).log && files[b] in NewLog(db, CompleteRuns(db, files, 2))
  {
    var d1 := CompleteRuns(db, files, 1);
    ThreeRuns(db, files);
    LostThenRun(db, d1, files, a, b);
    assert CompleteRuns(db, files, 2).log == db.log + (Pending(db, files) + Pending(d1, files));
  }

  lemma {:induction false} LostThenRun(db: Db, d1: Db, files: seq<File>, a: nat, b: nat)
    requires IsListing(files) && RenamesOther(files, a, b) && Left(db, files, a, b, false)
    requires d1 == DbAfter(db, files, |files|)
    ensures files[b] in Pending(d1, files)
  {
    TrackedIsLost(db, files, a, b);
    LostIsExecuted(d1, files, a, b);
  }

  /** The smallest such case: an old and a new name side by side, and the new file's content recorded
      under a third name. */
  lemma {:induction false} OldAndNewNameRunTwice(a: File, b: File, other: string)
    requires IsListing([a, b]) && a.former == Some(b.name) && a.hash != b.hash
    requires other != a.name && other != b.name
    ensures var db := Db([Row(other, Some(a.hash))], []);
      && Pending(db, [a, b]) == [b]
      && multiset(CompleteRuns(db, [a, b], 3).log)[b] >= 2
    ensures FormerName(a.name) == a.former ==> !Collides([a, b])
  {
    if FormerName(a.name) == a.former { RenamedDoNotCollide(a, b); }
    var files, db := [a, b], Db([Row(other, Some(a.hash))], []);
    OneRow(other, a.hash);
    assert RenamesOther(files, 0, 1) && BothOpen(db, files, 0, 1);
    TwiceInThree(db, files, 0, 1);
    var log := CompleteRuns(db, files, 3).log;
    assert NewLog(db, CompleteRuns(db, files, 3)) == log;
    var m := Load(db);
    OldIsNotRenamed(files, 0, 1);
    assert Skips(m, a) && MemoryAfter(m, files, 1) == m && Calls(m, b);
    assert PendingFrom(m.Add(b), files, 2) == [] && PendingFrom(m, files, 1) == [b];
  }
}
