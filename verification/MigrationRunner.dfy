/** `runMigrations`: order the files, refuse prefix collisions, follow renames, skip what is
    already applied by name or by content, apply the rest in order. */
module MigrationRunner {
  import opened Prelude
  import opened StableSort
  import opened Text
  import opened MigrationExecutor

  const RENAMED_FILES := map[
    "0121_replen_task_method_and_autoreplen.sql" := "012_replen_task_method_and_autoreplen.sql",
    "0251_unique_variant_sku.sql" := "025_unique_variant_sku.sql",
    "0501_subscription_engine.sql" := "050_subscription_engine.sql",
    "0551_hub_and_spoke_warehouse.sql" := "055_hub_and_spoke_warehouse.sql"
  ]

  // ---------------------------------------------------------- file order

  predicate NameLe(f: File, g: File) { StringLe(f.name, g.name) }

  lemma {:induction false} NameLePreorder()
    ensures TotalPreorder(NameLe)
  {
    forall f, g ensures NameLe(f, g) || NameLe(g, f) { StringLeTotal(f.name, g.name); }
    forall f, g, h | NameLe(f, g) && NameLe(g, h) ensures NameLe(f, h) {
      StringLeTransitive(f.name, g.name, h.name);
    }
  }

  predicate IsSql(f: File) { |f.name| >= 4 && f.name[|f.name| - 4..] == ".sql" }

  function FormerName(name: string): Option<string> {
    if name in RENAMED_FILES then Some(RENAMED_FILES[name]) else None
  }

  /** Every file with the former name the table of renames gives it. */
  function Listed(directory: seq<File>): seq<File> {
    seq(|directory|, i requires 0 <= i < |directory| => directory[i].(former := FormerName(directory[i].name)))
  }

  /** The directory listing, filtered and sorted by name. */
  function MigrationFiles(directory: seq<File>): seq<File> {
    Sort(NameLe, Filter(IsSql, Listed(directory)))
  }

  predicate OtherName(f: File, g: File) { f.name != g.name }

  ghost predicate DistinctNames(files: seq<File>) { Pairwise(OtherName, files) }

  /** No two files share a former name, and no file's former name is the new name of another. */
  ghost predicate ProperRenames(files: seq<File>) {
    forall i, j :: 0 <= i < |files| && 0 <= j < |files| ==> ProperPair(files, i, j)
  }

  ghost predicate ProperPair(files: seq<File>, i: nat, j: nat)
    requires i < |files| && j < |files|
  {
    files[i].former.Some? ==>
      && (files[j].former == files[i].former ==> files[j].name == files[i].name)
      && (files[j].name == files[i].former.value ==> files[j].former.None?)
  }

  lemma {:induction false} ProperAt(files: seq<File>, f: File, g: File)
    requires ProperRenames(files) && f in files && g in files && f.former.Some?
    ensures g.former == f.former ==> g.name == f.name
    ensures g.name == f.former.value ==> g.former.None?
  {
    var i :| 0 <= i < |files| && files[i] == f;
    var j :| 0 <= j < |files| && files[j] == g;
    assert ProperPair(files, i, j);
  }

  lemma {:induction false} FilterDistinct(directory: seq<File>)
    requires DistinctNames(directory)
    ensures DistinctNames(Filter(IsSql, directory))
  {
    if directory != [] {
      assert Pairwise(OtherName, directory[1..]);
      FilterDistinct(directory[1..]);
      var rest := Filter(IsSql, directory[1..]);
      forall j | 0 <= j < |rest| ensures OtherName(directory[0], rest[j]) {
        assert rest[j] in directory[1..];
      }
    }
  }

  ghost predicate EndsInSql(name: string) { exists stem :: name == stem + ".sql" }

  lemma {:induction false} IsSqlExactly(f: File)
    ensures IsSql(f) <==> EndsInSql(f.name)
  {
    if IsSql(f) { assert f.name == f.name[..|f.name| - 4] + ".sql"; }
    if stem :| f.name == stem + ".sql" { assert f.name[|f.name| - 4..] == ".sql"; }
  }

  /** The SQL files run in strict alphabetical order of name. */
  lemma {:induction false} MigrationFilesOrdered(directory: seq<File>)
    requires DistinctNames(directory)
    ensures var files := MigrationFiles(directory);
            forall i, j :: 0 <= i < j < |files| ==> ComesBefore(files[i].name, files[j].name)
    ensures DistinctNames(MigrationFiles(directory))
    ensures forall f :: f in MigrationFiles(directory) <==> f in Listed(directory) && EndsInSql(f.name)
  {
    var listed := Listed(directory);
    var sqls := Filter(IsSql, listed);
    forall f: File ensures IsSql(f) <==> EndsInSql(f.name) { IsSqlExactly(f); }
    forall i, j | 0 <= i < j < |listed| ensures OtherName(listed[i], listed[j]) {
      assert OtherName(directory[i], directory[j]);
    }
    NameLePreorder();
    FilterDistinct(listed);
    SortRefines(NameLe, NameLe, sqls);
    SortMultiset(NameLe, sqls);
    SortKeepsSymmetric(NameLe, OtherName, sqls);
    var files := MigrationFiles(directory);
    forall i, j | 0 <= i < j < |files| ensures ComesBefore(files[i].name, files[j].name) {
      assert NameLe(files[i], files[j]) && OtherName(files[i], files[j]);
      StringLeExactly(files[i].name, files[j].name);
    }
  }

  lemma {:induction false} RenamedProperly()
    ensures forall a, b :: a in RENAMED_FILES && b in RENAMED_FILES && RENAMED_FILES[a] == RENAMED_FILES[b] ==> a == b
    ensures forall a, b :: a in RENAMED_FILES && b in RENAMED_FILES ==> RENAMED_FILES[a] != b
  {
    var n0, n1, n2, n3 :=
      "0121_replen_task_method_and_autoreplen.sql", "0251_unique_variant_sku.sql",
      "0501_subscription_engine.sql", "0551_hub_and_spoke_warehouse.sql";
    var o0, o1, o2, o3 :=
      "012_replen_task_method_and_autoreplen.sql", "025_unique_variant_sku.sql",
      "050_subscription_engine.sql", "055_hub_and_spoke_warehouse.sql";
    assert n0[3] == '1' && n1[3] == '1' && n2[3] == '1' && n3[3] == '1';
    assert o0[3] == '_' && o1[3] == '_' && o2[3] == '_' && o3[3] == '_';
    assert o0[1] == '1' && o1[1] == '2' && o2[1] == '5' && o3[1] == '5' && o2[2] == '0' && o3[2] == '5';
  }

  /** Every listing has proper renames. */
  lemma {:induction false} ListingRenames(directory: seq<File>)
    requires DistinctNames(directory)
    ensures ProperRenames(MigrationFiles(directory))
  {
    MigrationFilesOrdered(directory);
    RenamedProperly();
    var files := MigrationFiles(directory);
    forall k | 0 <= k < |files| ensures files[k].former == FormerName(files[k].name) {
      assert files[k] in files;
      var i :| 0 <= i < |directory| && Listed(directory)[i] == files[k];
    }
  }

  // ---------------------------------------------------------- prefix check

  /** The first group of `/^(\d+)_/`. */
  function PrefixOf(name: string): (p: Option<string>)
    ensures p.Some? ==> p.value != [] && p.value + "_" <= name && forall c :: c in p.value ==> IsDigit(c)
  {
    var n := LeadingDigits(name);
    if n > 0 && n < |name| && name[n] == '_' then Some(name[..n]) else None
  }

  ghost predicate Collides(files: seq<File>) {
    exists i, j :: 0 <= i < j < |files| && PrefixOf(files[i].name).Some? &&
                   PrefixOf(files[i].name) == PrefixOf(files[j].name)
  }

  ghost predicate HasPrefix(files: seq<File>, p: string) {
    exists i :: 0 <= i < |files| && PrefixOf(files[i].name) == Some(p)
  }

  lemma {:induction false} PrefixUpTo(name: string, k: nat)
    requires 0 < k < |name| && name[k] == '_' && forall i :: 0 <= i < k ==> IsDigit(name[i])
    ensures PrefixOf(name) == Some(name[..k])
  {
    assert LeadingDigits(name) == k;
  }

  /** The new names have four digits where the old ones have three. */
  lemma {:induction false} NewNameLonger(name: string)
    requires name in RENAMED_FILES
    ensures |name| > 4 && name[4] == '_' && forall i :: 0 <= i < 4 ==> IsDigit(name[i])
  {
    var n0, n1, n2, n3 :=
      "0121_replen_task_method_and_autoreplen.sql", "0251_unique_variant_sku.sql",
      "0501_subscription_engine.sql", "0551_hub_and_spoke_warehouse.sql";
    assert n0[0] == '0' && n0[1] == '1' && n0[2] == '2' && n0[3] == '1' && n0[4] == '_';
    assert n1[0] == '0' && n1[1] == '2' && n1[2] == '5' && n1[3] == '1' && n1[4] == '_';
    assert n2[0] == '0' && n2[1] == '5' && n2[2] == '0' && n2[3] == '1' && n2[4] == '_';
    assert n3[0] == '0' && n3[1] == '5' && n3[2] == '5' && n3[3] == '1' && n3[4] == '_';
  }

  lemma {:induction false} OldNameShorter(name: string)
    requires name in RENAMED_FILES
    ensures var o := RENAMED_FILES[name]; |o| > 3 && o[3] == '_' && forall i :: 0 <= i < 3 ==> IsDigit(o[i])
  {
    var o0, o1, o2, o3 :=
      "012_replen_task_method_and_autoreplen.sql", "025_unique_variant_sku.sql",
      "050_subscription_engine.sql", "055_hub_and_spoke_warehouse.sql";
    assert RENAMED_FILES[name] in {o0, o1, o2, o3};
    assert o0[0] == '0' && o0[1] == '1' && o0[2] == '2' && o0[3] == '_';
    assert o1[0] == '0' && o1[1] == '2' && o1[2] == '5' && o1[3] == '_';
    assert o2[0] == '0' && o2[1] == '5' && o2[2] == '0' && o2[3] == '_';
    assert o3[0] == '0' && o3[1] == '5' && o3[2] == '5' && o3[3] == '_';
  }

  /** An old and a new name of one file get past the prefix check together. */
  lemma {:induction false} RenamedDoNotCollide(a: File, b: File)
    requires FormerName(a.name) == Some(b.name)
    ensures !Collides([a, b])
  {
    NewNameLonger(a.name);
    OldNameShorter(a.name);
    PrefixUpTo(a.name, 4);
    PrefixUpTo(b.name, 3);
    assert |PrefixOf(a.name).value| == 4 && |PrefixOf(b.name).value| == 3;
    TwoCollide(a, b);
  }

  lemma {:induction false} TwoCollide(a: File, b: File)
    ensures Collides([a, b]) <==> PrefixOf(a.name).Some? && PrefixOf(a.name) == PrefixOf(b.name)
  {
    var files := [a, b];
    assert files[0] == a && files[1] == b;
  }

  /** What one more file adds. */
  lemma {:induction false} CollidesSnoc(files: seq<File>, k: nat)
    requires k < |files| && !Collides(files[..k])
    ensures var prefix := PrefixOf(files[k].name);
      && (prefix.Some? && HasPrefix(files[..k], prefix.value) ==> Collides(files))
      && (prefix.None? || !HasPrefix(files[..k], prefix.value) ==> !Collides(files[..k + 1]))
      && forall p :: HasPrefix(files[..k + 1], p) <==> HasPrefix(files[..k], p) || prefix == Some(p)
  {
    var before, all, prefix := files[..k], files[..k + 1], PrefixOf(files[k].name);
    assert all[k] == files[k] && forall i :: 0 <= i < k ==> before[i] == files[i] == all[i];
    forall p ensures HasPrefix(all, p) <==> HasPrefix(before, p) || prefix == Some(p) {
      if HasPrefix(before, p) {
        var i :| 0 <= i < k && PrefixOf(before[i].name) == Some(p);
        assert PrefixOf(all[i].name) == Some(p);
      }
    }
  }

  method HasPrefixCollision(files: seq<File>) returns (collision: bool)
    ensures collision <==> Collides(files)
  {
    var prefixMap: map<string, string> := map[];
    for k := 0 to |files|
      invariant forall p :: p in prefixMap <==> HasPrefix(files[..k], p)
      invariant !Collides(files[..k])
    {
      CollidesSnoc(files, k);
      var prefix := PrefixOf(files[k].name);
      if prefix.Some? {
        if prefix.value in prefixMap {
          return true;
        }
        prefixMap := prefixMap[prefix.value := files[k].name];
      }
    }
    assert files[..|files|] == files;
    return false;
  }

  // ---------------------------------------------------------- one file

  /** `appliedSet` and `appliedHashes`. */
  datatype Memory = Memory(names: set<string>, hashes: set<string>)
  {
    function Add(f: File): Memory { Memory(names + {f.name}, hashes + {f.hash}) }
  }

  function Names(rows: seq<Row>): set<string> {
    set i | 0 <= i < |rows| :: rows[i].filename
  }

  /** `filter(Boolean)` drops missing and empty hashes. */
  function Hashes(rows: seq<Row>): set<string> {
    set i | 0 <= i < |rows| && rows[i].hash.Some? && rows[i].hash.value != "" :: rows[i].hash.value
  }

  function Load(db: Db): Memory { Memory(Names(db.tracking), Hashes(db.tracking)) }

  predicate Renames(m: Memory, f: File) {
    f.former.Some? && f.former.value in m.names && f.name !in m.names
  }

  predicate Skips(m: Memory, f: File) { f.name in m.names || f.hash in m.hashes }

  /** The file's SQL has to be run. */
  predicate Calls(m: Memory, f: File) { !Renames(m, f) && !Skips(m, f) }

  function NextMemory(m: Memory, f: File): Memory {
    if Renames(m, f) || Calls(m, f) then m.Add(f) else m
  }

  /** The committed effect of one file that goes through. */
  function NextDb(m: Memory, db: Db, f: File): Db {
    if Renames(m, f) then
      Db(WithRow(db.tracking, f.former.value, Row(f.name, Some(f.hash))), db.log)
    else if Calls(m, f) then Applied(db, f)
    else if f.name in m.names && f.hash !in m.hashes then
      Db(WithRow(db.tracking, f.name, Row(f.name, Some(f.hash))), db.log)
    else db
  }

  /** The migrations that files `k` onwards still call for, given memory `m`, in file order. */
  function PendingFrom(m: Memory, files: seq<File>, k: nat): seq<File>
    requires k <= |files|
    decreases |files| - k
  {
    if k == |files| then []
    else if Calls(m, files[k]) then [files[k]] + PendingFrom(NextMemory(m, files[k]), files, k + 1)
    else PendingFrom(NextMemory(m, files[k]), files, k + 1)
  }

  /** The migrations a run that starts from `db` has to execute. */
  function Pending(db: Db, files: seq<File>): seq<File> { PendingFrom(Load(db), files, 0) }

  /** Memory and database after the first `k` files have gone through. */
  function MemoryAfter(m: Memory, files: seq<File>, k: nat): Memory
    requires k <= |files|
  {
    if k == 0 then m else NextMemory(MemoryAfter(m, files, k - 1), files[k - 1])
  }

  function DbAfter(db: Db, files: seq<File>, k: nat): Db
    requires k <= |files|
  {
    if k == 0 then db
    else NextDb(MemoryAfter(Load(db), files, k - 1), DbAfter(db, files, k - 1), files[k - 1])
  }

  // ---------------------------------------------------------- one run

  /** Memory never forgets a tracked name. */
  lemma {:induction false} MemoryCoversNames(db: Db, files: seq<File>, k: nat)
    requires k <= |files|
    ensures Names(DbAfter(db, files, k).tracking) <= MemoryAfter(Load(db), files, k).names
  {
    if k > 0 {
      MemoryCoversNames(db, files, k - 1);
      var m, d, f := MemoryAfter(Load(db), files, k - 1), DbAfter(db, files, k - 1), files[k - 1];
      var d' := NextDb(m, d, f);
      forall i | 0 <= i < |d'.tracking| ensures d'.tracking[i].filename in NextMemory(m, f).names {
        if i < |d.tracking| {
          assert d.tracking[i].filename in Names(d.tracking);
        }
      }
    }
  }

  /** The migrations among the first `k` files that such a run executes. */
  function PendingUpTo(m: Memory, files: seq<File>, k: nat): seq<File>
    requires k <= |files|
  {
    if k == 0 then []
    else PendingUpTo(m, files, k - 1) +
         (if Calls(MemoryAfter(m, files, k - 1), files[k - 1]) then [files[k - 1]] else [])
  }

  lemma {:induction false} PendingSplit(m: Memory, files: seq<File>, k: nat)
    requires k <= |files|
    ensures PendingFrom(m, files, 0) == PendingUpTo(m, files, k) + PendingFrom(MemoryAfter(m, files, k), files, k)
  {
    if k > 0 {
      PendingSplit(m, files, k - 1);
    }
  }

  /** What the first `k` files add to the log. */
  lemma {:induction false} LogAfter(db: Db, files: seq<File>, k: nat)
    requires k <= |files|
    ensures DbAfter(db, files, k).log == db.log + PendingUpTo(Load(db), files, k)
  {
    if k > 0 {
      LogAfter(db, files, k - 1);
    }
  }

  /** One critical section executes a prefix of what was pending when it took the lock, and all of
      it when it gets through. No condition on names, hashes or earlier runs. */
  lemma {:induction false} OneRunIsAPrefix(db: Db, files: seq<File>, k: nat)
    requires k <= |files|
    ensures db.log <= DbAfter(db, files, k).log <= db.log + Pending(db, files)
    ensures DbAfter(db, files, |files|).log == db.log + Pending(db, files)
  {
    LogAfter(db, files, k);
    LogAfter(db, files, |files|);
    PendingSplit(Load(db), files, k);
    PendingSplit(Load(db), files, |files|);
  }

  /** The retry options are in order and allow an attempt. */
  ghost predicate CanApply(options: RetryOptions) { options.maxDelay >= options.baseDelay && options.maxAttempts > 0 }

  /** One iteration of the main loop. `went` tells whether the file's writes were committed. */
  method ProcessFile(s: Session, f: File, memory: Memory, options: RetryOptions)
    returns (ok: bool, applied: bool, ghost went: bool)
    requires s.conn.tx.NoTransaction?
    requires Names(s.conn.committed.tracking) <= memory.names
    modifies s
    ensures s.conn.committed == if went then NextDb(memory, old(s.conn.committed), f) else old(s.conn.committed)
    ensures ok ==> went && s.conn.tx.NoTransaction? && (applied <==> Calls(memory, f))
    ensures AllWork(old(s.faults)) && CanApply(options) ==> ok && AllWork(s.faults)
  {
    if f.name !in memory.names { NotTracked(s.conn.committed, f); }
    ghost var before := s.conn.committed;
    applied := false;
    var error: Option<Option<string>> := None;
    if Renames(memory, f) {
      error := s.Query(RenameRow(f.former.value, f));
    } else if Skips(memory, f) {
      if f.name in memory.names && f.hash !in memory.hashes {
        error := s.Query(SetHash(f));
      }
    } else {
      if AllWork(s.faults) { FirstAttemptWorks(s.conn, s.faults, f); }
      ghost var c, script := s.conn, s.faults;
      var result, delays, lost := ExecuteMigrationWithRetry(s, f, options);
      if AllWork(script) { BeforeWorks(c, script, f, |delays| + 1); }
      return result.Success?, true, result.Success? || lost;
    }
    ok := error.None?;
    went := s.conn.committed == NextDb(memory, before, f);
  }

  lemma {:induction false} NotTracked(db: Db, f: File)
    requires f.name !in Names(db.tracking)
    ensures !db.Tracks(f.name)
  {
    forall i | 0 <= i < |db.tracking| ensures db.tracking[i].filename != f.name {
      assert db.tracking[i].filename in Names(db.tracking);
    }
  }

  datatype RunResult = Completed(count: nat) | PrefixCollision | Stopped

  /** Everything before the main loop: lock, prefix check, tracking table and column, selection. */
  method Prepare(s: Session, files: seq<File>) returns (blocked: Option<RunResult>)
    requires s.conn.tx.NoTransaction?
    modifies s
    ensures s.conn == old(s.conn)
    ensures blocked.Some? ==> blocked.value.Stopped? || (blocked.value.PrefixCollision? && Collides(files))
    ensures Collides(files) ==> blocked.Some?
    ensures AllWork(old(s.faults)) ==> AllWork(s.faults) && blocked != Some(Stopped)
    ensures blocked.None? ==> s.faults == if |old(s.faults)| < 4 then [] else old(s.faults)[4..]
  {
    var error := s.Query(Housekeeping);
    if error.Some? { return Some(Stopped); }
    var collision := HasPrefixCollision(files);
    if collision { return Some(PrefixCollision); }
    error := s.Query(Housekeeping);
    if error.Some? { return Some(Stopped); }
    error := s.Query(Housekeeping);
    if error.Some? { return Some(Stopped); }
    error := s.Query(Housekeeping);
    blocked := if error.Some? then Some(Stopped) else None;
  }

  lemma {:induction false} OneMoreFile(db: Db, files: seq<File>, k: nat)
    requires k < |files|
    ensures var m := MemoryAfter(Load(db), files, k);
      && MemoryAfter(Load(db), files, k + 1) == NextMemory(m, files[k])
      && DbAfter(db, files, k + 1) == NextDb(m, DbAfter(db, files, k), files[k])
      && |PendingUpTo(Load(db), files, k + 1)|
           == |PendingUpTo(Load(db), files, k)| + (if Calls(m, files[k]) then 1 else 0)
  {
  }

  /** Whatever fails, and wherever, a run leaves the database as if some number `done` of files
      had gone through and nothing else; a run that completes has gone through all of them. Nothing but
      a failing statement stops a run. */
  method RunMigrations(s: Session, directory: seq<File>, options: RetryOptions)
    returns (r: RunResult, ghost done: nat)
    requires s.conn.tx.NoTransaction?
    modifies s
    ensures var files := MigrationFiles(directory);
            && done <= |files|
            && s.conn.committed == DbAfter(old(s.conn.committed), files, done)
            && (r.Completed? ==> done == |files| && r.count == |Pending(old(s.conn.committed), files)|)
            && (r.PrefixCollision? ==> Collides(files))
            && (Collides(files) ==> !r.Completed? && done == 0)
            && (AllWork(old(s.faults)) && CanApply(options) ==> !r.Stopped?)
  {
    ghost var before := s.conn.committed;
    var files := MigrationFiles(directory);
    var blocked := Prepare(s, files);
    if blocked.Some? { return blocked.value, 0; }
    var memory := Load(s.conn.committed);
    var count := 0;
    for i := 0 to |files|
      invariant s.conn == Connection(DbAfter(before, files, i), NoTransaction)
      invariant memory == MemoryAfter(Load(before), files, i)
      invariant count == |PendingUpTo(Load(before), files, i)|
      invariant AllWork(old(s.faults)) && CanApply(options) ==> AllWork(s.faults)
    {
      MemoryCoversNames(before, files, i);
      OneMoreFile(before, files, i);
      var ok, applied, went := ProcessFile(s, files[i], memory, options);
      if !ok { return Stopped, if went then i + 1 else i; }
      memory := NextMemory(memory, files[i]);
      count := count + (if applied then 1 else 0);
    }
    PendingSplit(Load(before), files, |files|);
    r, done := Completed(count), |files|;
  }
}
