/** Any number of runners over one directory, interrupted anywhere, serialised by the advisory
    lock: what the database can come to contain. */
module MigrationHistory {
  import opened Prelude
  import opened StableSort
  import opened MigrationExecutor
  import opened MigrationRunner

  // ---------------------------------------------------------- runners

  /** A runner waits for the lock, then holds it with the rows it selected and the number of files
      that have gone through, until it finishes, fails or dies. */
  datatype Runner = Waiting | Running(selected: Db, next: nat) | Ended

  datatype World = World(db: Db, holder: Option<nat>, runners: seq<Runner>)

  /** `Stop` ends the holder's session, which frees the lock; its last write may have been
      committed without the runner learning of it. */
  datatype Event = Acquire(runner: nat) | Advance | Stop(lastWriteCommitted: bool)

  /** A holder that finds two files with one prefix writes nothing before it stops. */
  ghost predicate Possible(w: World, files: seq<File>, e: Event) {
    match e
    case Acquire(r) => w.holder.None? && r < |w.runners| && w.runners[r].Waiting?
    case Advance => HolderRuns(w, files) && w.runners[w.holder.value].next < |files| && !Collides(files)
    case Stop(committed) => HolderRuns(w, files) && (committed ==> !Collides(files))
  }

  predicate HolderRuns(w: World, files: seq<File>) {
    && w.holder.Some? && w.holder.value < |w.runners|
    && w.runners[w.holder.value].Running? && w.runners[w.holder.value].next <= |files|
  }

  function Happen(w: World, files: seq<File>, e: Event): World
    requires Possible(w, files, e)
  {
    match e
    case Acquire(r) => World(w.db, Some(r), w.runners[r := Running(w.db, 0)])
    case Advance =>
      var Running(selected, next) := w.runners[w.holder.value];
      World(NextDb(MemoryAfter(Load(selected), files, next), w.db, files[next]), w.holder,
            w.runners[w.holder.value := Running(selected, next + 1)])
    case Stop(committed) =>
      var Running(selected, next) := w.runners[w.holder.value];
      World(if committed && next < |files| then NextDb(MemoryAfter(Load(selected), files, next), w.db, files[next])
            else w.db,
            None, w.runners[w.holder.value := Ended])
  }

  ghost predicate History(w: World, files: seq<File>, events: seq<Event>)
    decreases |events|
  {
    events == [] ||
    (Possible(w, files, events[0]) && History(Happen(w, files, events[0]), files, events[1..]))
  }

  ghost function Outcome(w: World, files: seq<File>, events: seq<Event>): World
    requires History(w, files, events)
    decreases |events|
  {
    if events == [] then w else Outcome(Happen(w, files, events[0]), files, events[1..])
  }

  function AtOutset(db: Db, runners: nat): World { World(db, None, seq(runners, _ => Waiting)) }

  /** The lock holder's view of the database is current. */
  ghost predicate Serial(w: World, files: seq<File>) {
    match w.holder
    case None => true
    case Some(r) =>
      HolderRuns(w, files) && w.db == DbAfter(w.runners[r].selected, files, w.runners[r].next)
  }

  lemma {:induction false} HappenSerial(w: World, files: seq<File>, e: Event)
    requires Serial(w, files) && Possible(w, files, e)
    ensures Serial(Happen(w, files, e), files)
  {
  }

  /** Every database a history passes through is one interrupted run away from a database at
      which the lock was free. */
  ghost predicate Invariant(p: Db -> bool, w: World, files: seq<File>) {
    && Serial(w, files)
    && p(if w.holder.None? then w.db else w.runners[w.holder.value].selected)
  }

  lemma {:induction false} HistoryInvariant(p: Db -> bool, w: World, files: seq<File>, events: seq<Event>)
    requires Invariant(p, w, files) && History(w, files, events)
    requires forall db, k :: p(db) && 0 <= k <= |files| ==> p(DbAfter(db, files, k))
    ensures Invariant(p, Outcome(w, files, events), files)
    ensures p(Outcome(w, files, events).db)
    decreases |events|
  {
    if events != [] {
      HappenSerial(w, files, events[0]);
      var w' := Happen(w, files, events[0]);
      if events[0].Stop? {
        var Running(selected, next) := w.runners[w.holder.value];
        assert || w'.db == DbAfter(selected, files, next)
               || (next < |files| && w'.db == DbAfter(selected, files, next + 1));
      }
      HistoryInvariant(p, w', files, events[1..]);
    }
  }

  /** A directory with a prefix collision is left alone by every history. */
  lemma {:induction false} CollisionStops(w: World, files: seq<File>, events: seq<Event>)
    requires Collides(files) && History(w, files, events)
    ensures Outcome(w, files, events).db == w.db
    decreases |events|
  {
    if events != [] { CollisionStops(Happen(w, files, events[0]), files, events[1..]); }
  }

  /** Runner `r` takes the lock, gets through `k` files and ends. */
  function OneRun(r: nat, k: nat): seq<Event> { [Acquire(r)] + seq(k, _ => Advance) + [Stop(false)] }

  /** What one call of `RunMigrations` leaves behind - the effect of some `k` files - is such a history. */
  lemma {:induction false} RunIsAHistory(w: World, files: seq<File>, r: nat, k: nat)
    requires w.holder.None? && r < |w.runners| && w.runners[r].Waiting?
    requires k <= |files| && (Collides(files) ==> k == 0)
    ensures History(w, files, OneRun(r, k))
    ensures Outcome(w, files, OneRun(r, k)) == World(DbAfter(w.db, files, k), None, w.runners[r := Ended])
  {
    var events := OneRun(r, k);
    var w' := Happen(w, files, events[0]);
    assert w' == World(w.db, Some(r), w.runners[r := Running(w.db, 0)]);
    assert events[1..] == seq(k, _ => Advance) + [Stop(false)];
    AdvanceTo(w', w.db, files, r, 0, k, false);
    assert w.runners[r := Running(w.db, 0)][r := Ended] == w.runners[r := Ended];
  }

  /** A runner whose session ends after `k` files, at a write that is committed all the same. */
  function CutOff(r: nat, k: nat): seq<Event> { [Acquire(r)] + seq(k, _ => Advance) + [Stop(true)] }

  /** It leaves the database of a runner that stopped one file later. */
  lemma {:induction false} CutOffIsAHistory(w: World, files: seq<File>, r: nat, k: nat)
    requires w.holder.None? && r < |w.runners| && w.runners[r].Waiting?
    requires k < |files| && !Collides(files)
    ensures History(w, files, CutOff(r, k))
    ensures Outcome(w, files, CutOff(r, k)) == World(DbAfter(w.db, files, k + 1), None, w.runners[r := Ended])
  {
    var events := CutOff(r, k);
    var w' := Happen(w, files, events[0]);
    assert w' == World(w.db, Some(r), w.runners[r := Running(w.db, 0)]);
    assert events[1..] == seq(k, _ => Advance) + [Stop(true)];
    AdvanceTo(w', w.db, files, r, 0, k, true);
    assert w.runners[r := Running(w.db, 0)][r := Ended] == w.runners[r := Ended];
  }

  lemma {:induction false} AdvanceTo(
    w: World, selected: Db, files: seq<File>, r: nat, j: nat, k: nat, lastWriteCommitted: bool)
    requires j <= k <= |files| && r < |w.runners| && (Collides(files) ==> j == k && !lastWriteCommitted)
    requires lastWriteCommitted ==> k < |files|
    requires w == World(DbAfter(selected, files, j), Some(r), w.runners) && w.runners[r] == Running(selected, j)
    ensures var events := seq(k - j, _ => Advance) + [Stop(lastWriteCommitted)];
      && History(w, files, events)
      && Outcome(w, files, events) ==
           World(DbAfter(selected, files, if lastWriteCommitted then k + 1 else k), None, w.runners[r := Ended])
    decreases k - j
  {
    var events := seq(k - j, _ => Advance) + [Stop(lastWriteCommitted)];
    if j < k {
      var w' := World(DbAfter(selected, files, j + 1), Some(r), w.runners[r := Running(selected, j + 1)]);
      assert Happen(w, files, events[0]) == w';
      assert events[1..] == seq(k - (j + 1), _ => Advance) + [Stop(lastWriteCommitted)];
      AdvanceTo(w', selected, files, r, j + 1, k, lastWriteCommitted);
      assert w'.runners[r := Ended] == w.runners[r := Ended];
    } else {
      assert events == [Stop(lastWriteCommitted)] && events[1..] == [];
    }
  }

  lemma {:induction false} HistoryConcat(w: World, files: seq<File>, a: seq<Event>, b: seq<Event>)
    requires History(w, files, a) && History(Outcome(w, files, a), files, b)
    ensures History(w, files, a + b) && Outcome(w, files, a + b) == Outcome(Outcome(w, files, a), files, b)
    decreases |a|
  {
    if a == [] {
      assert a + b == b;
    } else {
      assert (a + b)[1..] == a[1..] + b;
      HistoryConcat(Happen(w, files, a[0]), files, a[1..], b);
    }
  }

  /** The database after `n` complete runs, one after the other. */
  function CompleteRuns(db: Db, files: seq<File>, n: nat): Db {
    if n == 0 then db else DbAfter(CompleteRuns(db, files, n - 1), files, |files|)
  }

  function RunsInTurn(files: seq<File>, n: nat): seq<Event> {
    if n == 0 then [] else RunsInTurn(files, n - 1) + OneRun(n - 1, |files|)
  }

  lemma {:induction false} RunsInTurnHappen(db: Db, files: seq<File>, runners: nat, n: nat)
    requires n <= runners && !Collides(files)
    ensures var w := AtOutset(db, runners);
      && History(w, files, RunsInTurn(files, n))
      && Outcome(w, files, RunsInTurn(files, n))
         == World(CompleteRuns(db, files, n), None, seq(runners, i => if i < n then Ended else Waiting))
  {
    var w := AtOutset(db, runners);
    if n == 0 {
      assert seq(runners, i => if i < 0 then Ended else Waiting) == w.runners;
    } else {
      RunsInTurnHappen(db, files, runners, n - 1);
      var w' := Outcome(w, files, RunsInTurn(files, n - 1));
      RunIsAHistory(w', files, n - 1, |files|);
      HistoryConcat(w, files, RunsInTurn(files, n - 1), OneRun(n - 1, |files|));
      assert w'.runners[n - 1 := Ended] == seq(runners, i => if i < n then Ended else Waiting);
    }
  }

  // ---------------------------------------------------------- names and hashes in the table

  lemma {:induction false} NamesWithRow(rows: seq<Row>, name: string, row: Row)
    ensures forall n :: n in Names(rows) && n != name ==> n in Names(WithRow(rows, name, row))
    ensures name in Names(rows) ==> row.filename in Names(WithRow(rows, name, row))
    ensures forall n :: n in Names(WithRow(rows, name, row)) ==> n == row.filename || (n in Names(rows) && n != name)
  {
    var rows' := WithRow(rows, name, row);
    forall n | n in Names(rows) && n != name ensures n in Names(rows') {
      var i :| 0 <= i < |rows| && rows[i].filename == n;
      assert rows'[i].filename == n;
    }
    if name in Names(rows) {
      var i :| 0 <= i < |rows| && rows[i].filename == name;
      assert rows'[i].filename == row.filename;
    }
    forall n | n in Names(rows') ensures n == row.filename || (n in Names(rows) && n != name) {
      var i :| 0 <= i < |rows'| && rows'[i].filename == n;
      assert rows[i].filename != name ==> rows[i].filename in Names(rows);
    }
  }

  lemma {:induction false} NamesAppend(rows: seq<Row>, row: Row)
    ensures Names(rows + [row]) == Names(rows) + {row.filename}
  {
    var rows' := rows + [row];
    forall n | n in Names(rows) + {row.filename} ensures n in Names(rows') {
      if n == row.filename {
        assert rows'[|rows|].filename == n;
      } else {
        var i :| 0 <= i < |rows| && rows[i].filename == n;
        assert rows'[i].filename == n;
      }
    }
  }

  // ---------------------------------------------------------- order across runs

  /** No file stands in the directory together with the file that renames it. */
  ghost predicate RenamedApart(files: seq<File>) {
    forall i, j :: 0 <= i < |files| && 0 <= j < |files| ==> ApartPair(files, i, j)
  }

  ghost predicate ApartPair(files: seq<File>, i: nat, j: nat)
    requires i < |files| && j < |files|
  {
    files[i].former != Some(files[j].name)
  }

  lemma {:induction false} ApartAt(files: seq<File>, f: File, g: File)
    requires RenamedApart(files) && f in files && g in files
    ensures f.former != Some(g.name)
  {
    var i :| 0 <= i < |files| && files[i] == f;
    var j :| 0 <= j < |files| && files[j] == g;
    assert ApartPair(files, i, j);
  }

  /** A row the runner would treat as this file's own. */
  ghost predicate Owns(db: Db, row: Row, f: File) {
    row.filename == f.name ||
    (f.former == Some(row.filename) && f.name !in Names(db.tracking))
  }

  /** No file's own row records the content of a different one. A hash that no file of the directory
      has, left from an edit, does no harm. */
  ghost predicate HashesApart(db: Db, files: seq<File>) {
    forall i, f :: 0 <= i < |db.tracking| && f in files && Owns(db, db.tracking[i], f) ==>
      RecordsOnly(db.tracking[i], f, files)
  }

  ghost predicate RecordsOnly(row: Row, f: File, files: seq<File>) {
    forall g :: g in files && row.hash == Some(g.hash) ==> g.hash == f.hash
  }

  ghost predicate Tracked(db: Db, f: File) {
    f.name in Names(db.tracking) || Renames(Load(db), f)
  }

  predicate LacksHash(db: Db, f: File) {
    f.name in Names(db.tracking) && f.hash !in Hashes(db.tracking)
  }

  ghost predicate WellFormed(files: seq<File>) {
    && DistinctNames(files)
    && (forall f :: f in files ==> f.hash != "")
    && ProperRenames(files) && RenamedApart(files)
  }

  /** How memory and database stand after `k` files of an uninterrupted run from `db`. */
  ghost predicate InStep(db: Db, files: seq<File>, k: nat, m: Memory, d: Db)
    requires k <= |files|
  {
    && HashesApart(d, files)
    && RecordedIn(m, d, files)
    && (forall f :: f in files ==> (f.name in m.names <==> f.name in Names(d.tracking)))
    && (forall f :: f in files ==> (Renames(m, f) <==> Renames(Load(d), f)))
    && (forall f :: f in files && Tracked(db, f) ==> Tracked(d, f))
    && (forall f :: f in files && LacksHash(d, f) ==> LacksHash(db, f))
    && (forall g :: g in files && g.hash in Hashes(d.tracking) && g.hash !in m.hashes ==>
          ComesFrom(db, files, k, g.hash))
    && (forall j :: 0 <= j < k ==> SettledAt(m, d, files[j]))
  }

  /** What memory holds of the directory's hashes is in the table. */
  ghost predicate RecordedIn(m: Memory, d: Db, files: seq<File>) {
    forall f :: f in files && f.hash in m.hashes ==> f.hash in Hashes(d.tracking)
  }

  /** One of the first `k` files has this content, and at the outset its row lacked the hash. */
  ghost predicate ComesFrom(db: Db, files: seq<File>, k: nat, h: string)
    requires k <= |files|
  {
    exists j :: 0 <= j < k && files[j].hash == h && LacksHash(db, files[j])
  }

  /** A runner with this memory, or one starting from this table, passes over the file. */
  ghost predicate SettledAt(m: Memory, d: Db, f: File) {
    && !Renames(m, f)
    && (f.name in m.names ==> f.hash in Hashes(d.tracking))
    && (f.name in m.names || f.hash in m.hashes)
  }

  lemma {:induction false} HashesWithRow(rows: seq<Row>, name: string, row: Row, h: string)
    requires row.hash.Some? && row.hash.value != "" && h != ""
    requires forall i :: 0 <= i < |rows| && rows[i].filename == name && rows[i].hash == Some(h) ==> row.hash == Some(h)
    ensures h in Hashes(rows) ==> h in Hashes(WithRow(rows, name, row))
    ensures h in Hashes(WithRow(rows, name, row)) ==> h in Hashes(rows) || row.hash == Some(h)
    ensures name in Names(rows) ==> row.hash.value in Hashes(WithRow(rows, name, row))
  {
    var rows' := WithRow(rows, name, row);
    if h in Hashes(rows) {
      var i :| 0 <= i < |rows| && rows[i].hash == Some(h);
      assert rows'[i].hash == Some(h);
    }
    if h in Hashes(rows') {
      var i :| 0 <= i < |rows'| && rows'[i].hash == Some(h);
    }
    if name in Names(rows) {
      var i :| 0 <= i < |rows| && rows[i].filename == name;
      assert rows'[i].hash == row.hash;
    }
  }

  lemma {:induction false} HashesAppend(rows: seq<Row>, row: Row)
    requires row.hash.Some? && row.hash.value != ""
    ensures Hashes(rows + [row]) == Hashes(rows) + {row.hash.value}
  {
    var rows' := rows + [row];
    forall h | h in Hashes(rows) + {row.hash.value} ensures h in Hashes(rows') {
      if h == row.hash.value {
        assert rows'[|rows|].hash == Some(h);
      } else {
        var i :| 0 <= i < |rows| && rows[i].hash == Some(h);
        assert rows'[i].hash == Some(h);
      }
    }
  }

  /** Of the directory's hashes the table loses none and gains at most that of `f`. */
  ghost predicate KeepsHashes(d: Db, d': Db, files: seq<File>, f: File) {
    forall g :: g in files ==>
      && (g.hash in Hashes(d.tracking) ==> g.hash in Hashes(d'.tracking))
      && (g.hash in Hashes(d'.tracking) ==> g.hash in Hashes(d.tracking) || g.hash == f.hash)
  }

  /** Overwriting a file's own row. */
  lemma {:induction false} OwnRowReplaced(d: Db, files: seq<File>, f: File, name: string)
    requires WellFormed(files) && f in files && HashesApart(d, files)
    requires name in Names(d.tracking)
    requires name == f.name || (f.former == Some(name) && f.name !in Names(d.tracking))
    ensures var d' := Db(WithRow(d.tracking, name, Row(f.name, Some(f.hash))), d.log);
            KeepsHashes(d, d', files, f) && f.hash in Hashes(d'.tracking)
  {
    var row := Row(f.name, Some(f.hash));
    forall g | g in files
      ensures g.hash in Hashes(d.tracking) ==> g.hash in Hashes(WithRow(d.tracking, name, row))
      ensures g.hash in Hashes(WithRow(d.tracking, name, row)) ==> g.hash in Hashes(d.tracking) || g.hash == f.hash
      ensures f.hash in Hashes(WithRow(d.tracking, name, row))
    {
      forall i | 0 <= i < |d.tracking| && d.tracking[i].filename == name && d.tracking[i].hash == Some(g.hash)
        ensures g.hash == f.hash
      {
        assert Owns(d, d.tracking[i], f) && RecordsOnly(d.tracking[i], f, files);
      }
      HashesWithRow(d.tracking, name, row, g.hash);
    }
  }

  /** The effect of one file on the names and hashes the table holds. */
  lemma {:induction false} NextDbSets(m: Memory, d: Db, files: seq<File>, f: File)
    requires WellFormed(files) && f in files && HashesApart(d, files)
    requires f.name in m.names <==> f.name in Names(d.tracking)
    requires Renames(m, f) <==> Renames(Load(d), f)
    ensures var d' := NextDb(m, d, f);
      && Names(d'.tracking) == Names(d.tracking)
           - (if Renames(m, f) then {f.former.value} else {})
           + (if Renames(m, f) || Calls(m, f) then {f.name} else {})
      && KeepsHashes(d, d', files, f)
      && (Renames(m, f) || Calls(m, f) || (f.name in m.names && f.hash !in m.hashes) ==> f.hash in Hashes(d'.tracking))
      && (f.name in m.names && f.hash in m.hashes ==> d' == d)
      && (f.name !in m.names && !Renames(m, f) && f.hash in m.hashes ==> d' == d)
  {
    var row := Row(f.name, Some(f.hash));
    if Renames(m, f) {
      var formerly := f.former.value;
      NamesWithRow(d.tracking, formerly, row);
      OwnRowReplaced(d, files, f, formerly);
      assert Names(NextDb(m, d, f).tracking) == Names(d.tracking) - {formerly} + {f.name};
    } else if Calls(m, f) {
      NamesAppend(d.tracking, row);
      HashesAppend(d.tracking, row);
    } else if f.name in m.names && f.hash !in m.hashes {
      NamesWithRow(d.tracking, f.name, row);
      OwnRowReplaced(d, files, f, f.name);
      assert Names(NextDb(m, d, f).tracking) == Names(d.tracking);
    }
  }

  lemma {:induction false} NextDbHashesApart(m: Memory, d: Db, files: seq<File>, f: File)
    requires WellFormed(files) && f in files && HashesApart(d, files)
    requires f.name in m.names <==> f.name in Names(d.tracking)
    requires Renames(m, f) <==> Renames(Load(d), f)
    ensures HashesApart(NextDb(m, d, f), files)
  {
    NextDbSets(m, d, files, f);
    var d' := NextDb(m, d, f);
    forall i, g | 0 <= i < |d'.tracking| && g in files && Owns(d', d'.tracking[i], g)
      ensures RecordsOnly(d'.tracking[i], g, files)
    {
      ApartAt(files, f, g);
      ApartAt(files, g, f);
      if d'.tracking[i].filename == f.name && d' != d && (i >= |d.tracking| || d'.tracking[i] != d.tracking[i]) {
        assert d'.tracking[i] == Row(f.name, Some(f.hash));
        SameNameSameFile(files, f, g);
      } else {
        assert g.name in Names(d.tracking) ==> g.name in Names(d'.tracking);
        assert Owns(d, d.tracking[i], g);
      }
    }
  }

  lemma {:induction false} SameNameSameFile(files: seq<File>, f: File, g: File)
    requires DistinctNames(files) && f in files && g in files
    ensures f.name == g.name ==> f == g
  {
    var i :| 0 <= i < |files| && files[i] == f;
    var j :| 0 <= j < |files| && files[j] == g;
    assert i < j ==> OtherName(files[i], files[j]);
    assert j < i ==> OtherName(files[j], files[i]);
  }

  lemma {:induction false} StaysInStep(db: Db, files: seq<File>, k: nat)
    requires WellFormed(files) && HashesApart(db, files) && k <= |files|
    ensures InStep(db, files, k, MemoryAfter(Load(db), files, k), DbAfter(db, files, k))
  {
    if k == 0 {
      StartsInStepAfter(db, files);
    } else {
      StaysInStep(db, files, k - 1);
      StepInStepAfter(db, files, k - 1, k);
    }
  }

  lemma {:induction false} StartsInStepAfter(db: Db, files: seq<File>)
    requires HashesApart(db, files)
    ensures InStep(db, files, 0, MemoryAfter(Load(db), files, 0), DbAfter(db, files, 0))
  {
    StartsInStep(db, files);
  }

  lemma {:induction false} StepInStepAfter(db: Db, files: seq<File>, j: nat, k: nat)
    requires WellFormed(files) && k == j + 1 <= |files|
    requires InStep(db, files, j, MemoryAfter(Load(db), files, j), DbAfter(db, files, j))
    ensures InStep(db, files, k, MemoryAfter(Load(db), files, k), DbAfter(db, files, k))
  {
    StepInStep(db, files, j, MemoryAfter(Load(db), files, j), DbAfter(db, files, j));
  }

  lemma {:induction false} StartsInStep(db: Db, files: seq<File>)
    requires HashesApart(db, files)
    ensures InStep(db, files, 0, Load(db), db)
  {
  }

  lemma {:induction false} StepInStep(db: Db, files: seq<File>, k: nat, m: Memory, d: Db)
    requires WellFormed(files) && k < |files| && InStep(db, files, k, m, d)
    ensures InStep(db, files, k + 1, NextMemory(m, files[k]), NextDb(m, d, files[k]))
  {
    var f := files[k];
    NextDbSets(m, d, files, f);
    NextDbHashesApart(m, d, files, f);
    StepNames(m, d, files, f);
    StepOrigins(db, files, k, m, d);
    StepSettled(db, files, k, m, d);
  }

  lemma {:induction false} StepOrigins(db: Db, files: seq<File>, k: nat, m: Memory, d: Db)
    requires WellFormed(files) && k < |files| && InStep(db, files, k, m, d)
    ensures var m', d' := NextMemory(m, files[k]), NextDb(m, d, files[k]);
      && (forall f :: f in files && Tracked(db, f) ==> Tracked(d', f))
      && (forall f :: f in files && LacksHash(d', f) ==> LacksHash(db, f))
      && (forall g :: g in files && g.hash in Hashes(d'.tracking) && g.hash !in m'.hashes ==>
            ComesFrom(db, files, k + 1, g.hash))
  {
    var f := files[k];
    var m', d' := NextMemory(m, f), NextDb(m, d, f);
    NextDbSets(m, d, files, f);
    StepNames(m, d, files, f);
    forall g | g in files && Tracked(db, g) ensures Tracked(d', g) {
      assert Tracked(d, g);
      SameNameSameFile(files, f, g);
      ApartAt(files, f, g);
    }
    forall g | g in files && LacksHash(d', g) ensures LacksHash(db, g) {
      if g.name !in Names(d.tracking) { SameNameSameFile(files, f, g); }
      assert LacksHash(d, g);
    }
    forall g | g in files && g.hash in Hashes(d'.tracking) && g.hash !in m'.hashes
      ensures ComesFrom(db, files, k + 1, g.hash)
    {
      if g.hash in Hashes(d.tracking) {
        assert ComesFrom(db, files, k, g.hash);
      } else {
        assert g.hash == f.hash && LacksHash(d, f);
      }
    }
  }

  lemma {:induction false} StepSettled(db: Db, files: seq<File>, k: nat, m: Memory, d: Db)
    requires WellFormed(files) && k < |files| && InStep(db, files, k, m, d)
    ensures forall j :: 0 <= j < k + 1 ==> SettledAt(NextMemory(m, files[k]), NextDb(m, d, files[k]), files[j])
  {
    forall j | 0 <= j < k + 1
      ensures SettledAt(NextMemory(m, files[k]), NextDb(m, d, files[k]), files[j])
    {
      if j < k {
        assert OtherName(files[j], files[k]);
        SettledStays(m, d, files, files[k], files[j]);
      } else {
        NewlySettled(m, d, files, files[k]);
      }
    }
  }

  lemma {:induction false} SettledStays(m: Memory, d: Db, files: seq<File>, f: File, g: File)
    requires WellFormed(files) && f in files && g in files && f.name != g.name && HashesApart(d, files)
    requires forall x :: x in files ==> (x.name in m.names <==> x.name in Names(d.tracking))
    requires forall x :: x in files ==> (Renames(m, x) <==> Renames(Load(d), x))
    requires SettledAt(m, d, g)
    ensures SettledAt(NextMemory(m, f), NextDb(m, d, f), g)
  {
    NextDbSets(m, d, files, f);
    StepNames(m, d, files, f);
  }

  lemma {:induction false} NewlySettled(m: Memory, d: Db, files: seq<File>, f: File)
    requires WellFormed(files) && f in files && HashesApart(d, files) && RecordedIn(m, d, files)
    requires f.name in m.names <==> f.name in Names(d.tracking)
    requires Renames(m, f) <==> Renames(Load(d), f)
    ensures SettledAt(NextMemory(m, f), NextDb(m, d, f), f)
  {
    NextDbSets(m, d, files, f);
  }

  /** Directory names and pending renames stay the same in memory and in the table. */
  lemma {:induction false} StepNames(m: Memory, d: Db, files: seq<File>, f: File)
    requires WellFormed(files) && f in files && HashesApart(d, files)
    requires forall g :: g in files ==> (g.name in m.names <==> g.name in Names(d.tracking))
    requires forall g :: g in files ==> (Renames(m, g) <==> Renames(Load(d), g))
    ensures forall g :: g in files ==> (g.name in NextMemory(m, f).names <==> g.name in Names(NextDb(m, d, f).tracking))
    ensures forall g :: g in files ==> (Renames(NextMemory(m, f), g) <==> Renames(Load(NextDb(m, d, f)), g))
    ensures forall g :: g in files && g.name != f.name ==> (Renames(NextMemory(m, f), g) <==> Renames(m, g))
  {
    NextDbSets(m, d, files, f);
    forall g | g in files
      ensures g.name in NextMemory(m, f).names <==> g.name in Names(NextDb(m, d, f).tracking)
      ensures Renames(NextMemory(m, f), g) <==> Renames(Load(NextDb(m, d, f)), g)
      ensures g.name != f.name ==> (Renames(NextMemory(m, f), g) <==> Renames(m, g))
    {
      ApartAt(files, f, g);
      ApartAt(files, g, f);
      if g.former.Some? {
        ProperAt(files, g, f);
        assert Renames(m, f) && g.name != f.name ==> g.former.value != f.former.value;
      }
    }
  }

  /** Two memories that treat every file from `k` on alike, but for the hashes in `extra`. */
  ghost predicate Alike(files: seq<File>, k: nat, m: Memory, m': Memory, extra: set<string>) {
    && forall i :: k <= i < |files| ==>
         && (files[i].hash in m'.hashes <==> files[i].hash in m.hashes || files[i].hash in extra)
         && (files[i].name in m.names <==> files[i].name in m'.names)
         && (Renames(m, files[i]) <==> Renames(m', files[i]))
  }

  lemma {:induction false} AlikePending(files: seq<File>, k: nat, m: Memory, m': Memory, extra: set<string>)
    requires WellFormed(files) && k <= |files| && Alike(files, k, m, m', extra)
    requires forall f :: f in PendingFrom(m, files, k) ==> f.hash !in extra
    ensures PendingFrom(m, files, k) == PendingFrom(m', files, k)
    decreases |files| - k
  {
    if k < |files| {
      var f := files[k];
      forall i | k + 1 <= i < |files|
        ensures f.name != files[i].name && files[i].former != Some(f.name)
      {
        assert OtherName(f, files[i]);
        ApartAt(files, files[i], f);
      }
      if Calls(m, f) { assert f in PendingFrom(m, files, k); }
      assert Alike(files, k + 1, NextMemory(m, f), NextMemory(m', f), extra);
      AlikePending(files, k + 1, NextMemory(m, f), NextMemory(m', f), extra);
    }
  }

  lemma {:induction false} PendingMembers(m: Memory, files: seq<File>, k: nat, f: File) returns (i: nat)
    requires k <= |files| && f in PendingFrom(m, files, k)
    ensures k <= i < |files| && files[i] == f
    decreases |files| - k
  {
    if Calls(m, files[k]) && f == files[k] {
      i := k;
    } else {
      i := PendingMembers(NextMemory(m, files[k]), files, k + 1, f);
    }
  }

  /** A runner starting from the table a run left after `k` files passes over all of those. */
  lemma {:induction false} SettledPrefix(d: Db, files: seq<File>, m: Memory, k: nat, j: nat)
    requires j <= k <= |files| && RecordedIn(m, d, files)
    requires forall f :: f in files ==> (f.name in m.names <==> f.name in Names(d.tracking))
    requires forall f :: f in files ==> (Renames(m, f) <==> Renames(Load(d), f))
    requires forall i :: 0 <= i < k ==> SettledAt(m, d, files[i])
    ensures PendingFrom(Load(d), files, j) == PendingFrom(Load(d), files, k)
    decreases k - j
  {
    if j < k {
      assert SettledAt(m, d, files[j]);
      SettledPrefix(d, files, m, k, j + 1);
    }
  }

  /** A file whose hash is not recorded yet has a twin further on that is still to be executed. */
  ghost predicate DropsTwin(db: Db, files: seq<File>) {
    exists i, j :: 0 <= i < j < |files| && UnhashedTwins(db, files, i, j)
  }

  ghost predicate UnhashedTwins(db: Db, files: seq<File>, i: nat, j: nat)
    requires i < j < |files|
  {
    files[i].hash == files[j].hash && LacksHash(db, files[i]) && files[j] in Pending(db, files)
  }

  lemma {:induction false} BackfilledTwin(db: Db, files: seq<File>, k: nat, m: Memory, d: Db, f: File)
    requires k <= |files| && InStep(db, files, k, m, d) && f in PendingFrom(m, files, k) && f in Pending(db, files)
    requires f.hash in Hashes(d.tracking) && f.hash !in m.hashes
    ensures DropsTwin(db, files)
  {
    var i := PendingMembers(m, files, k, f);
    assert f in files && ComesFrom(db, files, k, f.hash);
    var j :| 0 <= j < k && files[j].hash == f.hash && LacksHash(db, files[j]);
    assert UnhashedTwins(db, files, j, i);
  }

  lemma {:induction false} SameIndex(files: seq<File>, i: nat, j: nat)
    requires DistinctNames(files) && i < |files| && j < |files| && files[i].name == files[j].name
    ensures i == j
  {
    assert i < j ==> OtherName(files[i], files[j]);
    assert j < i ==> OtherName(files[j], files[i]);
  }

  /** A run after an interrupted one takes up where that one stopped. */
  lemma {:induction false} RestartContinues(db: Db, files: seq<File>, k: nat)
    requires WellFormed(files) && HashesApart(db, files) && !DropsTwin(db, files) && k <= |files|
    ensures var d := DbAfter(db, files, k);
      && Pending(d, files) == PendingFrom(MemoryAfter(Load(db), files, k), files, k)
      && HashesApart(d, files) && !DropsTwin(d, files)
  {
    var m, d := MemoryAfter(Load(db), files, k), DbAfter(db, files, k);
    StaysInStep(db, files, k);
    SettledPrefix(d, files, m, k, 0);
    PendingSplit(Load(db), files, k);
    var extra := Load(d).hashes - m.hashes;
    forall f | f in PendingFrom(m, files, k) ensures f.hash !in extra {
      if f.hash in extra { BackfilledTwin(db, files, k, m, d, f); }
    }
    AlikePending(files, k, m, Load(d), extra);
    if DropsTwin(d, files) { TwinFromTheStart(db, files, k, m, d); }
  }

  lemma {:induction false} TwinFromTheStart(db: Db, files: seq<File>, k: nat, m: Memory, d: Db)
    requires k <= |files| && InStep(db, files, k, m, d) && DropsTwin(d, files)
    requires forall f :: f in Pending(d, files) ==> f in Pending(db, files)
    ensures DropsTwin(db, files)
  {
    var i, j :| 0 <= i < j < |files| && UnhashedTwins(d, files, i, j);
    assert files[i] in files;
    assert UnhashedTwins(db, files, i, j);
  }

  /** What has been executed since `before` is a prefix of what was pending then, in file order, and
      what is pending now is the rest. */
  ghost predicate OnCourse(before: Db, files: seq<File>, db: Db) {
    && before.log <= db.log <= before.log + Pending(before, files)
    && db.log + Pending(db, files) == before.log + Pending(before, files)
  }

  ghost predicate WellOnCourse(before: Db, files: seq<File>, db: Db) {
    HashesApart(db, files) && !DropsTwin(db, files) && OnCourse(before, files, db)
  }

  lemma {:induction false} RunKeepsCourse(before: Db, files: seq<File>, db: Db, k: nat)
    requires WellFormed(files) && WellOnCourse(before, files, db) && k <= |files|
    ensures WellOnCourse(before, files, DbAfter(db, files, k))
  {
    RestartContinues(db, files, k);
    LogAfter(db, files, k);
    PendingSplit(Load(db), files, k);
    Regroup(db.log, PendingUpTo(Load(db), files, k), PendingFrom(MemoryAfter(Load(db), files, k), files, k));
  }

  lemma {:induction false} Regroup<T>(a: seq<T>, b: seq<T>, c: seq<T>)
    ensures a + b + c == a + (b + c)
  {
  }

  ghost predicate StaysOnCourse(db: Db, files: seq<File>, runners: nat, events: seq<Event>) {
    History(AtOutset(db, runners), files, events) ==>
      OnCourse(db, files, Outcome(AtOutset(db, runners), files, events).db)
  }

  lemma {:induction false} CourseKept(db: Db, files: seq<File>, runners: nat, events: seq<Event>)
    requires WellFormed(files) && HashesApart(db, files) && !DropsTwin(db, files)
    ensures StaysOnCourse(db, files, runners, events)
  {
    if History(AtOutset(db, runners), files, events) {
      var p := d => WellOnCourse(db, files, d);
      forall d, k | p(d) && 0 <= k <= |files| ensures p(DbAfter(d, files, k)) {
        RunKeepsCourse(db, files, d, k);
      }
      HistoryInvariant(p, AtOutset(db, runners), files, events);
    }
  }

  lemma {:induction false} MemoryGrows(m: Memory, files: seq<File>, i: nat, j: nat)
    requires i <= j <= |files|
    ensures MemoryAfter(m, files, i).names <= MemoryAfter(m, files, j).names
    ensures MemoryAfter(m, files, i).hashes <= MemoryAfter(m, files, j).hashes
  {
    if i < j { MemoryGrows(m, files, i, j - 1); }
  }

  /** A file is pending exactly when the run calls for it once it gets there. */
  lemma {:induction false} PendingAt(m: Memory, files: seq<File>, k: nat, j: nat)
    requires DistinctNames(files) && k <= j < |files|
    ensures files[j] in PendingFrom(MemoryAfter(m, files, k), files, k) <==> Calls(MemoryAfter(m, files, j), files[j])
    decreases j - k
  {
    var here := MemoryAfter(m, files, k);
    PendingHere(here, files, k, j);
    if k < j {
      PendingAt(m, files, k + 1, j);
      SameNameOnce(files, k, j);
    } else {
      NotAgain(NextMemory(here, files[k]), files, k + 1, j);
    }
  }

  lemma {:induction false} PendingHere(m: Memory, files: seq<File>, k: nat, j: nat)
    requires k <= j < |files|
    ensures files[j] in PendingFrom(m, files, k) <==>
              || (Calls(m, files[k]) && files[j] == files[k])
              || files[j] in PendingFrom(NextMemory(m, files[k]), files, k + 1)
  {
  }

  lemma {:induction false} SameNameOnce(files: seq<File>, k: nat, j: nat)
    requires DistinctNames(files) && k < j < |files|
    ensures files[k] != files[j]
  {
    assert OtherName(files[k], files[j]);
  }

  lemma {:induction false} NotAgain(m: Memory, files: seq<File>, k: nat, j: nat)
    requires DistinctNames(files) && j < k <= |files|
    ensures files[j] !in PendingFrom(m, files, k)
  {
    if files[j] in PendingFrom(m, files, k) {
      var i := PendingMembers(m, files, k, files[j]);
      SameIndex(files, j, i);
    }
  }

  lemma {:induction false} ExecutedAreEarlier(m: Memory, files: seq<File>, k: nat, f: File) returns (i: nat)
    requires k <= |files| && f in PendingUpTo(m, files, k)
    ensures i < k && files[i] == f && Calls(MemoryAfter(m, files, i), f)
  {
    if f in PendingUpTo(m, files, k - 1) {
      i := ExecutedAreEarlier(m, files, k - 1, f);
    } else {
      i := k - 1;
    }
  }

  /** One runner that records the hash of `files[i]` and stops takes its twin `files[j]` off the list. */
  lemma {:induction false} TwinDropsOut(db: Db, files: seq<File>, i: nat, j: nat)
    requires WellFormed(files) && HashesApart(db, files) && i < j < |files| && UnhashedTwins(db, files, i, j)
    ensures files[j] !in Pending(DbAfter(db, files, i + 1), files)
    ensures files[j] !in PendingUpTo(Load(db), files, i + 1)
  {
    var d := DbAfter(db, files, i + 1);
    PendingAt(Load(db), files, 0, j);
    MemoryGrows(Load(db), files, i, j);
    RecordsHash(db, files, i);
    PendingAt(Load(d), files, 0, j);
    MemoryGrows(Load(d), files, 0, j);
    NotYetExecuted(Load(db), files, i + 1, j);
  }

  lemma {:induction false} RecordsHash(db: Db, files: seq<File>, i: nat)
    requires WellFormed(files) && HashesApart(db, files) && i < |files|
    requires files[i].name in Names(db.tracking) && files[i].hash !in MemoryAfter(Load(db), files, i).hashes
    ensures files[i].hash in Hashes(DbAfter(db, files, i + 1).tracking)
  {
    StaysInStep(db, files, i);
    MemoryGrows(Load(db), files, 0, i);
    assert files[i] in files;
    NextDbSets(MemoryAfter(Load(db), files, i), DbAfter(db, files, i), files, files[i]);
  }

  lemma {:induction false} NotYetExecuted(m: Memory, files: seq<File>, k: nat, j: nat)
    requires DistinctNames(files) && k <= j < |files|
    ensures files[j] !in PendingUpTo(m, files, k)
  {
    if files[j] in PendingUpTo(m, files, k) {
      var l := ExecutedAreEarlier(m, files, k, files[j]);
      SameIndex(files, l, j);
    }
  }

  /** So every history of any number of runners, with failures anywhere, stays on course if and only
      if the prefix check refuses the directory or no file with an unrecorded hash has a pending twin
      further on. */
  lemma {:induction false} HistoryIsAPrefix(db: Db, files: seq<File>)
    requires WellFormed(files) && HashesApart(db, files)
    ensures (forall runners, events :: StaysOnCourse(db, files, runners, events)) <==>
              Collides(files) || !DropsTwin(db, files)
  {
    if Collides(files) {
      forall runners, events ensures StaysOnCourse(db, files, runners, events) {
        if History(AtOutset(db, runners), files, events) { CollisionStops(AtOutset(db, runners), files, events); }
      }
    } else if DropsTwin(db, files) {
      var i, j :| 0 <= i < j < |files| && UnhashedTwins(db, files, i, j);
      var events := LeavesCourse(db, files, i, j);
    } else {
      forall runners, events ensures StaysOnCourse(db, files, runners, events) {
        CourseKept(db, files, runners, events);
      }
    }
  }

  lemma {:induction false} LeavesCourse(db: Db, files: seq<File>, i: nat, j: nat) returns (events: seq<Event>)
    requires WellFormed(files) && HashesApart(db, files) && i < j < |files| && UnhashedTwins(db, files, i, j)
    requires !Collides(files)
    ensures !StaysOnCourse(db, files, 1, events)
  {
    TwinDropsOut(db, files, i, j);
    RunIsAHistory(AtOutset(db, 1), files, 0, i + 1);
    LogAfter(db, files, i + 1);
    events := OneRun(0, i + 1);
    OffCourse(db, files, DbAfter(db, files, i + 1), PendingUpTo(Load(db), files, i + 1), files[j]);
  }

  lemma {:induction false} OffCourse(before: Db, files: seq<File>, db: Db, executed: seq<File>, f: File)
    requires db.log == before.log + executed
    requires f !in executed && f in Pending(before, files) && f !in Pending(db, files)
    ensures !OnCourse(before, files, db)
  {
    if db.log + Pending(db, files) == before.log + Pending(before, files) {
      Regroup(before.log, executed, Pending(db, files));
      SameRest(before.log, executed + Pending(db, files), Pending(before, files));
    }
  }

  lemma {:induction false} SameRest<T>(a: seq<T>, b: seq<T>, c: seq<T>)
    requires a + b == a + c
    ensures b == c
  {
    assert (a + b)[|a|..] == b && (a + c)[|a|..] == c;
  }

  // ---------------------------------------------------------- a second run

  /** After a run that got through, another finds nothing to execute. */
  lemma {:induction false} SecondRunIsQuiet(db: Db, files: seq<File>)
    requires WellFormed(files) && HashesApart(db, files)
    ensures Pending(DbAfter(db, files, |files|), files) == []
    ensures DbAfter(DbAfter(db, files, |files|), files, |files|).log == DbAfter(db, files, |files|).log
  {
    var n, d := |files|, DbAfter(db, files, |files|);
    StaysInStep(db, files, n);
    SettledPrefix(d, files, MemoryAfter(Load(db), files, n), n, 0);
    OneRunIsAPrefix(d, files, n);
  }

  /** What a run that nothing interrupts executes. */
  ghost function Executes(db: Db, files: seq<File>): seq<File> {
    if Collides(files) then [] else Pending(db, files)
  }

  /** Exactly when that is nothing: the directory is refused, or every file is tracked, or its content
      is recorded, or it is renamed, or an earlier file with the same content is. */
  lemma {:induction false} QuietExactly(db: Db, files: seq<File>)
    requires DistinctNames(files) && ProperRenames(files)
    ensures Executes(db, files) == [] <==> Collides(files) || AllPassedOver(Load(db), files, 0)
  {
    QuietFrom(Load(db), files, 0);
  }

  ghost predicate AllPassedOver(m: Memory, files: seq<File>, k: nat) {
    forall j :: k <= j < |files| ==> PassedOver(m, files, k, j)
  }

  ghost predicate PassedOver(m: Memory, files: seq<File>, k: nat, j: nat)
    requires k <= j < |files|
  {
    || Skips(m, files[j]) || Renames(m, files[j])
    || exists i :: k <= i < j && Renames(m, files[i]) && files[i].hash == files[j].hash
  }

  lemma {:induction false} QuietFrom(m: Memory, files: seq<File>, k: nat)
    requires DistinctNames(files) && ProperRenames(files) && k <= |files|
    ensures PendingFrom(m, files, k) == [] <==> AllPassedOver(m, files, k)
    decreases |files| - k
  {
    if k < |files| {
      QuietFrom(NextMemory(m, files[k]), files, k + 1);
      if Calls(m, files[k]) {
        assert !PassedOver(m, files, k, k);
      } else {
        AllPassedOverNext(m, files, k, k + 1);
      }
    }
  }

  lemma {:induction false} AllPassedOverNext(m: Memory, files: seq<File>, k: nat, next: nat)
    requires DistinctNames(files) && ProperRenames(files) && k < |files| && next == k + 1 && !Calls(m, files[k])
    ensures AllPassedOver(NextMemory(m, files[k]), files, next) <==> AllPassedOver(m, files, k)
  {
    var m' := NextMemory(m, files[k]);
    assert PassedOver(m, files, k, k);
    forall j | next <= j < |files| ensures PassedOver(m', files, next, j) <==> PassedOver(m, files, k, j) {
      PassedOverNext(m, files, k, j);
    }
    if AllPassedOver(m', files, next) {
      forall j | k <= j < |files| ensures PassedOver(m, files, k, j) {
        assert j >= next ==> PassedOver(m', files, next, j);
      }
    }
  }

  lemma {:induction false} PassedOverNext(m: Memory, files: seq<File>, k: nat, j: nat)
    requires DistinctNames(files) && ProperRenames(files) && k < j < |files| && !Calls(m, files[k])
    ensures PassedOver(NextMemory(m, files[k]), files, k + 1, j) <==> PassedOver(m, files, k, j)
  {
    var m' := NextMemory(m, files[k]);
    forall i | k < i <= j ensures Renames(m', files[i]) <==> Renames(m, files[i]) {
      assert OtherName(files[k], files[i]);
      if files[k].former.Some? { ProperAt(files, files[k], files[i]); }
      if files[i].former.Some? { ProperAt(files, files[i], files[k]); }
    }
    assert OtherName(files[k], files[j]);
  }

  // ---------------------------------------------------------- each condition is needed

  /** A row that records the content of another file: the first run overwrites the hash, and with it
      the only record that made the other file count as applied; the second run executes that file. */
  lemma {:induction false} StaleHashReruns(a: File, b: File)
    requires a.name != b.name && a.hash != b.hash && a.hash != "" && b.hash != "" && a.former == b.former == None
    ensures var db := Db([Row(a.name, Some(b.hash))], []);
            && WellFormed([a, b]) && !HashesApart(db, [a, b])
            && Pending(db, [a, b]) == []
            && Pending(DbAfter(db, [a, b], 2), [a, b]) == [b]
  {
    var files, db := [a, b], Db([Row(a.name, Some(b.hash))], []);
    assert a in files && b in files && Owns(db, db.tracking[0], a) && !RecordsOnly(db.tracking[0], a, files);
    OneRow(a.name, b.hash);
    var m := Load(db);
    assert MemoryAfter(m, files, 0) == m && MemoryAfter(m, files, 1) == m;
    var db1 := DbAfter(db, files, 1);
    assert DbAfter(db, files, 0) == db && db1 == NextDb(m, db, a);
    assert DbAfter(db, files, 2) == db1;
    assert db1.tracking == [Row(a.name, Some(a.hash))];
    OneRow(a.name, a.hash);
    assert PendingFrom(m, files, 2) == [] && PendingFrom(m, files, 1) == [];
    var m1 := Load(db1);
    assert PendingFrom(m1.Add(b), files, 2) == [];
    assert PendingFrom(m1, files, 1) == [b];
  }

  lemma {:induction false} OneRow(name: string, hash: string)
    ensures Names([Row(name, Some(hash))]) == {name} && Names([Row(name, None)]) == {name}
    ensures Hashes([Row(name, Some(hash))]) == if hash == "" then {} else {hash}
    ensures Hashes([Row(name, None)]) == {}
  {
    var rows := [Row(name, Some(hash))];
    assert rows[0].filename == name && rows[0].hash == Some(hash);
    assert [Row(name, None)][0].filename == name;
  }

  /** An unrecorded hash and a twin: once a first run has recorded the hash and stopped, a second
      run no longer executes the twin that was pending at the outset. */
  lemma {:induction false} UnhashedTwinDropsOut(a: File, b: File)
    requires a.name != b.name && a.hash == b.hash != "" && a.former == b.former == None
    ensures var db := Db([Row(a.name, None)], []);
            && WellFormed([a, b]) && HashesApart(db, [a, b]) && DropsTwin(db, [a, b])
            && Pending(db, [a, b]) == [b]
            && Pending(DbAfter(db, [a, b], 1), [a, b]) == []
  {
    var files, db := [a, b], Db([Row(a.name, None)], []);
    OneRow(a.name, a.hash);
    var m := Load(db);
    assert LacksHash(db, files[0]);
    assert MemoryAfter(m, files, 0) == m;
    var db1 := DbAfter(db, files, 1);
    assert DbAfter(db, files, 0) == db && db1 == NextDb(m, db, a);
    assert db1.tracking == [Row(a.name, Some(a.hash))];
    assert PendingFrom(m.Add(b), files, 2) == [];
    assert PendingFrom(m, files, 1) == [b];
    assert Pending(db, files) == [b] && UnhashedTwins(db, files, 0, 1);
    var m1 := Load(db1);
    assert PendingFrom(m1, files, 2) == [] && PendingFrom(m1, files, 1) == [];
  }

  /** An old name still in the directory: its row is renamed away, and a migration that was already
      tracked before the first run is executed by the second. */
  lemma {:induction false} OldNameReruns(a: File, b: File)
    requires a.former == Some(b.name) && b.former == None && a.name != b.name
    requires a.hash != "" && b.hash != "" && a.hash != b.hash
    ensures var db := Db([Row(b.name, Some(b.hash))], []);
            && HashesApart(DbAfter(db, [a, b], 2), [a, b]) && !RenamedApart([a, b]) && db.Tracks(b.name)
            && Pending(db, [a, b]) == []
            && Pending(DbAfter(db, [a, b], 2), [a, b]) == [b]
    ensures FormerName(a.name) == a.former ==> !Collides([a, b])
  {
    if FormerName(a.name) == a.former { RenamedDoNotCollide(a, b); }
    var files, db := [a, b], Db([Row(b.name, Some(b.hash))], []);
    assert db.tracking[0].filename == b.name;
    OneRow(b.name, b.hash);
    var m := Load(db);
    var m1 := m.Add(a);
    assert Renames(m, a) && !Renames(m1, b) && Skips(m1, b) && !ApartPair(files, 0, 1);
    assert MemoryAfter(m, files, 0) == m && MemoryAfter(m, files, 1) == m1;
    assert PendingFrom(m1, files, 2) == [] && PendingFrom(m1, files, 1) == [];
    var d1 := DbAfter(db, files, 1);
    assert DbAfter(db, files, 0) == db && d1 == NextDb(m, db, a);
    assert d1.tracking == [Row(a.name, Some(a.hash))];
    assert DbAfter(db, files, 2) == NextDb(m1, d1, b) == d1 by {
      assert b.hash in m1.hashes;
    }
    OneRow(a.name, a.hash);
    var m2 := Load(d1);
    assert PendingFrom(m2.Add(b), files, 2) == [];
    assert PendingFrom(m2, files, 1) == [b];
  }
}
