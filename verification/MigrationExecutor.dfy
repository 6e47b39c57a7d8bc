/** The transactional retry loop that applies one migration file, against a PostgreSQL session
    in which any statement can fail and any acknowledgement can be lost. */
module MigrationExecutor {
  import opened Prelude

  /** `hash` stands for the SHA-256 of `sql`; `former` is the name the file had before it was renamed,
      if it was. */
  datatype File = File(name: string, sql: string, hash: string, former: Option<string>)

  /** A row of `_migrations`; `filename` is UNIQUE. */
  datatype Row = Row(filename: string, hash: Option<string>)

  /** Committed state: the tracking table, and the migrations whose SQL took effect, in order.
      The schema is whatever folding `log` yields. */
  datatype Db = Db(tracking: seq<Row>, log: seq<File>)
  {
    predicate Tracks(name: string) {
      exists i :: 0 <= i < |tracking| && tracking[i].filename == name
    }
  }

  function Applied(db: Db, f: File): Db {
    Db(db.tracking + [Row(f.name, Some(f.hash))], db.log + [f])
  }

  /** How the server and the network treat one statement: it works; it fails with a SQLSTATE (or
      none); or it works and the reply is lost, so the client sees an error all the same. */
  datatype Fault = Works | Fails(state: Option<string>) | ReplyLost(state: Option<string>)

  datatype Statement =
    | Begin | SetLockTimeout | RunSql(file: File) | InsertRow(file: File) | Commit | Rollback
    | RenameRow(formerly: string, file: File) | SetHash(file: File)
    | Housekeeping   // advisory lock, CREATE TABLE/COLUMN IF NOT EXISTS, SELECT: no effect on rows

  /** A transaction's private copy of the database, or the aborted state an error leaves. */
  datatype Transaction = NoTransaction | Open(db: Db) | Aborted

  datatype Connection = Connection(committed: Db, tx: Transaction)
  {
    /** What a statement reads: the transaction's copy, or the committed state. */
    function Visible(): Db { if tx.Open? then tx.db else committed }

    function Write(db: Db): Connection {
      if tx.Open? then Connection(committed, Open(db)) else Connection(db, tx)
    }

    /** An error aborts the transaction in progress. */
    function AfterError(): Connection {
      if tx.NoTransaction? then this else Connection(committed, Aborted)
    }
  }

  const UNIQUE_VIOLATION := "23505"
  const IN_FAILED_TRANSACTION := "25P02"
  const RETRYABLE_SQLSTATES := {"40001", "40P01", "55P03"}

  datatype Answer = Answer(conn: Connection, error: Option<Option<string>>)

  function Completed(c: Connection): Answer { Answer(c, None) }

  function Raised(c: Connection, state: string): Answer { Answer(c.AfterError(), Some(Some(state))) }

  /** The effect of a statement the server executes, or the SQLSTATE it raises. */
  function Effect(c: Connection, stmt: Statement): Answer {
    if c.tx.Aborted? then
      if stmt.Commit? || stmt.Rollback? then Completed(Connection(c.committed, NoTransaction))
      else Raised(c, IN_FAILED_TRANSACTION)
    else
      var db := c.Visible();
      match stmt
      case Begin => Completed(if c.tx.Open? then c else Connection(c.committed, Open(c.committed)))
      case SetLockTimeout => Completed(c)
      case Housekeeping => Completed(c)
      case RunSql(f) => Completed(c.Write(Db(db.tracking, db.log + [f])))
      case InsertRow(f) =>
        if db.Tracks(f.name) then Raised(c, UNIQUE_VIOLATION)
        else Completed(c.Write(Db(db.tracking + [Row(f.name, Some(f.hash))], db.log)))
      case Commit => Completed(Connection(db, NoTransaction))
      case Rollback => Completed(Connection(c.committed, NoTransaction))
      case RenameRow(formerly, f) =>
        if db.Tracks(f.name) && db.Tracks(formerly) then Raised(c, UNIQUE_VIOLATION)
        else Completed(c.Write(Db(WithRow(db.tracking, formerly, Row(f.name, Some(f.hash))), db.log)))
      case SetHash(f) =>
        Completed(c.Write(Db(WithRow(db.tracking, f.name, Row(f.name, Some(f.hash))), db.log)))
  }

  /** `UPDATE _migrations SET ... WHERE filename = name`. */
  function WithRow(rows: seq<Row>, name: string, row: Row): (r: seq<Row>)
    ensures |r| == |rows|
    ensures forall i :: 0 <= i < |rows| ==> r[i] == if rows[i].filename == name then row else rows[i]
  {
    seq(|rows|, i requires 0 <= i < |rows| => if rows[i].filename == name then row else rows[i])
  }

  /** One round trip: the new connection state and the error the client sees, if any. */
  function RoundTrip(c: Connection, stmt: Statement, fault: Fault): Answer {
    match fault
    case Works => Effect(c, stmt)
    case Fails(state) => Answer(c.AfterError(), Some(state))
    case ReplyLost(state) => Answer(Effect(c, stmt).conn, Some(state))
  }

  /** What the callers rely on: the committed state changes inside a transaction at a COMMIT only, and
      then to all that the transaction wrote; an aborted transaction takes no statement, commits nothing
      and ends at the next COMMIT or ROLLBACK. */
  lemma {:induction false} TransactionsAreAtomic(c: Connection, stmt: Statement, fault: Fault)
    requires !c.tx.NoTransaction?
    ensures var after := RoundTrip(c, stmt, fault).conn;
      && (after.committed != c.committed ==> stmt.Commit? && c.tx == Open(after.committed))
      && (after.tx.NoTransaction? <==> !fault.Fails? && (stmt.Commit? || stmt.Rollback?))
      && (after.tx.NoTransaction? && stmt.Commit? && c.tx.Open? ==> c.tx == Open(after.committed))
      && (c.tx.Aborted? ==> after.committed == c.committed && (after == c || after.tx.NoTransaction?))
  {
  }

  ghost predicate UniqueNames(db: Db) {
    forall i, j :: 0 <= i < j < |db.tracking| ==> db.tracking[i].filename != db.tracking[j].filename
  }

  /** The server raises an error of its own only in an aborted transaction, or to keep file names unique. */
  lemma {:induction false} NamesStayUnique(c: Connection, stmt: Statement)
    requires UniqueNames(c.Visible())
    ensures var answer, db := Effect(c, stmt), c.Visible();
            var taken := || (stmt.InsertRow? && db.Tracks(stmt.file.name))
                         || (stmt.RenameRow? && db.Tracks(stmt.file.name) && db.Tracks(stmt.formerly));
      && (answer.error == None && !stmt.Rollback? && !c.tx.Aborted? ==> UniqueNames(answer.conn.Visible()))
      && (c.tx.Aborted? ==> answer.error == if stmt.Commit? || stmt.Rollback? then None else Some(Some("25P02")))
      && (!c.tx.Aborted? ==> answer.error == if taken then Some(Some("23505")) else None)
  {
  }

  // ---------------------------------------------------------- what the client gets to see

  /** A session after some statements, and the error that the last of them brought, if any. */
  datatype Progress = Progress(conn: Connection, faults: seq<Fault>, error: Option<Option<string>>)

  function Send(c: Connection, faults: seq<Fault>, stmt: Statement): Progress {
    var answer := RoundTrip(c, stmt, if faults == [] then Works else faults[0]);
    Progress(answer.conn, if faults == [] then [] else faults[1..], answer.error)
  }

  /** The statements one after the other, up to the first error. */
  function SendAll(c: Connection, faults: seq<Fault>, stmts: seq<Statement>): Progress
    decreases |stmts|
  {
    if stmts == [] then Progress(c, faults, None)
    else
      var p := Send(c, faults, stmts[0]);
      if p.error.Some? then p else SendAll(p.conn, p.faults, stmts[1..])
  }

  function Steps(file: File): seq<Statement> { [Begin, SetLockTimeout, RunSql(file), InsertRow(file), Commit] }

  /** An attempt and, if it failed after its BEGIN, the ROLLBACK. */
  function Attempted(c: Connection, faults: seq<Fault>, file: File): Progress {
    var p := SendAll(c, faults, Steps(file));
    if p.error.None? || Send(c, faults, Begin).error.Some? then p.(error := None)
    else Send(p.conn, p.faults, Rollback)
  }

  /** Before attempt `k`, counted from 0, when all earlier ones were made. */
  function Before(c: Connection, faults: seq<Fault>, file: File, k: nat): Progress {
    if k == 0 then Progress(c, faults, None)
    else
      var p := Before(c, faults, file, k - 1);
      Attempted(p.conn, p.faults, file)
  }

  /** The error of attempt `k`; `None` when its COMMIT is acknowledged. */
  function ErrorOf(c: Connection, faults: seq<Fault>, file: File, k: nat): Option<Option<string>> {
    var p := Before(c, faults, file, k);
    SendAll(p.conn, p.faults, Steps(file)).error
  }

  ghost predicate AllWork(faults: seq<Fault>) { forall i :: 0 <= i < |faults| ==> faults[i].Works? }

  lemma {:induction false} SendWorks(c: Connection, faults: seq<Fault>, stmt: Statement)
    requires AllWork(faults)
    ensures var p := Send(c, faults, stmt);
            Answer(p.conn, p.error) == Effect(c, stmt) && AllWork(p.faults)
  {
  }

  lemma {:induction false} SendAllWorks(c: Connection, faults: seq<Fault>, stmts: seq<Statement>)
    requires AllWork(faults)
    ensures AllWork(SendAll(c, faults, stmts).faults)
    decreases |stmts|
  {
    if stmts != [] {
      var p := Send(c, faults, stmts[0]);
      SendAllWorks(p.conn, p.faults, stmts[1..]);
    }
  }

  lemma {:induction false} BeforeWorks(c: Connection, faults: seq<Fault>, file: File, k: nat)
    requires AllWork(faults)
    ensures AllWork(Before(c, faults, file, k).faults)
  {
    if k > 0 {
      BeforeWorks(c, faults, file, k - 1);
      var p := Before(c, faults, file, k - 1);
      SendAllWorks(p.conn, p.faults, Steps(file));
    }
  }

  /** Nothing but the server or the network keeps a new file from being applied. */
  lemma {:induction false} FirstAttemptWorks(c: Connection, faults: seq<Fault>, file: File)
    requires AllWork(faults) && c.tx.NoTransaction? && !c.committed.Tracks(file.name)
    ensures ErrorOf(c, faults, file, 0) == None
  {
    StepsApart(file);
    assert Before(c, faults, file, 0) == Progress(c, faults, None);
    SendWorks(c, faults, Begin);
    var begin := Send(c, faults, Begin);
    assert begin.conn.tx == Open(c.committed);
    SendWorks(begin.conn, begin.faults, SetLockTimeout);
    var timeout := Send(begin.conn, begin.faults, SetLockTimeout);
    LastStepsWork(timeout.conn, timeout.faults, file);
    var rest := Steps(file)[1..];
    assert SendAll(begin.conn, begin.faults, rest) == SendAll(timeout.conn, timeout.faults, LastSteps(file));
    assert SendAll(c, faults, Steps(file)) == SendAll(begin.conn, begin.faults, rest);
  }

  lemma {:induction false} LastStepsWork(c: Connection, faults: seq<Fault>, file: File)
    requires AllWork(faults) && c.tx == Open(c.committed) && !c.committed.Tracks(file.name)
    ensures SendAll(c, faults, LastSteps(file)).error == None
  {
    LastStepsApart(file);
    SendWorks(c, faults, RunSql(file));
    var run := Send(c, faults, RunSql(file));
    SendWorks(run.conn, run.faults, InsertRow(file));
    var insert := Send(run.conn, run.faults, InsertRow(file));
    SendWorks(insert.conn, insert.faults, Commit);
    OneStatement(insert.conn, insert.faults, Commit);
  }

  /** An error with one of the three SQLSTATEs that another attempt may get past. */
  predicate IsRetryable(error: Option<Option<string>>) {
    error.Some? && error.value.Some? && error.value.value in RETRYABLE_SQLSTATES
  }

  /** The client's session. `faults` scripts what happens to the statements still to be sent. */
  class Session {
    var conn: Connection
    var faults: seq<Fault>

    constructor (db: Db, script: seq<Fault>)
      ensures conn == Connection(db, NoTransaction) && faults == script
    {
      conn, faults := Connection(db, NoTransaction), script;
    }

    /** `client.query`; `None` when it resolves, the error's SQLSTATE when it rejects. */
    method Query(stmt: Statement) returns (error: Option<Option<string>>)
      modifies this
      ensures var fault := if old(faults) == [] then Works else old(faults)[0];
              Answer(conn, error) == RoundTrip(old(conn), stmt, fault)
      ensures faults == if old(faults) == [] then [] else old(faults)[1..]
    {
      var fault := if faults == [] then Works else faults[0];
      faults := if faults == [] then [] else faults[1..];
      var answer := RoundTrip(conn, stmt, fault);
      conn, error := answer.conn, answer.error;
    }
  }

  datatype RetryOptions = RetryOptions(maxAttempts: nat, baseDelay: nat, maxDelay: nat)
  {
    predicate Ok() { maxDelay >= baseDelay }
  }

  datatype Result =
    | Success(attempts: nat)
    | InvalidOptions
    | Failed(state: Option<string>)   // the error of the last attempt is rethrown
    | RollbackFailed                  // AggregateError
    | Exhausted                       // only with no attempts allowed

  function Power2(n: nat): (p: nat)
    ensures p >= 1
  {
    if n == 0 then 1 else 2 * Power2(n - 1)
  }

  function RetryDelay(failedAttempt: nat, o: RetryOptions): nat
    requires failedAttempt >= 1
  {
    if o.baseDelay == 0 || o.maxDelay == 0 then 0
    else
      var exponential := o.baseDelay * Power2(failedAttempt - 1);
      if exponential < o.maxDelay then exponential else o.maxDelay
  }

  /** Waits start at the base delay and double from one attempt to the next until they reach the cap. */
  lemma {:induction false} RetryDelaysGrow(k: nat, o: RetryOptions)
    requires k >= 1 && o.Ok()
    ensures o.baseDelay <= RetryDelay(k, o) <= o.maxDelay
    ensures RetryDelay(1, o) == o.baseDelay
    ensures var doubled := 2 * RetryDelay(k, o);
            RetryDelay(k + 1, o) == if doubled < o.maxDelay then doubled else o.maxDelay
    ensures RetryDelay(k, o) <= RetryDelay(k + 1, o)
  {
    var p := Power2(k - 1);
    assert Power2(k) == 2 * p;
    assert o.baseDelay * (2 * p) == 2 * (o.baseDelay * p);
    assert o.baseDelay * p >= o.baseDelay;
    assert Power2(0) == 1;
  }

  /** A transaction still open (its BEGIN was thought to have failed) has written nothing. */
  predicate Clean(c: Connection) {
    c.tx.Open? ==> c.tx.db == c.committed
  }

  lemma {:induction false} AppliedTracks(db: Db, f: File)
    ensures Applied(db, f).Tracks(f.name)
  {
    assert Applied(db, f).tracking[|db.tracking|].filename == f.name;
  }

  lemma {:induction false} AppliedDiffers(db: Db, f: File)
    ensures Applied(db, f) != db
  {
    assert |Applied(db, f).log| == |db.log| + 1;
  }

  /** Every wait came after an error with a retryable SQLSTATE, and was as long as the options say. */
  ghost predicate Waited(c: Connection, faults: seq<Fault>, file: File, o: RetryOptions, delays: seq<nat>) {
    forall k :: 0 <= k < |delays| ==> IsRetryable(ErrorOf(c, faults, file, k)) && delays[k] == RetryDelay(k + 1, o)
  }

  lemma {:induction false} WaitedMore(
    c: Connection, faults: seq<Fault>, file: File, o: RetryOptions, delays: seq<nat>)
    requires Waited(c, faults, file, o, delays) && IsRetryable(ErrorOf(c, faults, file, |delays|))
    ensures Waited(c, faults, file, o, delays + [RetryDelay(|delays| + 1, o)])
  {
  }

  /** `lost` records that some COMMIT took effect although the client was told it failed.
      Success means applied exactly once, with its tracking row, in this call; any other result
      leaves the committed state alone unless a COMMIT's reply was lost, and then the file is
      applied exactly once too: a retry runs into the UNIQUE filename and rolls back. There is a wait
      and another attempt after an error with a retryable SQLSTATE, as long as attempts are left, and
      after no other. */
  method ExecuteMigrationWithRetry(s: Session, file: File, options: RetryOptions)
    returns (r: Result, delays: seq<nat>, ghost lost: bool)
    requires Clean(s.conn)
    modifies s
    ensures r.Success? ==> !lost && !old(s.conn.committed).Tracks(file.name) && 1 <= r.attempts <= options.maxAttempts
    ensures lost ==> !old(s.conn.committed).Tracks(file.name)
    ensures s.conn.committed ==
            if r.Success? || lost then Applied(old(s.conn.committed), file) else old(s.conn.committed)
    ensures r.Success? ==> s.conn.tx.NoTransaction?
    ensures old(s.conn.committed).Tracks(file.name) ==> !r.Success? && !lost
    ensures r.InvalidOptions? <==> options.maxDelay < options.baseDelay
    ensures Waited(old(s.conn), old(s.faults), file, options, delays)
    ensures r.Success? ==> ErrorOf(old(s.conn), old(s.faults), file, |delays|).None? && r.attempts == |delays| + 1
    ensures r.Failed? ==>
      var error := ErrorOf(old(s.conn), old(s.faults), file, |delays|);
      error == Some(r.state) && (!IsRetryable(error) || |delays| + 1 == options.maxAttempts)
    ensures r.RollbackFailed? ==>
      && ErrorOf(old(s.conn), old(s.faults), file, |delays|).Some?
      && Before(old(s.conn), old(s.faults), file, |delays| + 1).error.Some?
    ensures r.Exhausted? ==> options.maxAttempts == 0
    ensures |delays| < options.maxAttempts || delays == []
    ensures r.Success? ==> s.faults == Before(old(s.conn), old(s.faults), file, |delays| + 1).faults
  {
    delays := [];
    lost := false;
    if !options.Ok() {
      return InvalidOptions, delays, lost;
    }
    ghost var c, script := s.conn, s.faults;
    var attempt := 1;
    while attempt <= options.maxAttempts
      invariant 1 <= attempt && |delays| == attempt - 1
      invariant attempt <= options.maxAttempts + 1 && (attempt > options.maxAttempts ==> options.maxAttempts == 0)
      invariant Standing(s, file, c, script, attempt - 1, lost)
      invariant Waited(c, script, file, options, delays)
    {
      var error, cleared;
      error, cleared, lost := MakeAttempt(s, file, c, script, attempt - 1, lost);
      if error.None? {
        return Success(attempt), delays, lost;
      }
      if !cleared {
        return RollbackFailed, delays, lost;
      }
      var state := error.value;
      if state.None? || state.value !in RETRYABLE_SQLSTATES || attempt >= options.maxAttempts {
        return Failed(state), delays, lost;
      }
      WaitedMore(c, script, file, options, delays);
      delays := delays + [RetryDelay(attempt, options)];
      attempt := attempt + 1;
    }
    r := Exhausted;
  }

  /** Where the session stands after `k` failed attempts; `lost` tells whether a COMMIT's reply was. */
  ghost predicate Standing(s: Session, file: File, c: Connection, script: seq<Fault>, k: nat, lost: bool)
    reads s
  {
    && Clean(s.conn) && (lost ==> !c.committed.Tracks(file.name))
    && s.conn.committed == (if lost then Applied(c.committed, file) else c.committed)
    && s.conn == Before(c, script, file, k).conn && s.faults == Before(c, script, file, k).faults
  }

  /** Attempt `k`, counted from 0. */
  method MakeAttempt(
    s: Session, file: File, ghost c: Connection, ghost script: seq<Fault>, ghost k: nat, ghost before: bool)
    returns (error: Option<Option<string>>, cleared: bool, ghost lost: bool)
    requires Standing(s, file, c, script, k, before)
    modifies s
    ensures error == ErrorOf(c, script, file, k)
    ensures cleared <==> Before(c, script, file, k + 1).error.None?
    ensures s.faults == Before(c, script, file, k + 1).faults
    ensures lost ==> !c.committed.Tracks(file.name)
    ensures error.None? ==>
      !lost && !c.committed.Tracks(file.name) && s.conn == Connection(Applied(c.committed, file), NoTransaction)
    ensures error.Some? ==> s.conn.committed == if lost then Applied(c.committed, file) else c.committed
    ensures error.Some? && cleared ==> Standing(s, file, c, script, k + 1, lost)
  {
    AppliedTracks(c.committed, file);
    NextAttempt(c, script, file, k);
    ghost var justLost;
    error, cleared, justLost := AttemptOrRollback(s, file);
    lost := before || justLost;
  }

  lemma {:induction false} NextAttempt(c: Connection, faults: seq<Fault>, file: File, k: nat)
    ensures var p := Before(c, faults, file, k);
      && Before(c, faults, file, k + 1) == Attempted(p.conn, p.faults, file)
      && ErrorOf(c, faults, file, k) == SendAll(p.conn, p.faults, Steps(file)).error
  {
  }

  /** One pass of the loop up to its decision: the `try` block and, after a failure, `rollbackOrThrow`. */
  method AttemptOrRollback(s: Session, file: File)
    returns (error: Option<Option<string>>, cleared: bool, ghost justLost: bool)
    requires Clean(s.conn)
    modifies s
    ensures error == SendAll(old(s.conn), old(s.faults), Steps(file)).error
    ensures Progress(s.conn, s.faults, Attempted(old(s.conn), old(s.faults), file).error)
         == Attempted(old(s.conn), old(s.faults), file)
    ensures cleared <==> Attempted(old(s.conn), old(s.faults), file).error.None?
    ensures error.None? ==> s.conn == Connection(Applied(old(s.conn.committed), file), NoTransaction) && !justLost
    ensures error.None? || justLost ==> !old(s.conn.committed).Tracks(file.name)
    ensures error.Some? ==>
      s.conn.committed == if justLost then Applied(old(s.conn.committed), file) else old(s.conn.committed)
    ensures error.Some? && cleared ==> Clean(s.conn)
  {
    AppliedDiffers(s.conn.committed, file);
    AttemptFacts(s.conn, s.faults, file);
    var started;
    error, started := RunAttempt(s, file);
    cleared, justLost := true, error.Some? && s.conn.committed != old(s.conn.committed);
    if error.Some? && started {
      var rollbackError := s.Query(Rollback);
      cleared := rollbackError.None?;
    }
  }

  /** One pass of the `try` block: BEGIN, lock timeout, the SQL, the tracking row, COMMIT. */
  method RunAttempt(s: Session, file: File) returns (error: Option<Option<string>>, started: bool)
    modifies s
    ensures Progress(s.conn, s.faults, error) == SendAll(old(s.conn), old(s.faults), Steps(file))
    ensures started <==> Send(old(s.conn), old(s.faults), Begin).error.None?
  {
    started := false;
    StepsApart(file);
    error := s.Query(Begin);
    if error.Some? { return; }
    started := true;
    error := s.Query(SetLockTimeout);
    if error.Some? { return; }
    error := RunAndRecord(s, file);
  }

  method RunAndRecord(s: Session, file: File) returns (error: Option<Option<string>>)
    modifies s
    ensures Progress(s.conn, s.faults, error) == SendAll(old(s.conn), old(s.faults), LastSteps(file))
  {
    LastStepsApart(file);
    error := s.Query(RunSql(file));
    if error.Some? { return; }
    error := s.Query(InsertRow(file));
    if error.Some? { return; }
    OneStatement(s.conn, s.faults, Commit);
    error := s.Query(Commit);
  }

  function LastSteps(file: File): seq<Statement> { [RunSql(file), InsertRow(file), Commit] }

  lemma {:induction false} StepsApart(file: File)
    ensures Steps(file)[0] == Begin && Steps(file)[1..][0] == SetLockTimeout
    ensures Steps(file)[1..][1..] == LastSteps(file)
  {
  }

  lemma {:induction false} LastStepsApart(file: File)
    ensures LastSteps(file)[1..] == [InsertRow(file), Commit] && [InsertRow(file), Commit][1..] == [Commit]
    ensures [Commit][1..] == []
  {
  }

  lemma {:induction false} OneStatement(c: Connection, faults: seq<Fault>, stmt: Statement)
    ensures SendAll(c, faults, [stmt]) == Send(c, faults, stmt)
  {
    assert [stmt][1..] == [];
  }

  /** What the statements of an attempt come to. */
  lemma {:induction false} AttemptFacts(c: Connection, faults: seq<Fault>, file: File)
    requires Clean(c)
    ensures
      var p := SendAll(c, faults, Steps(file));
      var applied := Connection(Applied(c.committed, file), NoTransaction);
      && (p.error.None? ==> p.conn == applied)
      && (p.error.Some? ==> p.conn.committed == c.committed || p.conn == applied)
      && (p.conn.committed == Applied(c.committed, file) ==>
            !c.committed.Tracks(file.name) && Send(c, faults, Begin).error.None?)
      && (Send(c, faults, Begin).error.Some? ==> Clean(p.conn))
  {
    StepsApart(file);
    var begin := Send(c, faults, Begin);
    if begin.error.None? {
      var timeout := Send(begin.conn, begin.faults, SetLockTimeout);
      if timeout.error.None? { LastStepsFacts(timeout.conn, timeout.faults, file); }
    }
  }

  lemma {:induction false} LastStepsFacts(c: Connection, faults: seq<Fault>, file: File)
    requires c.tx == Open(c.committed)
    ensures
      var p := SendAll(c, faults, LastSteps(file));
      var applied := Connection(Applied(c.committed, file), NoTransaction);
      && (p.error.None? ==> p.conn == applied)
      && (p.error.Some? ==> p.conn.committed == c.committed || p.conn == applied)
      && (p.conn.committed == Applied(c.committed, file) ==> !c.committed.Tracks(file.name))
  {
    LastStepsApart(file);
    var run := Send(c, faults, RunSql(file));
    if run.error.None? {
      assert run.conn.tx == Open(Db(c.committed.tracking, c.committed.log + [file]));
      var insert := Send(run.conn, run.faults, InsertRow(file));
      if insert.error.None? {
        assert insert.conn.tx == Open(Applied(c.committed, file));
        OneStatement(insert.conn, insert.faults, Commit);
      }
    }
  }
}
