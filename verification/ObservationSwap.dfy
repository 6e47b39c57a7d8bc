/** Rebuilding an append-only table beside its writers: copy without a lock, then delta and swap
    under one. */
module ObservationSwap {
  import opened Prelude

  // ---------------------------------------------------------- the KEEP predicate

  datatype Truth = True | False | Unknown

  function Not(a: Truth): Truth {
    match a case True => False case False => True case Unknown => Unknown
  }

  function And(a: Truth, b: Truth): Truth {
    if a == False || b == False then False else if a == Unknown || b == Unknown then Unknown else True
  }

  function Sure(b: bool): Truth { if b then True else False }

  /** A JSON value as `->>` shows it: JSON null reads as SQL NULL. */
  datatype Json = JsonNull | Json(text: string)

  type Fields = map<string, Json>

  datatype Row = Row(
    id: int,
    kind: Option<string>, changed: Option<Fields>,
    priorSource: Option<string>, currentSource: Option<string>,
    priorTriage: Option<string>, currentTriage: Option<string>)

  const CHURN_KEYS := {
    "priorFingerprint", "currentFingerprint",
    "priorSeverity", "currentSeverity",
    "priorProjectionVersion", "currentProjectionVersion"}

  /** `changed_fields->>key`. */
  function Text(r: Row, key: string): Option<string> {
    if r.changed.Some? && key in r.changed.value && r.changed.value[key].Json? then Some(r.changed.value[key].text)
    else None
  }

  /** `NOISE`, a conjunction in three-valued logic. `IS NOT DISTINCT FROM` is never unknown. */
  function Noise(r: Row): Truth {
    And(if r.kind.None? then Unknown else Sure(r.kind.value == "changed"),
    And(if r.changed.None? then Unknown else Sure("priorFingerprint" in r.changed.value),
    And(Sure(Text(r, "priorSeverity") == Text(r, "currentSeverity")),
    And(Sure(Text(r, "priorProjectionVersion") == Text(r, "currentProjectionVersion")),
    And(Sure(r.priorSource == r.currentSource),
    And(Sure(r.priorTriage == r.currentTriage),
        if r.changed.None? then Unknown else Sure(r.changed.value - CHURN_KEYS == map[])))))))
  }

  /** A row passes `WHERE NOT (NOISE)` only when the condition is true. */
  predicate Keep(r: Row) { Not(Noise(r)) == True }

  /** The row reports a move of something besides the fingerprint. */
  ghost predicate Reports(r: Row) {
    || r.priorSource != r.currentSource
    || r.priorTriage != r.currentTriage
    || Text(r, "priorSeverity") != Text(r, "currentSeverity")
    || Text(r, "priorProjectionVersion") != Text(r, "currentProjectionVersion")
    || (r.changed.Some? && exists key :: key in r.changed.value && key !in CHURN_KEYS)
  }

  /** With both columns filled in, exactly the rows that report nothing are thrown away. */
  lemma {:induction false} KeepExactly(r: Row)
    requires r.kind.Some? && r.changed.Some?
    ensures Keep(r) <==> Reports(r) || r.kind.value != "changed" || "priorFingerprint" !in r.changed.value
  {
    var rest := r.changed.value - CHURN_KEYS;
    assert forall key :: key in rest <==> key in r.changed.value && key !in CHURN_KEYS;
    if rest != map[] {
      var key :| key in rest;
    }
  }

  /** With a NULL in either column a row can be lost although NOISE does not hold of it: exactly
      when nothing else about it settles the matter. */
  lemma {:induction false} LostToNull(r: Row)
    ensures !Keep(r) && Noise(r) != True <==>
              && (r.kind.None? || r.changed.None?)
              && !Reports(r)
              && (r.kind.Some? ==> r.kind.value == "changed")
              && (r.changed.Some? ==> "priorFingerprint" in r.changed.value)
  {
    if r.changed.Some? {
      KeepExactly(r.(kind := Some("changed")));
      KeepExactly(r.(kind := Some("")));
      assert forall key :: Text(r.(kind := Some("changed")), key) == Text(r, key);
    }
  }

  // ---------------------------------------------------------- the table and its writers

  /** The live table: rows others can see, in the order they became visible; rows of writers that
      have drawn an id but not committed; and the next id the sequence hands out. */
  datatype Log = Log(rows: seq<Row>, inFlight: seq<Row>, next: int)

  datatype Write = Begin(row: Row) | Commit(k: nat) | Abort(k: nat)

  function Apply(log: Log, w: Write): Log {
    match w
    case Begin(row) => Log(log.rows, log.inFlight + [row.(id := log.next)], log.next + 1)
    case Commit(k) =>
      if k < |log.inFlight|
      then Log(log.rows + [log.inFlight[k]], log.inFlight[..k] + log.inFlight[k + 1..], log.next) else log
    case Abort(k) =>
      if k < |log.inFlight| then Log(log.rows, log.inFlight[..k] + log.inFlight[k + 1..], log.next) else log
  }

  function ApplyAll(log: Log, ws: seq<Write>): Log {
    if ws == [] then log else Apply(ApplyAll(log, ws[..|ws| - 1]), ws[|ws| - 1])
  }

  ghost predicate DistinctIds(rows: seq<Row>) {
    forall i, j :: 0 <= i < j < |rows| ==> rows[i].id != rows[j].id
  }

  /** Ids are positive, drawn from the sequence, and never shared. */
  ghost predicate Sound(log: Log) {
    && DistinctIds(log.rows) && DistinctIds(log.inFlight)
    && (forall r, q :: r in log.rows && q in log.inFlight ==> r.id != q.id)
    && (forall r :: r in log.rows ==> 0 < r.id < log.next)
    && (forall r :: r in log.inFlight ==> 0 < r.id < log.next)
    && 0 < log.next
  }

  lemma {:induction false} ApplyKeepsSound(log: Log, w: Write)
    requires Sound(log)
    ensures Sound(Apply(log, w))
  {
    if !w.Begin? && w.k < |log.inFlight| {
      Without(log.inFlight, w.k);
    }
  }

  lemma {:induction false} Without(rows: seq<Row>, k: nat)
    requires k < |rows| && DistinctIds(rows)
    ensures var others := rows[..k] + rows[k + 1..];
      && DistinctIds(others) && (forall r :: r in others ==> r in rows && r.id != rows[k].id) && rows[k] in rows
  {
    var others := rows[..k] + rows[k + 1..];
    assert forall i :: 0 <= i < |others| ==> others[i] == rows[if i < k then i else i + 1];
  }

  /** What writers can do to the log: append rows that were in flight or whose ids are new. */
  ghost predicate Grows(a: Log, b: Log) {
    && a.rows <= b.rows && a.next <= b.next
    && (forall i :: |a.rows| <= i < |b.rows| ==> b.rows[i] in a.inFlight || b.rows[i].id >= a.next)
    && (forall r :: r in b.inFlight ==> r in a.inFlight || r.id >= a.next)
  }

  lemma {:induction false} WritersGrow(log: Log, ws: seq<Write>)
    requires Sound(log)
    ensures Sound(ApplyAll(log, ws)) && Grows(log, ApplyAll(log, ws))
  {
    if ws != [] {
      WritersGrow(log, ws[..|ws| - 1]);
      ApplyKeepsSound(ApplyAll(log, ws[..|ws| - 1]), ws[|ws| - 1]);
    }
  }

  /** A row whose writer gives up is never seen, whatever happens next. */
  lemma {:induction false} AbortedIsNeverSeen(log: Log, k: nat, ws: seq<Write>)
    requires Sound(log) && k < |log.inFlight|
    ensures forall r :: r in ApplyAll(Apply(log, Abort(k)), ws).rows ==> r.id != log.inFlight[k].id
  {
    var row, after := log.inFlight[k], Apply(log, Abort(k));
    var later := ApplyAll(after, ws);
    ApplyKeepsSound(log, Abort(k));
    Without(log.inFlight, k);
    WritersGrow(after, ws);
    forall i | 0 <= i < |later.rows| ensures later.rows[i].id != row.id {
      if i < |after.rows| { assert later.rows[i] == after.rows[i] && after.rows[i] in log.rows; }
    }
  }

  // ---------------------------------------------------------- survey, copy, delta, swap

  function MaxId(rows: seq<Row>): (m: int)
    ensures m >= 0
    ensures forall r :: r in rows ==> r.id <= m
    ensures m == 0 || exists r :: r in rows && r.id == m
  {
    if rows == [] then 0
    else
      var m := MaxId(rows[1..]);
      assert forall r :: r in rows ==> r == rows[0] || r in rows[1..];
      if rows[0].id > m then rows[0].id else m
  }

  datatype Survey = Survey(total: nat, keep: nat, maxId: int)

  function SurveyOf(rows: seq<Row>): Survey {
    Survey(|rows|, |Filter(Keep, rows)|, MaxId(rows))
  }

  function KeptUpTo(m: int): Row -> bool { r => Keep(r) && r.id <= m }

  function KeptAbove(m: int): Row -> bool { r => Keep(r) && r.id > m }

  /** The rows of the new table: copied at one moment, topped up at another. */
  function SwappedRows(m: int, atCopy: seq<Row>, atLock: seq<Row>): seq<Row> {
    Filter(KeptUpTo(m), atCopy) + Filter(KeptAbove(m), atLock)
  }

  /** The live log after the swap. */
  function Swapped(m: int, atCopy: seq<Row>, atLock: seq<Row>): Log {
    Log(SwappedRows(m, atCopy, atLock), [], MaxId(atLock) + 1)
  }

  /** Rows neither statement sees: visible only after the copy, yet with a surveyed-range id. */
  function Stragglers(m: int, atCopy: seq<Row>, atLock: seq<Row>): seq<Row>
    requires atCopy <= atLock
  {
    Filter(KeptUpTo(m), atLock[|atCopy|..])
  }

  lemma {:induction false} FilterSplit(m: int, rows: seq<Row>)
    ensures multiset(Filter(KeptUpTo(m), rows)) + multiset(Filter(KeptAbove(m), rows)) == multiset(Filter(Keep, rows))
  {
    if rows != [] {
      FilterSplit(m, rows[1..]);
    }
  }

  /** Every KEEP row of the old table is either in the new one, once, or a straggler. */
  lemma {:induction false} NothingElseIsLost(m: int, atCopy: seq<Row>, atLock: seq<Row>)
    requires atCopy <= atLock
    ensures multiset(SwappedRows(m, atCopy, atLock)) + multiset(Stragglers(m, atCopy, atLock))
         == multiset(Filter(Keep, atLock))
  {
    FilterConcat(KeptUpTo(m), atCopy, atLock[|atCopy|..]);
    assert atCopy + atLock[|atCopy|..] == atLock;
    FilterSplit(m, atLock);
  }

  ghost predicate Exact(m: int, atCopy: seq<Row>, atLock: seq<Row>) {
    multiset(SwappedRows(m, atCopy, atLock)) == multiset(Filter(Keep, atLock))
  }

  lemma {:induction false} ExactIffNoneLost(m: int, atCopy: seq<Row>, atLock: seq<Row>)
    requires atCopy <= atLock
    ensures Exact(m, atCopy, atLock) <==> Stragglers(m, atCopy, atLock) == []
  {
    NothingElseIsLost(m, atCopy, atLock);
    var lost := Stragglers(m, atCopy, atLock);
    if lost != [] {
      assert lost[0] in multiset(lost);
      assert |multiset(lost)| > 0;
    }
  }

  /** The new table is the KEEP rows of the old one, each once, if and only if no KEEP row with an
      id in the surveyed range became visible after the copy. */
  lemma {:induction false} ExactWithoutStragglers(m: int, atCopy: seq<Row>, atLock: seq<Row>)
    requires atCopy <= atLock
    ensures Exact(m, atCopy, atLock) <==>
              forall i :: |atCopy| <= i < |atLock| && Keep(atLock[i]) ==> atLock[i].id > m
  {
    var late, lost := atLock[|atCopy|..], Stragglers(m, atCopy, atLock);
    ExactIffNoneLost(m, atCopy, atLock);
    forall i | |atCopy| <= i < |atLock| && Keep(atLock[i]) && atLock[i].id <= m ensures atLock[i] in lost {
      assert late[i - |atCopy|] == atLock[i];
    }
    if lost != [] {
      assert lost[0] in late;
      var j :| 0 <= j < |late| && late[j] == lost[0];
      assert atLock[|atCopy| + j] == lost[0];
    }
  }

  /** The same before the run: whatever the writers go on to do, as long as the lock is granted
      in the end, nothing is lost - if and only if, at the survey, no writer in flight holds a KEEP
      row with an id below one that is already visible. */
  ghost predicate AlwaysExact(log: Log) {
    forall beforeCopy, beforeLock :: LockGranted(log, beforeCopy, beforeLock) ==> ExactRun(log, beforeCopy, beforeLock)
  }

  /** The exclusive lock waits for every writer in flight. */
  ghost predicate LockGranted(log: Log, beforeCopy: seq<Write>, beforeLock: seq<Write>) {
    ApplyAll(ApplyAll(log, beforeCopy), beforeLock).inFlight == []
  }

  ghost predicate ExactRun(log: Log, beforeCopy: seq<Write>, beforeLock: seq<Write>) {
    var atCopy := ApplyAll(log, beforeCopy);
    Exact(MaxId(log.rows), atCopy.rows, ApplyAll(atCopy, beforeLock).rows)
  }

  ghost predicate NoneBelow(inFlight: seq<Row>, m: int) {
    forall k :: 0 <= k < |inFlight| && Keep(inFlight[k]) ==> inFlight[k].id > m
  }

  lemma {:induction false} AlwaysExactIff(log: Log)
    requires Sound(log)
    ensures AlwaysExact(log) <==> NoneBelow(log.inFlight, MaxId(log.rows))
  {
    if NoneBelow(log.inFlight, MaxId(log.rows)) {
      forall beforeCopy, beforeLock ensures ExactRun(log, beforeCopy, beforeLock) {
        LateRowsAreNew(log, beforeCopy, beforeLock);
      }
    } else {
      SomeRunLoses(log);
    }
  }

  lemma {:induction false} SomeRunLoses(log: Log)
    requires !NoneBelow(log.inFlight, MaxId(log.rows))
    ensures !AlwaysExact(log)
  {
    var k :| 0 <= k < |log.inFlight| && Keep(log.inFlight[k]) && log.inFlight[k].id <= MaxId(log.rows);
    LateCommitIsLost(log, k);
  }

  /** The schedule that loses a row: everything in flight commits between the copy and the lock. */
  lemma {:induction false} LateCommitIsLost(log: Log, k: nat)
    requires k < |log.inFlight| && Keep(log.inFlight[k]) && log.inFlight[k].id <= MaxId(log.rows)
    ensures var beforeLock := seq(|log.inFlight|, _ => Commit(0));
            LockGranted(log, [], beforeLock) && !ExactRun(log, [], beforeLock)
  {
    CommitAll(log);
    assert ApplyAll(log, []) == log;
    LateRowIsLost(MaxId(log.rows), log.rows, log.inFlight, k);
  }

  lemma {:induction false} LateRowIsLost(m: int, rows: seq<Row>, late: seq<Row>, k: nat)
    requires k < |late| && Keep(late[k]) && late[k].id <= m
    ensures !Exact(m, rows, rows + late)
  {
    ExactWithoutStragglers(m, rows, rows + late);
    assert (rows + late)[|rows| + k] == late[k];
  }

  lemma {:induction false} LateRowsAreNew(log: Log, beforeCopy: seq<Write>, beforeLock: seq<Write>)
    requires Sound(log)
    requires NoneBelow(log.inFlight, MaxId(log.rows))
    ensures ExactRun(log, beforeCopy, beforeLock)
  {
    var atCopy := ApplyAll(log, beforeCopy);
    var atLock := ApplyAll(atCopy, beforeLock);
    WritersGrow(log, beforeCopy);
    WritersGrow(atCopy, beforeLock);
    SurveyedBelowNext(log);
    ExactWithoutStragglers(MaxId(log.rows), atCopy.rows, atLock.rows);
  }

  lemma {:induction false} SurveyedBelowNext(log: Log)
    requires Sound(log)
    ensures MaxId(log.rows) < log.next
  {
    if MaxId(log.rows) != 0 {
      var r :| r in log.rows && r.id == MaxId(log.rows);
    }
  }

  lemma {:induction false} CommitAll(log: Log)
    ensures ApplyAll(log, seq(|log.inFlight|, _ => Commit(0))) == Log(log.rows + log.inFlight, [], log.next)
  {
    CommitSome(log, |log.inFlight|);
    assert log.inFlight[..|log.inFlight|] == log.inFlight;
  }

  lemma {:induction false} CommitSome(log: Log, n: nat)
    requires n <= |log.inFlight|
    ensures ApplyAll(log, seq(n, _ => Commit(0))) == Log(log.rows + log.inFlight[..n], log.inFlight[n..], log.next)
  {
    var ws := seq(n, _ => Commit(0));
    if n > 0 {
      CommitSome(log, n - 1);
      assert ws[..n - 1] == seq(n - 1, _ => Commit(0));
      assert log.inFlight[..n] == log.inFlight[..n - 1] + [log.inFlight[n - 1]];
    }
  }

  /** The swapped table is sound: ids stay unique, and later inserts continue above every id the
      old table ever showed. */
  lemma {:induction false} SwapKeepsSound(log: Log, beforeLock: seq<Write>, m: int)
    requires Sound(log)
    ensures var atLock := ApplyAll(log, beforeLock);
      && Sound(Swapped(m, log.rows, atLock.rows))
      && forall r :: r in atLock.rows ==> r.id < Swapped(m, log.rows, atLock.rows).next
  {
    WritersGrow(log, beforeLock);
    var atLock := ApplyAll(log, beforeLock);
    var s := SwappedRows(m, log.rows, atLock.rows);
    FilterDistinct(KeptUpTo(m), log.rows);
    FilterDistinct(KeptAbove(m), atLock.rows);
    forall r | r in s ensures r in atLock.rows {
      if r in log.rows { assert r in atLock.rows[..|log.rows|]; }
    }
    assert s + [] == s;
    forall i, j | 0 <= i < j < |s| ensures s[i].id != s[j].id {
      DistinctAcross(m, log.rows, atLock.rows, i, j);
    }
  }

  lemma {:induction false} FilterDistinct(p: Row -> bool, rows: seq<Row>)
    requires DistinctIds(rows)
    ensures DistinctIds(Filter(p, rows))
  {
    if rows != [] {
      FilterDistinct(p, rows[1..]);
      var rest := Filter(p, rows[1..]);
      forall j | 0 <= j < |rest| ensures rest[j].id != rows[0].id {
        assert rest[j] in rows[1..];
      }
    }
  }

  lemma {:induction false} DistinctAcross(m: int, atCopy: seq<Row>, atLock: seq<Row>, i: nat, j: nat)
    requires i < j < |SwappedRows(m, atCopy, atLock)|
    requires DistinctIds(Filter(KeptUpTo(m), atCopy)) && DistinctIds(Filter(KeptAbove(m), atLock))
    ensures SwappedRows(m, atCopy, atLock)[i].id != SwappedRows(m, atCopy, atLock)[j].id
  {
    var a, b := Filter(KeptUpTo(m), atCopy), Filter(KeptAbove(m), atLock);
    if i < |a| <= j {
      assert a[i] in a && b[j - |a|] in b;
    }
  }

  /** The new table holds only KEEP rows, so a survey of it finds nothing more to discard, and it
      holds at least the rows the first survey promised: step 5 cannot fail. */
  lemma {:induction false} SwappedSurvey(log: Log, beforeCopy: seq<Write>, beforeLock: seq<Write>)
    requires Sound(log)
    ensures var atCopy := ApplyAll(log, beforeCopy);
            var atLock := ApplyAll(atCopy, beforeLock);
            var after := SurveyOf(SwappedRows(MaxId(log.rows), atCopy.rows, atLock.rows));
            after.keep == after.total >= SurveyOf(log.rows).keep
  {
    WritersGrow(log, beforeCopy);
    var atCopy := ApplyAll(log, beforeCopy);
    SurveyAfter(MaxId(log.rows), log.rows, atCopy.rows, ApplyAll(atCopy, beforeLock).rows);
  }

  lemma {:induction false} SurveyAfter(m: int, surveyed: seq<Row>, atCopy: seq<Row>, atLock: seq<Row>)
    requires surveyed <= atCopy && forall r :: r in surveyed ==> r.id <= m
    ensures var after := SurveyOf(SwappedRows(m, atCopy, atLock));
            after.keep == after.total >= SurveyOf(surveyed).keep
  {
    FilterConcat(KeptUpTo(m), surveyed, atCopy[|surveyed|..]);
    assert surveyed + atCopy[|surveyed|..] == atCopy;
    FilterSame(KeptUpTo(m), Keep, surveyed);
    FilterAll(Keep, SwappedRows(m, atCopy, atLock));
  }

  lemma {:induction false} FilterSame(p: Row -> bool, q: Row -> bool, rows: seq<Row>)
    requires forall r :: r in rows ==> p(r) == q(r)
    ensures Filter(p, rows) == Filter(q, rows)
  {
    if rows != [] { FilterSame(p, q, rows[1..]); }
  }

  lemma {:induction false} FilterAll(p: Row -> bool, rows: seq<Row>)
    requires forall r :: r in rows ==> p(r)
    ensures Filter(p, rows) == rows
  {
    if rows != [] { FilterAll(p, rows[1..]); }
  }
}
