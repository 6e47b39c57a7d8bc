/** The backfill as a program: the paging loop, and one transaction per batch. */
module OmsLinkRun {
  import opened Prelude
  import opened Text
  import opened OmsLinkBackfill

  /** What becomes of a batch's transaction. */
  datatype Fault = Works | Fails | ReplyLost

  datatype Stats = Stats(
    scanned: nat, matched: nat, orphans: nat, ambiguous: nat, skipped: nat, errors: nat, updated: nat)

  const NO_STATS := Stats(0, 0, 0, 0, 0, 0, 0)

  function Counted(t: Stats, v: Verdict): Stats {
    var u := t.(scanned := t.scanned + 1);
    match v
    case Skipped => u.(skipped := u.skipped + 1)
    case LookupError => u.(errors := u.errors + 1)
    case Orphan => u.(orphans := u.orphans + 1)
    case Ambiguous => u.(ambiguous := u.ambiguous + 1)
    case Match(_) => u.(matched := u.matched + 1)
  }

  function Add(a: Stats, b: Stats): Stats {
    Stats(a.scanned + b.scanned, a.matched + b.matched, a.orphans + b.orphans, a.ambiguous + b.ambiguous,
          a.skipped + b.skipped, a.errors + b.errors, a.updated + b.updated)
  }

  datatype Plan = Plan(wmsId: int, guard: Option<string>, omsId: nat)

  predicate Hits(r: WmsRow, plan: Plan) { r.id == plan.wmsId && r.link == plan.guard }

  /** The guarded `UPDATE` and the number of rows it returns. */
  function Updated(t: seq<WmsRow>, plan: Plan): seq<WmsRow> {
    seq(|t|, k requires 0 <= k < |t| => if Hits(t[k], plan) then t[k].(link := Some(Decimal(plan.omsId))) else t[k])
  }

  /** A row that no longer says what the lookup went by is not touched, and nothing but the link of the
      row that does. */
  lemma {:induction false} GuardHolds(t: seq<WmsRow>, plan: Plan, k: nat)
    requires k < |t|
    ensures Updated(t, plan)[k].(link := t[k].link) == t[k]
    ensures t[k].id != plan.wmsId || t[k].link != plan.guard ==> Updated(t, plan)[k] == t[k]
    ensures t[k].id == plan.wmsId && t[k].link == plan.guard ==> Updated(t, plan)[k].link == Some(Decimal(plan.omsId))
    ensures (forall r :: r in t && r.id == plan.wmsId ==> r.link != plan.guard) ==> Affected(t, plan) == 0
  {
    if forall r :: r in t && r.id == plan.wmsId ==> r.link != plan.guard { NoneAffected(t, plan); }
  }

  lemma {:induction false} NoneAffected(t: seq<WmsRow>, plan: Plan)
    requires forall r :: r in t && r.id == plan.wmsId ==> r.link != plan.guard
    ensures Affected(t, plan) == 0
  {
    if t != [] { NoneAffected(t[1..], plan); }
  }

  function Affected(t: seq<WmsRow>, plan: Plan): nat { Count((r: WmsRow) => Hits(r, plan), t) }

  function Staged(t: seq<WmsRow>, plans: seq<Plan>): seq<WmsRow> {
    if plans == [] then t else Updated(Staged(t, plans[..|plans| - 1]), plans[|plans| - 1])
  }

  /** The rows are in the table. */
  ghost predicate Inside(rows: seq<WmsRow>, t: seq<WmsRow>) { forall r :: r in rows ==> r in t }

  // ---------------------------------------------------------- one batch

  function VerdictStats(rows: seq<WmsRow>, s: Setting): Stats {
    if rows == [] then NO_STATS
    else Counted(VerdictStats(rows[..|rows| - 1], s), Decide(rows[|rows| - 1], s))
  }

  function Plans(rows: seq<WmsRow>, s: Setting): seq<Plan> {
    if rows == [] then []
    else
      var r := rows[|rows| - 1];
      var v := Decide(r, s);
      Plans(rows[..|rows| - 1], s) + (if v.Match? then [Plan(r.id, r.link, v.omsId)] else [])
  }

  function BatchStats(rows: seq<WmsRow>, s: Setting, execute: bool, fault: Fault): Stats {
    var t := VerdictStats(rows, s);
    if !execute || t.matched == 0 then t
    else if fault == Works then t.(updated := t.matched)
    else t.(errors := t.errors + 1)
  }

  lemma {:induction false} PlansCount(rows: seq<WmsRow>, s: Setting)
    ensures |Plans(rows, s)| == VerdictStats(rows, s).matched
    ensures Plans(rows, s) == [] ==> LinksOf(rows, s) == map[]
  {
    if rows != [] { PlansCount(rows[..|rows| - 1], s); }
  }

  /** Every plan is for one of the rows, and no two are for the same. */
  lemma {:induction false} PlansFacts(rows: seq<WmsRow>, s: Setting)
    requires Keyed(rows)
    ensures forall n :: 0 <= n < |Plans(rows, s)| ==> IsFor(Plans(rows, s)[n], rows)
    ensures forall n, m :: 0 <= n < m < |Plans(rows, s)| ==> Plans(rows, s)[n].wmsId < Plans(rows, s)[m].wmsId
  {
    if rows != [] {
      var before, r := rows[..|rows| - 1], rows[|rows| - 1];
      var plans := Plans(before, s);
      PlansFacts(before, s);
      forall n | 0 <= n < |plans| ensures IsFor(plans[n], rows) && plans[n].wmsId < r.id {
        var k :| 0 <= k < |before| && plans[n].wmsId == before[k].id && plans[n].guard == before[k].link;
        assert before[k] == rows[k];
      }
      PlansSnoc(plans, rows, r, s);
    }
  }

  ghost predicate IsFor(plan: Plan, rows: seq<WmsRow>) {
    exists k :: 0 <= k < |rows| && plan.wmsId == rows[k].id && plan.guard == rows[k].link
  }

  lemma {:induction false} PlansSnoc(plans: seq<Plan>, rows: seq<WmsRow>, r: WmsRow, s: Setting)
    requires rows != [] && r == rows[|rows| - 1] && plans == Plans(rows[..|rows| - 1], s)
    requires forall n :: 0 <= n < |plans| ==> IsFor(plans[n], rows) && plans[n].wmsId < r.id
    requires forall n, m :: 0 <= n < m < |plans| ==> plans[n].wmsId < plans[m].wmsId
    ensures forall n :: 0 <= n < |Plans(rows, s)| ==> IsFor(Plans(rows, s)[n], rows)
    ensures forall n, m :: 0 <= n < m < |Plans(rows, s)| ==> Plans(rows, s)[n].wmsId < Plans(rows, s)[m].wmsId
  {
    var v := Decide(r, s);
    var last := if v.Match? then [Plan(r.id, r.link, v.omsId)] else [];
    assert Plans(rows, s) == plans + last;
    assert last != [] ==> IsFor(last[0], rows);
  }

  lemma {:induction false} StagedRow(t: seq<WmsRow>, plans: seq<Plan>, k: nat)
    requires k < |t|
    ensures |Staged(t, plans)| == |t| && Staged(t, plans)[k].id == t[k].id
    ensures (forall n :: 0 <= n < |plans| ==> plans[n].wmsId != t[k].id) ==> Staged(t, plans)[k] == t[k]
  {
    if plans != [] {
      StagedRow(t, plans[..|plans| - 1], k);
    }
  }

  lemma {:induction false} CountOne(p: WmsRow -> bool, t: seq<WmsRow>, k: nat)
    requires k < |t| && forall j :: 0 <= j < |t| ==> (p(t[j]) <==> j == k)
    ensures Count(p, t) == 1
  {
    if k == 0 {
      CountNone(p, t[1..]);
    } else {
      CountOne(p, t[1..], k - 1);
    }
  }

  lemma {:induction false} CountNone(p: WmsRow -> bool, t: seq<WmsRow>)
    requires forall j :: 0 <= j < |t| ==> !p(t[j])
    ensures Count(p, t) == 0
  {
    if t != [] { CountNone(p, t[1..]); }
  }

  /** Nothing else writes, so each guarded update hits its one row. */
  lemma {:induction false} PlanHitsOnce(t: seq<WmsRow>, rows: seq<WmsRow>, s: Setting, n: nat)
    requires Keyed(t) && Keyed(rows) && Inside(rows, t) && n < |Plans(rows, s)|
    ensures Affected(Staged(t, Plans(rows, s)[..n]), Plans(rows, s)[n]) == 1
  {
    PlansFacts(rows, s);
    var plans := Plans(rows, s);
    assert IsFor(plans[n], rows);
    var q :| 0 <= q < |rows| && plans[n].wmsId == rows[q].id && plans[n].guard == rows[q].link;
    assert rows[q] in t;
    var k :| 0 <= k < |t| && t[k] == rows[q];
    var staged := Staged(t, plans[..n]);
    StagedRow(t, plans[..n], k);
    forall j | 0 <= j < |staged| ensures Hits(staged[j], plans[n]) <==> j == k {
      StagedRow(t, plans[..n], j);
    }
    CountOne((r: WmsRow) => Hits(r, plans[n]), staged, k);
  }

  lemma {:induction false} StagedIsRelink(t: seq<WmsRow>, rows: seq<WmsRow>, s: Setting)
    requires Keyed(t) && Keyed(rows) && Inside(rows, t)
    ensures Staged(t, Plans(rows, s)) == Relink(t, LinksOf(rows, s))
  {
    if rows != [] {
      var before, r := rows[..|rows| - 1], rows[|rows| - 1];
      StagedIsRelink(t, before, s);
      LinksOfDomain(before, s);
      if Decide(r, s).Match? {
        var plans := Plans(rows, s);
        assert plans[..|plans| - 1] == Plans(before, s);
        assert r in t;
        var k :| 0 <= k < |t| && t[k] == r;
        assert forall j :: 0 <= j < |t| && j != k ==> t[j].id != r.id;
        assert r.id !in LinksOf(before, s);
      } else {
        assert Plans(rows, s) == Plans(before, s);
      }
    }
  }

  // ---------------------------------------------------------- a whole path, in batches

  function FaultAt(faults: seq<Fault>, b: nat): Fault { if b < |faults| then faults[b] else Works }

  /** How many candidates a run gets to. */
  function Reach(candidates: nat, limit: Option<nat>): nat {
    if limit.Some? && limit.value < candidates then limit.value else candidates
  }

  function PageSize(limit: Option<nat>, scanned: nat, batchSize: nat): nat
    requires limit.Some? ==> scanned < limit.value
  {
    if limit.Some? then Cap(limit.value - scanned, batchSize) else batchSize
  }

  /** A page that is not full ends the run, and so does one that meets the limit. */
  lemma {:induction false} PageSizes(total: nat, limit: Option<nat>, n: nat, size: nat, batchSize: nat)
    requires batchSize > 0 && (limit.Some? ==> n < limit.value) && n <= Reach(total, limit)
    requires size == PageSize(limit, n, batchSize)
    ensures 0 < size <= batchSize
    ensures var read := Cap(size, total - n);
      && n + read <= Reach(total, limit)
      && (read < size ==> n + read == Reach(total, limit))
      && (n + read < Reach(total, limit) ==> read == batchSize)
  {
  }

  /** The candidates in `b` full batches. */
  function FullBatches(b: nat, size: nat): nat { if b == 0 then 0 else FullBatches(b - 1, size) + size }

  function Cap(x: nat, n: nat): nat { if x < n then x else n }

  /** The `b`-th batch of the first `n` candidates. */
  function Batch(c: seq<WmsRow>, n: nat, b: nat, size: nat): seq<WmsRow>
    requires n <= |c|
  {
    c[Cap(FullBatches(b, size), n)..Cap(FullBatches(b + 1, size), n)]
  }

  /** How a run is configured, and what happens to its transactions. */
  datatype Run = Run(execute: bool, batchSize: nat, faults: seq<Fault>)

  function LinksWritten(c: seq<WmsRow>, n: nat, b: nat, s: Setting, run: Run): Links
    requires n <= |c|
  {
    if b == 0 then map[]
    else
      LinksWritten(c, n, b - 1, s, run)
      + (if run.execute && FaultAt(run.faults, b - 1) != Fails then LinksOf(Batch(c, n, b - 1, run.batchSize), s)
         else map[])
  }

  function RunStats(c: seq<WmsRow>, n: nat, b: nat, s: Setting, run: Run): Stats
    requires n <= |c|
  {
    if b == 0 then NO_STATS
    else Add(RunStats(c, n, b - 1, s, run),
             BatchStats(Batch(c, n, b - 1, run.batchSize), s, run.execute, FaultAt(run.faults, b - 1)))
  }

  lemma {:induction false} FullBatchesGrow(b: nat, d: nat, size: nat)
    requires b <= d
    ensures FullBatches(b, size) <= FullBatches(d, size)
  {
    if b < d { FullBatchesGrow(b, d - 1, size); }
  }

  /** Reading on does not change what the full batches did. */
  lemma {:induction false} EarlierBatches(c: seq<WmsRow>, n: nat, m: nat, b: nat, s: Setting, run: Run)
    requires FullBatches(b, run.batchSize) <= n <= m <= |c|
    ensures LinksWritten(c, m, b, s, run) == LinksWritten(c, n, b, s, run)
    ensures RunStats(c, m, b, s, run) == RunStats(c, n, b, s, run)
  {
    if b > 0 {
      EarlierBatches(c, n, m, b - 1, s, run);
      SameBatch(c, n, m, b - 1, run.batchSize);
    }
  }

  lemma {:induction false} SameBatch(c: seq<WmsRow>, n: nat, m: nat, b: nat, size: nat)
    requires FullBatches(b + 1, size) <= n <= m <= |c|
    ensures Batch(c, m, b, size) == Batch(c, n, b, size)
  {
  }

  /** One more batch. */
  lemma {:induction false} NextBatch(c: seq<WmsRow>, m: nat, b: nat, s: Setting, run: Run)
    requires var n := FullBatches(b, run.batchSize); n <= m <= |c| && m <= n + run.batchSize
    ensures var n := FullBatches(b, run.batchSize);
      && LinksWritten(c, m, b + 1, s, run)
         == LinksWritten(c, n, b, s, run)
            + (if run.execute && FaultAt(run.faults, b) != Fails then LinksOf(c[n..m], s) else map[])
      && RunStats(c, m, b + 1, s, run)
         == Add(RunStats(c, n, b, s, run), BatchStats(c[n..m], s, run.execute, FaultAt(run.faults, b)))
  {
    EarlierBatches(c, FullBatches(b, run.batchSize), m, b, s, run);
  }

  lemma {:induction false} WrittenBelow(c: seq<WmsRow>, n: nat, b: nat, s: Setting, run: Run)
    requires Keyed(c) && n <= |c|
    ensures forall id :: id in LinksWritten(c, n, b, s, run) ==>
              id <= LastSeen(c, Cap(FullBatches(b, run.batchSize), n))
  {
    if b > 0 {
      WrittenBelow(c, n, b - 1, s, run);
      BatchBetween(c, Cap(FullBatches(b - 1, run.batchSize), n), Cap(FullBatches(b, run.batchSize), n), s);
    }
  }

  lemma {:induction false} BatchBetween(c: seq<WmsRow>, lo: nat, hi: nat, s: Setting)
    requires Keyed(c) && lo <= hi <= |c|
    ensures LastSeen(c, lo) <= LastSeen(c, hi)
    ensures forall id :: id in LinksOf(c[lo..hi], s) ==> LastSeen(c, lo) < id <= LastSeen(c, hi)
  {
    LinksOfDomain(c[lo..hi], s);
    assert forall q :: 0 <= q < hi - lo ==> c[lo..hi][q] == c[lo + q];
  }

  lemma {:induction false} RelinkAbove(t: seq<WmsRow>, m: Links, p: Path, last: int)
    requires forall id :: id in m ==> id <= last
    ensures Above(Candidates(p, Relink(t, m)), last) == Above(Candidates(p, t), last)
  {
    if t != [] {
      RelinkAbove(t[1..], m, p, last);
      var r := Relink(t, m)[0];
      assert Relink(t, m)[1..] == Relink(t[1..], m);
      assert r.id == t[0].id && (r.id > last ==> r == t[0]);
      CandidatesFirst(p, Relink(t, m), last);
      CandidatesFirst(p, t, last);
    }
  }

  lemma {:induction false} CandidatesFirst(p: Path, t: seq<WmsRow>, last: int)
    requires t != []
    ensures Above(Candidates(p, t), last)
         == (if IsCandidate(p, t[0]) && t[0].id > last then [t[0]] else []) + Above(Candidates(p, t[1..]), last)
  {
    var rest := Candidates(p, t[1..]);
    if IsCandidate(p, t[0]) {
      assert Candidates(p, t)[0] == t[0] && Candidates(p, t)[1..] == rest;
    } else {
      assert Candidates(p, t) == rest;
    }
  }

  lemma {:induction false} AboveMembers(t: seq<WmsRow>, last: int)
    ensures forall r :: r in Above(t, last) ==> r in t
  {
    if t != [] { AboveMembers(t[1..], last); }
  }

  /** The page query sees the next candidates of the original table, untouched, although the table
      has changed under it. */
  lemma {:induction false} PageIsNext(found: seq<WmsRow>, m: Links, p: Path, n: nat, size: nat)
    requires Keyed(found) && n <= |Candidates(p, found)|
    requires forall id :: id in m ==> id <= LastSeen(Candidates(p, found), n)
    ensures var c := Candidates(p, found);
            var rows := Page(p, Relink(found, m), LastSeen(c, n), size);
      && rows == c[n..if n + size < |c| then n + size else |c|]
      && Inside(rows, Relink(found, m)) && Keyed(rows)
  {
    var c := Candidates(p, found);
    CandidatesFacts(p, found);
    RelinkAbove(found, m, p, LastSeen(c, n));
    AboveKeyed(c, n);
    AboveInside(p, Relink(found, m), LastSeen(c, n));
    PageOf(c, n, size, Above(Candidates(p, Relink(found, m)), LastSeen(c, n)));
  }

  lemma {:induction false} PageOf(c: seq<WmsRow>, n: nat, size: nat, rest: seq<WmsRow>)
    requires Keyed(c) && n <= |c| && rest == c[n..]
    ensures var rows := if |rest| <= size then rest else rest[..size];
            rows == c[n..if n + size < |c| then n + size else |c|] && Keyed(rows) && forall r :: r in rows ==> r in rest
  {
  }

  lemma {:induction false} AboveInside(p: Path, t: seq<WmsRow>, last: int)
    requires Keyed(t)
    ensures Inside(Above(Candidates(p, t), last), t)
  {
    CandidatesFacts(p, t);
    AboveMembers(Candidates(p, t), last);
  }

  // ---------------------------------------------------------- the program

  class Wms {
    const setting: Setting
    var orders: seq<WmsRow>

    constructor (t: seq<WmsRow>, s: Setting)
      ensures orders == t && setting == s
    {
      orders, setting := t, s;
    }

    /** One batch: the verdicts are counted, and the links of all matches are written or none is. */
    method ProcessBatch(rows: seq<WmsRow>, execute: bool, fault: Fault) returns (stats: Stats)
      requires Keyed(orders) && Keyed(rows) && Inside(rows, orders)
      modifies this
      ensures orders == Relink(old(orders), if execute && fault != Fails then LinksOf(rows, setting) else map[])
      ensures stats == BatchStats(rows, setting, execute, fault)
    {
      stats := NO_STATS;
      var plans: seq<Plan> := [];
      for k := 0 to |rows|
        invariant orders == old(orders)
        invariant stats == VerdictStats(rows[..k], setting)
        invariant plans == Plans(rows[..k], setting)
      {
        assert rows[..k + 1][..k] == rows[..k];
        var verdict := Decide(rows[k], setting);
        stats := Counted(stats, verdict);
        if verdict.Match? {
          plans := plans + [Plan(rows[k].id, rows[k].link, verdict.omsId)];
        }
      }
      assert rows[..|rows|] == rows;
      PlansCount(rows, setting);
      assert Relink(orders, map[]) == orders;
      if execute && plans != [] {
        stats := ApplyPlans(rows, plans, fault, stats);
      }
    }

    /** The transaction of one batch. */
    method ApplyPlans(ghost rows: seq<WmsRow>, plans: seq<Plan>, fault: Fault, before: Stats) returns (stats: Stats)
      requires Keyed(orders) && Keyed(rows) && Inside(rows, orders)
      requires plans == Plans(rows, setting)
      modifies this
      ensures orders == Relink(old(orders), if fault != Fails then LinksOf(rows, setting) else map[])
      ensures stats == if fault == Works then before.(updated := |plans|) else before.(errors := before.errors + 1)
    {
      var staged := orders;
      var updated := 0;
      for n := 0 to |plans|
        invariant orders == old(orders)
        invariant staged == Staged(orders, plans[..n]) && updated == n
      {
        assert plans[..n + 1][..n] == plans[..n];
        PlanHitsOnce(orders, rows, setting, n);
        updated := updated + (if Affected(staged, plans[n]) == 1 then 1 else 0);
        staged := Updated(staged, plans[n]);
      }
      assert plans[..|plans|] == plans;
      StagedIsRelink(orders, rows, setting);
      assert Relink(orders, map[]) == orders;
      if fault != Fails { orders := staged; }
      stats := if fault == Works then before.(updated := updated) else before.(errors := before.errors + 1);
    }

    /** Where a run that found `found` stands after its first `n` candidates, in `b` batches. */
    ghost predicate Reached(found: seq<WmsRow>, n: nat, b: nat, stats: Stats, run: Run)
      reads this
    {
      var c := Candidates(setting.path, found);
      && n <= |c|
      && orders == Relink(found, LinksWritten(c, n, b, setting, run))
      && stats == RunStats(c, n, b, setting, run)
    }

    /** The next page, or an empty one at the end of the candidates. */
    method NextPage(lastSeenId: int, size: nat, ghost found: seq<WmsRow>, ghost n: nat, ghost b: nat,
                    ghost stats: Stats, ghost run: Run)
      returns (rows: seq<WmsRow>)
      requires Keyed(found) && Reached(found, n, b, stats, run)
      requires lastSeenId == LastSeen(Candidates(setting.path, found), n)
      ensures var c := Candidates(setting.path, found);
              && |rows| == Cap(size, |c| - n) && rows == c[n..n + |rows|] && Inside(rows, orders) && Keyed(rows)
              && (rows != [] ==> rows[|rows| - 1].id == LastSeen(c, n + |rows|))
    {
      ghost var c := Candidates(setting.path, found);
      ghost var written := LinksWritten(c, n, b, setting, run);
      CandidatesFacts(setting.path, found);
      WrittenBelow(c, n, b, setting, run);
      BatchBetween(c, Cap(FullBatches(b, run.batchSize), n), n, setting);
      assert orders == Relink(found, written);
      PageIsNext(found, written, setting.path, n, size);
      rows := Page(setting.path, orders, lastSeenId, size);
    }

    /** Processes a page that starts where the full batches end. */
    method ProcessPage(rows: seq<WmsRow>, before: Stats, batchIdx: nat, run: Run,
                       ghost found: seq<WmsRow>, ghost n: nat)
      returns (stats: Stats)
      requires Keyed(found) && Reached(found, n, batchIdx, before, run) && n == FullBatches(batchIdx, run.batchSize)
      requires |rows| <= run.batchSize && n + |rows| <= |Candidates(setting.path, found)|
      requires rows == Candidates(setting.path, found)[n..n + |rows|] && Inside(rows, orders) && Keyed(rows)
      modifies this
      ensures Reached(found, n + |rows|, batchIdx + 1, stats, run)
      ensures stats.scanned == before.scanned + |rows|
    {
      ghost var c := Candidates(setting.path, found);
      var batchStats := ProcessBatch(rows, run.execute, FaultAt(run.faults, batchIdx));
      NextBatch(c, n + |rows|, batchIdx, setting, run);
      ghost var lands := run.execute && FaultAt(run.faults, batchIdx) != Fails;
      ghost var written := if lands then LinksOf(rows, setting) else map[];
      RelinkMore(found, LinksWritten(c, n, batchIdx, setting, run), written);
      BatchScanned(rows, setting, run.execute, FaultAt(run.faults, batchIdx));
      stats := Add(before, batchStats);
    }

    /** A page query and, unless it comes back empty, its batch. `read` is the page's length, `next` the
        number of batches so far. */
    method Turn(lastSeenId: int, size: nat, before: Stats, batchIdx: nat, run: Run,
                ghost found: seq<WmsRow>, ghost n: nat)
      returns (stats: Stats, read: nat, last: int, next: nat)
      requires Keyed(found) && Reached(found, n, batchIdx, before, run) && size <= run.batchSize
      requires lastSeenId == LastSeen(Candidates(setting.path, found), n)
      requires n == FullBatches(batchIdx, run.batchSize) || n == |Candidates(setting.path, found)|
      modifies this
      ensures Reached(found, n + read, next, stats, run)
      ensures read == Cap(size, |Candidates(setting.path, found)| - n)
      ensures last == LastSeen(Candidates(setting.path, found), n + read)
      ensures stats.scanned == before.scanned + read
      ensures batchIdx <= next <= batchIdx + 1 && (read > 0 ==> next == batchIdx + 1)
      ensures FullBatches(next, run.batchSize)
           == FullBatches(batchIdx, run.batchSize) + (if read > 0 then run.batchSize else 0)
    {
      var rows := NextPage(lastSeenId, size, found, n, batchIdx, before, run);
      stats, read, last, next := before, |rows|, lastSeenId, batchIdx;
      if rows != [] {
        stats := ProcessPage(rows, before, batchIdx, run, found, n);
        last, next := rows[|rows| - 1].id, batchIdx + 1;
      }
    }

    /** Pages through the candidates of one path. `pages` page queries succeed before one fails.
        `n` is the number of candidates visited: always the first `n` of the table as found, and,
        when no query fails, all of them up to the limit. */
    method RunPath(run: Run, limit: Option<nat>, pages: nat)
      returns (ok: bool, stats: Stats, ghost n: nat, ghost b: nat)
      requires Keyed(orders) && run.batchSize > 0
      modifies this
      ensures Reached(old(orders), n, b, stats, run) && n <= FullBatches(b, run.batchSize)
      ensures ok ==> n == Reach(|Candidates(setting.path, old(orders))|, limit)
      ensures stats.scanned == n
    {
      ok, stats, n := true, NO_STATS, 0;
      var lastSeenId, batchIdx, more := 0, 0, true;
      ghost var found, total := orders, |Candidates(setting.path, orders)|;
      StartsReached(orders);
      while more && !(limit.Some? && stats.scanned >= limit.value)
        invariant batchIdx <= pages && stats.scanned == n <= FullBatches(batchIdx, run.batchSize)
        invariant n <= Reach(total, limit) && lastSeenId == LastSeen(Candidates(setting.path, found), n)
        invariant n < Reach(total, limit) ==> n == FullBatches(batchIdx, run.batchSize)
        invariant if more then ok else !ok || n == Reach(total, limit)
        invariant Reached(found, n, batchIdx, stats, run)
        decreases more, pages - batchIdx
      {
        var size := PageSize(limit, stats.scanned, run.batchSize);
        if batchIdx == pages {
          ok, more := false, false;
        } else {
          var read;
          PageSizes(total, limit, n, size, run.batchSize);
          stats, read, lastSeenId, batchIdx := Turn(lastSeenId, size, stats, batchIdx, run, found, n);
          n := n + read;
          more := read == size;
        }
      }
      b := batchIdx;
    }
  }

  lemma {:induction false} StartsReached(t: seq<WmsRow>)
    ensures Relink(t, map[]) == t
  {
  }

  lemma {:induction false} BatchScanned(rows: seq<WmsRow>, s: Setting, execute: bool, fault: Fault)
    ensures BatchStats(rows, s, execute, fault).scanned == |rows|
  {
    if rows != [] { BatchScanned(rows[..|rows| - 1], s, execute, fault); }
  }

  // ---------------------------------------------------------- what a run amounts to

  /** The batches whose transaction reported a failure. */
  function FailedBatches(c: seq<WmsRow>, n: nat, b: nat, s: Setting, run: Run): nat
    requires n <= |c|
  {
    if b == 0 then 0
    else
      FailedBatches(c, n, b - 1, s, run)
      + (if run.execute && FaultAt(run.faults, b - 1) != Works && Plans(Batch(c, n, b - 1, run.batchSize), s) != []
         then 1 else 0)
  }

  lemma {:induction false} VerdictsBalance(rows: seq<WmsRow>, s: Setting)
    ensures var t := VerdictStats(rows, s);
            t.scanned == t.matched + t.orphans + t.ambiguous + t.skipped + t.errors && t.updated == 0
  {
    if rows != [] { VerdictsBalance(rows[..|rows| - 1], s); }
  }

  /** Every scanned row is accounted for once, and every failed transaction once more. */
  lemma {:induction false} StatsBalance(c: seq<WmsRow>, n: nat, b: nat, s: Setting, run: Run)
    requires n <= |c|
    ensures var t := RunStats(c, n, b, s, run);
            t.scanned + FailedBatches(c, n, b, s, run) == t.matched + t.orphans + t.ambiguous + t.skipped + t.errors
  {
    if b > 0 {
      StatsBalance(c, n, b - 1, s, run);
      VerdictsBalance(Batch(c, n, b - 1, run.batchSize), s);
      PlansCount(Batch(c, n, b - 1, run.batchSize), s);
    }
  }

  /** Candidate `q`, which batch `d` covers, is relinked exactly when it has a unique match and the
      batch was committed. */
  lemma {:induction false} RelinkedExactly(c: seq<WmsRow>, n: nat, b: nat, d: nat, q: nat, s: Setting, run: Run)
    requires Keyed(c) && n <= |c| && d < b && q < n
    requires FullBatches(d, run.batchSize) <= q < FullBatches(d + 1, run.batchSize)
    ensures c[q].id in LinksWritten(c, n, b, s, run) <==>
              Decide(c[q], s).Match? && run.execute && FaultAt(run.faults, d) != Fails
    ensures c[q].id in LinksWritten(c, n, b, s, run) ==>
              LinksWritten(c, n, b, s, run)[c[q].id] == Decimal(Decide(c[q], s).omsId)
  {
    FullBatchesGrow(d + 1, b, run.batchSize);
    InBatch(c, Cap(FullBatches(b - 1, run.batchSize), n), Cap(FullBatches(b, run.batchSize), n), q, s);
    if d < b - 1 {
      FullBatchesGrow(d + 1, b - 1, run.batchSize);
      RelinkedExactly(c, n, b - 1, d, q, s, run);
    } else {
      WrittenBelow(c, n, b - 1, s, run);
    }
  }

  lemma {:induction false} InBatch(c: seq<WmsRow>, lo: nat, hi: nat, q: nat, s: Setting)
    requires Keyed(c) && lo <= hi <= |c| && q < hi
    ensures c[q].id in LinksOf(c[lo..hi], s) <==> lo <= q && Decide(c[q], s).Match?
    ensures lo <= q && Decide(c[q], s).Match? ==> LinksOf(c[lo..hi], s)[c[q].id] == Decimal(Decide(c[q], s).omsId)
    ensures lo <= q ==> LastSeen(c, lo) < c[q].id
  {
    BatchBetween(c, lo, hi, s);
    LinksOfDomain(c[lo..hi], s);
    if lo <= q { assert c[lo..hi][q - lo] == c[q]; }
  }

  /** How many of the rows were relinked. */
  function Relinked(rows: seq<WmsRow>, m: Links): nat {
    if rows == [] then 0
    else Relinked(rows[..|rows| - 1], m) + (if rows[|rows| - 1].id in m then 1 else 0)
  }

  lemma {:induction false} RelinkedMatches(rows: seq<WmsRow>, m: Links, s: Setting, written: bool)
    requires forall k :: 0 <= k < |rows| ==> (rows[k].id in m <==> Decide(rows[k], s).Match? && written)
    ensures Relinked(rows, m) == if written then VerdictStats(rows, s).matched else 0
  {
    if rows != [] { RelinkedMatches(rows[..|rows| - 1], m, s, written); }
  }

  lemma {:induction false} RelinkedConcat(c: seq<WmsRow>, lo: nat, hi: nat, m: Links)
    requires lo <= hi <= |c|
    ensures Relinked(c[..hi], m) == Relinked(c[..lo], m) + Relinked(c[lo..hi], m)
    decreases hi
  {
    if lo < hi {
      RelinkedConcat(c, lo, hi - 1, m);
      assert c[..hi][..hi - 1] == c[..hi - 1];
      assert c[lo..hi][..hi - lo - 1] == c[lo..hi - 1];
    }
  }

  /** Batch `d` was committed, with links in it, and reported as failed. */
  predicate IsLost(c: seq<WmsRow>, n: nat, d: nat, s: Setting, run: Run)
    requires n <= |c|
  {
    run.execute && FaultAt(run.faults, d) == ReplyLost && Plans(Batch(c, n, d, run.batchSize), s) != []
  }

  /** `updated` never exceeds the number of relinked rows, and it is that number if and only if the
      commit of no batch that had links went through unnoticed. */
  lemma {:induction false} UpdatedIsExact(c: seq<WmsRow>, n: nat, b: nat, s: Setting, run: Run)
    requires Keyed(c) && n <= |c| && n <= FullBatches(b, run.batchSize)
    ensures Relinked(c[..n], LinksWritten(c, n, b, s, run)) >= RunStats(c, n, b, s, run).updated
    ensures Relinked(c[..n], LinksWritten(c, n, b, s, run)) == RunStats(c, n, b, s, run).updated <==>
              forall d: nat :: d < b ==> !IsLost(c, n, d, s, run)
  {
    var m := LinksWritten(c, n, b, s, run);
    forall d: nat | d < b ensures UpdatedInBatch(c, n, d, s, run, m) {
      BatchUpdated(c, n, b, d, s, run, m);
    }
    UpdatedSum(c, n, b, s, run, m);
  }

  ghost predicate UpdatedInBatch(c: seq<WmsRow>, n: nat, d: nat, s: Setting, run: Run, m: Links)
    requires n <= |c|
  {
    var relinked := Relinked(Batch(c, n, d, run.batchSize), m);
    var updated := BatchStats(Batch(c, n, d, run.batchSize), s, run.execute, FaultAt(run.faults, d)).updated;
    relinked >= updated && (relinked == updated <==> !IsLost(c, n, d, s, run))
  }

  ghost predicate NoneLost(c: seq<WmsRow>, n: nat, b: nat, s: Setting, run: Run)
    requires n <= |c|
  {
    forall d: nat :: d < b ==> !IsLost(c, n, d, s, run)
  }

  lemma {:induction false} NoneLostStep(c: seq<WmsRow>, n: nat, b: nat, s: Setting, run: Run)
    requires n <= |c| && b > 0
    ensures NoneLost(c, n, b, s, run) <==> NoneLost(c, n, b - 1, s, run) && !IsLost(c, n, b - 1, s, run)
  {
  }

  lemma {:induction false} UpdatedSum(c: seq<WmsRow>, n: nat, d: nat, s: Setting, run: Run, m: Links)
    requires n <= |c| && forall e: nat :: e < d ==> UpdatedInBatch(c, n, e, s, run, m)
    ensures var relinked := Relinked(c[..Cap(FullBatches(d, run.batchSize), n)], m);
      && relinked >= RunStats(c, n, d, s, run).updated
      && (relinked == RunStats(c, n, d, s, run).updated <==> NoneLost(c, n, d, s, run))
  {
    if d > 0 {
      UpdatedSum(c, n, d - 1, s, run, m);
      NoneLostStep(c, n, d, s, run);
      assert UpdatedInBatch(c, n, d - 1, s, run, m);
      RelinkedConcat(c, Cap(FullBatches(d - 1, run.batchSize), n), Cap(FullBatches(d, run.batchSize), n), m);
    }
  }

  lemma {:induction false} BatchUpdated(c: seq<WmsRow>, n: nat, b: nat, d: nat, s: Setting, run: Run, m: Links)
    requires Keyed(c) && n <= |c| && d < b
    requires m == LinksWritten(c, n, b, s, run)
    ensures UpdatedInBatch(c, n, d, s, run, m)
  {
    var rows, lo := Batch(c, n, d, run.batchSize), Cap(FullBatches(d, run.batchSize), n);
    var written := run.execute && FaultAt(run.faults, d) != Fails;
    forall k | 0 <= k < |rows| ensures rows[k].id in m <==> Decide(rows[k], s).Match? && written {
      assert rows[k] == c[lo + k];
      RelinkedExactly(c, n, b, d, lo + k, s, run);
    }
    RelinkedMatches(rows, m, s, written);
    VerdictsBalance(rows, s);
    PlansCount(rows, s);
  }

  /** A run in which that happens: one row with a unique match, whose commit is not answered. */
  lemma {:induction false} LostReplyUndercounts(r: WmsRow, s: Setting, run: Run)
    requires Decide(r, s).Match? && run == Run(true, 1, [ReplyLost])
    ensures Relinked([r], LinksWritten([r], 1, 1, s, run)) == 1 && RunStats([r], 1, 1, s, run).updated == 0
  {
    var rows := Batch([r], 1, 0, 1);
    assert FullBatches(1, 1) == FullBatches(0, 1) + 1 == 1;
    assert rows == [r];
    assert [r][..0] == [];
    assert Plans([], s) == [] && LinksOf([], s) == map[];
    assert VerdictStats([r], s).updated == 0;
    assert LinksWritten([r], 1, 0, s, run) == map[];
    assert r.id in LinksOf([r], s);
    assert LinksWritten([r], 1, 1, s, run) == map[] + LinksOf([r], s);
    var m := LinksWritten([r], 1, 1, s, run);
    assert Relinked([], m) == 0;
  }

  lemma {:induction false} LinksConcat(c: seq<WmsRow>, lo: nat, hi: nat, s: Setting)
    requires lo <= hi <= |c|
    ensures LinksOf(c[..lo], s) + LinksOf(c[lo..hi], s) == LinksOf(c[..hi], s)
    decreases hi
  {
    if lo < hi {
      LinksConcat(c, lo, hi - 1, s);
      assert c[..hi][..hi - 1] == c[..hi - 1];
      assert c[lo..hi][..hi - lo - 1] == c[lo..hi - 1];
    }
  }

  /** If no transaction fails, the batching does not matter: the run wrote what one pass over the
      visited candidates finds. */
  lemma {:induction false} BatchingIsInvisible(c: seq<WmsRow>, n: nat, b: nat, s: Setting, run: Run)
    requires n <= |c| && run.execute && Fails !in run.faults
    ensures LinksWritten(c, n, b, s, run) == LinksOf(c[..Cap(FullBatches(b, run.batchSize), n)], s)
  {
    if b > 0 {
      BatchingIsInvisible(c, n, b - 1, s, run);
      LinksConcat(c, Cap(FullBatches(b - 1, run.batchSize), n), Cap(FullBatches(b, run.batchSize), n), s);
    }
  }

  /** So a complete run is the pure map. */
  lemma {:induction false} CompleteRunIsBackfill(t: seq<WmsRow>, b: nat, s: Setting, run: Run)
    requires run.execute && Fails !in run.faults
    requires |Candidates(s.path, t)| <= FullBatches(b, run.batchSize)
    ensures Relink(t, LinksWritten(Candidates(s.path, t), |Candidates(s.path, t)|, b, s, run)) == Backfilled(t, s)
  {
    var c := Candidates(s.path, t);
    BatchingIsInvisible(c, |c|, b, s, run);
    assert c[..|c|] == c;
  }

  /** With a limit a run may get nowhere, however often it is repeated: it changes the table if and
      only if one of the first `n` candidates has a unique match. */
  lemma {:induction false} LimitedRunProgress(t: seq<WmsRow>, n: nat, s: Setting)
    requires Keyed(t) && n <= |Candidates(s.path, t)|
    ensures Relink(t, LinksOf(Candidates(s.path, t)[..n], s)) == t <==>
              forall k :: 0 <= k < n ==> !Decide(Candidates(s.path, t)[k], s).Match?
  {
    var c := Candidates(s.path, t);
    var m := LinksOf(c[..n], s);
    CandidatesFacts(s.path, t);
    LinksOfDomain(c[..n], s);
    forall k | 0 <= k < n && Decide(c[k], s).Match? ensures Relink(t, m) != t {
      assert c[k] in t && c[..n][k] == c[k];
      var i :| 0 <= i < |t| && t[i] == c[k];
      DecimalIsNoCandidate(Decide(c[k], s).omsId);
      assert Relink(t, m)[i].link != t[i].link;
    }
    if forall k :: 0 <= k < n ==> !Decide(c[k], s).Match? {
      NoMatchNoLinks(c[..n], s);
    }
  }

  lemma {:induction false} NoMatchNoLinks(rows: seq<WmsRow>, s: Setting)
    requires forall k :: 0 <= k < |rows| ==> !Decide(rows[k], s).Match?
    ensures LinksOf(rows, s) == map[]
  {
    if rows != [] { NoMatchNoLinks(rows[..|rows| - 1], s); }
  }
}
