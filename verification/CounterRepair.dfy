/** Repairing the materialised counters of OMS lines: what is selected, what is written, and why it
    never gives fulfilment authority back. */
module CounterRepair {
  import opened Prelude
  import opened StableSort

  // ---------------------------------------------------------- rows

  /** `rest` stands for the columns the repair copies along untouched. */
  datatype Line = Line(id: int, fulfillable: Option<int>, recorded: Option<int>, updatedAt: int, rest: string)

  datatype Item = Item(line: Option<int>, quantity: Option<int>, status: Option<string>)

  function OrZero(o: Option<int>): int { if o.Some? then o.value else 0 }

  predicate Counts(item: Item, line: int) { item.line == Some(line) && item.status != Some("cancelled") }

  /** The materialised quantity of a line: the sum over its items that are not cancelled. */
  function Actual(items: seq<Item>, line: int): int {
    if items == [] then 0
    else (if Counts(items[0], line) then OrZero(items[0].quantity) else 0) + Actual(items[1..], line)
  }

  /** What may still be fulfilled on a line. */
  function Remaining(l: Line): nat {
    if OrZero(l.fulfillable) > OrZero(l.recorded) then OrZero(l.fulfillable) - OrZero(l.recorded) else 0
  }

  /** The sum, item by item: taking one out lowers it by the item's quantity if the item is for this line
      and not cancelled, and not at all otherwise. */
  lemma {:induction false} ItemsAddUp(a: seq<Item>, item: Item, b: seq<Item>, line: int)
    ensures Actual([], line) == 0
    ensures var counted := item.line == Some(line) && (item.status.None? || item.status.value != "cancelled");
            Actual(a + [item] + b, line)
            == Actual(a + b, line) + (if counted && item.quantity.Some? then item.quantity.value else 0)
  {
    var all := a + [item] + b;
    if a == [] {
      assert all[1..] == b && [] + b == b;
    } else {
      assert all[1..] == a[1..] + [item] + b && (a + b)[1..] == a[1..] + b;
      ItemsAddUp(a[1..], item, b, line);
    }
  }

  /** The least that is missing from what is recorded to what may be fulfilled; a missing number reads
      as none. */
  lemma {:induction false} RemainingIsLeast(l: Line)
    ensures var recorded := if l.recorded.Some? then l.recorded.value else 0;
            var fulfillable := if l.fulfillable.Some? then l.fulfillable.value else 0;
      && recorded + Remaining(l) >= fulfillable
      && (Remaining(l) > 0 ==> recorded + Remaining(l) == fulfillable)
  {
  }

  ghost predicate DistinctLines(lines: seq<Line>) {
    forall i, j :: 0 <= i < j < |lines| ==> lines[i].id != lines[j].id
  }

  // ---------------------------------------------------------- flags

  datatype Direction = All | Below | Above

  datatype Safety = NoSafety | ZeroAuthorityZeroActual

  /** The command line, as far as the counter operation reads it. */
  datatype Args = Args(
    execute: bool, dryRun: bool, drift: bool, direction: Direction, safety: Safety, limit: Option<nat>)

  datatype FlagError = BothModes | NeedsDirection | NeedsSafety

  function FlagErrorOf(a: Args): Option<FlagError> {
    if a.execute && a.dryRun then Some(BothModes)
    else if a.execute && a.drift && a.direction == All then Some(NeedsDirection)
    else if a.execute && a.drift && a.direction == Above && a.safety != ZeroAuthorityZeroActual then Some(NeedsSafety)
    else None
  }

  /** What the command line is refused for: both modes at once; or an execute run on drift without a
      direction, or downwards without the restriction to lines that neither have nor need anything. */
  lemma {:induction false} RefusedExactly(a: Args)
    ensures FlagErrorOf(a).Some? <==>
      a.execute && (a.dryRun || (a.drift && (a.direction == All || (a.direction == Above && a.safety == NoSafety))))
    ensures FlagErrorOf(a) == Some(BothModes) <==> a.execute && a.dryRun
    ensures FlagErrorOf(a) == Some(NeedsDirection) ==> a.direction == All
  {
  }

  predicate Admitted(a: Args) { a.execute && a.drift && FlagErrorOf(a) == None }

  // ---------------------------------------------------------- selecting

  datatype Candidate = Candidate(before: Line, actual: int)

  predicate Drifts(d: Direction, recorded: int, actual: int) {
    match d case All => recorded != actual case Below => recorded < actual case Above => recorded > actual
  }

  predicate Eligible(l: Line, actual: int, a: Args) {
    && Drifts(a.direction, OrZero(l.recorded), actual)
    && (a.safety == ZeroAuthorityZeroActual ==> OrZero(l.fulfillable) == 0 && actual == 0)
  }

  /** A line is eligible when its counter is off in the direction asked for and, for the safe decrease,
      it has no authority and no items. */
  lemma {:induction false} EligibleExactly(l: Line, actual: int, a: Args)
    ensures var recorded := if l.recorded.Some? then l.recorded.value else 0;
      Eligible(l, actual, a) <==>
        && recorded != actual
        && (a.direction == Below ==> recorded < actual) && (a.direction == Above ==> recorded > actual)
        && (a.safety != NoSafety ==> actual == 0 && (l.fulfillable.Some? ==> l.fulfillable.value == 0))
  {
  }

  function Drifting(lines: seq<Line>, items: seq<Item>, a: Args): seq<Candidate> {
    if lines == [] then []
    else
      var actual := Actual(items, lines[0].id);
      (if Eligible(lines[0], actual, a) then [Candidate(lines[0], actual)] else []) + Drifting(lines[1..], items, a)
  }

  function Drift(c: Candidate): int { c.actual - OrZero(c.before.recorded) }

  function Abs(x: int): nat { if x < 0 then -x else x }

  /** Largest drift first, then newest line. */
  predicate DriftLe(c: Candidate, d: Candidate) {
    Abs(Drift(c)) > Abs(Drift(d)) || (Abs(Drift(c)) == Abs(Drift(d)) && c.before.id >= d.before.id)
  }

  function Selected(lines: seq<Line>, items: seq<Item>, a: Args): seq<Candidate> {
    var sorted := Sort(DriftLe, Drifting(lines, items, a));
    if a.limit.Some? && a.limit.value < |sorted| then sorted[..a.limit.value] else sorted
  }

  lemma {:induction false} DriftingFacts(lines: seq<Line>, items: seq<Item>, a: Args)
    ensures forall c :: c in Drifting(lines, items, a) <==>
              c.before in lines && c.actual == Actual(items, c.before.id) && Eligible(c.before, c.actual, a)
  {
    if lines != [] {
      DriftingFacts(lines[1..], items, a);
      assert forall l :: l in lines <==> l == lines[0] || l in lines[1..];
    }
  }

  predicate OtherLine(c: Candidate, d: Candidate) { c.before.id != d.before.id }

  lemma {:induction false} DriftingDistinct(lines: seq<Line>, items: seq<Item>, a: Args)
    requires DistinctLines(lines)
    ensures Pairwise(OtherLine, Drifting(lines, items, a))
  {
    if lines != [] {
      DriftingDistinct(lines[1..], items, a);
      DriftingFacts(lines[1..], items, a);
      var rest := Drifting(lines[1..], items, a);
      forall j | 0 <= j < |rest| ensures rest[j].before.id != lines[0].id {
        assert rest[j] in rest && rest[j].before in lines[1..];
      }
    }
  }

  /** Every selected line drifts the way the run asks for; no line is selected twice; without a
      limit every such line is selected. */
  lemma {:induction false} SelectedFacts(lines: seq<Line>, items: seq<Item>, a: Args)
    requires DistinctLines(lines)
    ensures var sel := Selected(lines, items, a);
      && Pairwise(OtherLine, sel)
      && (forall c :: c in sel ==>
            c.before in lines && c.actual == Actual(items, c.before.id) && Eligible(c.before, c.actual, a))
      && (a.limit == None ==> forall l :: l in lines && Eligible(l, Actual(items, l.id), a) ==>
            Candidate(l, Actual(items, l.id)) in sel)
  {
    var all := Drifting(lines, items, a);
    DriftingFacts(lines, items, a);
    DriftingDistinct(lines, items, a);
    SortMultiset(DriftLe, all);
    SortKeepsSymmetric(DriftLe, OtherLine, all);
    assert forall c :: c in Selected(lines, items, a) ==> c in Sort(DriftLe, all);
  }

  /** Line `l` drifts less than `c`, or as much and is the older one. */
  ghost predicate DriftsLess(l: Line, actual: int, c: Candidate) {
    var less, more := actual - OrZero(l.recorded), c.actual - OrZero(c.before.recorded);
    var x, y := if less < 0 then -less else less, if more < 0 then -more else more;
    x < y || (x == y && l.id < c.before.id)
  }

  lemma {:induction false} SortedByDrift(lines: seq<Line>, items: seq<Item>, a: Args)
    requires DistinctLines(lines)
    ensures var sorted := Sort(DriftLe, Drifting(lines, items, a));
            forall i, j :: 0 <= i < j < |sorted| ==> DriftsLess(sorted[j].before, sorted[j].actual, sorted[i])
  {
    var all := Drifting(lines, items, a);
    var sorted := Sort(DriftLe, all);
    DriftingDistinct(lines, items, a);
    SortRefines(DriftLe, DriftLe, all);
    SortKeepsSymmetric(DriftLe, OtherLine, all);
    forall i, j | 0 <= i < j < |sorted| ensures DriftsLess(sorted[j].before, sorted[j].actual, sorted[i]) {
      assert DriftLe(sorted[i], sorted[j]) && OtherLine(sorted[i], sorted[j]);
    }
  }

  lemma {:induction false} DriftAt(lines: seq<Line>, items: seq<Item>, a: Args, i: nat, j: nat)
    requires DistinctLines(lines) && i < j < |Sort(DriftLe, Drifting(lines, items, a))|
    ensures var sorted := Sort(DriftLe, Drifting(lines, items, a));
            DriftsLess(sorted[j].before, sorted[j].actual, sorted[i])
  {
    SortedByDrift(lines, items, a);
  }

  /** A limit takes the lines that drift most: as many as it allows, those that drift more first. */
  lemma {:induction false} LimitTakesWorst(lines: seq<Line>, items: seq<Item>, a: Args)
    requires DistinctLines(lines)
    ensures var sel, count := Selected(lines, items, a), |Drifting(lines, items, a)|;
      && |sel| == (if a.limit.Some? && a.limit.value < count then a.limit.value else count)
      && forall i, j :: 0 <= i < j < |sel| ==> DriftsLess(sel[j].before, sel[j].actual, sel[i])
  {
    SortMultiset(DriftLe, Drifting(lines, items, a));
    SortedByDrift(lines, items, a);
  }

  /** No line that is left out drifts more than one that is taken. */
  lemma {:induction false} LeftOutDriftsLess(lines: seq<Line>, items: seq<Item>, a: Args, l: Line, c: Candidate)
    requires DistinctLines(lines) && l in lines && Eligible(l, Actual(items, l.id), a)
    requires c in Selected(lines, items, a) && Candidate(l, Actual(items, l.id)) !in Selected(lines, items, a)
    ensures DriftsLess(l, Actual(items, l.id), c)
  {
    var all, sel, d := Drifting(lines, items, a), Selected(lines, items, a), Candidate(l, Actual(items, l.id));
    var sorted := Sort(DriftLe, all);
    DriftingFacts(lines, items, a);
    SortMultiset(DriftLe, all);
    SortedByDrift(lines, items, a);
    assert d in sorted;
    var j :| 0 <= j < |sorted| && sorted[j] == d;
    var i :| 0 <= i < |sel| && sel[i] == c;
    NotInPrefix(sel, sorted, j);
    assert i < |sel| <= j && sorted[i] == c;
    DriftAt(lines, items, a, i, j);
  }

  // ---------------------------------------------------------- other writers

  /** What others may commit between the locking read and the update: any change to the items, but
      no change to a locked line. */
  datatype Edit = SetLine(k: nat, line: Line) | AddLine(line: Line) | RemoveLine(k: nat) | SetItems(items: seq<Item>)

  datatype Tables = Tables(lines: seq<Line>, items: seq<Item>)

  function Write(t: Tables, e: Edit, locked: set<int>): Tables {
    match e
    case SetLine(k, line) =>
      if k < |t.lines| && t.lines[k].id == line.id && line.id !in locked then t.(lines := t.lines[k := line]) else t
    case AddLine(line) =>
      if (forall l :: l in t.lines ==> l.id != line.id) then t.(lines := t.lines + [line]) else t
    case RemoveLine(k) =>
      if k < |t.lines| && t.lines[k].id !in locked then t.(lines := t.lines[..k] + t.lines[k + 1..]) else t
    case SetItems(items) => t.(items := items)
  }

  function WriteAll(t: Tables, es: seq<Edit>, locked: set<int>): Tables {
    if es == [] then t else Write(WriteAll(t, es[..|es| - 1], locked), es[|es| - 1], locked)
  }

  lemma {:induction false} WriteKeepsLocked(t: Tables, e: Edit, locked: set<int>)
    requires DistinctLines(t.lines)
    ensures DistinctLines(Write(t, e, locked).lines)
    ensures forall l :: l in t.lines && l.id in locked ==> l in Write(t, e, locked).lines
  {
    var after := Write(t, e, locked).lines;
    forall i | 0 <= i < |t.lines| && t.lines[i].id in locked ensures t.lines[i] in after {
      if e.RemoveLine? && e.k < |t.lines| {
        assert i != e.k && t.lines[e.k].id !in locked ==> after[if i < e.k then i else i - 1] == t.lines[i];
      } else {
        assert after[i] == t.lines[i];
      }
    }
  }

  lemma {:induction false} WritersKeepLocked(t: Tables, es: seq<Edit>, locked: set<int>)
    requires DistinctLines(t.lines)
    ensures DistinctLines(WriteAll(t, es, locked).lines)
    ensures forall l :: l in t.lines && l.id in locked ==> l in WriteAll(t, es, locked).lines
  {
    if es != [] {
      WritersKeepLocked(t, es[..|es| - 1], locked);
      WriteKeepsLocked(WriteAll(t, es[..|es| - 1], locked), es[|es| - 1], locked);
    }
  }

  function LineIds(sel: seq<Candidate>): set<int> { set c | c in sel :: c.before.id }

  // ---------------------------------------------------------- the guarded update

  function CandidateFor(sel: seq<Candidate>, id: int): (c: Option<Candidate>)
    ensures c.Some? ==> c.value in sel && c.value.before.id == id
    ensures c.None? ==> forall d :: d in sel ==> d.before.id != id
  {
    if sel == [] then None else if sel[0].before.id == id then Some(sel[0]) else CandidateFor(sel[1..], id)
  }

  /** The `WHERE` clause of the bulk update for one line and its input record. */
  predicate Guard(l: Line, c: Candidate, items: seq<Item>, d: Direction) {
    && (if d == Above then OrZero(l.recorded) > c.actual else OrZero(l.recorded) < c.actual)
    && c.actual == Actual(items, c.before.id)
    && (d == Above ==> OrZero(l.fulfillable) == 0 && c.actual == 0)
  }

  function AfterRow(c: Candidate, now: int): Line {
    c.before.(recorded := Some(c.actual), updatedAt := now)
  }

  function UpdatedLine(l: Line, sel: seq<Candidate>, items: seq<Item>, d: Direction, now: int): Line {
    var c := CandidateFor(sel, l.id);
    if c.Some? && Guard(l, c.value, items, d) then l.(recorded := Some(c.value.actual), updatedAt := now) else l
  }

  function UpdatedLines(lines: seq<Line>, sel: seq<Candidate>, items: seq<Item>, d: Direction, now: int): seq<Line> {
    seq(|lines|, k requires 0 <= k < |lines| => UpdatedLine(lines[k], sel, items, d, now))
  }

  /** Whatever has become of a line by the time of the update: it is changed only to the sum its items
      still have, upwards in an increase, and in a decrease downwards to 0 on a line without authority;
      and it is changed whenever that is so. */
  lemma {:induction false} GuardedUpdateExactly(l: Line, c: Candidate, items: seq<Item>, d: Direction, now: int)
    requires c.before.id == l.id
    ensures var recorded := if l.recorded.Some? then l.recorded.value else 0;
            var after := UpdatedLine(l, [c], items, d, now);
      && after == (if after.recorded == l.recorded then l
                   else l.(recorded := Some(Actual(items, l.id)), updatedAt := now))
      && (after.recorded != l.recorded <==>
            && c.actual == Actual(items, l.id) && recorded != c.actual
            && if d == Above then c.actual == 0 < recorded && (l.fulfillable.Some? ==> l.fulfillable.value == 0)
               else recorded < c.actual)
  {
  }

  /** Ids are unique on both sides of the join, so each matched record is one updated row. */
  predicate Matched(c: Candidate, lines: seq<Line>, items: seq<Item>, d: Direction) {
    exists k :: 0 <= k < |lines| && lines[k].id == c.before.id && Guard(lines[k], c, items, d)
  }

  function UpdateCount(sel: seq<Candidate>, lines: seq<Line>, items: seq<Item>, d: Direction): nat {
    if sel == [] then 0
    else (if Matched(sel[0], lines, items, d) then 1 else 0) + UpdateCount(sel[1..], lines, items, d)
  }

  lemma {:induction false} UpdateCountIsAll(sel: seq<Candidate>, lines: seq<Line>, items: seq<Item>, d: Direction)
    ensures UpdateCount(sel, lines, items, d) <= |sel|
    ensures UpdateCount(sel, lines, items, d) == |sel| <==> forall c :: c in sel ==> Matched(c, lines, items, d)
  {
    if sel != [] {
      UpdateCountIsAll(sel[1..], lines, items, d);
      assert forall c :: c in sel <==> c == sel[0] || c in sel[1..];
    }
  }

  /** Since the selected lines stay locked, the update hits them all exactly when the items still
      add up to what was read. */
  lemma {:induction false} MatchesExactly(t: Tables, es: seq<Edit>, a: Args)
    requires DistinctLines(t.lines) && Admitted(a)
    ensures var sel := Selected(t.lines, t.items, a);
            var left := WriteAll(t, es, LineIds(sel));
            UpdateCount(sel, left.lines, left.items, a.direction) == |sel| <==>
              forall c :: c in sel ==> Actual(left.items, c.before.id) == Actual(t.items, c.before.id)
  {
    var sel := Selected(t.lines, t.items, a);
    var left := WriteAll(t, es, LineIds(sel));
    SelectedFacts(t.lines, t.items, a);
    WritersKeepLocked(t, es, LineIds(sel));
    UpdateCountIsAll(sel, left.lines, left.items, a.direction);
    forall c | c in sel
      ensures Matched(c, left.lines, left.items, a.direction) <==>
                Actual(left.items, c.before.id) == Actual(t.items, c.before.id)
    {
      assert c.before.id in LineIds(sel);
      var k :| 0 <= k < |left.lines| && left.lines[k] == c.before;
      assert Guard(left.lines[k], c, left.items, a.direction) <==> c.actual == Actual(left.items, c.before.id);
    }
  }

  // ---------------------------------------------------------- what a committed run has done

  /** Line `l` of the final table, when every selected line was hit. */
  function RepairedLine(l: Line, sel: seq<Candidate>, now: int): Line {
    var c := CandidateFor(sel, l.id);
    if c.Some? then AfterRow(c.value, now) else l
  }

  function Repaired(lines: seq<Line>, sel: seq<Candidate>, now: int): seq<Line> {
    seq(|lines|, k requires 0 <= k < |lines| => RepairedLine(lines[k], sel, now))
  }

  /** The selected lines are still in the table, as they were read. */
  ghost predicate Locked(lines: seq<Line>, sel: seq<Candidate>) {
    && DistinctLines(lines) && Pairwise(OtherLine, sel)
    && forall c :: c in sel ==> c.before in lines
  }

  lemma {:induction false} LockedLine(lines: seq<Line>, sel: seq<Candidate>, k: nat)
    requires Locked(lines, sel) && k < |lines| && CandidateFor(sel, lines[k].id).Some?
    ensures CandidateFor(sel, lines[k].id).value.before == lines[k]
  {
    var c := CandidateFor(sel, lines[k].id).value;
    var j :| 0 <= j < |lines| && lines[j] == c.before;
    if j != k { assert false; }
  }

  lemma {:induction false} CandidateIs(sel: seq<Candidate>, c: Candidate)
    requires Pairwise(OtherLine, sel) && c in sel
    ensures CandidateFor(sel, c.before.id) == Some(c)
  {
    var d := CandidateFor(sel, c.before.id).value;
    var i :| 0 <= i < |sel| && sel[i] == c;
    var j :| 0 <= j < |sel| && sel[j] == d;
    assert i < j ==> OtherLine(c, d);
    assert j < i ==> OtherLine(d, c);
  }

  lemma {:induction false} UpdateIsRepair(
    lines: seq<Line>, sel: seq<Candidate>, items: seq<Item>, d: Direction, now: int)
    requires Locked(lines, sel)
    requires forall c :: c in sel ==> Matched(c, lines, items, d)
    ensures UpdatedLines(lines, sel, items, d, now) == Repaired(lines, sel, now)
  {
    forall k | 0 <= k < |lines| ensures UpdatedLine(lines[k], sel, items, d, now) == RepairedLine(lines[k], sel, now) {
      var c := CandidateFor(sel, lines[k].id);
      if c.Some? {
        LockedLine(lines, sel, k);
        var j :| 0 <= j < |lines| && lines[j].id == c.value.before.id && Guard(lines[j], c.value, items, d);
        assert j == k;
      }
    }
  }

  /** Fulfilment authority is never given back: no flags that an execute run accepts let the
      remaining quantity of any line grow. */
  lemma {:induction false} NeverReopens(t: Tables, es: seq<Edit>, a: Args, now: int)
    requires DistinctLines(t.lines) && Admitted(a)
    ensures var sel := Selected(t.lines, t.items, a);
            var left := WriteAll(t, es, LineIds(sel)).lines;
            forall k :: 0 <= k < |left| ==> Remaining(Repaired(left, sel, now)[k]) <= Remaining(left[k])
  {
    var sel := Selected(t.lines, t.items, a);
    var left := WriteAll(t, es, LineIds(sel)).lines;
    SelectedIsLocked(t, es, a);
    SelectedFacts(t.lines, t.items, a);
    forall k | 0 <= k < |left| ensures Remaining(RepairedLine(left[k], sel, now)) <= Remaining(left[k]) {
      if CandidateFor(sel, left[k].id).Some? {
        LockedLine(left, sel, k);
      }
    }
  }

  lemma {:induction false} SelectedIsLocked(t: Tables, es: seq<Edit>, a: Args)
    requires DistinctLines(t.lines)
    ensures var sel := Selected(t.lines, t.items, a);
            Locked(WriteAll(t, es, LineIds(sel)).lines, sel)
  {
    var sel := Selected(t.lines, t.items, a);
    SelectedFacts(t.lines, t.items, a);
    WritersKeepLocked(t, es, LineIds(sel));
    forall c | c in sel ensures c.before in WriteAll(t, es, LineIds(sel)).lines {
      assert c.before.id in LineIds(sel);
    }
  }

  /** Without that safety flag it would not be so: the rejected combination really reopens. */
  lemma {:induction false} UnsafeDecreaseReopens()
    ensures var a := Args(true, false, true, Above, NoSafety, None);
            var t := Tables([Line(1, Some(5), Some(5), 0, "")], []);
            var sel := Selected(t.lines, t.items, a);
            && FlagErrorOf(a) == Some(NeedsSafety)
            && Remaining(Repaired(t.lines, sel, 1)[0]) > Remaining(t.lines[0])
  {
    var a := Args(true, false, true, Above, NoSafety, None);
    var line := Line(1, Some(5), Some(5), 0, "");
    var lines := [line];
    DriftingFacts(lines, [], a);
    SelectedFacts(lines, [], a);
    assert line in lines && Actual([], 1) == 0;
    var sel := Selected(lines, [], a);
    assert Candidate(line, 0) in sel;
    CandidateIs(sel, Candidate(line, 0));
  }

  // ---------------------------------------------------------- the audit trail

  datatype AuditRow = AuditRow(before: Line, after: Line)

  function AuditRowOf(c: Candidate, now: int): AuditRow { AuditRow(c.before, AfterRow(c, now)) }

  function AuditRows(sel: seq<Candidate>, now: int): seq<AuditRow> {
    seq(|sel|, k requires 0 <= k < |sel| => AuditRowOf(sel[k], now))
  }

  /** The table with the rows in `rows` put over the lines of the same id. */
  function Overlay(lines: seq<Line>, rows: seq<Line>): seq<Line> {
    seq(|lines|, k requires 0 <= k < |lines| => LatestOf(rows, lines[k]))
  }

  function LatestOf(rows: seq<Line>, l: Line): Line {
    if rows == [] then l else if rows[0].id == l.id then rows[0] else LatestOf(rows[1..], l)
  }

  function Befores(audit: seq<AuditRow>): seq<Line> {
    seq(|audit|, k requires 0 <= k < |audit| => audit[k].before)
  }

  function Afters(audit: seq<AuditRow>): seq<Line> {
    seq(|audit|, k requires 0 <= k < |audit| => audit[k].after)
  }

  lemma {:induction false} LatestOfCandidate(sel: seq<Candidate>, now: int, l: Line)
    ensures var c := CandidateFor(sel, l.id);
      && LatestOf(Afters(AuditRows(sel, now)), l) == (if c.Some? then AfterRow(c.value, now) else l)
      && LatestOf(Befores(AuditRows(sel, now)), l) == (if c.Some? then c.value.before else l)
  {
    if sel != [] {
      LatestOfCandidate(sel[1..], now, l);
      assert Afters(AuditRows(sel, now))[1..] == Afters(AuditRows(sel[1..], now));
      assert Befores(AuditRows(sel, now))[1..] == Befores(AuditRows(sel[1..], now));
    }
  }

  /** The trail redoes and undoes the repair. */
  lemma {:induction false} AuditReplays(lines: seq<Line>, sel: seq<Candidate>, now: int)
    requires Locked(lines, sel)
    ensures Overlay(lines, Afters(AuditRows(sel, now))) == Repaired(lines, sel, now)
    ensures Overlay(Repaired(lines, sel, now), Befores(AuditRows(sel, now))) == lines
  {
    forall k | 0 <= k < |lines|
      ensures LatestOf(Afters(AuditRows(sel, now)), lines[k]) == RepairedLine(lines[k], sel, now)
      ensures LatestOf(Befores(AuditRows(sel, now)), RepairedLine(lines[k], sel, now)) == lines[k]
    {
      LatestOfCandidate(sel, now, lines[k]);
      LatestOfCandidate(sel, now, RepairedLine(lines[k], sel, now));
      if CandidateFor(sel, lines[k].id).Some? {
        LockedLine(lines, sel, k);
      }
    }
  }

  /** One audit row for each line whose counter changed, and none for any other. */
  lemma {:induction false} AuditIsExact(t: Tables, es: seq<Edit>, a: Args, now: int, k: nat)
    requires DistinctLines(t.lines) && Admitted(a)
    requires k < |WriteAll(t, es, LineIds(Selected(t.lines, t.items, a))).lines|
    ensures var sel := Selected(t.lines, t.items, a);
            var left := WriteAll(t, es, LineIds(sel)).lines;
            var audit := AuditRows(sel, now);
      && (OrZero(Repaired(left, sel, now)[k].recorded) != OrZero(left[k].recorded) <==>
            exists i :: 0 <= i < |audit| && audit[i].before.id == left[k].id)
      && (forall i, j :: 0 <= i < j < |audit| ==> audit[i].before.id != audit[j].before.id)
  {
    var sel := Selected(t.lines, t.items, a);
    var left := WriteAll(t, es, LineIds(sel)).lines;
    var audit := AuditRows(sel, now);
    SelectedIsLocked(t, es, a);
    SelectedFacts(t.lines, t.items, a);
    forall i, j | 0 <= i < j < |audit| ensures audit[i].before.id != audit[j].before.id {
      assert OtherLine(sel[i], sel[j]);
    }
    var c := CandidateFor(sel, left[k].id);
    if c.Some? {
      LockedLine(left, sel, k);
      var i :| 0 <= i < |sel| && sel[i] == c.value;
      assert audit[i].before.id == left[k].id;
    } else {
      assert forall i :: 0 <= i < |audit| ==> audit[i].before == sel[i].before && sel[i] in sel;
    }
  }

  /** A run without a limit, undisturbed, leaves nothing for a second one to select. */
  lemma {:induction false} SecondRunSelectsNothing(t: Tables, a: Args, now: int)
    requires DistinctLines(t.lines) && Admitted(a) && a.limit == None
    ensures Selected(Repaired(t.lines, Selected(t.lines, t.items, a), now), t.items, a) == []
  {
    var sel := Selected(t.lines, t.items, a);
    var after := Repaired(t.lines, sel, now);
    SelectedFacts(t.lines, t.items, a);
    forall k | 0 <= k < |t.lines|
      ensures after[k].id == t.lines[k].id && !Eligible(after[k], Actual(t.items, after[k].id), a)
    {
      var c := CandidateFor(sel, t.lines[k].id);
      if c.None? { assert Candidate(t.lines[k], Actual(t.items, t.lines[k].id)) !in sel; }
    }
    NothingDrifts(after, t.items, a);
  }

  lemma {:induction false} NothingDrifts(lines: seq<Line>, items: seq<Item>, a: Args)
    requires forall k :: 0 <= k < |lines| ==> !Eligible(lines[k], Actual(items, lines[k].id), a)
    ensures Drifting(lines, items, a) == []
  {
    if lines != [] { NothingDrifts(lines[1..], items, a); }
  }
}
