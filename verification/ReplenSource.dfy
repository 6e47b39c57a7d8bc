/** Which stock row replenishes a pick slot: two composed sorts that amount to one. */
module ReplenSource {
  import opened Prelude
  import opened StableSort
  import opened Lexicographic

  // ---------------------------------------------------------- rows

  datatype Slot = Slot(
    variant: int, product: Option<int>, level: int, unitsPerVariant: int, warehouse: Option<int>, qty: int)

  datatype Variant = Variant(id: int, product: Option<int>, level: int, unitsPerVariant: int, active: bool)

  /** `updated` is the time in milliseconds; `productLocation`, `primary` and `status` come from an
      outer join and may all be missing. */
  datatype Stock = Stock(
    variant: int, location: int, locationType: string, active: bool, frozen: bool, warehouse: Option<int>, qty: int,
    updated: Option<int>, pickSequence: Option<int>,
    productLocation: Option<int>, primary: Option<int>, status: Option<string>)

  datatype Rule = Rule(
    id: int, product: Option<int>, pickVariant: Option<int>, sourceVariant: Option<int>,
    locationType: Option<string>, priority: Option<int>)

  datatype Tier = Tier(id: int, warehouse: Option<int>, level: int, sourceLevel: int, locationType: string)

  const MAX_SAFE_INTEGER := 0x1f_ffff_ffff_ffff

  function OrElse(o: Option<int>, d: int): int { if o.Some? then o.value else d }

  // ---------------------------------------------------------- units and ranks

  function Units(unitsPerVariant: int): (u: nat)
    ensures if unitsPerVariant < 1 then u == 1 else u == unitsPerVariant
  {
    if unitsPerVariant > 1 then unitsPerVariant else 1
  }

  /** A larger unit that breaks into whole pick units. */
  predicate IsValidCaseBreakSource(v: Variant, slot: Slot) {
    var s, p := Units(v.unitsPerVariant), Units(slot.unitsPerVariant);
    s > p && s % p == 0
  }

  ghost predicate Makes(n: int, unit: int, whole: int) { n * unit == whole }

  ghost predicate BreaksInto(v: Variant, slot: Slot) {
    exists n :: n > 1 && Makes(n, Units(slot.unitsPerVariant), Units(v.unitsPerVariant))
  }

  /** A source unit is a case break when it is made of two or more whole pick units. */
  lemma {:induction false} CaseBreakExactly(v: Variant, slot: Slot)
    ensures IsValidCaseBreakSource(v, slot) <==> BreaksInto(v, slot)
  {
    var s, p := Units(v.unitsPerVariant), Units(slot.unitsPerVariant);
    if IsValidCaseBreakSource(v, slot) {
      assert Makes(s / p, p, s);
    } else if n :| n > 1 && Makes(n, p, s) {
      WholeMultiple(n, p);
    }
  }

  lemma {:induction false} WholeMultiple(n: int, p: int)
    requires n > 1 && p > 0
    ensures n * p > p && (n * p) % p == 0
  {
    var q := n * p / p;
    Multiples(n - 1, p);
    Multiples(n - q, p);
    assert (n - q) * p == n * p - q * p == n * p % p;
  }

  lemma {:induction false} Multiples(d: int, p: int)
    requires p > 0
    ensures d > 0 ==> d * p >= p
    ensures d < 0 ==> d * p < 0
    ensures d == 0 ==> d * p == 0
  {
    assert d * p == p + (d - 1) * p;
  }

  function SlotRank(s: Stock): int {
    if OrElse(s.productLocation, 0) == 0 then 2
    else if s.status == Some("active") && s.primary == Some(1) then 0
    else if s.status == Some("active") then 1
    else 3
  }

  /** What whole source units bring beyond the quantity in the slot. */
  function Overfill(slot: Slot, v: Variant): int {
    var need, u := if slot.qty > 1 then slot.qty else 1, Units(v.unitsPerVariant);
    (need + u - 1) / u * u - need
  }

  /** Slot quantity and overfill together make `k` whole source units, and no fewer would do. */
  lemma {:induction false} OverfillIsLeast(slot: Slot, v: Variant) returns (k: nat)
    ensures var need, u := if slot.qty > 1 then slot.qty else 1, Units(v.unitsPerVariant);
      need + Overfill(slot, v) == k * u && 0 <= Overfill(slot, v) < u
  {
    var need, u := if slot.qty > 1 then slot.qty else 1, Units(v.unitsPerVariant);
    k := (need + u - 1) / u;
  }

  // ---------------------------------------------------------- stock of one variant

  predicate Usable(s: Stock, variant: int, locationType: string, warehouse: Option<int>) {
    && s.variant == variant
    && s.qty > 0
    && s.locationType == locationType
    && s.active
    && !s.frozen
    && (warehouse.None? || s.warehouse == warehouse)
  }

  function UsableStocks(stocks: seq<Stock>, variant: int, locationType: string, warehouse: Option<int>): seq<Stock> {
    if stocks == [] then []
    else
      (if Usable(stocks[0], variant, locationType, warehouse) then [stocks[0]] else [])
      + UsableStocks(stocks[1..], variant, locationType, warehouse)
  }

  /** Oldest update first, then pick sequence, then location. */
  function StockKey(s: Stock): seq<int> {
    [OrElse(s.updated, 0), OrElse(s.pickSequence, MAX_SAFE_INTEGER), s.location]
  }

  function SourceStocksForVariant(
    variant: int, locationType: string, warehouse: Option<int>, stocks: seq<Stock>): seq<Stock>
  {
    Sort(By(StockKey), UsableStocks(stocks, variant, locationType, warehouse))
  }

  lemma {:induction false} UsableStocksMembers(
    stocks: seq<Stock>, variant: int, locationType: string, warehouse: Option<int>)
    ensures forall s :: s in UsableStocks(stocks, variant, locationType, warehouse) <==>
              s in stocks && Usable(s, variant, locationType, warehouse)
  {
    if stocks != [] {
      UsableStocksMembers(stocks[1..], variant, locationType, warehouse);
      assert forall s :: s in stocks <==> s == stocks[0] || s in stocks[1..];
    }
  }

  // ---------------------------------------------------------- candidates

  datatype Candidate = Candidate(variant: Variant, stock: Stock)

  /** What one audit of a slot looks for. */
  datatype Search = Search(slot: Slot, locationType: string, stocks: seq<Stock>)

  function Tagged(v: Variant, ss: seq<Stock>): seq<Candidate> {
    seq(|ss|, i requires 0 <= i < |ss| => Candidate(v, ss[i]))
  }

  /** `flatMap`: the variants in order, each with its stock rows in their own order. */
  function AllCandidates(vs: seq<Variant>, q: Search): seq<Candidate> {
    if vs == [] then []
    else
      Tagged(vs[0], SourceStocksForVariant(vs[0].id, q.locationType, q.slot.warehouse, q.stocks))
      + AllCandidates(vs[1..], q)
  }

  /** The keys of the second sort. */
  function CandidateKey(slot: Slot): Candidate -> seq<int> {
    (c: Candidate) =>
      [SlotRank(c.stock), Overfill(slot, c.variant), Units(c.variant.unitsPerVariant),
       OrElse(c.stock.pickSequence, MAX_SAFE_INTEGER), c.variant.id]
  }

  /** The keys of the one sort that the two amount to. */
  function FullKey(slot: Slot): Candidate -> seq<int> {
    (c: Candidate) => CandidateKey(slot)(c) + [OrElse(c.stock.updated, 0), c.stock.location]
  }

  function Eligible(vs: seq<Variant>, q: Search): seq<Candidate> {
    Sort(By(CandidateKey(q.slot)), AllCandidates(vs, q))
  }

  lemma {:induction false} AllCandidatesMembers(vs: seq<Variant>, q: Search)
    ensures forall c :: c in AllCandidates(vs, q) <==>
              c.variant in vs && c.stock in q.stocks && Usable(c.stock, c.variant.id, q.locationType, q.slot.warehouse)
  {
    if vs != [] {
      AllCandidatesMembers(vs[1..], q);
      UsableStocksMembers(q.stocks, vs[0].id, q.locationType, q.slot.warehouse);
      var own := SourceStocksForVariant(vs[0].id, q.locationType, q.slot.warehouse, q.stocks);
      SortMultiset(By(StockKey), UsableStocks(q.stocks, vs[0].id, q.locationType, q.slot.warehouse));
      TaggedMembers(vs[0], own);
      assert forall v :: v in vs <==> v == vs[0] || v in vs[1..];
    }
  }

  lemma {:induction false} TaggedMembers(v: Variant, ss: seq<Stock>)
    ensures forall c :: c in Tagged(v, ss) <==> c.variant == v && c.stock in ss
  {
    forall c: Candidate | c.variant == v && c.stock in ss ensures c in Tagged(v, ss) {
      var i :| 0 <= i < |ss| && ss[i] == c.stock;
      assert Tagged(v, ss)[i] == c;
    }
  }

  ghost predicate DistinctVariants(vs: seq<Variant>) {
    forall i, j :: 0 <= i < j < |vs| ==> vs[i].id != vs[j].id
  }

  /** Candidates that the second sort leaves tied stand in the order of their stock keys. */
  ghost predicate TiesByStock(cs: seq<Candidate>) {
    forall i, j :: 0 <= i < j < |cs| && cs[i].variant.id == cs[j].variant.id ==>
      LexLe(StockKey(cs[i].stock), StockKey(cs[j].stock))
  }

  lemma {:induction false} FlatMapTies(vs: seq<Variant>, q: Search)
    requires DistinctVariants(vs)
    ensures TiesByStock(AllCandidates(vs, q))
  {
    if vs != [] {
      FlatMapTies(vs[1..], q);
      AllCandidatesMembers(vs[1..], q);
      var usable := UsableStocks(q.stocks, vs[0].id, q.locationType, q.slot.warehouse);
      ByIsPreorder(StockKey);
      SortRefines(By(StockKey), By(StockKey), usable);
      TiesAcross(vs[0], Sort(By(StockKey), usable), AllCandidates(vs[1..], q));
    }
  }

  lemma {:induction false} TiesAcross(v: Variant, own: seq<Stock>, rest: seq<Candidate>)
    requires Pairwise(By(StockKey), own) && TiesByStock(rest)
    requires forall c :: c in rest ==> c.variant.id != v.id
    ensures TiesByStock(Tagged(v, own) + rest)
  {
    var all := Tagged(v, own) + rest;
    forall k | 0 <= k < |rest| ensures rest[k].variant.id != v.id {
      assert rest[k] in rest;
    }
    forall i, j | 0 <= i < j < |all| && all[i].variant.id == all[j].variant.id
      ensures LexLe(StockKey(all[i].stock), StockKey(all[j].stock))
    {
      if j < |own| {
        assert By(StockKey)(own[i], own[j]);
      } else if i >= |own| {
        assert all[i] == rest[i - |own|] && all[j] == rest[j - |own|];
      }
    }
  }

  /** The two sorts, one inside the other, leave the candidates in the order of the full key. */
  lemma {:induction false} EligibleIsLexicographic(vs: seq<Variant>, q: Search)
    requires DistinctVariants(vs)
    ensures Pairwise(By(FullKey(q.slot)), Eligible(vs, q))
  {
    var short, full, cs := CandidateKey(q.slot), FullKey(q.slot), AllCandidates(vs, q);
    ByIsPreorder(short);
    LongerKeyRefines(short, full);
    FlatMapTies(vs, q);
    forall i, j | 0 <= i < j < |cs| && By(short)(cs[i], cs[j]) && By(short)(cs[j], cs[i])
      ensures By(full)(cs[i], cs[j])
    {
      LexTotal(short(cs[i]), short(cs[j]));
      TieBroken(q.slot, cs[i], cs[j]);
    }
    SortRefines(By(short), By(full), cs);
  }

  lemma {:induction false} TieBroken(slot: Slot, c: Candidate, d: Candidate)
    requires CandidateKey(slot)(c) == CandidateKey(slot)(d) && LexLe(StockKey(c.stock), StockKey(d.stock))
    ensures LexLe(FullKey(slot)(c), FullKey(slot)(d))
  {
    var k, l := CandidateKey(slot)(c), CandidateKey(slot)(d);
    assert k[3] == l[3];
    var a, b := [OrElse(c.stock.updated, 0), c.stock.location], [OrElse(d.stock.updated, 0), d.stock.location];
    LexTotal(k, l);
    LexAppend(k, l, a, b);
    LexShort(OrElse(c.stock.updated, 0), k[3], c.stock.location, OrElse(d.stock.updated, 0), d.stock.location);
  }

  lemma {:induction false} LexShort(u: int, p: int, x: int, v: int, y: int)
    ensures LexLe([u, p, x], [v, p, y]) <==> LexLe([u, x], [v, y])
  {
    assert [u, p, x][1..] == [p, x] && [v, p, y][1..] == [p, y];
    assert [p, x][1..] == [x] && [p, y][1..] == [y];
    assert [u, x][1..] == [x] && [v, y][1..] == [y];
  }

  /** The selected source is a least valid candidate. */
  lemma {:induction false} SelectedIsLeast(vs: seq<Variant>, q: Search)
    requires DistinctVariants(vs) && Eligible(vs, q) != []
    ensures var best := Eligible(vs, q)[0];
      && best.variant in vs && best.stock in q.stocks
      && Usable(best.stock, best.variant.id, q.locationType, q.slot.warehouse)
      && forall v, s :: v in vs && s in q.stocks && Usable(s, v.id, q.locationType, q.slot.warehouse) ==>
           LexLe(FullKey(q.slot)(best), FullKey(q.slot)(Candidate(v, s)))
  {
    var es := Eligible(vs, q);
    AllCandidatesMembers(vs, q);
    SortMultiset(By(CandidateKey(q.slot)), AllCandidates(vs, q));
    EligibleIsLexicographic(vs, q);
    assert es[0] in es;
    forall v, s | v in vs && s in q.stocks && Usable(s, v.id, q.locationType, q.slot.warehouse)
      ensures LexLe(FullKey(q.slot)(es[0]), FullKey(q.slot)(Candidate(v, s)))
    {
      var c := Candidate(v, s);
      assert c in es;
      var i :| 0 <= i < |es| && es[i] == c;
      assert i > 0 ==> By(FullKey(q.slot))(es[0], es[i]);
      LexTotal(FullKey(q.slot)(c), FullKey(q.slot)(c));
    }
  }

  predicate HasSlot(s: Stock) { s.productLocation.Some? && s.productLocation.value != 0 }

  predicate IsActiveSlot(s: Stock) { HasSlot(s) && s.status == Some("active") }

  predicate IsPrimarySlot(s: Stock) { IsActiveSlot(s) && s.primary == Some(1) }

  predicate SameKindOfSlot(s: Stock, t: Stock) {
    && (IsPrimarySlot(s) <==> IsPrimarySlot(t))
    && (IsActiveSlot(s) <==> IsActiveSlot(t))
    && (HasSlot(s) <==> HasSlot(t))
  }

  /** Stock in an active primary slot comes before other active slots, those before stock without a
      slot, and that before stock whose slot is not active. */
  lemma {:induction false} SlotRankOrder(s: Stock, t: Stock)
    ensures IsPrimarySlot(s) && !IsPrimarySlot(t) ==> SlotRank(s) < SlotRank(t)
    ensures IsActiveSlot(s) && !IsActiveSlot(t) ==> SlotRank(s) < SlotRank(t)
    ensures !HasSlot(s) && HasSlot(t) && !IsActiveSlot(t) ==> SlotRank(s) < SlotRank(t)
    ensures SameKindOfSlot(s, t) ==> SlotRank(s) == SlotRank(t)
    ensures IsPrimarySlot(s) <==> SlotRank(s) == 0
  {
  }

  /** So whatever else the candidates differ in, the source selected is in the best kind of slot that
      any valid candidate has, and among those it leaves the least over. */
  lemma {:induction false} BestSlotIsSelected(vs: seq<Variant>, q: Search, v: Variant, s: Stock)
    requires DistinctVariants(vs) && v in vs && s in q.stocks && Usable(s, v.id, q.locationType, q.slot.warehouse)
    ensures Eligible(vs, q) != []
    ensures var best := Eligible(vs, q)[0];
      && (IsPrimarySlot(s) ==> IsPrimarySlot(best.stock))
      && (IsActiveSlot(s) ==> IsActiveSlot(best.stock))
      && (!HasSlot(s) ==> IsActiveSlot(best.stock) || !HasSlot(best.stock))
      && (SlotRank(s) == SlotRank(best.stock) ==> Overfill(q.slot, best.variant) <= Overfill(q.slot, v))
  {
    EligibleMembers(vs, q);
    SelectedIsLeast(vs, q);
    var best := Eligible(vs, q)[0];
    FullKeyParts(q.slot, best);
    FullKeyParts(q.slot, Candidate(v, s));
    FirstKeys(FullKey(q.slot)(best), FullKey(q.slot)(Candidate(v, s)));
    SlotRankOrder(s, best.stock);
    SlotRankOrder(best.stock, s);
  }

  lemma {:induction false} FirstKeys(a: seq<int>, b: seq<int>)
    requires |a| > 1 && |b| > 1 && LexLe(a, b)
    ensures a[0] <= b[0] && (a[0] == b[0] ==> a[1] <= b[1])
  {
    assert a[1..][0] == a[1] && b[1..][0] == b[1];
  }

  // ---------------------------------------------------------- independence of row order

  /** One stock row for each variant and location. */
  ghost predicate DistinctStocks(ss: seq<Stock>) {
    forall i, j :: 0 <= i < j < |ss| ==> ss[i].variant != ss[j].variant || ss[i].location != ss[j].location
  }

  predicate OtherSource(c: Candidate, d: Candidate) {
    c.variant.id != d.variant.id || c.stock.location != d.stock.location
  }

  lemma {:induction false} CandidatesDistinct(vs: seq<Variant>, q: Search)
    requires DistinctVariants(vs) && DistinctStocks(q.stocks)
    ensures Pairwise(OtherSource, AllCandidates(vs, q))
  {
    if vs != [] {
      CandidatesDistinct(vs[1..], q);
      AllCandidatesMembers(vs[1..], q);
      UsableDistinct(q.stocks, vs[0].id, q.locationType, q.slot.warehouse);
      var usable := UsableStocks(q.stocks, vs[0].id, q.locationType, q.slot.warehouse);
      SortKeepsSymmetric(By(StockKey), OtherLocation, usable);
      var own, rest := Sort(By(StockKey), usable), AllCandidates(vs[1..], q);
      forall i, j | 0 <= i < j < |own| + |rest|
        ensures OtherSource((Tagged(vs[0], own) + rest)[i], (Tagged(vs[0], own) + rest)[j])
      {
        if j < |own| {
          assert OtherLocation(own[i], own[j]);
        } else if i < |own| {
          assert rest[j - |own|] in rest;
        } else {
          assert OtherSource(rest[i - |own|], rest[j - |own|]);
        }
      }
    }
  }

  predicate OtherLocation(s: Stock, t: Stock) { s.location != t.location }

  lemma {:induction false} UsableDistinct(
    stocks: seq<Stock>, variant: int, locationType: string, warehouse: Option<int>)
    requires DistinctStocks(stocks)
    ensures Pairwise(OtherLocation, UsableStocks(stocks, variant, locationType, warehouse))
  {
    if stocks != [] {
      assert DistinctStocks(stocks[1..]);
      UsableDistinct(stocks[1..], variant, locationType, warehouse);
      UsableStocksMembers(stocks[1..], variant, locationType, warehouse);
      var rest := UsableStocks(stocks[1..], variant, locationType, warehouse);
      if Usable(stocks[0], variant, locationType, warehouse) {
        forall j | 0 <= j < |rest| ensures rest[j].location != stocks[0].location {
          assert rest[j] in rest && rest[j] in stocks[1..];
        }
      }
    }
  }

  /** The candidates, counted: one for each variant and each stock row of it that may be used. */
  lemma {:induction false} UsableCount(stocks: seq<Stock>, q: Search, variant: int, s: Stock)
    ensures multiset(UsableStocks(stocks, variant, q.locationType, q.slot.warehouse))[s]
         == if Usable(s, variant, q.locationType, q.slot.warehouse) then multiset(stocks)[s] else 0
  {
    if stocks != [] {
      UsableCount(stocks[1..], q, variant, s);
      assert stocks == [stocks[0]] + stocks[1..];
    }
  }

  lemma {:induction false} TaggedCount(v: Variant, ss: seq<Stock>, c: Candidate)
    ensures multiset(Tagged(v, ss))[c] == if c.variant == v then multiset(ss)[c.stock] else 0
  {
    if ss == [] {
      assert Tagged(v, ss) == [];
    } else {
      TaggedCount(v, ss[1..], c);
      assert ss == [ss[0]] + ss[1..];
      assert Tagged(v, ss) == [Candidate(v, ss[0])] + Tagged(v, ss[1..]);
    }
  }

  lemma {:induction false} CandidateCount(vs: seq<Variant>, q: Search, c: Candidate)
    requires DistinctVariants(vs)
    ensures multiset(AllCandidates(vs, q))[c]
         == if c.variant in vs && Usable(c.stock, c.variant.id, q.locationType, q.slot.warehouse)
            then multiset(q.stocks)[c.stock] else 0
  {
    if vs != [] {
      CandidateCount(vs[1..], q, c);
      var usable := UsableStocks(q.stocks, vs[0].id, q.locationType, q.slot.warehouse);
      SortMultiset(By(StockKey), usable);
      TaggedCount(vs[0], Sort(By(StockKey), usable), c);
      UsableCount(q.stocks, q, vs[0].id, c.stock);
      assert c.variant in vs <==> c.variant == vs[0] || c.variant in vs[1..];
      assert c.variant in vs[1..] ==> c.variant != vs[0];
    }
  }

  /** Other orders of the same rows bring the same candidates. */
  ghost predicate SameRows(vs: seq<Variant>, q: Search, ws: seq<Variant>, p: Search) {
    && multiset(vs) == multiset(ws)
    && p == q.(stocks := p.stocks)
    && multiset(q.stocks) == multiset(p.stocks)
  }

  lemma {:induction false} StillDistinct(vs: seq<Variant>, ws: seq<Variant>)
    requires DistinctVariants(vs) && multiset(vs) == multiset(ws)
    ensures DistinctVariants(ws)
  {
    assert |multiset(vs)| == |vs| && |multiset(ws)| == |ws|;
    assert NoRepeats(vs);
    SameMembers(vs, ws);
    forall i, j | 0 <= i < j < |ws| ensures ws[i].id != ws[j].id {
      if ws[i].id == ws[j].id {
        SameId(vs, ws[i], ws[j]);
        AtMostOnce(vs, ws[i]);
        TwicePlaced(ws, i, j);
        assert false;
      }
    }
  }

  lemma {:induction false} SameId(vs: seq<Variant>, v: Variant, w: Variant)
    requires DistinctVariants(vs) && v in vs && w in vs && v.id == w.id
    ensures v == w
  {
    var i :| 0 <= i < |vs| && vs[i] == v;
    var j :| 0 <= j < |vs| && vs[j] == w;
    assert i == j by { SameIdPlace(vs, i, j); }
  }

  lemma {:induction false} SameIdPlace(vs: seq<Variant>, i: nat, j: nat)
    requires DistinctVariants(vs) && i < |vs| && j < |vs| && vs[i].id == vs[j].id
    ensures i == j
  {}

  lemma {:induction false} SameCandidates(vs: seq<Variant>, q: Search, ws: seq<Variant>, p: Search)
    requires DistinctVariants(vs) && SameRows(vs, q, ws, p)
    ensures DistinctVariants(ws) && multiset(AllCandidates(vs, q)) == multiset(AllCandidates(ws, p))
    ensures multiset(Eligible(vs, q)) == multiset(Eligible(ws, p))
  {
    StillDistinct(vs, ws);
    SameMembers(vs, ws);
    forall c ensures multiset(AllCandidates(vs, q))[c] == multiset(AllCandidates(ws, p))[c] {
      CandidateCount(vs, q, c);
      CandidateCount(ws, p, c);
    }
    SortMultiset(By(CandidateKey(q.slot)), AllCandidates(vs, q));
    SortMultiset(By(CandidateKey(q.slot)), AllCandidates(ws, p));
  }

  /** Candidates that look alike in everything the audit says about them but the quantity. */
  ghost predicate LooksAlike(slot: Slot, c: Candidate, d: Candidate) {
    && c.variant.id == d.variant.id
    && c.stock.location == d.stock.location
    && SlotRank(c.stock) == SlotRank(d.stock)
    && Overfill(slot, c.variant) == Overfill(slot, d.variant)
  }

  /** `inventory_levels` holds one quantity for each variant and location. */
  ghost predicate OneLevelEach(ss: seq<Stock>) {
    forall s, t :: s in ss && t in ss && s.variant == t.variant && s.location == t.location ==> s.qty == t.qty
  }

  /** In whatever order the rows arrive, with or without repeated ones, the candidates found look the
      same one by one: in particular the variant and the location selected. */
  lemma {:induction false} RowOrderIrrelevant(vs: seq<Variant>, q: Search, ws: seq<Variant>, p: Search)
    requires DistinctVariants(vs) && SameRows(vs, q, ws, p)
    ensures |Eligible(vs, q)| == |Eligible(ws, p)|
    ensures forall i :: 0 <= i < |Eligible(vs, q)| ==> LooksAlike(q.slot, Eligible(vs, q)[i], Eligible(ws, p)[i])
    ensures OneLevelEach(q.stocks) ==>
      forall i :: 0 <= i < |Eligible(vs, q)| ==> Eligible(vs, q)[i].stock.qty == Eligible(ws, p)[i].stock.qty
  {
    var a, b, key := Eligible(vs, q), Eligible(ws, p), FullKey(q.slot);
    SameCandidates(vs, q, ws, p);
    EligibleIsLexicographic(vs, q);
    EligibleIsLexicographic(ws, p);
    OrderedKeys(key, a, b);
    SameMembers(a, b);
    AllCandidatesMembers(vs, q);
    SortMultiset(By(CandidateKey(q.slot)), AllCandidates(vs, q));
    forall i | 0 <= i < |a|
      ensures LooksAlike(q.slot, a[i], b[i]) && a[i].stock in q.stocks && b[i].stock in q.stocks
      ensures a[i].stock.variant == b[i].stock.variant && a[i].stock.location == b[i].stock.location
    {
      FullKeyParts(q.slot, a[i]);
      FullKeyParts(q.slot, b[i]);
      assert a[i] in a && b[i] in b;
    }
  }

  function Keys<T(!new)>(key: T -> seq<int>, s: seq<T>): seq<seq<int>> {
    seq(|s|, i requires 0 <= i < |s| => key(s[i]))
  }

  lemma {:induction false} KeysPermuted<T(!new)>(key: T -> seq<int>, a: seq<T>, b: seq<T>)
    requires multiset(a) == multiset(b)
    ensures multiset(Keys(key, a)) == multiset(Keys(key, b))
  {
    SameMembers(a, b);
    if a == [] {
      assert Keys(key, a) == Keys(key, b);
    } else {
      assert a[0] in b;
      var i :| 0 <= i < |b| && b[i] == a[0];
      var rest := b[..i] + b[i + 1..];
      RemoveOne(b, i);
      assert a == [a[0]] + a[1..];
      KeysPermuted(key, a[1..], rest);
      assert Keys(key, a) == [key(a[0])] + Keys(key, a[1..]);
      KeysWithout(key, b, i);
    }
  }

  lemma {:induction false} KeysWithout<T(!new)>(key: T -> seq<int>, b: seq<T>, i: nat)
    requires i < |b|
    ensures multiset(Keys(key, b)) == multiset(Keys(key, b[..i] + b[i + 1..])) + multiset{key(b[i])}
  {
    assert Keys(key, b[..i] + b[i + 1..]) == Keys(key, b)[..i] + Keys(key, b)[i + 1..];
    RemoveOne(Keys(key, b), i);
    assert key(b[i]) in multiset(Keys(key, b)) by { assert Keys(key, b)[i] == key(b[i]); }
  }

  /** Two orderings of one bag by a key show the same keys. */
  lemma {:induction false} OrderedKeys<T(!new)>(key: T -> seq<int>, a: seq<T>, b: seq<T>)
    requires multiset(a) == multiset(b) && Pairwise(By(key), a) && Pairwise(By(key), b)
    ensures |a| == |b| && forall i :: 0 <= i < |a| ==> key(a[i]) == key(b[i])
  {
    var k, l := Keys(key, a), Keys(key, b);
    SameMembers(a, b);
    KeysPermuted(key, a, b);
    forall i, j | 0 <= i < j < |k| ensures LexLe(k[i], k[j]) && LexLe(l[i], l[j]) {
      assert By(key)(a[i], a[j]) && By(key)(b[i], b[j]);
    }
    forall x, y | x in k && y in k && LexLe(x, y) && LexLe(y, x) ensures x == y { LexTotal(x, y); }
    OrderedUnique(LexLe, k, l);
    forall i | 0 <= i < |a| ensures key(a[i]) == key(b[i]) {
      assert k[i] == l[i];
    }
  }

  /** The candidate list itself is the same in every order of the rows. */
  ghost predicate ListIsFixed(vs: seq<Variant>, q: Search) {
    forall ws, p :: SameRows(vs, q, ws, p) ==> Eligible(ws, p) == Eligible(vs, q)
  }

  /** No two different candidates agree on all seven keys. */
  ghost predicate NoTies(vs: seq<Variant>, q: Search) {
    forall c, d :: c in AllCandidates(vs, q) && d in AllCandidates(vs, q) && FullKey(q.slot)(c) == FullKey(q.slot)(d)
      ==> c == d
  }

  /** The list does not depend on the order of the rows if and only if no two different candidates
      tie; then it is the plain sort by the full key. */
  lemma {:induction false} ListIsFixedExactly(vs: seq<Variant>, q: Search)
    requires DistinctVariants(vs)
    ensures ListIsFixed(vs, q) <==> NoTies(vs, q)
    ensures NoTies(vs, q) ==> Eligible(vs, q) == Sort(By(FullKey(q.slot)), AllCandidates(vs, q))
  {
    if NoTies(vs, q) {
      EligibleIsSort(vs, q);
      forall ws, p | SameRows(vs, q, ws, p) ensures Eligible(ws, p) == Eligible(vs, q) {
        SameCandidates(vs, q, ws, p);
        SameMembers(AllCandidates(vs, q), AllCandidates(ws, p));
        EligibleIsSort(ws, p);
        OrderOfInputIrrelevant(FullKey(q.slot), AllCandidates(vs, q), AllCandidates(ws, p));
      }
    } else {
      var c, d :| c in AllCandidates(vs, q) && d in AllCandidates(vs, q)
                  && FullKey(q.slot)(c) == FullKey(q.slot)(d) && c != d;
      TieMoves(vs, q, c, d);
    }
  }

  /** With unique (variant, location) pairs there are no ties. */
  lemma {:induction false} DistinctPairsDoNotTie(vs: seq<Variant>, q: Search)
    requires DistinctVariants(vs) && DistinctStocks(q.stocks)
    ensures NoTies(vs, q)
  {
    CandidatesDistinct(vs, q);
    KeysTellApart(AllCandidates(vs, q), q.slot);
  }

  // ---------------------------------------------------------- moving a tied row to the front

  lemma {:induction false} UsableKeepsPairwise(r: (Stock, Stock) -> bool, ss: seq<Stock>, variant: int, q: Search)
    requires Pairwise(r, ss)
    ensures Pairwise(r, UsableStocks(ss, variant, q.locationType, q.slot.warehouse))
  {
    if ss != [] {
      assert Pairwise(r, ss[1..]);
      UsableKeepsPairwise(r, ss[1..], variant, q);
      UsableStocksMembers(ss[1..], variant, q.locationType, q.slot.warehouse);
      var rest := UsableStocks(ss[1..], variant, q.locationType, q.slot.warehouse);
      forall j | 0 <= j < |rest| ensures r(ss[0], rest[j]) {
        assert rest[j] in ss[1..];
        var k :| 0 <= k < |ss[1..]| && ss[1..][k] == rest[j];
        assert r(ss[0], ss[k + 1]);
      }
    }
  }

  /** Ordered by the key, and among equal keys all copies of `c` first. */
  function FrontInTie<T(==, !new)>(key: T -> seq<int>, c: T): (T, T) -> bool {
    (x, y) => LexLe(key(x), key(y)) && (key(x) == key(y) && y == c ==> x == c)
  }

  lemma {:induction false} FrontInTieRefines<T(!new)>(key: T -> seq<int>, c: T)
    ensures Refines(FrontInTie(key, c), By(key))
  {
    forall x, y ensures By(key)(x, y) && !By(key)(y, x) ==> FrontInTie(key, c)(x, y) {
      LexTotal(key(x), key(y));
    }
  }

  /** Stable sorting leaves a row in front of those it ties with. */
  lemma {:induction false} SortKeepsFront<T(!new)>(key: T -> seq<int>, c: T, ss: seq<T>)
    requires Pairwise(Fronting(c), ss)
    ensures Pairwise(FrontInTie(key, c), Sort(By(key), ss))
  {
    ByIsPreorder(key);
    FrontInTieRefines(key, c);
    forall i, j | 0 <= i < j < |ss| && By(key)(ss[i], ss[j]) && By(key)(ss[j], ss[i])
      ensures FrontInTie(key, c)(ss[i], ss[j])
    {
      assert Fronting(c)(ss[i], ss[j]);
    }
    SortRefines(By(key), FrontInTie(key, c), ss);
  }

  /** Among candidates of its variant whose stock ties with its own, `c` stands first. */
  ghost predicate FrontOfVariant(c: Candidate, cs: seq<Candidate>) {
    forall i, j ::
      (0 <= i < j < |cs| && cs[j] == c && cs[i].variant == c.variant && StockKey(cs[i].stock) == StockKey(c.stock))
      ==> cs[i] == c
  }

  lemma {:induction false} FlatMapKeepsFront(vs: seq<Variant>, q: Search, c: Candidate)
    requires DistinctVariants(vs) && Pairwise(Fronting(c.stock), q.stocks)
    ensures FrontOfVariant(c, AllCandidates(vs, q))
  {
    if vs != [] {
      FlatMapKeepsFront(vs[1..], q, c);
      AllCandidatesMembers(vs[1..], q);
      UsableKeepsPairwise(Fronting(c.stock), q.stocks, vs[0].id, q);
      SortKeepsFront(StockKey, c.stock, UsableStocks(q.stocks, vs[0].id, q.locationType, q.slot.warehouse));
      var own := SourceStocksForVariant(vs[0].id, q.locationType, q.slot.warehouse, q.stocks);
      var rest := AllCandidates(vs[1..], q);
      FrontAcross(vs[0], own, rest, c);
    }
  }

  lemma {:induction false} FrontAcross(v: Variant, own: seq<Stock>, rest: seq<Candidate>, c: Candidate)
    requires Pairwise(FrontInTie(StockKey, c.stock), own) && FrontOfVariant(c, rest)
    requires forall d :: d in rest ==> d.variant.id != v.id
    ensures FrontOfVariant(c, Tagged(v, own) + rest)
  {
    var cs := Tagged(v, own) + rest;
    forall i, j | 0 <= i < j < |cs| && cs[j] == c && cs[i].variant == c.variant
      && StockKey(cs[i].stock) == StockKey(c.stock)
      ensures cs[i] == c
    {
      if j < |own| {
        assert FrontInTie(StockKey, c.stock)(own[i], own[j]);
      } else {
        assert cs[j] == rest[j - |own|] && rest[j - |own|] in rest;
        assert cs[i] == rest[i - |own|];
      }
    }
  }

  lemma {:induction false} EligibleKeepsFront(vs: seq<Variant>, q: Search, c: Candidate)
    requires DistinctVariants(vs) && Pairwise(Fronting(c.stock), q.stocks)
    ensures Pairwise(FrontInTie(FullKey(q.slot), c), Eligible(vs, q))
  {
    var short, full, cs := CandidateKey(q.slot), FullKey(q.slot), AllCandidates(vs, q);
    var r := FrontInTie(full, c);
    ByIsPreorder(short);
    LongerKeyRefines(short, full);
    FrontInTieRefines(full, c);
    FlatMapTies(vs, q);
    FlatMapKeepsFront(vs, q, c);
    AllCandidatesMembers(vs, q);
    forall i, j | 0 <= i < j < |cs| && By(short)(cs[i], cs[j]) && By(short)(cs[j], cs[i]) ensures r(cs[i], cs[j]) {
      LexTotal(short(cs[i]), short(cs[j]));
      TieBroken(q.slot, cs[i], cs[j]);
      if full(cs[i]) == full(cs[j]) && cs[j] == c {
        assert cs[i] in cs && cs[j] in cs;
        TiedParts(q.slot, cs[i], cs[j]);
        SameId(vs, cs[i].variant, cs[j].variant);
      }
    }
    forall x, y
      ensures By(short)(x, y) && !By(short)(y, x) ==> r(x, y)
      ensures r(x, y) ==> By(short)(x, y)
    {
      assert By(short)(x, y) && !By(short)(y, x) ==> By(full)(x, y);
      if full(x) == full(y) {
        assert By(full)(x, y) ==> By(short)(x, y);
        assert By(full)(y, x) ==> By(short)(y, x);
      }
    }
    SortRefines(By(short), r, cs);
  }

  lemma {:induction false} TiedParts(slot: Slot, c: Candidate, d: Candidate)
    requires FullKey(slot)(c) == FullKey(slot)(d)
    ensures c.variant.id == d.variant.id && StockKey(c.stock) == StockKey(d.stock)
  {
    FullKeyParts(slot, c);
    FullKeyParts(slot, d);
  }

  /** Of two tied candidates either comes first, for some order of the stock rows. */
  lemma {:induction false} TieMoves(vs: seq<Variant>, q: Search, c: Candidate, d: Candidate)
    requires DistinctVariants(vs)
    requires c in AllCandidates(vs, q) && d in AllCandidates(vs, q)
    requires c != d && FullKey(q.slot)(c) == FullKey(q.slot)(d)
    ensures !ListIsFixed(vs, q)
  {
    AllCandidatesMembers(vs, q);
    var p, o := q.(stocks := Fronted(c.stock, q.stocks)), q.(stocks := Fronted(d.stock, q.stocks));
    FrontedFacts(c.stock, q.stocks);
    FrontedFacts(d.stock, q.stocks);
    EligibleKeepsFront(vs, p, c);
    EligibleKeepsFront(vs, o, d);
    SortMultiset(By(CandidateKey(q.slot)), AllCandidates(vs, q));
    if ListIsFixed(vs, q) {
      assert SameRows(vs, q, vs, p) && SameRows(vs, q, vs, o);
      FrontsClash(FullKey(q.slot), Eligible(vs, q), c, d);
    }
  }

  lemma {:induction false} FrontsClash<T(!new)>(key: T -> seq<int>, s: seq<T>, c: T, d: T)
    requires c in s && d in s && key(c) == key(d)
    requires Pairwise(FrontInTie(key, c), s) && Pairwise(FrontInTie(key, d), s)
    ensures c == d
  {
    var i :| 0 <= i < |s| && s[i] == c;
    var j :| 0 <= j < |s| && s[j] == d;
    assert i < j ==> FrontInTie(key, d)(c, d);
    assert j < i ==> FrontInTie(key, c)(d, c);
  }

  lemma {:induction false} KeysTellApart(a: seq<Candidate>, slot: Slot)
    requires Pairwise(OtherSource, a)
    ensures forall x, y :: x in a && y in a && FullKey(slot)(x) == FullKey(slot)(y) ==> x == y
  {
    forall x, y | x in a && y in a && FullKey(slot)(x) == FullKey(slot)(y) ensures x == y {
      var i :| 0 <= i < |a| && a[i] == x;
      var j :| 0 <= j < |a| && a[j] == y;
      FullKeyParts(slot, x);
      FullKeyParts(slot, y);
      assert i < j ==> OtherSource(x, y);
      assert j < i ==> OtherSource(y, x);
    }
  }

  lemma {:induction false} FullKeyParts(slot: Slot, c: Candidate)
    ensures FullKey(slot)(c)
         == [SlotRank(c.stock), Overfill(slot, c.variant), Units(c.variant.unitsPerVariant),
             OrElse(c.stock.pickSequence, MAX_SAFE_INTEGER), c.variant.id, OrElse(c.stock.updated, 0), c.stock.location]
    ensures |FullKey(slot)(c)| == 7
    ensures FullKey(slot)(c)[0] == SlotRank(c.stock) && FullKey(slot)(c)[1] == Overfill(slot, c.variant)
    ensures FullKey(slot)(c)[3] == OrElse(c.stock.pickSequence, MAX_SAFE_INTEGER)
    ensures FullKey(slot)(c)[4] == c.variant.id
    ensures FullKey(slot)(c)[5] == OrElse(c.stock.updated, 0) && FullKey(slot)(c)[6] == c.stock.location
  {
    var k := CandidateKey(slot)(c);
    assert FullKey(slot)(c) == k + [OrElse(c.stock.updated, 0), c.stock.location];
  }

  lemma {:induction false} EligibleIsSort(vs: seq<Variant>, q: Search)
    requires DistinctVariants(vs) && NoTies(vs, q)
    ensures Eligible(vs, q) == Sort(By(FullKey(q.slot)), AllCandidates(vs, q))
  {
    var full, cs := FullKey(q.slot), AllCandidates(vs, q);
    EligibleIsLexicographic(vs, q);
    SortMultiset(By(CandidateKey(q.slot)), cs);
    ByIsPreorder(full);
    SortMultiset(By(full), cs);
    SortRefines(By(full), By(full), cs);
    forall x, y | x in Eligible(vs, q) && y in Eligible(vs, q) && By(full)(x, y) && By(full)(y, x) ensures x == y {
      LexTotal(full(x), full(y));
    }
    OrderedUnique(By(full), Eligible(vs, q), Sort(By(full), cs));
  }

  /** Two product-location rows for one stock row leave two candidates that no key tells apart. They
      change places with the rows; the variant and location selected stay. */
  lemma {:induction false} TiedRowsSwap()
    ensures
      var slot := Slot(1, Some(1), 1, 1, Some(1), 0);
      var v := Variant(1, Some(1), 1, 1, true);
      var s := Stock(1, 7, "reserve", true, false, Some(1), 5, None, None, Some(3), Some(1), Some("active"));
      var t := s.(productLocation := Some(4));
      var a, b := Eligible([v], Search(slot, "reserve", [s, t])), Eligible([v], Search(slot, "reserve", [t, s]));
      |a| == |b| == 2 && a[0] == b[1] != a[1] == b[0] && LooksAlike(slot, a[0], b[0]) && LooksAlike(slot, a[1], b[1])
  {
    var slot := Slot(1, Some(1), 1, 1, Some(1), 0);
    var v := Variant(1, Some(1), 1, 1, true);
    var s := Stock(1, 7, "reserve", true, false, Some(1), 5, None, None, Some(3), Some(1), Some("active"));
    var t := s.(productLocation := Some(4));
    TwoStocks(v, s, t, slot);
    TwoStocks(v, t, s, slot);
  }

  lemma {:induction false} TwoStocks(v: Variant, s: Stock, t: Stock, slot: Slot)
    requires Usable(s, v.id, "reserve", slot.warehouse) && Usable(t, v.id, "reserve", slot.warehouse)
    requires StockKey(s) == StockKey(t) && CandidateKey(slot)(Candidate(v, s)) == CandidateKey(slot)(Candidate(v, t))
    ensures Eligible([v], Search(slot, "reserve", [s, t])) == [Candidate(v, s), Candidate(v, t)]
  {
    var q := Search(slot, "reserve", [s, t]);
    LexTotal(StockKey(s), StockKey(t));
    assert [s, t][1..] == [t] && [t][1..] == [];
    assert UsableStocks([t], v.id, "reserve", slot.warehouse) == [t];
    assert UsableStocks([s, t], v.id, "reserve", slot.warehouse) == [s, t];
    SortPair(By(StockKey), s, t);
    assert [v][1..] == [];
    assert AllCandidates([v], q) == [Candidate(v, s), Candidate(v, t)];
    LexTotal(CandidateKey(slot)(Candidate(v, s)), CandidateKey(slot)(Candidate(v, t)));
    SortPair(By(CandidateKey(slot)), Candidate(v, s), Candidate(v, t));
  }

  lemma {:induction false} SortPair<T(!new)>(le: (T, T) -> bool, x: T, y: T)
    requires le(x, y)
    ensures Sort(le, [x, y]) == [x, y]
  {
    assert [x, y][1..] == [y] && [y][1..] == [];
    assert Sort(le, [y]) == [y];
  }

  // ---------------------------------------------------------- rules and tier defaults

  function SkuRules(slot: Slot, rules: seq<Rule>): seq<Rule> {
    if rules == [] then []
    else (if rules[0].pickVariant == Some(slot.variant) then [rules[0]] else []) + SkuRules(slot, rules[1..])
  }

  function RuleKey(r: Rule): seq<int> { [OrElse(r.priority, 5), r.id] }

  function First<T>(s: seq<T>): Option<T> { if s == [] then None else Some(s[0]) }

  function ChooseRule(slot: Slot, rules: seq<Rule>): Option<Rule> { First(Sort(By(RuleKey), SkuRules(slot, rules))) }

  lemma {:induction false} SkuRulesMembers(slot: Slot, rules: seq<Rule>)
    ensures forall r :: r in SkuRules(slot, rules) <==> r in rules && r.pickVariant == Some(slot.variant)
  {
    if rules != [] {
      SkuRulesMembers(slot, rules[1..]);
      assert forall r :: r in rules <==> r == rules[0] || r in rules[1..];
    }
  }

  /** The rule applied is one for this very variant, of least priority number and then least id. */
  lemma {:induction false} ChosenRuleIsLeast(slot: Slot, rules: seq<Rule>)
    ensures var chosen := ChooseRule(slot, rules);
      && (chosen.None? <==> forall r :: r in rules ==> r.pickVariant != Some(slot.variant))
      && (chosen.Some? ==>
            && chosen.value in rules && chosen.value.pickVariant == Some(slot.variant)
            && forall r :: r in rules && r.pickVariant == Some(slot.variant) ==> GoesBefore(chosen.value, r))
  {
    var own := SkuRules(slot, rules);
    SkuRulesMembers(slot, rules);
    SortMultiset(By(RuleKey), own);
    if own != [] {
      FirstIsLeast(RuleKey, own);
      assert own[0] in own;
      var chosen := Sort(By(RuleKey), own)[0];
      forall r | r in rules && r.pickVariant == Some(slot.variant) ensures GoesBefore(chosen, r) {
        FirstKeys(RuleKey(chosen), RuleKey(r));
      }
    }
  }

  /** A rule without a priority has priority 5. */
  ghost predicate GoesBefore(a: Rule, b: Rule) {
    var p, q := if a.priority == None then 5 else a.priority.value, if b.priority == None then 5 else b.priority.value;
    p < q || (p == q && a.id <= b.id)
  }

  /** Of the slot's level, and of its warehouse or of none. */
  ghost predicate IsDefault(t: Tier, slot: Slot) {
    t.level == slot.level && t.warehouse in {None, slot.warehouse}
  }

  predicate Applies(t: Tier, slot: Slot) {
    t.level == slot.level && (t.warehouse.None? || t.warehouse == slot.warehouse)
  }

  function Applicable(slot: Slot, tiers: seq<Tier>): seq<Tier> {
    if tiers == [] then [] else (if Applies(tiers[0], slot) then [tiers[0]] else []) + Applicable(slot, tiers[1..])
  }

  function TierKey(slot: Slot): Tier -> seq<int> {
    (t: Tier) => [if t.warehouse == slot.warehouse then 0 else 1, t.id]
  }

  function ChooseTierDefault(slot: Slot, tiers: seq<Tier>): Option<Tier> {
    First(Sort(By(TierKey(slot)), Applicable(slot, tiers)))
  }

  lemma {:induction false} ApplicableMembers(slot: Slot, tiers: seq<Tier>)
    ensures forall t :: t in Applicable(slot, tiers) <==> t in tiers && Applies(t, slot)
  {
    if tiers != [] {
      ApplicableMembers(slot, tiers[1..]);
      assert forall t :: t in tiers <==> t == tiers[0] || t in tiers[1..];
    }
  }

  /** The warehouse's own default wins over a global one; among equals the least id. */
  lemma {:induction false} ChosenTierIsLeast(slot: Slot, tiers: seq<Tier>)
    requires slot.warehouse.Some?
    ensures var chosen := ChooseTierDefault(slot, tiers);
      && (chosen.None? <==> forall t :: t in tiers ==> !IsDefault(t, slot))
      && (chosen.Some? ==>
            && chosen.value in tiers && IsDefault(chosen.value, slot)
            && forall t :: t in tiers && IsDefault(t, slot) ==>
                 if t.warehouse == chosen.value.warehouse then chosen.value.id <= t.id
                 else chosen.value.warehouse.Some?)
  {
    var own := Applicable(slot, tiers);
    ApplicableMembers(slot, tiers);
    SortMultiset(By(TierKey(slot)), own);
    if own != [] {
      FirstIsLeast(TierKey(slot), own);
      assert own[0] in own;
      var chosen := Sort(By(TierKey(slot)), own)[0];
      forall t | t in tiers && Applies(t, slot)
        ensures if t.warehouse == chosen.warehouse then chosen.id <= t.id else chosen.warehouse.Some?
      {
        TierKeyOrder(slot, chosen, t);
      }
    }
  }

  lemma {:induction false} TierKeyOrder(slot: Slot, a: Tier, b: Tier)
    requires LexLe(TierKey(slot)(a), TierKey(slot)(b))
    ensures var x, y := if a.warehouse == slot.warehouse then 0 else 1, if b.warehouse == slot.warehouse then 0 else 1;
            x < y || (x == y && a.id <= b.id)
  {
    assert TierKey(slot)(a)[1..] == [a.id] && TierKey(slot)(b)[1..] == [b.id];
  }

  // ---------------------------------------------------------- the audit of one slot

  datatype Issue =
    | MissingWarehouse | IgnoredProductRule | MissingPolicy | ExplicitMissing | ExplicitNoStock
    | InvalidUom | FallbackSameVariant | NoSourceVariant | NoSourceStock | MultipleCandidates | NotPrimarySlotted
  {
    predicate IsError() {
      MissingWarehouse? || MissingPolicy? || ExplicitMissing? || ExplicitNoStock? || NoSourceVariant? || NoSourceStock?
    }
  }

  datatype Catalog = Catalog(variants: seq<Variant>, stocks: seq<Stock>, rules: seq<Rule>, tiers: seq<Tier>)

  function SourceVariants(vs: seq<Variant>, slot: Slot, level: int): seq<Variant> {
    if vs == [] then []
    else (if IsSourceVariant(vs[0], slot, level) then [vs[0]] else []) + SourceVariants(vs[1..], slot, level)
  }

  /** A source variant of the slot: itself at its own level, else a case that breaks into it. */
  predicate IsSourceVariant(v: Variant, slot: Slot, level: int) {
    && slot.product.Some? && v.product == slot.product
    && if level == slot.level then v.id == slot.variant
       else v.id != slot.variant && v.level == level && v.active && IsValidCaseBreakSource(v, slot)
  }

  predicate IsInvalidSameLevel(v: Variant, slot: Slot, level: int) {
    && slot.product.Some? && v.product == slot.product
    && v.id != slot.variant && v.level == level && v.active && !IsValidCaseBreakSource(v, slot)
  }

  lemma {:induction false} SourceVariantsFacts(vs: seq<Variant>, slot: Slot, level: int)
    ensures forall v :: v in SourceVariants(vs, slot, level) <==> v in vs && IsSourceVariant(v, slot, level)
    ensures DistinctVariants(vs) ==> DistinctVariants(SourceVariants(vs, slot, level))
  {
    if vs != [] {
      SourceVariantsFacts(vs[1..], slot, level);
      assert forall v :: v in vs <==> v == vs[0] || v in vs[1..];
      var rest := SourceVariants(vs[1..], slot, level);
      if DistinctVariants(vs) {
        assert DistinctVariants(vs[1..]);
        forall j | 0 <= j < |rest| ensures rest[j].id != vs[0].id {
          assert rest[j] in rest && rest[j] in vs[1..];
        }
      }
    }
  }

  /** `sku rule, else tier default, else "reserve"`. */
  function LocationTypeOf(rule: Option<Rule>, tier: Option<Tier>): string {
    if rule.Some? && rule.value.locationType.Some? then rule.value.locationType.value
    else if tier.Some? then tier.value.locationType
    else "reserve"
  }

  function SourceLevelOf(tier: Option<Tier>, slot: Slot): int {
    if tier.Some? then tier.value.sourceLevel else slot.level
  }

  ghost predicate HasPolicy(slot: Slot, k: Catalog) {
    ChooseRule(slot, k.rules).Some? || ChooseTierDefault(slot, k.tiers).Some?
  }

  ghost predicate NamesSource(slot: Slot, k: Catalog) {
    var rule := ChooseRule(slot, k.rules);
    rule.Some? && rule.value.sourceVariant.Some? && rule.value.sourceVariant.value != 0
  }

  /** A source variant of the slot: itself at its own level, else a case that breaks into it. */
  ghost predicate Supplies(v: Variant, slot: Slot, k: Catalog) {
    var tier := ChooseTierDefault(slot, k.tiers);
    var level := if tier.Some? then tier.value.sourceLevel else slot.level;
    && v in k.variants && slot.product.Some? && v.product == slot.product
    && if level == slot.level then v.id == slot.variant
       else v.id != slot.variant && v.level == level && v.active && BreaksInto(v, slot)
  }

  /** Another active variant at the source level that does not break into whole pick units. */
  ghost predicate DoesNotBreak(v: Variant, slot: Slot, k: Catalog) {
    var tier := ChooseTierDefault(slot, k.tiers);
    && v in k.variants && slot.product.Some? && v.product == slot.product
    && v.id != slot.variant && v.active && !BreaksInto(v, slot)
    && v.level == if tier.Some? then tier.value.sourceLevel else slot.level
  }

  ghost predicate HasVariant(id: int, k: Catalog) { exists w :: w in k.variants && w.id == id }

  ghost predicate HasSupply(slot: Slot, k: Catalog) { exists w :: Supplies(w, slot, k) }

  /** `v` is a variant the policy lets the slot be replenished from. The pick variant itself stands in
      when the source level offers none. */
  ghost predicate Permitted(v: int, slot: Slot, k: Catalog) {
    && HasPolicy(slot, k)
    && if NamesSource(slot, k) then
         Some(v) == ChooseRule(slot, k.rules).value.sourceVariant && HasVariant(v, k)
       else if HasSupply(slot, k) then exists w :: Supplies(w, slot, k) && w.id == v
       else v == slot.variant
  }

  /** Stock that can be moved: some of it, in an active and unfrozen location of the slot's warehouse,
      of the type that the rule names, or else the tier default, or else of type "reserve". */
  ghost predicate Movable(s: Stock, slot: Slot, k: Catalog) {
    var rule, tier := ChooseRule(slot, k.rules), ChooseTierDefault(slot, k.tiers);
    && s in k.stocks && s.qty > 0 && s.active && !s.frozen
    && slot.warehouse.Some? && s.warehouse == slot.warehouse
    && s.locationType == if rule.Some? && rule.value.locationType.Some? then rule.value.locationType.value
                         else if tier.Some? then tier.value.locationType
                         else "reserve"
  }

  /** Stock that may replenish the slot. */
  ghost predicate IsSource(s: Stock, slot: Slot, k: Catalog) {
    Movable(s, slot, k) && Permitted(s.variant, slot, k)
  }

  lemma {:induction false} MovableExactly(s: Stock, slot: Slot, k: Catalog)
    requires slot.warehouse.Some?
    ensures var locationType := LocationTypeOf(ChooseRule(slot, k.rules), ChooseTierDefault(slot, k.tiers));
      Movable(s, slot, k) <==> s in k.stocks && Usable(s, s.variant, locationType, slot.warehouse)
  {
  }

  lemma {:induction false} SuppliesExactly(v: Variant, slot: Slot, k: Catalog)
    ensures var level := SourceLevelOf(ChooseTierDefault(slot, k.tiers), slot);
      && (Supplies(v, slot, k) <==> v in k.variants && IsSourceVariant(v, slot, level))
      && (DoesNotBreak(v, slot, k) <==> v in k.variants && IsInvalidSameLevel(v, slot, level))
  {
    CaseBreakExactly(v, slot);
  }

  ghost predicate HasError(issues: seq<Issue>) { exists i :: 0 <= i < |issues| && issues[i].IsError() }

  function Report(issues: seq<Issue>, x: Issue): (r: seq<Issue>)
    ensures HasError(r) <==> HasError(issues) || x.IsError()
    ensures r == issues + [x]
  {
    var r := issues + [x];
    assert r[|issues|] == x && forall i :: 0 <= i < |issues| ==> r[i] == issues[i];
    r
  }

  /** The verdict on a slot: an error exactly when it cannot be replenished from anywhere, otherwise
      the stock row the resolver would take. */
  ghost predicate Audited(issues: seq<Issue>, source: Option<Stock>, slot: Slot, k: Catalog) {
    && (source.Some? ==> IsSource(source.value, slot, k))
    && (HasError(issues) <==> source.None?)
    && (source.None? ==> forall s :: s in k.stocks ==> !IsSource(s, slot, k))
  }

  /** The choice between sources of one variant: oldest update, then pick sequence, then location. */
  ghost predicate TakenBefore(s: Stock, t: Stock) {
    var a, b := OrElse(s.updated, 0), OrElse(t.updated, 0);
    var p, q := OrElse(s.pickSequence, MAX_SAFE_INTEGER), OrElse(t.pickSequence, MAX_SAFE_INTEGER);
    a < b || (a == b && (p < q || (p == q && s.location <= t.location)))
  }

  ghost predicate BestOfSupply(source: Stock, slot: Slot, k: Catalog) {
    exists v :: Supplies(v, slot, k) && v.id == source.variant && forall w, t ::
      Supplies(w, slot, k) && Movable(t, slot, k) && w.id == t.variant ==>
        LexLe(FullKey(slot)(Candidate(v, source)), FullKey(slot)(Candidate(w, t)))
  }

  /** Which source is taken: among those of a supplying variant by the seven keys, otherwise by the
      three of the stock. */
  ghost predicate BestSource(source: Stock, slot: Slot, k: Catalog) {
    if !NamesSource(slot, k) && HasSupply(slot, k) then BestOfSupply(source, slot, k)
    else forall t :: IsSource(t, slot, k) ==> TakenBefore(source, t)
  }

  /** Two stock rows, equal or not, that may replenish the slot. */
  ghost predicate HasChoice(slot: Slot, k: Catalog) {
    exists i, j :: 0 <= i < j < |k.stocks| && IsSource(k.stocks[i], slot, k) && IsSource(k.stocks[j], slot, k)
  }

  /** No rule is for this very variant, and one for its whole product is passed over. */
  ghost predicate IgnoresRule(slot: Slot, k: Catalog) {
    && (forall r :: r in k.rules ==> r.pickVariant != Some(slot.variant))
    && exists r :: r in k.rules && r.pickVariant.None? && r.product == slot.product
  }

  /** What is reported of a slot for which `source` is found. */
  ghost predicate Reported(x: Issue, source: Option<Stock>, slot: Slot, k: Catalog) {
    if slot.warehouse.None? then x.MissingWarehouse?
    else
      match x
      case MissingWarehouse => false
      case IgnoredProductRule => IgnoresRule(slot, k)
      case MissingPolicy => !HasPolicy(slot, k)
      case ExplicitMissing | ExplicitNoStock => NamesSource(slot, k) && ReportedNamed(x, source, slot, k)
      case _ => HasPolicy(slot, k) && !NamesSource(slot, k) && ReportedAtLevel(x, source, slot, k)
  }

  ghost predicate ReportedNamed(x: Issue, source: Option<Stock>, slot: Slot, k: Catalog)
    requires NamesSource(slot, k)
  {
    var there := HasVariant(ChooseRule(slot, k.rules).value.sourceVariant.value, k);
    (x.ExplicitMissing? && !there) || (x.ExplicitNoStock? && there && source.None?)
  }

  ghost predicate ReportedAtLevel(x: Issue, source: Option<Stock>, slot: Slot, k: Catalog) {
    match x
    case InvalidUom => exists v :: DoesNotBreak(v, slot, k)
    case NoSourceVariant => !HasSupply(slot, k) && source.None?
    case FallbackSameVariant => !HasSupply(slot, k) && source.Some?
    case NoSourceStock => HasSupply(slot, k) && source.None?
    case NotPrimarySlotted => HasSupply(slot, k) && source.Some? && !IsPrimarySlot(source.value)
    case MultipleCandidates => HasSupply(slot, k) && HasChoice(slot, k)
    case _ => false
  }

  /** The issues are exactly those that there is a reason to report. That there is a choice is told
      exactly when variants are told apart by their ids. */
  ghost predicate IssuesExactly(issues: seq<Issue>, source: Option<Stock>, slot: Slot, k: Catalog) {
    forall x: Issue :: (x.MultipleCandidates? ==> DistinctVariants(k.variants)) ==>
      (x in issues <==> Reported(x, source, slot, k))
  }

  method AuditSlot(slot: Slot, k: Catalog) returns (issues: seq<Issue>, source: Option<Stock>)
    ensures Audited(issues, source, slot, k)
    ensures source.Some? && DistinctVariants(k.variants) ==> BestSource(source.value, slot, k)
    ensures IssuesExactly(issues, source, slot, k)
  {
    issues, source := [], None;
    if slot.warehouse.None? { return Report([], MissingWarehouse), None; }
    var rule, tier := ChooseRule(slot, k.rules), ChooseTierDefault(slot, k.tiers);
    ChosenRuleIsLeast(slot, k.rules);
    if rule.None? && exists r :: r in k.rules && r.pickVariant.None? && r.product == slot.product {
      issues := Report(issues, IgnoredProductRule);
    }
    if rule.None? && tier.None? { return Report(issues, MissingPolicy), None; }
    if rule.Some? && OrElse(rule.value.sourceVariant, 0) != 0 {
      issues, source := AuditExplicitSource(slot, k, issues);
    } else {
      issues, source := AuditSourceLevel(slot, k, issues);
    }
  }

  /** The SKU rule names the source variant. */
  method AuditExplicitSource(slot: Slot, k: Catalog, before: seq<Issue>)
    returns (issues: seq<Issue>, source: Option<Stock>)
    requires slot.warehouse.Some? && !HasError(before) && NamesSource(slot, k)
    ensures Audited(issues, source, slot, k)
    ensures source.Some? ==> BestSource(source.value, slot, k)
    ensures forall x: Issue :: x in issues <==> x in before || ReportedNamed(x, source, slot, k)
  {
    var rule, tier := ChooseRule(slot, k.rules), ChooseTierDefault(slot, k.tiers);
    var id := rule.value.sourceVariant.value;
    var locationType := LocationTypeOf(rule, tier);
    var found := SourceStocksForVariant(id, locationType, slot.warehouse, k.stocks);
    StocksFound(id, locationType, slot.warehouse, k.stocks);
    NamedSources(slot, k);
    if !exists w :: w in k.variants && w.id == id {
      issues, source := Report(before, ExplicitMissing), None;
    } else if found == [] {
      issues, source := Report(before, ExplicitNoStock), None;
    } else {
      issues, source := before, Some(found[0]);
    }
  }

  /** The source variants come from the source level of the tier default. */
  method AuditSourceLevel(slot: Slot, k: Catalog, before: seq<Issue>)
    returns (issues: seq<Issue>, source: Option<Stock>)
    requires slot.warehouse.Some? && !HasError(before) && HasPolicy(slot, k) && !NamesSource(slot, k)
    requires MultipleCandidates !in before
    ensures Audited(issues, source, slot, k)
    ensures source.Some? && DistinctVariants(k.variants) ==> BestSource(source.value, slot, k)
    ensures forall x: Issue :: (x.MultipleCandidates? ==> DistinctVariants(k.variants)) ==>
              (x in issues <==> x in before || ReportedAtLevel(x, source, slot, k))
  {
    var level := SourceLevelOf(ChooseTierDefault(slot, k.tiers), slot);
    forall v ensures DoesNotBreak(v, slot, k) <==> v in k.variants && IsInvalidSameLevel(v, slot, level) {
      SuppliesExactly(v, slot, k);
    }
    issues := before;
    if exists v :: v in k.variants && IsInvalidSameLevel(v, slot, level) {
      issues := Report(issues, InvalidUom);
    }
    issues, source := AuditSources(slot, k, issues);
  }

  method AuditSources(slot: Slot, k: Catalog, before: seq<Issue>)
    returns (issues: seq<Issue>, source: Option<Stock>)
    requires slot.warehouse.Some? && !HasError(before) && HasPolicy(slot, k) && !NamesSource(slot, k)
    requires MultipleCandidates !in before
    ensures Audited(issues, source, slot, k)
    ensures source.Some? && DistinctVariants(k.variants) ==> BestSource(source.value, slot, k)
    ensures forall x: Issue :: (x.MultipleCandidates? ==> DistinctVariants(k.variants)) ==>
              (x in issues <==> x in before || (!x.InvalidUom? && ReportedAtLevel(x, source, slot, k)))
  {
    var rule, tier := ChooseRule(slot, k.rules), ChooseTierDefault(slot, k.tiers);
    var locationType, level := LocationTypeOf(rule, tier), SourceLevelOf(tier, slot);
    var sources := SourceVariants(k.variants, slot, level);
    SourcesAtLevel(slot, k);
    if sources == [] {
      issues, source := AuditSameVariant(Search(slot, locationType, k.stocks), before);
    } else {
      issues, source := AuditSupply(slot, k, sources, Search(slot, locationType, k.stocks), before);
    }
  }

  /** Chooses among the stock of the source variants. */
  method AuditSupply(slot: Slot, k: Catalog, sources: seq<Variant>, q: Search, before: seq<Issue>)
    returns (issues: seq<Issue>, source: Option<Stock>)
    requires AtLevel(slot, k, sources, q) && !HasError(before) && MultipleCandidates !in before
    ensures Audited(issues, source, slot, k)
    ensures source.Some? && DistinctVariants(k.variants) ==> BestSource(source.value, slot, k)
    ensures forall x: Issue :: (x.MultipleCandidates? ==> DistinctVariants(k.variants)) ==>
              (x in issues <==> x in before || (!x.InvalidUom? && ReportedAtLevel(x, source, slot, k)))
  {
    SourcesAtLevel(slot, k);
    issues, source := AuditCandidates(sources, q, before);
    assert HasSupply(slot, k) && Audited(issues, source, slot, k);
    if DistinctVariants(k.variants) { BestAndChoice(slot, k, sources, q, source); }
  }

  lemma {:induction false} BestAndChoice(
    slot: Slot, k: Catalog, sources: seq<Variant>, q: Search, source: Option<Stock>)
    requires AtLevel(slot, k, sources, q) && DistinctVariants(k.variants)
    requires source == if Eligible(sources, q) == [] then None else Some(Eligible(sources, q)[0].stock)
    ensures source.Some? ==> BestSource(source.value, slot, k)
    ensures |Eligible(sources, q)| > 1 <==> HasChoice(slot, k)
  {
    if source.Some? { BestAtLevel(slot, k, sources, q); }
    ChoiceAtLevel(slot, k, sources, q);
  }

  /** Falls back on stock of the pick variant itself. */
  method AuditSameVariant(q: Search, before: seq<Issue>) returns (issues: seq<Issue>, source: Option<Stock>)
    requires !HasError(before)
    ensures HasError(issues) <==> source.None?
    ensures source.None? <==>
      forall s :: s in q.stocks ==> !Usable(s, q.slot.variant, q.locationType, q.slot.warehouse)
    ensures source.Some? ==>
      && source.value in q.stocks && Usable(source.value, q.slot.variant, q.locationType, q.slot.warehouse)
      && forall t :: t in q.stocks && Usable(t, q.slot.variant, q.locationType, q.slot.warehouse) ==>
           TakenBefore(source.value, t)
    ensures issues == before + [if source.None? then NoSourceVariant else FallbackSameVariant]
  {
    var same := SourceStocksForVariant(q.slot.variant, q.locationType, q.slot.warehouse, q.stocks);
    StocksFound(q.slot.variant, q.locationType, q.slot.warehouse, q.stocks);
    if same == [] {
      issues, source := Report(before, NoSourceVariant), None;
    } else {
      issues, source := Report(before, FallbackSameVariant), Some(same[0]);
    }
  }

  /** Sorts the candidates and takes the first. */
  method AuditCandidates(sources: seq<Variant>, q: Search, before: seq<Issue>)
    returns (issues: seq<Issue>, source: Option<Stock>)
    requires !HasError(before)
    ensures source == if Eligible(sources, q) == [] then None else Some(Eligible(sources, q)[0].stock)
    ensures HasError(issues) <==> source.None?
    ensures source.Some? ==>
      && source.value in q.stocks
      && exists v :: v in sources && Usable(source.value, v.id, q.locationType, q.slot.warehouse)
    ensures source.None? ==>
      forall v, s :: v in sources && s in q.stocks ==> !Usable(s, v.id, q.locationType, q.slot.warehouse)
    ensures forall x :: x in issues <==>
      || x in before || (x.NoSourceStock? && source.None?)
      || (x.MultipleCandidates? && |Eligible(sources, q)| > 1)
      || (x.NotPrimarySlotted? && source.Some? && !IsPrimarySlot(source.value))
  {
    var eligible := Eligible(sources, q);
    EligibleMembers(sources, q);
    if eligible == [] {
      issues, source := Report(before, NoSourceStock), None;
    } else {
      issues, source := before, Some(eligible[0].stock);
      SlotRankOrder(source.value, source.value);
      if |eligible| > 1 { issues := Report(issues, MultipleCandidates); }
      if SlotRank(eligible[0].stock) > 0 { issues := Report(issues, NotPrimarySlotted); }
    }
  }

  lemma {:induction false} NamedSources(slot: Slot, k: Catalog)
    requires slot.warehouse.Some? && NamesSource(slot, k)
    ensures var rule, tier := ChooseRule(slot, k.rules), ChooseTierDefault(slot, k.tiers);
            var id := rule.value.sourceVariant.value;
            forall s :: IsSource(s, slot, k) <==>
              HasVariant(id, k) && s in k.stocks && Usable(s, id, LocationTypeOf(rule, tier), slot.warehouse)
  {
    forall s ensures Movable(s, slot, k) <==>
      s in k.stocks && Usable(s, s.variant,
        LocationTypeOf(ChooseRule(slot, k.rules), ChooseTierDefault(slot, k.tiers)), slot.warehouse)
    {
      MovableExactly(s, slot, k);
    }
  }

  ghost predicate AtLevel(slot: Slot, k: Catalog, sources: seq<Variant>, q: Search) {
    var rule, tier := ChooseRule(slot, k.rules), ChooseTierDefault(slot, k.tiers);
    && slot.warehouse.Some? && HasPolicy(slot, k) && !NamesSource(slot, k)
    && sources == SourceVariants(k.variants, slot, SourceLevelOf(tier, slot)) && sources != []
    && q == Search(slot, LocationTypeOf(rule, tier), k.stocks)
  }

  lemma {:induction false} BestAtLevel(slot: Slot, k: Catalog, sources: seq<Variant>, q: Search)
    requires AtLevel(slot, k, sources, q) && DistinctVariants(k.variants) && Eligible(sources, q) != []
    ensures HasSupply(slot, k) && BestOfSupply(Eligible(sources, q)[0].stock, slot, k)
  {
    var level := SourceLevelOf(ChooseTierDefault(slot, k.tiers), slot);
    SourceVariantsFacts(k.variants, slot, level);
    SelectedIsLeast(sources, q);
    var best := Eligible(sources, q)[0];
    SuppliesExactly(best.variant, slot, k);
    forall w, t | Supplies(w, slot, k) && Movable(t, slot, k) && w.id == t.variant
      ensures LexLe(FullKey(slot)(best), FullKey(slot)(Candidate(w, t)))
    {
      SuppliesExactly(w, slot, k);
      MovableExactly(t, slot, k);
    }
    assert best == Candidate(best.variant, best.stock);
  }

  /** Two places in a list where `p` holds. */
  ghost predicate TwoPlaces(p: Stock -> bool, ss: seq<Stock>) {
    exists i, j :: 0 <= i < j < |ss| && p(ss[i]) && p(ss[j])
  }

  lemma {:induction false} TwoPlacesExactly(p: Stock -> bool, ss: seq<Stock>)
    ensures Count(p, ss) >= 1 <==> exists i :: 0 <= i < |ss| && p(ss[i])
    ensures Count(p, ss) >= 2 <==> TwoPlaces(p, ss)
  {
    if ss != [] {
      TwoPlacesExactly(p, ss[1..]);
      if i :| 0 <= i < |ss[1..]| && p(ss[1..][i]) { assert p(ss[i + 1]); }
      if i, j :| 0 <= i < j < |ss[1..]| && p(ss[1..][i]) && p(ss[1..][j]) { assert p(ss[i + 1]) && p(ss[j + 1]); }
      if j :| 0 < j < |ss| && p(ss[j]) { assert p(ss[1..][j - 1]); }
      if i, j :| 0 < i < j < |ss| && p(ss[i]) && p(ss[j]) { assert p(ss[1..][i - 1]) && p(ss[1..][j - 1]); }
    }
  }

  ghost function UsableBy(vs: seq<Variant>, q: Search): Stock -> bool {
    (s: Stock) => exists v :: v in vs && Usable(s, v.id, q.locationType, q.slot.warehouse)
  }

  ghost function UsableAs(id: int, q: Search): Stock -> bool {
    (s: Stock) => Usable(s, id, q.locationType, q.slot.warehouse)
  }

  lemma {:induction false} UsableStocksLength(ss: seq<Stock>, id: int, q: Search)
    ensures |UsableStocks(ss, id, q.locationType, q.slot.warehouse)| == Count(UsableAs(id, q), ss)
  {
    if ss != [] { UsableStocksLength(ss[1..], id, q); }
  }

  lemma {:induction false} CountSplits(vs: seq<Variant>, q: Search, ss: seq<Stock>)
    requires vs != [] && DistinctVariants(vs)
    ensures Count(UsableBy(vs, q), ss) == Count(UsableAs(vs[0].id, q), ss) + Count(UsableBy(vs[1..], q), ss)
  {
    if ss != [] {
      CountSplits(vs, q, ss[1..]);
      var s := ss[0];
      assert forall v :: v in vs <==> v == vs[0] || v in vs[1..];
      assert UsableBy(vs, q)(s) <==> UsableAs(vs[0].id, q)(s) || UsableBy(vs[1..], q)(s);
      assert !(UsableAs(vs[0].id, q)(s) && UsableBy(vs[1..], q)(s));
    }
  }

  /** With distinct variants there is one candidate for each stock row that any of them can use. */
  lemma {:induction false} CandidatesLength(vs: seq<Variant>, q: Search)
    requires DistinctVariants(vs)
    ensures |AllCandidates(vs, q)| == Count(UsableBy(vs, q), q.stocks)
  {
    if vs == [] {
      NoneUsable(q, q.stocks);
    } else {
      CandidatesLength(vs[1..], q);
      UsableStocksLength(q.stocks, vs[0].id, q);
      SortMultiset(By(StockKey), UsableStocks(q.stocks, vs[0].id, q.locationType, q.slot.warehouse));
      CountSplits(vs, q, q.stocks);
    }
  }

  lemma {:induction false} NoneUsable(q: Search, ss: seq<Stock>)
    ensures Count(UsableBy([], q), ss) == 0
  {
    if ss != [] { NoneUsable(q, ss[1..]); }
  }

  lemma {:induction false} ChoiceAtLevel(slot: Slot, k: Catalog, sources: seq<Variant>, q: Search)
    requires AtLevel(slot, k, sources, q) && DistinctVariants(k.variants)
    ensures HasSupply(slot, k) && (|Eligible(sources, q)| > 1 <==> HasChoice(slot, k))
  {
    var level := SourceLevelOf(ChooseTierDefault(slot, k.tiers), slot);
    var p := UsableBy(sources, q);
    SourceVariantsFacts(k.variants, slot, level);
    SourcesAtLevel(slot, k);
    CandidatesLength(sources, q);
    SortMultiset(By(CandidateKey(q.slot)), AllCandidates(sources, q));
    TwoPlacesExactly(p, k.stocks);
    SamePlaces(p, slot, k);
  }

  lemma {:induction false} SamePlaces(p: Stock -> bool, slot: Slot, k: Catalog)
    requires forall s :: s in k.stocks ==> (p(s) <==> IsSource(s, slot, k))
    ensures TwoPlaces(p, k.stocks) <==> HasChoice(slot, k)
  {
  }

  /** Without an explicit source, the sources are the usable stock of the source variants, or of the
      pick variant when there is no source variant. */
  lemma {:induction false} SourcesAtLevel(slot: Slot, k: Catalog)
    requires slot.warehouse.Some? && HasPolicy(slot, k) && !NamesSource(slot, k)
    ensures var rule, tier := ChooseRule(slot, k.rules), ChooseTierDefault(slot, k.tiers);
            var level := SourceLevelOf(tier, slot);
            var sources := SourceVariants(k.variants, slot, level);
            var locationType := LocationTypeOf(rule, tier);
            && (sources == [] <==> !HasSupply(slot, k))
            && (forall s :: IsSource(s, slot, k) <==>
                  s in k.stocks &&
                  if sources == [] then Usable(s, slot.variant, locationType, slot.warehouse)
                  else exists v :: v in sources && Usable(s, v.id, locationType, slot.warehouse))
  {
    var locationType := LocationTypeOf(ChooseRule(slot, k.rules), ChooseTierDefault(slot, k.tiers));
    var level := SourceLevelOf(ChooseTierDefault(slot, k.tiers), slot);
    var sources := SourceVariants(k.variants, slot, level);
    SourceVariantsFacts(k.variants, slot, level);
    forall v ensures Supplies(v, slot, k) <==> v in sources { SuppliesExactly(v, slot, k); }
    forall s ensures Movable(s, slot, k) <==> s in k.stocks && Usable(s, s.variant, locationType, slot.warehouse) {
      MovableExactly(s, slot, k);
    }
    if sources != [] { assert sources[0] in sources; }
  }

  lemma {:induction false} EligibleMembers(vs: seq<Variant>, q: Search)
    ensures var es := Eligible(vs, q);
      && (es != [] ==> es[0].variant in vs && es[0].stock in q.stocks
                       && Usable(es[0].stock, es[0].variant.id, q.locationType, q.slot.warehouse))
      && (es == [] ==> forall v, s :: v in vs && s in q.stocks ==> !Usable(s, v.id, q.locationType, q.slot.warehouse))
  {
    AllCandidatesMembers(vs, q);
    SortMultiset(By(CandidateKey(q.slot)), AllCandidates(vs, q));
    var es := Eligible(vs, q);
    if es == [] {
      forall v, s | v in vs && s in q.stocks ensures !Usable(s, v.id, q.locationType, q.slot.warehouse) {
        assert Candidate(v, s) !in es;
      }
    } else {
      assert es[0] in es;
    }
  }

  lemma {:induction false} StocksFound(variant: int, locationType: string, warehouse: Option<int>, stocks: seq<Stock>)
    ensures var found := SourceStocksForVariant(variant, locationType, warehouse, stocks);
      && (forall s :: s in found <==> s in stocks && Usable(s, variant, locationType, warehouse))
      && (found != [] ==> found[0] in found && forall t :: t in found ==> TakenBefore(found[0], t))
  {
    var usable := UsableStocks(stocks, variant, locationType, warehouse);
    UsableStocksMembers(stocks, variant, locationType, warehouse);
    SortMultiset(By(StockKey), usable);
    if usable != [] {
      FirstIsLeast(StockKey, usable);
      var first := Sort(By(StockKey), usable)[0];
      forall t | t in usable ensures TakenBefore(first, t) { StockKeyOrder(first, t); }
    }
  }

  lemma {:induction false} StockKeyOrder(s: Stock, t: Stock)
    requires LexLe(StockKey(s), StockKey(t))
    ensures TakenBefore(s, t)
  {
    var a, b := StockKey(s), StockKey(t);
    assert a[1..][0] == a[1] && b[1..][0] == b[1];
    assert a[1..][1..][0] == a[2] && b[1..][1..][0] == b[2];
  }
}
