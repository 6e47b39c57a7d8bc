/** Choosing the canonical WMS order of a duplicate group and retiring the others. */
module DuplicateRetirement {
  import opened Prelude
  import opened StableSort
  import opened Text
  import opened ItemCoverage

  // ---------------------------------------------------------- rows

  datatype Shipment = Shipment(id: int, status: string, shipstationOrderId: Option<int>, tracking: Option<string>)

  datatype Item = Item(key: string, quantity: int, picked: nat, fulfilled: nat, status: string)

  /** A WMS order with its items and shipments. `key` is `oms_fulfillment_order_id`, blank if missing;
      `omsOrder` is the OMS order that id joins to, if there is one. */
  datatype Order = Order(
    id: int, source: string, key: string, omsOrder: Option<int>, created: int, status: string,
    tracking: Option<string>, items: seq<Item>, shipments: seq<Shipment>)

  const ACTIVE_SHIPMENT_STATUSES := {"planned", "queued", "labeled", "on_hold"}
  const SAFE_DB_CANCEL_SHIPMENT_STATUSES := ACTIVE_SHIPMENT_STATUSES + {"cancelled", "voided"}

  predicate IsActive(s: Shipment) { s.status in ACTIVE_SHIPMENT_STATUSES }

  predicate IsActiveAtShipStation(s: Shipment) { IsActive(s) && s.shipstationOrderId.Some? }

  predicate IsShipped(s: Shipment) { s.status == "shipped" }

  predicate HasText(t: Option<string>) { t.Some? && t.value != "" }

  function Picked(items: seq<Item>): nat { if items == [] then 0 else items[0].picked + Picked(items[1..]) }

  function Fulfilled(items: seq<Item>): nat { if items == [] then 0 else items[0].fulfilled + Fulfilled(items[1..]) }

  /** Item coverage: key and ordered quantity of every item, as one text. */
  function ItemSignature(o: Order): string { Signature(LinesOf(o)) }

  function LinesOf(o: Order): seq<Line> {
    seq(|o.items|, i requires 0 <= i < |o.items| => (o.items[i].key, o.items[i].quantity))
  }

  predicate HasShippedEvidence(o: Order) {
    || Count(IsShipped, o.shipments) > 0
    || HasText(o.tracking)
    || exists i :: 0 <= i < |o.shipments| && HasText(o.shipments[i].tracking)
  }

  /** Evidence of shipping: a shipment marked shipped, or a tracking number that is not empty. */
  lemma {:induction false} EvidenceExactly(o: Order)
    ensures HasShippedEvidence(o) <==>
      || (o.tracking.Some? && o.tracking.value != "")
      || exists s :: s in o.shipments && (s.status == "shipped" || (s.tracking.Some? && s.tracking.value != ""))
  {
    SomeCounts(IsShipped, o.shipments);
    if i :| 0 <= i < |o.shipments| && HasText(o.shipments[i].tracking) { assert o.shipments[i] in o.shipments; }
    if s :| s in o.shipments && HasText(s.tracking) {
      var i :| 0 <= i < |o.shipments| && o.shipments[i] == s;
    }
  }

  lemma {:induction false} SomeCounts(p: Shipment -> bool, ss: seq<Shipment>)
    ensures Count(p, ss) > 0 <==> exists s :: s in ss && p(s)
  {
    if ss != [] {
      SomeCounts(p, ss[1..]);
      assert forall s :: s in ss <==> s == ss[0] || s in ss[1..];
    }
  }

  // ---------------------------------------------------------- the canonical row

  function Score(o: Order): int {
    (if HasShippedEvidence(o) then 100_000 else 0)
    + Fulfilled(o.items) * 1_000
    + Picked(o.items) * 500
    + (if Count(IsActiveAtShipStation, o.shipments) > 0 then 100 else 0)
    + |o.shipments| * 10
    - (if o.status == "cancelled" then 1_000 else 0)
  }

  predicate Precedes(a: Order, b: Order) {
    Score(a) > Score(b) || (Score(a) == Score(b) && a.id <= b.id)
  }

  function ChooseCanonical(rows: seq<Order>): (c: Order)
    requires rows != []
    ensures c in rows
    ensures forall r :: r in rows ==> Precedes(c, r)
  {
    assert TotalPreorder(Precedes);
    SortRefines(Precedes, Precedes, rows);
    SortMultiset(Precedes, rows);
    var sorted := Sort(Precedes, rows);
    assert forall r :: r in rows ==> r in sorted;
    sorted[0]
  }

  ghost predicate IsLive(o: Order) {
    exists s ::
      s in o.shipments && s.status in {"planned", "queued", "labeled", "on_hold"} && s.shipstationOrderId.Some?
  }

  /** What counts towards being canonical, in units of one shipment. */
  ghost function Merits(o: Order): int {
    100 * Fulfilled(o.items) + 50 * Picked(o.items) + |o.shipments|
    + (if HasShippedEvidence(o) then 10_000 else 0) + (if IsLive(o) then 10 else 0)
  }

  ghost function Demerits(o: Order): int { if o.status == "cancelled" then 100 else 0 }

  /** The rates of exchange: a fulfilled unit makes up for a cancellation and is worth two picked units,
      ten times a live ShipStation order and a hundred shipments; evidence of shipping is worth a hundred
      fulfilled units. The lower id decides between equals. */
  lemma {:induction false} PrecedesExactly(a: Order, b: Order)
    ensures Precedes(a, b) <==>
      var x, y := Merits(a) + Demerits(b), Merits(b) + Demerits(a);
      x > y || (x == y && a.id <= b.id)
  {
    SomeCounts(IsActiveAtShipStation, a.shipments);
    SomeCounts(IsActiveAtShipStation, b.shipments);
    assert Score(a) == 10 * (Merits(a) - Demerits(a)) && Score(b) == 10 * (Merits(b) - Demerits(b));
  }

  // ---------------------------------------------------------- decisions

  datatype Flags = Flags(execute: bool, cancelShipStation: bool)

  datatype Action = Keep | AlreadyRetired | RetireDbOnly | RetireAfterCancel | NeedsCancel | ManualReview
  {
    predicate Retires() { RetireDbOnly? || RetireAfterCancel? }
  }

  datatype Decision = Decision(row: Order, action: Action, shipstationOrderIds: seq<int>)

  predicate HasActiveId(s: Shipment, id: int) { IsActive(s) && s.shipstationOrderId == Some(id) }

  function PositiveIds(shipments: seq<Shipment>): (r: seq<int>)
    ensures forall x :: x in r <==> x > 0 && exists i :: 0 <= i < |shipments| && HasActiveId(shipments[i], x)
  {
    if shipments == [] then []
    else
      var s := shipments[0];
      (if IsActive(s) && s.shipstationOrderId.Some? && s.shipstationOrderId.value > 0
       then [s.shipstationOrderId.value] else []) + PositiveIds(shipments[1..])
  }

  function ActiveShipStationOrderIds(o: Order): seq<int> { Unique(PositiveIds(o.shipments)) }

  predicate CanDbRetire(o: Order) {
    && !HasShippedEvidence(o)
    && !(Picked(o.items) > 0 || Fulfilled(o.items) > 0)
    && forall i :: 0 <= i < |o.shipments| ==> o.shipments[i].status in SAFE_DB_CANCEL_SHIPMENT_STATUSES
  }

  function DecideRow(row: Order, canonical: Order, flags: Flags): (d: Decision)
    ensures d.row == row
  {
    var ids := ActiveShipStationOrderIds(row);
    if row.id == canonical.id then Decision(row, Keep, [])
    else if row.status == "cancelled" && Count(IsActive, row.shipments) == 0 then Decision(row, AlreadyRetired, [])
    else if ItemSignature(row) != ItemSignature(canonical) then Decision(row, ManualReview, ids)
    else if HasShippedEvidence(row) then Decision(row, ManualReview, ids)
    else if Picked(row.items) > 0 || Fulfilled(row.items) > 0 then Decision(row, ManualReview, ids)
    else if |ids| > 0 then Decision(row, if flags.cancelShipStation then RetireAfterCancel else NeedsCancel, ids)
    else if CanDbRetire(row) then Decision(row, RetireDbOnly, [])
    else Decision(row, ManualReview, ids)
  }

  /** The safety rules the script announces: what has to be true of an order before it is retired,
      and that nothing else is asked for. */
  lemma {:induction false} RetiresExactly(row: Order, canonical: Order, flags: Flags)
    ensures DecideRow(row, canonical, flags).action.Retires() <==>
      && row.id != canonical.id
      && !(row.status == "cancelled" && Count(IsActive, row.shipments) == 0)
      && ItemSignature(row) == ItemSignature(canonical)
      && !HasShippedEvidence(row) && Picked(row.items) == 0 && Fulfilled(row.items) == 0
      && (if HasLiveShipStationOrder(row) then flags.cancelShipStation
          else forall i :: 0 <= i < |row.shipments| ==>
                 row.shipments[i].status in {"planned", "queued", "labeled", "on_hold", "cancelled", "voided"})
    ensures DecideRow(row, canonical, flags).action.RetireAfterCancel? ==> flags.cancelShipStation
    ensures DecideRow(row, canonical, flags).action.RetireAfterCancel? ==>
      forall i :: 0 <= i < |row.shipments| && IsActive(row.shipments[i])
                  && row.shipments[i].shipstationOrderId.Some? && row.shipments[i].shipstationOrderId.value > 0 ==>
        row.shipments[i].shipstationOrderId.value in DecideRow(row, canonical, flags).shipstationOrderIds
  {
    LiveOrdersListed(row);
  }

  /** The ShipStation order `id` is live for this row. */
  ghost predicate LivesAt(row: Order, id: int) {
    exists s :: s in row.shipments && s.status in {"planned", "queued", "labeled", "on_hold"}
                && s.shipstationOrderId == Some(id)
  }

  /** What becomes of the others: the canonical row is kept, a finished one left alone, and one that only
      wants the flag for remote cancellation asks for it; all else is for a human. A decision that lists
      ShipStation orders lists the live ones, each once. */
  lemma {:induction false} OtherActionsExactly(row: Order, canonical: Order, flags: Flags)
    ensures var d := DecideRow(row, canonical, flags);
      && (d.action.Keep? <==> row.id == canonical.id)
      && (d.action.AlreadyRetired? <==>
            && row.id != canonical.id && row.status == "cancelled"
            && forall s :: s in row.shipments ==> s.status !in {"planned", "queued", "labeled", "on_hold"})
      && (d.action.NeedsCancel? <==>
            && !flags.cancelShipStation
            && DecideRow(row, canonical, flags.(cancelShipStation := true)).action.RetireAfterCancel?)
      && (d.action.RetireAfterCancel? ==> d.shipstationOrderIds != [])
      && (d.action.RetireDbOnly? ==> forall id :: id > 0 ==> !LivesAt(row, id))
      && (d.shipstationOrderIds != [] ==> forall id :: id in d.shipstationOrderIds <==> id > 0 && LivesAt(row, id))
      && NoRepeats(d.shipstationOrderIds)
  {
    SomeCounts(IsActive, row.shipments);
    var ids := ActiveShipStationOrderIds(row);
    forall id ensures id in ids <==> id > 0 && LivesAt(row, id) {
      if s :| s in row.shipments && HasActiveId(s, id) {
        var i :| 0 <= i < |row.shipments| && row.shipments[i] == s;
      }
    }
  }

  /** The quantities ordered under a key, item by item. */
  function Ordered(items: seq<Item>, key: string): seq<int> {
    if items == [] then []
    else (if items[0].key == key then [items[0].quantity] else []) + Ordered(items[1..], key)
  }

  lemma {:induction false} OrderedQuantities(items: seq<Item>, lines: seq<Line>, key: string)
    requires |lines| == |items| && forall i :: 0 <= i < |items| ==> lines[i] == (items[i].key, items[i].quantity)
    ensures Quantities(lines, key) == Ordered(items, key)
  {
    if items != [] { OrderedQuantities(items[1..], lines[1..], key); }
  }

  ghost predicate SameOrdered(a: seq<Item>, b: seq<Item>) { forall key :: Ordered(a, key) == Ordered(b, key) }

  /** What the coverage rule comes to: when no key holds an '=', it is met if and only if both orders
      have the same quantities under every key. A retired order is covered in this sense. */
  lemma {:induction false} CoverageExactly(row: Order, canonical: Order, flags: Flags)
    requires forall i :: i in row.items || i in canonical.items ==> Lacks(i.key, '=')
    ensures ItemSignature(row) == ItemSignature(canonical) <==> SameOrdered(row.items, canonical.items)
    ensures DecideRow(row, canonical, flags).action.Retires() ==> SameOrdered(row.items, canonical.items)
  {
    var a, b := LinesOf(row), LinesOf(canonical);
    assert forall i :: 0 <= i < |a| ==> row.items[i] in row.items;
    assert forall i :: 0 <= i < |b| ==> canonical.items[i] in canonical.items;
    SignatureExactly(a, b);
    if SameQuantities(a, b) {
      forall key ensures Ordered(row.items, key) == Ordered(canonical.items, key) {
        OrderedQuantities(row.items, a, key);
        OrderedQuantities(canonical.items, b, key);
      }
    }
    if SameOrdered(row.items, canonical.items) {
      forall key ensures Quantities(a, key) == Quantities(b, key) {
        OrderedQuantities(row.items, a, key);
        OrderedQuantities(canonical.items, b, key);
      }
    }
    RetiresExactly(row, canonical, flags);
  }

  /** A key that holds the text of another item defeats the rule: an order of one item is retired in
      favour of an order of two others. */
  lemma {:induction false} UncoveredIsRetired(row: Order, canonical: Order, flags: Flags, a: Item, b: Item, c: Item)
    requires canonical.items == [a, b] && row.items == [c] && StringLe(a.key, b.key)
    requires c.key == a.key + "=" + IntText(a.quantity) + "|" + b.key && c.quantity == b.quantity
    requires row.id != canonical.id && row.status != "cancelled" && row.shipments == [] && !HasText(row.tracking)
    requires c.picked == 0 && c.fulfilled == 0
    ensures DecideRow(row, canonical, flags).action == RetireDbOnly
    ensures Ordered(row.items, a.key) != Ordered(canonical.items, a.key)
  {
    SignaturesCollide(a.key, a.quantity, b.key, b.quantity);
    assert LinesOf(canonical) == [(a.key, a.quantity), (b.key, b.quantity)] && LinesOf(row) == [(c.key, c.quantity)];
    assert [a, b][1..] == [b] && [c][1..] == [] && |c.key| > |a.key|;
    assert Ordered(row.items, a.key) == [];
    assert Picked([c]) == 0 && Fulfilled([c]) == 0;
  }

  ghost predicate HasLiveShipStationOrder(o: Order) {
    exists i :: 0 <= i < |o.shipments| && IsActive(o.shipments[i])
                && o.shipments[i].shipstationOrderId.Some? && o.shipments[i].shipstationOrderId.value > 0
  }

  lemma {:induction false} LiveOrdersListed(o: Order)
    ensures HasLiveShipStationOrder(o) <==> |ActiveShipStationOrderIds(o)| > 0
    ensures forall i :: 0 <= i < |o.shipments| && IsActive(o.shipments[i])
                        && o.shipments[i].shipstationOrderId.Some? && o.shipments[i].shipstationOrderId.value > 0 ==>
              o.shipments[i].shipstationOrderId.value in ActiveShipStationOrderIds(o)
  {
    var ids := ActiveShipStationOrderIds(o);
    forall i | 0 <= i < |o.shipments| && IsActive(o.shipments[i])
               && o.shipments[i].shipstationOrderId.Some? && o.shipments[i].shipstationOrderId.value > 0
      ensures o.shipments[i].shipstationOrderId.value in ids
    {
      assert HasActiveId(o.shipments[i], o.shipments[i].shipstationOrderId.value);
    }
    if |ids| > 0 {
      assert ids[0] in ids;
      var i :| 0 <= i < |o.shipments| && HasActiveId(o.shipments[i], ids[0]);
    }
  }

  // ---------------------------------------------------------- the effect of retiring

  function RetiredShipment(s: Shipment): Shipment {
    if IsActive(s) then s.(status := "cancelled") else s
  }

  function RetiredItem(i: Item): Item {
    if i.picked == 0 && i.fulfilled == 0 && i.status !in {"completed", "cancelled"} then i.(status := "cancelled")
    else i
  }

  function Retired(o: Order): Order {
    o.(status := "cancelled",
       items := seq(|o.items|, i requires 0 <= i < |o.items| => RetiredItem(o.items[i])),
       shipments := seq(|o.shipments|, i requires 0 <= i < |o.shipments| => RetiredShipment(o.shipments[i])))
  }

  /** The table after the orders whose id is in `ids` have been retired. */
  function RetireMany(orders: seq<Order>, ids: set<int>): (r: seq<Order>)
    ensures |r| == |orders|
    ensures forall i :: 0 <= i < |orders| ==> r[i] == if orders[i].id in ids then Retired(orders[i]) else orders[i]
  {
    seq(|orders|, i requires 0 <= i < |orders| => if orders[i].id in ids then Retired(orders[i]) else orders[i])
  }

  /** What the row looks like afterwards: every shipment that was on its way is cancelled, every item
      that was neither picked nor fulfilled, nor settled already, is too, and all else is as it was. */
  lemma {:induction false} RetiredExactly(o: Order)
    ensures var r := Retired(o);
      && r == o.(status := "cancelled", items := r.items, shipments := r.shipments)
      && |r.items| == |o.items| && |r.shipments| == |o.shipments|
      && (forall i :: 0 <= i < |o.items| ==>
            var was := o.items[i];
            if was.picked > 0 || was.fulfilled > 0 || was.status == "completed" then r.items[i] == was
            else r.items[i] == was.(status := "cancelled"))
      && (forall i :: 0 <= i < |o.shipments| ==>
            var was := o.shipments[i];
            if was.status == "planned" || was.status == "queued" || was.status == "labeled" || was.status == "on_hold"
            then r.shipments[i] == was.(status := "cancelled") else r.shipments[i] == was)
  {
  }

  lemma {:induction false} RetiredItemSums(items: seq<Item>, items': seq<Item>)
    requires |items'| == |items| && forall i :: 0 <= i < |items| ==> items'[i] == RetiredItem(items[i])
    ensures Picked(items') == Picked(items) && Fulfilled(items') == Fulfilled(items)
  {
    if items != [] { RetiredItemSums(items[1..], items'[1..]); }
  }

  lemma {:induction false} RetiredShipmentCounts(ss: seq<Shipment>, ss': seq<Shipment>)
    requires |ss'| == |ss| && forall i :: 0 <= i < |ss| ==> ss'[i] == RetiredShipment(ss[i])
    ensures Count(IsActive, ss') == 0 && Count(IsActiveAtShipStation, ss') == 0
    ensures Count(IsShipped, ss') == Count(IsShipped, ss)
  {
    if ss != [] { RetiredShipmentCounts(ss[1..], ss'[1..]); }
  }

  /** Retiring leaves the evidence, the quantities and the coverage alone, cancels every active
      shipment, and never raises the score. */
  lemma {:induction false} RetiredFacts(o: Order)
    ensures HasShippedEvidence(Retired(o)) == HasShippedEvidence(o)
    ensures Picked(Retired(o).items) == Picked(o.items) && Fulfilled(Retired(o).items) == Fulfilled(o.items)
    ensures ItemSignature(Retired(o)) == ItemSignature(o)
    ensures Count(IsActive, Retired(o).shipments) == 0
    ensures Score(Retired(o)) <= Score(o)
  {
    var o' := Retired(o);
    RetiredItemSums(o.items, o'.items);
    RetiredShipmentCounts(o.shipments, o'.shipments);
    assert forall i :: 0 <= i < |o.shipments| ==> o'.shipments[i].tracking == o.shipments[i].tracking;
    assert LinesOf(o') == LinesOf(o);
  }

  // ---------------------------------------------------------- groups and plans

  /** `asInt(oo.id)`: rows whose key joins to no OMS order all read as 0. */
  function OmsId(o: Order): int { if o.omsOrder.Some? then o.omsOrder.value else 0 }

  function GroupOf(rows: seq<Order>, omsId: int): seq<Order> {
    if rows == [] then []
    else (if OmsId(rows[0]) == omsId then [rows[0]] else []) + GroupOf(rows[1..], omsId)
  }

  datatype Plan = Plan(omsId: int, canonical: Order, rows: seq<Order>, decisions: seq<Decision>)

  function Decisions(rows: seq<Order>, canonical: Order, flags: Flags): (d: seq<Decision>)
    ensures |d| == |rows|
  {
    seq(|rows|, i requires 0 <= i < |rows| => DecideRow(rows[i], canonical, flags))
  }

  function PlanOf(rows: seq<Order>, omsId: int, flags: Flags): Plan
    requires GroupOf(rows, omsId) != []
  {
    var group := GroupOf(rows, omsId);
    Plan(omsId, ChooseCanonical(group), group, Decisions(group, ChooseCanonical(group), flags))
  }

  lemma {:induction false} GroupMembers(rows: seq<Order>, omsId: int)
    ensures forall o :: o in GroupOf(rows, omsId) <==> o in rows && OmsId(o) == omsId
  {
    if rows != [] {
      GroupMembers(rows[1..], omsId);
      assert rows == [rows[0]] + rows[1..];
    }
  }

  lemma {:induction false} GroupSnoc(rows: seq<Order>, o: Order, omsId: int)
    ensures GroupOf(rows + [o], omsId) == GroupOf(rows, omsId) + (if OmsId(o) == omsId then [o] else [])
  {
    if rows == [] {
      assert [] + [o] == [o];
    } else {
      assert (rows + [o])[1..] == rows[1..] + [o];
      GroupSnoc(rows[1..], o, omsId);
    }
  }

  /** `groups` holds the rows seen so far under their id; `order` is the map's insertion order. */
  ghost predicate Grouped(rows: seq<Order>, order: seq<int>, groups: map<int, seq<Order>>) {
    && (forall i :: 0 <= i < |order| ==> order[i] in groups)
    && (forall id :: id in groups ==> id in order)
    && (forall i, j :: 0 <= i < j < |order| ==> order[i] != order[j])
    && (forall id :: id in groups ==> groups[id] != [] && groups[id] == GroupOf(rows, id))
    && (forall id :: id !in groups ==> GroupOf(rows, id) == [])
  }

  method GroupRows(rows: seq<Order>) returns (order: seq<int>, groups: map<int, seq<Order>>)
    ensures Grouped(rows, order, groups)
  {
    order, groups := [], map[];
    for k := 0 to |rows|
      invariant Grouped(rows[..k], order, groups)
    {
      var id := OmsId(rows[k]);
      var groupRows := if id in groups then groups[id] else [];
      GroupedStep(rows, k, order, groups);
      if id !in groups {
        order := order + [id];
      }
      groups := groups[id := groupRows + [rows[k]]];
    }
    assert rows[..|rows|] == rows;
  }

  lemma {:induction false} GroupedStep(rows: seq<Order>, k: nat, order: seq<int>, groups: map<int, seq<Order>>)
    requires k < |rows| && Grouped(rows[..k], order, groups)
    ensures var id := OmsId(rows[k]);
      Grouped(rows[..k + 1], if id in groups then order else order + [id],
              groups[id := (if id in groups then groups[id] else []) + [rows[k]]])
  {
    assert rows[..k + 1] == rows[..k] + [rows[k]];
    forall x
      ensures GroupOf(rows[..k + 1], x) == GroupOf(rows[..k], x) + (if OmsId(rows[k]) == x then [rows[k]] else [])
    {
      GroupSnoc(rows[..k], rows[k], x);
    }
  }

  lemma {:induction false} GroupedCovers(rows: seq<Order>, order: seq<int>, groups: map<int, seq<Order>>, o: Order)
    requires Grouped(rows, order, groups) && o in rows
    ensures OmsId(o) in order
  {
    GroupMembers(rows, OmsId(o));
    assert o in GroupOf(rows, OmsId(o));
  }

  lemma {:induction false} GroupedAt(rows: seq<Order>, order: seq<int>, groups: map<int, seq<Order>>, k: nat)
    requires Grouped(rows, order, groups) && k < |order|
    ensures order[k] in groups && groups[order[k]] == GroupOf(rows, order[k]) != []
  {
  }

  /** One plan per OMS order id, covering every row. */
  method BuildPlans(rows: seq<Order>, flags: Flags) returns (plans: seq<Plan>)
    ensures forall i :: 0 <= i < |plans| ==>
              GroupOf(rows, plans[i].omsId) != [] && plans[i] == PlanOf(rows, plans[i].omsId, flags)
    ensures forall i, j :: 0 <= i < j < |plans| ==> plans[i].omsId != plans[j].omsId
    ensures forall o :: o in rows ==> exists i :: 0 <= i < |plans| && plans[i].omsId == OmsId(o)
  {
    var order, groups := GroupRows(rows);
    plans := [];
    for k := 0 to |order|
      invariant |plans| == k
      invariant forall i :: 0 <= i < k ==>
                  && plans[i].omsId == order[i] && GroupOf(rows, order[i]) != []
                  && plans[i] == PlanOf(rows, order[i], flags)
    {
      GroupedAt(rows, order, groups, k);
      var group := groups[order[k]];
      var canonical := ChooseCanonical(group);
      plans := plans + [Plan(order[k], canonical, group, Decisions(group, canonical, flags))];
    }
    forall o | o in rows ensures exists i :: 0 <= i < |plans| && plans[i].omsId == OmsId(o) {
      GroupedCovers(rows, order, groups, o);
      var i :| 0 <= i < |order| && order[i] == OmsId(o);
      assert plans[i].omsId == OmsId(o);
    }
  }

  // ---------------------------------------------------------- re-planning after a run

  ghost predicate DistinctIds(rows: seq<Order>) {
    forall i, j :: 0 <= i < j < |rows| ==> rows[i].id != rows[j].id
  }

  /** The orders of one group a run would retire. */
  function RetireIds(group: seq<Order>, flags: Flags): set<int>
    requires group != []
  {
    set i | 0 <= i < |group| && DecideRow(group[i], ChooseCanonical(group), flags).action.Retires() :: group[i].id
  }

  lemma {:induction false} CanonicalIsKept(group: seq<Order>, flags: Flags)
    requires group != [] && DistinctIds(group)
    ensures ChooseCanonical(group).id !in RetireIds(group, flags)
  {
  }

  lemma {:induction false} CanonicalSurvives(group: seq<Order>, flags: Flags, ids: set<int>)
    requires group != [] && DistinctIds(group) && ids <= RetireIds(group, flags)
    ensures ChooseCanonical(RetireMany(group, ids)) == ChooseCanonical(group)
  {
    var c, group' := ChooseCanonical(group), RetireMany(group, ids);
    CanonicalIsKept(group, flags);
    var k :| 0 <= k < |group| && group[k] == c;
    assert group'[k] == c;
    forall r | r in group' ensures Precedes(c, r) {
      var i :| 0 <= i < |group| && group'[i] == r;
      RetiredFacts(group[i]);
      assert group[i] in group;
    }
    CanonicalIsUnique(group', c);
  }

  lemma {:induction false} CanonicalIsUnique(rows: seq<Order>, c: Order)
    requires DistinctIds(rows) && c in rows && forall r :: r in rows ==> Precedes(c, r)
    ensures ChooseCanonical(rows) == c
  {
    var c' := ChooseCanonical(rows);
    assert Precedes(c, c') && Precedes(c', c);
    var i :| 0 <= i < |rows| && rows[i] == c;
    var j :| 0 <= j < |rows| && rows[j] == c';
  }

  /** However many of a group's retirements went through, planning again chooses the same canonical
      row, unchanged; finds the retired rows already retired; and decides every other row as before. */
  lemma {:induction false} ReplanningAfterRetirement(group: seq<Order>, flags: Flags, ids: set<int>)
    requires group != [] && DistinctIds(group) && ids <= RetireIds(group, flags)
    ensures var group' := RetireMany(group, ids);
      && ChooseCanonical(group') == ChooseCanonical(group)
      && (forall i :: 0 <= i < |group| ==>
            DecideRow(group'[i], ChooseCanonical(group'), flags) ==
            if group[i].id in ids then Decision(group'[i], AlreadyRetired, [])
            else DecideRow(group[i], ChooseCanonical(group), flags))
      && RetireIds(group', flags) == RetireIds(group, flags) - ids
  {
    var c, group' := ChooseCanonical(group), RetireMany(group, ids);
    CanonicalSurvives(group, flags, ids);
    CanonicalIsKept(group, flags);
    forall i | 0 <= i < |group|
      ensures DecideRow(group'[i], c, flags) ==
              if group[i].id in ids then Decision(group'[i], AlreadyRetired, []) else DecideRow(group[i], c, flags)
      ensures group'[i].id == group[i].id
    {
      RetiredFacts(group[i]);
    }
    RetireIdsShrink(group, group', c, flags, ids);
  }

  lemma {:induction false} RetireIdsShrink(group: seq<Order>, group': seq<Order>, c: Order, flags: Flags, ids: set<int>)
    requires group != [] && |group'| == |group| && ChooseCanonical(group) == c == ChooseCanonical(group')
    requires forall i :: 0 <= i < |group| ==> group'[i].id == group[i].id
    requires forall i :: 0 <= i < |group| ==>
               DecideRow(group'[i], c, flags) ==
               (if group[i].id in ids then Decision(group'[i], AlreadyRetired, []) else DecideRow(group[i], c, flags))
    ensures RetireIds(group', flags) == RetireIds(group, flags) - ids
  {
    forall id | id in RetireIds(group, flags) - ids ensures id in RetireIds(group', flags) {
      var i :| 0 <= i < |group| && group[i].id == id && DecideRow(group[i], c, flags).action.Retires();
      assert DecideRow(group'[i], c, flags).action.Retires();
    }
    forall id | id in RetireIds(group', flags) ensures id in RetireIds(group, flags) - ids {
      var i :| 0 <= i < |group'| && group'[i].id == id && DecideRow(group'[i], c, flags).action.Retires();
      assert DecideRow(group[i], c, flags).action.Retires();
    }
  }

  /** Every order a complete run over `rows` retires. */
  ghost function RetireSet(rows: seq<Order>, flags: Flags): set<int> {
    set i | 0 <= i < |rows| && InRetireIds(rows, flags, i) :: rows[i].id
  }

  ghost predicate InRetireIds(rows: seq<Order>, flags: Flags, i: nat)
    requires i < |rows|
  {
    var group := GroupOf(rows, OmsId(rows[i]));
    group != [] && rows[i].id in RetireIds(group, flags)
  }

  lemma {:induction false} GroupOfRetireMany(rows: seq<Order>, ids: set<int>, omsId: int)
    ensures GroupOf(RetireMany(rows, ids), omsId) == RetireMany(GroupOf(rows, omsId), ids)
  {
    if rows != [] {
      GroupOfRetireMany(rows[1..], ids, omsId);
      assert RetireMany(rows, ids)[1..] == RetireMany(rows[1..], ids);
    }
  }

  lemma {:induction false} GroupDistinct(rows: seq<Order>, omsId: int)
    requires DistinctIds(rows)
    ensures DistinctIds(GroupOf(rows, omsId))
  {
    if rows != [] {
      assert DistinctIds(rows[1..]);
      GroupDistinct(rows[1..], omsId);
      GroupMembers(rows[1..], omsId);
      var rest := GroupOf(rows[1..], omsId);
      forall j | 0 <= j < |rest| ensures rest[j].id != rows[0].id {
        assert rest[j] in rows[1..];
      }
    }
  }

  lemma {:induction false} SameIdSameRow(rows: seq<Order>, a: Order, b: Order)
    requires DistinctIds(rows) && a in rows && b in rows && a.id == b.id
    ensures a == b
  {
    var i :| 0 <= i < |rows| && rows[i] == a;
    var j :| 0 <= j < |rows| && rows[j] == b;
  }

  /** What a run may retire in one group is what it may retire there on its own account. */
  lemma {:induction false} OwnRetirements(rows: seq<Order>, flags: Flags, ids: set<int>, omsId: int)
    returns (own: set<int>)
    requires DistinctIds(rows) && ids <= RetireSet(rows, flags) && GroupOf(rows, omsId) != []
    ensures own <= RetireIds(GroupOf(rows, omsId), flags)
    ensures forall o :: o in rows && OmsId(o) == omsId ==> (o.id in own <==> o.id in ids)
  {
    var group := GroupOf(rows, omsId);
    GroupMembers(rows, omsId);
    own := set k | 0 <= k < |group| && group[k].id in ids :: group[k].id;
    forall id | id in own ensures id in RetireIds(group, flags) {
      var k :| 0 <= k < |group| && group[k].id == id;
      assert group[k] in group;
      var j :| 0 <= j < |rows| && rows[j].id == id && InRetireIds(rows, flags, j);
      SameIdSameRow(rows, group[k], rows[j]);
    }
    forall o | o in rows && OmsId(o) == omsId ensures o.id in own <==> o.id in ids {
      var k :| 0 <= k < |group| && group[k] == o;
    }
  }

  lemma {:induction false} StillToRetire(rows: seq<Order>, flags: Flags, ids: set<int>, i: nat)
    requires DistinctIds(rows) && ids <= RetireSet(rows, flags) && i < |rows|
    ensures InRetireIds(RetireMany(rows, ids), flags, i) <==> InRetireIds(rows, flags, i) && rows[i].id !in ids
  {
    var omsId := OmsId(rows[i]);
    var group := GroupOf(rows, omsId);
    GroupMembers(rows, omsId);
    assert rows[i] in group;
    GroupOfRetireMany(rows, ids, omsId);
    GroupDistinct(rows, omsId);
    var own := OwnRetirements(rows, flags, ids, omsId);
    assert RetireMany(group, ids) == RetireMany(group, own) by {
      forall k | 0 <= k < |group| ensures group[k].id in own <==> group[k].id in ids {
        assert group[k] in group;
      }
    }
    ReplanningAfterRetirement(group, flags, own);
    assert OmsId(RetireMany(rows, ids)[i]) == omsId;
  }

  /** A run cut off anywhere leaves exactly the rest of its work to the next one. */
  lemma {:induction false} RetireSetShrinks(rows: seq<Order>, flags: Flags, ids: set<int>)
    requires DistinctIds(rows) && ids <= RetireSet(rows, flags)
    ensures RetireSet(RetireMany(rows, ids), flags) == RetireSet(rows, flags) - ids
  {
    var rows' := RetireMany(rows, ids);
    forall i | 0 <= i < |rows|
      ensures InRetireIds(rows', flags, i) <==> InRetireIds(rows, flags, i) && rows[i].id !in ids
      ensures rows'[i].id == rows[i].id
    {
      StillToRetire(rows, flags, ids, i);
    }
    forall id | id in RetireSet(rows', flags) ensures id in RetireSet(rows, flags) - ids {
      var i :| 0 <= i < |rows'| && rows'[i].id == id && InRetireIds(rows', flags, i);
      assert InRetireIds(rows, flags, i);
    }
    forall id | id in RetireSet(rows, flags) - ids ensures id in RetireSet(rows', flags) {
      var i :| 0 <= i < |rows| && rows[i].id == id && InRetireIds(rows, flags, i);
      assert InRetireIds(rows', flags, i);
    }
  }

  lemma {:induction false} RetiredTwice(o: Order)
    ensures Retired(Retired(o)) == Retired(o)
  {
    assert Retired(Retired(o)).items == Retired(o).items;
    assert Retired(Retired(o)).shipments == Retired(o).shipments;
  }

  lemma {:induction false} RetireManyCompose(orders: seq<Order>, a: set<int>, b: set<int>)
    ensures RetireMany(RetireMany(orders, a), b) == RetireMany(orders, a + b)
  {
    forall i | 0 <= i < |orders| ensures RetireMany(RetireMany(orders, a), b)[i] == RetireMany(orders, a + b)[i] {
      RetiredTwice(orders[i]);
    }
  }

  /** The fixpoint: whether in one run, or in one that was cut off and then a complete one, the same
      table results; and on that table nothing is left to retire. */
  lemma {:induction false} RetirementReachesFixpoint(rows: seq<Order>, flags: Flags, ids: set<int>)
    requires DistinctIds(rows) && ids <= RetireSet(rows, flags)
    ensures var cut := RetireMany(rows, ids);
      && RetireMany(cut, RetireSet(cut, flags)) == RetireMany(rows, RetireSet(rows, flags))
      && RetireSet(RetireMany(rows, RetireSet(rows, flags)), flags) == {}
  {
    RetireSetShrinks(rows, flags, ids);
    RetireSetShrinks(rows, flags, RetireSet(rows, flags));
    RetireManyCompose(rows, ids, RetireSet(rows, flags) - ids);
    assert ids + (RetireSet(rows, flags) - ids) == RetireSet(rows, flags);
  }

  // ---------------------------------------------------------- conservation

  function OpenPicked(orders: seq<Order>): nat {
    if orders == [] then 0
    else (if orders[0].status != "cancelled" then Picked(orders[0].items) else 0) + OpenPicked(orders[1..])
  }

  function OpenFulfilled(orders: seq<Order>): nat {
    if orders == [] then 0
    else (if orders[0].status != "cancelled" then Fulfilled(orders[0].items) else 0) + OpenFulfilled(orders[1..])
  }

  /** Retiring `ids` on the table as it stands conserves picked and fulfilled quantity over
      uncancelled orders exactly when no order it newly cancels has any. */
  lemma {:induction false} ConservedExactly(orders: seq<Order>, ids: set<int>)
    ensures OpenPicked(RetireMany(orders, ids)) <= OpenPicked(orders)
    ensures OpenFulfilled(RetireMany(orders, ids)) <= OpenFulfilled(orders)
    ensures OpenPicked(RetireMany(orders, ids)) == OpenPicked(orders) &&
            OpenFulfilled(RetireMany(orders, ids)) == OpenFulfilled(orders) <==>
            forall o :: o in orders && o.id in ids && o.status != "cancelled" ==>
              Picked(o.items) == 0 && Fulfilled(o.items) == 0
  {
    if orders != [] {
      var orders' := RetireMany(orders, ids);
      ConservedExactly(orders[1..], ids);
      assert orders'[1..] == RetireMany(orders[1..], ids);
      RetiredFacts(orders[0]);
      assert forall o :: o in orders <==> o == orders[0] || o in orders[1..];
    }
  }

  /** So a run on the table it planned from conserves both, wherever it is cut off. */
  lemma {:induction false} RunConserves(rows: seq<Order>, flags: Flags, ids: set<int>)
    requires DistinctIds(rows) && ids <= RetireSet(rows, flags)
    ensures OpenPicked(RetireMany(rows, ids)) == OpenPicked(rows)
    ensures OpenFulfilled(RetireMany(rows, ids)) == OpenFulfilled(rows)
  {
    forall o | o in rows && o.id in ids ensures Picked(o.items) == 0 && Fulfilled(o.items) == 0 {
      RetirementsAreIdle(rows, flags, o);
    }
    ConservedExactly(rows, ids);
  }

  lemma {:induction false} RetirementsAreIdle(rows: seq<Order>, flags: Flags, o: Order)
    requires DistinctIds(rows) && o in rows && o.id in RetireSet(rows, flags)
    ensures Picked(o.items) == 0 && Fulfilled(o.items) == 0 && !HasShippedEvidence(o)
  {
    var i :| 0 <= i < |rows| && rows[i].id == o.id && InRetireIds(rows, flags, i);
    SameIdSameRow(rows, o, rows[i]);
    var group := GroupOf(rows, OmsId(o));
    var c := ChooseCanonical(group);
    var k :| 0 <= k < |group| && group[k].id == o.id && DecideRow(group[k], c, flags).action.Retires();
    assert group[k] in group;
    GroupMembers(rows, OmsId(o));
    SameIdSameRow(rows, o, group[k]);
  }
}
