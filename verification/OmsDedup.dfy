/** Merging OMS orders that share a channel and an external order number. */
module OmsDedup {
  import opened Prelude
  import opened StableSort
  import opened Text
  import opened Lexicographic

  // ---------------------------------------------------------- rows

  datatype Order = Order(id: int, channel: Option<int>, number: Option<string>, created: int)

  /** A line or an event: a row of its own that points at an order. */
  datatype Child = Child(order: int, content: string)

  datatype Tables = Tables(orders: seq<Order>, lines: seq<Child>, events: seq<Child>)

  type Pair = (Option<int>, Option<string>)

  function PairOf(o: Order): Pair { (o.channel, o.number) }

  /** Duplicates are orders of one channel with one external number. */
  lemma {:induction false} SamePairExactly(o: Order, q: Order)
    ensures PairOf(o) == PairOf(q) <==> o.channel == q.channel && o.number == q.number
    ensures PairOf(o).0 == o.channel && PairOf(o).1 == o.number
  {
  }

  ghost predicate DistinctIds(orders: seq<Order>) {
    forall i, j :: 0 <= i < j < |orders| ==> orders[i].id != orders[j].id
  }

  ghost predicate PointsInto(c: Child, orders: seq<Order>) { exists o :: o in orders && o.id == c.order }

  /** The foreign keys hold. */
  ghost predicate Sound(t: Tables) {
    && DistinctIds(t.orders)
    && (forall c :: c in t.lines ==> PointsInto(c, t.orders))
    && (forall c :: c in t.events ==> PointsInto(c, t.orders))
  }

  // ---------------------------------------------------------- groups

  function Own(orders: seq<Order>, p: Pair): seq<Order> {
    if orders == [] then [] else (if PairOf(orders[0]) == p then [orders[0]] else []) + Own(orders[1..], p)
  }

  function Pairs(orders: seq<Order>): seq<Pair> {
    if orders == [] then [] else (if orders[0].number.Some? then [PairOf(orders[0])] else []) + Pairs(orders[1..])
  }

  function CreatedKey(o: Order): seq<int> { [o.created] }

  /** One duplicate group, its rows oldest first. */
  datatype Group = Group(pair: Pair, rows: seq<Order>)

  function GroupsOf(orders: seq<Order>, pairs: seq<Pair>): seq<Group> {
    if pairs == [] then []
    else
      var own := Own(orders, pairs[0]);
      (if |own| > 1 then [Group(pairs[0], Sort(By(CreatedKey), own))] else []) + GroupsOf(orders, pairs[1..])
  }

  /** `ORDER BY cnt DESC, channel_id, external_order_number`, a missing channel last. */
  predicate GroupLe(a: Group, b: Group) {
    || |a.rows| > |b.rows|
    || (|a.rows| == |b.rows| &&
        if a.pair.0 != b.pair.0 then b.pair.0.None? || (a.pair.0.Some? && a.pair.0.value < b.pair.0.value)
        else a.pair.1.None? || (b.pair.1.Some? && StringLe(a.pair.1.value, b.pair.1.value)))
  }

  function Selected(orders: seq<Order>, limit: nat): seq<Group> {
    var sorted := Sort(GroupLe, GroupsOf(orders, Unique(Pairs(orders))));
    if |sorted| <= limit then sorted else sorted[..limit]
  }

  lemma {:induction false} OwnMembers(orders: seq<Order>, p: Pair)
    ensures forall o :: o in Own(orders, p) <==> o in orders && PairOf(o) == p
    ensures DistinctIds(orders) ==> DistinctIds(Own(orders, p))
  {
    if orders != [] {
      OwnMembers(orders[1..], p);
      assert forall o :: o in orders <==> o == orders[0] || o in orders[1..];
      var rest := Own(orders[1..], p);
      if DistinctIds(orders) {
        assert DistinctIds(orders[1..]);
        forall j | 0 <= j < |rest| ensures rest[j].id != orders[0].id {
          assert rest[j] in rest && rest[j] in orders[1..];
        }
      }
    }
  }

  lemma {:induction false} PairsMembers(orders: seq<Order>)
    ensures forall p :: p in Pairs(orders) <==> exists o :: o in orders && o.number.Some? && PairOf(o) == p
  {
    if orders != [] {
      PairsMembers(orders[1..]);
      assert forall o :: o in orders <==> o == orders[0] || o in orders[1..];
    }
  }

  predicate OtherPair(a: Group, b: Group) { a.pair != b.pair }

  predicate OtherId(a: Order, b: Order) { a.id != b.id }

  /** What the rest relies on: at least two rows, all of the pair and no others, oldest first. */
  ghost predicate IsGroup(g: Group, orders: seq<Order>) {
    && |g.rows| > 1 && g.pair.1.Some?
    && (forall o :: o in g.rows <==> o in orders && PairOf(o) == g.pair)
    && DistinctIds(g.rows)
    && (forall i :: 0 <= i < |g.rows| ==> g.rows[0].created <= g.rows[i].created)
  }

  lemma {:induction false} GroupsOfFacts(orders: seq<Order>, pairs: seq<Pair>)
    requires DistinctIds(orders) && NoRepeats(pairs) && forall p :: p in pairs ==> p.1.Some?
    ensures Pairwise(OtherPair, GroupsOf(orders, pairs))
    ensures forall g :: g in GroupsOf(orders, pairs) ==> g.pair in pairs && IsGroup(g, orders)
  {
    if pairs != [] {
      GroupsOfFacts(orders, pairs[1..]);
      var own, rest := Own(orders, pairs[0]), GroupsOf(orders, pairs[1..]);
      if |own| > 1 {
        SortedGroup(orders, pairs[0]);
        forall j | 0 <= j < |rest| ensures rest[j].pair != pairs[0] {
          assert rest[j] in rest;
        }
      }
    }
  }

  lemma {:induction false} GroupsOfCovers(orders: seq<Order>, pairs: seq<Pair>, p: Pair)
    requires p in pairs && |Own(orders, p)| > 1
    ensures exists g :: g in GroupsOf(orders, pairs) && g.pair == p
  {
    var rest := GroupsOf(orders, pairs[1..]);
    if p == pairs[0] {
      assert GroupsOf(orders, pairs)[0].pair == p;
    } else {
      GroupsOfCovers(orders, pairs[1..], p);
      var g :| g in rest && g.pair == p;
      assert g in GroupsOf(orders, pairs);
    }
  }

  lemma {:induction false} SortedGroup(orders: seq<Order>, p: Pair)
    requires DistinctIds(orders) && |Own(orders, p)| > 1 && p.1.Some?
    ensures IsGroup(Group(p, Sort(By(CreatedKey), Own(orders, p))), orders)
  {
    var own := Own(orders, p);
    var rows := Sort(By(CreatedKey), own);
    OwnMembers(orders, p);
    SortMultiset(By(CreatedKey), own);
    FirstIsLeast(CreatedKey, own);
    assert Pairwise(OtherId, own);
    SortKeepsSymmetric(By(CreatedKey), OtherId, own);
    forall i | 0 <= i < |rows| ensures rows[0].created <= rows[i].created {
      assert rows[i] in rows && rows[i] in own;
    }
    forall i, j | 0 <= i < j < |rows| ensures rows[i].id != rows[j].id {
      assert OtherId(rows[i], rows[j]);
    }
  }

  /** The groups a run works on. */
  lemma {:induction false} SelectedFacts(orders: seq<Order>, limit: nat)
    requires DistinctIds(orders)
    ensures Pairwise(OtherPair, Selected(orders, limit))
    ensures forall g :: g in Selected(orders, limit) ==> IsGroup(g, orders)
  {
    var pairs := Unique(Pairs(orders));
    var groups := GroupsOf(orders, pairs);
    PairsMembers(orders);
    GroupsOfFacts(orders, pairs);
    SortMultiset(GroupLe, groups);
    SortKeepsSymmetric(GroupLe, OtherPair, groups);
    assert forall g :: g in Selected(orders, limit) ==> g in Sort(GroupLe, groups);
  }

  /** With a limit that covers the groups, every duplicated pair is among them. */
  lemma {:induction false} DuplicatesSelected(orders: seq<Order>, limit: nat, o: Order, q: Order)
    requires |GroupsOf(orders, Unique(Pairs(orders)))| <= limit
    requires o in orders && q in orders && o.id != q.id && o.number.Some? && PairOf(o) == PairOf(q)
    ensures exists g :: g in Selected(orders, limit) && g.pair == PairOf(o)
  {
    var groups := GroupsOf(orders, Unique(Pairs(orders)));
    PairsMembers(orders);
    OwnMembers(orders, PairOf(o));
    TwoMembers(Own(orders, PairOf(o)), o, q);
    GroupsOfCovers(orders, Unique(Pairs(orders)), PairOf(o));
    SortMultiset(GroupLe, groups);
  }

  /** Larger groups are merged before smaller ones; those of one size by channel, orders without one
      last, and then by number. */
  ghost predicate MergedBefore(p: Pair, m: nat, q: Pair, n: nat) {
    || m > n
    || (m == n && p.0 != q.0 && (q.0.None? || (p.0.Some? && p.0.value < q.0.value)))
    || (m == n && p.0 == q.0 && p.1.Some? && q.1.Some? && (p.1 == q.1 || ComesBefore(p.1.value, q.1.value)))
  }

  lemma {:induction false} GroupLeExactly(a: Group, b: Group)
    requires a.pair.1.Some? && b.pair.1.Some?
    ensures GroupLe(a, b) <==> MergedBefore(a.pair, |a.rows|, b.pair, |b.rows|)
  {
    StringLeExactly(a.pair.1.value, b.pair.1.value);
  }

  lemma {:induction false} GroupLeIsPreorder()
    ensures TotalPreorder(GroupLe)
  {
    forall a, b ensures GroupLe(a, b) || GroupLe(b, a) {
      if a.pair.1.Some? && b.pair.1.Some? { StringLeTotal(a.pair.1.value, b.pair.1.value); }
    }
    forall a, b, c | GroupLe(a, b) && GroupLe(b, c) ensures GroupLe(a, c) {
      if a.pair.1.Some? && b.pair.1.Some? && c.pair.1.Some?
         && StringLe(a.pair.1.value, b.pair.1.value) && StringLe(b.pair.1.value, c.pair.1.value) {
        StringLeTransitive(a.pair.1.value, b.pair.1.value, c.pair.1.value);
      }
    }
  }

  /** In that order, and as many as the limit allows. */
  lemma {:induction false} SelectedInOrder(orders: seq<Order>, limit: nat)
    requires DistinctIds(orders)
    ensures var sel := Selected(orders, limit);
      && |sel| <= limit
      && forall i, j :: 0 <= i < j < |sel| ==> MergedBefore(sel[i].pair, |sel[i].rows|, sel[j].pair, |sel[j].rows|)
  {
    var sel, groups := Selected(orders, limit), GroupsOf(orders, Unique(Pairs(orders)));
    SelectedFacts(orders, limit);
    GroupLeIsPreorder();
    SortRefines(GroupLe, GroupLe, groups);
    forall i, j | 0 <= i < j < |sel| ensures MergedBefore(sel[i].pair, |sel[i].rows|, sel[j].pair, |sel[j].rows|) {
      assert GroupLe(Sort(GroupLe, groups)[i], Sort(GroupLe, groups)[j]);
      assert sel[i] in sel && sel[j] in sel;
      GroupLeExactly(sel[i], sel[j]);
    }
  }

  /** A limit takes the first of them: a duplicated pair is left out only when all it takes come before. */
  lemma {:induction false} LimitTakesLargest(orders: seq<Order>, limit: nat, g: Group, left: Pair)
    requires DistinctIds(orders) && g in Selected(orders, limit)
    requires left.1.Some? && |Own(orders, left)| > 1
    requires forall h :: h in Selected(orders, limit) ==> h.pair != left
    ensures MergedBefore(g.pair, |g.rows|, left, |Own(orders, left)|)
  {
    var pairs := Unique(Pairs(orders));
    var sel, groups := Selected(orders, limit), GroupsOf(orders, pairs);
    var sorted := Sort(GroupLe, groups);
    var h := LeftGroup(orders, left);
    SelectedFacts(orders, limit);
    SortMultiset(GroupLe, groups);
    GroupLeIsPreorder();
    SortRefines(GroupLe, GroupLe, groups);
    var i :| 0 <= i < |sel| && sel[i] == g;
    var j :| 0 <= j < |sorted| && sorted[j] == h;
    NotInPrefix(sel, sorted, j);
    assert GroupLe(sorted[i], sorted[j]);
    GroupLeExactly(g, h);
  }

  lemma {:induction false} LeftGroup(orders: seq<Order>, p: Pair) returns (g: Group)
    requires p.1.Some? && |Own(orders, p)| > 1
    ensures g in GroupsOf(orders, Unique(Pairs(orders))) && g.pair == p && |g.rows| == |Own(orders, p)|
  {
    OwnMembers(orders, p);
    PairsMembers(orders);
    assert Own(orders, p)[0] in Own(orders, p);
    g := GroupAt(orders, Unique(Pairs(orders)), p);
  }

  lemma {:induction false} GroupAt(orders: seq<Order>, pairs: seq<Pair>, p: Pair) returns (g: Group)
    requires p in pairs && |Own(orders, p)| > 1
    ensures g in GroupsOf(orders, pairs) && g.pair == p && |g.rows| == |Own(orders, p)|
  {
    if p == pairs[0] {
      g := GroupsOf(orders, pairs)[0];
      SortMultiset(By(CreatedKey), Own(orders, p));
    } else {
      g := GroupAt(orders, pairs[1..], p);
    }
  }

  lemma {:induction false} TwoMembers(s: seq<Order>, o: Order, q: Order)
    requires o in s && q in s && o != q
    ensures |s| > 1
  {
    var i :| 0 <= i < |s| && s[i] == o;
    var j :| 0 <= j < |s| && s[j] == q;
    assert i != j;
  }

  // ---------------------------------------------------------- merging

  /** From each deleted order to the one that takes its place. */
  type Merges = map<int, int>

  function Moved(cs: seq<Child>, m: Merges): seq<Child> {
    seq(|cs|, k requires 0 <= k < |cs| => if cs[k].order in m then cs[k].(order := m[cs[k].order]) else cs[k])
  }

  function Kept(orders: seq<Order>, m: Merges): seq<Order> {
    if orders == [] then [] else (if orders[0].id in m then [] else [orders[0]]) + Kept(orders[1..], m)
  }

  /** The tables after the merges in `m`. */
  function Merged(t: Tables, m: Merges): Tables {
    Tables(Kept(t.orders, m), Moved(t.lines, m), Moved(t.events, m))
  }

  lemma {:induction false} KeptMembers(orders: seq<Order>, m: Merges)
    ensures forall o :: o in Kept(orders, m) <==> o in orders && o.id !in m
    ensures DistinctIds(orders) ==> DistinctIds(Kept(orders, m))
  {
    if orders != [] {
      KeptMembers(orders[1..], m);
      assert forall o :: o in orders <==> o == orders[0] || o in orders[1..];
      var rest := Kept(orders[1..], m);
      if DistinctIds(orders) {
        assert DistinctIds(orders[1..]);
        forall j | 0 <= j < |rest| ensures rest[j].id != orders[0].id {
          assert rest[j] in rest && rest[j] in orders[1..];
        }
      }
    }
  }

  lemma {:induction false} KeptTwice(orders: seq<Order>, m: Merges, n: Merges)
    ensures Kept(Kept(orders, m), n) == Kept(orders, m + n)
  {
    if orders != [] {
      KeptTwice(orders[1..], m, n);
      if orders[0].id !in m {
        assert Kept(orders, m) == [orders[0]] + Kept(orders[1..], m);
        assert Kept(orders, m)[1..] == Kept(orders[1..], m);
      } else {
        assert Kept(orders, m) == Kept(orders[1..], m);
      }
    }
  }

  lemma {:induction false} MergedTwice(t: Tables, m: Merges, n: Merges)
    requires forall id :: id in m ==> m[id] !in n
    requires m.Keys !! n.Keys
    ensures Merged(Merged(t, m), n) == Merged(t, m + n)
  {
    KeptTwice(t.orders, m, n);
    assert Moved(Moved(t.lines, m), n) == Moved(t.lines, m + n);
    assert Moved(Moved(t.events, m), n) == Moved(t.events, m + n);
  }

  /** The merges of one group: every row but the first goes to the first. */
  function MergesOf(g: Group): Merges {
    if g.rows == [] then map[] else map o | o in g.rows[1..] :: o.id := g.rows[0].id
  }

  // ---------------------------------------------------------- what merging keeps

  /** Every merge goes from one order to another of the same pair that stays. */
  ghost predicate Coherent(m: Merges, orders: seq<Order>) {
    forall id :: id in m ==>
      && m[id] !in m
      && exists o, q :: o in orders && q in orders && o.id == id && q.id == m[id] && PairOf(o) == PairOf(q)
  }

  /** `c` hangs under the pair `p`. */
  ghost predicate Under(c: Child, orders: seq<Order>, p: Pair) {
    exists o :: o in orders && o.id == c.order && PairOf(o) == p
  }

  /** No row points at a deleted order, and every row hangs under the pair it hung under before, its
      content untouched. */
  lemma {:induction false} MergedChildren(cs: seq<Child>, orders: seq<Order>, m: Merges, k: nat)
    requires DistinctIds(orders) && Coherent(m, orders) && k < |cs| && PointsInto(cs[k], orders)
    ensures PointsInto(Moved(cs, m)[k], Kept(orders, m)) && Moved(cs, m)[k].order !in m
    ensures Moved(cs, m)[k].content == cs[k].content
    ensures forall p :: Under(cs[k], orders, p) <==> Under(Moved(cs, m)[k], Kept(orders, m), p)
  {
    var c, c' := cs[k], Moved(cs, m)[k];
    KeptMembers(orders, m);
    var o :| o in orders && o.id == c.order;
    var q :| q in orders && q.id == c'.order && PairOf(q) == PairOf(o) && q.id !in m by {
      if c.order in m {
        var a, b :| a in orders && b in orders && a.id == c.order && b.id == m[c.order] && PairOf(a) == PairOf(b);
        SameId(orders, a, o);
      }
    }
    forall p ensures Under(c, orders, p) <==> Under(c', Kept(orders, m), p) {
      if Under(c, orders, p) {
        var x :| x in orders && x.id == c.order && PairOf(x) == p;
        SameId(orders, x, o);
        assert q in Kept(orders, m);
      }
      if Under(c', Kept(orders, m), p) {
        var x :| x in Kept(orders, m) && x.id == c'.order && PairOf(x) == p;
        SameId(orders, x, q);
        assert o in orders && PairOf(o) == p;
      }
    }
  }

  lemma {:induction false} SameId(orders: seq<Order>, a: Order, b: Order)
    requires DistinctIds(orders) && a in orders && b in orders && a.id == b.id
    ensures a == b
  {
    var i :| 0 <= i < |orders| && orders[i] == a;
    var j :| 0 <= j < |orders| && orders[j] == b;
  }

  /** So the bag of contents under each pair is the same as before. */
  lemma {:induction false} ContentsPreserved(cs: seq<Child>, orders: seq<Order>, m: Merges, p: Pair)
    requires DistinctIds(orders) && Coherent(m, orders) && forall c :: c in cs ==> PointsInto(c, orders)
    ensures Contents(Moved(cs, m), Kept(orders, m), p) == Contents(cs, orders, p)
  {
    if cs != [] {
      ContentsPreserved(cs[1..], orders, m, p);
      MergedChildren(cs, orders, m, 0);
      assert Moved(cs, m)[1..] == Moved(cs[1..], m);
    }
  }

  ghost function Contents(cs: seq<Child>, orders: seq<Order>, p: Pair): multiset<string> {
    if cs == [] then multiset{}
    else (if Under(cs[0], orders, p) then multiset{cs[0].content} else multiset{}) + Contents(cs[1..], orders, p)
  }

  lemma {:induction false} MergedSound(t: Tables, m: Merges)
    requires Sound(t) && Coherent(m, t.orders)
    ensures Sound(Merged(t, m))
  {
    KeptMembers(t.orders, m);
    forall k | 0 <= k < |t.lines| ensures PointsInto(Moved(t.lines, m)[k], Kept(t.orders, m)) {
      MergedChildren(t.lines, t.orders, m, k);
    }
    forall k | 0 <= k < |t.events| ensures PointsInto(Moved(t.events, m)[k], Kept(t.orders, m)) {
      MergedChildren(t.events, t.orders, m, k);
    }
  }

  /** At most one order is left of each pair with a number. */
  ghost predicate UniquePairs(orders: seq<Order>) {
    forall o, q :: o in orders && q in orders && o.number.Some? && PairOf(o) == PairOf(q) ==> o == q
  }

  // ---------------------------------------------------------- which row is kept

  /** Where `o` stands in the table. */
  function Position(orders: seq<Order>, o: Order): nat {
    if orders == [] || orders[0] == o then 0 else 1 + Position(orders[1..], o)
  }

  function AgeKey(orders: seq<Order>): Order -> seq<int> { (o: Order) => [o.created, Position(orders, o)] }

  /** `a` was created before `b`, or at the same time and stands before it in the table. */
  predicate IsOlder(orders: seq<Order>, a: Order, b: Order) {
    a.created < b.created || (a.created == b.created && Position(orders, a) < Position(orders, b))
  }

  ghost predicate InPlace(orders: seq<Order>, s: seq<Order>) {
    forall i, j :: 0 <= i < j < |s| ==> Position(orders, s[i]) < Position(orders, s[j])
  }

  lemma {:induction false} OwnKeepsPlaces(orders: seq<Order>, p: Pair)
    requires DistinctIds(orders)
    ensures InPlace(orders, Own(orders, p))
  {
    if orders != [] {
      assert DistinctIds(orders[1..]);
      OwnKeepsPlaces(orders[1..], p);
      OwnMembers(orders[1..], p);
      var rest := Own(orders[1..], p);
      forall i | 0 <= i < |rest| ensures Position(orders, rest[i]) == 1 + Position(orders[1..], rest[i]) {
        assert rest[i] in rest && rest[i] in orders[1..];
      }
      assert InPlace(orders, rest);
      InPlaceAfter(orders, rest);
    }
  }

  lemma {:induction false} InPlaceAfter(orders: seq<Order>, rest: seq<Order>)
    requires orders != [] && InPlace(orders, rest) && orders[0] !in rest
    ensures InPlace(orders, [orders[0]] + rest) && InPlace(orders, [] + rest)
  {
    var s := [orders[0]] + rest;
    forall i, j | 0 <= i < j < |s| ensures Position(orders, s[i]) < Position(orders, s[j]) {
      assert s[j] == rest[j - 1] && rest[j - 1] in rest;
    }
  }

  lemma {:induction false} GroupRows(orders: seq<Order>, pairs: seq<Pair>, g: Group)
    requires g in GroupsOf(orders, pairs)
    ensures g.rows == Sort(By(CreatedKey), Own(orders, g.pair)) && |Own(orders, g.pair)| > 1
  {
    var rest := GroupsOf(orders, pairs[1..]);
    if g in rest { GroupRows(orders, pairs[1..], g); }
  }

  /** Rows created at one instant stay in table order, so the first is older than all others. */
  lemma {:induction false} FirstIsOldest(orders: seq<Order>, p: Pair)
    requires DistinctIds(orders) && Own(orders, p) != []
    ensures var rows := Sort(By(CreatedKey), Own(orders, p));
      && rows != [] && rows[0] in Own(orders, p)
      && forall o :: o in Own(orders, p) && o != rows[0] ==> IsOlder(orders, rows[0], o)
  {
    var own, key := Own(orders, p), AgeKey(orders);
    var rows := Sort(By(CreatedKey), own);
    OwnKeepsPlaces(orders, p);
    SortMultiset(By(CreatedKey), own);
    ByIsPreorder(CreatedKey);
    LongerKeyRefines(CreatedKey, key);
    forall i, j | 0 <= i < j < |own| && By(CreatedKey)(own[i], own[j]) && By(CreatedKey)(own[j], own[i])
      ensures By(key)(own[i], own[j])
    {
      KeyMeansOlder(orders, own[i], own[j]);
    }
    SortRefines(By(CreatedKey), By(key), own);
    assert rows[0] in rows;
    forall o | o in own && o != rows[0] ensures IsOlder(orders, rows[0], o) {
      assert o in rows;
      var k :| 0 <= k < |rows| && rows[k] == o;
      assert By(key)(rows[0], rows[k]);
      KeyMeansOlder(orders, rows[0], o);
      OtherPlaces(orders, p, rows[0], o);
    }
  }

  lemma {:induction false} KeyMeansOlder(orders: seq<Order>, a: Order, b: Order)
    ensures LexLe(AgeKey(orders)(a), AgeKey(orders)(b)) <==>
              a.created < b.created || (a.created == b.created && Position(orders, a) <= Position(orders, b))
    ensures LexLe(CreatedKey(a), CreatedKey(b)) <==> a.created <= b.created
  {
    var p, q := Position(orders, a), Position(orders, b);
    assert AgeKey(orders)(a) == [a.created, p] && [a.created, p][1..] == [p] && [p][1..] == [];
    assert AgeKey(orders)(b) == [b.created, q] && [b.created, q][1..] == [q] && [q][1..] == [];
    assert CreatedKey(a)[1..] == [] && CreatedKey(b)[1..] == [];
    assert LexLe([p], [q]) <==> p <= q;
  }

  lemma {:induction false} OtherPlaces(orders: seq<Order>, p: Pair, a: Order, b: Order)
    requires DistinctIds(orders) && a in Own(orders, p) && b in Own(orders, p) && a != b
    ensures Position(orders, a) != Position(orders, b)
  {
    OwnKeepsPlaces(orders, p);
    var own := Own(orders, p);
    var i :| 0 <= i < |own| && own[i] == a;
    var j :| 0 <= j < |own| && own[j] == b;
    if i > j { assert Position(orders, own[j]) < Position(orders, own[i]); }
  }

  /** The row with the lowest id. */
  function Lowest(rows: seq<Order>): (low: Order)
    requires rows != []
    ensures low in rows && forall o :: o in rows ==> low.id <= o.id
  {
    if |rows| == 1 then rows[0]
    else
      var low := Lowest(rows[1..]);
      assert forall o :: o in rows ==> o == rows[0] || o in rows[1..];
      if rows[0].id <= low.id then rows[0] else low
  }

  /** The order kept is the one with the lowest id if and only if that is older than all others of
      its group, equal times being settled by place in the table. */
  lemma {:induction false} LowestIsKeptExactly(orders: seq<Order>, limit: nat, g: Group)
    requires DistinctIds(orders) && g in Selected(orders, limit)
    ensures IsGroup(g, orders)
    ensures var low := Lowest(g.rows);
            g.rows[0] == low <==> forall o :: o in g.rows && o != low ==> IsOlder(orders, low, o)
  {
    SelectedFacts(orders, limit);
    SelectedRows(orders, limit, g);
    FirstIsOldest(orders, g.pair);
    SortMultiset(By(CreatedKey), Own(orders, g.pair));
    assert g.rows[0] in g.rows;
  }

  lemma {:induction false} SelectedRows(orders: seq<Order>, limit: nat, g: Group)
    requires g in Selected(orders, limit)
    ensures g in GroupsOf(orders, Unique(Pairs(orders))) && Own(orders, g.pair) != []
    ensures g.rows == Sort(By(CreatedKey), Own(orders, g.pair)) && |g.rows| > 1
    ensures KeptRow(orders, g.pair) == Some(g.rows[0])
  {
    var pairs := Unique(Pairs(orders));
    SortMultiset(GroupLe, GroupsOf(orders, pairs));
    assert g in Sort(GroupLe, GroupsOf(orders, pairs));
    GroupRows(orders, pairs, g);
    SortMultiset(By(CreatedKey), Own(orders, g.pair));
  }

  // ---------------------------------------------------------- whatever settles equal times

  /** The order that is kept of the rows with this pair. */
  function KeptRow(orders: seq<Order>, p: Pair): Option<Order> {
    var own := Own(orders, p);
    if own == [] then None else Some(Sort(By(CreatedKey), own)[0])
  }

  /** `orders` in another order. */
  ghost predicate SameTable(orders: seq<Order>, os: seq<Order>) { multiset(orders) == multiset(os) }

  ghost predicate AlwaysKept(orders: seq<Order>, p: Pair, o: Order) {
    forall os :: SameTable(orders, os) ==> KeptRow(os, p) == Some(o)
  }

  ghost predicate CanBeKept(orders: seq<Order>, p: Pair, o: Order) {
    exists os :: SameTable(orders, os) && KeptRow(os, p) == Some(o)
  }

  lemma {:induction false} SameTableFacts(orders: seq<Order>, os: seq<Order>, p: Pair)
    requires DistinctIds(orders) && SameTable(orders, os)
    ensures DistinctIds(os) && forall o :: o in Own(os, p) <==> o in Own(orders, p)
  {
    SameMembers(orders, os);
    OwnMembers(orders, p);
    OwnMembers(os, p);
    forall i, j | 0 <= i < j < |orders| ensures orders[i] != orders[j] {
      assert orders[i].id != orders[j].id;
    }
    PermutedNoRepeats(orders, os);
    forall i, j | 0 <= i < j < |os| ensures os[i].id != os[j].id {
      assert os[i] in orders && os[j] in orders;
      if os[i].id == os[j].id { SameId(orders, os[i], os[j]); }
    }
  }

  lemma {:induction false} KeptIsOldest(orders: seq<Order>, os: seq<Order>, p: Pair, o: Order)
    requires DistinctIds(orders) && SameTable(orders, os) && o in Own(orders, p)
    ensures KeptRow(os, p).Some? && KeptRow(os, p).value in Own(orders, p)
    ensures o != KeptRow(os, p).value ==> IsOlder(os, KeptRow(os, p).value, o)
  {
    SameTableFacts(orders, os, p);
    assert o in Own(os, p);
    FirstIsOldest(os, p);
  }

  /** With `o` in front of the table it wins every tie. */
  lemma {:induction false} FrontIsKept(orders: seq<Order>, p: Pair, o: Order)
    requires DistinctIds(orders) && o in Own(orders, p)
    requires forall q :: q in Own(orders, p) ==> o.created <= q.created
    ensures SameTable(orders, Fronted(o, orders)) && KeptRow(Fronted(o, orders), p) == Some(o)
  {
    var os := Fronted(o, orders);
    FrontedFacts(o, orders);
    OwnMembers(orders, p);
    SameMembers(orders, os);
    var i :| 0 <= i < |os| && os[i] == o;
    assert i > 0 ==> Fronting(o)(os[0], os[i]);
    assert os[0] == o && Position(os, o) == 0;
    KeptIsOldest(orders, os, p, o);
  }

  /** However the database settles equal times: an order can be kept if and only if none of its pair was
      created before it, and is sure to be if and only if all others were created after it. */
  lemma {:induction false} KeptExactly(orders: seq<Order>, p: Pair, o: Order)
    requires DistinctIds(orders) && o in Own(orders, p)
    ensures CanBeKept(orders, p, o) <==> forall q :: q in Own(orders, p) ==> o.created <= q.created
    ensures AlwaysKept(orders, p, o) <==> forall q :: q in Own(orders, p) && q != o ==> o.created < q.created
  {
    if CanBeKept(orders, p, o) {
      var os :| SameTable(orders, os) && KeptRow(os, p) == Some(o);
      forall q | q in Own(orders, p) ensures o.created <= q.created { KeptIsOldest(orders, os, p, q); }
    }
    if forall q :: q in Own(orders, p) ==> o.created <= q.created { FrontIsKept(orders, p, o); }
    if forall q :: q in Own(orders, p) && q != o ==> o.created < q.created {
      forall os | SameTable(orders, os) ensures KeptRow(os, p) == Some(o) { KeptIsOldest(orders, os, p, o); }
    } else {
      var q :| q in Own(orders, p) && q != o && q.created <= o.created;
      RivalIsKept(orders, p, o, q);
    }
  }

  lemma {:induction false} RivalIsKept(orders: seq<Order>, p: Pair, o: Order, q: Order)
    requires DistinctIds(orders) && o in Own(orders, p) && q in Own(orders, p) && q != o && q.created <= o.created
    ensures !AlwaysKept(orders, p, o)
  {
    var os := Fronted(q, orders);
    FrontedFacts(q, orders);
    SameMembers(orders, os);
    OwnMembers(orders, p);
    var i :| 0 <= i < |os| && os[i] == q;
    assert i > 0 ==> Fronting(q)(os[0], os[i]);
    assert os[0] == q && Position(os, q) == 0;
    KeptIsOldest(orders, os, p, q);
    assert SameTable(orders, os) && KeptRow(os, p) != Some(o);
  }

  /** Two orders for which it is not. */
  lemma {:induction false} OldestNotLowest()
    ensures var a, b := Order(1, Some(1), Some("n"), 20), Order(2, Some(1), Some("n"), 10);
            var groups := Selected([a, b], |GroupsOf([a, b], Unique(Pairs([a, b])))|);
            groups != [] && forall g :: g in groups ==> g.rows != [] && g.rows[0] == b && Lowest(g.rows) == a
  {
    var a, b := Order(1, Some(1), Some("n"), 20), Order(2, Some(1), Some("n"), 10);
    var orders := [a, b];
    SelectedFacts(orders, |GroupsOf(orders, Unique(Pairs(orders)))|);
    assert a in orders && b in orders;
    DuplicatesSelected(orders, |GroupsOf(orders, Unique(Pairs(orders)))|, a, b);
    var groups := Selected(orders, |GroupsOf(orders, Unique(Pairs(orders)))|);
    forall g | g in groups ensures g.rows != [] && g.rows[0] == b && Lowest(g.rows) == a {
      assert g.rows[0] in g.rows;
      assert PairOf(a) == g.pair;
      assert a in g.rows && b in g.rows;
    }
  }
}
