/** Merging what several lookups returned, and matching it against a WMS shipment. */
module ShipmentMatch {
  import opened Prelude
  import opened Text
  import opened ShipmentIdentity

  /** A provider record. `None` stands for a field that is missing or no integer. */
  datatype Shipment = Shipment(
    id: Option<int>, orderId: Option<int>, orderKey: Option<string>, tracking: Option<string>)

  predicate HasId(s: Shipment) { s.id.Some? && s.id.value > 0 }

  predicate HasNoId(s: Shipment) { !HasId(s) }

  // ---------------------------------------------------------- merging

  /** Where `id` stands in the insertion order, or the length of `s`. */
  function Position(s: seq<Shipment>, id: int): (n: nat)
    ensures n <= |s|
    ensures forall i :: 0 <= i < n ==> s[i].id != Some(id)
    ensures n < |s| ==> s[n].id == Some(id)
  {
    if s == [] then 0 else if s[0].id == Some(id) then 0 else 1 + Position(s[1..], id)
  }

  /** `Map.set`: a new key goes last, a known one keeps its place and takes the new value. */
  function Put(s: seq<Shipment>, r: Shipment): seq<Shipment>
    requires HasId(r)
  {
    var n := Position(s, r.id.value);
    if n < |s| then s[n := r] else s + [r]
  }

  function Keyed(s: seq<Shipment>): seq<Shipment> {
    if s == [] then []
    else
      var r := s[|s| - 1];
      if HasId(r) then Put(Keyed(s[..|s| - 1]), r) else Keyed(s[..|s| - 1])
  }

  function Merged(s: seq<Shipment>): seq<Shipment> { Keyed(s) + Filter(HasNoId, s) }

  ghost predicate DistinctIds(s: seq<Shipment>) {
    && (forall i :: 0 <= i < |s| ==> HasId(s[i]))
    && forall i, j :: 0 <= i < j < |s| ==> s[i].id != s[j].id
  }

  /** `r` is the last record in `s` with its id. */
  ghost predicate IsLast(s: seq<Shipment>, r: Shipment) {
    HasId(r) && exists i :: 0 <= i < |s| && s[i] == r && forall j :: i < j < |s| ==> s[j].id != r.id
  }

  /** One record for each positive id: the last one seen. */
  lemma {:induction false} KeyedFacts(s: seq<Shipment>)
    ensures DistinctIds(Keyed(s))
    ensures forall r :: r in Keyed(s) <==> IsLast(s, r)
  {
    if s != [] {
      var before, r := s[..|s| - 1], s[|s| - 1];
      KeyedFacts(before);
      if HasId(r) {
        PutMembers(Keyed(before), r);
      }
      forall q ensures q in Keyed(s) <==> IsLast(s, q) {
        LastSnoc(before, r, q);
        assert before + [r] == s;
      }
    }
  }

  lemma {:induction false} KeyedDistinct(s: seq<Shipment>)
    ensures DistinctIds(Keyed(s))
  {
    KeyedFacts(s);
  }

  lemma {:induction false} PutMembers(s: seq<Shipment>, r: Shipment)
    requires DistinctIds(s) && HasId(r)
    ensures DistinctIds(Put(s, r))
    ensures forall q :: q in Put(s, r) <==> q == r || (q in s && q.id != r.id)
  {
    var n, t := Position(s, r.id.value), Put(s, r);
    forall q | q in s && q.id != r.id ensures q in t {
      var i :| 0 <= i < |s| && s[i] == q;
      assert t[i] == q;
    }
    assert t[n] == r;
  }

  lemma {:induction false} LastSnoc(s: seq<Shipment>, r: Shipment, q: Shipment)
    ensures IsLast(s + [r], q) <==> (HasId(r) && q == r) || (IsLast(s, q) && q.id != r.id)
  {
    var t := s + [r];
    assert t[|s|] == r;
    if IsLast(s, q) && q.id != r.id {
      var i :| 0 <= i < |s| && s[i] == q && forall j :: i < j < |s| ==> s[j].id != q.id;
      assert t[i] == q;
    }
    if IsLast(t, q) && q.id != r.id {
      var i :| 0 <= i < |t| && t[i] == q && forall j :: i < j < |t| ==> t[j].id != q.id;
      assert s[i] == q && forall j :: i < j < |s| ==> s[j] == t[j];
    }
  }

  /** The ids that occur are kept. */
  lemma {:induction false} KeyedIds(s: seq<Shipment>, id: int)
    requires id > 0
    ensures (exists r :: r in s && r.id == Some(id)) <==> (exists r :: r in Keyed(s) && r.id == Some(id))
  {
    KeyedFacts(s);
    if s != [] {
      var before, r := s[..|s| - 1], s[|s| - 1];
      KeyedIds(before, id);
      KeyedFacts(before);
      if HasId(r) { PutMembers(Keyed(before), r); }
      assert forall q :: q in s <==> q in before || q == r;
    }
  }

  lemma {:induction false} KeyedOfDistinct(s: seq<Shipment>, noId: seq<Shipment>)
    requires DistinctIds(s) && forall r :: r in noId ==> HasNoId(r)
    ensures Keyed(s + noId) == s
    decreases |s| + |noId|
  {
    var t := s + noId;
    if noId != [] {
      assert t[..|t| - 1] == s + noId[..|noId| - 1];
      assert t[|t| - 1] == noId[|noId| - 1] && noId[|noId| - 1] in noId;
      KeyedOfDistinct(s, noId[..|noId| - 1]);
    } else if s != [] {
      assert t == s && s[..|s| - 1] + [] == s[..|s| - 1];
      KeyedOfDistinct(s[..|s| - 1], []);
    }
  }

  lemma {:induction false} FilterNone(s: seq<Shipment>)
    requires forall r :: r in s ==> HasId(r)
    ensures Filter(HasNoId, s) == []
  {
    if s != [] { FilterNone(s[1..]); }
  }

  lemma {:induction false} FilterAll(s: seq<Shipment>)
    requires forall r :: r in s ==> HasNoId(r)
    ensures Filter(HasNoId, s) == s
  {
    if s != [] { FilterAll(s[1..]); }
  }

  lemma {:induction false} MergedForm(keyed: seq<Shipment>, noId: seq<Shipment>)
    requires DistinctIds(keyed) && forall r :: r in noId ==> HasNoId(r)
    ensures Keyed(keyed + noId) == keyed && Filter(HasNoId, keyed + noId) == noId
  {
    KeyedOfDistinct(keyed, noId);
    FilterConcat(HasNoId, keyed, noId);
    FilterNone(keyed);
    FilterAll(noId);
  }

  /** Merging what is merged changes nothing; records without an id are all kept, in order. */
  lemma {:induction false} MergeIsIdempotent(s: seq<Shipment>)
    ensures Merged(Merged(s)) == Merged(s)
    ensures Filter(HasNoId, Merged(s)) == Filter(HasNoId, s)
  {
    KeyedFacts(s);
    MergedForm(Keyed(s), Filter(HasNoId, s));
  }

  /** The loop over the results, with a map that remembers its insertion order. */
  method MergeShipments(shipments: seq<Shipment>) returns (merged: seq<Shipment>)
    ensures merged == Merged(shipments)
  {
    var order: seq<int>, values: map<int, Shipment>, noId: seq<Shipment> := [], map[], [];
    for k := 0 to |shipments|
      invariant IsMap(order, values, Keyed(shipments[..k]))
      invariant noId == Filter(HasNoId, shipments[..k])
    {
      var r := shipments[k];
      assert shipments[..k + 1][..k] == shipments[..k];
      FilterNext(shipments, k);
      if HasId(r) {
        KeyedDistinct(shipments[..k]);
        PutInMap(order, values, Keyed(shipments[..k]), r);
        if r.id.value !in values { order := order + [r.id.value]; }
        values := values[r.id.value := r];
      } else {
        noId := noId + [r];
      }
    }
    assert shipments[..|shipments|] == shipments;
    merged :=
      seq(|order|, i requires 0 <= i < |order| && IsMap(order, values, Keyed(shipments)) => values[order[i]]) + noId;
  }

  lemma {:induction false} FilterNext(s: seq<Shipment>, k: nat)
    requires k < |s|
    ensures Filter(HasNoId, s[..k + 1]) == Filter(HasNoId, s[..k]) + (if HasNoId(s[k]) then [s[k]] else [])
  {
    assert s[..k + 1] == s[..k] + [s[k]];
    FilterConcat(HasNoId, s[..k], [s[k]]);
  }

  /** `order` and `values` together hold the list `s`. */
  ghost predicate IsMap(order: seq<int>, values: map<int, Shipment>, s: seq<Shipment>) {
    && |order| == |s|
    && (forall i :: 0 <= i < |s| ==> order[i] in values && values[order[i]] == s[i] && s[i].id == Some(order[i]))
    && (forall id :: id in values ==> exists i :: 0 <= i < |s| && s[i].id == Some(id))
  }

  lemma {:induction false} PutInMap(order: seq<int>, values: map<int, Shipment>, s: seq<Shipment>, r: Shipment)
    requires IsMap(order, values, s) && DistinctIds(s) && HasId(r)
    ensures IsMap(if r.id.value in values then order else order + [r.id.value], values[r.id.value := r], Put(s, r))
  {
    var id := r.id.value;
    var n, t := Position(s, id), Put(s, r);
    var order', values' := if id in values then order else order + [id], values[id := r];
    assert id in values <==> n < |s|;
    forall x | x in values' ensures exists i :: 0 <= i < |t| && t[i].id == Some(x) {
      if x == id {
        assert t[n].id == Some(x);
      } else {
        var i :| 0 <= i < |s| && s[i].id == Some(x);
        assert t[i].id == Some(x);
      }
    }
  }

  // ---------------------------------------------------------- deciding

  datatype Decision =
    | Match(shipment: Shipment, externalId: string)
    | NoMatch
    | Ambiguous(ids: seq<int>)
    | InvalidCandidate(reason: Reason)

  datatype Reason = NoTracking | NoShipmentId

  function NormalTracking(o: Option<string>): Option<string> {
    var n := Normal(o);
    if n.Some? then Some(Upper(n.value)) else None
  }

  function Matching(s: seq<Shipment>, tracking: string): seq<Shipment> {
    if s == [] then []
    else (if NormalTracking(s[0].tracking) == Some(tracking) then [s[0]] else []) + Matching(s[1..], tracking)
  }

  function PositiveIds(s: seq<Shipment>): seq<int> {
    if s == [] then [] else (if HasId(s[0]) then [s[0].id.value] else []) + PositiveIds(s[1..])
  }

  /** `decideShipStationPhysicalMatch`. */
  function DecideMatch(tracking: Option<string>, shipments: seq<Shipment>): Decision {
    var t := NormalTracking(tracking);
    if t.None? then InvalidCandidate(NoTracking)
    else
      var matches := Matching(shipments, t.value);
      var ids := Unique(PositiveIds(matches));
      if |matches| == 0 then NoMatch
      else if |matches| == 1 && |ids| != 1 then InvalidCandidate(NoShipmentId)
      else if |matches| != 1 || |ids| != 1 then Ambiguous(ids)
      else if ExternalFulfillmentId(ids[0]).None? then InvalidCandidate(NoShipmentId)
      else Match(matches[0], ExternalFulfillmentId(ids[0]).value)
  }

  /** Two tracking numbers are the same up to surrounding white space and case, and there is one. */
  ghost predicate SameTracking(a: Option<string>, b: Option<string>) {
    a.Some? && b.Some? && Trim(a.value) != "" && Upper(Trim(a.value)) == Upper(Trim(b.value))
  }

  ghost predicate Bears(r: Shipment, tracking: Option<string>) { SameTracking(tracking, r.tracking) }

  ghost predicate OnlyBears(s: seq<Shipment>, k: nat, tracking: Option<string>)
    requires k < |s|
  {
    Bears(s[k], tracking) && forall j :: 0 <= j < |s| && Bears(s[j], tracking) ==> j == k
  }

  lemma {:induction false} SameNormal(a: Option<string>, b: Option<string>)
    ensures SameTracking(a, b) <==> NormalTracking(a).Some? && NormalTracking(b) == NormalTracking(a)
  {
    if a.Some? && b.Some? {
      assert |Upper(Trim(a.value))| == |Trim(a.value)| && |Upper(Trim(b.value))| == |Trim(b.value)|;
    }
  }

  lemma {:induction false} MatchingAre(s: seq<Shipment>, tracking: Option<string>)
    requires NormalTracking(tracking).Some?
    ensures var found := Matching(s, NormalTracking(tracking).value);
      && (found == [] <==> forall k :: 0 <= k < |s| ==> !Bears(s[k], tracking))
      && (|found| == 1 <==> exists k :: 0 <= k < |s| && OnlyBears(s, k, tracking))
      && (forall k :: 0 <= k < |s| && OnlyBears(s, k, tracking) ==> found == [s[k]])
  {
    if s != [] {
      var rest := s[1..];
      var later := Matching(rest, NormalTracking(tracking).value);
      MatchingAre(rest, tracking);
      SameNormal(tracking, s[0].tracking);
      assert forall k :: 0 <= k < |rest| ==> rest[k] == s[k + 1];
      if k :| 0 <= k < |rest| && OnlyBears(rest, k, tracking) && !Bears(s[0], tracking) {
        assert OnlyBears(s, k + 1, tracking);
      }
      forall k | 0 <= k < |s| && OnlyBears(s, k, tracking)
        ensures Matching(s, NormalTracking(tracking).value) == [s[k]]
      {
        if k > 0 { assert OnlyBears(rest, k - 1, tracking); }
      }
      if later == [] && Bears(s[0], tracking) { assert OnlyBears(s, 0, tracking); }
    }
  }

  /** What is decided: a match if one record alone bears the tracking number and has a positive id; no
      match if none does; an invalid candidate without a tracking number, or if the one record has no
      such id; and otherwise ambiguous, between the ids of all that bear it. */
  lemma {:induction false} MatchExactly(tracking: Option<string>, shipments: seq<Shipment>)
    ensures var d := DecideMatch(tracking, shipments);
      && (d.Match? <==>
            exists k :: 0 <= k < |shipments| && OnlyBears(shipments, k, tracking) && HasId(shipments[k]))
      && (d.Match? ==>
            exists k :: 0 <= k < |shipments| && OnlyBears(shipments, k, tracking) && d.shipment == shipments[k])
      && (d == InvalidCandidate(NoTracking) <==> tracking.None? || Trim(tracking.value) == "")
      && (d == InvalidCandidate(NoShipmentId) <==>
            exists k :: 0 <= k < |shipments| && OnlyBears(shipments, k, tracking) && !HasId(shipments[k]))
      && (d.NoMatch? <==>
            && tracking.Some? && Trim(tracking.value) != ""
            && forall k :: 0 <= k < |shipments| ==> !Bears(shipments[k], tracking))
      && (d.Ambiguous? ==> NoRepeats(d.ids) && forall id ::
            id in d.ids <==> exists r :: r in shipments && Bears(r, tracking) && HasId(r) && r.id == Some(id))
  {
    if NormalTracking(tracking).Some? {
      var found := Matching(shipments, NormalTracking(tracking).value);
      MatchingAre(shipments, tracking);
      AmbiguousAmong(shipments, tracking);
      if |found| == 1 {
        assert found == [found[0]];
        OneRecord(found[0]);
      }
    }
  }

  lemma {:induction false} AmbiguousAmong(s: seq<Shipment>, tracking: Option<string>)
    requires NormalTracking(tracking).Some?
    ensures forall id :: id in PositiveIds(Matching(s, NormalTracking(tracking).value)) <==>
              exists r :: r in s && Bears(r, tracking) && HasId(r) && r.id == Some(id)
  {
    var found := Matching(s, NormalTracking(tracking).value);
    PositiveIdsMembers(found);
    MatchingMembers(s, NormalTracking(tracking).value);
    forall r: Shipment ensures r in found <==> r in s && Bears(r, tracking) { SameNormal(tracking, r.tracking); }
  }

  /** And the identity that will be persisted for it parses back to that id. */
  lemma {:induction false} MatchNamesItsShipment(tracking: Option<string>, shipments: seq<Shipment>)
    ensures var d := DecideMatch(tracking, shipments);
      d.Match? ==>
        && d.shipment in shipments && NormalTracking(d.shipment.tracking) == NormalTracking(tracking)
        && d.shipment.id.Some?
        && (IsSafe(d.shipment.id.value) ==> ParsePersistedId(Some(d.externalId)) == d.shipment.id)
  {
    var d := DecideMatch(tracking, shipments);
    if d.Match? {
      MatchExactly(tracking, shipments);
      MatchingMembers(shipments, NormalTracking(tracking).value);
      assert d.shipment in Matching(shipments, NormalTracking(tracking).value);
      assert Matching(shipments, NormalTracking(tracking).value) == [d.shipment];
      OneRecord(d.shipment);
      PrintedIdParses(d.shipment.id.value);
    }
  }

  lemma {:induction false} PrintedIdParses(id: int)
    requires id > 0
    ensures IsSafe(id) ==> ParsePersistedId(ExternalFulfillmentId(id)) == Some(id)
  {
    if IsSafe(id) {
      PrintThenParse(id, "", "");
      var s := ExternalFulfillmentId(id).value;
      assert "" + s + "" == s;
    }
  }

  lemma {:induction false} OneRecord(r: Shipment)
    ensures Unique(PositiveIds([r])) == if HasId(r) then [r.id.value] else []
  {
    assert [r][1..] == [];
    assert PositiveIds([r]) == if HasId(r) then [r.id.value] else [];
    if HasId(r) {
      assert [r.id.value][..0] == [];
    }
  }

  /** Equal up to the order in which ambiguous ids are listed. */
  ghost predicate SameDecision(d: Decision, e: Decision) {
    if d.Ambiguous? && e.Ambiguous? then forall id :: id in d.ids <==> id in e.ids else d == e
  }

  lemma {:induction false} MatchingMembers(s: seq<Shipment>, tracking: string)
    ensures forall r :: r in Matching(s, tracking) <==> r in s && NormalTracking(r.tracking) == Some(tracking)
  {
    if s != [] {
      MatchingMembers(s[1..], tracking);
      assert forall r :: r in s <==> r == s[0] || r in s[1..];
    }
  }

  lemma {:induction false} MatchingConcat(s: seq<Shipment>, t: seq<Shipment>, tracking: string)
    ensures Matching(s + t, tracking) == Matching(s, tracking) + Matching(t, tracking)
  {
    if s == [] {
      assert s + t == t;
    } else {
      var first := if NormalTracking(s[0].tracking) == Some(tracking) then [s[0]] else [];
      MatchingConcat(s[1..], t, tracking);
      assert (s + t)[1..] == s[1..] + t;
      assert Matching(s + t, tracking) == first + (Matching(s[1..], tracking) + Matching(t, tracking));
    }
  }

  lemma {:induction false} MatchingDistinct(s: seq<Shipment>, tracking: string)
    requires DistinctIds(s)
    ensures DistinctIds(Matching(s, tracking))
  {
    if s != [] {
      assert DistinctIds(s[1..]);
      MatchingDistinct(s[1..], tracking);
      MatchingMembers(s[1..], tracking);
      var rest := Matching(s[1..], tracking);
      forall j | 0 <= j < |rest| ensures HasId(rest[j]) && rest[j].id != s[0].id {
        assert rest[j] in rest && rest[j] in s[1..];
      }
    }
  }

  lemma {:induction false} PositiveIdsMembers(s: seq<Shipment>)
    ensures forall id :: id in PositiveIds(s) <==> id > 0 && exists r :: r in s && r.id == Some(id)
  {
    if s != [] {
      PositiveIdsMembers(s[1..]);
      assert forall r :: r in s <==> r == s[0] || r in s[1..];
    }
  }

  /** The decision rests on which records with an id match, and on whether none, one or more records
      without an id do. */
  ghost function Verdict(keyed: seq<Shipment>, noIds: nat): Decision
    requires DistinctIds(keyed)
  {
    if keyed == [] && noIds == 0 then NoMatch
    else if keyed == [] && noIds == 1 then InvalidCandidate(NoShipmentId)
    else if |keyed| == 1 && noIds == 0 then Match(keyed[0], ExternalFulfillmentId(keyed[0].id.value).value)
    else Ambiguous(PositiveIds(keyed))
  }

  lemma {:induction false} IdsWithoutRepeats(s: seq<Shipment>)
    requires DistinctIds(s)
    ensures |PositiveIds(s)| == |s| && forall i :: 0 <= i < |s| ==> PositiveIds(s)[i] == s[i].id.value
  {
    if s != [] {
      assert DistinctIds(s[1..]);
      IdsWithoutRepeats(s[1..]);
    }
  }

  lemma {:induction false} PositiveIdsConcat(s: seq<Shipment>, t: seq<Shipment>)
    requires forall r :: r in t ==> HasNoId(r)
    ensures PositiveIds(s + t) == PositiveIds(s)
  {
    if s == [] {
      assert s + t == t;
      if t != [] {
        assert t[0] in t;
        assert [] + t[1..] == t[1..];
        PositiveIdsConcat([], t[1..]);
      }
    } else {
      assert (s + t)[1..] == s[1..] + t;
      PositiveIdsConcat(s[1..], t);
    }
  }

  lemma {:induction false} MergedDecision(tracking: string, s: seq<Shipment>, given: Option<string>)
    requires NormalTracking(given) == Some(tracking)
    ensures DistinctIds(Matching(Keyed(s), tracking))
    ensures SameDecision(DecideMatch(given, Merged(s)),
                         Verdict(Matching(Keyed(s), tracking), |Matching(Filter(HasNoId, s), tracking)|))
  {
    var a, b := Matching(Keyed(s), tracking), Matching(Filter(HasNoId, s), tracking);
    KeyedFacts(s);
    MatchingDistinct(Keyed(s), tracking);
    MatchingConcat(Keyed(s), Filter(HasNoId, s), tracking);
    MatchingMembers(Filter(HasNoId, s), tracking);
    DecideOnParts(a, b);
  }

  lemma {:induction false} DecideOnParts(a: seq<Shipment>, b: seq<Shipment>)
    requires DistinctIds(a) && forall r :: r in b ==> HasNoId(r)
    ensures |Unique(PositiveIds(a + b))| == |a|
    ensures forall id :: id in Unique(PositiveIds(a + b)) <==> id in PositiveIds(a)
    ensures |a| == 1 ==> Unique(PositiveIds(a + b))[0] == a[0].id.value
  {
    var ids := PositiveIds(a);
    PositiveIdsConcat(a, b);
    IdsWithoutRepeats(a);
    SameElements(Unique(ids), ids);
    if |a| == 1 {
      assert ids[0] in ids && Unique(ids)[0] in Unique(ids);
    }
  }

  /** Equal positive ids carry equal records, in one lookup result and across the two. */
  ghost predicate Consistent(s: seq<Shipment>, t: seq<Shipment>) {
    forall q, r :: (q in s || q in t) && (r in s || r in t) && HasId(q) && q.id == r.id ==> q == r
  }

  /** The same records came back, in another order or another number of times. */
  ghost predicate SameRecords(s: seq<Shipment>, t: seq<Shipment>) { forall r :: r in s <==> r in t }

  lemma {:induction false} KeyedOfConsistent(s: seq<Shipment>, r: Shipment)
    requires Consistent(s, s)
    ensures r in Keyed(s) <==> r in s && HasId(r)
  {
    KeyedFacts(s);
    if r in s && HasId(r) {
      KeyedIds(s, r.id.value);
      var q :| q in Keyed(s) && q.id == r.id;
      assert IsLast(s, q) && q in s;
    }
  }

  lemma {:induction false} SameMatches(tracking: string, s: seq<Shipment>, t: seq<Shipment>)
    requires Consistent(s, t) && SameRecords(s, t)
    ensures var a, b := Matching(Keyed(s), tracking), Matching(Keyed(t), tracking);
      && DistinctIds(a) && DistinctIds(b) && |a| == |b| && forall r :: r in a <==> r in b
    ensures |Matching(Filter(HasNoId, s), tracking)| == 0 <==> |Matching(Filter(HasNoId, t), tracking)| == 0
  {
    var a, b := Matching(Keyed(s), tracking), Matching(Keyed(t), tracking);
    KeyedFacts(s);
    KeyedFacts(t);
    MatchingDistinct(Keyed(s), tracking);
    MatchingDistinct(Keyed(t), tracking);
    forall r ensures r in a <==> r in b {
      KeyedOfConsistent(s, r);
      KeyedOfConsistent(t, r);
      MatchingMembers(Keyed(s), tracking);
      MatchingMembers(Keyed(t), tracking);
    }
    SameElements(a, b);
    NoIdMatches(tracking, s, t);
    NoIdMatches(tracking, t, s);
  }

  lemma {:induction false} NoIdMatches(tracking: string, s: seq<Shipment>, t: seq<Shipment>)
    requires SameRecords(s, t)
    ensures Matching(Filter(HasNoId, s), tracking) != [] ==> Matching(Filter(HasNoId, t), tracking) != []
  {
    var a, b := Matching(Filter(HasNoId, s), tracking), Matching(Filter(HasNoId, t), tracking);
    MatchingMembers(Filter(HasNoId, s), tracking);
    MatchingMembers(Filter(HasNoId, t), tracking);
    if a != [] {
      assert a[0] in a && a[0] in b;
    }
  }

  /** How often the lookups returned a matching record that has no id. */
  function NoIdCount(s: seq<Shipment>, tracking: string): nat { |Matching(Filter(HasNoId, s), tracking)| }

  /** Reordering or repeating lookup results changes the decision on the merged list in exactly one
      case: nothing with an id matches, and a single record without one is repeated. */
  lemma {:induction false} DecisionIsStable(given: Option<string>, s: seq<Shipment>, t: seq<Shipment>)
    requires Consistent(s, t) && SameRecords(s, t)
    ensures SameDecision(DecideMatch(given, Merged(s)), DecideMatch(given, Merged(t))) <==>
              var tracking := NormalTracking(given);
              !(&& tracking.Some?
                && (forall r :: r in s && HasId(r) ==> NormalTracking(r.tracking) != tracking)
                && (NoIdCount(s, tracking.value) == 1) != (NoIdCount(t, tracking.value) == 1))
  {
    if NormalTracking(given).Some? {
      var tracking := NormalTracking(given).value;
      var a, b := Matching(Keyed(s), tracking), Matching(Keyed(t), tracking);
      MergedDecision(tracking, s, given);
      MergedDecision(tracking, t, given);
      SameMatches(tracking, s, t);
      VerdictsAgree(a, b, NoIdCount(s, tracking), NoIdCount(t, tracking));
      NoKeyedMatch(tracking, s);
    }
  }

  /** That case: one matching record without an id reads as invalid, the same record returned twice
      as ambiguous. */
  lemma {:induction false} RepeatedRecordIsAmbiguous(r: Shipment)
    requires HasNoId(r) && NormalTracking(r.tracking).Some?
    ensures Consistent([r], [r, r]) && SameRecords([r], [r, r])
    ensures DecideMatch(r.tracking, Merged([r])) == InvalidCandidate(NoShipmentId)
    ensures DecideMatch(r.tracking, Merged([r, r])).Ambiguous?
  {
    var tracking := NormalTracking(r.tracking).value;
    assert [r][1..] == [] && [r, r][1..] == [r];
    MergedDecision(tracking, [r], r.tracking);
    MergedDecision(tracking, [r, r], r.tracking);
    NoKeyedMatch(tracking, [r]);
    NoKeyedMatch(tracking, [r, r]);
    assert Filter(HasNoId, [r]) == [r] && Filter(HasNoId, [r, r]) == [r, r];
    assert Matching([r], tracking) == [r] && Matching([r, r], tracking) == [r, r];
  }

  lemma {:induction false} NoKeyedMatch(tracking: string, s: seq<Shipment>)
    requires Consistent(s, s)
    ensures Matching(Keyed(s), tracking) == [] <==>
              forall r :: r in s && HasId(r) ==> NormalTracking(r.tracking) != Some(tracking)
  {
    var a := Matching(Keyed(s), tracking);
    MatchingMembers(Keyed(s), tracking);
    forall r ensures r in Keyed(s) <==> r in s && HasId(r) {
      KeyedOfConsistent(s, r);
    }
    if a != [] { assert a[0] in a; }
  }

  lemma {:induction false} VerdictsAgree(a: seq<Shipment>, b: seq<Shipment>, m: nat, n: nat)
    requires DistinctIds(a) && DistinctIds(b) && |a| == |b| && forall r :: r in a <==> r in b
    requires m == 0 <==> n == 0
    ensures SameDecision(Verdict(a, m), Verdict(b, n)) <==> !(a == [] && (m == 1) != (n == 1))
  {
    PositiveIdsMembers(a);
    PositiveIdsMembers(b);
    if |a| == 1 {
      assert a[0] in b;
    }
  }

  function MatchesWithoutId(tracking: string): Shipment -> bool {
    r => HasNoId(r) && NormalTracking(r.tracking) == Some(tracking)
  }

  lemma {:induction false} NoIdCountIs(s: seq<Shipment>, tracking: string)
    ensures NoIdCount(s, tracking) == Count(MatchesWithoutId(tracking), s)
  {
    if s != [] {
      NoIdCountIs(s[1..], tracking);
      var rest := Filter(HasNoId, s[1..]);
      if HasNoId(s[0]) {
        assert Filter(HasNoId, s) == [s[0]] + rest;
        assert ([s[0]] + rest)[1..] == rest;
      } else {
        assert Filter(HasNoId, s) == rest;
      }
    }
  }

  /** Reordering alone never matters. */
  lemma {:induction false} OrderDoesNotMatter(given: Option<string>, s: seq<Shipment>, t: seq<Shipment>)
    requires Consistent(s, t) && multiset(s) == multiset(t)
    ensures SameDecision(DecideMatch(given, Merged(s)), DecideMatch(given, Merged(t)))
  {
    forall r ensures r in s <==> r in t {
      assert r in s <==> r in multiset(s);
      assert r in t <==> r in multiset(t);
    }
    if NormalTracking(given).Some? {
      var tracking := NormalTracking(given).value;
      NoIdCountIs(s, tracking);
      NoIdCountIs(t, tracking);
      CountPermuted(MatchesWithoutId(tracking), s, t);
    }
    DecisionIsStable(given, s, t);
  }
}
