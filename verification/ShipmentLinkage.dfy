/** Filling in provider-order identity: the decision, the guarded updates, and what they keep. */
module ShipmentLinkage {
  import opened Prelude
  import opened Text
  import opened Faults
  import opened ShipmentIdentity
  import opened ShipmentMatch

  const SHIPSTATION := "shipstation"
  const NOT_FOUND_REVIEW_REASON := "physical_identity_not_found_after_enrichment"

  /** The identity and review columns of an outbound shipment; `notes` stands for the rest. */
  datatype Row = Row(
    status: string, source: Option<string>, tracking: Option<string>, external: Option<string>,
    engine: Option<string>, orderRef: Option<string>, shipmentRef: Option<string>,
    orderId: Option<int>, orderKey: Option<string>,
    requiresReview: bool, reviewReason: Option<string>, notes: string)

  // ---------------------------------------------------------- the decision

  function NormalEngine(r: Row): Option<string> {
    var e := Normal(r.engine);
    if e.Some? then Some(Lower(e.value)) else None
  }

  /** Nothing there, or the same text up to white space around it. */
  predicate Agrees(was: Option<string>, value: string) { Normal(was).None? || Normal(was) == Some(value) }

  predicate Compatible(r: Row, l: Linkage) {
    && (NormalEngine(r).None? || NormalEngine(r) == Some(SHIPSTATION))
    && Agrees(r.orderRef, l.orderRef)
    && Agrees(r.shipmentRef, l.shipmentRef)
    && (r.orderId.None? || r.orderId == Some(l.orderId))
    && Agrees(r.orderKey, l.orderKey)
  }

  datatype Linkage = Linkage(engine: string, orderRef: string, shipmentRef: string, orderId: int, orderKey: string)

  datatype Refusal = NoPersistedId | NoOrderId | NoOrderKey | OrderKeyTooLong

  datatype Proposal = Proposed(linkage: Linkage) | Refused(reason: Refusal)

  /** `Unmatched` hands on a decision that is not a match. */
  datatype LinkageDecision =
    | Unmatched(decision: Decision)
    | Invalid(refusal: Refusal)
    | IdentityConflict
    | Linked(shipment: Shipment, externalId: string, linkage: Linkage)

  /** The provider order a matched shipment belongs to, if its fields can be persisted. */
  function ProviderOrder(s: Shipment): Proposal {
    var key := Normal(s.orderKey);
    if s.orderId.None? || !IsSafe(s.orderId.value) then Refused(NoOrderId)
    else if key.None? then Refused(NoOrderKey)
    else if |key.value| > 100 then Refused(OrderKeyTooLong)
    else Proposed(Linkage(SHIPSTATION, Decimal(s.orderId.value), key.value, s.orderId.value, key.value))
  }

  /** `decideShipStationProviderOrderLinkage`, branch by branch. */
  function DecideLinkage(r: Row, d: Decision): LinkageDecision {
    if !d.Match? then Unmatched(d)
    else
      var expected, order := ParsePersistedId(r.external), ProviderOrder(d.shipment);
      if expected.None? then Invalid(NoPersistedId)
      else if d.shipment.id.None? || !IsSafe(d.shipment.id.value) || d.shipment.id != expected then IdentityConflict
      else if order.Refused? then Invalid(order.reason)
      else if !Compatible(r, order.linkage) then IdentityConflict
      else Linked(d.shipment, d.externalId, order.linkage)
  }

  /** The row after the update. */
  function LinkedRow(r: Row, l: Linkage): Row {
    r.(engine := Some(l.engine), orderRef := Some(l.orderRef), shipmentRef := Some(l.shipmentRef),
       orderId := Some(l.orderId), orderKey := Some(l.orderKey))
  }

  /** `was` is blank, or the same as `value` up to surrounding white space. */
  ghost predicate Preserved(was: Option<string>, value: Option<string>) {
    was.None? || Trim(was.value) == [] || (value.Some? && Trim(was.value) == Trim(value.value))
  }

  /** Text that trimming leaves alone and that is not blank. */
  predicate Settled(s: string) { s != [] && Trimmed(s) }

  lemma {:induction false} NormalOfSettled(s: string)
    requires Settled(s)
    ensures Normal(Some(s)) == Some(s)
  {
    TrimFacts(s);
  }

  lemma {:induction false} NormalIsSettled(o: Option<string>)
    ensures Normal(o).Some? ==> Settled(Normal(o).value)
  {
    if o.Some? { TrimFacts(o.value); }
  }

  ghost predicate Proper(l: Linkage) {
    l.engine == SHIPSTATION && Settled(l.orderRef) && Settled(l.shipmentRef) && Settled(l.orderKey)
  }

  lemma {:induction false} EngineOfLinked(r: Row, l: Linkage)
    requires l.engine == SHIPSTATION
    ensures Settled(SHIPSTATION) && NormalEngine(LinkedRow(r, l)) == Some(SHIPSTATION)
  {
    NormalOfSettled(SHIPSTATION);
    assert Lower(SHIPSTATION) == SHIPSTATION;
  }

  /** What a linkage that was decided on looks like, and why it was. */
  lemma {:induction false} LinkageFacts(r: Row, d: Decision)
    ensures DecideLinkage(r, d).Linked? ==>
      var l := DecideLinkage(r, d).linkage;
      && Proper(l) && Compatible(r, l)
      && d.Match? && ParsePersistedId(r.external) == d.shipment.id && Some(l.orderId) == d.shipment.orderId
  {
    if DecideLinkage(r, d).Linked? { ProviderOrderIsProper(d.shipment); }
  }

  lemma {:induction false} ProviderOrderIsProper(s: Shipment)
    requires ProviderOrder(s).Proposed?
    ensures Proper(ProviderOrder(s).linkage) && s.orderId == Some(ProviderOrder(s).linkage.orderId)
  {
    NormalIsSettled(s.orderKey);
    DecimalIsSettled(s.orderId.value);
  }

  lemma {:induction false} DecimalIsSettled(n: nat)
    ensures Settled(Decimal(n))
  {
    var ref := Decimal(n);
    assert IsDigit(ref[0]) && IsDigit(ref[|ref| - 1]);
  }

  lemma {:induction false} AgreementPreserves(was: Option<string>, value: string)
    requires Agrees(was, value) && Settled(value)
    ensures Preserved(was, Some(value))
  {
    TrimFacts(value);
  }

  /** Blank, or the value up to white space around it. */
  ghost predicate Fits(was: Option<string>, value: string) {
    was.None? || Trim(was.value) == "" || Trim(was.value) == value
  }

  /** What can be persisted: a safe order id, and a key of at most 100 characters. The order id as text
      is the order reference; the key is the shipment reference too. */
  lemma {:induction false} ProposedExactly(s: Shipment)
    ensures ProviderOrder(s).Proposed? <==>
      && s.orderId.Some? && 1 <= s.orderId.value <= 0x1f_ffff_ffff_ffff
      && s.orderKey.Some? && 1 <= |Trim(s.orderKey.value)| <= 100
    ensures ProviderOrder(s).Proposed? ==>
      && s.orderId.Some? && s.orderId.value >= 0 && s.orderKey.Some?
      && var key := Trim(s.orderKey.value);
         ProviderOrder(s) == Proposed(Linkage("shipstation", Decimal(s.orderId.value), key, s.orderId.value, key))
    ensures ProviderOrder(s) == Refused(NoOrderId) <==>
      s.orderId.None? || !(1 <= s.orderId.value <= 0x1f_ffff_ffff_ffff)
    ensures ProviderOrder(s) == Refused(OrderKeyTooLong) ==> s.orderKey.Some? && |Trim(s.orderKey.value)| > 100
    ensures ProviderOrder(s) == Refused(NoOrderKey) ==> s.orderKey.None? || Trim(s.orderKey.value) == ""
    ensures ProviderOrder(s).Refused? ==> ProviderOrder(s).reason in {NoOrderId, NoOrderKey, OrderKeyTooLong}
  {
  }

  /** Nothing that the row already says is different. */
  ghost predicate NothingDiffers(r: Row, l: Linkage) {
    && (r.engine.None? || Trim(r.engine.value) == "" || Lower(Trim(r.engine.value)) == "shipstation")
    && Fits(r.orderRef, l.orderRef) && Fits(r.shipmentRef, l.shipmentRef) && Fits(r.orderKey, l.orderKey)
    && (r.orderId.None? || r.orderId.value == l.orderId)
  }

  lemma {:induction false} CompatibleExactly(r: Row, l: Linkage)
    ensures Compatible(r, l) <==> NothingDiffers(r, l)
  {
  }

  /** When a row is linked at all: its id names the matched shipment, whose order can be persisted, and
      nothing that the row already says is different. */
  lemma {:induction false} LinkedExactly(r: Row, d: Decision)
    ensures DecideLinkage(r, d).Linked? <==>
      && d.Match? && ParsePersistedId(r.external).Some? && d.shipment.id == ParsePersistedId(r.external)
      && ProviderOrder(d.shipment).Proposed? && NothingDiffers(r, ProviderOrder(d.shipment).linkage)
    ensures DecideLinkage(r, d).Linked? ==>
      DecideLinkage(r, d) == Linked(d.shipment, d.externalId, ProviderOrder(d.shipment).linkage)
    ensures !d.Match? ==> DecideLinkage(r, d) == Unmatched(d)
  {
    ParsedIsSafe(r.external);
    if d.Match? && ProviderOrder(d.shipment).Proposed? { CompatibleExactly(r, ProviderOrder(d.shipment).linkage); }
  }

  /** Why a row is not linked: no match; no id to go by; another shipment's id or another order's identity,
      which is a conflict; or an order that cannot be persisted. */
  lemma {:induction false} NotLinkedExactly(r: Row, d: Decision)
    requires d.Match?
    ensures var id, order, verdict := ParsePersistedId(r.external), ProviderOrder(d.shipment), DecideLinkage(r, d);
      && (verdict == Invalid(NoPersistedId) <==> id.None?)
      && (verdict.IdentityConflict? <==>
            && id.Some?
            && (d.shipment.id != id || (order.Proposed? && !NothingDiffers(r, order.linkage))))
      && (verdict.Invalid? && id.Some? ==> order.Refused? && verdict == Invalid(order.reason))
      && !verdict.Unmatched?
  {
    ParsedIsSafe(r.external);
    ProposedExactly(d.shipment);
    if ProviderOrder(d.shipment).Proposed? { CompatibleExactly(r, ProviderOrder(d.shipment).linkage); }
  }

  lemma {:induction false} ParsedIsSafe(value: Option<string>)
    ensures ParsePersistedId(value).Some? ==> IsSafe(ParsePersistedId(value).value)
  {
  }

  /** A linkage never replaces an identity that is there by a different one; the linked row names the
      shipment that was matched. */
  lemma {:induction false} LinkageNeverReplaces(r: Row, d: Decision)
    ensures DecideLinkage(r, d).Linked? ==>
      var r' := LinkedRow(r, DecideLinkage(r, d).linkage);
      && (NormalEngine(r).None? || NormalEngine(r) == NormalEngine(r'))
      && Preserved(r.orderRef, r'.orderRef)
      && Preserved(r.shipmentRef, r'.shipmentRef)
      && (r.orderId.None? || r.orderId == r'.orderId)
      && Preserved(r.orderKey, r'.orderKey)
      && d.Match? && ParsePersistedId(r'.external) == d.shipment.id && r'.orderId == d.shipment.orderId
  {
    LinkageFacts(r, d);
    if DecideLinkage(r, d).Linked? { ProperPreserves(r, DecideLinkage(r, d).linkage); }
  }

  lemma {:induction false} ProperPreserves(r: Row, l: Linkage)
    requires Proper(l) && Compatible(r, l)
    ensures NormalEngine(r).None? || NormalEngine(r) == NormalEngine(LinkedRow(r, l))
    ensures Preserved(r.orderRef, Some(l.orderRef)) && Preserved(r.shipmentRef, Some(l.shipmentRef))
    ensures Preserved(r.orderKey, Some(l.orderKey))
  {
    EngineOfLinked(r, l);
    AgreementPreserves(r.orderRef, l.orderRef);
    AgreementPreserves(r.shipmentRef, l.shipmentRef);
    AgreementPreserves(r.orderKey, l.orderKey);
  }

  // ---------------------------------------------------------- the candidate query

  /** `NULLIF(BTRIM(COALESCE(x, '')), '') IS NULL`: SQL trims blanks only. */
  predicate SqlBlank(o: Option<string>) { o.None? || forall i :: 0 <= i < |o.value| ==> o.value[i] == ' ' }

  predicate IsLinkageCandidate(r: Row) {
    && r.status == "shipped"
    && !SqlBlank(r.tracking)
    && r.external.Some? && IsForm(r.external.value)
    && (SqlBlank(r.engine) || SqlBlank(r.orderRef) || SqlBlank(r.shipmentRef) || r.orderId.None?
        || SqlBlank(r.orderKey))
  }

  /** The decision on a row reads only the shipment it names, and what it is compared with. */
  lemma {:induction false} SameLinkage(r: Row, r': Row, d: Decision)
    requires ParsePersistedId(r'.external) == ParsePersistedId(r.external)
    ensures DecideLinkage(r, d).Linked? && Compatible(r', DecideLinkage(r, d).linkage) ==>
              DecideLinkage(r', d) == DecideLinkage(r, d)
  {
    if d.Match? {
      var order := ProviderOrder(d.shipment);
      assert order.Proposed? && DecideLinkage(r, d).Linked? ==> DecideLinkage(r, d).linkage == order.linkage;
    }
  }

  lemma {:induction false} LinkedIsComplete(r: Row, l: Linkage)
    requires Proper(l)
    ensures Compatible(LinkedRow(r, l), l) && !IsLinkageCandidate(LinkedRow(r, l))
  {
    EngineOfLinked(r, l);
    NormalOfSettled(l.orderRef);
    NormalOfSettled(l.shipmentRef);
    NormalOfSettled(l.orderKey);
    assert SHIPSTATION[0] != ' ' && l.orderRef[0] != ' ' && l.shipmentRef[0] != ' ' && l.orderKey[0] != ' ';
  }

  /** A linked row is no candidate any more, and deciding on it again gives the same linkage. */
  lemma {:induction false} LinkageIsFinal(r: Row, d: Decision)
    ensures DecideLinkage(r, d).Linked? ==>
      var r' := LinkedRow(r, DecideLinkage(r, d).linkage);
      !IsLinkageCandidate(r') && DecideLinkage(r', d) == DecideLinkage(r, d)
  {
    LinkageFacts(r, d);
    if DecideLinkage(r, d).Linked? {
      var l := DecideLinkage(r, d).linkage;
      LinkedIsComplete(r, l);
      SameLinkage(r, LinkedRow(r, l), d);
    }
  }

  // ---------------------------------------------------------- what the query misses

  function TextFields(r: Row): seq<Option<string>> { [r.engine, r.orderRef, r.shipmentRef, r.orderKey] }

  /** The decision would fill in a field of the row. */
  ghost predicate HasGap(r: Row) {
    r.orderId.None? || exists o :: o in TextFields(r) && Normal(o).None?
  }

  /** Only characters that trimming removes, but not only blanks. */
  ghost predicate HoldsOtherSpace(o: Option<string>) {
    && o.Some? && (forall i :: 0 <= i < |o.value| ==> IsSpace(o.value[i]))
    && exists i :: 0 <= i < |o.value| && o.value[i] != ' '
  }

  /** White space at an end of the external id: the decision trims it, the patterns of the query do
      not. Or every gap holds white space other than blanks, which the query takes for a value. */
  ghost predicate IsHidden(r: Row) {
    || (r.external.Some? && !Trimmed(r.external.value))
    || (r.orderId.Some? && forall o :: o in TextFields(r) && Normal(o).None? ==> HoldsOtherSpace(o))
  }

  lemma {:induction false} SqlBlankExactly(o: Option<string>)
    ensures SqlBlank(o) <==> Normal(o).None? && !HoldsOtherSpace(o)
  {
    if o.Some? { TrimFacts(o.value); }
  }

  predicate IsForm(s: string) { IsShipmentForm(s) || IsCombinedForm(s) || IsPhysicalForm(s) }

  lemma {:induction false} EndsInDigits(s: string, head: string, digits: string)
    requires s == head + digits && AllDigits(digits) && head != [] && !IsSpace(head[0])
    ensures Settled(s)
  {
    assert s[|s| - 1] == digits[|digits| - 1] && IsDigit(digits[|digits| - 1]);
  }

  lemma {:induction false} PersistedIsTrimmed(s: string, digits: string)
    requires Persisted(s, digits)
    ensures Settled(s)
  {
    if s == SHIPMENT + digits {
      EndsInDigits(s, SHIPMENT, digits);
    } else if s == PHYSICAL + digits {
      EndsInDigits(s, PHYSICAL, digits);
    } else {
      var order :| AllDigits(order) && s == COMBINED + digits + ORDER + order;
      CombinedIsTrimmed(s, digits + ORDER, order);
    }
  }

  lemma {:induction false} CombinedIsTrimmed(s: string, middle: string, order: string)
    requires s == COMBINED + middle + order && AllDigits(order)
    ensures Settled(s)
  {
    EndsInDigits(s, COMBINED + middle, order);
  }

  lemma {:induction false} FormIsTrimmed(s: string)
    requires IsForm(s)
    ensures Settled(s)
  {
    FormIsPersisted(s);
    PersistedIsTrimmed(s, LeadingId(s));
  }

  /** Every candidate is shipped, tracked and has a gap. Of the shipped rows with a gap that the decision
      would link, the query misses exactly the hidden ones. */
  lemma {:induction false} QueryMissesExactly(r: Row, d: Decision)
    ensures IsLinkageCandidate(r) ==>
      && HasGap(r) && r.status == "shipped"
      && r.tracking.Some? && exists i :: 0 <= i < |r.tracking.value| && r.tracking.value[i] != ' '
    ensures DecideLinkage(r, d).Linked? && r.status == "shipped" && !SqlBlank(r.tracking) && HasGap(r) ==>
      (!IsLinkageCandidate(r) <==> IsHidden(r))
  {
    if r.external.Some? {
      TrimFacts(r.external.value);
      if IsForm(r.external.value) { FormIsTrimmed(r.external.value); }
    }
    SqlBlankExactly(r.engine);
    SqlBlankExactly(r.orderRef);
    SqlBlankExactly(r.shipmentRef);
    SqlBlankExactly(r.orderKey);
    var fields := TextFields(r);
    assert r.engine == fields[0] && r.orderRef == fields[1] && r.shipmentRef == fields[2] && r.orderKey == fields[3];
  }

  /** One case: a tab in a field of an otherwise linked row. */
  lemma {:induction false} TabHidesRow(r: Row, d: Decision)
    ensures DecideLinkage(r, d).Linked? ==>
      var r' := LinkedRow(r, DecideLinkage(r, d).linkage).(engine := Some("\t"));
      !IsLinkageCandidate(r') && DecideLinkage(r', d) == DecideLinkage(r, d) && HasGap(r')
  {
    LinkageFacts(r, d);
    if DecideLinkage(r, d).Linked? {
      var l := DecideLinkage(r, d).linkage;
      var r' := LinkedRow(r, l).(engine := Some("\t"));
      LinkedIsComplete(r, l);
      TrimFacts("\t");
      assert "\t"[0] != ' ';
      assert TextFields(r')[0] == Some("\t");
      SameLinkage(r, r', d);
    }
  }

  lemma {:induction false} BlankFirst(s: string)
    requires s != [] && s[0] == ' '
    ensures !IsForm(s)
  {
    if IsForm(s) { FormIsTrimmed(s); }
  }

  /** The row with an external id and no identity of its order. */
  function Bare(r: Row, external: string): Row {
    r.(external := Some(external), engine := None, orderRef := None, shipmentRef := None, orderId := None,
       orderKey := None)
  }

  lemma {:induction false} BareIsLinked(r: Row, d: Decision, external: string)
    requires r.external.Some? && Trim(external) == Trim(r.external.value)
    ensures DecideLinkage(r, d).Linked? ==> DecideLinkage(Bare(r, external), d) == DecideLinkage(r, d)
  {
    assert Normal(Some(external)) == Normal(r.external);
    assert ParsePersistedId(Some(external)) == ParsePersistedId(r.external);
    SameLinkage(r, Bare(r, external), d);
  }

  lemma {:induction false} TrimAfterBlank(s: string)
    requires Trim(s) != []
    ensures Trim(" " + Trim(s)) == Trim(s)
  {
    TrimFacts(s);
    TrimPadded(" ", Trim(s), []);
    assert " " + Trim(s) + [] == " " + Trim(s);
  }

  /** The other case: a blank before the external id, whatever else is missing. */
  lemma {:induction false} LeadingBlankHidesRow(r: Row, d: Decision, external: string)
    requires r.external.Some? && external == " " + Trim(r.external.value)
    ensures HasGap(Bare(r, external)) && !IsLinkageCandidate(Bare(r, external))
    ensures DecideLinkage(r, d).Linked? ==> DecideLinkage(Bare(r, external), d) == DecideLinkage(r, d)
  {
    BlankFirst(external);
    if DecideLinkage(r, d).Linked? {
      assert Normal(r.external).Some?;
      TrimAfterBlank(r.external.value);
      BareIsLinked(r, d, external);
    }
  }

  // ---------------------------------------------------------- the guarded updates

  datatype Audit = Audit(id: int, before: Row, after: Row)

  datatype Outcome = Updated | Skipped | Taken | Failed

  /** No two shipments share an external fulfillment id: the unique index. */
  ghost predicate UniqueExternal(rows: map<int, Row>) {
    forall i, j :: i in rows && j in rows && i != j && rows[i].external.Some? ==> rows[i].external != rows[j].external
  }

  /** The statuses and sources that the unique indexes on provider-order identity cover. */
  ghost predicate IsActive(r: Row) {
    && r.status in ["planned", "queued", "labeled", "on_hold"]
    && (r.source.None?
        || r.source.value !in ["echelon_combined_child", "shipstation_combined_child", "shipstation_split"])
  }

  /** Two rows with the same order id, order key, or engine and order reference. */
  ghost predicate SameOrderIdentity(r: Row, t: Row) {
    || (r.orderId.Some? && r.orderId == t.orderId)
    || (!SqlBlank(r.orderKey) && r.orderKey == t.orderKey)
    || (!SqlBlank(r.engine) && !SqlBlank(r.orderRef) && r.engine == t.engine && r.orderRef == t.orderRef)
  }

  /** No two active shipments share one: the three partial unique indexes. */
  ghost predicate UniqueOrderIdentity(rows: map<int, Row>) {
    forall i, j :: i in rows && j in rows && i != j && IsActive(rows[i]) && IsActive(rows[j])
      ==> !SameOrderIdentity(rows[i], rows[j])
  }

  /** Only shipped rows are linked, and the indexes leave those alone: they never refuse a linkage,
      not even one to an order that another shipment is linked to. */
  lemma {:induction false} LinkageIsNeverRefused(rows: map<int, Row>, id: int, l: Linkage)
    requires UniqueOrderIdentity(rows) && UniqueExternal(rows)
    requires id in rows && rows[id].status == "shipped"
    ensures UniqueOrderIdentity(rows[id := LinkedRow(rows[id], l)])
    ensures UniqueExternal(rows[id := LinkedRow(rows[id], l)])
  {
    var after := rows[id := LinkedRow(rows[id], l)];
    assert !IsActive(after[id]);
    forall i, j | i in after && j in after && i != j && IsActive(after[i]) && IsActive(after[j])
      ensures !SameOrderIdentity(after[i], after[j])
    {
      assert after[i] == rows[i] && after[j] == rows[j];
    }
    forall i, j | i in after && j in after && i != j && after[i].external.Some?
      ensures after[i].external != after[j].external
    {
      assert after[i].external == rows[i].external && after[j].external == rows[j].external;
    }
  }

  predicate OwnedByOther(rows: map<int, Row>, id: int, external: string) {
    exists i :: i in rows && i != id && rows[i].external == Some(external)
  }

  /** Every column the decision looked at is as it was read. */
  predicate Unchanged(r: Row, read: Row) {
    && r.tracking == read.tracking && r.external == read.external && r.engine == read.engine
    && r.orderRef == read.orderRef && r.shipmentRef == read.shipmentRef
    && r.orderId == read.orderId && r.orderKey == read.orderKey
  }

  /** The row after its id is filled in; a review for a missing id is over. */
  function WithExternalId(r: Row, external: string): Row {
    var found := r.(external := Some(external));
    if r.reviewReason == Some(NOT_FOUND_REVIEW_REASON) then found.(requiresReview := false, reviewReason := None)
    else found
  }

  class Shipments {
    const client: Client
    var rows: map<int, Row>
    var audit: seq<Audit>

    constructor (r: map<int, Row>, a: seq<Audit>, c: Client)
      ensures rows == r && audit == a && client == c
    {
      rows, audit, client := r, a, c;
    }

    /** The linkage of one shipment in one transaction. `read` is the candidate row as selected,
        `rivals` what others have done to the table since. Either the row still holds what was
        decided on, and it is linked and audited; or nothing happens. The unique indexes have no
        part in it. */
    method ApplyLinkage(id: int, read: Row, l: Linkage, rivals: map<int, Row>)
      returns (outcome: Outcome, ghost committed: bool)
      requires UniqueOrderIdentity(rows) && UniqueExternal(rows)
      requires UniqueOrderIdentity(rivals) && UniqueExternal(rivals)
      modifies this, client
      ensures UniqueOrderIdentity(rows) && UniqueExternal(rows)
      ensures committed ==>
        && id in rivals && rivals[id].status == "shipped" && Unchanged(rivals[id], read)
        && -0x8000_0000 <= l.orderId <= 0x7fff_ffff
        && rows == rivals[id := LinkedRow(rivals[id], l)]
        && audit == old(audit) + [Audit(id, read, LinkedRow(rivals[id], l))]
      ensures !committed ==> (rows == rivals || rows == old(rows)) && audit == old(audit)
      ensures outcome == Updated ==> committed
      ensures outcome == Skipped ==> id !in rivals || rivals[id].status != "shipped" || !Unchanged(rivals[id], read)
      ensures outcome != Taken
      ensures outcome == Failed ==> client.callsLeft == 0 || !(-0x8000_0000 <= l.orderId <= 0x7fff_ffff)
      ensures outcome == Updated ==> client.callsLeft == old(client.callsLeft) - 4
      ensures outcome == Skipped ==> client.callsLeft == old(client.callsLeft) - 3
    {
      committed := false;
      var ok, lands := client.Call();            // BEGIN
      if !ok { return Failed, false; }
      rows := rivals;
      ok, lands := client.Call();                // UPDATE ... RETURNING
      if !ok || l.orderId < -0x8000_0000 || l.orderId > 0x7fff_ffff { return Failed, false; }
      if id !in rows || rows[id].status != "shipped" || !Unchanged(rows[id], read) {
        ok, lands := client.Call();              // COMMIT of nothing
        return if ok then Skipped else Failed, false;
      }
      LinkageIsNeverRefused(rows, id, l);
      var after := LinkedRow(rows[id], l);
      ok, lands := client.Call();                // audit INSERT
      if !ok { return Failed, false; }
      ok, lands := client.Call();                // COMMIT
      if lands {
        rows, audit := rows[id := after], audit + [Audit(id, read, after)];
        committed := true;
      }
      outcome := if ok then Updated else Failed;
    }

    /** The physical-id scope: check for an owner, then a guarded update. Others may take the id in
        between; the unique index then refuses the update. */
    method ApplyExternalId(id: int, read: Row, external: string, rivals: map<int, Row>)
      returns (outcome: Outcome, ghost committed: bool)
      requires UniqueExternal(rows) && UniqueExternal(rivals)
      modifies this, client
      ensures UniqueExternal(rows) && audit == old(audit)
      ensures committed ==>
        && id in rivals && rivals[id].status == "shipped" && SqlBlank(rivals[id].external)
        && rivals[id].orderId == read.orderId && rivals[id].tracking.Some? && rivals[id].tracking == read.tracking
        && (forall i :: i in rivals && i != id ==> rivals[i].external != Some(external))
        && id in rows && rows == rivals[id := rows[id]]
        && rows[id].(requiresReview := rivals[id].requiresReview, reviewReason := rivals[id].reviewReason)
             == rivals[id].(external := Some(external))
        && (rivals[id].reviewReason == Some(NOT_FOUND_REVIEW_REASON) ==>
              !rows[id].requiresReview && rows[id].reviewReason == None)
        && (rivals[id].reviewReason != Some(NOT_FOUND_REVIEW_REASON) ==>
              && rows[id].requiresReview == rivals[id].requiresReview
              && rows[id].reviewReason == rivals[id].reviewReason)
      ensures !committed ==> rows == rivals || rows == old(rows)
      ensures outcome == Updated ==> committed
      ensures outcome == Taken ==>
        || (exists i :: i in old(rows) && i != id && old(rows)[i].external == Some(external))
        || (exists i :: i in rivals && i != id && rivals[i].external == Some(external))
      ensures outcome == Failed ==> client.callsLeft == 0
      ensures outcome in {Updated, Skipped} ==> client.callsLeft == old(client.callsLeft) - 4
      ensures outcome == Taken ==> client.callsLeft == old(client.callsLeft) - 3
    {
      committed := false;
      var ok, lands := client.Call();            // BEGIN
      if !ok { return Failed, false; }
      ok, lands := client.Call();                // SELECT ... LIMIT 1
      if !ok { return Failed, false; }
      if OwnedByOther(rows, id, external) {
        ok, lands := client.Call();              // COMMIT of nothing
        return if ok then Taken else Failed, false;
      }
      rows := rivals;
      ok, lands := client.Call();                // UPDATE ... RETURNING
      if !ok { return Failed, false; }
      if id !in rows || rows[id].status != "shipped" || !SqlBlank(rows[id].external)
         || rows[id].orderId != read.orderId || rows[id].tracking.None? || rows[id].tracking != read.tracking {
        ok, lands := client.Call();              // COMMIT of nothing
        return if ok then Skipped else Failed, false;
      }
      if OwnedByOther(rows, id, external) { return Taken, false; }
      ok, lands := client.Call();                // COMMIT
      if lands {
        rows := rows[id := WithExternalId(rows[id], external)];
        committed := true;
      }
      outcome := if ok then Updated else Failed;
    }
  }

  /** What others may do to a row without getting in the way: its status, source, review and notes. */
  lemma {:induction false} UnchangedExactly(r: Row, read: Row)
    ensures Unchanged(r, read) <==>
      r == read.(status := r.status, source := r.source, requiresReview := r.requiresReview,
                 reviewReason := r.reviewReason, notes := r.notes)
  {
  }

  lemma {:induction false} UnchangedDecision(read: Row, now: Row, d: Decision)
    requires Unchanged(now, read)
    ensures DecideLinkage(now, d) == DecideLinkage(read, d)
  {
    if d.Match? {
      var order := ProviderOrder(d.shipment);
      assert order.Proposed? ==> Compatible(now, order.linkage) == Compatible(read, order.linkage);
    }
  }

  /** What a linkage writes, when it was decided on the row as read and the row has not changed
      since: no identity is replaced, no candidate left, the same decision is taken again. */
  lemma {:induction false} AppliedLinkage(read: Row, now: Row, d: Decision)
    requires Unchanged(now, read)
    ensures DecideLinkage(now, d) == DecideLinkage(read, d)
    ensures DecideLinkage(read, d).Linked? ==>
      var after := LinkedRow(now, DecideLinkage(read, d).linkage);
      && DecideLinkage(after, d) == DecideLinkage(read, d) && !IsLinkageCandidate(after)
      && Preserved(now.orderRef, after.orderRef) && Preserved(now.shipmentRef, after.shipmentRef)
      && Preserved(now.orderKey, after.orderKey) && (now.orderId.None? || now.orderId == after.orderId)
      && (NormalEngine(now).None? || NormalEngine(now) == NormalEngine(after))
  {
    UnchangedDecision(read, now, d);
    if DecideLinkage(read, d).Linked? {
      LinkageNeverReplaces(now, d);
      LinkageIsFinal(now, d);
    }
  }
}
