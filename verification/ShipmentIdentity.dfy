/** Printing and parsing shipment identities, merging lookup results, deciding on a match. */
module ShipmentIdentity {
  import opened Prelude
  import opened Text

  const MAX_SAFE_INTEGER := 0x1f_ffff_ffff_ffff

  predicate IsSafe(n: int) { 1 <= n <= MAX_SAFE_INTEGER }

  /** `normalizeOptionalString`: blank reads as missing. */
  function Normal(o: Option<string>): Option<string> {
    if o.Some? && Trim(o.value) != [] then Some(Trim(o.value)) else None
  }

  // ---------------------------------------------------------- the persisted identity

  const SHIPMENT := "shipstation_shipment:"
  const COMBINED := "shipstation_combined:"
  const PHYSICAL := "provider_physical:v1:shipstation:"
  const ORDER := ":order:"

  function ExternalFulfillmentId(id: int): Option<string> {
    if id <= 0 then None else Some(SHIPMENT + Decimal(id))
  }

  predicate Digits(s: string) { s != [] && LeadingDigits(s) == |s| }

  /** The digits right after the prefix that `s` starts with. */
  function LeadingId(s: string): string {
    var rest :=
      if SHIPMENT <= s then s[|SHIPMENT|..]
      else if COMBINED <= s then s[|COMBINED|..]
      else if PHYSICAL <= s then s[|PHYSICAL|..] else [];
    rest[..LeadingDigits(rest)]
  }

  /** The three anchored patterns. */
  predicate IsShipmentForm(s: string) { SHIPMENT <= s && Digits(s[|SHIPMENT|..]) }

  predicate IsPhysicalForm(s: string) { PHYSICAL <= s && Digits(s[|PHYSICAL|..]) }

  predicate IsCombinedForm(s: string) {
    && COMBINED <= s
    && var rest := s[|COMBINED|..];
       var n := LeadingDigits(rest);
       n > 0 && ORDER <= rest[n..] && Digits(rest[n + |ORDER|..])
  }

  function ParsePersistedId(value: Option<string>): Option<int> {
    var s := Normal(value);
    if s.None? || LeadingId(s.value) == [] then None
    else if !IsShipmentForm(s.value) && !IsCombinedForm(s.value) && !IsPhysicalForm(s.value) then None
    else
      var id := Value(LeadingId(s.value));
      if IsSafe(id) then Some(id) else None
  }

  predicate AllDigits(s: string) { s != [] && forall i :: 0 <= i < |s| ==> IsDigit(s[i]) }

  /** The grammar: `digits` is the shipment id of `s`. */
  ghost predicate Persisted(s: string, digits: string) {
    && AllDigits(digits)
    && (|| s == SHIPMENT + digits
        || s == PHYSICAL + digits
        || exists order :: AllDigits(order) && s == COMBINED + digits + ORDER + order)
  }

  lemma {:induction false} LeadingDigitsOf(digits: string, rest: string)
    requires forall i :: 0 <= i < |digits| ==> IsDigit(digits[i])
    requires rest == [] || !IsDigit(rest[0])
    ensures LeadingDigits(digits + rest) == |digits|
  {
    var all := digits + rest;
    assert forall i :: 0 <= i < |digits| ==> all[i] == digits[i];
    assert rest != [] ==> all[|digits|] == rest[0];
  }

  lemma {:induction false} DigitsIff(s: string)
    ensures Digits(s) <==> AllDigits(s)
  {
    if AllDigits(s) {
      LeadingDigitsOf(s, []);
      assert s + [] == s;
    }
  }

  lemma {:induction false} LeadingIdOf(s: string, digits: string)
    requires Persisted(s, digits)
    ensures LeadingId(s) == digits
    ensures IsShipmentForm(s) || IsCombinedForm(s) || IsPhysicalForm(s)
  {
    DigitsIff(digits);
    if s == SHIPMENT + digits {
      assert s[|SHIPMENT|..] == digits;
    } else if s == PHYSICAL + digits {
      assert s[|PHYSICAL|..] == digits && s[0] == 'p';
    } else {
      var order :| AllDigits(order) && s == COMBINED + digits + ORDER + order;
      CombinedId(s, digits, order);
    }
  }

  lemma {:induction false} CombinedId(s: string, digits: string, order: string)
    requires AllDigits(digits) && AllDigits(order) && s == COMBINED + digits + ORDER + order
    ensures LeadingId(s) == digits && IsCombinedForm(s)
  {
    var rest := s[|COMBINED|..];
    assert rest == digits + (ORDER + order);
    LeadingDigitsOf(digits, ORDER + order);
    assert rest[|digits|..] == ORDER + order && rest[|digits| + |ORDER|..] == order;
    DigitsIff(order);
    assert s[|SHIPMENT| - 1] == COMBINED[|SHIPMENT| - 1] && s[12] == COMBINED[12] == 'c' && SHIPMENT[12] == 's';
  }

  lemma {:induction false} FormIsPersisted(s: string)
    requires IsShipmentForm(s) || IsCombinedForm(s) || IsPhysicalForm(s)
    ensures Persisted(s, LeadingId(s))
  {
    if IsShipmentForm(s) {
      DigitsIff(s[|SHIPMENT|..]);
      assert s == SHIPMENT + s[|SHIPMENT|..];
      LeadingIdOf(s, s[|SHIPMENT|..]);
    } else if IsPhysicalForm(s) {
      DigitsIff(s[|PHYSICAL|..]);
      assert s == PHYSICAL + s[|PHYSICAL|..];
      LeadingIdOf(s, s[|PHYSICAL|..]);
    } else {
      var rest := s[|COMBINED|..];
      var n := LeadingDigits(rest);
      var order := rest[n + |ORDER|..];
      DigitsIff(order);
      assert rest == rest[..n] + rest[n..] && rest[n..] == ORDER + order;
      assert s == COMBINED + rest[..n] + ORDER + order;
      LeadingIdOf(s, rest[..n]);
    }
  }

  /** The parser accepts exactly the three grammars, around any white space, with an id that a
      double represents exactly; leading zeros do not matter. */
  lemma {:induction false} ParsesExactly(value: Option<string>, id: int)
    ensures ParsePersistedId(value) == Some(id) <==>
              && value.Some? && IsSafe(id)
              && exists digits :: Persisted(Trim(value.value), digits) && Value(digits) == id
  {
    if value.Some? {
      var s := Trim(value.value);
      if ParsePersistedId(value) == Some(id) {
        FormIsPersisted(s);
      }
      if IsSafe(id) && exists digits :: Persisted(s, digits) && Value(digits) == id {
        var digits :| Persisted(s, digits) && Value(digits) == id;
        LeadingIdOf(s, digits);
      }
    }
  }

  /** Parsing what was printed, with white space added or not, gives the id back. */
  lemma {:induction false} PrintThenParse(id: int, before: string, after: string)
    requires IsSafe(id)
    requires forall i :: 0 <= i < |before| ==> IsSpace(before[i])
    requires forall i :: 0 <= i < |after| ==> IsSpace(after[i])
    ensures ExternalFulfillmentId(id).Some?
    ensures ParsePersistedId(Some(before + ExternalFulfillmentId(id).value + after)) == Some(id)
  {
    var s := ExternalFulfillmentId(id).value;
    assert !IsSpace(s[0]) && IsDigit(s[|s| - 1]);
    TrimPadded(before, s, after);
    ValueOfDecimal(id);
    assert Persisted(s, Decimal(id));
    ParsesExactly(Some(before + s + after), id);
  }

  lemma {:induction false} TrimPadded(before: string, s: string, after: string)
    requires Trimmed(s) && s != []
    requires forall i :: 0 <= i < |before| ==> IsSpace(before[i])
    requires forall i :: 0 <= i < |after| ==> IsSpace(after[i])
    ensures Trim(before + s + after) == s
  {
    PaddedStart(before, s + after);
    assert before + s + after == before + (s + after);
    PaddedEnd(s, after);
  }

  lemma {:induction false} PaddedStart(before: string, s: string)
    requires s != [] && !IsSpace(s[0])
    requires forall i :: 0 <= i < |before| ==> IsSpace(before[i])
    ensures TrimStart(before + s) == s
  {
    if before == [] {
      assert before + s == s;
    } else {
      assert (before + s)[1..] == before[1..] + s;
      PaddedStart(before[1..], s);
    }
  }

  lemma {:induction false} PaddedEnd(s: string, after: string)
    requires s != [] && !IsSpace(s[|s| - 1])
    requires forall i :: 0 <= i < |after| ==> IsSpace(after[i])
    ensures TrimEnd(s + after) == s
  {
    if after == [] {
      assert s + after == s;
    } else {
      assert (s + after)[..|s + after| - 1] == s + after[..|after| - 1];
      PaddedEnd(s, after[..|after| - 1]);
    }
  }
}
