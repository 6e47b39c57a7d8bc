/** Linking WMS orders to OMS orders, page by page, over the table the run is changing. */
module OmsLinkBackfill {
  import opened Prelude
  import opened Text

  // ---------------------------------------------------------- rows

  /** `link` is `oms_fulfillment_order_id`. */
  datatype WmsRow = WmsRow(id: int, orderNumber: Option<string>, link: Option<string>, channel: Option<int>)

  datatype OmsRow = OmsRow(id: nat, externalId: Option<string>, externalNumber: Option<string>, channel: Option<int>)

  /** The table in primary-key order; ids are positive. */
  ghost predicate Keyed(t: seq<WmsRow>) {
    && (forall i :: 0 <= i < |t| ==> t[i].id > 0)
    && (forall i, j :: 0 <= i < j < |t| ==> t[i].id < t[j].id)
  }

  const GID_PREFIX := "gid://shopify/Order/"

  /** The anchored pattern: the prefix, then one or more digits and nothing else. */
  predicate IsShopifyOrderGid(s: string) {
    GID_PREFIX <= s && |s| > |GID_PREFIX| && LeadingDigits(s[|GID_PREFIX|..]) == |s| - |GID_PREFIX|
  }

  // ---------------------------------------------------------- the two paths

  datatype Path = A | B

  /** The `WHERE` clause of the page query. */
  predicate IsCandidate(p: Path, r: WmsRow) {
    match p
    case A => r.link.Some? && GID_PREFIX <= r.link.value
    case B => r.link.None? && r.orderNumber.Some? && r.channel.Some?
  }

  predicate SameOrder(p: Path, r: WmsRow, o: OmsRow) {
    match p
    case A => o.externalId.Some? && o.externalId == r.link
    case B => o.externalNumber.Some? && o.channel.Some? && o.externalNumber == r.orderNumber && o.channel == r.channel
  }

  predicate Skips(p: Path, r: WmsRow) {
    match p
    case A => r.link.None? || !IsShopifyOrderGid(r.link.value)
    case B => r.channel.None?
  }

  function OmsMatches(p: Path, r: WmsRow, oms: seq<OmsRow>): seq<OmsRow> {
    if oms == [] then [] else (if SameOrder(p, r, oms[0]) then [oms[0]] else []) + OmsMatches(p, r, oms[1..])
  }

  datatype Verdict = Skipped | LookupError | Orphan | Ambiguous | Match(omsId: nat)

  /** What one run is up against: the OMS table, and the WMS ids whose lookup fails. */
  datatype Setting = Setting(path: Path, oms: seq<OmsRow>, failing: set<int>)

  function Decide(r: WmsRow, s: Setting): Verdict {
    var found := OmsMatches(s.path, r, s.oms);
    if Skips(s.path, r) then Skipped
    else if r.id in s.failing then LookupError
    else if |found| == 0 then Orphan
    else if |found| > 1 then Ambiguous
    else Match(found[0].id)
  }

  /** The OMS row that path A or path B looks for: the one with this Shopify id, or the one with this
      order number in this channel. */
  ghost predicate LooksFor(p: Path, r: WmsRow, o: OmsRow) {
    match p
    case A => r.link.Some? && o.externalId == Some(r.link.value)
    case B => r.orderNumber.Some? && r.channel.Some? && o.externalNumber == r.orderNumber && o.channel == r.channel
  }

  ghost predicate LooksForOnly(p: Path, r: WmsRow, oms: seq<OmsRow>, k: nat)
    requires k < |oms|
  {
    LooksFor(p, r, oms[k]) && forall j :: 0 <= j < |oms| && LooksFor(p, r, oms[j]) ==> j == k
  }

  lemma {:induction false} MatchesAre(p: Path, r: WmsRow, oms: seq<OmsRow>)
    ensures OmsMatches(p, r, oms) == [] <==> forall k :: 0 <= k < |oms| ==> !LooksFor(p, r, oms[k])
    ensures |OmsMatches(p, r, oms)| == 1 <==> exists k :: 0 <= k < |oms| && LooksForOnly(p, r, oms, k)
    ensures forall k :: 0 <= k < |oms| && LooksForOnly(p, r, oms, k) ==> OmsMatches(p, r, oms) == [oms[k]]
  {
    if oms != [] {
      var rest := oms[1..];
      MatchesAre(p, r, rest);
      assert forall k :: 0 <= k < |rest| ==> rest[k] == oms[k + 1];
      if k :| 0 <= k < |rest| && LooksForOnly(p, r, rest, k) && !LooksFor(p, r, oms[0]) {
        assert LooksForOnly(p, r, oms, k + 1);
      }
      forall k | 0 <= k < |oms| && LooksForOnly(p, r, oms, k) ensures OmsMatches(p, r, oms) == [oms[k]] {
        if k > 0 { assert LooksForOnly(p, r, rest, k - 1); }
      }
      if OmsMatches(p, r, rest) == [] && LooksFor(p, r, oms[0]) { assert LooksForOnly(p, r, oms, 0); }
    }
  }

  /** A row is matched if and only if its link has the form of a Shopify order id, or it has a channel;
      its lookup does not fail; and exactly one OMS row is the one looked for. That row is the match. */
  lemma {:induction false} MatchExactly(r: WmsRow, s: Setting)
    ensures Decide(r, s).Match? <==>
      && !Skips(s.path, r) && r.id !in s.failing
      && exists k :: 0 <= k < |s.oms| && LooksForOnly(s.path, r, s.oms, k)
    ensures Decide(r, s).Match? ==>
      exists k :: 0 <= k < |s.oms| && LooksForOnly(s.path, r, s.oms, k) && Decide(r, s).omsId == s.oms[k].id
    ensures Decide(r, s).Orphan? <==>
      && !Skips(s.path, r) && r.id !in s.failing
      && forall k :: 0 <= k < |s.oms| ==> !LooksFor(s.path, r, s.oms[k])
    ensures Decide(r, s).LookupError? <==> !Skips(s.path, r) && r.id in s.failing
    ensures Decide(r, s).Skipped? <==> Skips(s.path, r)
    ensures s.path == B ==> (Skips(s.path, r) <==> r.channel.None?)
    ensures s.path == A ==> (!Skips(s.path, r) <==>
      r.link.Some? && exists digits :: IsNumber(digits) && r.link.value == GID_PREFIX + digits)
  {
    MatchesAre(s.path, r, s.oms);
    if s.path == A && r.link.Some? { GidExactly(r.link.value); }
  }

  /** Path A visits the links that look like a Shopify id from the front, numbered or not, and path B the
      rows without a link that can be looked up: no row is visited by both, and path B skips none. */
  lemma {:induction false} CandidateExactly(r: WmsRow)
    ensures IsCandidate(A, r) <==> exists rest :: r.link == Some(GID_PREFIX + rest)
    ensures IsCandidate(B, r) <==> r.link == None && r.orderNumber != None && r.channel != None
    ensures !Skips(A, r) ==> IsCandidate(A, r)
    ensures IsCandidate(B, r) ==> !Skips(B, r) && !IsCandidate(A, r)
  {
    if IsCandidate(A, r) { assert r.link.value == GID_PREFIX + r.link.value[|GID_PREFIX|..]; }
  }

  predicate IsNumber(s: string) { s != "" && forall i :: 0 <= i < |s| ==> '0' <= s[i] <= '9' }

  lemma {:induction false} GidExactly(s: string)
    ensures IsShopifyOrderGid(s) <==> exists digits :: IsNumber(digits) && s == GID_PREFIX + digits
  {
    if GID_PREFIX <= s {
      var rest := s[|GID_PREFIX|..];
      assert s == GID_PREFIX + rest;
      if rest != "" && LeadingDigits(rest) == |rest| { assert IsNumber(rest); }
    }
    if digits :| IsNumber(digits) && s == GID_PREFIX + digits {
      assert s[|GID_PREFIX|..] == digits;
      assert LeadingDigits(digits) == |digits|;
    }
  }

  function Candidates(p: Path, t: seq<WmsRow>): seq<WmsRow> {
    if t == [] then [] else (if IsCandidate(p, t[0]) then [t[0]] else []) + Candidates(p, t[1..])
  }

  lemma {:induction false} CandidatesFacts(p: Path, t: seq<WmsRow>)
    requires Keyed(t)
    ensures Keyed(Candidates(p, t))
    ensures forall r :: r in Candidates(p, t) <==> r in t && IsCandidate(p, r)
  {
    if t != [] {
      CandidatesFacts(p, t[1..]);
      assert forall r :: r in t <==> r == t[0] || r in t[1..];
      var rest := Candidates(p, t[1..]);
      forall j | 0 <= j < |rest| ensures t[0].id < rest[j].id {
        assert rest[j] in t[1..];
      }
    }
  }

  // ---------------------------------------------------------- pages

  function Above(t: seq<WmsRow>, last: int): seq<WmsRow> {
    if t == [] then [] else (if t[0].id > last then [t[0]] else []) + Above(t[1..], last)
  }

  function Page(p: Path, t: seq<WmsRow>, last: int, size: nat): seq<WmsRow> {
    var rows := Above(Candidates(p, t), last);
    if |rows| <= size then rows else rows[..size]
  }

  /** The id a page query after `i` candidates starts from. */
  function LastSeen(c: seq<WmsRow>, i: nat): int
    requires i <= |c|
  {
    if i == 0 then 0 else c[i - 1].id
  }

  lemma {:induction false} AboveKeyed(c: seq<WmsRow>, i: nat)
    requires Keyed(c) && i <= |c|
    ensures Above(c, LastSeen(c, i)) == c[i..]
  {
    AboveSuffix(c, LastSeen(c, i), i);
  }

  lemma {:induction false} AboveSuffix(c: seq<WmsRow>, last: int, i: nat)
    requires i <= |c|
    requires forall j :: 0 <= j < |c| ==> (c[j].id > last <==> i <= j)
    ensures Above(c, last) == c[i..]
  {
    if c != [] {
      if i == 0 {
        AboveSuffix(c[1..], last, 0);
      } else {
        AboveSuffix(c[1..], last, i - 1);
        assert c[1..][i - 1..] == c[i..];
      }
    }
  }

  // ---------------------------------------------------------- the pure map

  /** New links by WMS id. */
  type Links = map<int, string>

  function Relink(t: seq<WmsRow>, m: Links): seq<WmsRow> {
    seq(|t|, k requires 0 <= k < |t| => if t[k].id in m then t[k].(link := Some(m[t[k].id])) else t[k])
  }

  /** The links found for `rows`. */
  function LinksOf(rows: seq<WmsRow>, s: Setting): Links {
    if rows == [] then map[]
    else
      var m, r := LinksOf(rows[..|rows| - 1], s), rows[|rows| - 1];
      var v := Decide(r, s);
      if v.Match? then m[r.id := Decimal(v.omsId)] else m
  }

  lemma {:induction false} LinksOfDomain(rows: seq<WmsRow>, s: Setting)
    requires Keyed(rows)
    ensures forall k :: 0 <= k < |rows| ==>
              (rows[k].id in LinksOf(rows, s) <==> Decide(rows[k], s).Match?)
    ensures forall k :: 0 <= k < |rows| && Decide(rows[k], s).Match? ==>
              LinksOf(rows, s)[rows[k].id] == Decimal(Decide(rows[k], s).omsId)
    ensures forall id :: id in LinksOf(rows, s) ==> exists k :: 0 <= k < |rows| && rows[k].id == id
  {
    if rows != [] {
      var before := rows[..|rows| - 1];
      LinksOfDomain(before, s);
      forall id | id in LinksOf(rows, s) ensures exists k :: 0 <= k < |rows| && rows[k].id == id {
        if id in LinksOf(before, s) {
          var k :| 0 <= k < |before| && before[k].id == id;
          assert rows[k].id == id;
        }
      }
      assert forall k :: 0 <= k < |before| ==> before[k] == rows[k];
    }
  }

  lemma {:induction false} RelinkMore(t: seq<WmsRow>, m: Links, n: Links)
    ensures Relink(Relink(t, m), n) == Relink(t, m + n)
  {
  }

  /** What a complete run without faults leaves: every candidate with a unique match relinked. */
  function Backfilled(t: seq<WmsRow>, s: Setting): seq<WmsRow> {
    Relink(t, LinksOf(Candidates(s.path, t), s))
  }

  lemma {:induction false} BackfilledRow(t: seq<WmsRow>, s: Setting, k: nat)
    requires Keyed(t) && k < |t|
    ensures |Backfilled(t, s)| == |t|
    ensures var hit := IsCandidate(s.path, t[k]) && Decide(t[k], s).Match?;
            Backfilled(t, s)[k] == if hit then t[k].(link := Some(Decimal(Decide(t[k], s).omsId))) else t[k]
  {
    var c := Candidates(s.path, t);
    CandidatesFacts(s.path, t);
    LinksOfDomain(c, s);
    forall j | 0 <= j < |c| && c[j].id == t[k].id ensures c[j] == t[k] {
      assert c[j] in t;
      var i :| 0 <= i < |t| && t[i] == c[j];
      assert i < k ==> t[i].id < t[k].id;
    }
    if IsCandidate(s.path, t[k]) {
      assert t[k] in c;
    }
  }

  lemma {:induction false} DecimalIsNoCandidate(n: nat)
    ensures !(GID_PREFIX <= Decimal(n))
  {
    assert GID_PREFIX[0] == 'g';
  }

  /** A row that was linked is no candidate on either path, and every other row is as before. */
  lemma {:induction false} BackfilledCandidate(t: seq<WmsRow>, s: Setting, p: Path, k: nat)
    requires Keyed(t) && k < |t|
    ensures |Backfilled(t, s)| == |t|
    ensures IsCandidate(p, Backfilled(t, s)[k]) <==>
              IsCandidate(p, t[k]) && !(IsCandidate(s.path, t[k]) && Decide(t[k], s).Match?)
    ensures IsCandidate(p, Backfilled(t, s)[k]) ==> Backfilled(t, s)[k] == t[k]
  {
    BackfilledRow(t, s, k);
    if Decide(t[k], s).Match? { DecimalIsNoCandidate(Decide(t[k], s).omsId); }
  }

  lemma {:induction false} BackfilledKeyed(t: seq<WmsRow>, s: Setting)
    requires Keyed(t)
    ensures Keyed(Backfilled(t, s))
  {
  }

  /** Running a path again changes nothing. */
  lemma {:induction false} BackfillIsIdempotent(t: seq<WmsRow>, s: Setting)
    requires Keyed(t)
    ensures Backfilled(Backfilled(t, s), s) == Backfilled(t, s)
  {
    var t' := Backfilled(t, s);
    BackfilledKeyed(t, s);
    forall k | 0 <= k < |t'| ensures Backfilled(t', s)[k] == t'[k] {
      BackfilledRow(t', s, k);
      BackfilledCandidate(t, s, s.path, k);
    }
  }

  /** The two paths do not disturb each other: in either order the result is the same. */
  lemma {:induction false} PathsCommute(t: seq<WmsRow>, a: Setting, b: Setting)
    requires Keyed(t) && a.path == A && b.path == B
    ensures Backfilled(Backfilled(t, a), b) == Backfilled(Backfilled(t, b), a)
  {
    BackfilledKeyed(t, a);
    BackfilledKeyed(t, b);
    forall k | 0 <= k < |t| ensures Backfilled(Backfilled(t, a), b)[k] == Backfilled(Backfilled(t, b), a)[k] {
      BackfilledRow(t, a, k);
      BackfilledRow(t, b, k);
      BackfilledCandidate(t, a, B, k);
      BackfilledCandidate(t, b, A, k);
      BackfilledRow(Backfilled(t, a), b, k);
      BackfilledRow(Backfilled(t, b), a, k);
    }
  }
}
