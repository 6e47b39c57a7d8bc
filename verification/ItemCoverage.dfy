/** The text by which two orders are compared item by item, and what it tells apart. */
module ItemCoverage {
  import opened Prelude
  import opened StableSort
  import opened Text

  /** An item's key and ordered quantity. */
  type Line = (string, int)

  function IntText(n: int): string { if n < 0 then "-" + Decimal(-n) else Decimal(n) }

  /** `CONCAT(key, '=', quantity)`. */
  function Piece(l: Line): string { l.0 + "=" + IntText(l.1) }

  /** `STRING_AGG(..., '|')`. */
  function Join(ls: seq<Line>): string {
    if ls == [] then ""
    else if |ls| == 1 then Piece(ls[0])
    else Piece(ls[0]) + "|" + Join(ls[1..])
  }

  predicate KeyLe(a: Line, b: Line) { StringLe(a.0, b.0) }

  /** The signature: the items in key order, as one text. */
  function Signature(lines: seq<Line>): string { Join(Sort(KeyLe, lines)) }

  // ---------------------------------------------------------- reading the text back

  predicate Lacks(s: string, c: char) { forall i :: 0 <= i < |s| ==> s[i] != c }

  /** No key holds the sign that separates it from its quantity. */
  predicate PlainKeys(ls: seq<Line>) { forall i :: 0 <= i < |ls| ==> Lacks(ls[i].0, '=') }

  /** A text splits at the first occurrence of a character in one way only. */
  lemma {:induction false} SplitOnce(a: string, b: string, c: char, r: string, t: string)
    requires Lacks(a, c) && Lacks(b, c) && a + r == b + t
    requires (r == "" || r[0] == c) && (t == "" || t[0] == c)
    ensures a == b && r == t
  {
    var s := a + r;
    assert forall i :: 0 <= i < |a| ==> s[i] == a[i];
    assert forall i :: 0 <= i < |b| ==> s[i] == b[i];
    assert r != "" ==> s[|a|] == c;
    assert t != "" ==> s[|b|] == c;
    assert |a| + |r| == |b| + |t|;
    assert |a| == |b|;
    assert a == s[..|a|] == b && r == s[|a|..] == t;
  }

  lemma {:induction false} IntTextReads(m: int, n: int)
    requires IntText(m) == IntText(n)
    ensures m == n
  {
    if m < 0 && n < 0 {
      assert IntText(m)[1..] == Decimal(-m) && IntText(n)[1..] == Decimal(-n);
      ValueOfDecimal(-m);
      ValueOfDecimal(-n);
    } else if m >= 0 && n >= 0 {
      ValueOfDecimal(m);
      ValueOfDecimal(n);
    } else {
      assert false;
    }
  }

  lemma {:induction false} IntTextLacks(n: int)
    ensures Lacks(IntText(n), '|') && IntText(n) != ""
  {
    var digits := Decimal(if n < 0 then -n else n);
    assert forall i :: 0 <= i < |digits| ==> IsDigit(digits[i]);
    assert n < 0 ==> forall i :: 0 < i < |IntText(n)| ==> IntText(n)[i] == digits[i - 1];
  }

  /** What follows the first piece. */
  function Rest(ls: seq<Line>): string
    requires ls != []
  {
    if |ls| == 1 then "" else "|" + Join(ls[1..])
  }

  lemma {:induction false} JoinFirst(ls: seq<Line>)
    requires ls != []
    ensures Join(ls) == ls[0].0 + ("=" + (IntText(ls[0].1) + Rest(ls)))
  {
    Glue(ls[0].0, IntText(ls[0].1), Rest(ls));
    if |ls| > 1 { assert Piece(ls[0]) + "|" + Join(ls[1..]) == Piece(ls[0]) + Rest(ls); }
  }

  lemma {:induction false} Glue(key: string, text: string, rest: string)
    ensures key + "=" + text + rest == key + ("=" + (text + rest))
  {
  }

  /** With such keys the text tells the items back. */
  lemma {:induction false} JoinReads(a: seq<Line>, b: seq<Line>)
    requires PlainKeys(a) && PlainKeys(b) && Join(a) == Join(b)
    ensures a == b
  {
    if a != [] { JoinFirst(a); }
    if b != [] { JoinFirst(b); }
    if a != [] && b != [] {
      var r, t := IntText(a[0].1) + Rest(a), IntText(b[0].1) + Rest(b);
      SplitOnce(a[0].0, b[0].0, '=', "=" + r, "=" + t);
      assert ("=" + r)[1..] == r && ("=" + t)[1..] == t;
      IntTextLacks(a[0].1);
      IntTextLacks(b[0].1);
      SplitOnce(IntText(a[0].1), IntText(b[0].1), '|', Rest(a), Rest(b));
      IntTextReads(a[0].1, b[0].1);
      if |a| > 1 && |b| > 1 {
        assert Rest(a)[1..] == Join(a[1..]) && Rest(b)[1..] == Join(b[1..]);
        JoinReads(a[1..], b[1..]);
      }
      assert a == [a[0]] + a[1..] && b == [b[0]] + b[1..];
    }
  }

  // ---------------------------------------------------------- key by key

  /** The quantities under one key, in the order of the items. */
  function Quantities(ls: seq<Line>, key: string): seq<int> {
    if ls == [] then []
    else (if ls[0].0 == key then [ls[0].1] else []) + Quantities(ls[1..], key)
  }

  lemma {:induction false} InsertKeeps(x: Line, s: seq<Line>, key: string)
    ensures Quantities(Insert(KeyLe, x, s), key) == (if x.0 == key then [x.1] else []) + Quantities(s, key)
  {
    StringLeTotal(x.0, x.0);
    if s == [] {
      assert [x][1..] == [];
    } else if KeyLe(x, s[0]) {
      assert ([x] + s)[1..] == s;
    } else {
      InsertKeeps(x, s[1..], key);
      assert ([s[0]] + Insert(KeyLe, x, s[1..]))[1..] == Insert(KeyLe, x, s[1..]);
    }
  }

  /** Sorting by key keeps the order under each key. */
  lemma {:induction false} SortKeeps(s: seq<Line>, key: string)
    ensures Quantities(Sort(KeyLe, s), key) == Quantities(s, key)
  {
    if s != [] {
      SortKeeps(s[1..], key);
      InsertKeeps(s[0], Sort(KeyLe, s[1..]), key);
    }
  }

  lemma {:induction false} SortIsSorted(s: seq<Line>)
    ensures Pairwise(KeyLe, Sort(KeyLe, s))
  {
    forall a: Line, b: Line ensures KeyLe(a, b) || KeyLe(b, a) { StringLeTotal(a.0, b.0); }
    forall a: Line, b: Line, c: Line | KeyLe(a, b) && KeyLe(b, c) ensures KeyLe(a, c) {
      StringLeTransitive(a.0, b.0, c.0);
    }
    SortRefines(KeyLe, KeyLe, s);
  }

  lemma {:induction false} UnderKey(s: seq<Line>, key: string)
    ensures Quantities(s, key) != [] <==> exists i :: 0 <= i < |s| && s[i].0 == key
  {
    if s != [] {
      UnderKey(s[1..], key);
      if i :| 0 <= i < |s| && s[i].0 == key { assert i > 0 ==> s[1..][i - 1].0 == key; }
      if i :| 0 <= i < |s[1..]| && s[1..][i].0 == key { assert s[i + 1].0 == key; }
    }
  }

  /** The first of a sorted list has the least key. */
  lemma {:induction false} FirstKey(a: seq<Line>, b: seq<Line>)
    requires a != [] && Pairwise(KeyLe, a) && Pairwise(KeyLe, b)
    requires forall key :: Quantities(a, key) == Quantities(b, key)
    ensures b != [] && StringLe(b[0].0, a[0].0)
  {
    UnderKey(a, a[0].0);
    UnderKey(b, a[0].0);
    var i :| 0 <= i < |b| && b[i].0 == a[0].0;
    StringLeTotal(b[0].0, b[0].0);
    assert i > 0 ==> KeyLe(b[0], b[i]);
  }

  lemma {:induction false} SortedIsTold(a: seq<Line>, b: seq<Line>)
    requires Pairwise(KeyLe, a) && Pairwise(KeyLe, b)
    requires forall key :: Quantities(a, key) == Quantities(b, key)
    ensures a == b
  {
    if a != [] { FirstKey(a, b); }
    if b != [] { FirstKey(b, a); }
    if a != [] {
      StringLeTotal(a[0].0, b[0].0);
      assert Quantities(a, a[0].0)[0] == a[0].1 && Quantities(b, a[0].0)[0] == b[0].1;
      forall key ensures Quantities(a[1..], key) == Quantities(b[1..], key) {
        TailQuantities(a, key);
        TailQuantities(b, key);
      }
      SortedIsTold(a[1..], b[1..]);
      assert a == [a[0]] + a[1..] && b == [b[0]] + b[1..];
    }
  }

  lemma {:induction false} TailQuantities(a: seq<Line>, key: string)
    requires a != []
    ensures Quantities(a[1..], key) == if a[0].0 == key then Quantities(a, key)[1..] else Quantities(a, key)
  {
  }

  lemma {:induction false} SortKeepsPlain(s: seq<Line>)
    requires PlainKeys(s)
    ensures PlainKeys(Sort(KeyLe, s))
  {
    if s != [] {
      SortKeepsPlain(s[1..]);
      InsertKeepsPlain(s[0], Sort(KeyLe, s[1..]));
    }
  }

  lemma {:induction false} InsertKeepsPlain(x: Line, s: seq<Line>)
    requires PlainKeys(s) && Lacks(x.0, '=')
    ensures PlainKeys(Insert(KeyLe, x, s))
  {
    if s != [] && !KeyLe(x, s[0]) { InsertKeepsPlain(x, s[1..]); }
  }

  /** Orders whose keys hold no '=' have equal signatures if and only if they have the same quantities
      under every key, in the same order; then they hold the same items. */
  lemma {:induction false} SignatureExactly(a: seq<Line>, b: seq<Line>)
    requires PlainKeys(a) && PlainKeys(b)
    ensures Signature(a) == Signature(b) <==> SameQuantities(a, b)
    ensures Signature(a) == Signature(b) ==> multiset(a) == multiset(b)
  {
    if Signature(a) == Signature(b) {
      SortKeepsPlain(a);
      SortKeepsPlain(b);
      JoinReads(Sort(KeyLe, a), Sort(KeyLe, b));
      SortMultiset(KeyLe, a);
      SortMultiset(KeyLe, b);
      forall key ensures Quantities(a, key) == Quantities(b, key) {
        SortKeeps(a, key);
        SortKeeps(b, key);
      }
    }
    if SameQuantities(a, b) {
      forall key ensures Quantities(Sort(KeyLe, a), key) == Quantities(Sort(KeyLe, b), key) {
        SortKeeps(a, key);
        SortKeeps(b, key);
      }
      SortIsSorted(a);
      SortIsSorted(b);
      SortedIsTold(Sort(KeyLe, a), Sort(KeyLe, b));
    }
  }

  ghost predicate SameQuantities(a: seq<Line>, b: seq<Line>) {
    forall key :: Quantities(a, key) == Quantities(b, key)
  }

  /** A key that holds the text of another item: one item reads as two. */
  lemma {:induction false} SignaturesCollide(key: string, quantity: int, other: string, last: int)
    requires StringLe(key, other)
    ensures Signature([(key, quantity), (other, last)])
         == Signature([(key + "=" + IntText(quantity) + "|" + other, last)])
  {
    var pair, one := [(key, quantity), (other, last)], [(key + "=" + IntText(quantity) + "|" + other, last)];
    assert pair[1..] == [(other, last)] && [(other, last)][1..] == [] && one[1..] == [];
    assert Sort(KeyLe, [(other, last)]) == [(other, last)];
    assert Sort(KeyLe, pair) == pair && Sort(KeyLe, one) == one;
    assert Join([(other, last)]) == Piece((other, last));
    assert Join(pair) == Piece((key, quantity)) + "|" + Piece((other, last));
    assert Join(one) == Piece(one[0]);
  }
}
