/** `Array.prototype.sort`: a stable sort by a comparison that is a total preorder. */
module StableSort {

  ghost predicate TotalPreorder<T(!new)>(le: (T, T) -> bool) {
    && (forall x, y :: le(x, y) || le(y, x))
    && (forall x, y, z :: le(x, y) && le(y, z) ==> le(x, z))
  }

  /** Every earlier element stands in relation `r` to every later one. */
  ghost predicate Pairwise<T>(r: (T, T) -> bool, s: seq<T>) {
    forall i, j :: 0 <= i < j < |s| ==> r(s[i], s[j])
  }

  function Insert<T>(le: (T, T) -> bool, x: T, s: seq<T>): seq<T> {
    if s == [] then [x]
    else if le(x, s[0]) then [x] + s
    else [s[0]] + Insert(le, x, s[1..])
  }

  function Sort<T>(le: (T, T) -> bool, s: seq<T>): seq<T> {
    if s == [] then [] else Insert(le, s[0], Sort(le, s[1..]))
  }

  lemma {:induction false} InsertMultiset<T>(le: (T, T) -> bool, x: T, s: seq<T>)
    ensures multiset(Insert(le, x, s)) == multiset{x} + multiset(s)
  {
    if s != [] && !le(x, s[0]) {
      InsertMultiset(le, x, s[1..]);
      assert s == [s[0]] + s[1..];
    }
  }

  /** Sorting permutes. */
  lemma {:induction false} SortMultiset<T>(le: (T, T) -> bool, s: seq<T>)
    ensures multiset(Sort(le, s)) == multiset(s)
    ensures |Sort(le, s)| == |s|
    ensures forall x :: x in Sort(le, s) <==> x in s
  {
    if s != [] {
      SortMultiset(le, s[1..]);
      InsertMultiset(le, s[0], Sort(le, s[1..]));
      assert s == [s[0]] + s[1..];
    }
    SameMembers(Sort(le, s), s);
  }

  lemma {:induction false} SameMembers<T>(a: seq<T>, b: seq<T>)
    requires multiset(a) == multiset(b)
    ensures |a| == |b|
    ensures forall x :: x in a <==> x in b
  {
    assert |multiset(a)| == |a| && |multiset(b)| == |b|;
    forall x ensures x in a <==> x in b {
      assert x in a <==> x in multiset(a);
      assert x in b <==> x in multiset(b);
    }
  }

  /** `r` refines `le`: it contains the strict part and lies inside `le`. */
  ghost predicate Refines<T(!new)>(r: (T, T) -> bool, le: (T, T) -> bool) {
    && (forall x, y :: le(x, y) && !le(y, x) ==> r(x, y))
    && (forall x, y :: r(x, y) ==> le(x, y))
  }

  /** Stability: if input order already decides the ties of `le` the way `r` does, the output
      is ordered by `r`. */
  lemma {:induction false} SortRefines<T(!new)>(le: (T, T) -> bool, r: (T, T) -> bool, s: seq<T>)
    requires TotalPreorder(le) && Refines(r, le)
    requires forall i, j :: 0 <= i < j < |s| && le(s[i], s[j]) && le(s[j], s[i]) ==> r(s[i], s[j])
    ensures Pairwise(r, Sort(le, s))
  {
    if s != [] {
      SortRefines(le, r, s[1..]);
      var rest := Sort(le, s[1..]);
      SortMultiset(le, s[1..]);
      forall y | y in rest && le(s[0], y) && le(y, s[0]) ensures r(s[0], y) {
        var j :| 0 <= j < |s[1..]| && s[1..][j] == y;
        assert s[j + 1] == y;
      }
      InsertRefines(le, r, s[0], rest);
    }
  }

  lemma {:induction false} InsertRefines<T(!new)>(le: (T, T) -> bool, r: (T, T) -> bool, x: T, s: seq<T>)
    requires TotalPreorder(le) && Refines(r, le) && Pairwise(r, s)
    requires forall y :: y in s && le(x, y) && le(y, x) ==> r(x, y)
    ensures Pairwise(r, Insert(le, x, s))
  {
    if s != [] {
      if le(x, s[0]) {
        forall j | 0 <= j < |s| ensures r(x, s[j]) {
          assert j > 0 ==> r(s[0], s[j]);
          assert le(x, s[j]);
          assert s[j] in s;
        }
      } else {
        InsertRefines(le, r, x, s[1..]);
        var rest := Insert(le, x, s[1..]);
        InsertMultiset(le, x, s[1..]);
        forall j | 0 <= j < |rest| ensures r(s[0], rest[j]) {
          assert rest[j] in multiset(rest);
          if rest[j] != x {
            assert rest[j] in multiset(s[1..]);
            var k :| 0 <= k < |s[1..]| && s[1..][k] == rest[j];
            assert r(s[0], s[k + 1]);
          }
        }
      }
    }
  }

  /** Whatever holds between any two elements, in either order, still does after sorting. */
  lemma {:induction false} SortKeepsSymmetric<T(!new)>(le: (T, T) -> bool, r: (T, T) -> bool, s: seq<T>)
    requires Pairwise(r, s) && forall x, y :: r(x, y) ==> r(y, x)
    ensures Pairwise(r, Sort(le, s))
  {
    if s != [] {
      SortKeepsSymmetric(le, r, s[1..]);
      SortMultiset(le, s[1..]);
      InsertKeepsSymmetric(le, r, s[0], Sort(le, s[1..]));
    }
  }

  lemma {:induction false} InsertKeepsSymmetric<T(!new)>(le: (T, T) -> bool, r: (T, T) -> bool, x: T, s: seq<T>)
    requires Pairwise(r, s) && forall y, z :: r(y, z) ==> r(z, y)
    requires forall y :: y in s ==> r(x, y)
    ensures Pairwise(r, Insert(le, x, s))
    ensures forall y :: y in Insert(le, x, s) <==> y == x || y in s
  {
    if s != [] && !le(x, s[0]) {
      InsertKeepsSymmetric(le, r, x, s[1..]);
      var rest := Insert(le, x, s[1..]);
      assert s[0] in s;
      forall j | 0 <= j < |rest| ensures r(s[0], rest[j]) {
        if rest[j] != x {
          assert rest[j] in s[1..];
        }
      }
    }
  }

  ghost predicate Distinguishes<T>(r: (T, T) -> bool, a: seq<T>) {
    forall x, y :: x in a && y in a && r(x, y) && r(y, x) ==> x == y
  }

  lemma {:induction false} SameFirst<T>(r: (T, T) -> bool, a: seq<T>, b: seq<T>)
    requires a != [] && b != []
    requires Pairwise(r, a) && Pairwise(r, b) && multiset(a) == multiset(b)
    requires Distinguishes(r, a)
    ensures a[0] == b[0]
  {
    SameMembers(a, b);
    assert a[0] in b && b[0] in a;
    var i :| 0 <= i < |b| && b[i] == a[0];
    var j :| 0 <= j < |a| && a[j] == b[0];
    if i > 0 && j > 0 {
      assert r(b[0], a[0]) && r(a[0], b[0]);
    }
  }

  lemma {:induction false} TailMultiset<T>(a: seq<T>)
    requires a != []
    ensures multiset(a[1..]) == multiset(a) - multiset{a[0]}
  {
    assert a == [a[0]] + a[1..];
  }

  /** A list ordered by a relation that tells its elements apart is the only one of its kind. */
  lemma {:induction false} OrderedUnique<T>(r: (T, T) -> bool, a: seq<T>, b: seq<T>)
    requires Pairwise(r, a) && Pairwise(r, b) && multiset(a) == multiset(b)
    requires Distinguishes(r, a)
    ensures a == b
  {
    SameMembers(a, b);
    if a != [] {
      SameFirst(r, a, b);
      TailMultiset(a);
      TailMultiset(b);
      assert Distinguishes(r, a[1..]);
      OrderedUnique(r, a[1..], b[1..]);
      assert a == [a[0]] + a[1..] && b == [b[0]] + b[1..];
    }
  }

  // ---------------------------------------------------------- one element in front

  function Fronting<T(==, !new)>(s: T): (T, T) -> bool { (x, y) => y == s ==> x == s }

  function Fronted<T(==, !new)>(s: T, ss: seq<T>): seq<T> { Sort(Fronting(s), ss) }

  lemma {:induction false} FrontedFacts<T(!new)>(s: T, ss: seq<T>)
    ensures multiset(Fronted(s, ss)) == multiset(ss)
    ensures Pairwise(Fronting(s), Fronted(s, ss))
  {
    SortMultiset(Fronting(s), ss);
    SortRefines(Fronting(s), Fronting(s), ss);
  }
}
