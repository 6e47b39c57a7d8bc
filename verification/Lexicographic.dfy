/** Orders given by a list of sort keys, compared one after the other. */
module Lexicographic {
  import opened StableSort

  predicate LexLe(a: seq<int>, b: seq<int>) {
    a == [] || (b != [] && (a[0] < b[0] || (a[0] == b[0] && LexLe(a[1..], b[1..]))))
  }

  ghost predicate FirstDifference(a: seq<int>, b: seq<int>, k: int) {
    0 <= k < |a| && k < |b| && a[..k] == b[..k] && a[k] < b[k]
  }

  /** The first key in which two lists differ decides. */
  lemma {:induction false} LexLeExactly(a: seq<int>, b: seq<int>)
    requires |a| == |b|
    ensures LexLe(a, b) <==> a == b || exists k :: FirstDifference(a, b, k)
  {
    if a != [] {
      LexLeExactly(a[1..], b[1..]);
      assert a == [a[0]] + a[1..] && b == [b[0]] + b[1..];
      if a[0] == b[0] {
        if k :| FirstDifference(a[1..], b[1..], k) {
          assert a[..k + 1] == [a[0]] + a[1..][..k] && b[..k + 1] == [b[0]] + b[1..][..k];
          assert FirstDifference(a, b, k + 1);
        }
        if k :| k > 0 && FirstDifference(a, b, k) {
          assert a[1..][..k - 1] == a[..k][1..] && b[1..][..k - 1] == b[..k][1..];
          assert FirstDifference(a[1..], b[1..], k - 1);
        }
      } else {
        FirstDiffers(a, b);
      }
    }
  }

  lemma {:induction false} FirstDiffers(a: seq<int>, b: seq<int>)
    requires |a| == |b| > 0 && a[0] != b[0]
    ensures a[0] < b[0] <==> exists k :: FirstDifference(a, b, k)
  {
    if a[0] < b[0] { assert FirstDifference(a, b, 0); }
    forall k | FirstDifference(a, b, k) ensures k > 0 ==> a[0] == b[0] { AgreeBefore(a, b, k); }
  }

  lemma {:induction false} AgreeBefore(a: seq<int>, b: seq<int>, k: int)
    requires FirstDifference(a, b, k)
    ensures k > 0 ==> a[0] == b[0]
  {
    assert k > 0 ==> a[..k][0] == b[..k][0];
  }

  lemma {:induction false} LexTotal(a: seq<int>, b: seq<int>)
    ensures LexLe(a, b) || LexLe(b, a)
    ensures LexLe(a, b) && LexLe(b, a) ==> a == b
  {
    if a != [] && b != [] && a[0] == b[0] {
      LexTotal(a[1..], b[1..]);
      assert a == [a[0]] + a[1..] && b == [b[0]] + b[1..];
    }
  }

  lemma {:induction false} LexTransitive(a: seq<int>, b: seq<int>, c: seq<int>)
    requires LexLe(a, b) && LexLe(b, c)
    ensures LexLe(a, c)
  {
    if a != [] && a[0] == b[0] == c[0] {
      LexTransitive(a[1..], b[1..], c[1..]);
    }
  }

  /** Later keys only break the ties of earlier ones. */
  lemma {:induction false} LexAppend(a: seq<int>, b: seq<int>, c: seq<int>, d: seq<int>)
    requires |a| == |b|
    ensures LexLe(a + c, b + d) <==> LexLe(a, b) && (a == b ==> LexLe(c, d))
  {
    if a == [] {
      assert a + c == c && b + d == d;
    } else {
      assert (a + c)[1..] == a[1..] + c && (b + d)[1..] == b[1..] + d;
      LexAppend(a[1..], b[1..], c, d);
      assert a == [a[0]] + a[1..] && b == [b[0]] + b[1..];
    }
  }

  /** Comparing by keys. */
  function By<T(!new)>(key: T -> seq<int>): (T, T) -> bool { (x, y) => LexLe(key(x), key(y)) }

  lemma {:induction false} ByIsPreorder<T(!new)>(key: T -> seq<int>)
    ensures TotalPreorder(By(key))
  {
    forall x, y ensures By(key)(x, y) || By(key)(y, x) { LexTotal(key(x), key(y)); }
    forall x, y, z | By(key)(x, y) && By(key)(y, z) ensures By(key)(x, z) { LexTransitive(key(x), key(y), key(z)); }
  }

  /** A key list that extends another refines its order. */
  lemma {:induction false} LongerKeyRefines<T(!new)>(key: T -> seq<int>, longer: T -> seq<int>)
    requires forall x, y :: |key(x)| == |key(y)|
    requires forall x :: key(x) <= longer(x)
    ensures Refines(By(longer), By(key))
  {
    forall x, y
      ensures By(key)(x, y) && !By(key)(y, x) ==> By(longer)(x, y)
      ensures By(longer)(x, y) ==> By(key)(x, y)
    {
      var a, b := longer(x)[|key(x)|..], longer(y)[|key(y)|..];
      assert longer(x) == key(x) + a && longer(y) == key(y) + b;
      LexAppend(key(x), key(y), a, b);
      LexTotal(key(x), key(y));
    }
  }

  /** The sorted list starts with a least element. */
  lemma {:induction false} FirstIsLeast<T(!new)>(key: T -> seq<int>, s: seq<T>)
    requires s != []
    ensures |Sort(By(key), s)| == |s|
    ensures Sort(By(key), s)[0] in s
    ensures forall x :: x in s ==> LexLe(key(Sort(By(key), s)[0]), key(x))
  {
    ByIsPreorder(key);
    SortMultiset(By(key), s);
    SortRefines(By(key), By(key), s);
    var sorted := Sort(By(key), s);
    forall x | x in s ensures LexLe(key(sorted[0]), key(x)) {
      assert x in sorted;
      var i :| 0 <= i < |sorted| && sorted[i] == x;
      assert i > 0 ==> By(key)(sorted[0], sorted[i]);
      LexTotal(key(x), key(x));
    }
  }

  /** Keys that tell the elements apart make the input order irrelevant. */
  lemma {:induction false} OrderOfInputIrrelevant<T(!new)>(key: T -> seq<int>, s: seq<T>, t: seq<T>)
    requires multiset(s) == multiset(t)
    requires forall x, y :: x in s && y in s && key(x) == key(y) ==> x == y
    ensures Sort(By(key), s) == Sort(By(key), t)
  {
    ByIsPreorder(key);
    SortMultiset(By(key), s);
    SortMultiset(By(key), t);
    SortRefines(By(key), By(key), s);
    SortRefines(By(key), By(key), t);
    forall x, y | x in Sort(By(key), s) && y in Sort(By(key), s) && By(key)(x, y) && By(key)(y, x) ensures x == y {
      LexTotal(key(x), key(y));
    }
    OrderedUnique(By(key), Sort(By(key), s), Sort(By(key), t));
  }
}
