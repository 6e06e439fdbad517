/** Sorting by a total preorder, standing for the library sorts, and the order of strings. */
module Sorting {

  ghost predicate Preorder<T(!new)>(le: (T, T) -> bool) {
    && (forall x, y :: le(x, y) || le(y, x))
    && (forall x, y, z :: le(x, y) && le(y, z) ==> le(x, z))
  }

  ghost predicate Ordered<T(!new)>(xs: seq<T>, le: (T, T) -> bool) {
    forall i, j :: 0 <= i < j < |xs| ==> le(xs[i], xs[j])
  }

  function Insert<T(!new)>(x: T, xs: seq<T>, le: (T, T) -> bool): (r: seq<T>)
    ensures |r| == |xs| + 1
    ensures forall i :: 0 <= i < |r| ==> r[i] == x || r[i] in xs
  {
    if xs == [] then [x]
    else if le(x, xs[0]) then [x] + xs
    else [xs[0]] + Insert(x, xs[1..], le)
  }

  lemma {:induction false} InsertKeepsElements<T(!new)>(x: T, xs: seq<T>, le: (T, T) -> bool)
    ensures multiset(Insert(x, xs, le)) == multiset{x} + multiset(xs)
  {
    if xs != [] {
      assert xs == [xs[0]] + xs[1..];
      InsertKeepsElements(x, xs[1..], le);
    }
  }

  lemma {:induction false} InsertKeepsOrder<T(!new)>(x: T, xs: seq<T>, le: (T, T) -> bool)
    requires Preorder(le) && Ordered(xs, le)
    ensures Ordered(Insert(x, xs, le), le)
  {
    if xs != [] && !le(x, xs[0]) {
      var rest := Insert(x, xs[1..], le);
      InsertKeepsOrder(x, xs[1..], le);
      assert forall i :: 0 <= i < |rest| ==> le(xs[0], rest[i]);
    }
  }

  function Sort<T(!new)>(xs: seq<T>, le: (T, T) -> bool): (r: seq<T>)
    ensures |r| == |xs|
  {
    if xs == [] then [] else Insert(xs[0], Sort(xs[1..], le), le)
  }

  lemma {:induction false} SortSorts<T(!new)>(xs: seq<T>, le: (T, T) -> bool)
    requires Preorder(le)
    ensures Ordered(Sort(xs, le), le) && multiset(Sort(xs, le)) == multiset(xs)
  {
    if xs != [] {
      assert xs == [xs[0]] + xs[1..];
      SortSorts(xs[1..], le);
      InsertKeepsElements(xs[0], Sort(xs[1..], le), le);
      InsertKeepsOrder(xs[0], Sort(xs[1..], le), le);
    }
  }

  lemma SameMembers<T>(a: seq<T>, b: seq<T>, x: T)
    requires multiset(a) == multiset(b)
    ensures x in a <==> x in b
  {
    assert x in a <==> x in multiset(a);
    assert x in b <==> x in multiset(b);
  }

  lemma WithoutFirst<T>(a: seq<T>)
    requires a != []
    ensures a == [a[0]] + a[1..] && multiset(a[1..]) == multiset(a) - multiset{a[0]}
  {
    assert a == [a[0]] + a[1..];
  }

  lemma FirstIsLeast<T(!new)>(a: seq<T>, le: (T, T) -> bool)
    requires a != [] && Preorder(le) && Ordered(a, le)
    ensures forall x :: x in a ==> le(a[0], x)
    ensures Ordered(a[1..], le)
  {
    forall i | 0 <= i < |a| ensures le(a[0], a[i]) {
      if i == 0 {
        assert le(a[0], a[0]);
      }
    }
  }

  /** Elements that tie in the order are equal. */
  ghost predicate NoTies<T(!new)>(xs: seq<T>, le: (T, T) -> bool) {
    forall x, y :: x in xs && y in xs && le(x, y) && le(y, x) ==> x == y
  }

  /** Without ties there is only one way to put the same elements in order. */
  lemma {:induction false} OrderedUnique<T(!new)>(a: seq<T>, b: seq<T>, le: (T, T) -> bool)
    requires Preorder(le) && Ordered(a, le) && Ordered(b, le)
    requires multiset(a) == multiset(b) && NoTies(a, le)
    ensures a == b
  {
    assert |multiset(a)| == |multiset(b)|;
    if a != [] {
      SameMembers(a, b, a[0]);
      SameMembers(a, b, b[0]);
      FirstIsLeast(a, le);
      FirstIsLeast(b, le);
      assert a[0] == b[0];
      WithoutFirst(a);
      WithoutFirst(b);
      assert NoTies(a[1..], le);
      OrderedUnique(a[1..], b[1..], le);
    }
  }

  // ---- strings -------------------------------------------------------------------

  /** The byte order of strings; on UTF-8 it is the order of the code points. */
  predicate AtMost(a: string, b: string) {
    if a == "" then true
    else if b == "" then false
    else if a[0] == b[0] then AtMost(a[1..], b[1..])
    else a[0] < b[0]
  }

  lemma {:induction false} AtMostTotal(a: string, b: string)
    ensures AtMost(a, b) || AtMost(b, a)
    ensures AtMost(a, b) && AtMost(b, a) ==> a == b
  {
    if a != "" && b != "" && a[0] == b[0] {
      AtMostTotal(a[1..], b[1..]);
      assert a == [a[0]] + a[1..] && b == [b[0]] + b[1..];
    }
  }

  lemma {:induction false} AtMostTransitive(a: string, b: string, c: string)
    requires AtMost(a, b) && AtMost(b, c)
    ensures AtMost(a, c)
  {
    if a != "" && b != "" && c != "" && a[0] == b[0] == c[0] {
      AtMostTransitive(a[1..], b[1..], c[1..]);
    }
  }

  lemma AtMostIsPreorder()
    ensures Preorder(AtMost)
    ensures forall a, b :: AtMost(a, b) && AtMost(b, a) ==> a == b
  {
    forall a, b ensures AtMost(a, b) || AtMost(b, a) {
      AtMostTotal(a, b);
    }
    forall a, b | AtMost(a, b) && AtMost(b, a) ensures a == b {
      AtMostTotal(a, b);
    }
    forall a, b, c | AtMost(a, b) && AtMost(b, c) ensures AtMost(a, c) {
      AtMostTransitive(a, b, c);
    }
  }

  /** At place k the two differ for the first time, and a has the smaller character. */
  predicate Smaller(a: string, b: string, k: nat) {
    k < |a| && k < |b| && a[..k] == b[..k] && a[k] < b[k]
  }

  lemma SmallerNext(a: string, b: string, k: nat)
    requires a != "" && b != "" && a[0] == b[0]
    ensures Smaller(a, b, k + 1) <==> Smaller(a[1..], b[1..], k)
  {
    if Smaller(a[1..], b[1..], k) {
      assert a[..k + 1] == [a[0]] + a[1..][..k] && b[..k + 1] == [b[0]] + b[1..][..k];
    }
    if Smaller(a, b, k + 1) {
      assert a[1..][..k] == a[..k + 1][1..] && b[1..][..k] == b[..k + 1][1..];
    }
  }

  /** What the order is: a beginning comes before the whole, and otherwise the first place
      where two strings differ decides. */
  lemma {:induction false} AtMostExactly(a: string, b: string)
    ensures AtMost(a, b) <==> a <= b || exists k: nat :: Smaller(a, b, k)
  {
    if a != "" && b != "" {
      if a[0] == b[0] {
        AtMostExactly(a[1..], b[1..]);
        assert a <= b <==> a[1..] <= b[1..];
        if AtMost(a, b) && !(a <= b) {
          var k: nat :| Smaller(a[1..], b[1..], k);
          SmallerNext(a, b, k);
        }
        forall k: nat | Smaller(a, b, k) ensures Smaller(a[1..], b[1..], k - 1) {
          SmallerNext(a, b, k - 1);
        }
      } else {
        assert a[0] < b[0] <==> Smaller(a, b, 0);
      }
    }
  }

  /** No later string is smaller at the first difference, nor a beginning, of an earlier one. */
  ghost predicate InNameOrder(xs: seq<string>) {
    forall i, j :: 0 <= i < j < |xs| ==> xs[i] <= xs[j] || exists k: nat :: Smaller(xs[i], xs[j], k)
  }

  lemma InNameOrderExactly(xs: seq<string>)
    ensures InNameOrder(xs) <==> Ordered(xs, AtMost)
  {
    forall i, j | 0 <= i < j < |xs|
      ensures AtMost(xs[i], xs[j]) <==> xs[i] <= xs[j] || exists k: nat :: Smaller(xs[i], xs[j], k)
    {
      AtMostExactly(xs[i], xs[j]);
    }
  }

  /** In a list in that order, a string that is smaller at the first difference comes first. */
  lemma SmallerComesFirst(xs: seq<string>, i: nat, j: nat, k: nat)
    requires InNameOrder(xs) && i < |xs| && j < |xs| && Smaller(xs[i], xs[j], k)
    ensures i < j
  {
    if j < i {
      AtMostExactly(xs[i], xs[j]);
      AtMostExactly(xs[j], xs[i]);
      AtMostTotal(xs[i], xs[j]);
    }
  }

  /** The strings of xs in ascending order. */
  function SortStrings(xs: seq<string>): (r: seq<string>)
    ensures |r| == |xs|
  {
    Sort(xs, AtMost)
  }

  lemma SortStringsSorts(xs: seq<string>)
    ensures Ordered(SortStrings(xs), AtMost) && multiset(SortStrings(xs)) == multiset(xs)
    ensures InNameOrder(SortStrings(xs))
  {
    AtMostIsPreorder();
    SortSorts(xs, AtMost);
    InNameOrderExactly(SortStrings(xs));
  }

  // ---- lists without repetition ---------------------------------------------------

  predicate Distinct<T(==)>(xs: seq<T>) {
    forall i, j :: 0 <= i < j < |xs| ==> xs[i] != xs[j]
  }

  lemma {:induction false} DistinctMultiset<T>(xs: seq<T>, x: T)
    requires Distinct(xs)
    ensures multiset(xs)[x] == if x in xs then 1 else 0
  {
    if xs != [] {
      assert xs == [xs[0]] + xs[1..];
      DistinctMultiset(xs[1..], x);
    }
  }

  lemma SameSet<T>(a: seq<T>, b: seq<T>)
    requires Distinct(a) && Distinct(b)
    requires forall x :: x in a <==> x in b
    ensures multiset(a) == multiset(b)
  {
    forall x ensures multiset(a)[x] == multiset(b)[x] {
      DistinctMultiset(a, x);
      DistinctMultiset(b, x);
    }
  }

  lemma Twice<T>(xs: seq<T>, i: nat, j: nat)
    requires i < j < |xs| && xs[i] == xs[j]
    ensures multiset(xs)[xs[i]] >= 2
  {
    assert xs == xs[..j] + [xs[j]] + xs[j + 1..];
    assert xs[..j][i] == xs[i];
    assert xs[i] in multiset(xs[..j]);
  }

  lemma SortedDistinct(xs: seq<string>)
    requires Distinct(xs)
    ensures Distinct(SortStrings(xs))
    ensures forall x :: x in SortStrings(xs) <==> x in xs
  {
    var s := SortStrings(xs);
    SortStringsSorts(xs);
    forall x ensures x in s <==> x in xs {
      SameMembers(s, xs, x);
    }
    forall i, j | 0 <= i < j < |s|
      ensures s[i] != s[j]
    {
      if s[i] == s[j] {
        Twice(s, i, j);
        DistinctMultiset(xs, s[i]);
      }
    }
  }

  lemma DistinctPush<T>(xs: seq<T>, x: T)
    requires Distinct(xs) && x !in xs
    ensures Distinct(xs + [x])
  {
  }
}
