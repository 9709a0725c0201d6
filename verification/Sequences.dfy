/** Sequences without repetitions, and sorting them. */
module Sequences {

  predicate Distinct<T(==)>(s: seq<T>) {
    forall i, j :: 0 <= i < j < |s| ==> s[i] != s[j]
  }

  function Elements<T>(s: seq<T>): set<T> {
    set x | x in s
  }

  lemma Associative<T>(a: seq<T>, b: seq<T>, c: seq<T>)
    ensures a + (b + c) == a + b + c
  {}

  lemma DistinctSnoc<T>(s: seq<T>, x: T)
    requires Distinct(s) && x !in s
    ensures Distinct(s + [x])
  {}

  lemma ElementsSnoc<T>(s: seq<T>, x: T)
    ensures Elements(s + [x]) == Elements(s) + {x}
  {}

  lemma {:induction false} SizeOfElements<T>(s: seq<T>)
    ensures |Elements(s)| <= |s|
    ensures Distinct(s) ==> |Elements(s)| == |s|
  {
    if s != [] {
      var init, last := s[..|s| - 1], s[|s| - 1];
      SizeOfElements(init);
      assert s == init + [last];
      ElementsSnoc(init, last);
    }
  }

  lemma SizeWithout<T>(s: set<T>, x: T)
    ensures |s| == |s - {x}| + if x in s then 1 else 0
  {
    assert x !in s ==> s - {x} == s;
  }

  lemma SubsetIsSmaller<T>(a: set<T>, b: set<T>)
    requires a <= b
    ensures |a| <= |b|
  {
    assert b == a + (b - a);
  }

  // ----- Reordering -----

  lemma CountTwice<T>(s: seq<T>, i: nat, j: nat)
    requires i < j < |s| && s[i] == s[j]
    ensures multiset(s)[s[i]] >= 2
  {
    assert s == s[..j] + [s[j]] + s[j + 1..];
    assert s[..j][i] == s[i];
    assert s[i] in multiset(s[..j]);
  }

  lemma CountOnce<T>(s: seq<T>, x: T)
    requires Distinct(s) && x in s
    ensures multiset(s)[x] == 1
  {
    var i :| 0 <= i < |s| && s[i] == x;
    assert s == s[..i] + [x] + s[i + 1..];
    assert x !in s[..i] && x !in s[i + 1..];
    assert x !in multiset(s[..i]) && x !in multiset(s[i + 1..]);
  }

  lemma SameMembers<T>(a: seq<T>, b: seq<T>)
    requires multiset(a) == multiset(b)
    ensures forall x :: x in a <==> x in b
  {
    forall x ensures x in a <==> x in b {
      assert x in a <==> x in multiset(a);
      assert x in b <==> x in multiset(b);
    }
  }

  /** Reordering keeps elements apart. */
  lemma ReorderedIsDistinct<T>(a: seq<T>, b: seq<T>)
    requires Distinct(a) && multiset(a) == multiset(b)
    ensures Distinct(b)
  {
    forall i, j | 0 <= i < j < |b|
      ensures b[i] != b[j]
    {
      if b[i] == b[j] {
        CountTwice(b, i, j);
        SameMembers(a, b);
        CountOnce(a, b[i]);
      }
    }
  }

  // ----- Sorting -----

  ghost predicate IsOrder<T(!new)>(before: (T, T) -> bool) {
    && (forall a, b :: before(a, b) || before(b, a))
    && (forall a, b, c :: before(a, b) && before(b, c) ==> before(a, c))
  }

  predicate SortedBy<T>(s: seq<T>, before: (T, T) -> bool) {
    forall i, j :: 0 <= i < j < |s| ==> before(s[i], s[j])
  }

  /** Stands for the library sort, which promises order and contents but not the order of ties. */
  method Sort<T(!new)>(s: seq<T>, before: (T, T) -> bool) returns (sorted: seq<T>)
    requires IsOrder(before)
    ensures multiset(sorted) == multiset(s) && SortedBy(sorted, before)
  {
    sorted := [];
    for n := 0 to |s|
      invariant multiset(sorted) == multiset(s[..n]) && SortedBy(sorted, before)
    {
      var i := 0;
      while i < |sorted| && before(sorted[i], s[n])
        invariant 0 <= i <= |sorted|
        invariant forall k :: 0 <= k < i ==> before(sorted[k], s[n])
      {
        i := i + 1;
      }
      assert i < |sorted| ==> before(s[n], sorted[i]);
      InsertedIsSorted(sorted, i, s[n], before);
      InsertedContents(sorted, i, s[n]);
      assert s[..n + 1] == s[..n] + [s[n]];
      sorted := sorted[..i] + [s[n]] + sorted[i..];
    }
    assert s[..|s|] == s;
  }

  lemma InsertedContents<T>(sorted: seq<T>, i: nat, x: T)
    requires i <= |sorted|
    ensures multiset(sorted[..i] + [x] + sorted[i..]) == multiset(sorted) + multiset{x}
  {
    assert sorted == sorted[..i] + sorted[i..];
  }

  lemma InsertedIsSorted<T(!new)>(sorted: seq<T>, i: nat, x: T, before: (T, T) -> bool)
    requires IsOrder(before) && SortedBy(sorted, before) && i <= |sorted|
    requires forall k :: 0 <= k < i ==> before(sorted[k], x)
    requires i < |sorted| ==> before(x, sorted[i])
    ensures SortedBy(sorted[..i] + [x] + sorted[i..], before)
  {
    var s := sorted[..i] + [x] + sorted[i..];
    forall k | 0 <= k < |s|
      ensures s[k] == if k < i then sorted[k] else if k == i then x else sorted[k - 1]
    {}
    assert forall k :: i <= k < |sorted| ==> before(x, sorted[k]);
  }
}
