/**
 The order in which the source sorts identifiers: Python compares strings character by
 character. `sorted(...)` is specified by "sorted" and "a permutation", which together fix
 the result (SortedPermutationUnique); `sorted(d.keys())` is specified as the listing of a
 set, once as a method and once as a function.
 */
module Ordering {
  import opened Common
  import Sorting

  predicate Le(a: string, b: string) {
    a == [] || (b != [] && (a[0] < b[0] || (a[0] == b[0] && Le(a[1..], b[1..]))))
  }

  lemma {:induction false} LeTotal(a: string, b: string)
    ensures Le(a, b) || Le(b, a)
    ensures Le(a, b) && Le(b, a) ==> a == b
  {
    if a != [] && b != [] && a[0] == b[0] {
      LeTotal(a[1..], b[1..]);
      assert a == [a[0]] + a[1..] && b == [b[0]] + b[1..];
    }
  }

  lemma {:induction false} LeTransitive(a: string, b: string, c: string)
    requires Le(a, b) && Le(b, c)
    ensures Le(a, c)
  {
    if a != [] && b != [] && c != [] && a[0] == b[0] == c[0] {
      LeTransitive(a[1..], b[1..], c[1..]);
    }
  }

  ghost predicate InOrder(s: seq<string>, i: nat, j: nat)
    requires i < |s| && j < |s|
  {
    Le(s[i], s[j])
  }

  ghost predicate Sorted(s: seq<string>) {
    forall i, j :: 0 <= i < j < |s| ==> InOrder(s, i, j)
  }

  lemma PrefixSorted(s: seq<string>, k: nat)
    requires k <= |s| && Sorted(s)
    ensures Sorted(s[..k])
  {
    forall i, j | 0 <= i < j < k ensures InOrder(s[..k], i, j) { assert InOrder(s, i, j); }
  }

  lemma LeIsTotalOrder()
    ensures Sorting.TotalOrder(Le)
  {
    forall a, b ensures Le(a, b) || Le(b, a) { LeTotal(a, b); }
    forall a, b, c | Le(a, b) && Le(b, c) ensures Le(a, c) { LeTransitive(a, b, c); }
  }

  lemma SortedIsOrdered(s: seq<string>)
    ensures Sorted(s) <==> Sorting.Ordered(Le, s)
  {
    if Sorted(s) {
      forall i, j | 0 <= i < j < |s| ensures Sorting.Precedes(Le, s, i, j) { assert InOrder(s, i, j); }
    }
    if Sorting.Ordered(Le, s) {
      forall i, j | 0 <= i < j < |s| ensures InOrder(s, i, j) { assert Sorting.Precedes(Le, s, i, j); }
    }
  }

  /** `sorted(s)` */
  function Sort(s: seq<string>): (r: seq<string>)
    ensures Sorted(r) && multiset(r) == multiset(s)
  {
    LeIsTotalOrder();
    Sorting.SortOrders(Le, s);
    SortedIsOrdered(Sorting.Sort(Le, s));
    Sorting.Sort(Le, s)
  }

  /** Sorting has one answer: the order of the input does not matter. */
  lemma SortedPermutationUnique(a: seq<string>, b: seq<string>)
    requires Sorted(a) && Sorted(b) && multiset(a) == multiset(b)
    ensures a == b
  {
    LeIsTotalOrder();
    SortedIsOrdered(a);
    SortedIsOrdered(b);
    forall x, y | x in a && y in a && Le(x, y) && Le(y, x) ensures x == y { LeTotal(x, y); }
    Sorting.OrderedUnique(Le, a, b);
  }

  /** A listing of a finite set in increasing order, as `sorted(d.keys())` gives. */
  ghost predicate SortedListing(r: seq<string>, s: set<string>) {
    Sorted(r) && NoDuplicates(r) && Elements(r) == s
  }

  method SortedKeys(s: set<string>) returns (r: seq<string>)
    ensures SortedListing(r, s)
  {
    var rest, listed := s, [];
    while rest != {}
      invariant NoDuplicates(listed)
      invariant rest !! Elements(listed) && rest + Elements(listed) == s
      decreases rest
    {
      var x :| x in rest;
      assert x !in listed;
      listed, rest := listed + [x], rest - {x};
    }
    r := Sort(listed);
    Sorting.SameElements(r, listed);
    assert Elements(r) == Elements(listed);
    PermutationNoDuplicates(listed, r);
  }

  lemma PermutationNoDuplicates(a: seq<string>, b: seq<string>)
    requires NoDuplicates(a) && multiset(a) == multiset(b)
    ensures NoDuplicates(b)
  {
    forall i, j | 0 <= i < j < |b| ensures b[i] != b[j] {
      if b[i] == b[j] {
        var x := b[i];
        OccurrencesTwo(b, i, j);
        OccurrencesOne(a, x);
      }
    }
  }

  lemma OccurrencesTwo<T>(s: seq<T>, i: nat, j: nat)
    requires i < j < |s| && s[i] == s[j]
    ensures multiset(s)[s[i]] >= 2
  {
    assert s == s[..i] + [s[i]] + s[i + 1..j] + [s[j]] + s[j + 1..];
  }

  lemma {:induction false} OccurrencesOne<T(!new)>(s: seq<T>, x: T)
    requires NoDuplicates(s)
    ensures multiset(s)[x] <= 1
  {
    if s != [] {
      var rest := s[1..];
      assert s == [s[0]] + rest;
      OccurrencesOne(rest, x);
      if s[0] == x { assert x !in rest; assert x !in multiset(rest); }
    }
  }

  // ----- `sorted(d.keys())` as a function

  ghost function Enumerate(s: set<string>): (r: seq<string>)
    ensures NoDuplicates(r) && Elements(r) == s
  {
    if s == {} then []
    else
      var x :| x in s;
      var rest := Enumerate(s - {x});
      assert forall y :: y in s <==> y == x || y in Elements(rest);
      [x] + rest
  }

  ghost function Listing(s: set<string>): (r: seq<string>)
    ensures SortedListing(r, s)
  {
    var r := Sort(Enumerate(s));
    Sorting.SameElements(r, Enumerate(s));
    assert Elements(r) == Elements(Enumerate(s));
    PermutationNoDuplicates(Enumerate(s), r);
    r
  }

  lemma OccursOnce(s: seq<string>, x: string)
    requires NoDuplicates(s)
    ensures multiset(s)[x] == if x in s then 1 else 0
  {
    OccurrencesOne(s, x);
    if x in s { assert x in multiset(s); }
  }

  lemma ListingUnique(r: seq<string>, s: set<string>)
    requires SortedListing(r, s)
    ensures r == Listing(s)
  {
    var l := Listing(s);
    forall x ensures multiset(r)[x] == multiset(l)[x] {
      OccursOnce(r, x);
      OccursOnce(l, x);
      assert x in r <==> x in Elements(r);
      assert x in l <==> x in Elements(l);
    }
    assert multiset(r) == multiset(l);
    SortedPermutationUnique(r, l);
  }
}
