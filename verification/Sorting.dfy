/**
 `sorted(items, key=...)`: a stable insertion sort by any total order. Its result is
 ordered and a permutation of its input, and when no two different elements tie there is
 only one such result, so that the order of the input cannot matter. Strings, vote counts,
 claims and scheduled forces are all sorted by it.
 */
module Sorting {
  import opened Common

  ghost predicate TotalOrder<T(!new)>(le: (T, T) -> bool) {
    && (forall a, b :: le(a, b) || le(b, a))
    && forall a, b, c :: le(a, b) && le(b, c) ==> le(a, c)
  }

  ghost predicate Precedes<T>(le: (T, T) -> bool, s: seq<T>, i: nat, j: nat)
    requires i < |s| && j < |s|
  {
    le(s[i], s[j])
  }

  ghost predicate Ordered<T>(le: (T, T) -> bool, s: seq<T>) {
    forall i, j :: 0 <= i < j < |s| ==> Precedes(le, s, i, j)
  }

  function Insert<T>(le: (T, T) -> bool, x: T, s: seq<T>): seq<T> {
    if s == [] then [x]
    else if le(x, s[0]) then [x] + s
    else [s[0]] + Insert(le, x, s[1..])
  }

  function Sort<T>(le: (T, T) -> bool, s: seq<T>): (r: seq<T>)
    ensures multiset(r) == multiset(s)
  {
    if s == [] then []
    else
      var rest := Sort(le, s[1..]);
      assert s == [s[0]] + s[1..];
      InsertPermutes(le, s[0], rest);
      Insert(le, s[0], rest)
  }

  lemma {:induction false} InsertPermutes<T>(le: (T, T) -> bool, x: T, s: seq<T>)
    ensures multiset(Insert(le, x, s)) == multiset(s) + multiset{x}
  {
    if s != [] && !le(x, s[0]) {
      InsertPermutes(le, x, s[1..]);
      assert s == [s[0]] + s[1..];
    }
  }

  lemma SameElements<T>(a: seq<T>, b: seq<T>)
    requires multiset(a) == multiset(b)
    ensures |a| == |b| && forall x :: x in a <==> x in b
  {
    assert |multiset(a)| == |multiset(b)|;
    forall x ensures x in a <==> x in b {
      assert x in a <==> x in multiset(a);
      assert x in b <==> x in multiset(b);
    }
  }

  lemma OrderedTail<T>(le: (T, T) -> bool, s: seq<T>)
    requires s != [] && Ordered(le, s)
    ensures Ordered(le, s[1..]) && forall x :: x in s[1..] ==> le(s[0], x)
  {
    forall i, j | 0 <= i < j < |s[1..]| ensures Precedes(le, s[1..], i, j) { assert Precedes(le, s, i + 1, j + 1); }
    forall x | x in s[1..] ensures le(s[0], x) {
      var k :| 0 <= k < |s[1..]| && s[1..][k] == x;
      assert Precedes(le, s, 0, k + 1);
    }
  }

  lemma OrderedCons<T>(le: (T, T) -> bool, x: T, s: seq<T>)
    requires Ordered(le, s) && forall y :: y in s ==> le(x, y)
    ensures Ordered(le, [x] + s)
  {
    var r := [x] + s;
    forall i, j | 0 <= i < j < |r| ensures Precedes(le, r, i, j) {
      assert r[j] == s[j - 1] && s[j - 1] in s;
      if i > 0 { assert Precedes(le, s, i - 1, j - 1); }
    }
  }

  lemma {:induction false} InsertOrders<T(!new)>(le: (T, T) -> bool, x: T, s: seq<T>)
    requires TotalOrder(le) && Ordered(le, s)
    ensures Ordered(le, Insert(le, x, s))
  {
    if s == [] {
    } else if le(x, s[0]) {
      OrderedTail(le, s);
      forall y | y in s ensures le(x, y) {
        if y != s[0] { assert y in s[1..]; }
      }
      OrderedCons(le, x, s);
    } else {
      OrderedTail(le, s);
      InsertOrders(le, x, s[1..]);
      InsertPermutes(le, x, s[1..]);
      SameElements(Insert(le, x, s[1..]), [x] + s[1..]);
      OrderedCons(le, s[0], Insert(le, x, s[1..]));
    }
  }

  lemma {:induction false} SortOrders<T(!new)>(le: (T, T) -> bool, s: seq<T>)
    requires TotalOrder(le)
    ensures Ordered(le, Sort(le, s))
  {
    if s != [] {
      SortOrders(le, s[1..]);
      InsertOrders(le, s[0], Sort(le, s[1..]));
    }
  }

  /** No two different elements tie. */
  ghost predicate NoTies<T(!new)>(le: (T, T) -> bool, s: seq<T>) {
    forall x, y :: x in s && y in s && le(x, y) && le(y, x) ==> x == y
  }

  lemma HeadIsLeast<T(!new)>(le: (T, T) -> bool, s: seq<T>, x: T)
    requires TotalOrder(le) && Ordered(le, s) && x in s
    ensures le(s[0], x)
  {
    var i :| 0 <= i < |s| && s[i] == x;
    if i > 0 { assert Precedes(le, s, 0, i); }
  }

  lemma SameHead<T(!new)>(le: (T, T) -> bool, a: seq<T>, b: seq<T>)
    requires TotalOrder(le) && Ordered(le, a) && Ordered(le, b) && multiset(a) == multiset(b) && NoTies(le, a)
      && a != []
    ensures b != [] && a[0] == b[0]
  {
    SameElements(a, b);
    assert a[0] in b && b[0] in a;
    HeadIsLeast(le, a, b[0]);
    HeadIsLeast(le, b, a[0]);
  }

  lemma TailPermutes<T>(s: seq<T>)
    requires s != []
    ensures multiset(s[1..]) == multiset(s) - multiset{s[0]} && forall x :: x in s[1..] ==> x in s
  {
    assert s == [s[0]] + s[1..];
  }

  /** Without ties, sorting has one answer: the order of the input does not matter. */
  lemma {:induction false} OrderedUnique<T(!new)>(le: (T, T) -> bool, a: seq<T>, b: seq<T>)
    requires TotalOrder(le) && Ordered(le, a) && Ordered(le, b) && multiset(a) == multiset(b) && NoTies(le, a)
    ensures a == b
    decreases |a|
  {
    SameElements(a, b);
    if a != [] {
      SameHead(le, a, b);
      OrderedTail(le, a);
      OrderedTail(le, b);
      TailPermutes(a);
      TailPermutes(b);
      OrderedUnique(le, a[1..], b[1..]);
    }
  }

  // ----- elements that tie

  /** The last element that passes. */
  function LastOf<T>(pass: T -> bool, s: seq<T>): (r: Option<T>)
    ensures r.Some? ==> r.value in s && pass(r.value)
    ensures r.None? ==> forall x :: x in s ==> !pass(x)
  {
    if s == [] then None
    else if LastOf(pass, s[1..]).Some? then LastOf(pass, s[1..])
    else if pass(s[0]) then Some(s[0]) else None
  }

  lemma {:induction false} LastOfSnoc<T>(pass: T -> bool, s: seq<T>, x: T)
    ensures LastOf(pass, s + [x]) == if pass(x) then Some(x) else LastOf(pass, s)
  {
    var t := s + [x];
    if s == [] {
      assert t[1..] == [];
    } else {
      assert t[1..] == s[1..] + [x];
      LastOfSnoc(pass, s[1..], x);
    }
  }

  /** In an ordered sequence the last element that passes is a greatest one of those. */
  lemma {:induction false} LastIsGreatest<T(!new)>(le: (T, T) -> bool, pass: T -> bool, s: seq<T>)
    requires TotalOrder(le) && Ordered(le, s) && LastOf(pass, s).Some?
    ensures forall x :: x in s && pass(x) ==> le(x, LastOf(pass, s).value)
  {
    OrderedTail(le, s);
    if LastOf(pass, s[1..]).Some? { LastIsGreatest(le, pass, s[1..]); }
    assert s == [s[0]] + s[1..];
    assert le(s[0], s[0]);
  }

  lemma {:induction false} InsertKeepsLast<T>(le: (T, T) -> bool, pass: T -> bool, x: T, s: seq<T>, last: T)
    requires LastOf(pass, s) == Some(last) && (pass(x) ==> le(x, last))
    ensures LastOf(pass, Insert(le, x, s)) == Some(last)
  {
    var r := Insert(le, x, s);
    if le(x, s[0]) {
      assert r[1..] == s;
    } else if LastOf(pass, s[1..]).Some? {
      InsertKeepsLast(le, pass, x, s[1..], last);
      assert r[1..] == Insert(le, x, s[1..]);
    } else {
      InsertPermutes(le, x, s[1..]);
      SameElements(Insert(le, x, s[1..]), s[1..] + [x]);
      assert r[1..] == Insert(le, x, s[1..]);
    }
  }

  /** The sort is stable: of the greatest that pass, the one that arrives last is sorted last. */
  lemma {:induction false} LastArrivalStays<T>(le: (T, T) -> bool, pass: T -> bool, s: seq<T>, last: T)
    requires pass(last) && forall x :: x in s && pass(x) ==> le(x, last)
    ensures LastOf(pass, Sort(le, s + [last])) == Some(last)
  {
    var t := s + [last];
    if s == [] {
      assert t[1..] == [] && Sort(le, t) == [last];
    } else {
      assert t[1..] == s[1..] + [last] && t[0] == s[0];
      LastArrivalStays(le, pass, s[1..], last);
      InsertKeepsLast(le, pass, s[0], Sort(le, t[1..]), last);
    }
  }

  /** The same elements, with one of them moved to the end. */
  function MovedLast<T(==)>(s: seq<T>, x: T): (r: seq<T>)
    requires x in s
    ensures multiset(r) == multiset(s) && r != [] && r[|r| - 1] == x
  {
    assert s == [s[0]] + s[1..];
    if s[0] == x then s[1..] + [x] else [s[0]] + MovedLast(s[1..], x)
  }

  /** With x moved to the end, x is sorted last of all that pass, if it is one of the greatest of them. */
  lemma MovedLastStays<T(!new)>(le: (T, T) -> bool, pass: T -> bool, s: seq<T>, x: T)
    requires x in s && pass(x) && forall y :: y in s && pass(y) ==> le(y, x)
    ensures LastOf(pass, Sort(le, MovedLast(s, x))) == Some(x)
  {
    var r := MovedLast(s, x);
    SameElements(r, s);
    assert r == r[..|r| - 1] + [x];
    forall y | y in r[..|r| - 1] && pass(y) ensures le(y, x) {
      assert y in r;
      assert y in s;
    }
    LastArrivalStays(le, pass, r[..|r| - 1], x);
  }

  /** Every rearrangement is sorted alike exactly when no two different elements tie. */
  lemma SortsAlikeIff<T(!new)>(le: (T, T) -> bool, s: seq<T>)
    requires TotalOrder(le)
    ensures (forall t :: multiset(t) == multiset(s) ==> Sort(le, t) == Sort(le, s)) <==> NoTies(le, s)
  {
    if NoTies(le, s) {
      forall t | multiset(t) == multiset(s) ensures Sort(le, t) == Sort(le, s) {
        SortOrders(le, t);
        SortOrders(le, s);
        SameElements(Sort(le, s), s);
        OrderedUnique(le, Sort(le, s), Sort(le, t));
      }
    } else {
      var x, y :| x in s && y in s && le(x, y) && le(y, x) && x != y;
      var tied := z => le(z, x) && le(x, z);
      MovedLastStays(le, tied, s, x);
      MovedLastStays(le, tied, s, y);
      assert Sort(le, MovedLast(s, x)) != Sort(le, MovedLast(s, y));
    }
  }
}
