/**
 Result and option types, and the few facts about finite sequences and sets, that the
 modules share: a sequence without repetitions lists a set, is as long as the set is
 large, and fits into any set that holds its elements.
 */
module Common {
  datatype Option<+T> = None | Some(value: T)

  datatype Result<+T, +E> = Ok(value: T) | Err(error: E) {
    predicate IsFailure() {
      Err?
    }

    function PropagateFailure<U>(): Result<U, E>
      requires Err?
    {
      Err(error)
    }

    function Extract(): T
      requires Ok?
    {
      value
    }
  }

  ghost predicate NoDuplicates<T(!new)>(s: seq<T>) {
    forall i, j :: 0 <= i < j < |s| ==> s[i] != s[j]
  }

  ghost function Elements<T(!new)>(s: seq<T>): set<T> {
    set x | x in s
  }

  /** A duplicate-free sequence inside a finite set is no longer than the set. */
  lemma {:induction false} DistinctFitsInSet<T(!new)>(s: seq<T>, within: set<T>)
    requires NoDuplicates(s) && forall x :: x in s ==> x in within
    ensures |s| <= |within|
    ensures |s| == |within| ==> forall x :: x in within ==> x in s
    decreases |s|
  {
    if |s| > 0 {
      var x, rest := s[|s| - 1], s[..|s| - 1];
      assert x in within;
      assert x !in rest;
      forall y | y in rest ensures y in within - {x} { assert y in s; }
      DistinctFitsInSet(rest, within - {x});
      if |s| == |within| {
        forall y | y in within ensures y in s {
          if y != x { assert y in within - {x}; assert y in rest; }
        }
      }
    } else {
      if |within| == 0 { assert within == {}; }
    }
  }

  lemma {:induction false} SubsetSize<T>(a: set<T>, b: set<T>)
    requires a <= b
    ensures |a| <= |b|
    decreases a
  {
    if a != {} {
      var x :| x in a;
      SubsetSize(a - {x}, b - {x});
    }
  }

  lemma {:induction false} ElementsNoLarger<T(!new)>(s: seq<T>)
    ensures |Elements(s)| <= |s|
  {
    if s != [] {
      var n := |s| - 1;
      ElementsNoLarger(s[..n]);
      assert s == s[..n] + [s[n]];
      assert Elements(s) == Elements(s[..n]) + {s[n]};
    } else {
      assert Elements(s) == {};
    }
  }

  /** A sequence is as long as its set of elements is large exactly when nothing in it repeats. */
  lemma {:induction false} DistinctIffAsLarge<T(!new)>(s: seq<T>)
    ensures |Elements(s)| == |s| <==> NoDuplicates(s)
  {
    if NoDuplicates(s) {
      DistinctSize(s);
    } else {
      var i, j :| 0 <= i < j < |s| && s[i] == s[j];
      var rest := s[..j] + s[j + 1..];
      assert rest[i] == s[i];
      forall x | x in s ensures x in rest {
        var k :| 0 <= k < |s| && s[k] == x;
        assert k < j ==> rest[k] == x;
        assert k > j ==> rest[k - 1] == x;
      }
      assert Elements(rest) == Elements(s);
      ElementsNoLarger(rest);
    }
  }

  lemma DistinctSize<T(!new)>(s: seq<T>)
    requires NoDuplicates(s)
    ensures |Elements(s)| == |s|
  {
    DistinctFitsInSet(s, Elements(s));
    ElementsNoLarger(s);
  }
}
