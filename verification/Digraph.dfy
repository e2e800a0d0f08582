/** Finite directed graphs as sets of arrows. */
module Digraph {
  // Two facts about cycles carry the scheduler and link proofs: an arrow out of every node of a finite
  // set, back into the set, forces a cycle; a listing in which arrows only point backwards excludes one.

  import opened Common

  type Graph = set<(string, string)>

  ghost predicate Walk(g: Graph, p: seq<string>) {
    p != [] && forall i :: 0 <= i < |p| - 1 ==> (p[i], p[i + 1]) in g
  }

  ghost predicate Cycle(g: Graph, p: seq<string>) {
    |p| >= 2 && p[0] == p[|p| - 1] && Walk(g, p)
  }

  ghost predicate Acyclic(g: Graph) {
    forall p :: !Cycle(g, p)
  }

  ghost predicate OnCycle(g: Graph, x: string) {
    exists p :: Cycle(g, p) && x in p
  }

  /** A finite set that every member leaves only to come back into it contains a cycle. */
  lemma CycleInside(g: Graph, r: set<string>) returns (p: seq<string>)
    requires r != {}
    requires forall x :: x in r ==> exists y :: y in r && (x, y) in g
    ensures Cycle(g, p) && forall x :: x in p ==> x in r
  {
    var start :| start in r;
    p := ExtendToCycle(g, r, [start]);
  }

  lemma {:induction false} ExtendToCycle(g: Graph, r: set<string>, trail: seq<string>) returns (p: seq<string>)
    requires Walk(g, trail) && NoDuplicates(trail) && forall x :: x in trail ==> x in r
    requires forall x :: x in r ==> exists y :: y in r && (x, y) in g
    ensures Cycle(g, p) && forall x :: x in p ==> x in r
    decreases |r| - |trail|
  {
    DistinctFitsInSet(trail, r);
    var last := trail[|trail| - 1];
    assert last in trail;
    var next :| next in r && (last, next) in g;
    if next in trail {
      var i :| 0 <= i < |trail| && trail[i] == next;
      p := trail[i..] + [next];
    } else {
      DistinctFitsInSet(trail + [next], r);
      p := ExtendToCycle(g, r, trail + [next]);
    }
  }

  /** Every arrow out of a listed node leads to a node listed earlier. */
  ghost predicate ArrowsPointBack(g: Graph, order: seq<string>) {
    forall i, y {:trigger (order[i], y) in g} :: 0 <= i < |order| && (order[i], y) in g ==> y in order[..i]
  }

  lemma AppendPointsBack(g: Graph, order: seq<string>, x: string)
    requires ArrowsPointBack(g, order)
    requires forall y :: (x, y) in g ==> y in order
    ensures ArrowsPointBack(g, order + [x])
  {
    var longer := order + [x];
    forall i, y | 0 <= i < |longer| && (longer[i], y) in g ensures y in longer[..i] {
      if i < |order| {
        assert (order[i], y) in g;
        assert longer[..i] == order[..i];
      } else {
        assert longer[..i] == order;
      }
    }
  }

  lemma {:induction false} WalkStaysBelow(g: Graph, order: seq<string>, p: seq<string>, i: nat)
    requires ArrowsPointBack(g, order) && Walk(g, p)
    requires i < |order| && order[i] == p[0]
    ensures |p| >= 2 ==> p[|p| - 1] in order[..i]
    decreases |p|
  {
    if |p| >= 2 {
      assert (p[0], p[1]) in g;
      assert p[1] in order[..i];
      var j :| 0 <= j < i && order[j] == p[1];
      assert Walk(g, p[1..]) by {
        forall k | 0 <= k < |p[1..]| - 1 ensures (p[1..][k], p[1..][k + 1]) in g {
          assert (p[k + 1], p[k + 2]) in g;
        }
      }
      WalkStaysBelow(g, order, p[1..], j);
      assert order[..j] <= order[..i];
    }
  }

  /** No cycle meets a node of a duplicate-free backward-pointing listing at its start. */
  lemma NoCycleFromListed(g: Graph, order: seq<string>, p: seq<string>)
    requires ArrowsPointBack(g, order) && NoDuplicates(order)
    requires p != [] && p[0] in order
    ensures !Cycle(g, p)
  {
    if Cycle(g, p) {
      var i :| 0 <= i < |order| && order[i] == p[0];
      WalkStaysBelow(g, order, p, i);
      assert false;
    }
  }

  /** A graph whose every source of an arrow is listed is acyclic. */
  lemma ListedMeansAcyclic(g: Graph, order: seq<string>)
    requires ArrowsPointBack(g, order) && NoDuplicates(order)
    requires forall x, y :: (x, y) in g ==> x in order
    ensures Acyclic(g)
  {
    forall p ensures !Cycle(g, p) {
      if Cycle(g, p) {
        assert (p[0], p[1]) in g;
        NoCycleFromListed(g, order, p);
      }
    }
  }
}
