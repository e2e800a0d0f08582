/**
 A scene as a parent map: every node names at most one parent, and a parent that
 is not itself a node counts as none. Shared by the reparent guard, the cycle
 report and the projector.
 */
module ParentMap {
  import opened Common

  type Parents = map<string, Option<string>>

  function ParentOf(nodes: Parents, u: string): Option<string> {
    if u in nodes && nodes[u].Some? && nodes[u].value in nodes then nodes[u] else None
  }

  /** The ancestor n steps up. */
  ghost function Up(nodes: Parents, u: string, n: nat): Option<string>
    decreases n
  {
    if n == 0 then Some(u)
    else match ParentOf(nodes, u)
      case None => None
      case Some(p) => Up(nodes, p, n - 1)
  }

  /** v is u or an ancestor of u. */
  ghost predicate Above(nodes: Parents, u: string, v: string) {
    exists n: nat :: Up(nodes, u, n) == Some(v)
  }

  ghost predicate OnParentCycle(nodes: Parents, u: string) {
    exists n: nat :: n > 0 && Up(nodes, u, n) == Some(u)
  }

  ghost predicate Forest(nodes: Parents) {
    forall u :: !OnParentCycle(nodes, u)
  }

  /** The chain of ancestors ends. */
  ghost predicate Rooted(nodes: Parents, u: string) {
    exists n: nat :: Up(nodes, u, n) == None
  }

  lemma {:induction false} UpAdd(nodes: Parents, u: string, m: nat, n: nat)
    ensures Up(nodes, u, m + n) == match Up(nodes, u, m) case None => None case Some(v) => Up(nodes, v, n)
    decreases m
  {
    if m > 0 && ParentOf(nodes, u).Some? {
      UpAdd(nodes, ParentOf(nodes, u).value, m - 1, n);
    }
  }

  lemma {:induction false} UpInNodes(nodes: Parents, u: string, n: nat)
    requires u in nodes || n > 0
    ensures Up(nodes, u, n).Some? ==> Up(nodes, u, n).value in nodes
    decreases n
  {
    if n > 0 && ParentOf(nodes, u).Some? {
      UpInNodes(nodes, ParentOf(nodes, u).value, n - 1);
    }
  }

  lemma AboveTransitive(nodes: Parents, u: string, v: string, w: string)
    requires Above(nodes, u, v) && Above(nodes, v, w)
    ensures Above(nodes, u, w)
  {
    var m: nat :| Up(nodes, u, m) == Some(v);
    var n: nat :| Up(nodes, v, n) == Some(w);
    UpAdd(nodes, u, m, n);
  }

  lemma AboveSelf(nodes: Parents, u: string)
    ensures Above(nodes, u, u)
  {
    assert Up(nodes, u, 0) == Some(u);
  }

  lemma AboveParent(nodes: Parents, u: string)
    ensures ParentOf(nodes, u).Some? ==> Above(nodes, u, ParentOf(nodes, u).value)
  {
    if ParentOf(nodes, u).Some? {
      assert Up(nodes, u, 1) == Up(nodes, ParentOf(nodes, u).value, 0);
    }
  }

  /** A set closed under parents holds every ancestor of its members. */
  lemma {:induction false} ClosedHoldsAncestors(nodes: Parents, s: set<string>, u: string, n: nat)
    requires u in s && forall x :: x in s && ParentOf(nodes, x).Some? ==> ParentOf(nodes, x).value in s
    ensures Up(nodes, u, n).Some? ==> Up(nodes, u, n).value in s
    decreases n
  {
    if n > 0 && ParentOf(nodes, u).Some? {
      ClosedHoldsAncestors(nodes, s, ParentOf(nodes, u).value, n - 1);
    }
  }

  /** Going round k times. */
  lemma {:induction false} RoundAgain(nodes: Parents, u: string, n: nat, k: nat)
    requires Up(nodes, u, n) == Some(u)
    ensures Up(nodes, u, k * n) == Some(u)
  {
    if k > 0 {
      RoundAgain(nodes, u, n, k - 1);
      UpAdd(nodes, u, (k - 1) * n, n);
      assert (k - 1) * n + n == k * n;
    }
  }

  lemma {:induction false} EndStaysEnded(nodes: Parents, u: string, m: nat, n: nat)
    requires Up(nodes, u, m) == None && m <= n
    ensures Up(nodes, u, n) == None
  {
    UpAdd(nodes, u, m, n - m);
  }

  lemma RootedOffCycle(nodes: Parents, u: string)
    requires Rooted(nodes, u)
    ensures !OnParentCycle(nodes, u)
  {
    if OnParentCycle(nodes, u) {
      var m: nat :| Up(nodes, u, m) == None;
      var n: nat :| n > 0 && Up(nodes, u, n) == Some(u);
      RoundAgain(nodes, u, n, m);
      assert m <= m * n;
      EndStaysEnded(nodes, u, m, m * n);
    }
  }

  ghost function Trail(nodes: Parents, u: string, n: nat): seq<string>
    requires forall k: nat :: k < n ==> Up(nodes, u, k).Some?
  {
    seq(n, k requires 0 <= k < n => Up(nodes, u, k).value)
  }

  /** A chain that does not end runs into a cycle. */
  lemma EndlessMeetsCycle(nodes: Parents, u: string) returns (v: string)
    requires u in nodes && !Rooted(nodes, u)
    ensures Above(nodes, u, v) && OnParentCycle(nodes, v)
  {
    var n := |nodes| + 1;
    assert forall k: nat :: Up(nodes, u, k).Some?;
    var trail := Trail(nodes, u, n);
    forall x | x in trail ensures x in nodes.Keys {
      var k :| 0 <= k < n && trail[k] == x;
      UpInNodes(nodes, u, k);
    }
    if NoDuplicates(trail) {
      DistinctFitsInSet(trail, nodes.Keys);
      assert false;
    }
    var i, j :| 0 <= i < j < n && trail[i] == trail[j];
    v := trail[i];
    UpAdd(nodes, u, i, j - i);
    assert Up(nodes, u, i) == Some(v) && Up(nodes, v, j - i) == Some(v);
  }

  lemma ForestIsRooted(nodes: Parents, u: string)
    requires Forest(nodes) && u in nodes
    ensures Rooted(nodes, u)
  {
    if !Rooted(nodes, u) {
      var v := EndlessMeetsCycle(nodes, u);
    }
  }

  /** Every ancestor of a node on a cycle is on it too, and leads back. */
  lemma CycleReturns(nodes: Parents, u: string, v: string)
    requires OnParentCycle(nodes, u) && Above(nodes, u, v)
    ensures OnParentCycle(nodes, v) && Above(nodes, v, u)
  {
    var n: nat :| n > 0 && Up(nodes, u, n) == Some(u);
    var m: nat :| Up(nodes, u, m) == Some(v);
    RoundAgain(nodes, u, n, m + 1);
    assert m < (m + 1) * n;
    var back := (m + 1) * n - m;
    UpAdd(nodes, u, m, back);
    assert Up(nodes, v, back) == Some(u);
    UpAdd(nodes, v, back, m);
    assert Up(nodes, v, back + m) == Some(v);
  }
}
