/** `qso_scene_reparent` (qso_tools.py). */
module Reparenting {
  // The reparent call, its guard and the creation of nodes (api/mcp_tools/qso_tools.py).

  import opened Common
  import opened ParentMap

  /** The guard's loop: does climbing from the new parent meet the node? */
  method WouldCreateParentCycle(node: string, parent: string, nodes: Parents) returns (r: bool)
    ensures r <==> parent in nodes && Above(nodes, parent, node)
  {
    var cur: Option<string> := Some(parent);
    var seen: set<string> := {};
    ghost var k: nat := 0;
    while cur.Some? && cur.value in nodes && cur.value !in seen
      invariant seen <= nodes.Keys && node !in seen
      invariant cur.Some? && cur.value in nodes ==> Up(nodes, parent, k) == cur
      invariant parent in seen || cur == Some(parent)
      invariant forall x :: x in seen && ParentOf(nodes, x).Some? ==>
        ParentOf(nodes, x).value in seen || cur == ParentOf(nodes, x)
      decreases nodes.Keys - seen
    {
      if cur.value == node {
        return true;
      }
      seen := seen + {cur.value};
      UpAdd(nodes, parent, k, 1);
      assert Up(nodes, cur.value, 1) == ParentOf(nodes, cur.value);
      cur := nodes[cur.value];
      k := k + 1;
    }
    if parent in nodes && Above(nodes, parent, node) {
      var n: nat :| Up(nodes, parent, n) == Some(node);
      ClosedHoldsAncestors(nodes, seen, parent, n);
    }
    return false;
  }

  datatype Refusal = NodeMissing | SelfParent | ParentMissing | WouldCycle

  /** The world's parent map after the call, or why the call is refused. */
  ghost function Reparented(nodes: Parents, node: string, parent: Option<string>): Result<Parents, Refusal> {
    if node !in nodes then Err(NodeMissing)
    else if parent == Some(node) then Err(SelfParent)
    else if parent.Some? && parent.value !in nodes then Err(ParentMissing)
    else if parent.Some? && Above(nodes, parent.value, node) then Err(WouldCycle)
    else Ok(nodes[node := parent])
  }

  /** One world's nodes as the runtime stores them. */
  class SceneWorld {
    var nodes: Parents

    constructor ()
      ensures nodes == map[]
    {
      nodes := map[];
    }

    /** A new node object has an empty state layer, hence no parent. */
    method CreateNode(uri: string) returns (created: bool)
      modifies this
      ensures created <==> uri !in old(nodes)
      ensures nodes == Edited(old(nodes), Create(uri))
    {
      created := uri !in nodes;
      if created {
        nodes := nodes[uri := None];
      }
    }

    method ReparentNode(node: string, parent: Option<string>) returns (refusal: Option<Refusal>)
      modifies this
      ensures match Reparented(old(nodes), node, parent)
        case Ok(next) => refusal == None && nodes == next
        case Err(why) => refusal == Some(why) && nodes == old(nodes)
    {
      if node !in nodes {
        return Some(NodeMissing);
      }
      if parent.Some? {
        if parent.value == node {
          return Some(SelfParent);
        }
        if parent.value !in nodes {
          return Some(ParentMissing);
        }
        var cyclic := WouldCreateParentCycle(node, parent.value, nodes);
        if cyclic {
          return Some(WouldCycle);
        }
      }
      nodes := nodes[node := parent];
      return None;
    }
  }

  /** Changing one node's parent changes no climb that does not pass it. */
  lemma {:induction false} ClimbElsewhere(a: Parents, b: Parents, node: string, u: string, n: nat)
    requires forall x :: x != node ==> ParentOf(a, x) == ParentOf(b, x)
    requires forall k: nat :: k < n ==> Up(a, u, k) != Some(node)
    ensures Up(a, u, n) == Up(b, u, n)
    decreases n
  {
    if n > 0 {
      assert Up(a, u, 0) == Some(u);
      if ParentOf(a, u).Some? {
        var p := ParentOf(a, u).value;
        forall k: nat | k < n - 1 ensures Up(a, p, k) != Some(node) {
          assert Up(a, u, k + 1) == Up(a, p, k);
        }
        ClimbElsewhere(a, b, node, p, n - 1);
      }
    }
  }

  /** If the climb meets the node at all, it meets it for the first time without using its parent link. */
  lemma {:induction false} FirstMeeting(a: Parents, b: Parents, node: string, u: string, n: nat)
    requires forall x :: x != node ==> ParentOf(a, x) == ParentOf(b, x)
    requires Up(a, u, n) == Some(node)
    ensures Above(b, u, node)
    decreases n
  {
    if u == node {
      AboveSelf(b, u);
    } else {
      var p := ParentOf(a, u).value;
      FirstMeeting(a, b, node, p, n - 1);
      AboveParent(b, u);
      AboveTransitive(b, u, p, node);
    }
  }

  /** The guard refuses exactly the parents that would put the node on a cycle. */
  lemma GuardIsExact(nodes: Parents, node: string, parent: string)
    requires node in nodes && parent in nodes
    ensures Above(nodes, parent, node) <==> OnParentCycle(nodes[node := Some(parent)], node)
  {
    var next := nodes[node := Some(parent)];
    assert ParentOf(next, node) == Some(parent);
    if Above(nodes, parent, node) {
      var n: nat :| Up(nodes, parent, n) == Some(node);
      FirstMeeting(nodes, next, node, parent, n);
      var k: nat :| Up(next, parent, k) == Some(node);
      assert Up(next, node, k + 1) == Some(node);
    }
    if OnParentCycle(next, node) {
      var n: nat :| n > 0 && Up(next, node, n) == Some(node);
      assert Up(next, parent, n - 1) == Some(node);
      FirstMeeting(next, nodes, node, parent, n - 1);
    }
  }

  datatype Edit = Create(uri: string) | Reparent(node: string, parent: Option<string>)

  ghost function Edited(nodes: Parents, edit: Edit): Parents {
    match edit
    case Create(uri) => if uri in nodes then nodes else nodes[uri := None]
    case Reparent(node, parent) =>
      match Reparented(nodes, node, parent)
      case Ok(next) => next
      case Err(_) => nodes
  }

  ghost function EditRun(nodes: Parents, edits: seq<Edit>): Parents
    decreases edits
  {
    if edits == [] then nodes else EditRun(Edited(nodes, edits[0]), edits[1..])
  }

  /** Edits are made one after another, each on the map the last one left. */
  lemma {:induction false} EditRunSnoc(nodes: Parents, edits: seq<Edit>, last: Edit)
    ensures EditRun(nodes, edits + [last]) == Edited(EditRun(nodes, edits), last)
    decreases |edits|
  {
    var all := edits + [last];
    if edits == [] {
      assert all == [last] && all[1..] == [];
    } else {
      assert all[1..] == edits[1..] + [last];
      EditRunSnoc(Edited(nodes, edits[0]), edits[1..], last);
    }
  }

  /** A cycle of b is a cycle of a, node for node. */
  ghost predicate OldCyclesOnly(a: Parents, b: Parents) {
    forall u: string, n: nat :: n > 0 && Up(b, u, n) == Some(u) ==> forall k: nat :: Up(a, u, k) == Up(b, u, k)
  }

  /** A node with no parent link in b stands on no cycle there; the climbs of cycles avoid it. */
  lemma CyclesAvoid(b: Parents, node: string, u: string, n: nat)
    requires !OnParentCycle(b, node)
    requires n > 0 && Up(b, u, n) == Some(u)
    ensures forall k: nat :: Up(b, u, k) != Some(node)
  {
    forall k: nat ensures Up(b, u, k) != Some(node) {
      if Up(b, u, k) == Some(node) {
        assert OnParentCycle(b, u) && Above(b, u, node);
        CycleReturns(b, u, node);
      }
    }
  }

  lemma UnchangedClimbs(a: Parents, b: Parents, node: string)
    requires forall x :: x != node ==> ParentOf(a, x) == ParentOf(b, x)
    requires !OnParentCycle(b, node)
    ensures OldCyclesOnly(a, b)
  {
    forall u: string, n: nat, k: nat | n > 0 && Up(b, u, n) == Some(u) ensures Up(a, u, k) == Up(b, u, k) {
      CyclesAvoid(b, node, u, n);
      ClimbElsewhere(b, a, node, u, k);
    }
  }

  lemma CreateMakesNoCycle(nodes: Parents, uri: string)
    requires uri !in nodes
    ensures OldCyclesOnly(nodes, nodes[uri := None])
  {
    var b := nodes[uri := None];
    assert ParentOf(b, uri) == None;
    assert Rooted(b, uri) by { assert Up(b, uri, 1) == None; }
    RootedOffCycle(b, uri);
    forall u: string, n: nat, k: nat | n > 0 && Up(b, u, n) == Some(u) ensures Up(nodes, u, k) == Up(b, u, k) {
      CyclesAvoid(b, uri, u, n);
      ClimbAvoiding(nodes, b, uri, u, k);
    }
  }

  /** A climb that never meets the new node is the old climb. */
  lemma {:induction false} ClimbAvoiding(nodes: Parents, b: Parents, uri: string, u: string, k: nat)
    requires uri !in nodes && b == nodes[uri := None]
    requires forall j: nat :: Up(b, u, j) != Some(uri)
    ensures Up(nodes, u, k) == Up(b, u, k)
    decreases k
  {
    assert Up(b, u, 0) == Some(u);
    if k > 0 {
      if ParentOf(b, u).Some? {
        var p := ParentOf(b, u).value;
        forall j: nat ensures Up(b, p, j) != Some(uri) { assert Up(b, u, j + 1) == Up(b, p, j); }
        assert Up(b, p, 0) == Some(p);
        ClimbAvoiding(nodes, b, uri, p, k - 1);
      }
    }
  }

  lemma EditMakesNoCycle(nodes: Parents, edit: Edit)
    ensures OldCyclesOnly(nodes, Edited(nodes, edit))
  {
    match edit
    case Create(uri) => if uri !in nodes { CreateMakesNoCycle(nodes, uri); }
    case Reparent(node, parent) =>
      if Reparented(nodes, node, parent).Ok? {
        var next := nodes[node := parent];
        if parent.Some? {
          GuardIsExact(nodes, node, parent.value);
        } else {
          assert Rooted(next, node) by { assert Up(next, node, 1) == None; }
          RootedOffCycle(next, node);
        }
        UnchangedClimbs(nodes, next, node);
      }
  }

  /** Whatever is created and reparented, refused calls included, no cycle appears that was not there at the start. */
  lemma {:induction false} RunMakesNoCycle(nodes: Parents, edits: seq<Edit>)
    ensures OldCyclesOnly(nodes, EditRun(nodes, edits))
    ensures Forest(nodes) ==> Forest(EditRun(nodes, edits))
    decreases edits
  {
    if edits != [] {
      var next := Edited(nodes, edits[0]);
      EditMakesNoCycle(nodes, edits[0]);
      RunMakesNoCycle(next, edits[1..]);
      var last := EditRun(next, edits[1..]);
      forall u: string, n: nat, k: nat | n > 0 && Up(last, u, n) == Some(u) ensures Up(nodes, u, k) == Up(last, u, k) {
        assert Up(next, u, n) == Some(u) && Up(next, u, k) == Up(last, u, k);
      }
    }
    if Forest(nodes) {
      OldCyclesForest(nodes, EditRun(nodes, edits));
    }
  }

  lemma OldCyclesForest(a: Parents, b: Parents)
    requires OldCyclesOnly(a, b) && Forest(a)
    ensures Forest(b)
  {
    forall u ensures !OnParentCycle(b, u) {
      assert OnParentCycle(b, u) ==> OnParentCycle(a, u);
    }
  }

  // ----- what an edit does

  /**
   A reparent is accepted exactly when the node is there, and the new parent, if one is given, is there and neither
   the node itself nor below it. Then the node has that parent, and nothing else has changed.
   */
  lemma ReparentEffect(nodes: Parents, node: string, parent: Option<string>)
    ensures Reparented(nodes, node, parent).Ok? <==>
      node in nodes && (parent.Some? ==> parent.value in nodes && !Above(nodes, parent.value, node))
    ensures var after := Edited(nodes, Reparent(node, parent));
      && after.Keys == nodes.Keys
      && (forall x :: x in nodes && x != node ==> after[x] == nodes[x])
      && (Reparented(nodes, node, parent).Ok? ==> after[node] == ParentOf(after, node) == parent)
      && (Reparented(nodes, node, parent).Err? ==> after == nodes)
    ensures Reparented(nodes, node, parent) == Err(SelfParent) <==> node in nodes && parent == Some(node)
    ensures Reparented(nodes, node, parent) == Err(WouldCycle) <==>
      node in nodes && parent.Some? && parent.value in nodes && parent.value != node && Above(nodes, parent.value, node)
  {
    AboveSelf(nodes, node);
  }

  /** A node is created without a parent, next to what is there; creating it again changes nothing. */
  lemma CreateEffect(nodes: Parents, uri: string)
    ensures var after := Edited(nodes, Create(uri));
      && after.Keys == nodes.Keys + {uri}
      && (uri !in nodes ==> after[uri] == None)
      && (forall x :: x in nodes ==> after[x] == nodes[x])
  {
  }

  /**
   The climbs after an accepted reparent: from the node they go on as the new parent's did; whatever was not below
   the node climbs as before; and whatever was below it still is, and so is below the new parent.
   */
  lemma ReparentClimbs(nodes: Parents, node: string, parent: Option<string>)
    requires Reparented(nodes, node, parent).Ok?
    ensures var after := Edited(nodes, Reparent(node, parent));
      && (forall k: nat :: Up(after, node, k + 1) == if parent.Some? then Up(nodes, parent.value, k) else None)
      && (forall v, k: nat :: !Above(nodes, v, node) ==> Up(after, v, k) == Up(nodes, v, k))
      && (forall v :: Above(nodes, v, node) <==> Above(after, v, node))
      && (parent.Some? ==> forall v :: Above(nodes, v, node) ==> Above(after, v, parent.value))
  {
    var after := Edited(nodes, Reparent(node, parent));
    ReparentEffect(nodes, node, parent);
    assert forall x :: x != node ==> ParentOf(after, x) == ParentOf(nodes, x);
    forall v, k: nat | !Above(nodes, v, node) ensures Up(after, v, k) == Up(nodes, v, k) {
      ClimbElsewhere(nodes, after, node, v, k);
    }
    forall v ensures Above(nodes, v, node) <==> Above(after, v, node) { StillBelow(nodes, after, node, v); }
    if parent.Some? {
      AboveParent(after, node);
      forall v | Above(nodes, v, node) ensures Above(after, v, parent.value) {
        AboveTransitive(after, v, node, parent.value);
      }
    }
  }

  lemma StillBelow(a: Parents, b: Parents, node: string, v: string)
    requires forall x :: x != node ==> ParentOf(a, x) == ParentOf(b, x)
    ensures Above(a, v, node) <==> Above(b, v, node)
  {
    if Above(a, v, node) {
      var n: nat :| Up(a, v, n) == Some(node);
      FirstMeeting(a, b, node, v, n);
    }
    if Above(b, v, node) {
      var n: nat :| Up(b, v, n) == Some(node);
      FirstMeeting(b, a, node, v, n);
    }
  }

  /**
   Moving a node to another parent and back restores the map, exactly when the node was on no cycle and its old parent,
   if it had one stored, is a node.
   */
  lemma ReparentBackIff(nodes: Parents, node: string, parent: Option<string>)
    requires Reparented(nodes, node, parent).Ok? && parent != nodes[node]
    ensures Edited(Edited(nodes, Reparent(node, parent)), Reparent(node, nodes[node])) == nodes <==>
      !OnParentCycle(nodes, node) && ParentOf(nodes, node) == nodes[node]
  {
    var after, before := Edited(nodes, Reparent(node, parent)), nodes[node];
    ReparentEffect(nodes, node, parent);
    ReparentEffect(after, node, before);
    var back := Edited(after, Reparent(node, before));
    if before.Some? && before.value in nodes {
      StillBelow(nodes, after, node, before.value);
      OnCycleIff(nodes, node, before.value);
    } else if before == None {
      assert Up(nodes, node, 1) == None;
      RootedOffCycle(nodes, node);
    }
    assert back == nodes <==> back[node] == nodes[node];
  }

  lemma OnCycleIff(nodes: Parents, node: string, p: string)
    requires ParentOf(nodes, node) == Some(p)
    ensures OnParentCycle(nodes, node) <==> Above(nodes, p, node)
  {
    if OnParentCycle(nodes, node) {
      var n: nat :| n > 0 && Up(nodes, node, n) == Some(node);
      assert Up(nodes, p, n - 1) == Some(node);
    }
    if Above(nodes, p, node) {
      var n: nat :| Up(nodes, p, n) == Some(node);
      assert Up(nodes, node, n + 1) == Some(node);
    }
  }
}
