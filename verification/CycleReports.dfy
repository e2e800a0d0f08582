/** Parent cycles (scene_render_projector.py). */
module CycleReports {
  // `_integrity_issues`: a three-colour depth-first walk up the parent links. 0 (absent) is unvisited,
  // 1 on the current path, 2 left.

  import opened Common
  import opened ParentMap
  import opened Ordering

  /** The list follows parent links, comes back to where it began, and repeats nothing before. */
  ghost predicate RealCycle(nodes: Parents, c: seq<string>) {
    && |c| >= 2 && c[0] == c[|c| - 1]
    && (forall i :: 0 <= i < |c| - 1 ==> ParentOf(nodes, c[i]) == Some(c[i + 1]))
    && NoDuplicates(c[..|c| - 1])
  }

  /** All nodes met by climbing from u, u included. */
  ghost function Orbit(nodes: Parents, u: string): set<string> {
    set v | v in nodes && Above(nodes, u, v)
  }

  ghost predicate InSomeReport(cycles: seq<seq<string>>, u: string) {
    exists i :: 0 <= i < |cycles| && u in cycles[i]
  }

  ghost predicate Disjoint(cycles: seq<seq<string>>) {
    forall i, j, u :: 0 <= i < j < |cycles| && u in cycles[i] ==> u !in cycles[j]
  }

  ghost predicate Is(color: map<string, int>, u: string, shade: int) {
    u in color && color[u] == shade
  }

  /** True at every moment of the walk. */
  ghost predicate Walking(nodes: Parents, color: map<string, int>, path: seq<string>, cycles: seq<seq<string>>) {
    && color.Keys <= nodes.Keys && (forall u :: u in color ==> color[u] == 1 || color[u] == 2)
    && NoDuplicates(path) && (forall u :: u in path <==> Is(color, u, 1))
    && (forall i :: 0 <= i < |path| - 1 ==> ParentOf(nodes, path[i]) == Some(path[i + 1]))
    && (forall i :: 0 <= i < |cycles| ==> RealCycle(nodes, cycles[i]))
    && Disjoint(cycles)
    && (forall u :: Is(color, u, 2) && OnParentCycle(nodes, u) ==> InSomeReport(cycles, u))
  }

  /** On the way up: what has been left is closed under parents, and every report lies inside it. */
  ghost predicate Descending(nodes: Parents, color: map<string, int>, path: seq<string>, cycles: seq<seq<string>>) {
    && Walking(nodes, color, path, cycles)
    && (forall u :: Is(color, u, 2) && ParentOf(nodes, u).Some? ==> Is(color, ParentOf(nodes, u).value, 2))
    && (forall i, u :: 0 <= i < |cycles| && u in cycles[i] ==> Is(color, u, 2))
  }

  /** On the way back: parents of left nodes, and reported nodes, are at least on the path. */
  ghost predicate Returning(nodes: Parents, color: map<string, int>, path: seq<string>, cycles: seq<seq<string>>) {
    && Walking(nodes, color, path, cycles)
    && (forall u :: Is(color, u, 2) && ParentOf(nodes, u).Some? ==> ParentOf(nodes, u).value in color)
    && (forall i, u :: 0 <= i < |cycles| && u in cycles[i] ==> u in color)
  }

  /** A report is closed under parents. */
  lemma RealCycleClosed(nodes: Parents, c: seq<string>, u: string)
    requires RealCycle(nodes, c) && u in c
    ensures ParentOf(nodes, u).Some? && ParentOf(nodes, u).value in c
  {
    var i :| 0 <= i < |c| && c[i] == u;
    if i == |c| - 1 {
      assert ParentOf(nodes, c[0]) == Some(c[1]);
    } else {
      assert ParentOf(nodes, c[i]) == Some(c[i + 1]);
    }
  }

  lemma {:induction false} RealCycleClimb(nodes: Parents, c: seq<string>, i: nat, n: nat)
    requires RealCycle(nodes, c) && i + n < |c|
    ensures Up(nodes, c[i], n) == Some(c[i + n])
    decreases n
  {
    if n > 0 { RealCycleClimb(nodes, c, i + 1, n - 1); }
  }

  /** A report is the whole orbit of each of its nodes, and they are all on a cycle. */
  lemma RealCycleIsOrbit(nodes: Parents, c: seq<string>, u: string)
    requires RealCycle(nodes, c) && u in c
    ensures OnParentCycle(nodes, u) && Elements(c) == Orbit(nodes, u)
  {
    var i :| 0 <= i < |c| && c[i] == u;
    RealCycleClimb(nodes, c, i, |c| - 1 - i);
    RealCycleClimb(nodes, c, 0, i);
    RealCycleClimb(nodes, c, 0, |c| - 1);
    assert OnParentCycle(nodes, c[0]);
    assert Above(nodes, c[0], u) && Above(nodes, u, c[0]);
    CycleReturns(nodes, c[0], u);
    forall v ensures v in Elements(c) <==> v in Orbit(nodes, u) {
      if v in c {
        var j :| 0 <= j < |c| && c[j] == v;
        RealCycleClimb(nodes, c, 0, j);
        assert Above(nodes, c[0], v);
        AboveTransitive(nodes, u, c[0], v);
        RealCycleClosed(nodes, c, v);
      }
      if v in Orbit(nodes, u) {
        forall x | x in Elements(c) && ParentOf(nodes, x).Some? ensures ParentOf(nodes, x).value in Elements(c) {
          RealCycleClosed(nodes, c, x);
        }
        var n: nat :| Up(nodes, u, n) == Some(v);
        ClosedHoldsAncestors(nodes, Elements(c), u, n);
      }
    }
  }

  // ----- the four ways a visit can go

  /** A node on a cycle has its parent on it, and the parent leads back. */
  lemma CycleParent(nodes: Parents, u: string)
    requires OnParentCycle(nodes, u)
    ensures ParentOf(nodes, u).Some?
    ensures OnParentCycle(nodes, ParentOf(nodes, u).value) && Above(nodes, ParentOf(nodes, u).value, u)
  {
    var n: nat :| n > 0 && Up(nodes, u, n) == Some(u);
    AboveParent(nodes, u);
    CycleReturns(nodes, u, ParentOf(nodes, u).value);
  }

  lemma LeftParentNoCycle(nodes: Parents, color: map<string, int>, path: seq<string>, cycles: seq<seq<string>>,
                          u: string)
    requires Descending(nodes, color, path, cycles) && !Is(color, u, 2)
    requires ParentOf(nodes, u).Some? && Is(color, ParentOf(nodes, u).value, 2)
    ensures !OnParentCycle(nodes, u)
  {
    if OnParentCycle(nodes, u) {
      CycleParent(nodes, u);
      var left := set x | x in color && color[x] == 2;
      var p := ParentOf(nodes, u).value;
      var n: nat :| Up(nodes, p, n) == Some(u);
      ClosedHoldsAncestors(nodes, left, p, n);
    }
  }

  lemma ReportedParentReports(nodes: Parents, cycles: seq<seq<string>>, u: string)
    requires forall i :: 0 <= i < |cycles| ==> RealCycle(nodes, cycles[i])
    requires OnParentCycle(nodes, u) && ParentOf(nodes, u).Some? && InSomeReport(cycles, ParentOf(nodes, u).value)
    ensures InSomeReport(cycles, u)
  {
    CycleParent(nodes, u);
    var p := ParentOf(nodes, u).value;
    var i :| 0 <= i < |cycles| && p in cycles[i];
    RealCycleIsOrbit(nodes, cycles[i], p);
    UpInNodesOf(nodes, u);
    assert u in Orbit(nodes, p);
    assert u in Elements(cycles[i]);
  }

  /** Once the parent has been left, a node on a cycle is in a report. */
  lemma LeftParentReports(nodes: Parents, color: map<string, int>, path: seq<string>, cycles: seq<seq<string>>,
                          u: string)
    requires Walking(nodes, color, path, cycles)
    requires ParentOf(nodes, u).Some? && Is(color, ParentOf(nodes, u).value, 2)
    ensures OnParentCycle(nodes, u) ==> InSomeReport(cycles, u)
  {
    if OnParentCycle(nodes, u) {
      CycleParent(nodes, u);
      ReportedParentReports(nodes, cycles, u);
    }
  }

  lemma UpInNodesOf(nodes: Parents, u: string)
    requires ParentOf(nodes, u).Some?
    ensures u in nodes
  {
  }

  lemma PathClosesCycle(nodes: Parents, path: seq<string>, start: nat)
    requires start < |path| && NoDuplicates(path)
    requires forall i :: 0 <= i < |path| - 1 ==> ParentOf(nodes, path[i]) == Some(path[i + 1])
    requires ParentOf(nodes, path[|path| - 1]) == Some(path[start])
    ensures RealCycle(nodes, path[start..] + [path[start]])
  {
    var c := path[start..] + [path[start]];
    assert c[..|c| - 1] == path[start..];
    forall i | 0 <= i < |c| - 1 ensures ParentOf(nodes, c[i]) == Some(c[i + 1]) {
      assert c[i] == path[start + i];
      if i + 1 < |c| - 1 { assert c[i + 1] == path[start + i + 1]; }
    }
  }

  lemma EnterVisit(nodes: Parents, color: map<string, int>, path: seq<string>, cycles: seq<seq<string>>, u: string)
    requires Descending(nodes, color, path, cycles) && u in nodes && u !in color
    requires path != [] ==> ParentOf(nodes, path[|path| - 1]) == Some(u)
    ensures Descending(nodes, color[u := 1], path + [u], cycles)
  {
    var next, longer := color[u := 1], path + [u];
    assert !Is(color, u, 1) && u !in path;
    assert forall x :: Is(next, x, 2) <==> Is(color, x, 2);
    assert forall x :: x in longer <==> x in path || x == u;
  }

  lemma DescendingReturns(nodes: Parents, color: map<string, int>, path: seq<string>, cycles: seq<seq<string>>)
    requires Descending(nodes, color, path, cycles)
    ensures Returning(nodes, color, path, cycles)
  {
    forall i, u | 0 <= i < |cycles| && u in cycles[i] ensures u in color { assert Is(color, u, 2); }
    forall u | Is(color, u, 2) && ParentOf(nodes, u).Some? ensures ParentOf(nodes, u).value in color {
      assert Is(color, ParentOf(nodes, u).value, 2);
    }
  }

  /** Back at the top the path is empty, so everything coloured has been left. */
  lemma ReturnedDescends(nodes: Parents, color: map<string, int>, cycles: seq<seq<string>>)
    requires Returning(nodes, color, [], cycles)
    ensures Descending(nodes, color, [], cycles)
  {
    forall u | u in color ensures Is(color, u, 2) {
      assert !Is(color, u, 1);
    }
  }

  /** The cycle just closed lies on the path, so it shares no node with an earlier report. */
  lemma ClosedOnPath(nodes: Parents, color: map<string, int>, path: seq<string>, cycles: seq<seq<string>>,
                     c: seq<string>, start: nat)
    requires Descending(nodes, color, path, cycles) && start < |path| && c == path[start..] + [path[start]]
    ensures forall x :: x in c ==> Is(color, x, 1)
    ensures forall i, x :: 0 <= i < |cycles| && x in cycles[i] ==> x !in c
  {
    forall x | x in c ensures Is(color, x, 1) {
      var k :| 0 <= k < |c| && c[k] == x;
      if k < |c| - 1 { assert x == path[start + k]; }
      assert x in path;
    }
    forall i, x | 0 <= i < |cycles| && x in cycles[i] ensures x !in c {
      assert Is(color, x, 2);
    }
  }

  lemma MoreReports(cycles: seq<seq<string>>, c: seq<string>)
    requires Disjoint(cycles) && forall i, x :: 0 <= i < |cycles| && x in cycles[i] ==> x !in c
    ensures Disjoint(cycles + [c])
    ensures forall u :: InSomeReport(cycles + [c], u) <==> InSomeReport(cycles, u) || u in c
  {
    var more := cycles + [c];
    forall u ensures InSomeReport(more, u) <==> InSomeReport(cycles, u) || u in c {
      if InSomeReport(cycles, u) {
        var i :| 0 <= i < |cycles| && u in cycles[i];
        assert more[i] == cycles[i];
      }
      if u in c { assert more[|cycles|] == c; }
    }
  }

  lemma AddReport(nodes: Parents, color: map<string, int>, path: seq<string>, cycles: seq<seq<string>>, start: nat)
    requires Descending(nodes, color, path, cycles) && start < |path|
    requires ParentOf(nodes, path[|path| - 1]) == Some(path[start])
    ensures Returning(nodes, color, path, cycles + [path[start..] + [path[start]]])
    ensures InSomeReport(cycles + [path[start..] + [path[start]]], path[|path| - 1])
    ensures forall i :: 0 <= i < |cycles| ==> Elements(cycles[i]) != Elements(path[start..] + [path[start]])
  {
    var c := path[start..] + [path[start]];
    PathClosesCycle(nodes, path, start);
    DescendingReturns(nodes, color, path, cycles);
    ClosedOnPath(nodes, color, path, cycles, c, start);
    MoreReports(cycles, c);
    assert c[|c| - 2] == path[|path| - 1] && path[|path| - 1] in c;
    forall i | 0 <= i < |cycles| ensures Elements(cycles[i]) != Elements(c) {
      assert cycles[i][0] in cycles[i];
      assert cycles[i][0] in Elements(cycles[i]);
    }
  }

  lemma LeaveVisit(nodes: Parents, color: map<string, int>, path: seq<string>, cycles: seq<seq<string>>, u: string)
    requires Returning(nodes, color, path + [u], cycles)
    requires ParentOf(nodes, u).Some? ==> ParentOf(nodes, u).value in color
    requires OnParentCycle(nodes, u) ==> InSomeReport(cycles, u)
    ensures Returning(nodes, color[u := 2], path, cycles)
  {
    var longer := path + [u];
    assert longer[|path|] == u;
    assert forall i :: 0 <= i < |path| ==> longer[i] == path[i];
    forall x ensures x in path <==> Is(color[u := 2], x, 1) {
      assert x in longer <==> x in path || x == u;
    }
    assert u !in path && Is(color, u, 1);
    forall x | Is(color[u := 2], x, 2) && x != u ensures Is(color, x, 2) { }
  }

  ghost predicate KeysOf(keys: set<set<string>>, cycles: seq<seq<string>>) {
    forall key :: key in keys <==> exists i :: 0 <= i < |cycles| && Elements(cycles[i]) == key
  }

  lemma KeysGrow(keys: set<set<string>>, cycles: seq<seq<string>>, cycle: seq<string>)
    requires KeysOf(keys, cycles)
    ensures KeysOf(keys + {Elements(cycle)}, cycles + [cycle])
  {
    var more := cycles + [cycle];
    forall k ensures k in keys + {Elements(cycle)} <==> exists i :: 0 <= i < |more| && Elements(more[i]) == k {
      if k == Elements(cycle) { assert Elements(more[|cycles|]) == k; }
      if exists i :: 0 <= i < |cycles| && Elements(cycles[i]) == k {
        var i :| 0 <= i < |cycles| && Elements(cycles[i]) == k;
        assert more[i] == cycles[i];
      }
    }
  }

  class IntegrityChecker {
    const nodes: Parents
    var color: map<string, int>
    var path: seq<string>
    var cycleKeys: set<set<string>>
    var cycles: seq<seq<string>>

    constructor (nodes: Parents)
      ensures this.nodes == nodes && color == map[] && path == [] && cycleKeys == {} && cycles == []
    {
      this.nodes := nodes;
      color, path, cycleKeys, cycles := map[], [], {}, [];
    }

    /** The keys already used are the node sets of the reports (a sorted tuple of a set stands for the set). */
    ghost predicate KeysAgree()
      reads this
    {
      KeysOf(cycleKeys, cycles)
    }

    /** The search for the parent's place on the path. */
    method PlaceOnPath(p: string) returns (start: nat)
      requires p in path
      ensures start < |path| && path[start] == p
    {
      start := 0;
      for i := 0 to |path|
        invariant start == 0 && p in path[i..]
      {
        if path[i] == p {
          return i;
        }
        assert path[i..] == [path[i]] + path[i + 1..];
      }
    }

    method Report(p: string)
      requires Descending(nodes, color, path, cycles) && KeysAgree()
      requires path != [] && ParentOf(nodes, path[|path| - 1]) == Some(p) && p in path
      modifies this`cycles, this`cycleKeys
      ensures Returning(nodes, color, path, cycles) && KeysAgree()
      ensures InSomeReport(cycles, path[|path| - 1])
    {
      var start := PlaceOnPath(p);
      var cycle := path[start..] + [p];
      AddReport(nodes, color, path, cycles, start);
      var key := set x | x in cycle;
      assert key == Elements(cycle);
      if key !in cycleKeys {
        KeysGrow(cycleKeys, cycles, cycle);
        cycleKeys := cycleKeys + {key};
        cycles := cycles + [cycle];
      }
    }

    method Visit(u: string)
      requires Descending(nodes, color, path, cycles) && KeysAgree()
      requires u in nodes && u !in color
      requires path != [] ==> ParentOf(nodes, path[|path| - 1]) == Some(u)
      modifies this
      ensures Returning(nodes, color, path, cycles) && KeysAgree()
      ensures path == old(path) && Is(color, u, 2)
      ensures forall x :: x in old(color) ==> x in color
      decreases nodes.Keys - color.Keys
    {
      ghost var before := path;
      EnterVisit(nodes, color, path, cycles, u);
      color := color[u := 1];
      path := path + [u];
      DescendingReturns(nodes, color, path, cycles);
      assert u in nodes.Keys - old(color).Keys && u in color;
      var parent := nodes[u];
      if parent.Some? && parent.value in nodes {
        var p := parent.value;
        var state := if p in color then color[p] else 0;
        if state == 0 {
          Visit(p);
          LeftParentReports(nodes, color, path, cycles, u);
        } else if state == 1 {
          Report(p);
        } else {
          LeftParentNoCycle(nodes, color, path, cycles, u);
        }
      } else if OnParentCycle(nodes, u) {
        CycleParent(nodes, u);
      }
      LeaveVisit(nodes, color, before, cycles, u);
      path := path[..|path| - 1];
      color := color[u := 2];
    }
  }

  /**
   The `parent_cycle` entries of the issue list: every entry is a real cycle, no node
   is in two entries, and every node on a cycle is in one, which is its whole orbit.
   */
  method ParentCycles(nodes: Parents) returns (cycles: seq<seq<string>>)
    ensures forall i :: 0 <= i < |cycles| ==> RealCycle(nodes, cycles[i])
    ensures Disjoint(cycles)
    ensures forall u :: OnParentCycle(nodes, u) <==> InSomeReport(cycles, u)
    ensures forall i, u :: 0 <= i < |cycles| && u in cycles[i] ==> Elements(cycles[i]) == Orbit(nodes, u)
    ensures cycles == [] <==> Forest(nodes)
  {
    var checker := new IntegrityChecker(nodes);
    var uris := SortedKeys(nodes.Keys);
    for k := 0 to |uris|
      invariant fresh(checker) && checker.nodes == nodes && checker.path == []
      invariant Descending(nodes, checker.color, checker.path, checker.cycles) && checker.KeysAgree()
      invariant forall j :: 0 <= j < k ==> uris[j] in checker.color
    {
      assert uris[k] in Elements(uris);
      if uris[k] !in checker.color {
        checker.Visit(uris[k]);
        ReturnedDescends(nodes, checker.color, checker.cycles);
      }
    }
    cycles := checker.cycles;
    forall u ensures OnParentCycle(nodes, u) <==> InSomeReport(cycles, u) {
      if OnParentCycle(nodes, u) {
        CycleParent(nodes, u);
        assert u in Elements(uris);
        assert u in checker.color && !Is(checker.color, u, 1) && Is(checker.color, u, 2);
      }
      if InSomeReport(cycles, u) {
        var i :| 0 <= i < |cycles| && u in cycles[i];
        RealCycleIsOrbit(nodes, cycles[i], u);
      }
    }
    forall i, u | 0 <= i < |cycles| && u in cycles[i] ensures Elements(cycles[i]) == Orbit(nodes, u) {
      RealCycleIsOrbit(nodes, cycles[i], u);
    }
    if cycles != [] { assert InSomeReport(cycles, cycles[0][0]); }
  }
}
