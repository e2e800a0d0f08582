/** The depth-first cycle detector of manifest and registry. */
module CycleSearch {
  // `_detect_cycle` and `_validate_cycles` share it: two sets, `visited` and `active`, that the nested
  // `dfs` function updates.

  import opened Common
  import opened Digraph

  /** The arrows task -> dependency of a dependency index. */
  function Arrows(deps: map<string, seq<string>>): (g: Graph)
    ensures forall x, y :: (x, y) in g <==> x in deps && y in deps[x]
  {
    set x, y | x in deps && y in deps[x] :: (x, y)
  }

  function Names(deps: map<string, seq<string>>): set<string> {
    deps.Keys + set x, y | x in deps && y in deps[x] :: y
  }

  /**
   What the search knows: the active nodes form a walk (`trail`, outermost first) and
   every finished node depends only on nodes finished before it.
   */
  ghost predicate Consistent(g: Graph, visited: set<string>, active: set<string>, trail: seq<string>,
                             finished: seq<string>) {
    && active == Elements(trail) && NoDuplicates(trail)
    && visited == active + Elements(finished) && active !! Elements(finished)
    && NoDuplicates(finished)
    && (trail != [] ==> Walk(g, trail))
    && ArrowsPointBack(g, finished)
  }

  lemma ActiveAgainIsCycle(g: Graph, trail: seq<string>, node: string)
    requires Walk(g, trail) && node in trail && (trail[|trail| - 1], node) in g
    ensures OnCycle(g, node)
  {
    var i :| 0 <= i < |trail| && trail[i] == node;
    var p := trail[i..] + [node];
    assert Cycle(g, p) && p[0] == node;
  }

  lemma LeaveKeepsConsistent(g: Graph, visited: set<string>, active: set<string>, trail: seq<string>,
                             finished: seq<string>, node: string)
    requires Consistent(g, visited, active, trail + [node], finished)
    requires forall y :: (node, y) in g ==> y in finished
    ensures Consistent(g, visited, active - {node}, trail, finished + [node])
  {
    AppendPointsBack(g, finished, node);
    var longer := trail + [node];
    assert node == longer[|trail|];
    assert forall i :: 0 <= i < |trail| ==> longer[i] == trail[i];
    assert node !in trail;
    assert Elements(longer) == Elements(trail) + {node};
    assert Elements(finished + [node]) == Elements(finished) + {node};
    if trail != [] {
      forall i | 0 <= i < |trail| - 1 ensures (trail[i], trail[i + 1]) in g {
        assert (longer[i], longer[i + 1]) in g;
      }
    }
  }

  class Detector {
    const deps: map<string, seq<string>>
    var visited: set<string>
    var active: set<string>
    ghost var trail: seq<string>     // the active nodes, outermost first
    ghost var finished: seq<string>  // the nodes left for good, in the order they were left

    ghost predicate Valid()
      reads this
    {
      visited <= Names(deps) && Consistent(Arrows(deps), visited, active, trail, finished)
    }

    constructor (deps: map<string, seq<string>>)
      ensures this.deps == deps && Valid() && visited == {} && trail == [] && finished == []
    {
      this.deps := deps;
      visited, active := {}, {};
      trail, finished := [], [];
    }

    /** `dfs(node)`: Some(n) names a node on a cycle; None leaves node and all it needs finished. */
    method Dfs(node: string) returns (cycleAt: Option<string>)
      requires Valid() && node in Names(deps)
      requires trail != [] ==> (trail[|trail| - 1], node) in Arrows(deps)
      modifies this
      ensures cycleAt.Some? ==> OnCycle(Arrows(deps), cycleAt.value)
      ensures cycleAt.None? ==> Valid() && trail == old(trail) && node in finished
      ensures cycleAt.None? ==> old(finished) <= finished
      decreases Names(deps) - visited
    {
      if node in active {
        ActiveAgainIsCycle(Arrows(deps), trail, node);
        return Some(node);
      }
      if node in visited {
        return None;
      }
      ghost var trail0, finished0 := trail, finished;
      visited := visited + {node};
      active := active + {node};
      trail := trail + [node];
      var out := if node in deps then deps[node] else [];
      for k := 0 to |out|
        invariant Valid() && trail == trail0 + [node] && finished0 <= finished
        invariant old(visited) + {node} <= visited
        invariant forall j :: 0 <= j < k ==> out[j] in finished
      {
        assert (node, out[k]) in Arrows(deps) && out[k] in Names(deps);
        cycleAt := Dfs(out[k]);
        if cycleAt.Some? {
          return;
        }
      }
      LeaveKeepsConsistent(Arrows(deps), visited, active, trail0, finished, node);
      active := active - {node};
      trail := trail[..|trail| - 1];
      finished := finished + [node];
      return None;
    }
  }

  /** `_detect_cycle(depends_index)` */
  method DetectCycle(deps: map<string, seq<string>>) returns (cycleAt: Option<string>)
    ensures cycleAt.None? <==> Acyclic(Arrows(deps))
    ensures cycleAt.Some? ==> OnCycle(Arrows(deps), cycleAt.value)
  {
    var search := new Detector(deps);
    var rest := deps.Keys;
    while rest != {}
      invariant search.Valid() && search.deps == deps && search.trail == []
      invariant rest <= deps.Keys && deps.Keys - rest <= Elements(search.finished)
      invariant fresh(search)
      decreases rest
    {
      var node :| node in rest;
      cycleAt := search.Dfs(node);
      if cycleAt.Some? {
        return;
      }
      rest := rest - {node};
    }
    forall x, y | (x, y) in Arrows(deps) ensures x in search.finished {
      assert x in deps.Keys - rest;
    }
    ListedMeansAcyclic(Arrows(deps), search.finished);
    return None;
  }
}
