/** `topological_order` (tools/solis_task_manifest.py). */
module Kahn {
  // Kahn's algorithm over the rows of a manifest. Rows may repeat an id or a dependency and may name
  // unknown tasks; the contract says exactly what comes out in every case.

  import opened Common
  import opened Digraph
  import opened Ordering
  import Sorting

  datatype Job = Job(id: string, deps: seq<string>)
  datatype SortError = DependencyCycle

  function Ids(jobs: seq<Job>): (r: set<string>)
    ensures forall i :: 0 <= i < |jobs| ==> jobs[i].id in r
  {
    set i | 0 <= i < |jobs| :: jobs[i].id
  }

  /** The arrows task -> dependency. */
  ghost function Needs(jobs: seq<Job>): Graph {
    set i, d | 0 <= i < |jobs| && d in jobs[i].deps :: (jobs[i].id, d)
  }

  ghost predicate AllDepsKnown(jobs: seq<Job>) {
    forall x, d :: (x, d) in Needs(jobs) ==> d in Ids(jobs)
  }

  /** Every task once, every dependency before its dependents. */
  ghost predicate TopologicalListing(jobs: seq<Job>, order: seq<string>) {
    && NoDuplicates(order) && Elements(order) == Ids(jobs)
    && ArrowsPointBack(Needs(jobs), order)
  }

  // ----- the arrows as a list of (dependency, task) pairs, in the order the loops meet them

  type Edge = (string, string)

  ghost function JobEdges(id: string, deps: seq<string>): seq<Edge> {
    seq(|deps|, i requires 0 <= i < |deps| => (deps[i], id))
  }

  ghost function Edges(jobs: seq<Job>): seq<Edge> {
    if jobs == [] then []
    else Edges(jobs[..|jobs| - 1]) + JobEdges(jobs[|jobs| - 1].id, jobs[|jobs| - 1].deps)
  }

  /** `graph[d]`: the tasks waiting on d, with repetitions. */
  ghost function Targets(edges: seq<Edge>, d: string): seq<string> {
    if edges == [] then []
    else
      var n := |edges| - 1;
      Targets(edges[..n], d) + if edges[n].0 == d then [edges[n].1] else []
  }

  /** How many of x's dependency entries are not done yet. */
  ghost function Pending(edges: seq<Edge>, done: set<string>, x: string): nat {
    if edges == [] then 0
    else
      var n := |edges| - 1;
      Pending(edges[..n], done, x) + if edges[n].1 == x && edges[n].0 !in done then 1 else 0
  }

  lemma OneMoreEdge(edges: seq<Edge>, e: Edge)
    ensures forall d :: Targets(edges + [e], d) == Targets(edges, d) + if e.0 == d then [e.1] else []
    ensures forall done, x ::
      Pending(edges + [e], done, x) == Pending(edges, done, x) + if e.1 == x && e.0 !in done then 1 else 0
  {
    assert (edges + [e])[..|edges|] == edges;
  }

  /** Doing d releases x once for every entry x has on d. */
  lemma {:induction false} DoneReleases(edges: seq<Edge>, done: set<string>, d: string, x: string)
    requires d !in done
    ensures Pending(edges, done, x) == Pending(edges, done + {d}, x) + multiset(Targets(edges, d))[x]
  {
    if edges != [] {
      DoneReleases(edges[..|edges| - 1], done, d, x);
    }
  }

  lemma {:induction false} NothingPending(edges: seq<Edge>, done: set<string>, x: string)
    ensures Pending(edges, done, x) == 0 <==> forall i :: 0 <= i < |edges| && edges[i].1 == x ==> edges[i].0 in done
  {
    if edges != [] {
      var n := |edges| - 1;
      NothingPending(edges[..n], done, x);
      assert forall i :: 0 <= i < n ==> edges[..n][i] == edges[i];
    }
  }

  lemma {:induction false} EdgesAreNeeds(jobs: seq<Job>)
    ensures forall i :: 0 <= i < |Edges(jobs)| ==> (Edges(jobs)[i].1, Edges(jobs)[i].0) in Needs(jobs)
    ensures forall x, d :: (x, d) in Needs(jobs) ==> exists i :: 0 <= i < |Edges(jobs)| && Edges(jobs)[i] == (d, x)
  {
    if jobs != [] {
      var n := |jobs| - 1;
      var front, last := jobs[..n], jobs[n];
      EdgesAreNeeds(front);
      var m := |Edges(front)|;
      assert forall i :: 0 <= i < m ==> Edges(jobs)[i] == Edges(front)[i];
      assert forall i :: 0 <= i < n ==> front[i] == jobs[i];
      forall i | 0 <= i < |Edges(jobs)| ensures (Edges(jobs)[i].1, Edges(jobs)[i].0) in Needs(jobs) {
        if i < m {
          assert (Edges(front)[i].1, Edges(front)[i].0) in Needs(front);
        } else {
          assert Edges(jobs)[i] == (last.deps[i - m], last.id);
        }
      }
      forall x, d | (x, d) in Needs(jobs)
        ensures exists i :: 0 <= i < |Edges(jobs)| && Edges(jobs)[i] == (d, x)
      {
        var j :| 0 <= j < |jobs| && d in jobs[j].deps && x == jobs[j].id;
        if j < n {
          assert d in front[j].deps && (x, d) in Needs(front);
        } else {
          var k :| 0 <= k < |last.deps| && last.deps[k] == d;
          assert Edges(jobs)[m + k] == (d, x);
        }
      }
    }
  }

  lemma {:induction false} TargetsAreTasks(edges: seq<Edge>, d: string, ids: set<string>)
    requires forall i :: 0 <= i < |edges| ==> edges[i].1 in ids
    ensures forall x :: x in Targets(edges, d) ==> x in ids
  {
    if edges != [] {
      TargetsAreTasks(edges[..|edges| - 1], d, ids);
    }
  }

  // ----- the two phases of the source

  ghost predicate Tallied(edges: seq<Edge>, ids: set<string>,
                          graph: map<string, seq<string>>, indegree: map<string, int>) {
    && indegree.Keys == ids
    && (forall d :: (if d in graph then graph[d] else []) == Targets(edges, d))
    && forall x :: x in ids ==> indegree[x] == Pending(edges, {}, x)
  }

  lemma TallyOneMore(edges: seq<Edge>, ids: set<string>, graph: map<string, seq<string>>, indegree: map<string, int>,
                     dep: string, id: string)
    requires Tallied(edges, ids, graph, indegree) && id in ids
    ensures Tallied(edges + [(dep, id)], ids, graph[dep := (if dep in graph then graph[dep] else []) + [id]],
                    indegree[id := indegree[id] + 1])
  {
    OneMoreEdge(edges, (dep, id));
  }

  ghost function EdgesSoFar(edges: seq<Edge>, job: Job, k: nat): seq<Edge>
    requires k <= |job.deps|
  {
    edges + JobEdges(job.id, job.deps)[..k]
  }

  lemma EdgesSoFarStep(edges: seq<Edge>, job: Job, k: nat)
    requires k < |job.deps|
    ensures EdgesSoFar(edges, job, k + 1) == EdgesSoFar(edges, job, k) + [(job.deps[k], job.id)]
  {
  }

  lemma EdgesSoFarEnds(edges: seq<Edge>, job: Job)
    ensures EdgesSoFar(edges, job, 0) == edges
    ensures EdgesSoFar(edges, job, |job.deps|) == edges + JobEdges(job.id, job.deps)
  {
  }

  method TallyJob(job: Job, graph0: map<string, seq<string>>, indegree0: map<string, int>, ghost edges: seq<Edge>,
                  ghost ids: set<string>)
    returns (graph: map<string, seq<string>>, indegree: map<string, int>)
    requires Tallied(edges, ids, graph0, indegree0) && job.id in ids
    ensures Tallied(edges + JobEdges(job.id, job.deps), ids, graph, indegree)
  {
    graph, indegree := graph0, indegree0;
    ghost var seen := edges;
    EdgesSoFarEnds(edges, job);
    for k := 0 to |job.deps|
      invariant seen == EdgesSoFar(edges, job, k)
      invariant Tallied(seen, ids, graph, indegree)
    {
      TallyOneMore(seen, ids, graph, indegree, job.deps[k], job.id);
      EdgesSoFarStep(edges, job, k);
      seen := seen + [(job.deps[k], job.id)];
      graph := graph[job.deps[k] := (if job.deps[k] in graph then graph[job.deps[k]] else []) + [job.id]];
      indegree := indegree[job.id := indegree[job.id] + 1];
    }
  }

  method Tally(jobs: seq<Job>) returns (graph: map<string, seq<string>>, indegree: map<string, int>)
    ensures Tallied(Edges(jobs), Ids(jobs), graph, indegree)
  {
    graph, indegree := map[], map x | x in Ids(jobs) :: 0;
    for i := 0 to |jobs|
      invariant Tallied(Edges(jobs[..i]), Ids(jobs), graph, indegree)
    {
      assert jobs[..i + 1][..i] == jobs[..i];
      graph, indegree := TallyJob(jobs[i], graph, indegree, Edges(jobs[..i]), Ids(jobs));
    }
    assert jobs[..|jobs|] == jobs;
  }

  /** Between pops: `owed` are the releases of the node just popped still to be made. */
  ghost predicate Sweeping(edges: seq<Edge>, ids: set<string>, indegree: map<string, int>,
                           ordered: seq<string>, queue: seq<string>, owed: multiset<string>) {
    && indegree.Keys == ids
    && NoDuplicates(ordered + queue)
    && (forall x :: x in ordered + queue ==> x in ids)
    && (forall x :: x in ids ==> indegree[x] == Pending(edges, Elements(ordered), x) + owed[x])
    && (forall x :: x in ids ==> (indegree[x] == 0 <==> x in ordered + queue))
  }

  lemma PopKeepsSweeping(edges: seq<Edge>, ids: set<string>, indegree: map<string, int>,
                         ordered: seq<string>, queue: seq<string>)
    requires queue != [] && Sweeping(edges, ids, indegree, ordered, queue, multiset{})
    ensures Sweeping(edges, ids, indegree, ordered + [queue[0]], queue[1..], multiset(Targets(edges, queue[0])))
  {
    var node := queue[0];
    assert ordered + queue == ordered + [node] + queue[1..];
    assert (ordered + queue)[|ordered|] == node;
    assert node !in ordered by {
      assert forall i :: 0 <= i < |ordered| ==> (ordered + queue)[i] == ordered[i];
    }
    assert Elements(ordered + [node]) == Elements(ordered) + {node};
    forall x | x in ids
      ensures indegree[x] == Pending(edges, Elements(ordered + [node]), x) + multiset(Targets(edges, node))[x]
    {
      DoneReleases(edges, Elements(ordered), node, x);
    }
  }

  lemma ReleaseKeepsSweeping(edges: seq<Edge>, ids: set<string>, indegree: map<string, int>,
                             ordered: seq<string>, queue: seq<string>, owed: multiset<string>, x: string)
    requires Sweeping(edges, ids, indegree, ordered, queue, owed)
    requires x in owed && x in ids
    ensures indegree[x] > 0
    ensures Sweeping(edges, ids, indegree[x := indegree[x] - 1], ordered,
                     if indegree[x] == 1 then queue + [x] else queue, owed - multiset{x})
  {
    assert x !in ordered + queue;
    assert ordered + (queue + [x]) == ordered + queue + [x];
  }

  lemma PoppedDepsAreDone(jobs: seq<Job>, indegree: map<string, int>, ordered: seq<string>, queue: seq<string>)
    requires queue != [] && Sweeping(Edges(jobs), Ids(jobs), indegree, ordered, queue, multiset{})
    requires ArrowsPointBack(Needs(jobs), ordered)
    ensures ArrowsPointBack(Needs(jobs), ordered + [queue[0]])
  {
    var node := queue[0];
    assert (ordered + queue)[|ordered|] == node && node in ordered + queue;
    NothingPending(Edges(jobs), Elements(ordered), node);
    EdgesAreNeeds(jobs);
    AppendPointsBack(Needs(jobs), ordered, node);
  }

  lemma SomethingLeft(ids: set<string>, ordered: seq<string>)
    requires |ordered| < |ids|
    ensures ids - Elements(ordered) != {}
  {
    ElementsNoLarger(ordered);
    assert ids <= Elements(ordered) + (ids - Elements(ordered));
    if ids - Elements(ordered) == {} { SubsetSize(ids, Elements(ordered)); }
  }

  /** What is left when the queue runs dry is exactly what a cycle or an unknown name holds back. */
  lemma StuckIffCycleOrUnknown(jobs: seq<Job>, indegree: map<string, int>, ordered: seq<string>)
    requires Sweeping(Edges(jobs), Ids(jobs), indegree, ordered, [], multiset{})
    requires ArrowsPointBack(Needs(jobs), ordered)
    ensures |ordered| == |Ids(jobs)| <==> AllDepsKnown(jobs) && Acyclic(Needs(jobs))
    ensures |ordered| == |Ids(jobs)| ==> TopologicalListing(jobs, ordered)
  {
    assert ordered + [] == ordered;
    DistinctFitsInSet(ordered, Ids(jobs));
    EdgesAreNeeds(jobs);
    if |ordered| == |Ids(jobs)| {
      forall x, d | (x, d) in Needs(jobs) ensures x in ordered && d in Ids(jobs) {
        assert x in Ids(jobs);
        var i :| 0 <= i < |ordered| && ordered[i] == x;
        assert (ordered[i], d) in Needs(jobs);
      }
      ListedMeansAcyclic(Needs(jobs), ordered);
    } else if AllDepsKnown(jobs) {
      var left := Ids(jobs) - Elements(ordered);
      SomethingLeft(Ids(jobs), ordered);
      forall x | x in left ensures exists y :: y in left && (x, y) in Needs(jobs) {
        NothingPending(Edges(jobs), Elements(ordered), x);
        var i :| 0 <= i < |Edges(jobs)| && Edges(jobs)[i].1 == x && Edges(jobs)[i].0 !in ordered;
        assert (x, Edges(jobs)[i].0) in Needs(jobs);
      }
      var p := CycleInside(Needs(jobs), left);
    }
  }

  lemma ReleaseNext(edges: seq<Edge>, ids: set<string>, indegree: map<string, int>, ordered: seq<string>,
                    queue: seq<string>, out: seq<string>, k: nat)
    requires k < |out| && out[k] in ids && Sweeping(edges, ids, indegree, ordered, queue, multiset(out[k..]))
    ensures out[k] in indegree
    ensures var left := indegree[out[k]] - 1;
      Sweeping(edges, ids, indegree[out[k] := left], ordered, if left == 0 then queue + [out[k]] else queue,
               multiset(out[k + 1..]))
  {
    assert out[k..] == [out[k]] + out[k + 1..];
    assert multiset(out[k..]) - multiset{out[k]} == multiset(out[k + 1..]);
    ReleaseKeepsSweeping(edges, ids, indegree, ordered, queue, multiset(out[k..]), out[k]);
  }

  /** The inner loop: release everything that waited on the node just popped. */
  method Release(out: seq<string>, indegree0: map<string, int>, queue0: seq<string>,
                 ghost edges: seq<Edge>, ghost ids: set<string>, ghost ordered: seq<string>)
    returns (indegree: map<string, int>, queue: seq<string>)
    requires Sweeping(edges, ids, indegree0, ordered, queue0, multiset(out))
    requires forall x :: x in out ==> x in ids
    ensures Sweeping(edges, ids, indegree, ordered, queue, multiset{})
  {
    indegree, queue := indegree0, queue0;
    assert out[0..] == out;
    for k := 0 to |out|
      invariant Sweeping(edges, ids, indegree, ordered, queue, multiset(out[k..]))
    {
      ReleaseNext(edges, ids, indegree, ordered, queue, out, k);
      indegree := indegree[out[k] := indegree[out[k]] - 1];
      if indegree[out[k]] == 0 {
        queue := queue + [out[k]];
      }
    }
  }

  lemma TalliedTargets(jobs: seq<Job>, graph: map<string, seq<string>>, indegree: map<string, int>, node: string)
    requires Tallied(Edges(jobs), Ids(jobs), graph, indegree)
    ensures var out := if node in graph then graph[node] else [];
      out == Targets(Edges(jobs), node) && forall x :: x in out ==> x in Ids(jobs)
  {
    EdgesAreNeeds(jobs);
    TargetsAreTasks(Edges(jobs), node, Ids(jobs));
  }

  lemma StartSweeping(edges: seq<Edge>, ids: set<string>, graph: map<string, seq<string>>, indegree: map<string, int>,
                      queue: seq<string>)
    requires Tallied(edges, ids, graph, indegree)
    requires SortedListing(queue, set x | x in indegree && indegree[x] == 0)
    ensures Sweeping(edges, ids, indegree, [], queue, multiset{})
  {
    assert [] + queue == queue;
    assert Elements<string>([]) == {};
    forall x ensures x in queue <==> x in indegree && indegree[x] == 0 {
      assert x in queue <==> x in Elements(queue);
    }
  }

  /** `topological_order(manifest)` */
  method TopologicalOrder(jobs: seq<Job>) returns (r: Result<seq<string>, SortError>)
    ensures r.Ok? <==> AllDepsKnown(jobs) && Acyclic(Needs(jobs))
    ensures r.Ok? ==> TopologicalListing(jobs, r.value)
  {
    var graph, indegree := Tally(jobs);
    ghost var edges, ids, tally := Edges(jobs), Ids(jobs), indegree;
    var queue := SortedKeys(set x | x in indegree && indegree[x] == 0);
    var ordered: seq<string> := [];
    StartSweeping(edges, ids, graph, indegree, queue);
    while queue != []
      invariant Sweeping(edges, ids, indegree, ordered, queue, multiset{})
      invariant ArrowsPointBack(Needs(jobs), ordered)
      decreases |ids| - |ordered|
    {
      PoppedDepsAreDone(jobs, indegree, ordered, queue);
      PopKeepsSweeping(edges, ids, indegree, ordered, queue);
      DistinctFitsInSet(ordered + queue, ids);
      var node := queue[0];
      TalliedTargets(jobs, graph, tally, node);
      var out := Sort(if node in graph then graph[node] else []);
      Sorting.SameElements(out, Targets(edges, node));
      ordered := ordered + [node];
      indegree, queue := Release(out, indegree, queue[1..], edges, ids, ordered);
    }
    StuckIffCycleOrUnknown(jobs, indegree, ordered);
    if |ordered| != |indegree| {
      return Err(DependencyCycle);
    }
    return Ok(ordered);
  }
}
