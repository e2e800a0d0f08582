/** `validate_manifest` (tools/solis_task_manifest.py). */
module TaskManifest {
  // Its depth-first cycle detector and the sorter agree: what validates, sorts.

  import opened Common
  import opened Digraph
  import opened CycleSearch
  import Kahn

  /** `dependsOn` is None when the field is not a list. */
  datatype Task = Task(id: string, phaseId: string, status: string, priorityIsInt: bool, dependsOn: Option<seq<string>>)
  datatype TaskRow = NotAnObject | MissingKeys | Row(task: Task)
  datatype PhaseRow = PhaseNotAnObject | Phase(id: string)
  /** `phases` and `tasks` are None when the field is not a list. */
  datatype Manifest = Manifest(schemaVersion: string, phases: Option<seq<PhaseRow>>, tasks: Option<seq<TaskRow>>)

  datatype Fault =
    | BadSchemaVersion | PhasesNotAList | TasksNotAList
    | PhaseNotObject(index: nat) | PhaseWithoutId(index: nat) | DuplicatePhase(id: string)
    | TaskNotObject(index: nat) | TaskKeysMissing(index: nat) | TaskWithoutId(index: nat) | DuplicateTask(id: string)
    | UnknownPhase(id: string) | BadStatus(id: string) | PriorityNotInt(id: string) | DependsOnNotAList(id: string)
    | DependsOnItself(id: string) | UnknownDependency(id: string, dep: string) | CycleAt(id: string)

  const ALLOWED_STATUS: set<string> := {"planned", "in_progress", "done", "blocked", "canceled"}

  ghost predicate PhasesOk(phases: seq<PhaseRow>) {
    && (forall i :: 0 <= i < |phases| ==> phases[i].Phase? && phases[i].id != "")
    && forall i, j :: 0 <= i < j < |phases| ==> phases[i] != phases[j]
  }

  ghost function PhaseIds(phases: seq<PhaseRow>): set<string> {
    set i | 0 <= i < |phases| && phases[i].Phase? :: phases[i].id
  }

  ghost predicate TaskOk(task: Task, phaseIds: set<string>) {
    && task.id != "" && task.phaseId in phaseIds && task.status in ALLOWED_STATUS
    && task.priorityIsInt && task.dependsOn.Some? && task.id !in task.dependsOn.value
  }

  /** Every check the loop over the rows makes. */
  ghost predicate RowsOk(rows: seq<TaskRow>, phaseIds: set<string>) {
    && (forall i :: 0 <= i < |rows| ==> rows[i].Row? && TaskOk(rows[i].task, phaseIds))
    && forall i, j :: 0 <= i < j < |rows| && rows[i].Row? && rows[j].Row? ==> rows[i].task.id != rows[j].task.id
  }

  /** The rows the sorter reads: (id, dependencies) of every row that is an object with a dependency list. */
  function Jobs(rows: seq<TaskRow>): seq<Kahn.Job> {
    if rows == [] then []
    else
      var n := |rows| - 1;
      Jobs(rows[..n]) +
      if rows[n].Row? && rows[n].task.dependsOn.Some? then [Kahn.Job(rows[n].task.id, rows[n].task.dependsOn.value)]
      else []
  }

  ghost predicate WellFormed(m: Manifest) {
    && m.schemaVersion == "1.0" && m.phases.Some? && m.tasks.Some?
    && PhasesOk(m.phases.value) && RowsOk(m.tasks.value, PhaseIds(m.phases.value))
    && Kahn.AllDepsKnown(Jobs(m.tasks.value)) && Acyclic(Kahn.Needs(Jobs(m.tasks.value)))
  }

  method CheckPhases(phases: seq<PhaseRow>) returns (faults: seq<Fault>, phaseIds: set<string>)
    ensures faults == [] <==> PhasesOk(phases)
    ensures phaseIds == PhaseIds(phases) - {""}
  {
    faults, phaseIds := [], {};
    for i := 0 to |phases|
      invariant faults == [] <==> PhasesOk(phases[..i])
      invariant phaseIds == PhaseIds(phases[..i]) - {""}
    {
      assert phases[..i + 1] == phases[..i] + [phases[i]];
      assert phases[..i] == phases[..i + 1][..i];
      if phases[i].PhaseNotAnObject? {
        faults := faults + [PhaseNotObject(i)];
        assert !phases[..i + 1][i].Phase?;
        continue;
      }
      if phases[i].id == "" {
        faults := faults + [PhaseWithoutId(i)];
        assert phases[..i + 1][i].id == "";
        continue;
      }
      if phases[i].id in phaseIds {
        faults := faults + [DuplicatePhase(phases[i].id)];
        var j :| 0 <= j < i && phases[..i][j] == phases[i];
        assert phases[..i + 1][j] == phases[..i + 1][i];
      }
      phaseIds := phaseIds + {phases[i].id};
    }
    assert phases[..|phases|] == phases;
  }

  function TaskFaults(task: Task, phaseIds: set<string>): seq<Fault> {
    (if task.phaseId !in phaseIds then [UnknownPhase(task.id)] else []) +
    (if task.status !in ALLOWED_STATUS then [BadStatus(task.id)] else []) +
    (if !task.priorityIsInt then [PriorityNotInt(task.id)] else []) +
    if task.dependsOn.None? then [DependsOnNotAList(task.id)]
    else if task.id in task.dependsOn.value then [DependsOnItself(task.id)]
    else []
  }

  /** The dependency index holds exactly the dependency lists of the rows. */
  ghost predicate Indexes(deps: map<string, seq<string>>, taskIds: set<string>, rows: seq<TaskRow>) {
    && (forall x :: x in taskIds <==> exists i :: 0 <= i < |rows| && rows[i].Row? && rows[i].task.id == x)
    && deps.Keys == taskIds
    && forall i :: 0 <= i < |rows| && rows[i].Row? && rows[i].task.dependsOn.Some? ==>
         rows[i].task.id in deps && deps[rows[i].task.id] == rows[i].task.dependsOn.value
  }

  lemma GrowIndexes(deps: map<string, seq<string>>, taskIds: set<string>, rows: seq<TaskRow>, task: Task)
    requires Indexes(deps, taskIds, rows) && task.id !in taskIds && task.dependsOn.Some?
    ensures Indexes(deps[task.id := task.dependsOn.value], taskIds + {task.id}, rows + [Row(task)])
  {
    var longer := rows + [Row(task)];
    forall x
      ensures x in taskIds + {task.id} <==> exists i :: 0 <= i < |longer| && longer[i].Row? && longer[i].task.id == x
    {
      if x in taskIds {
        var i :| 0 <= i < |rows| && rows[i].Row? && rows[i].task.id == x;
        assert longer[i].task.id == x;
      }
      if x == task.id { assert longer[|rows|].task.id == x; }
    }
  }

  lemma RowsOkStep(rows: seq<TaskRow>, row: TaskRow, phaseIds: set<string>,
                   taskIds: set<string>, deps: map<string, seq<string>>)
    requires RowsOk(rows, phaseIds) ==> Indexes(deps, taskIds, rows)
    ensures RowsOk(rows + [row], phaseIds) <==>
      RowsOk(rows, phaseIds) && row.Row? && TaskOk(row.task, phaseIds) && row.task.id !in taskIds
  {
    var longer := rows + [row];
    assert forall i :: 0 <= i < |rows| ==> longer[i] == rows[i];
    assert longer[|rows|] == row;
    if RowsOk(longer, phaseIds) {
      assert RowsOk(rows, phaseIds);
      forall i | 0 <= i < |rows| && rows[i].Row? ensures rows[i].task.id != row.task.id {
        assert longer[i].task.id != longer[|rows|].task.id;
      }
    }
  }

  method CheckTasks(rows: seq<TaskRow>, phaseIds: set<string>)
    returns (faults: seq<Fault>, taskIds: set<string>, deps: map<string, seq<string>>)
    ensures faults == [] <==> RowsOk(rows, phaseIds)
    ensures faults == [] ==> Indexes(deps, taskIds, rows)
  {
    faults, taskIds, deps := [], {}, map[];
    for i := 0 to |rows|
      invariant faults == [] <==> RowsOk(rows[..i], phaseIds)
      invariant faults == [] ==> Indexes(deps, taskIds, rows[..i])
    {
      assert rows[..i + 1] == rows[..i] + [rows[i]];
      RowsOkStep(rows[..i], rows[i], phaseIds, taskIds, deps);
      match rows[i]
      case NotAnObject => faults := faults + [TaskNotObject(i)];
      case MissingKeys => faults := faults + [TaskKeysMissing(i)];
      case Row(task) =>
        if task.id == "" {
          faults := faults + [TaskWithoutId(i)];
        } else if task.id in taskIds {
          faults := faults + [DuplicateTask(task.id)];
        } else {
          if faults == [] && task.dependsOn.Some? {
            GrowIndexes(deps, taskIds, rows[..i], task);
          }
          taskIds := taskIds + {task.id};
          faults := faults + TaskFaults(task, phaseIds);
          if task.dependsOn.Some? {
            deps := deps[task.id := task.dependsOn.value];
          }
        }
    }
    assert rows[..|rows|] == rows;
  }

  method CheckDependencies(deps: map<string, seq<string>>, taskIds: set<string>) returns (faults: seq<Fault>)
    ensures faults == [] <==> forall x, d :: x in deps && d in deps[x] ==> d in taskIds
  {
    faults := [];
    var rest := deps.Keys;
    while rest != {}
      invariant rest <= deps.Keys
      invariant faults == [] <==> forall x, d :: x in deps && x !in rest && d in deps[x] ==> d in taskIds
      decreases rest
    {
      var x :| x in rest;
      ghost var faults0 := faults;
      for k := 0 to |deps[x]|
        invariant faults == [] <==> faults0 == [] && forall j :: 0 <= j < k ==> deps[x][j] in taskIds
      {
        if deps[x][k] !in taskIds {
          faults := faults + [UnknownDependency(x, deps[x][k])];
        }
      }
      rest := rest - {x};
    }
  }

  lemma {:induction false} JobsAreRows(rows: seq<TaskRow>, phaseIds: set<string>)
    requires RowsOk(rows, phaseIds)
    ensures |Jobs(rows)| == |rows|
    ensures forall i :: 0 <= i < |rows| ==> Jobs(rows)[i] == Kahn.Job(rows[i].task.id, rows[i].task.dependsOn.value)
  {
    if rows != [] {
      JobsAreRows(rows[..|rows| - 1], phaseIds);
    }
  }

  /** The detector's arrows and the sorter's arrows are the same graph. */
  lemma SameGraph(rows: seq<TaskRow>, phaseIds: set<string>, taskIds: set<string>, deps: map<string, seq<string>>)
    requires RowsOk(rows, phaseIds) && Indexes(deps, taskIds, rows)
    ensures Arrows(deps) == Kahn.Needs(Jobs(rows))
    ensures taskIds == Kahn.Ids(Jobs(rows))
  {
    JobsAreRows(rows, phaseIds);
    var jobs := Jobs(rows);
    forall x ensures x in taskIds <==> x in Kahn.Ids(jobs) {
      if x in taskIds {
        var i :| 0 <= i < |rows| && rows[i].Row? && rows[i].task.id == x;
        assert jobs[i].id == x;
      }
    }
    forall x, d ensures (x, d) in Arrows(deps) <==> (x, d) in Kahn.Needs(jobs) {
      if (x, d) in Arrows(deps) {
        var i :| 0 <= i < |rows| && rows[i].Row? && rows[i].task.id == x;
        assert jobs[i].id == x && d in jobs[i].deps;
      }
      if (x, d) in Kahn.Needs(jobs) {
        var i :| 0 <= i < |jobs| && d in jobs[i].deps && jobs[i].id == x;
        assert deps[rows[i].task.id] == rows[i].task.dependsOn.value;
      }
    }
  }

  /** `validate_manifest(manifest)` finds nothing exactly in a well-formed manifest. */
  method ValidateManifest(m: Manifest) returns (faults: seq<Fault>)
    ensures faults == [] <==> WellFormed(m)
  {
    faults := if m.schemaVersion != "1.0" then [BadSchemaVersion] else [];
    if m.phases.None? { faults := faults + [PhasesNotAList]; }
    if m.tasks.None? { faults := faults + [TasksNotAList]; }
    var phases := if m.phases.Some? then m.phases.value else [];
    var rows := if m.tasks.Some? then m.tasks.value else [];
    var phaseFaults, phaseIds := CheckPhases(phases);
    var rowFaults, taskIds, deps := CheckTasks(rows, phaseIds);
    var depFaults := CheckDependencies(deps, taskIds);
    if phaseFaults == [] {
      assert "" !in PhaseIds(phases);
      assert phaseIds == PhaseIds(phases);
    }
    faults := faults + phaseFaults + rowFaults + depFaults;
    if rowFaults == [] {
      SameGraph(rows, phaseIds, taskIds, deps);
      assert depFaults == [] <==> Kahn.AllDepsKnown(Jobs(rows));
    }
    if faults == [] {
      var cycleAt := DetectCycle(deps);
      if cycleAt.Some? {
        faults := faults + [CycleAt(cycleAt.value)];
      }
    }
  }

  /** The command line's `topo`: validate, then sort. A manifest that validates always sorts. */
  method TopoCommand(m: Manifest) returns (r: Option<seq<string>>)
    ensures r.Some? <==> WellFormed(m)
    ensures r.Some? ==> Kahn.TopologicalListing(Jobs(m.tasks.value), r.value)
    ensures r.Some? ==> |r.value| == |m.tasks.value|
  {
    var faults := ValidateManifest(m);
    if faults != [] {
      return None;
    }
    var sorted := Kahn.TopologicalOrder(Jobs(m.tasks.value));
    ListingCoversRows(m.tasks.value, PhaseIds(m.phases.value), sorted.value);
    return Some(sorted.value);
  }

  lemma DistinctIdsCount(jobs: seq<Kahn.Job>)
    requires forall i, j :: 0 <= i < j < |jobs| ==> jobs[i].id != jobs[j].id
    ensures |Kahn.Ids(jobs)| == |jobs|
  {
    var ids := seq(|jobs|, i requires 0 <= i < |jobs| => jobs[i].id);
    forall x ensures x in Elements(ids) <==> x in Kahn.Ids(jobs) {
      if x in Kahn.Ids(jobs) {
        var i :| 0 <= i < |jobs| && jobs[i].id == x;
        assert ids[i] == x;
      }
    }
    assert Elements(ids) == Kahn.Ids(jobs);
    DistinctSize(ids);
  }

  lemma ListingCoversRows(rows: seq<TaskRow>, phaseIds: set<string>, order: seq<string>)
    requires RowsOk(rows, phaseIds) && Kahn.TopologicalListing(Jobs(rows), order)
    ensures |order| == |rows|
  {
    JobsAreRows(rows, phaseIds);
    DistinctIdsCount(Jobs(rows));
    DistinctSize(order);
  }
}
