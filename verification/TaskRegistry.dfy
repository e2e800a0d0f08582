/** The task registry of codex_orchestrator.py. */
module TaskRegistry {
  // Statuses are recomputed from the dependencies after every change. The methods update the registry in
  // place; each is tied to a function on the task table, and the theorems are about runs of these functions.

  import opened Common
  import opened Digraph
  import opened CycleSearch
  import opened Ordering

  datatype Status = Pending | Ready | InProgress | Blocked | Review | Done | Failed | Archived
  datatype Task = Task(assignee: string, priority: string, status: Status, dependencies: seq<string>)
  type Table = map<string, Task>

  datatype Refusal =
    | EmptyRegistry | DuplicateId(id: string) | UnknownDependencies(id: string)
    | SelfDependency(id: string) | CycleAt(id: string)
    | InvalidStatus(text: string) | UnknownTask(id: string) | NotReady(id: string)
    | UnresolvedDependencies(id: string)

  function ParseStatus(text: string): Option<Status> {
    if text == "pending" then Some(Pending)
    else if text == "ready" then Some(Ready)
    else if text == "in_progress" then Some(InProgress)
    else if text == "blocked" then Some(Blocked)
    else if text == "review" then Some(Review)
    else if text == "done" then Some(Done)
    else if text == "failed" then Some(Failed)
    else if text == "archived" then Some(Archived)
    else None
  }

  // ----- soundness of a table: what `validate` is for

  function DepsOf(tasks: Table): map<string, seq<string>> {
    map id | id in tasks :: tasks[id].dependencies
  }

  predicate DepsKnown(tasks: Table) {
    forall id, dep :: id in tasks && dep in tasks[id].dependencies ==> dep in tasks
  }

  ghost predicate Sound(tasks: Table) {
    tasks != map[] && DepsKnown(tasks) && Acyclic(Arrows(DepsOf(tasks)))
  }

  /** The dictionary the constructor builds: of two tasks with one id the later stays. */
  function Collapse(items: seq<(string, Task)>): Table {
    if items == [] then map[]
    else
      var n := |items| - 1;
      Collapse(items[..n])[items[n].0 := items[n].1]
  }

  // ----- refreshing

  predicate Free(status: Status) {
    status.Pending? || status.Ready? || status.Blocked?
  }

  predicate DepsDone(tasks: Table, task: Task) {
    forall dep :: dep in task.dependencies ==> dep in tasks && tasks[dep].status.Done?
  }

  /** What one task's status becomes when the others read as in `tasks`. */
  function Settle(tasks: Table, task: Task): Task {
    if !Free(task.status) then task
    else if DepsDone(tasks, task) then task.(status := Ready)
    else if task.dependencies != [] then task.(status := Blocked)
    else task.(status := Ready)
  }

  /** All tasks settled at once. */
  function Refreshed(tasks: Table): Table {
    map id | id in tasks :: Settle(tasks, tasks[id])
  }

  /** Free tasks are ready exactly when their dependencies are done, blocked otherwise, never pending. */
  ghost predicate Settled(tasks: Table) {
    forall id :: id in tasks && Free(tasks[id].status) ==>
      tasks[id].status == if DepsDone(tasks, tasks[id]) then Ready else Blocked
  }

  ghost predicate SameDone(a: Table, b: Table) {
    a.Keys == b.Keys && forall id :: id in a ==> (a[id].status.Done? <==> b[id].status.Done?)
  }

  /** Settling reads only which tasks are done, so a table settled half-way settles the rest alike. */
  lemma SettleReadsDoneOnly(a: Table, b: Table, task: Task)
    requires SameDone(a, b)
    ensures Settle(a, task) == Settle(b, task)
  {
    assert DepsDone(a, task) == DepsDone(b, task);
  }

  lemma RefreshedSameDone(tasks: Table)
    ensures SameDone(tasks, Refreshed(tasks))
  {
  }

  lemma SettledIffRefreshed(tasks: Table)
    ensures Settled(tasks) <==> Refreshed(tasks) == tasks
  {
    if Settled(tasks) {
      forall id | id in tasks ensures Settle(tasks, tasks[id]) == tasks[id] {
        if Free(tasks[id].status) && !DepsDone(tasks, tasks[id]) { assert tasks[id].dependencies != []; }
      }
    }
    if Refreshed(tasks) == tasks {
      forall id | id in tasks && Free(tasks[id].status)
        ensures tasks[id].status == if DepsDone(tasks, tasks[id]) then Ready else Blocked
      {
        assert Refreshed(tasks)[id] == Settle(tasks, tasks[id]);
      }
    }
  }

  /** Refreshing settles any table, and refreshing again changes nothing. */
  lemma RefreshSettles(tasks: Table)
    ensures Settled(Refreshed(tasks))
    ensures Refreshed(Refreshed(tasks)) == Refreshed(tasks)
  {
    var once := Refreshed(tasks);
    RefreshedSameDone(tasks);
    forall id | id in once && Free(once[id].status)
      ensures once[id].status == if DepsDone(once, once[id]) then Ready else Blocked
    {
      SettleReadsDoneOnly(tasks, once, tasks[id]);
      assert once[id].dependencies == tasks[id].dependencies;
      assert DepsDone(once, once[id]) == DepsDone(tasks, tasks[id]);
      if !DepsDone(tasks, tasks[id]) { assert tasks[id].dependencies != []; }
    }
    SettledIffRefreshed(once);
  }

  // ----- the two changes

  datatype Outcome = Outcome(tasks: Table, refusal: Option<Refusal>)

  function Assigned(tasks: Table, id: string, assignee: string): Outcome {
    if id !in tasks then Outcome(tasks, Some(UnknownTask(id)))
    else
      var now := Refreshed(tasks);
      if !now[id].status.Ready? then Outcome(now, Some(NotReady(id)))
      else Outcome(now[id := now[id].(assignee := if assignee != "" then assignee else now[id].assignee,
                                      status := InProgress)], None)
  }

  function Updated(tasks: Table, id: string, text: string): Outcome {
    var status := ParseStatus(text);
    if status.None? then Outcome(tasks, Some(InvalidStatus(text)))
    else if id !in tasks then Outcome(tasks, Some(UnknownTask(id)))
    else if status.value.Done? && !DepsDone(tasks, tasks[id]) then Outcome(tasks, Some(UnresolvedDependencies(id)))
    else Outcome(Refreshed(tasks[id := tasks[id].(status := status.value)]), None)
  }

  datatype Call = Refresh | Assign(id: string, assignee: string) | Update(id: string, text: string)

  function Apply(tasks: Table, call: Call): Outcome {
    match call
    case Refresh => Outcome(Refreshed(tasks), None)
    case Assign(id, assignee) => Assigned(tasks, id, assignee)
    case Update(id, text) => Updated(tasks, id, text)
  }

  function Run(tasks: Table, calls: seq<Call>): Table {
    if calls == [] then tasks else Run(Apply(tasks, calls[0]).tasks, calls[1..])
  }

  /** Calls run one after another, each on the table the last one left. */
  lemma {:induction false} RunSnoc(tasks: Table, calls: seq<Call>, last: Call)
    ensures Run(tasks, calls + [last]) == Apply(Run(tasks, calls), last).tasks
    decreases |calls|
  {
    var all := calls + [last];
    if calls == [] {
      assert all == [last] && all[1..] == [];
    } else {
      assert all[1..] == calls[1..] + [last];
      RunSnoc(Apply(tasks, calls[0]).tasks, calls[1..], last);
    }
  }

  ghost predicate SameShape(a: Table, b: Table) {
    DepsOf(a) == DepsOf(b)
  }

  lemma SameShapeSound(a: Table, b: Table)
    requires SameShape(a, b) && Sound(a)
    ensures Sound(b)
  {
    assert a.Keys == DepsOf(a).Keys == DepsOf(b).Keys == b.Keys;
    forall id | id in b ensures id in a && b[id].dependencies == a[id].dependencies {
      assert DepsOf(b)[id] == DepsOf(a)[id];
    }
  }

  lemma SameDepsDone(a: Table, b: Table, task: Task)
    requires SameDone(a, b)
    ensures DepsDone(a, task) <==> DepsDone(b, task)
  {
  }

  lemma AssignKeepsSettled(tasks: Table, id: string, assignee: string)
    requires Settled(Refreshed(tasks))
    ensures Settled(Assigned(tasks, id, assignee).tasks) || id !in tasks
    ensures SameShape(tasks, Assigned(tasks, id, assignee).tasks)
  {
    if ReadyNow(tasks, id) {
      var now, next := Refreshed(tasks), Assigned(tasks, id, assignee).tasks;
      assert SameDone(now, next);
      forall x | x in next && Free(next[x].status)
        ensures next[x].status == if DepsDone(next, next[x]) then Ready else Blocked
      {
        assert x != id && next[x] == now[x];
        SameDepsDone(now, next, now[x]);
      }
    }
  }

  lemma UpdateKeepsSettled(tasks: Table, id: string, text: string)
    requires Settled(tasks)
    ensures Settled(Updated(tasks, id, text).tasks)
    ensures SameShape(tasks, Updated(tasks, id, text).tasks)
  {
    if Updated(tasks, id, text).refusal.None? {
      RefreshSettles(tasks[id := tasks[id].(status := ParseStatus(text).value)]);
    }
  }

  lemma ApplyKeepsSettled(tasks: Table, call: Call)
    requires Settled(tasks)
    ensures Settled(Apply(tasks, call).tasks)
    ensures SameShape(tasks, Apply(tasks, call).tasks)
  {
    RefreshSettles(tasks);
    match call
    case Refresh =>
    case Assign(id, assignee) => AssignKeepsSettled(tasks, id, assignee);
    case Update(id, text) => UpdateKeepsSettled(tasks, id, text);
  }

  /** After any run of calls, failed ones included, every free task is ready or blocked as it should be. */
  lemma {:induction false} RunStaysSettled(tasks: Table, calls: seq<Call>)
    requires Settled(tasks) && Sound(tasks)
    ensures Settled(Run(tasks, calls)) && Sound(Run(tasks, calls)) && SameShape(tasks, Run(tasks, calls))
  {
    if calls != [] {
      ApplyKeepsSettled(tasks, calls[0]);
      SameShapeSound(tasks, Apply(tasks, calls[0]).tasks);
      RunStaysSettled(Apply(tasks, calls[0]).tasks, calls[1..]);
    }
  }

  // ----- no deadlock

  ghost function Unfinished(tasks: Table): set<string> {
    set id | id in tasks && !tasks[id].status.Done?
  }

  /** Nothing is failed, archived, under review or in someone's hands. */
  ghost predicate Idle(tasks: Table) {
    forall id :: id in tasks ==> tasks[id].status.Done? || Free(tasks[id].status)
  }

  ghost predicate ReadyNow(tasks: Table, id: string) {
    id in tasks && Refreshed(tasks)[id].status.Ready?
  }

  /** Whatever is unfinished and not free to start waits for something unfinished. */
  lemma WaitsForUnfinished(tasks: Table, x: string) returns (y: string)
    requires Sound(tasks) && x in Unfinished(tasks) && !DepsDone(tasks, tasks[x])
    ensures y in Unfinished(tasks) && (x, y) in Arrows(DepsOf(tasks))
  {
    y :| y in tasks[x].dependencies && !(y in tasks && tasks[y].status.Done?);
    assert DepsOf(tasks)[x] == tasks[x].dependencies;
  }

  lemma NotAllWait(tasks: Table) returns (id: string)
    requires Sound(tasks) && Unfinished(tasks) != {}
    ensures id in Unfinished(tasks) && DepsDone(tasks, tasks[id])
  {
    if x :| x in Unfinished(tasks) && DepsDone(tasks, tasks[x]) {
      id := x;
    } else {
      forall x | x in Unfinished(tasks)
        ensures exists y :: y in Unfinished(tasks) && (x, y) in Arrows(DepsOf(tasks))
      {
        var y := WaitsForUnfinished(tasks, x);
      }
      var p := CycleInside(Arrows(DepsOf(tasks)), Unfinished(tasks));
      assert false;
    }
  }

  /**
   In a sound registry with work left, some unfinished task has its dependencies done: it is ready, unless it is
   failed, archived, under review or in someone's hands. In an idle registry it is ready.
   */
  lemma SomeTaskReady(tasks: Table) returns (id: string)
    requires Sound(tasks) && Unfinished(tasks) != {}
    ensures id in Unfinished(tasks) && DepsDone(tasks, tasks[id])
    ensures ReadyNow(tasks, id) || tasks[id].status in {Failed, Archived, Review, InProgress}
    ensures Idle(tasks) ==> ReadyNow(tasks, id)
  {
    id := NotAllWait(tasks);
  }

  /** So no task is ready exactly when every unfinished task whose dependencies are done is so held. */
  lemma NoneReadyIff(tasks: Table)
    ensures (forall id :: !ReadyNow(tasks, id)) <==>
      forall id :: id in Unfinished(tasks) && DepsDone(tasks, tasks[id]) ==>
        tasks[id].status in {Failed, Archived, Review, InProgress}
  {
    forall id | id in tasks ensures ReadyNow(tasks, id) <==> Free(tasks[id].status) && DepsDone(tasks, tasks[id]) {
      assert Refreshed(tasks)[id] == Settle(tasks, tasks[id]);
    }
  }

  /** Assign the task, then mark it done. */
  function Finish(tasks: Table, id: string): Table {
    Updated(Assigned(tasks, id, "").tasks, id, "done").tasks
  }

  lemma ReadyDepsDone(tasks: Table, id: string)
    requires Idle(tasks) && ReadyNow(tasks, id)
    ensures DepsDone(tasks, tasks[id]) && !tasks[id].status.Done?
  {
    assert Refreshed(tasks)[id] == Settle(tasks, tasks[id]);
  }

  lemma TakeReady(tasks: Table, id: string)
    requires Idle(tasks) && ReadyNow(tasks, id)
    ensures Assigned(tasks, id, "").refusal.None?
    ensures var taken := Assigned(tasks, id, "").tasks;
      && SameShape(tasks, taken) && SameDone(tasks, taken)
      && (forall x :: x in taken && x != id ==> taken[x].status.Done? || Free(taken[x].status))
  {
    ReadyDepsDone(tasks, id);
    RefreshedSameDone(tasks);
  }

  lemma MarkDone(taken: Table, id: string)
    requires id in taken && DepsDone(taken, taken[id])
    requires forall x :: x in taken && x != id ==> taken[x].status.Done? || Free(taken[x].status)
    ensures var out := Updated(taken, id, "done");
      && out.refusal.None? && Idle(out.tasks) && SameShape(taken, out.tasks)
      && Unfinished(out.tasks) == Unfinished(taken) - {id}
  {
    var marked := taken[id := taken[id].(status := Done)];
    assert ParseStatus("done") == Some(Done);
    var out := Updated(taken, id, "done");
    assert out.tasks == Refreshed(marked);
    RefreshedSameDone(marked);
    forall x ensures x in Unfinished(out.tasks) <==> x in Unfinished(taken) - {id} { }
  }

  lemma FinishOne(tasks: Table, id: string)
    requires Sound(tasks) && Idle(tasks) && ReadyNow(tasks, id)
    ensures Assigned(tasks, id, "").refusal.None?
    ensures Updated(Assigned(tasks, id, "").tasks, id, "done").refusal.None?
    ensures Idle(Finish(tasks, id)) && Sound(Finish(tasks, id)) && SameShape(tasks, Finish(tasks, id))
    ensures id in Unfinished(tasks) && Unfinished(Finish(tasks, id)) == Unfinished(tasks) - {id}
    ensures forall dep :: dep in tasks[id].dependencies ==> dep in tasks && dep !in Unfinished(tasks)
  {
    var taken := Assigned(tasks, id, "").tasks;
    ReadyDepsDone(tasks, id);
    TakeReady(tasks, id);
    assert DepsOf(taken)[id] == DepsOf(tasks)[id];
    MarkDone(taken, id);
    assert Unfinished(taken) == Unfinished(tasks);
    SameShapeSound(tasks, Finish(tasks, id));
  }

  /** Every pick is ready at its turn; each is assigned and marked done before the next. */
  ghost predicate Schedule(tasks: Table, picks: seq<string>) {
    picks == [] || (ReadyNow(tasks, picks[0]) && Schedule(Finish(tasks, picks[0]), picks[1..]))
  }

  ghost function AfterPicks(tasks: Table, picks: seq<string>): Table {
    if picks == [] then tasks else AfterPicks(Finish(tasks, picks[0]), picks[1..])
  }

  ghost predicate DepsFirst(tasks: Table, picks: seq<string>) {
    forall i, dep :: 0 <= i < |picks| && picks[i] in tasks && dep in tasks[picks[i]].dependencies ==>
      dep in tasks && (tasks[dep].status.Done? || dep in picks[..i])
  }

  lemma DepsFirstStep(tasks: Table, next: Table, picks: seq<string>)
    requires picks != [] && SameShape(tasks, next) && DepsFirst(next, picks[1..])
    requires Unfinished(next) == Unfinished(tasks) - {picks[0]}
    requires picks[0] in tasks && forall dep :: dep in tasks[picks[0]].dependencies ==>
      dep in tasks && dep !in Unfinished(tasks)
    ensures DepsFirst(tasks, picks)
  {
    var rest := picks[1..];
    forall i, dep | 0 <= i < |picks| && picks[i] in tasks && dep in tasks[picks[i]].dependencies
      ensures dep in tasks && (tasks[dep].status.Done? || dep in picks[..i])
    {
      if i > 0 {
        assert picks[i] == rest[i - 1];
        assert DepsOf(next)[picks[i]] == DepsOf(tasks)[picks[i]];
        assert next.Keys == DepsOf(next).Keys == tasks.Keys;
        if dep in rest[..i - 1] {
          var k :| 0 <= k < i - 1 && rest[k] == dep;
          assert picks[..i][k + 1] == dep;
        } else if dep == picks[0] {
          assert picks[..i][0] == dep;
        } else {
          assert dep !in Unfinished(next);
        }
      }
    }
  }

  lemma ConsDistinct(x: string, rest: seq<string>, within: set<string>)
    requires NoDuplicates(rest) && Elements(rest) <= within - {x} && x in within
    ensures NoDuplicates([x] + rest) && Elements([x] + rest) == {x} + Elements(rest)
    ensures Elements([x] + rest) <= within
    ensures within - {x} - Elements(rest) == within - Elements([x] + rest)
  {
    var picks := [x] + rest;
    forall j | 0 < j < |picks| ensures picks[0] != picks[j] {
      assert picks[j] == rest[j - 1] && picks[j] in Elements(rest);
    }
    forall y ensures y in Elements(picks) <==> y in {x} + Elements(rest) {
      if y in rest {
        var k :| 0 <= k < |rest| && rest[k] == y;
        assert picks[k + 1] == y;
      }
      if y == x { assert picks[0] == y; }
    }
  }

  /** Whatever ready tasks are picked: no repetition, dependencies first, one task less each round. */
  lemma {:induction false} ScheduleFinishes(tasks: Table, picks: seq<string>)
    requires Sound(tasks) && Idle(tasks) && Schedule(tasks, picks)
    ensures Sound(AfterPicks(tasks, picks)) && Idle(AfterPicks(tasks, picks))
      && SameShape(tasks, AfterPicks(tasks, picks))
    ensures NoDuplicates(picks) && Elements(picks) <= Unfinished(tasks)
    ensures Unfinished(AfterPicks(tasks, picks)) == Unfinished(tasks) - Elements(picks)
    ensures DepsFirst(tasks, picks)
  {
    if picks != [] {
      FinishOne(tasks, picks[0]);
      ScheduleFinishes(Finish(tasks, picks[0]), picks[1..]);
      DepsFirstStep(tasks, Finish(tasks, picks[0]), picks);
      ConsDistinct(picks[0], picks[1..], Unfinished(tasks));
      assert picks == [picks[0]] + picks[1..];
    } else {
      assert Elements(picks) == {};
    }
  }

  lemma {:induction false} ScheduleExtends(tasks: Table, picks: seq<string>, id: string)
    requires Schedule(tasks, picks) && ReadyNow(AfterPicks(tasks, picks), id)
    ensures Schedule(tasks, picks + [id])
  {
    if picks != [] {
      ScheduleExtends(Finish(tasks, picks[0]), picks[1..], id);
      assert (picks + [id])[1..] == picks[1..] + [id];
    }
  }

  lemma ExhaustedAdmitsNoPick(tasks: Table, picks: seq<string>, id: string)
    requires Sound(tasks) && Idle(tasks) && Elements(picks) == Unfinished(tasks)
    ensures !Schedule(tasks, picks + [id])
  {
    if Schedule(tasks, picks + [id]) {
      ScheduleFinishes(tasks, picks + [id]);
      RepeatedPick(picks, id);
    }
  }

  lemma RepeatedPick(picks: seq<string>, id: string)
    ensures NoDuplicates(picks + [id]) ==> !(Elements(picks + [id]) <= Elements(picks))
  {
    var longer := picks + [id];
    assert longer[|picks|] == id && id in Elements(longer);
    if id in Elements(picks) {
      var k :| 0 <= k < |picks| && picks[k] == id;
      assert longer[k] == longer[|picks|];
    }
  }

  /**
   No deadlock: a schedule that has not done everything can go on, and one that
   cannot go on has done everything in exactly as many rounds as tasks were unfinished.
   */
  lemma NeverStuck(tasks: Table, picks: seq<string>)
    requires Sound(tasks) && Idle(tasks) && Schedule(tasks, picks)
    ensures (exists id :: Schedule(tasks, picks + [id])) <==> Unfinished(AfterPicks(tasks, picks)) != {}
    ensures |Unfinished(AfterPicks(tasks, picks))| == |Unfinished(tasks)| - |picks|
  {
    ScheduleFinishes(tasks, picks);
    DistinctSize(picks);
    if Unfinished(AfterPicks(tasks, picks)) != {} {
      var id := SomeTaskReady(AfterPicks(tasks, picks));
      ScheduleExtends(tasks, picks, id);
    } else {
      assert Elements(picks) == Unfinished(tasks);
      forall id ensures !Schedule(tasks, picks + [id]) { ExhaustedAdmitsNoPick(tasks, picks, id); }
    }
  }

  // ----- done tasks and their dependencies

  ghost predicate DoneClosed(tasks: Table) {
    forall id :: id in tasks && tasks[id].status.Done? ==> DepsDone(tasks, tasks[id])
  }

  /** The update takes back a finished task that another finished task was built on. */
  predicate ReopensFoundation(tasks: Table, id: string, text: string) {
    && ParseStatus(text).Some? && !ParseStatus(text).value.Done?
    && id in tasks && tasks[id].status.Done?
    && exists x :: x in tasks && x != id && tasks[x].status.Done? && id in tasks[x].dependencies
  }

  /** A call keeps "done tasks rest on done tasks" except when it is exactly such an update. */
  lemma DoneClosedKeptIff(tasks: Table, call: Call)
    requires Sound(tasks) && DoneClosed(tasks)
    ensures DoneClosed(Apply(tasks, call).tasks) <==> !(call.Update? && ReopensFoundation(tasks, call.id, call.text))
  {
    RefreshedSameDone(tasks);
    match call
    case Refresh => SameDoneClosed(tasks, Refreshed(tasks));
    case Assign(id, assignee) => AssignKeepsDone(tasks, id, assignee);
    case Update(id, text) => UpdateKeepsDoneIff(tasks, id, text);
  }

  lemma AssignKeepsDone(tasks: Table, id: string, assignee: string)
    requires Sound(tasks) && DoneClosed(tasks)
    ensures DoneClosed(Assigned(tasks, id, assignee).tasks)
  {
    RefreshedSameDone(tasks);
    assert SameDone(tasks, Assigned(tasks, id, assignee).tasks);
    SameDoneClosed(tasks, Assigned(tasks, id, assignee).tasks);
  }

  lemma UpdateKeepsDoneIff(tasks: Table, id: string, text: string)
    requires Sound(tasks) && DoneClosed(tasks)
    ensures DoneClosed(Updated(tasks, id, text).tasks) <==> !ReopensFoundation(tasks, id, text)
  {
    var out := Updated(tasks, id, text);
    if out.refusal.None? {
      var marked := tasks[id := tasks[id].(status := ParseStatus(text).value)];
      RefreshedSameDone(marked);
      SameDoneClosed(marked, out.tasks);
      UpdatedDoneClosed(tasks, id, text, marked);
    }
  }

  lemma SameDoneClosed(a: Table, b: Table)
    requires SameDone(a, b) && SameShape(a, b)
    ensures DoneClosed(a) <==> DoneClosed(b)
  {
    forall id | id in a ensures a[id].dependencies == b[id].dependencies && DepsDone(a, a[id]) == DepsDone(b, b[id]) {
      assert DepsOf(a)[id] == DepsOf(b)[id];
    }
  }

  lemma UpdatedDoneClosed(tasks: Table, id: string, text: string, marked: Table)
    requires Sound(tasks) && DoneClosed(tasks) && Updated(tasks, id, text).refusal.None?
    requires marked == tasks[id := tasks[id].(status := ParseStatus(text).value)]
    ensures DoneClosed(marked) <==> !ReopensFoundation(tasks, id, text)
  {
    assert id !in tasks[id].dependencies by {
      if id in tasks[id].dependencies {
        assert DepsOf(tasks)[id] == tasks[id].dependencies;
        assert Cycle(Arrows(DepsOf(tasks)), [id, id]);
      }
    }
    if ReopensFoundation(tasks, id, text) {
      var x :| x in tasks && x != id && tasks[x].status.Done? && id in tasks[x].dependencies;
      assert marked[x] == tasks[x] && !DepsDone(marked, marked[x]);
    } else {
      forall x | x in marked && marked[x].status.Done? ensures DepsDone(marked, marked[x]) {
        forall dep | dep in marked[x].dependencies ensures dep in marked && marked[dep].status.Done? {
          assert marked[x].dependencies == tasks[x].dependencies;
        }
      }
    }
  }

  /** Two finished tasks, one on top of the other: reopening the lower leaves the upper done on nothing. */
  lemma ReopeningBreaksDone(base: string, top: string) returns (tasks: Table)
    requires base != top
    ensures Settled(tasks) && Sound(tasks) && DoneClosed(tasks)
    ensures !DoneClosed(Apply(tasks, Update(base, "pending")).tasks)
  {
    tasks := map[base := Task("", "low", Done, []), top := Task("", "low", Done, [base])];
    var g := Arrows(DepsOf(tasks));
    assert forall x, y :: (x, y) in g ==> x == top && y == base;
    forall p ensures !Cycle(g, p) {
      if |p| >= 2 && (p[0], p[1]) in g && p[0] == p[|p| - 1] {
        assert p[1] != top ==> |p| > 2 && (p[1], p[2]) !in g;
      }
    }
    assert ReopensFoundation(tasks, base, "pending") by {
      assert ParseStatus("pending") == Some(Pending);
      assert tasks[top].status.Done? && base in tasks[top].dependencies;
    }
    DoneClosedKeptIff(tasks, Update(base, "pending"));
  }

  // ----- what a call does

  /** The name under which a status is given. */
  function NameOf(status: Status): string {
    match status
    case Pending => "pending"
    case Ready => "ready"
    case InProgress => "in_progress"
    case Blocked => "blocked"
    case Review => "review"
    case Done => "done"
    case Failed => "failed"
    case Archived => "archived"
  }

  /** Every status has its name, and no other text names one. */
  lemma NamesOfStatuses(text: string, status: Status)
    ensures ParseStatus(text) == Some(status) <==> text == NameOf(status)
  {
  }

  /** Refreshing changes the status of free tasks and nothing else: ready if all dependencies are done, else blocked. */
  lemma RefreshEffect(tasks: Table)
    ensures var after := Apply(tasks, Refresh).tasks;
      && Apply(tasks, Refresh).refusal == None && after.Keys == tasks.Keys
      && forall id :: id in tasks ==>
           after[id] == tasks[id].(status :=
             if tasks[id].status !in {Pending, Ready, Blocked} then tasks[id].status
             else if forall dep :: dep in tasks[id].dependencies ==> dep in tasks && tasks[dep].status == Done then
               Ready
             else Blocked)
  {
    forall id | id in tasks && !DepsDone(tasks, tasks[id]) ensures tasks[id].dependencies != [] { }
  }

  /**
   A task is assigned exactly when it is free and its dependencies are done. Then it is in progress, with the assignee
   given or, for an empty text, the one it had; every other task is as after a refresh. A refused assignment of a known
   task refreshes, one of an unknown task does nothing.
   */
  lemma AssignEffect(tasks: Table, id: string, assignee: string)
    ensures var out := Apply(tasks, Assign(id, assignee));
      && (out.refusal == None <==>
           id in tasks && tasks[id].status in {Pending, Ready, Blocked} && DepsDone(tasks, tasks[id]))
      && (out.refusal == None ==>
           && out.tasks.Keys == tasks.Keys
           && out.tasks[id] == Task(if assignee == "" then tasks[id].assignee else assignee, tasks[id].priority,
                                    InProgress, tasks[id].dependencies)
           && forall x :: x in tasks && x != id ==> out.tasks[x] == Apply(tasks, Refresh).tasks[x])
      && (out.refusal.Some? ==> out.tasks == if id in tasks then Apply(tasks, Refresh).tasks else tasks)
  {
    RefreshEffect(tasks);
  }

  /**
   An update is accepted exactly when the text names a status, the task is known, and for "done" its dependencies are
   done. Then the table is a refresh of the old one with this status at this task; refused, it is as before.
   */
  lemma UpdateEffect(tasks: Table, id: string, text: string)
    ensures var out := Apply(tasks, Update(id, text));
      && (out.refusal == None <==>
           && id in tasks && (exists status :: text == NameOf(status))
           && (text == "done" ==> DepsDone(tasks, tasks[id])))
      && (out.refusal == None ==>
           && out.tasks.Keys == tasks.Keys
           && (exists marked :: out.tasks == Apply(marked, Refresh).tasks && Marked(tasks, id, text, marked))
           && (text !in {"pending", "ready", "blocked"} ==> text == NameOf(out.tasks[id].status)))
      && (out.refusal.Some? ==> out.tasks == tasks)
  {
    NamesDone(text);
    if ParseStatus(text).Some? {
      var status := ParseStatus(text).value;
      NamesOfStatuses(text, status);
      if id in tasks {
        var marked := tasks[id := tasks[id].(status := status)];
        assert Marked(tasks, id, text, marked);
        RefreshEffect(marked);
      }
    } else {
      forall status ensures text != NameOf(status) { NamesOfStatuses(text, status); }
    }
  }

  lemma NamesDone(text: string)
    ensures ParseStatus(text) == Some(Done) <==> text == "done"
  {
    NamesOfStatuses(text, Done);
  }

  /** The old table with the named status at one task. */
  ghost predicate Marked(tasks: Table, id: string, text: string, marked: Table) {
    && marked.Keys == tasks.Keys && id in tasks
    && NameOf(marked[id].status) == text && marked[id] == tasks[id].(status := marked[id].status)
    && forall x :: x in tasks && x != id ==> marked[x] == tasks[x]
  }

  /** A task that is not free stays as it is, and cannot be assigned, through any run that does not update it. */
  lemma {:induction false} HeldUntilUpdated(tasks: Table, id: string, calls: seq<Call>, assignee: string)
    requires id in tasks && tasks[id].status !in {Pending, Ready, Blocked}
    requires forall i :: 0 <= i < |calls| && calls[i].Update? ==> calls[i].id != id
    ensures id in Run(tasks, calls) && Run(tasks, calls)[id] == tasks[id]
    ensures Apply(Run(tasks, calls), Assign(id, assignee)).refusal == Some(NotReady(id))
  {
    if calls == [] {
      RefreshEffect(tasks);
    } else {
      CallHolds(tasks, id, calls[0]);
      HeldUntilUpdated(Apply(tasks, calls[0]).tasks, id, calls[1..], assignee);
    }
  }

  lemma CallHolds(tasks: Table, id: string, call: Call)
    requires id in tasks && tasks[id].status !in {Pending, Ready, Blocked} && (call.Update? ==> call.id != id)
    ensures id in Apply(tasks, call).tasks && Apply(tasks, call).tasks[id] == tasks[id]
  {
    RefreshEffect(tasks);
    match call
    case Refresh =>
    case Assign(x, assignee) => AssignEffect(tasks, x, assignee);
    case Update(x, text) =>
      UpdateEffect(tasks, x, text);
      if Apply(tasks, call).refusal == None {
        var marked :| Apply(tasks, call).tasks == Apply(marked, Refresh).tasks && Marked(tasks, x, text, marked);
        RefreshEffect(marked);
      }
  }

  // ----- the registry object

  function LowerChar(c: char): char {
    if 'A' <= c <= 'Z' then (c as int - 'A' as int + 'a' as int) as char else c
  }

  function Lower(s: string): string {
    seq(|s|, i requires 0 <= i < |s| => LowerChar(s[i]))
  }

  function PriorityRank(priority: string): nat {
    var p := Lower(priority);
    if p == "critical" then 0 else if p == "high" then 1 else if p == "medium" then 2 else if p == "low" then 3 else 9
  }

  /** Critical comes before high, high before medium, medium before low, and any other text last; case is ignored. */
  lemma PriorityOrder(text: string)
    ensures PriorityRank("critical") < PriorityRank("high") < PriorityRank("medium") < PriorityRank("low")
    ensures Lower(text) !in {"critical", "high", "medium", "low"} ==> PriorityRank("low") < PriorityRank(text)
    ensures Lower(text) in {"critical", "high", "medium", "low"} ==> PriorityRank(text) == PriorityRank(Lower(text))
  {
    LowerTwice(text);
    LowerIs("critical");
    LowerIs("high");
    LowerIs("medium");
    LowerIs("low");
  }

  lemma LowerTwice(s: string)
    ensures Lower(Lower(s)) == Lower(s)
  {
  }

  const CAPITALS := "ABCDEFGHIJKLMNOPQRSTUVWXYZ"
  const SMALL := "abcdefghijklmnopqrstuvwxyz"

  /** A capital letter becomes the small one at its place in the alphabet. */
  lemma LowerOfCapital(i: nat)
    requires i < 26
    ensures Lower([CAPITALS[i]]) == [SMALL[i]]
  {
    assert CAPITALS[i] as int == 'A' as int + i && SMALL[i] as int == 'a' as int + i;
  }

  lemma LowerIs(s: string)
    requires forall i :: 0 <= i < |s| ==> 'a' <= s[i] <= 'z'
    ensures Lower(s) == s
  {
  }

  /** The sort key (rank, id). */
  ghost predicate KeyLe(tasks: Table, a: string, b: string) {
    && a in tasks && b in tasks
    && var ra, rb := PriorityRank(tasks[a].priority), PriorityRank(tasks[b].priority);
       ra < rb || (ra == rb && Le(a, b))
  }

  /** The first i tasks of the order are settled, the others untouched. */
  ghost predicate HalfSettled(before: Table, now: Table, order: seq<string>, i: nat)
    requires i <= |order|
  {
    && before.Keys == now.Keys == Elements(order)
    && forall j :: 0 <= j < |order| ==>
         now[order[j]] == if j < i then Settle(before, before[order[j]]) else before[order[j]]
  }

  lemma SettleNext(before: Table, now: Table, order: seq<string>, i: nat)
    requires i < |order| && NoDuplicates(order) && HalfSettled(before, now, order, i)
    requires DepsKnown(before)
    ensures now[order[i]] == before[order[i]]
    ensures forall dep :: dep in now[order[i]].dependencies ==> dep in now
    ensures HalfSettled(before, now[order[i] := Settle(now, now[order[i]])], order, i + 1)
    ensures Settle(now, now[order[i]]) == now[order[i]] ==> HalfSettled(before, now, order, i + 1)
  {
    forall id | id in now ensures now[id].status.Done? <==> before[id].status.Done? {
      var j :| 0 <= j < |order| && order[j] == id;
    }
    SettleReadsDoneOnly(before, now, before[order[i]]);
  }

  lemma AllSettled(before: Table, now: Table, order: seq<string>)
    requires HalfSettled(before, now, order, |order|)
    ensures now == Refreshed(before)
  {
    forall id | id in now ensures now[id] == Refreshed(before)[id] {
      var j :| 0 <= j < |order| && order[j] == id;
    }
  }

  ghost predicate DependsOnOthers(tasks: Table, id: string) {
    id in tasks && forall dep :: dep in tasks[id].dependencies ==> dep in tasks && dep != id
  }

  class Registry {
    var order: seq<string>  // the dictionary's insertion order
    var tasks: Table

    ghost predicate Valid()
      reads this
    {
      NoDuplicates(order) && Elements(order) == tasks.Keys
    }

    constructor (items: seq<(string, Task)>)
      ensures Valid() && tasks == Collapse(items)
    {
      order, tasks := [], map[];
      new;
      for i := 0 to |items|
        invariant Valid() && tasks == Collapse(items[..i])
      {
        assert items[..i + 1][..i] == items[..i];
        var (id, task) := items[i];
        if id !in tasks {
          assert id !in order;
          order := order + [id];
        }
        tasks := tasks[id := task];
      }
      assert items[..|items|] == items;
    }

    /** `validate`: the duplicate check never fires, because the dictionary has already dropped duplicates. */
    method Validate() returns (refusal: Option<Refusal>)
      requires Valid()
      ensures refusal.None? <==> Sound(tasks)
      ensures refusal.Some? ==> !refusal.value.DuplicateId?
    {
      if |tasks| == 0 {
        return Some(EmptyRegistry);
      }
      var seen := {};
      for i := 0 to |order|
        invariant seen == Elements(order[..i])
        invariant forall j :: 0 <= j < i ==> DependsOnOthers(tasks, order[j])
      {
        var id := order[i];
        assert id in Elements(order);
        if id in seen {
          assert false;
          return Some(DuplicateId(id));
        }
        seen := seen + {id};
        assert Elements(order[..i + 1]) == Elements(order[..i]) + {id} by {
          assert order[..i + 1] == order[..i] + [id];
        }
        if exists dep :: dep in tasks[id].dependencies && dep !in tasks {
          return Some(UnknownDependencies(id));
        }
        if id in tasks[id].dependencies {
          assert DepsOf(tasks)[id] == tasks[id].dependencies;
          assert Cycle(Arrows(DepsOf(tasks)), [id, id]);
          return Some(SelfDependency(id));
        }
        assert DependsOnOthers(tasks, order[i]);
      }
      forall id | id in tasks ensures DependsOnOthers(tasks, id) {
        assert id in Elements(order);
      }
      var cycleAt := DetectCycle(DepsOf(tasks));
      return if cycleAt.Some? then Some(CycleAt(cycleAt.value)) else None;
    }

    /** One turn of the refresh loop. */
    method SettleTask(id: string)
      requires id in tasks && forall dep :: dep in tasks[id].dependencies ==> dep in tasks
      modifies this`tasks
      ensures tasks == old(tasks)[id := Settle(old(tasks), old(tasks)[id])]
    {
      var task := tasks[id];
      if task.status in {Done, Archived, Failed, InProgress, Review} {
        return;
      }
      if forall dep :: dep in task.dependencies ==> tasks[dep].status == Done {
        tasks := tasks[id := task.(status := Ready)];
      } else if task.dependencies != [] {
        tasks := tasks[id := task.(status := Blocked)];
      } else {
        assert false;  // with no dependencies the first test already held
      }
    }

    /** The loop settles tasks one by one, reading the half-settled table; the result is as if all at once. */
    method RefreshReadyStates()
      requires Valid() && DepsKnown(tasks)
      modifies this`tasks
      ensures Valid() && tasks == Refreshed(old(tasks))
    {
      for i := 0 to |order|
        invariant Valid() && HalfSettled(old(tasks), tasks, order, i)
      {
        SettleNext(old(tasks), tasks, order, i);
        SettleTask(order[i]);
      }
      AllSettled(old(tasks), tasks, order);
    }

    method AssignTask(id: string, assignee: string) returns (refusal: Option<Refusal>)
      requires Valid() && DepsKnown(tasks)
      modifies this`tasks
      ensures Valid() && Outcome(tasks, refusal) == Assigned(old(tasks), id, assignee)
    {
      if id !in tasks {
        return Some(UnknownTask(id));
      }
      RefreshReadyStates();
      if tasks[id].status != Ready {
        return Some(NotReady(id));
      }
      if assignee != "" {
        tasks := tasks[id := tasks[id].(assignee := assignee)];
      }
      tasks := tasks[id := tasks[id].(status := InProgress)];
      return None;
    }

    method UpdateStatus(id: string, text: string) returns (refusal: Option<Refusal>)
      requires Valid() && DepsKnown(tasks)
      modifies this`tasks
      ensures Valid() && Outcome(tasks, refusal) == Updated(old(tasks), id, text)
    {
      var status := ParseStatus(text);
      if status.None? {
        return Some(InvalidStatus(text));
      }
      if id !in tasks {
        return Some(UnknownTask(id));
      }
      if status.value == Done {
        if exists dep :: dep in tasks[id].dependencies && tasks[dep].status != Done {
          return Some(UnresolvedDependencies(id));
        }
      }
      tasks := tasks[id := tasks[id].(status := status.value)];
      RefreshReadyStates();
      return None;
    }

    /** `ready_tasks`: refresh, then every ready task once, by priority and then by id. */
    method ReadyTasks() returns (ready: seq<string>)
      requires Valid() && DepsKnown(tasks)
      modifies this`tasks
      ensures Valid() && tasks == Refreshed(old(tasks))
      ensures NoDuplicates(ready) && forall id :: id in ready <==> ReadyNow(old(tasks), id)
      ensures forall i, j :: 0 <= i < j < |ready| ==> KeyLe(tasks, ready[i], ready[j])
    {
      RefreshReadyStates();
      ready := [];
      for rank := 0 to 10
        invariant Valid() && tasks == Refreshed(old(tasks))
        invariant NoDuplicates(ready)
        invariant forall id :: id in ready <==>
          id in tasks && tasks[id].status.Ready? && PriorityRank(tasks[id].priority) < rank
        invariant forall i, j :: 0 <= i < j < |ready| ==> KeyLe(tasks, ready[i], ready[j])
      {
        var tier := SortedKeys(set id | id in tasks && tasks[id].status.Ready?
          && PriorityRank(tasks[id].priority) == rank);
        AppendTier(tasks, ready, tier, rank);
        ready := ready + tier;
      }
    }
  }

  lemma AppendTier(tasks: Table, ready: seq<string>, tier: seq<string>, rank: nat)
    requires NoDuplicates(ready)
    requires forall id :: id in ready <==>
      id in tasks && tasks[id].status.Ready? && PriorityRank(tasks[id].priority) < rank
    requires forall i, j :: 0 <= i < j < |ready| ==> KeyLe(tasks, ready[i], ready[j])
    requires SortedListing(tier, set id | id in tasks && tasks[id].status.Ready?
      && PriorityRank(tasks[id].priority) == rank)
    ensures NoDuplicates(ready + tier)
    ensures forall id :: id in ready + tier <==>
      id in tasks && tasks[id].status.Ready? && PriorityRank(tasks[id].priority) <= rank
    ensures forall i, j :: 0 <= i < j < |ready + tier| ==> KeyLe(tasks, (ready + tier)[i], (ready + tier)[j])
  {
    var both := ready + tier;
    forall id
      ensures id in tier <==> id in tasks && tasks[id].status.Ready? && PriorityRank(tasks[id].priority) == rank
    {
      assert id in tier <==> id in Elements(tier);
    }
    forall i, j | 0 <= i < j < |both| ensures both[i] != both[j] && KeyLe(tasks, both[i], both[j]) {
      if j < |ready| {
        assert both[i] == ready[i] && both[j] == ready[j];
      } else {
        assert both[j] == tier[j - |ready|] && both[j] in tier;
        if i < |ready| { assert both[i] == ready[i] && both[i] in ready; }
        else {
          assert both[i] == tier[i - |ready|] && both[i] in tier;
          assert InOrder(tier, i - |ready|, j - |ready|);
        }
      }
    }
  }

  /** `load_from_yaml` after parsing: construct, validate, refresh. */
  method Load(items: seq<(string, Task)>) returns (r: Result<Registry, Refusal>)
    ensures r.Ok? <==> Sound(Collapse(items))
    ensures r.Ok? ==> r.value.Valid() && r.value.tasks == Refreshed(Collapse(items)) && Settled(r.value.tasks)
  {
    var registry := new Registry(items);
    var refusal := registry.Validate();
    if refusal.Some? {
      return Err(refusal.value);
    }
    RefreshSettles(registry.tasks);
    registry.RefreshReadyStates();
    return Ok(registry);
  }

  /** Documented as rejected, but accepted: a list with two tasks of one id loads, and the first task is gone. */
  lemma DuplicateIdLoads(id: string, first: Task, second: Task)
    requires first.dependencies == second.dependencies == []
    ensures Sound(Collapse([(id, first), (id, second)]))
    ensures Collapse([(id, first), (id, second)]) == Collapse([(id, second)])
  {
    var items := [(id, first), (id, second)];
    assert items[..1] == [(id, first)] && items[..1][..0] == [];
    assert Collapse(items[..1]) == map[id := first];
    assert [(id, second)][..0] == [];
    var tasks := Collapse(items);
    assert tasks == map[id := second] && id in tasks;
    forall p ensures !Cycle(Arrows(DepsOf(tasks)), p) {
      if |p| >= 2 { assert (p[0], p[1]) !in Arrows(DepsOf(tasks)); }
    }
  }

  function IdsOf(items: seq<(string, Task)>): seq<string> {
    seq(|items|, i requires 0 <= i < |items| => items[i].0)
  }

  /** The dictionary holds every listed id, and under it the last task listed. */
  lemma {:induction false} CollapseHolds(items: seq<(string, Task)>, i: nat)
    requires i < |items| && forall j :: i < j < |items| ==> items[j].0 != items[i].0
    ensures items[i].0 in Collapse(items) && Collapse(items)[items[i].0] == items[i].1
    decreases |items|
  {
    if i < |items| - 1 { CollapseHolds(items[..|items| - 1], i); }
  }

  lemma {:induction false} CollapseKeys(items: seq<(string, Task)>)
    ensures Collapse(items).Keys == Elements(IdsOf(items))
    decreases |items|
  {
    if items != [] {
      var n := |items| - 1;
      CollapseKeys(items[..n]);
      assert IdsOf(items) == IdsOf(items[..n]) + [items[n].0];
    }
  }

  lemma {:induction false} LastListing(items: seq<(string, Task)>, id: string) returns (i: nat)
    requires exists j :: 0 <= j < |items| && items[j].0 == id
    ensures i < |items| && items[i].0 == id && forall j :: i < j < |items| ==> items[j].0 != id
    decreases |items|
  {
    i := |items| - 1;
    if items[i].0 != id {
      var j :| 0 <= j < |items| && items[j].0 == id;
      assert items[..|items| - 1][j].0 == id;
      i := LastListing(items[..|items| - 1], id);
    }
  }

  ghost predicate Kept(tasks: Table, item: (string, Task)) {
    item.0 in tasks && tasks[item.0] == item.1
  }

  ghost predicate Agree(a: (string, Task), b: (string, Task)) {
    a.0 == b.0 ==> a.1 == b.1
  }

  /** Every listed task is in the registry exactly when no id is listed with two different tasks. */
  lemma EveryTaskKeptIff(items: seq<(string, Task)>)
    ensures (forall i :: 0 <= i < |items| ==> Kept(Collapse(items), items[i])) <==>
      (forall i, j :: 0 <= i < |items| && 0 <= j < |items| ==> Agree(items[i], items[j]))
  {
    var tasks := Collapse(items);
    if forall i, j :: 0 <= i < |items| && 0 <= j < |items| ==> Agree(items[i], items[j]) {
      forall i | 0 <= i < |items| ensures Kept(tasks, items[i]) {
        var k := LastListing(items, items[i].0);
        CollapseHolds(items, k);
        assert Agree(items[i], items[k]);
      }
    }
    if forall i :: 0 <= i < |items| ==> Kept(tasks, items[i]) {
      forall i, j | 0 <= i < |items| && 0 <= j < |items| ensures Agree(items[i], items[j]) {
        assert Kept(tasks, items[i]) && Kept(tasks, items[j]);
      }
    }
  }

  /** The registry is as large as the list exactly when no id is listed twice. */
  lemma AsManyAsListedIff(items: seq<(string, Task)>)
    ensures |Collapse(items)| <= |items|
    ensures |Collapse(items)| == |items| <==> forall i, j :: 0 <= i < j < |items| ==> items[i].0 != items[j].0
  {
    CollapseKeys(items);
    var ids := IdsOf(items);
    assert |Collapse(items)| == |Collapse(items).Keys|;
    ElementsNoLarger(ids);
    DistinctIffAsLarge(ids);
    if NoDuplicates(ids) {
      forall i, j | 0 <= i < j < |items| ensures items[i].0 != items[j].0 { assert ids[i] != ids[j]; }
    }
  }
}
