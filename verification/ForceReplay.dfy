/**
 The force schedule of a physics replay (`XRPhysicsEngine.replay`, qso_xr/physics_engine.py):
 a cursor moves through the sorted schedule while the ticks go by. The engine is
 seen as the list of things done to it.
 */
module ForceReplay {
  import opened Ordering
  import Sorting

  datatype Row = Row(tick: int, bodyId: string, impulse: bool, force: bool, values: string)

  datatype Action = Impulse(row: Row) | Force(row: Row) | Step

  /** Sort key `(tick, body_id)`. */
  predicate DueBefore(a: Row, b: Row) {
    a.tick < b.tick || (a.tick == b.tick && Le(a.bodyId, b.bodyId))
  }

  lemma DueOrderTotal()
    ensures Sorting.TotalOrder(DueBefore)
  {
    forall a, b ensures DueBefore(a, b) || DueBefore(b, a) { LeTotal(a.bodyId, b.bodyId); }
    forall a, b, c | DueBefore(a, b) && DueBefore(b, c) ensures DueBefore(a, c) {
      if a.tick == b.tick == c.tick { LeTransitive(a.bodyId, b.bodyId, c.bodyId); }
    }
  }

  /** What a row does: nothing to a body that is not there. */
  function ActionsOf(known: set<string>, row: Row): seq<Action> {
    if row.bodyId !in known then []
    else if row.impulse && row.force then [Impulse(row), Force(row)]
    else if row.impulse then [Impulse(row)]
    else if row.force then [Force(row)]
    else []
  }

  /** The actions of the rows of one tick, in schedule order. */
  function Due(known: set<string>, schedule: seq<Row>, tick: int): seq<Action> {
    if schedule == [] then []
    else
      var n := |schedule| - 1;
      if schedule[n].tick == tick then Due(known, schedule[..n], tick) + ActionsOf(known, schedule[n])
      else Due(known, schedule[..n], tick)
  }

  /** The intended run: at every tick its own rows, then the step. */
  function Intended(known: set<string>, schedule: seq<Row>, steps: nat): seq<Action> {
    if steps == 0 then [] else Intended(known, schedule, steps - 1) + Due(known, schedule, steps) + [Step]
  }

  lemma DueSnoc(known: set<string>, schedule: seq<Row>, i: nat, tick: int)
    requires i < |schedule|
    ensures Due(known, schedule[..i + 1], tick) ==
      if schedule[i].tick == tick then Due(known, schedule[..i], tick) + ActionsOf(known, schedule[i])
      else Due(known, schedule[..i], tick)
  {
    assert schedule[..i + 1][..i] == schedule[..i];
  }

  lemma {:induction false} DueRest(known: set<string>, schedule: seq<Row>, i: nat, tick: int)
    requires i <= |schedule| && forall j :: i <= j < |schedule| ==> schedule[j].tick != tick
    ensures Due(known, schedule, tick) == Due(known, schedule[..i], tick)
    decreases |schedule|
  {
    if i < |schedule| {
      var n := |schedule| - 1;
      DueRest(known, schedule[..n], i, tick);
      assert schedule[..n][..i] == schedule[..i];
    } else {
      assert schedule[..i] == schedule;
    }
  }

  lemma {:induction false} DueNothing(known: set<string>, schedule: seq<Row>, tick: int)
    requires forall j :: 0 <= j < |schedule| ==> schedule[j].tick != tick
    ensures Due(known, schedule, tick) == []
    decreases |schedule|
  {
    if schedule != [] { DueNothing(known, schedule[..|schedule| - 1], tick); }
  }

  ghost predicate TicksRise(schedule: seq<Row>) {
    forall i, j :: 0 <= i < j < |schedule| ==> schedule[i].tick <= schedule[j].tick
  }

  lemma SortedTicksRise(rows: seq<Row>)
    ensures TicksRise(Sorting.Sort(DueBefore, rows))
  {
    var schedule := Sorting.Sort(DueBefore, rows);
    DueOrderTotal();
    Sorting.SortOrders(DueBefore, rows);
    forall i, j | 0 <= i < j < |schedule| ensures schedule[i].tick <= schedule[j].tick {
      assert Sorting.Precedes(DueBefore, schedule, i, j);
    }
  }

  /** The rows a stuck cursor never gets past. */
  predicate Early(rows: seq<Row>) {
    exists i :: 0 <= i < |rows| && rows[i].tick < 1
  }

  lemma AppendTwice(a: seq<Action>, b: seq<Action>, c: seq<Action>)
    ensures a + b + c == a + (b + c)
  {
  }

  /** What one row does, as the body of the inner loop does it. */
  method Apply(known: set<string>, row: Row, trace0: seq<Action>) returns (trace: seq<Action>)
    ensures trace == trace0 + ActionsOf(known, row)
  {
    trace := trace0;
    if row.bodyId in known {
      if row.impulse {
        trace := trace + [Impulse(row)];
      }
      if row.force {
        trace := trace + [Force(row)];
      }
    }
  }

  /** The inner loop: the cursor takes the rows of this tick. */
  method TakeDue(known: set<string>, schedule: seq<Row>, cursor0: nat, tick: int, trace0: seq<Action>)
    returns (cursor: nat, trace: seq<Action>)
    requires cursor0 <= |schedule| && TicksRise(schedule) && forall i :: 0 <= i < cursor0 ==> schedule[i].tick < tick
    ensures cursor0 <= cursor <= |schedule|
    ensures forall i :: cursor0 <= i < cursor ==> schedule[i].tick == tick
    ensures cursor < |schedule| ==> schedule[cursor].tick != tick
    ensures trace == trace0 + Due(known, schedule[..cursor], tick)
  {
    cursor, trace := cursor0, trace0;
    DueNothing(known, schedule[..cursor], tick);
    while cursor < |schedule| && schedule[cursor].tick == tick
      invariant cursor0 <= cursor <= |schedule|
      invariant forall i :: cursor0 <= i < cursor ==> schedule[i].tick == tick
      invariant trace == trace0 + Due(known, schedule[..cursor], tick)
      decreases |schedule| - cursor
    {
      DueSnoc(known, schedule, cursor, tick);
      AppendTwice(trace0, Due(known, schedule[..cursor], tick), ActionsOf(known, schedule[cursor]));
      trace := Apply(known, schedule[cursor], trace);
      cursor := cursor + 1;
    }
  }

  /** A row before tick 1 holds the cursor at the start; otherwise it stands between the past and the rest. */
  ghost predicate CursorStands(schedule: seq<Row>, early: bool, cursor: nat, tick: int) {
    && cursor <= |schedule|
    && (early ==> cursor == 0 && schedule != [] && schedule[0].tick < 1)
    && (!early ==>
         && (forall i :: 0 <= i < cursor ==> schedule[i].tick < tick)
         && forall i :: cursor <= i < |schedule| ==> schedule[i].tick >= tick)
  }

  /** What the inner loop took is what is due, and the cursor stands right for the next tick. */
  lemma TickIsTaken(known: set<string>, schedule: seq<Row>, early: bool, start: nat, cursor: nat, tick: int)
    requires 1 <= tick && TicksRise(schedule) && CursorStands(schedule, early, start, tick)
    requires start <= cursor <= |schedule| && forall i :: start <= i < cursor ==> schedule[i].tick == tick
    requires cursor < |schedule| ==> schedule[cursor].tick != tick
    ensures CursorStands(schedule, early, cursor, tick + 1)
    ensures Due(known, schedule[..cursor], tick) == Due(known, if early then [] else schedule, tick)
  {
    if early {
      assert schedule[..0] == [];
    } else {
      TickIsDone(known, schedule, cursor, tick);
    }
  }

  /** One turn of the replay loop: the tick's rows, then the step. */
  method Tick(known: set<string>, schedule: seq<Row>, ghost early: bool, cursor0: nat, tick: int, trace0: seq<Action>)
    returns (cursor: nat, trace: seq<Action>)
    requires 1 <= tick && TicksRise(schedule) && CursorStands(schedule, early, cursor0, tick)
    ensures CursorStands(schedule, early, cursor, tick + 1)
    ensures trace == trace0 + Due(known, if early then [] else schedule, tick) + [Step]
  {
    if early {
      assert schedule[..0] == [];
    }
    cursor, trace := TakeDue(known, schedule, cursor0, tick, trace0);
    TickIsTaken(known, schedule, early, cursor0, cursor, tick);
    trace := trace + [Step];
  }

  /** The replay loop: the intended run, unless a row before tick 1 keeps the cursor from ever moving. */
  method Replay(known: set<string>, rows: seq<Row>, steps: int) returns (trace: seq<Action>)
    ensures var count := if steps < 0 then 0 else steps;
      trace == if Early(rows) then Intended(known, [], count) else Intended(known, Sorting.Sort(DueBefore, rows), count)
  {
    var schedule := Sorting.Sort(DueBefore, rows);
    SortedTicksRise(rows);
    EarlyIsFirst(rows, schedule);
    ghost var early := Early(rows);
    ghost var reached := if early then [] else schedule;
    var cursor: nat := 0;
    trace := [];
    var tick := 1;
    while tick <= steps
      invariant 1 <= tick && (tick <= steps + 1 || (tick == 1 && steps < 0))
      invariant cursor <= |schedule| && trace == Intended(known, reached, tick - 1)
      invariant CursorStands(schedule, early, cursor, tick)
      decreases steps - tick
    {
      cursor, trace := Tick(known, schedule, early, cursor, tick, trace);
      tick := tick + 1;
    }
  }

  /** When the cursor stops at a later row, the tick's rows are all behind it. */
  lemma TickIsDone(known: set<string>, schedule: seq<Row>, cursor: nat, tick: int)
    requires cursor <= |schedule| && TicksRise(schedule) && (cursor < |schedule| ==> schedule[cursor].tick > tick)
    ensures forall j :: cursor <= j < |schedule| ==> schedule[j].tick > tick
    ensures Due(known, schedule, tick) == Due(known, schedule[..cursor], tick)
  {
    forall j | cursor <= j < |schedule| ensures schedule[j].tick > tick {
      assert schedule[cursor].tick <= schedule[j].tick;
    }
    DueRest(known, schedule, cursor, tick);
  }

  lemma EarlyIsFirst(rows: seq<Row>, schedule: seq<Row>)
    requires multiset(schedule) == multiset(rows) && TicksRise(schedule)
    ensures Early(rows) <==> schedule != [] && schedule[0].tick < 1
    ensures !Early(rows) ==> forall i :: 0 <= i < |schedule| ==> schedule[i].tick >= 1
  {
    Sorting.SameElements(schedule, rows);
    if Early(rows) {
      var i :| 0 <= i < |rows| && rows[i].tick < 1;
      assert rows[i] in schedule;
      var j :| 0 <= j < |schedule| && schedule[j] == rows[i];
      assert schedule[0].tick <= schedule[j].tick;
    }
    forall i | 0 <= i < |schedule| && schedule[i].tick < 1 ensures Early(rows) {
      assert schedule[i] in rows;
    }
  }

  // ----- what the intended run applies

  /** A row that does something and falls within the run. */
  predicate Effective(known: set<string>, row: Row, steps: nat) {
    1 <= row.tick <= steps && ActionsOf(known, row) != []
  }

  lemma {:induction false} DueEmptyIff(known: set<string>, schedule: seq<Row>, tick: int)
    ensures Due(known, schedule, tick) == [] <==>
      forall row :: row in schedule && row.tick == tick ==> ActionsOf(known, row) == []
    decreases |schedule|
  {
    if schedule != [] {
      var n := |schedule| - 1;
      DueEmptyIff(known, schedule[..n], tick);
      assert schedule == schedule[..n] + [schedule[n]];
    }
  }

  lemma {:induction false} StepsOnlyIff(known: set<string>, schedule: seq<Row>, steps: nat)
    ensures |Intended(known, schedule, steps)| >= |Intended(known, [], steps)| == steps
    ensures Intended(known, schedule, steps) == Intended(known, [], steps) <==>
      forall row :: row in schedule ==> !Effective(known, row, steps)
    decreases steps
  {
    if steps > 0 {
      StepsOnlyIff(known, schedule, steps - 1);
      DueEmptyIff(known, schedule, steps);
      var run, bare := Intended(known, schedule, steps), Intended(known, [], steps);
      if run == bare {
        assert Due(known, schedule, steps) == [];
        assert Intended(known, schedule, steps - 1) == run[..steps - 1];
        assert Intended(known, [], steps - 1) == bare[..steps - 1];
      }
    }
  }

  /** The run is the intended one exactly when no row comes before tick 1, or no row would do anything anyway. */
  lemma ReplayIsIntendedIff(known: set<string>, rows: seq<Row>, steps: nat)
    ensures var schedule := Sorting.Sort(DueBefore, rows);
      var trace := if Early(rows) then Intended(known, [], steps) else Intended(known, schedule, steps);
      trace == Intended(known, schedule, steps) <==>
        !Early(rows) || forall row :: row in rows ==> !Effective(known, row, steps)
  {
    var schedule := Sorting.Sort(DueBefore, rows);
    Sorting.SameElements(schedule, rows);
    StepsOnlyIff(known, schedule, steps);
  }

  /** A row before tick 1, and one at tick 1 that would act: after one tick there is only the step. */
  lemma EarlyRowBlocks(known: set<string>, early: Row, due: Row)
    requires early.tick < 1 && due.tick == 1 && due.bodyId in known && (due.impulse || due.force)
    ensures Early([early, due]) && Intended(known, [], 1) == [Step]
    ensures Intended(known, Sorting.Sort(DueBefore, [early, due]), 1) != [Step]
  {
    var rows := [early, due];
    assert rows[0].tick < 1 && due == rows[1] && Effective(known, due, 1);
    ReplayIsIntendedIff(known, rows, 1);
    assert Intended(known, [], 0) == [];
  }

  lemma {:induction false} DueInsert(known: set<string>, row: Row, s: seq<Row>, tick: int)
    ensures multiset(Due(known, Sorting.Insert(DueBefore, row, s), tick)) == multiset(Due(known, [row] + s, tick))
    decreases |s|
  {
    DueCons(known, row, s, tick);
    if s == [] || DueBefore(row, s[0]) {
      assert s == [] ==> [row] + s == [row];
    } else {
      var rest := Sorting.Insert(DueBefore, row, s[1..]);
      DueInsert(known, row, s[1..], tick);
      DueCons(known, s[0], rest, tick);
      DueCons(known, row, s[1..], tick);
      assert s == [s[0]] + s[1..];
      DueCons(known, s[0], s[1..], tick);
    }
  }

  function DueOf(known: set<string>, row: Row, tick: int): seq<Action> {
    if row.tick == tick then ActionsOf(known, row) else []
  }

  lemma {:induction false} DueCons(known: set<string>, row: Row, s: seq<Row>, tick: int)
    ensures Due(known, [row] + s, tick) == DueOf(known, row, tick) + Due(known, s, tick)
    decreases |s|
  {
    var all := [row] + s;
    if s != [] {
      DueCons(known, row, s[..|s| - 1], tick);
      assert all[..|s|] == [row] + s[..|s| - 1];
    } else {
      assert all == [row] && all[..0] == [];
    }
  }

  /** Sorting loses no row and adds none: every tick applies exactly its own rows, each once. */
  lemma {:induction false} EveryRowOnce(known: set<string>, rows: seq<Row>, tick: int)
    ensures multiset(Due(known, Sorting.Sort(DueBefore, rows), tick)) == multiset(Due(known, rows, tick))
    decreases |rows|
  {
    if rows != [] {
      var rest := Sorting.Sort(DueBefore, rows[1..]);
      EveryRowOnce(known, rows[1..], tick);
      DueInsert(known, rows[0], rest, tick);
      DueCons(known, rows[0], rest, tick);
      DueCons(known, rows[0], rows[1..], tick);
      assert rows == [rows[0]] + rows[1..];
    }
  }

  /** An action of a tick is one of a row of that tick, on a body that is there, and it was asked for. */
  predicate AskedFor(known: set<string>, a: Action) {
    match a
    case Impulse(row) => row.impulse && row.bodyId in known
    case Force(row) => row.force && row.bodyId in known
    case Step => false
  }

  /** A row's actions come out of a tick as often as the row is scheduled for it. */
  lemma {:induction false} DueHolds(known: set<string>, schedule: seq<Row>, tick: int, a: Action)
    ensures multiset(Due(known, schedule, tick))[a] ==
      if AskedFor(known, a) && a.row.tick == tick then multiset(schedule)[a.row] else 0
    decreases |schedule|
  {
    if schedule != [] {
      var n := |schedule| - 1;
      DueHolds(known, schedule[..n], tick, a);
      assert schedule == schedule[..n] + [schedule[n]];
      RowActs(known, schedule[n], a);
    }
  }

  lemma RowActs(known: set<string>, row: Row, a: Action)
    ensures multiset(ActionsOf(known, row))[a] == if AskedFor(known, a) && a.row == row then 1 else 0
  {
  }

  /**
   An impulse or force is applied in a run exactly as often as a row asks for it, if the row's tick falls within the
   run, and otherwise never.
   */
  lemma {:induction false} AppliedAsAsked(known: set<string>, rows: seq<Row>, steps: nat, a: Action)
    requires a != Step
    ensures multiset(Intended(known, Sorting.Sort(DueBefore, rows), steps))[a] ==
      if AskedFor(known, a) && 1 <= a.row.tick <= steps then multiset(rows)[a.row] else 0
    decreases steps
  {
    if steps > 0 {
      AppliedAsAsked(known, rows, steps - 1, a);
      DueHolds(known, Sorting.Sort(DueBefore, rows), steps, a);
    }
  }

  /** A row that asks for both gives the impulse first. */
  lemma ImpulseFirst(known: set<string>, row: Row)
    requires row.bodyId in known && row.impulse && row.force
    ensures Due(known, [row], row.tick) == [Impulse(row), Force(row)]
  {
    assert [row][..0] == [];
  }

  /** Actions come in the order of their bodies' ids. */
  ghost predicate InBodyOrder(actions: seq<Action>) {
    forall i, j :: 0 <= i < j < |actions| ==> BodyBefore(actions, i, j)
  }

  ghost predicate BodyBefore(actions: seq<Action>, i: nat, j: nat)
    requires i < |actions| && j < |actions|
  {
    actions[i] != Step && actions[j] != Step && Le(actions[i].row.bodyId, actions[j].row.bodyId)
  }

  /** Within a tick the scheduled rows act in the order of their bodies' ids. */
  lemma TickInBodyOrder(known: set<string>, rows: seq<Row>, tick: int)
    ensures InBodyOrder(Due(known, Sorting.Sort(DueBefore, rows), tick))
  {
    DueOrderTotal();
    Sorting.SortOrders(DueBefore, rows);
    DueInBodyOrder(known, Sorting.Sort(DueBefore, rows), tick);
  }

  lemma {:induction false} DueInBodyOrder(known: set<string>, schedule: seq<Row>, tick: int)
    requires Sorting.Ordered(DueBefore, schedule)
    ensures InBodyOrder(Due(known, schedule, tick))
    decreases |schedule|
  {
    if schedule != [] {
      var n := |schedule| - 1;
      var before, last := Due(known, schedule[..n], tick), schedule[n];
      forall i, j | 0 <= i < j < n ensures Sorting.Precedes(DueBefore, schedule[..n], i, j) {
        assert Sorting.Precedes(DueBefore, schedule, i, j);
      }
      DueInBodyOrder(known, schedule[..n], tick);
      forall i | 0 <= i < |before|
        ensures before[i] != Step && (last.tick == tick ==> Le(before[i].row.bodyId, last.bodyId))
      {
        assert multiset(before)[before[i]] > 0;
        DueHolds(known, schedule[..n], tick, before[i]);
        assert before[i].row in schedule[..n];
        var k :| 0 <= k < n && schedule[k] == before[i].row;
        assert Sorting.Precedes(DueBefore, schedule, k, n);
      }
      LeTotal(last.bodyId, last.bodyId);
      var all := Due(known, schedule, tick);
      forall i, j | 0 <= i < j < |all| ensures BodyBefore(all, i, j) {
        if j < |before| { assert BodyBefore(before, i, j); }
      }
    }
  }
}
