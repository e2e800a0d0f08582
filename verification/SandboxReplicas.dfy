/** Engines on one log (sandbox_engine.py). */
module SandboxReplicas {
  // The engines of mcp_qso_edu/sandbox_engine.py share one operation log. Every call refreshes from
  // the log, works on its own runtime, and appends what it did.

  import opened Common
  import opened JsonTrees
  import Entanglement
  import Digraph

  // ----- the runtime a sandbox context owns

  datatype TimelineEvent = TimelineEvent(uri: string, delta: Fields, actor: string, tick: nat)

  /** Objects by uri with their state layer, the event log with its logical clock, and the links. */
  datatype Runtime = Runtime(objects: map<string, Fields>, events: seq<TimelineEvent>, clock: nat,
      links: seq<Entanglement.Link>)

  const FRESH := Runtime(map[], [], 0, [])

  datatype Op =
    | Create(uri: string)
    | Patch(uri: string, delta: Fields, actor: string)
    | Entangle(a: string, b: string, relationship: string)

  datatype Failure = NotAdmitted | AlreadyExists | NotFound | WouldCycle

  /** What the tool call does to the runtime, or why it raises. */
  ghost function Exec(rt: Runtime, op: Op): Result<Runtime, Failure> {
    match op
    case Create(uri) =>
      if uri in rt.objects then Err(AlreadyExists) else Ok(rt.(objects := rt.objects[uri := map[]]))
    case Patch(uri, delta, actor) =>
      if uri !in rt.objects then Err(NotFound)
      else Ok(rt.(objects := rt.objects[uri := Merge(Obj(rt.objects[uri]), Obj(delta)).fields],
                  clock := rt.clock + 1,
                  events := rt.events + [TimelineEvent(uri, delta, actor, rt.clock + 1)]))
    case Entangle(a, b, relationship) =>
      var out := Entanglement.Entangled(rt.links, Entanglement.Link(a, b, relationship), false, false);
      if out.refusal.Some? then Err(WouldCycle) else Ok(rt.(links := out.links))
  }

  method ExecOp(rt: Runtime, op: Op) returns (r: Result<Runtime, Failure>)
    ensures r == Exec(rt, op)
  {
    match op
    case Create(uri) =>
      return if uri in rt.objects then Err(AlreadyExists) else Ok(rt.(objects := rt.objects[uri := map[]]));
    case Patch(uri, delta, actor) =>
      if uri !in rt.objects {
        return Err(NotFound);
      }
      var merged := DeepMerge(rt.objects[uri], delta);
      return Ok(rt.(objects := rt.objects[uri := merged], clock := rt.clock + 1,
                    events := rt.events + [TimelineEvent(uri, delta, actor, rt.clock + 1)]));
    case Entangle(a, b, relationship) =>
      var links, refusal := Entanglement.Entangle(rt.links, Entanglement.Link(a, b, relationship), false, false);
      return if refusal.Some? then Err(WouldCycle) else Ok(rt.(links := links));
  }

  // ----- replay

  /** `_replay_operation`: a creation that finds the object there is passed over. */
  ghost function ReplayOne(rt: Runtime, op: Op): Result<Runtime, Failure> {
    var r := Exec(rt, op);
    if op.Create? && r == Err(AlreadyExists) then Ok(rt) else r
  }

  /** A log that creates an object twice replays as if it did so once; nothing else that failed is passed over. */
  lemma SecondCreatePassedOver(rt: Runtime, op: Op)
    ensures ReplayOne(rt, op).Err? <==> Exec(rt, op).Err? && !op.Create?
    ensures op.Create? && Exec(rt, op).Err? ==> ReplayOne(rt, op) == Ok(rt)
    ensures Exec(rt, op).Ok? ==> ReplayOne(rt, op) == Exec(rt, op)
  {
  }

  ghost function Replay(rt: Runtime, ops: seq<Op>): Result<Runtime, Failure>
    decreases ops
  {
    if ops == [] then Ok(rt)
    else
      var r := ReplayOne(rt, ops[0]);
      if r.Err? then r else Replay(r.value, ops[1..])
  }

  lemma {:induction false} ReplayConcat(rt: Runtime, a: seq<Op>, b: seq<Op>)
    ensures Replay(rt, a + b) == var r := Replay(rt, a); if r.Err? then r else Replay(r.value, b)
    decreases a
  {
    if a == [] {
      assert a + b == b;
    } else {
      assert (a + b)[1..] == a[1..] + b;
      var r := ReplayOne(rt, a[0]);
      if r.Ok? { ReplayConcat(r.value, a[1..], b); }
    }
  }

  lemma ReplaySingle(rt: Runtime, op: Op)
    ensures Replay(rt, [op]) == ReplayOne(rt, op)
  {
    assert [op][1..] == [];
  }

  /** A replay that succeeds goes on succeeding; the operation at its head ran, or found its object there. */
  lemma ReplayHead(rt: Runtime, ops: seq<Op>)
    requires ops != [] && Replay(rt, ops).Ok?
    ensures var r := Exec(rt, ops[0]); Replay(if r.Ok? then r.value else rt, ops[1..]) == Replay(rt, ops)
  {
  }

  /** Every operation of the log succeeded outright where it stands: no replay of it can raise or be passed over. */
  ghost predicate Sound(log: seq<Op>)
    decreases log
  {
    log == [] || (Sound(log[..|log| - 1]) && Replay(FRESH, log[..|log| - 1]).Ok?
                  && Exec(Replay(FRESH, log[..|log| - 1]).value, log[|log| - 1]).Ok?)
  }

  lemma SoundReplays(log: seq<Op>)
    requires Sound(log)
    ensures Replay(FRESH, log).Ok?
  {
    if log != [] {
      var n := |log| - 1;
      assert log == log[..n] + [log[n]];
      ReplayConcat(FRESH, log[..n], [log[n]]);
      assert [log[n]][1..] == [];
    }
  }

  /** The state a log stands for. */
  ghost function StateOf(log: seq<Op>): Runtime
    requires Sound(log)
  {
    SoundReplays(log);
    Replay(FRESH, log).value
  }

  lemma SoundAppend(log: seq<Op>, op: Op)
    requires Sound(log) && Exec(StateOf(log), op).Ok?
    ensures Sound(log + [op]) && StateOf(log + [op]) == Exec(StateOf(log), op).value
  {
    var longer := log + [op];
    assert longer[..|longer| - 1] == log && longer[|longer| - 1] == op;
    SoundReplays(log);
    ReplayConcat(FRESH, log, [op]);
    ReplaySingle(StateOf(log), op);
  }

  /** Catching up from k operations replays exactly the rest. */
  lemma CatchUp(log: seq<Op>, k: nat)
    requires Sound(log) && k <= |log| && Sound(log[..k])
    ensures Replay(StateOf(log[..k]), log[k..]) == Ok(StateOf(log))
  {
    SoundReplays(log);
    assert log == log[..k] + log[k..];
    ReplayConcat(FRESH, log[..k], log[k..]);
  }

  // ----- what sound logs guarantee about the state

  /** The links of every sandbox form a DAG. */
  lemma {:induction false} LinksStayDag(log: seq<Op>)
    requires Sound(log)
    ensures Digraph.Acyclic(Entanglement.Arrows(StateOf(log).links))
    decreases log
  {
    if log == [] {
      assert Entanglement.Arrows(FRESH.links) == {};
      forall p ensures !Digraph.Cycle({}, p) {
        if |p| >= 2 { assert (p[0], p[1]) !in Entanglement.Arrows(FRESH.links); }
      }
    } else {
      var n := |log| - 1;
      LinksStayDag(log[..n]);
      assert log == log[..n] + [log[n]];
      SoundAppend(log[..n], log[n]);
      match log[n]
      case Entangle(a, b, relationship) =>
        Entanglement.EntangleKeepsDag(StateOf(log[..n]).links, Entanglement.Link(a, b, relationship), false);
      case _ =>
    }
  }

  /** `rebuild_from_log`: the state of one object folded from its timeline. */
  ghost function Rebuild(events: seq<TimelineEvent>, uri: string): Fields
    decreases events
  {
    if events == [] then map[]
    else
      var n := |events| - 1;
      if events[n].uri == uri then Merge(Obj(Rebuild(events[..n], uri)), Obj(events[n].delta)).fields
      else Rebuild(events[..n], uri)
  }

  lemma {:induction false} RebuildUnmentioned(events: seq<TimelineEvent>, uri: string)
    requires forall i :: 0 <= i < |events| ==> events[i].uri != uri
    ensures Rebuild(events, uri) == map[]
    decreases events
  {
    if events != [] { RebuildUnmentioned(events[..|events| - 1], uri); }
  }

  ghost predicate TimelineAgrees(rt: Runtime) {
    && rt.clock == |rt.events|
    && (forall i :: 0 <= i < |rt.events| ==> rt.events[i].uri in rt.objects && rt.events[i].tick == i + 1)
    && forall uri :: uri in rt.objects ==> Rebuild(rt.events, uri) == rt.objects[uri]
  }

  lemma ExecKeepsTimeline(rt: Runtime, op: Op)
    requires TimelineAgrees(rt) && Exec(rt, op).Ok?
    ensures TimelineAgrees(Exec(rt, op).value)
  {
    var next := Exec(rt, op).value;
    match op
    case Create(uri) => RebuildUnmentioned(rt.events, uri);
    case Patch(uri, delta, actor) =>
      assert next.events[..|next.events| - 1] == rt.events;
      forall x | x in next.objects ensures Rebuild(next.events, x) == next.objects[x] { }
    case Entangle(a, b, relationship) =>
  }

  /** In the state of any sound log, every object's state layer is what its timeline rebuilds to. */
  lemma {:induction false} StateRebuilds(log: seq<Op>)
    requires Sound(log)
    ensures TimelineAgrees(StateOf(log))
    decreases log
  {
    if log != [] {
      var n := |log| - 1;
      StateRebuilds(log[..n]);
      assert log == log[..n] + [log[n]];
      SoundAppend(log[..n], log[n]);
      ExecKeepsTimeline(StateOf(log[..n]), log[n]);
    }
  }

  // ----- the shared store and the contexts

  /** The operation store as its contexts see it: what was appended. Its rows and hashes are in OperationLogs. */
  class SharedLogs {
    var logs: map<string, seq<Op>>

    constructor ()
      ensures logs == map[]
    {
      logs := map[];
    }

    function Log(id: string): seq<Op>
      reads this
    {
      if id in logs then logs[id] else []
    }

    method AppendOp(id: string, op: Op)
      modifies this
      ensures Log(id) == old(Log(id)) + [op]
      ensures forall other :: other != id ==> Log(other) == old(Log(other))
    {
      logs := logs[id := Log(id) + [op]];
    }
  }

  /** The loop of `_refresh`; the creation error is the one `_replay_operation` swallows. */
  method ReplayAll(rt0: Runtime, operations: seq<Op>) returns (rt: Runtime)
    requires Replay(rt0, operations).Ok?
    ensures Replay(rt0, operations) == Ok(rt)
  {
    rt := rt0;
    var k := 0;
    while k < |operations|
      invariant k <= |operations| && Replay(rt, operations[k..]) == Replay(rt0, operations)
    {
      ReplayHead(rt, operations[k..]);
      assert operations[k..][1..] == operations[k + 1..];
      var r := ExecOp(rt, operations[k]);
      if r.Ok? {
        rt := r.value;
      }
      k := k + 1;
    }
  }

  class SandboxContext {
    const id: string
    const store: SharedLogs
    var runtime: Runtime
    var appliedOps: nat

    /** The runtime is the state of the first `appliedOps` operations of the sandbox's log. */
    ghost predicate Valid()
      reads this, store
    {
      && Sound(store.Log(id)) && appliedOps <= |store.Log(id)|
      && Sound(store.Log(id)[..appliedOps]) && runtime == StateOf(store.Log(id)[..appliedOps])
    }

    ghost predicate UpToDate()
      reads this, store
    {
      Valid() && appliedOps == |store.Log(id)|
    }

    /** `open`: a new context replays the whole log. */
    constructor (id: string, store: SharedLogs)
      requires Sound(store.Log(id))
      ensures this.id == id && this.store == store && UpToDate()
    {
      this.id, this.store := id, store;
      runtime, appliedOps := FRESH, 0;
      new;
      assert store.Log(id)[..0] == [];
      Refresh();
    }

    /** `_refresh`: replay what others appended. On a sound log no operation raises half-way. */
    method Refresh()
      requires Valid()
      modifies this
      ensures UpToDate()
    {
      var operations := store.Log(id);
      if appliedOps >= |operations| {
        return;
      }
      CatchUp(operations, appliedOps);
      runtime := ReplayAll(runtime, operations[appliedOps..]);
      appliedOps := |operations|;
      assert operations[..appliedOps] == operations;
    }

    /**
     `create`, `patch`, `entangle`: refresh, ask the permissions and the rate limiter (`admitted`),
     run the tool, append the operation.
     */
    method Call(op: Op, admitted: bool) returns (failure: Option<Failure>)
      requires Valid()
      modifies this, store
      ensures UpToDate()
      ensures failure == Verdict(old(store.Log(id)), op, admitted)
      ensures store.Log(id) == LogAfter(old(store.Log(id)), op, admitted)
      ensures forall other :: other != id ==> store.Log(other) == old(store.Log(other))
      ensures forall c: SandboxContext | old(allocated(c)) && c != this && c.store == store
        && old(c.Valid()) :: c.Valid()
    {
      Refresh();
      if !admitted {
        return Some(NotAdmitted);
      }
      assert store.Log(id)[..appliedOps] == store.Log(id);
      var r := ExecOp(runtime, op);
      if r.Err? {
        return Some(r.error);
      }
      Commit(op, r.value);
      return None;
    }

    /** The operation that has just run is appended. */
    method Commit(op: Op, after: Runtime)
      requires UpToDate() && Exec(StateOf(store.Log(id)), op) == Ok(after)
      modifies this, store
      ensures UpToDate() && store.Log(id) == old(store.Log(id)) + [op]
      ensures forall other :: other != id ==> store.Log(other) == old(store.Log(other))
      ensures forall c: SandboxContext | old(allocated(c)) && c != this && c.store == store
        && old(c.Valid()) :: c.Valid()
    {
      ghost var log := store.Log(id);
      SoundAppend(log, op);
      runtime := after;
      store.AppendOp(id, op);
      appliedOps := appliedOps + 1;
      assert store.Log(id)[..appliedOps] == store.Log(id);
      forall c: SandboxContext | old(allocated(c)) && c != this && c.store == store && old(c.Valid())
        ensures c.Valid()
      {
        assert c.id == id ==> store.Log(id)[..c.appliedOps] == log[..c.appliedOps];
      }
    }
  }

  ghost function Verdict(log: seq<Op>, op: Op, admitted: bool): Option<Failure>
    requires Sound(log)
  {
    if !admitted then Some(NotAdmitted)
    else match Exec(StateOf(log), op)
      case Ok(_) => None
      case Err(why) => Some(why)
  }

  ghost function LogAfter(log: seq<Op>, op: Op, admitted: bool): (r: seq<Op>)
    requires Sound(log)
    ensures Sound(r)
  {
    if Verdict(log, op, admitted).None? then SoundAppend(log, op); log + [op] else log
  }

  ghost function Gain(log: seq<Op>, op: Op, admitted: bool): (gain: seq<Op>)
    requires Sound(log)
    ensures LogAfter(log, op, admitted) == log + gain
  {
    if Verdict(log, op, admitted).None? then [op] else []
  }

  /** Two contexts of one sandbox that are up to date hold the same objects, timeline and links. */
  lemma UpToDateAgree(a: SandboxContext, b: SandboxContext)
    requires a.store == b.store && a.id == b.id && a.UpToDate() && b.UpToDate()
    ensures a.runtime == b.runtime
  {
    assert a.store.Log(a.id)[..a.appliedOps] == b.store.Log(b.id)[..b.appliedOps];
  }

  /** The log after a run of calls, by whichever contexts; each is an operation and whether it was admitted. */
  ghost function LogAfterRun(log: seq<Op>, calls: seq<(Op, bool)>): (r: seq<Op>)
    requires Sound(log)
    ensures Sound(r)
    decreases calls
  {
    if calls == [] then log else LogAfterRun(LogAfter(log, calls[0].0, calls[0].1), calls[1..])
  }

  /** The operations of the run that succeeded, in order. */
  ghost function Succeeded(log: seq<Op>, calls: seq<(Op, bool)>): seq<Op>
    requires Sound(log)
    decreases calls
  {
    if calls == [] then []
    else Gain(log, calls[0].0, calls[0].1) + Succeeded(LogAfter(log, calls[0].0, calls[0].1), calls[1..])
  }

  lemma Associative(a: seq<Op>, b: seq<Op>, c: seq<Op>)
    ensures (a + b) + c == a + (b + c)
  {
  }

  lemma {:induction false} RunAppendsSuccesses(log: seq<Op>, calls: seq<(Op, bool)>)
    requires Sound(log)
    ensures LogAfterRun(log, calls) == log + Succeeded(log, calls)
    decreases calls
  {
    if calls == [] {
      assert log + [] == log;
    } else {
      var next, gain := LogAfter(log, calls[0].0, calls[0].1), Gain(log, calls[0].0, calls[0].1);
      RunAppendsSuccesses(next, calls[1..]);
      Associative(log, gain, Succeeded(next, calls[1..]));
    }
  }

  /** A run's effect is that of its successful operations alone, executed one after another on one runtime. */
  lemma RunIsItsSuccesses(log: seq<Op>, calls: seq<(Op, bool)>)
    requires Sound(log)
    ensures Replay(StateOf(log), Succeeded(log, calls)) == Ok(StateOf(LogAfterRun(log, calls)))
  {
    var after := LogAfterRun(log, calls);
    RunAppendsSuccesses(log, calls);
    assert after[..|log|] == log && after[|log|..] == Succeeded(log, calls);
    CatchUp(after, |log|);
  }

  // ----- what a call adds

  /** What keys read after a delta has been merged: those outside it as before, its leaves as given. */
  ghost predicate Reads(before: Fields, delta: Fields, after: Fields) {
    && after.Keys == before.Keys + delta.Keys
    && (forall k :: k in before && k !in delta ==> after[k] == before[k])
    && (forall k :: k in delta && !(k in before && before[k].Obj? && delta[k].Obj?) ==> after[k] == delta[k])
    && (forall k :: k in delta && k in before && before[k].Obj? && delta[k].Obj? ==>
         after[k].Obj? && Merge(before[k], delta[k]) == after[k])
  }

  /**
   A patch of an object that is there, in an admitted call, appends itself to the log, adds one event to the timeline,
   with this delta and actor and the next tick, and merges the delta into this object and no other. Of a missing
   object it is refused, and nothing is appended.
   */
  lemma PatchAdds(log: seq<Op>, uri: string, delta: Fields, actor: string, admitted: bool)
    requires Sound(log)
    ensures var before, op := StateOf(log), Patch(uri, delta, actor);
      var after := StateOf(LogAfter(log, op, admitted));
      && Verdict(log, op, admitted) ==
           (if !admitted then Some(NotAdmitted) else if uri !in before.objects then Some(NotFound) else None)
      && (Verdict(log, op, admitted).Some? ==> LogAfter(log, op, admitted) == log)
      && (Verdict(log, op, admitted).None? ==>
           && LogAfter(log, op, admitted) == log + [op]
           && after.events == before.events + [TimelineEvent(uri, delta, actor, |before.events| + 1)]
           && after.objects.Keys == before.objects.Keys && uri in before.objects
           && Reads(before.objects[uri], delta, after.objects[uri])
           && (forall x :: x in before.objects && x != uri ==> after.objects[x] == before.objects[x])
           && after.links == before.links)
  {
    StateRebuilds(log);
    var before, op := StateOf(log), Patch(uri, delta, actor);
    if admitted && uri in before.objects {
      SoundAppend(log, op);
      assert Reads(before.objects[uri], delta, Merge(Obj(before.objects[uri]), Obj(delta)).fields);
    }
  }

  /** A creation adds an empty object where there is none, and is refused where there is one. */
  lemma CreateAdds(log: seq<Op>, uri: string, admitted: bool)
    requires Sound(log)
    ensures var before, op := StateOf(log), Create(uri);
      var after := StateOf(LogAfter(log, op, admitted));
      && Verdict(log, op, admitted) ==
           (if !admitted then Some(NotAdmitted) else if uri in before.objects then Some(AlreadyExists) else None)
      && (Verdict(log, op, admitted).Some? ==> LogAfter(log, op, admitted) == log)
      && (Verdict(log, op, admitted).None? ==>
           && LogAfter(log, op, admitted) == log + [op]
           && after.objects.Keys == before.objects.Keys + {uri} && after.objects[uri] == map[]
           && (forall x :: x in before.objects ==> after.objects[x] == before.objects[x])
           && after.events == before.events && after.links == before.links)
  {
    if Verdict(log, Create(uri), admitted).None? { SoundAppend(log, Create(uri)); }
  }

  /** A link is added behind the others, unless its target leads back to its source: then it is refused. */
  lemma EntangleAdds(log: seq<Op>, a: string, b: string, relationship: string, admitted: bool)
    requires Sound(log)
    ensures var before, op := StateOf(log), Entangle(a, b, relationship);
      var after := StateOf(LogAfter(log, op, admitted));
      && Verdict(log, op, admitted) ==
           (if !admitted then Some(NotAdmitted)
            else if Entanglement.Leads(Entanglement.Arrows(before.links), b, a) then Some(WouldCycle) else None)
      && (Verdict(log, op, admitted).Some? ==> LogAfter(log, op, admitted) == log)
      && (Verdict(log, op, admitted).None? ==>
           && LogAfter(log, op, admitted) == log + [op]
           && after.links == before.links + [Entanglement.Link(a, b, relationship)]
           && after.objects == before.objects && after.events == before.events)
  {
    Entanglement.AcceptedStores(StateOf(log).links, Entanglement.Link(a, b, relationship), false, false);
    if Verdict(log, Entangle(a, b, relationship), admitted).None? { SoundAppend(log, Entangle(a, b, relationship)); }
  }

  // ----- the state, read off the log

  /** The timeline of a log: its patches in order, numbered from one. */
  ghost function PatchesOf(log: seq<Op>): seq<TimelineEvent>
    decreases log
  {
    if log == [] then []
    else
      var rest, last := PatchesOf(log[..|log| - 1]), log[|log| - 1];
      if last.Patch? then rest + [TimelineEvent(last.uri, last.delta, last.actor, |rest| + 1)] else rest
  }

  /** The links of a log, in order. */
  ghost function LinksOf(log: seq<Op>): seq<Entanglement.Link>
    decreases log
  {
    if log == [] then []
    else
      var rest, last := LinksOf(log[..|log| - 1]), log[|log| - 1];
      if last.Entangle? then rest + [Entanglement.Link(last.a, last.b, last.relationship)] else rest
  }

  /**
   The state of a sound log: the objects that it creates, each with what its patches rebuild to; its patches as the
   timeline; and its links.
   */
  lemma {:induction false} StateReadsLog(log: seq<Op>)
    requires Sound(log)
    ensures forall uri :: uri in StateOf(log).objects <==> Create(uri) in log
    ensures StateOf(log).events == PatchesOf(log) && StateOf(log).links == LinksOf(log)
    decreases log
  {
    if log != [] {
      var n := |log| - 1;
      StateReadsLog(log[..n]);
      StateRebuilds(log[..n]);
      assert log == log[..n] + [log[n]];
      SoundAppend(log[..n], log[n]);
      assert Verdict(log[..n], log[n], true) == None;
      match log[n]
      case Create(uri) => CreateAdds(log[..n], uri, true);
      case Patch(uri, delta, actor) => PatchAdds(log[..n], uri, delta, actor, true);
      case Entangle(a, b, relationship) => EntangleAdds(log[..n], a, b, relationship, true);
    }
  }
}
