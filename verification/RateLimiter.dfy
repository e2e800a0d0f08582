/**
 The sandbox rate limiter (mcp_qso_edu/rate_limiter.py): a deque of recent event times and
 two counters. The clock is a parameter of every call, in microseconds.
 */
module RateLimiter {
  const MINUTE := 60_000_000

  datatype Config = Config(maxEventsPerMinute: int, maxObjects: int, maxEntanglements: int)

  datatype Kind = Event | Object | Entanglement
  datatype Call = Call(kind: Kind, now: int)
  datatype Outcome = Recorded | TooManyEvents | CapExceeded

  datatype Usage = Usage(events: seq<int>, objects: nat, entanglements: nat)

  const IDLE := Usage([], 0, 0)

  /** The deque without the events before the cutoff at its head. */
  function Evicted(events: seq<int>, cutoff: int): seq<int> {
    if events != [] && events[0] < cutoff then Evicted(events[1..], cutoff) else events
  }

  function Recent(u: Usage, now: int): seq<int> {
    Evicted(u.events, now - MINUTE)
  }

  /** An object or entanglement over its cap is still counted, and so is its event. */
  function OutcomeOf(config: Config, u: Usage, call: Call): Outcome {
    if |Recent(u, call.now)| >= config.maxEventsPerMinute then TooManyEvents
    else if call.kind.Object? && u.objects + 1 > config.maxObjects then CapExceeded
    else if call.kind.Entanglement? && u.entanglements + 1 > config.maxEntanglements then CapExceeded
    else Recorded
  }

  function Next(config: Config, u: Usage, call: Call): Usage {
    var recent := Recent(u, call.now);
    if |recent| >= config.maxEventsPerMinute then Usage(recent, u.objects, u.entanglements)
    else Usage(recent + [call.now],
               if call.kind.Object? then u.objects + 1 else u.objects,
               if call.kind.Entanglement? then u.entanglements + 1 else u.entanglements)
  }

  class Limiter {
    const config: Config
    var events: seq<int>
    var objects: nat
    var entanglements: nat

    constructor (config: Config)
      ensures this.config == config && Usage(events, objects, entanglements) == IDLE
    {
      this.config, events, objects, entanglements := config, [], 0, 0;
    }

    method EvictOld(now: int)
      modifies `events
      ensures events == Evicted(old(events), now - MINUTE)
    {
      var cutoff := now - MINUTE;
      while events != [] && events[0] < cutoff
        invariant Evicted(events, cutoff) == Evicted(old(events), cutoff)
        decreases |events|
      {
        events := events[1..];
      }
    }

    method RecordEvent(now: int) returns (outcome: Outcome)
      modifies `events
      ensures Usage(events, objects, entanglements)
        == Next(config, old(Usage(events, objects, entanglements)), Call(Event, now))
      ensures outcome == OutcomeOf(config, old(Usage(events, objects, entanglements)), Call(Event, now))
    {
      EvictOld(now);
      if |events| >= config.maxEventsPerMinute {
        return TooManyEvents;
      }
      events := events + [now];
      return Recorded;
    }

    method RecordObject(now: int) returns (outcome: Outcome)
      modifies `events, `objects
      ensures Usage(events, objects, entanglements)
        == Next(config, old(Usage(events, objects, entanglements)), Call(Object, now))
      ensures outcome == OutcomeOf(config, old(Usage(events, objects, entanglements)), Call(Object, now))
    {
      outcome := RecordEvent(now);
      if outcome != Recorded {
        return;
      }
      objects := objects + 1;
      if objects > config.maxObjects {
        return CapExceeded;
      }
    }

    method RecordEntanglement(now: int) returns (outcome: Outcome)
      modifies `events, `entanglements
      ensures Usage(events, objects, entanglements)
        == Next(config, old(Usage(events, objects, entanglements)), Call(Entanglement, now))
      ensures outcome == OutcomeOf(config, old(Usage(events, objects, entanglements)), Call(Entanglement, now))
    {
      outcome := RecordEvent(now);
      if outcome != Recorded {
        return;
      }
      entanglements := entanglements + 1;
      if entanglements > config.maxEntanglements {
        return CapExceeded;
      }
    }
  }

  // ----- histories

  function After(config: Config, calls: seq<Call>): Usage {
    if calls == [] then IDLE else Next(config, After(config, calls[..|calls| - 1]), calls[|calls| - 1])
  }

  /** What call i of the history answered. */
  function OutcomeAt(config: Config, calls: seq<Call>, i: nat): Outcome
    requires i < |calls|
  {
    OutcomeOf(config, After(config, calls[..i]), calls[i])
  }

  /** The times of the events let through. */
  function Admitted(config: Config, calls: seq<Call>): seq<int> {
    if calls == [] then []
    else
      var n := |calls| - 1;
      if OutcomeAt(config, calls, n) == TooManyEvents then Admitted(config, calls[..n])
      else Admitted(config, calls[..n]) + [calls[n].now]
  }

  ghost predicate ClockForward(calls: seq<Call>) {
    forall i, j :: 0 <= i < j < |calls| ==> calls[i].now <= calls[j].now
  }

  ghost predicate NoneAfter(calls: seq<Call>, now: int) {
    forall i :: 0 <= i < |calls| ==> calls[i].now <= now
  }

  function From(times: seq<int>, start: int): seq<int> {
    if times == [] then []
    else
      var n := |times| - 1;
      if times[n] >= start then From(times[..n], start) + [times[n]] else From(times[..n], start)
  }

  ghost predicate Rising(times: seq<int>) {
    forall i, j :: 0 <= i < j < |times| ==> times[i] <= times[j]
  }

  /** The events let through in the closed minute that starts at `start`. */
  ghost function InMinute(times: seq<int>, start: int): set<nat> {
    set i: nat | i < |times| && start <= times[i] <= start + MINUTE
  }

  lemma {:induction false} EvictedRising(times: seq<int>, start: int)
    requires Rising(times)
    ensures Rising(Evicted(times, start)) && Evicted(times, start) == From(times, start)
    decreases |times|
  {
    if times != [] {
      var rest := times[1..];
      if times[0] < start {
        EvictedRising(rest, start);
        FromCons(times, start);
      } else {
        FromAll(times, start);
      }
    }
  }

  lemma {:induction false} FromCons(times: seq<int>, start: int)
    requires times != [] && times[0] < start
    ensures From(times, start) == From(times[1..], start)
    decreases |times|
  {
    var n := |times| - 1;
    if n > 0 {
      FromCons(times[..n], start);
      assert times[..n][1..] == times[1..][..n - 1];
    }
  }

  lemma {:induction false} FromAll(times: seq<int>, start: int)
    requires forall i :: 0 <= i < |times| ==> times[i] >= start
    ensures From(times, start) == times
    decreases |times|
  {
    if times != [] {
      FromAll(times[..|times| - 1], start);
    }
  }

  /** What a later cutoff keeps of what an earlier one kept. */
  lemma {:induction false} FromTwice(times: seq<int>, start: int, later: int)
    requires start <= later
    ensures From(From(times, start), later) == From(times, later)
    decreases |times|
  {
    if times != [] {
      var n := |times| - 1;
      FromTwice(times[..n], start, later);
      if times[n] >= start {
        var kept := From(times[..n], start);
        assert (kept + [times[n]])[..|kept|] == kept;
      }
    }
  }

  lemma RisingSnoc(times: seq<int>, t: int)
    requires Rising(times) && forall x :: x in times ==> x <= t
    ensures Rising(times + [t])
  {
    var more := times + [t];
    forall i, j | 0 <= i < j < |more| ensures more[i] <= more[j] { if j == |times| { assert times[i] in times; } }
  }

  lemma {:induction false} AdmittedRising(config: Config, calls: seq<Call>)
    requires ClockForward(calls)
    ensures Rising(Admitted(config, calls))
    ensures forall t :: t in Admitted(config, calls) ==> exists i :: 0 <= i < |calls| && calls[i].now == t
    decreases |calls|
  {
    if calls != [] {
      var n := |calls| - 1;
      AdmittedRising(config, calls[..n]);
      forall t | t in Admitted(config, calls[..n])
        ensures t <= calls[n].now && exists i :: 0 <= i < |calls| && calls[i].now == t
      {
        var i :| 0 <= i < n && calls[..n][i].now == t;
        assert calls[i].now == t;
      }
      RisingSnoc(Admitted(config, calls[..n]), calls[n].now);
      assert calls[n].now == calls[n].now;
    }
  }

  lemma {:induction false} FromRising(times: seq<int>, start: int)
    requires Rising(times)
    ensures Rising(From(times, start)) && forall t :: t in From(times, start) ==> t in times
    decreases |times|
  {
    if times != [] {
      var n := |times| - 1;
      FromRising(times[..n], start);
      assert forall t :: t in From(times[..n], start) ==> t in times[..n] && t in times;
      forall t | t in times[..n] ensures t <= times[n] {
        var i :| 0 <= i < n && times[i] == t;
      }
      RisingSnoc(From(times[..n], start), times[n]);
    }
  }

  /** What one call leaves in the deque. */
  lemma EventsAfter(config: Config, calls: seq<Call>)
    requires calls != []
    requires var n := |calls| - 1;
      Recent(After(config, calls[..n]), calls[n].now) == From(Admitted(config, calls[..n]), calls[n].now - MINUTE)
    ensures After(config, calls).events == From(Admitted(config, calls), calls[|calls| - 1].now - MINUTE)
  {
    var n := |calls| - 1;
    var before := Admitted(config, calls[..n]);
    assert (before + [calls[n].now])[..|before|] == before;
  }

  /** What is held since one moment, cut down to a later one. */
  lemma CutDown(times: seq<int>, held: seq<int>, start: int, later: int)
    requires Rising(times) && held == From(times, start) && start <= later
    ensures Evicted(held, later) == From(times, later)
  {
    FromRising(times, start);
    EvictedRising(held, later);
    FromTwice(times, start, later);
  }

  lemma ClockForwardBefore(calls: seq<Call>)
    requires calls != [] && ClockForward(calls)
    ensures var n := |calls| - 1; ClockForward(calls[..n]) && NoneAfter(calls[..n], calls[n].now)
  {
  }

  /** The events still held when a call arrives are the ones let through in the minute before it. */
  lemma {:induction false} RecentIsLastMinute(config: Config, calls: seq<Call>, now: int)
    requires ClockForward(calls) && NoneAfter(calls, now)
    ensures Recent(After(config, calls), now) == From(Admitted(config, calls), now - MINUTE)
    decreases |calls|
  {
    if calls != [] {
      var n := |calls| - 1;
      var earlier := calls[n].now;
      ClockForwardBefore(calls);
      RecentIsLastMinute(config, calls[..n], earlier);
      EventsAfter(config, calls);
      AdmittedRising(config, calls);
      CutDown(Admitted(config, calls), After(config, calls).events, earlier - MINUTE, now - MINUTE);
    }
  }

  /** After any call the deque is exactly the events let through in the minute that ends at that call. */
  lemma DequeIsLastMinute(config: Config, calls: seq<Call>)
    requires calls != [] && ClockForward(calls)
    ensures After(config, calls).events == From(Admitted(config, calls), calls[|calls| - 1].now - MINUTE)
  {
    RecentIsLastMinute(config, calls[..|calls| - 1], calls[|calls| - 1].now);
    EventsAfter(config, calls);
  }

  /** An event is refused for its rate exactly when the minute that ends with it is already full. */
  lemma RefusedIffFull(config: Config, calls: seq<Call>)
    requires calls != [] && ClockForward(calls)
    ensures OutcomeAt(config, calls, |calls| - 1) == TooManyEvents <==>
      |From(Admitted(config, calls[..|calls| - 1]), calls[|calls| - 1].now - MINUTE)| >= config.maxEventsPerMinute
  {
    RecentIsLastMinute(config, calls[..|calls| - 1], calls[|calls| - 1].now);
  }

  /** Two events a minute apart or less have at most the limit between them, themselves included. */
  ghost predicate Spaced(times: seq<int>, limit: int) {
    forall i, j :: 0 <= i <= j < |times| && times[j] - times[i] <= MINUTE ==> j - i + 1 <= limit
  }

  /** From(times, start) is a tail of rising times, and everything before it is older. */
  lemma {:induction false} FromIsTail(times: seq<int>, start: int)
    requires Rising(times)
    ensures |From(times, start)| <= |times|
    ensures forall i :: 0 <= i < |times| && times[i] >= start ==> i >= |times| - |From(times, start)|
    decreases |times|
  {
    if times != [] {
      var n := |times| - 1;
      FromIsTail(times[..n], start);
      if times[n] < start {
        assert forall i :: 0 <= i < n ==> times[i] <= times[n];
      }
    }
  }

  lemma {:induction false} AdmittedSpaced(config: Config, calls: seq<Call>)
    requires ClockForward(calls)
    ensures Spaced(Admitted(config, calls), config.maxEventsPerMinute)
    decreases |calls|
  {
    if calls != [] {
      var n := |calls| - 1;
      AdmittedSpaced(config, calls[..n]);
      AdmittedRising(config, calls[..n]);
      RefusedIffFull(config, calls);
      FromIsTail(Admitted(config, calls[..n]), calls[n].now - MINUTE);
    }
  }

  /** No closed minute of the whole history, wherever it starts, holds more than the limit. */
  lemma NoMinuteOverfull(config: Config, calls: seq<Call>, start: int)
    requires ClockForward(calls)
    ensures NotOverfull(config, calls, start)
  {
    AdmittedSpaced(config, calls);
    var times := Admitted(config, calls);
    var inside := InMinute(times, start);
    if inside != {} {
      var lo, hi := Least(inside), Greatest(inside);
      BetweenSize(inside, lo, hi);
    }
  }

  ghost function Least(s: set<nat>): (m: nat)
    requires s != {}
    ensures m in s && forall x :: x in s ==> m <= x
  {
    var x :| x in s;
    if s == {x} then x else
      assert s == (s - {x}) + {x};
      var m := Least(s - {x}); if x < m then x else m
  }

  ghost function Greatest(s: set<nat>): (m: nat)
    requires s != {}
    ensures m in s && forall x :: x in s ==> x <= m
  {
    var x :| x in s;
    if s == {x} then x else
      assert s == (s - {x}) + {x};
      var m := Greatest(s - {x}); if x > m then x else m
  }

  lemma {:induction false} BetweenSize(s: set<nat>, lo: nat, hi: nat)
    requires lo <= hi && forall x :: x in s ==> lo <= x <= hi
    ensures |s| <= hi - lo + 1
    decreases hi - lo
  {
    if lo < hi {
      BetweenSize(s - {hi}, lo, hi - 1);
    } else {
      assert s <= {lo};
      if lo in s { assert s == {lo}; } else { assert s == {}; }
    }
  }

  lemma OneMoreCall(config: Config, calls: seq<Call>, call: Call)
    ensures After(config, calls + [call]) == Next(config, After(config, calls), call)
    ensures Admitted(config, calls + [call]) ==
      if OutcomeOf(config, After(config, calls), call) == TooManyEvents then Admitted(config, calls)
      else Admitted(config, calls) + [call.now]
  {
    assert (calls + [call])[..|calls|] == calls;
  }

  // ----- without trust in the clock

  /** The limit holds in every minute of every history, however the clock moves. */
  ghost predicate HoldsOnAnyClock(config: Config) {
    forall calls, start :: NotOverfull(config, calls, start)
  }

  ghost predicate NotOverfull(config: Config, calls: seq<Call>, start: int) {
    var inside := InMinute(Admitted(config, calls), start);
    inside == {} || |inside| <= config.maxEventsPerMinute
  }

  /** Each event is more than a minute after the one before it. */
  ghost predicate FarApart(times: seq<int>) {
    forall i, j :: 0 <= i < j < |times| ==> times[j] - times[i] > MINUTE
  }

  lemma EvictedOne(held: seq<int>, cutoff: int)
    requires |held| <= 1
    ensures Evicted(held, cutoff) == if held != [] && held[0] < cutoff then [] else held
  {
    if held != [] { assert held[1..] == []; }
  }

  lemma FarApartSnoc(times: seq<int>, t: int)
    requires FarApart(times) && (times != [] ==> t - times[|times| - 1] > MINUTE)
    ensures FarApart(times + [t])
  {
    var more := times + [t];
    forall i, j | 0 <= i < j < |more| ensures more[j] - more[i] > MINUTE {
      if j == |times| && i < |times| - 1 { assert times[|times| - 1] - times[i] > MINUTE; }
    }
  }

  /** The deque is the last event let through, and no two are within a minute of each other. */
  ghost predicate OneHeld(limit: int, held: seq<int>, times: seq<int>) {
    && held == (if times == [] then [] else [times[|times| - 1]])
    && FarApart(times) && (times != [] ==> limit == 1)
  }

  lemma OneHeldRefused(limit: int, held: seq<int>, times: seq<int>, now: int)
    requires limit <= 1 && OneHeld(limit, held, times) && |Evicted(held, now - MINUTE)| >= limit
    ensures OneHeld(limit, Evicted(held, now - MINUTE), times)
  {
    EvictedOne(held, now - MINUTE);
  }

  lemma OneHeldAdmitted(limit: int, held: seq<int>, times: seq<int>, now: int)
    requires limit <= 1 && OneHeld(limit, held, times) && |Evicted(held, now - MINUTE)| < limit
    ensures OneHeld(limit, Evicted(held, now - MINUTE) + [now], times + [now])
  {
    EvictedOne(held, now - MINUTE);
    FarApartSnoc(times, now);
  }

  /** With room for one event a new one waits a full minute for it, whatever the clock does. */
  lemma {:induction false} OneAtATime(config: Config, calls: seq<Call>)
    requires config.maxEventsPerMinute <= 1
    ensures OneHeld(config.maxEventsPerMinute, After(config, calls).events, Admitted(config, calls))
    decreases |calls|
  {
    if calls != [] {
      var n := |calls| - 1;
      var u, times := After(config, calls[..n]), Admitted(config, calls[..n]);
      OneAtATime(config, calls[..n]);
      if OutcomeAt(config, calls, n) == TooManyEvents {
        OneHeldRefused(config.maxEventsPerMinute, u.events, times, calls[n].now);
      } else {
        OneHeldAdmitted(config.maxEventsPerMinute, u.events, times, calls[n].now);
      }
    }
  }

  lemma FarApartNotOverfull(config: Config, calls: seq<Call>, start: int)
    requires config.maxEventsPerMinute <= 1
    ensures NotOverfull(config, calls, start)
  {
    OneAtATime(config, calls);
    var inside := InMinute(Admitted(config, calls), start);
    if inside != {} {
      var i :| i in inside;
      assert forall j :: j in inside ==> j == i;
      assert inside == {i};
    }
  }

  function Repeated(n: nat): seq<Call> {
    seq(n, _ => Call(Event, 0))
  }

  function Zeros(n: nat): seq<int> {
    seq(n, _ => 0)
  }

  lemma {:induction false} ZerosStay(n: nat, cutoff: int)
    ensures cutoff <= 0 ==> Evicted(Zeros(n), cutoff) == Zeros(n)
    ensures cutoff > 0 ==> Evicted(Zeros(n), cutoff) == []
    decreases n
  {
    if n > 0 {
      assert Zeros(n)[1..] == Zeros(n - 1);
      ZerosStay(n - 1, cutoff);
    }
  }

  /** Events at one instant are all let through up to the limit. */
  lemma {:induction false} InstantFills(config: Config, n: nat)
    requires n <= config.maxEventsPerMinute
    ensures Admitted(config, Repeated(n)) == Zeros(n) && After(config, Repeated(n)) == Usage(Zeros(n), 0, 0)
    decreases n
  {
    if n > 0 {
      InstantFills(config, n - 1);
      ZerosStay(n - 1, -MINUTE);
      assert Repeated(n) == Repeated(n - 1) + [Call(Event, 0)];
      OneMoreCall(config, Repeated(n - 1), Call(Event, 0));
      assert Zeros(n) == Zeros(n - 1) + [0];
    } else {
      assert Repeated(0) == [] && Zeros(0) == [];
    }
  }

  /** The events of one instant, one a minute later that makes the deque forget them, and one back in their minute. */
  function BackAndForth(n: nat): seq<Call> {
    Repeated(n) + [Call(Event, MINUTE + 1)] + [Call(Event, 1)]
  }

  /** Under any limit of two or more, a clock that steps back lets one more event through than the minute may hold. */
  lemma SteppingBackOverfills(config: Config)
    requires config.maxEventsPerMinute >= 2
    ensures var n := config.maxEventsPerMinute;
      Admitted(config, BackAndForth(n)) == Zeros(n) + [MINUTE + 1, 1]
      && |InMinute(Admitted(config, BackAndForth(n)), 0)| == n + 1
  {
    var n := config.maxEventsPerMinute;
    InstantFills(config, n);
    ZerosStay(n, 1);
    OneMoreCall(config, Repeated(n), Call(Event, MINUTE + 1));
    OneMoreCall(config, Repeated(n) + [Call(Event, MINUTE + 1)], Call(Event, 1));
    assert Zeros(n) + [MINUTE + 1] + [1] == Zeros(n) + [MINUTE + 1, 1];
    InsideOfZeros(n);
  }

  lemma InsideOfZeros(n: nat)
    ensures |InMinute(Zeros(n) + [MINUTE + 1, 1], 0)| == n + 1
  {
    var times := Zeros(n) + [MINUTE + 1, 1];
    var inside := InMinute(times, 0);
    forall i: nat ensures i in inside <==> i in Upto(n) + {n + 1} {
      if i < n {
        assert times[i] == Zeros(n)[i] == 0;
      } else if i < n + 2 {
        assert times[i] == [MINUTE + 1, 1][i - n];
      }
    }
    assert inside == Upto(n) + {n + 1};
    assert n + 1 !in Upto(n);
  }

  ghost function Upto(n: nat): (s: set<nat>)
    ensures |s| == n && forall i: nat :: i in s <==> i < n
  {
    if n == 0 then {} else Upto(n - 1) + {n - 1}
  }

  /** The exact condition: only a limit of one, or none at all, holds without trust in the clock. */
  lemma HoldsOnAnyClockIff(config: Config)
    ensures HoldsOnAnyClock(config) <==> config.maxEventsPerMinute <= 1
  {
    if config.maxEventsPerMinute <= 1 {
      forall calls, start ensures NotOverfull(config, calls, start) { FarApartNotOverfull(config, calls, start); }
    } else {
      SteppingBackOverfills(config);
      assert !NotOverfull(config, BackAndForth(config.maxEventsPerMinute), 0);
    }
  }

  // ----- caps

  /** Calls of a kind that succeeded. */
  ghost function Succeeded(config: Config, calls: seq<Call>, kind: Kind): set<nat> {
    set i: nat | i < |calls| && calls[i].kind == kind && OutcomeAt(config, calls, i) == Recorded
  }

  function Lesser(a: int, b: int): int {
    if a < b then a else b
  }

  lemma SucceededSnoc(config: Config, calls: seq<Call>, kind: Kind)
    requires calls != []
    ensures var n: nat := |calls| - 1;
      Succeeded(config, calls, kind) == Succeeded(config, calls[..n], kind)
        + (if calls[n].kind == kind && OutcomeAt(config, calls, n) == Recorded then {n} else {})
  {
    var n: nat := |calls| - 1;
    assert forall i: nat :: i < n ==> calls[..n][..i] == calls[..i];
  }

  function Counter(u: Usage, kind: Kind): nat {
    match kind
    case Event => |u.events|
    case Object => u.objects
    case Entanglement => u.entanglements
  }

  function Cap(config: Config, kind: Kind): int {
    match kind
    case Event => config.maxEventsPerMinute
    case Object => config.maxObjects
    case Entanglement => config.maxEntanglements
  }

  /** Objects (entanglements) made in a history: the attempts let through, up to the cap and never beyond it. */
  lemma {:induction false} CapHolds(config: Config, calls: seq<Call>, kind: Kind)
    requires kind != Event
    ensures |Succeeded(config, calls, kind)|
      == Lesser(Counter(After(config, calls), kind), if Cap(config, kind) < 0 then 0 else Cap(config, kind))
    decreases |calls|
  {
    if calls != [] {
      var n: nat := |calls| - 1;
      CapHolds(config, calls[..n], kind);
      SucceededSnoc(config, calls, kind);
      var before := Succeeded(config, calls[..n], kind);
      assert n !in before;
      assert |before + {n}| == |before| + 1;
      CounterStep(config, After(config, calls[..n]), calls[n], kind);
    }
  }

  lemma CounterStep(config: Config, u: Usage, call: Call, kind: Kind)
    requires kind != Event
    ensures Counter(Next(config, u, call), kind) ==
      if call.kind == kind && OutcomeOf(config, u, call) != TooManyEvents then Counter(u, kind) + 1
      else Counter(u, kind)
    ensures call.kind == kind ==>
      (OutcomeOf(config, u, call) == Recorded <==>
        OutcomeOf(config, u, call) != TooManyEvents && Counter(u, kind) < Cap(config, kind))
  {
  }

  /** The attempts of a kind that were not refused for their rate, whether they succeeded or met the cap. */
  ghost function Attempts(config: Config, calls: seq<Call>, kind: Kind): set<nat> {
    set i: nat | i < |calls| && calls[i].kind == kind && OutcomeAt(config, calls, i) != TooManyEvents
  }

  lemma AttemptsSnoc(config: Config, calls: seq<Call>, kind: Kind)
    requires calls != []
    ensures var n: nat := |calls| - 1;
      Attempts(config, calls, kind) == Attempts(config, calls[..n], kind)
        + (if calls[n].kind == kind && OutcomeAt(config, calls, n) != TooManyEvents then {n} else {})
  {
    var n: nat := |calls| - 1;
    assert forall i: nat :: i < n ==> calls[..n][..i] == calls[..i];
  }

  lemma CounterAdds(config: Config, u: Usage, call: Call, kind: Kind)
    requires kind != Event
    ensures Counter(Next(config, u, call), kind) ==
      Counter(u, kind) + if call.kind == kind && OutcomeOf(config, u, call) != TooManyEvents then 1 else 0
  {
  }

  /** The counters count attempts: one that meets the cap counts too, one refused for its rate does not. */
  lemma {:induction false} CounterIsAttempts(config: Config, calls: seq<Call>, kind: Kind)
    requires kind != Event
    ensures Counter(After(config, calls), kind) == |Attempts(config, calls, kind)|
    decreases |calls|
  {
    if calls == [] {
      assert Attempts(config, calls, kind) == {};
    } else {
      var n: nat := |calls| - 1;
      CounterIsAttempts(config, calls[..n], kind);
      AttemptsSnoc(config, calls, kind);
      CounterAdds(config, After(config, calls[..n]), calls[n], kind);
      assert n !in Attempts(config, calls[..n], kind);
    }
  }
}
