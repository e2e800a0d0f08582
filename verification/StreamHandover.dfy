/** `qso_subscribe` (qso_tools.py). */
module StreamHandover {
  // A subscriber is registered, the log is replayed from a cursor, then a live queue is drained with a
  // cutoff filter (api/mcp_tools/qso_tools.py), while patches are appended and their publish tasks run in
  // between (services/entanglement_graph/service.py): one subscription on one uri, as a state machine over
  // its interleaved steps.

  import opened Common

  type Event = string

  /** A queued payload: of this uri's own event, or forwarded from an entangled uri. */
  datatype Item =
    | Own(index: nat, event: Event)
    | Linked(source: string, index: nat, event: Event)

  datatype Mode = Block | DropOldest | DropNewest

  // ----- cursors

  /** What a token decodes to; `next` is None when the field is missing or no integer. */
  datatype Decoded = Undecodable | OtherKind | UriToken(uri: string, next: Option<int>)
  datatype Cursor = Position(position: int) | Token(decoded: Decoded)
  datatype CursorError = BadToken | KindMismatch | UriMismatch | NoNextIndex | Negative | OutOfRange

  /** `_resolve_single_cursor`, with the caller's default of 0. */
  function ResolveCursor(uri: string, cursor: Option<Cursor>, replayedLen: nat): (r: Result<nat, CursorError>)
    ensures r.Ok? ==> r.value <= replayedLen
  {
    if cursor.None? then Ok(0)
    else match cursor.value
      case Position(n) => CheckStart(n, replayedLen)
      case Token(Undecodable) => Err(BadToken)
      case Token(OtherKind) => Err(KindMismatch)
      case Token(UriToken(tokenUri, next)) =>
        if tokenUri != uri then Err(UriMismatch)
        else if next.None? then Err(NoNextIndex)
        else CheckStart(next.value, replayedLen)
  }

  function CheckStart(start: int, replayedLen: nat): Result<nat, CursorError> {
    if start < 0 then Err(Negative) else if start > replayedLen then Err(OutOfRange) else Ok(start)
  }

  /** A delivered payload; its cursor token points just past its event. */
  datatype Delivery = Delivery(item: Item, token: Cursor)

  function Deliver(uri: string, item: Item): Delivery {
    var itemUri := if item.Own? then uri else item.source;
    Delivery(item, Token(UriToken(itemUri, Some(item.index + 1))))
  }

  // ----- the machine

  /** `next` is the next log index to replay; from `cutoff` on, events come from the queue. */
  datatype Subscription = Closed | Open(start: nat, cutoff: nat, next: nat)

  datatype State = State(
    log: seq<Event>,          // the uri's event log
    scheduled: seq<Item>,     // publish tasks created and not yet started, in order
    inflight: seq<Item>,      // tasks that saw the subscriber and have not yet put their payload
    queue: seq<Item>,         // the subscriber's queue
    sub: Subscription,
    delivered: seq<Delivery>, // what this subscription has yielded
    dropped: seq<nat>         // own indices discarded by a full queue and still to be delivered
  )

  datatype Config = Config(uri: string, mode: Mode, capacity: nat)

  datatype Step =
    | Patch(event: Event)
    | LinkedPatch(source: string, index: nat, event: Event)
    | Begin
    | Put(k: nat)
    | Subscribe(cursor: Option<Cursor>)
    | Replay
    | Take
    | Unsubscribe

  predicate Enabled(c: Config, s: State, step: Step) {
    match step
    case Patch(_) => true
    case LinkedPatch(_, _, _) => s.sub.Open?
    case Begin => s.scheduled != []
    case Put(k) => s.sub.Open? && k < |s.inflight| && (c.mode.Block? ==> |s.queue| < c.capacity)
    case Subscribe(cursor) => s.sub.Closed? && ResolveCursor(c.uri, cursor, |s.log|).Ok?
    case Replay => s.sub.Open? && s.sub.next < s.sub.cutoff <= |s.log|
    case Take => s.sub.Open? && s.sub.next == s.sub.cutoff && s.queue != []
    case Unsubscribe => s.sub.Open?
  }

  /** Older than the replayed log: already delivered by the replay, so the filter skips it. */
  predicate Stale(cutoff: nat, item: Item) {
    item.index < cutoff
  }

  /** The own indices among the items that the filter lets through. */
  function Live(cutoff: nat, items: seq<Item>): seq<nat> {
    if items == [] then []
    else
      var head := if items[0].Own? && !Stale(cutoff, items[0]) then [items[0].index] else [];
      head + Live(cutoff, items[1..])
  }

  function Enqueue(c: Config, queue: seq<Item>, item: Item): seq<Item> {
    if |queue| < c.capacity || c.mode.Block? then queue + [item]
    else if c.mode.DropNewest? || queue == [] then queue
    else queue[1..] + [item]
  }

  /** What `Enqueue` discards. */
  function Discarded(c: Config, queue: seq<Item>, item: Item): seq<Item> {
    if |queue| < c.capacity || c.mode.Block? then []
    else if c.mode.DropNewest? || queue == [] then [item]
    else [queue[0]]
  }

  function Next(c: Config, s: State, step: Step): State
    requires Enabled(c, s, step)
  {
    match step
    case Patch(event) => s.(log := s.log + [event], scheduled := s.scheduled + [Own(|s.log|, event)])
    case LinkedPatch(source, index, event) => s.(inflight := s.inflight + [Linked(source, index, event)])
    case Begin =>
      s.(scheduled := s.scheduled[1..],
         inflight := if s.sub.Open? then s.inflight + [s.scheduled[0]] else s.inflight)
    case Put(k) =>
      var item := s.inflight[k];
      s.(inflight := s.inflight[..k] + s.inflight[k + 1..],
         queue := Enqueue(c, s.queue, item),
         dropped := s.dropped + Live(s.sub.cutoff, Discarded(c, s.queue, item)))
    case Subscribe(cursor) =>
      var start := ResolveCursor(c.uri, cursor, |s.log|).value;
      s.(sub := Open(start, |s.log|, start), inflight := [], queue := [], delivered := [], dropped := [])
    case Replay =>
      s.(sub := s.sub.(next := s.sub.next + 1),
         delivered := s.delivered + [Deliver(c.uri, Own(s.sub.next, s.log[s.sub.next]))])
    case Take =>
      s.(queue := s.queue[1..],
         delivered := if Stale(s.sub.cutoff, s.queue[0]) then s.delivered
           else s.delivered + [Deliver(c.uri, s.queue[0])])
    case Unsubscribe => s.(sub := Closed, inflight := [], queue := [])
  }

  // ----- what is delivered, and what is still on its way

  function Range(a: nat, b: nat): (r: seq<nat>)
    ensures |r| == if a <= b then b - a else 0
    ensures forall i :: 0 <= i < |r| ==> r[i] == a + i
  {
    if a <= b then seq(b - a, i requires 0 <= i < b - a => a + i) else []
  }

  function OwnIndices(delivered: seq<Delivery>): seq<nat> {
    if delivered == [] then []
    else
      var n := |delivered| - 1;
      OwnIndices(delivered[..n]) + if delivered[n].item.Own? then [delivered[n].item.index] else []
  }

  /** Delivered, then still to replay, then queued, then in flight, then scheduled. */
  function Timeline(s: State): seq<nat>
    requires s.sub.Open?
  {
    Front(s) + Live(s.sub.cutoff, s.inflight) + Live(s.sub.cutoff, s.scheduled)
  }

  /** Delivered, then still to replay, then queued. */
  function Front(s: State): seq<nat>
    requires s.sub.Open?
  {
    OwnIndices(s.delivered) + Range(s.sub.next, s.sub.cutoff) + Live(s.sub.cutoff, s.queue)
  }

  /** Own payloads carry the event logged under their index. */
  ghost predicate Faithful(log: seq<Event>, items: seq<Item>) {
    forall i :: 0 <= i < |items| && items[i].Own? ==> items[i].index < |log| && items[i].event == log[items[i].index]
  }

  ghost function Items(delivered: seq<Delivery>): seq<Item> {
    seq(|delivered|, i requires 0 <= i < |delivered| => delivered[i].item)
  }

  /** Payloads are faithful and positions in range. */
  ghost predicate Sane(c: Config, s: State) {
    && Faithful(s.log, s.scheduled) && Faithful(s.log, s.inflight) && Faithful(s.log, s.queue)
    && Faithful(s.log, Items(s.delivered))
    && (s.sub.Open? ==> s.sub.start <= s.sub.next <= s.sub.cutoff <= |s.log|)
    && (s.sub.Closed? ==> s.inflight == [] && s.queue == [])
    && (forall i :: 0 <= i < |s.delivered| ==> s.delivered[i] == Deliver(c.uri, s.delivered[i].item))
  }

  lemma {:induction false} LiveAppend(cutoff: nat, a: seq<Item>, b: seq<Item>)
    ensures Live(cutoff, a + b) == Live(cutoff, a) + Live(cutoff, b)
  {
    if a == [] {
      assert a + b == b;
    } else {
      LiveAppend(cutoff, a[1..], b);
      assert (a + b)[1..] == a[1..] + b;
      var head := if a[0].Own? && !Stale(cutoff, a[0]) then [a[0].index] else [];
      Regroup(head, Live(cutoff, a[1..]), Live(cutoff, b));
    }
  }

  lemma Regroup(x: seq<nat>, y: seq<nat>, z: seq<nat>)
    ensures x + (y + z) == (x + y) + z
  {
  }

  lemma {:induction false} AllStale(cutoff: nat, items: seq<Item>)
    requires forall item :: item in items && item.Own? ==> item.index < cutoff
    ensures Live(cutoff, items) == []
  {
    if items != [] { AllStale(cutoff, items[1..]); }
  }

  lemma ItemsAppend(delivered: seq<Delivery>, d: Delivery)
    ensures Items(delivered + [d]) == Items(delivered) + [d.item]
  {
  }

  lemma NextSane(c: Config, s: State, step: Step)
    requires Sane(c, s) && Enabled(c, s, step)
    ensures Sane(c, Next(c, s, step))
  {
    match step
    case Patch(event) =>
    case LinkedPatch(source, index, event) =>
    case Begin =>
      assert Faithful(s.log, [s.scheduled[0]]);
    case Put(k) =>
      assert Faithful(s.log, [s.inflight[k]]);
    case Subscribe(cursor) =>
    case Replay =>
      var d := Deliver(c.uri, Own(s.sub.next, s.log[s.sub.next]));
      ItemsAppend(s.delivered, d);
    case Take =>
      ItemsAppend(s.delivered, Deliver(c.uri, s.queue[0]));
      assert Faithful(s.log, [s.queue[0]]);
    case Unsubscribe =>
  }

  /** A step on an open subscription that leaves it open. */
  predicate Inner(step: Step) {
    !step.Subscribe? && !step.Unsubscribe?
  }

  lemma SubscribeTimeline(c: Config, s: State, cursor: Option<Cursor>)
    requires Sane(c, s) && Enabled(c, s, Subscribe(cursor))
    ensures var t := Next(c, s, Subscribe(cursor));
      t.sub.Open? && Timeline(t) == Range(t.sub.start, |t.log|)
      && ResolveCursor(c.uri, cursor, |s.log|) == Ok(t.sub.start)
  {
    AllStale(|s.log|, s.scheduled);
  }

  lemma PatchTimeline(c: Config, s: State, event: Event)
    requires Sane(c, s) && s.sub.Open?
    ensures Timeline(Next(c, s, Patch(event))) == Timeline(s) + [|s.log|]
  {
    LiveAppend(s.sub.cutoff, s.scheduled, [Own(|s.log|, event)]);
  }

  lemma BeginTimeline(c: Config, s: State)
    requires s.sub.Open? && Enabled(c, s, Begin)
    ensures Timeline(Next(c, s, Begin)) == Timeline(s)
  {
    var cut, first, rest := s.sub.cutoff, [s.scheduled[0]], s.scheduled[1..];
    LiveAppend(cut, s.inflight, first);
    LiveAppend(cut, first, rest);
    assert s.scheduled == first + rest;
    StartShuffle(OwnIndices(s.delivered) + Range(s.sub.next, cut) + Live(cut, s.queue), Live(cut, s.inflight),
        Live(cut, first), Live(cut, rest));
  }

  lemma StartShuffle(front: seq<nat>, f: seq<nat>, x: seq<nat>, g: seq<nat>)
    ensures front + (f + x) + g == front + f + (x + g)
  {
  }

  lemma LinkedTimeline(c: Config, s: State, source: string, index: nat, event: Event)
    requires s.sub.Open?
    ensures Timeline(Next(c, s, LinkedPatch(source, index, event))) == Timeline(s)
  {
    LiveAppend(s.sub.cutoff, s.inflight, [Linked(source, index, event)]);
  }

  lemma RangeHead(a: nat, b: nat)
    requires a < b
    ensures Range(a, b) == [a] + Range(a + 1, b)
  {
  }

  lemma ReplayFront(c: Config, s: State)
    requires Enabled(c, s, Replay)
    ensures Front(Next(c, s, Replay)) == Front(s)
  {
    RangeHead(s.sub.next, s.sub.cutoff);
  }

  lemma TakeShuffle(d: seq<nat>, h: seq<nat>, q: seq<nat>)
    ensures d + [] + (h + q) == (d + h) + [] + q
  {
  }

  lemma TakeFront(c: Config, s: State)
    requires Enabled(c, s, Take)
    ensures Front(Next(c, s, Take)) == Front(s)
  {
    var item, cut := s.queue[0], s.sub.cutoff;
    var head: seq<nat> := if item.Own? && !Stale(cut, item) then [item.index] else [];
    var t := Next(c, s, Take);
    assert OwnIndices(t.delivered) == OwnIndices(s.delivered) + head;
    assert Range(s.sub.next, cut) == [];
    TakeShuffle(OwnIndices(s.delivered), head, Live(cut, t.queue));
  }

  // ----- one put, at any place in the flight

  lemma LiveSplit(cutoff: nat, items: seq<Item>, k: nat)
    requires k < |items|
    ensures Live(cutoff, items) == Live(cutoff, items[..k]) + Live(cutoff, [items[k]]) + Live(cutoff, items[k + 1..])
    ensures Live(cutoff, items[..k] + items[k + 1..]) == Live(cutoff, items[..k]) + Live(cutoff, items[k + 1..])
  {
    assert items == items[..k] + [items[k]] + items[k + 1..];
    LiveAppend(cutoff, items[..k] + [items[k]], items[k + 1..]);
    LiveAppend(cutoff, items[..k], [items[k]]);
    LiveAppend(cutoff, items[..k], items[k + 1..]);
  }

  lemma PutTimelines(c: Config, s: State, k: nat)
    requires s.sub.Open? && Enabled(c, s, Put(k))
    ensures var cut, item := s.sub.cutoff, s.inflight[k];
      var front := OwnIndices(s.delivered) + Range(s.sub.next, cut);
      var a, x, b := Live(cut, s.inflight[..k]), Live(cut, [item]), Live(cut, s.inflight[k + 1..]);
      && Timeline(s) == front + Live(cut, s.queue) + (a + x + b) + Live(cut, s.scheduled)
      && Timeline(Next(c, s, Put(k))) == front + Live(cut, Enqueue(c, s.queue, item)) + (a + b) + Live(cut, s.scheduled)
  {
    LiveSplit(s.sub.cutoff, s.inflight, k);
  }

  ghost predicate Increasing(s: seq<nat>) {
    forall i, j :: 0 <= i < j < |s| ==> s[i] < s[j]
  }

  /** Two different lines of one set of elements: swapping a non-empty stretch with another changes the line. */
  lemma SwapChangesLine(front: seq<nat>, ahead: seq<nat>, x: seq<nat>, tail: seq<nat>)
    requires Increasing(front + ahead + x + tail)
    ensures front + x + ahead + tail == front + ahead + x + tail <==> ahead == [] || x == []
  {
    var line, swapped := front + ahead + x + tail, front + x + ahead + tail;
    if ahead != [] && x != [] {
      assert line[|front|] == ahead[0] && line[|front| + |ahead|] == x[0];
      assert swapped[|front|] == x[0];
    } else {
      assert ahead + x == x + ahead;
      assert front + (ahead + x) + tail == line && front + (x + ahead) + tail == swapped;
    }
  }

  lemma FlightShuffle(front: seq<nat>, q: seq<nat>, a: seq<nat>, x: seq<nat>, b: seq<nat>, g: seq<nat>)
    ensures front + q + (a + x + b) + g == (front + q) + a + x + (b + g)
    ensures front + (q + x) + (a + b) + g == (front + q) + x + a + (b + g)
  {
  }

  /** A put that discards nothing live lengthens the live queue by the payload. */
  lemma EnqueueKeeps(c: Config, cutoff: nat, queue: seq<Item>, item: Item)
    requires Live(cutoff, Discarded(c, queue, item)) == []
    ensures Live(cutoff, Enqueue(c, queue, item)) == Live(cutoff, queue) + Live(cutoff, [item])
  {
    if |queue| < c.capacity || c.mode.Block? {
      LiveAppend(cutoff, queue, [item]);
    } else if !(c.mode.DropNewest? || queue == []) {
      var first, rest := [queue[0]], queue[1..];
      assert queue == first + rest;
      LiveAppend(cutoff, rest, [item]);
      LiveAppend(cutoff, first, rest);
    }
  }

  lemma PutFront(c: Config, s: State, k: nat)
    requires Enabled(c, s, Put(k)) && Live(s.sub.cutoff, Discarded(c, s.queue, s.inflight[k])) == []
    ensures Front(Next(c, s, Put(k))) == Front(s) + Live(s.sub.cutoff, [s.inflight[k]])
  {
    var cut := s.sub.cutoff;
    EnqueueKeeps(c, cut, s.queue, s.inflight[k]);
    Regroup(OwnIndices(s.delivered) + Range(s.sub.next, cut), Live(cut, s.queue), Live(cut, [s.inflight[k]]));
  }

  lemma PutTimeline(c: Config, s: State, k: nat)
    requires Enabled(c, s, Put(k)) && Live(s.sub.cutoff, Discarded(c, s.queue, s.inflight[k])) == []
    ensures var cut := s.sub.cutoff;
      var ahead, x := Live(cut, s.inflight[..k]), Live(cut, [s.inflight[k]]);
      var tail := Live(cut, s.inflight[k + 1..]) + Live(cut, s.scheduled);
      Timeline(s) == Front(s) + ahead + x + tail && Timeline(Next(c, s, Put(k))) == Front(s) + x + ahead + tail
  {
    var cut := s.sub.cutoff;
    PutTimelines(c, s, k);
    EnqueueKeeps(c, cut, s.queue, s.inflight[k]);
    FlightShuffle(OwnIndices(s.delivered) + Range(s.sub.next, cut), Live(cut, s.queue), Live(cut, s.inflight[..k]),
                  Live(cut, [s.inflight[k]]), Live(cut, s.inflight[k + 1..]), Live(cut, s.scheduled));
  }

  // ----- main results: safety over every run of an open subscription

  predicate RunEnabled(c: Config, s: State, steps: seq<Step>)
    decreases steps
  {
    steps == [] || (Enabled(c, s, steps[0]) && Inner(steps[0]) && RunEnabled(c, Next(c, s, steps[0]), steps[1..]))
  }

  function Run(c: Config, s: State, steps: seq<Step>): State
    requires RunEnabled(c, s, steps)
    decreases steps
  {
    if steps == [] then s else Run(c, Next(c, s, steps[0]), steps[1..])
  }

  /**
   A put that loses nothing live and overtakes nothing live with something live. Every step but a put
   keeps the line anyway.
   */
  predicate KeepsLine(c: Config, s: State, step: Step)
    requires Enabled(c, s, step)
  {
    step.Put? ==>
      var cut, item := s.sub.cutoff, s.inflight[step.k];
      && Live(cut, Discarded(c, s.queue, item)) == []
      && (Live(cut, s.inflight[..step.k]) == [] || Live(cut, [item]) == [])
  }

  predicate RunKeepsLine(c: Config, s: State, steps: seq<Step>)
    requires RunEnabled(c, s, steps)
    decreases steps
  {
    steps == [] || (KeepsLine(c, s, steps[0]) && RunKeepsLine(c, Next(c, s, steps[0]), steps[1..]))
  }

  /** The hand-over invariant: delivered, to come and scheduled together are start, start+1, ..., end of log. */
  ghost predicate Seamless(c: Config, s: State) {
    Sane(c, s) && s.sub.Open? && Timeline(s) == Range(s.sub.start, |s.log|)
  }

  /**
   A blocked task that is overtaken. Where nothing live is discarded, putting the k-th payload in flight
   keeps the line seamless exactly when it is not live or nothing live is waiting ahead of it.
   */
  lemma OvertakingBreaksOrder(c: Config, s: State, k: nat)
    requires Seamless(c, s) && Enabled(c, s, Put(k)) && Live(s.sub.cutoff, Discarded(c, s.queue, s.inflight[k])) == []
    ensures Seamless(c, Next(c, s, Put(k))) <==>
      Live(s.sub.cutoff, s.inflight[..k]) == [] || Live(s.sub.cutoff, [s.inflight[k]]) == []
  {
    var cut := s.sub.cutoff;
    NextSane(c, s, Put(k));
    PutTimeline(c, s, k);
    SwapChangesLine(Front(s), Live(cut, s.inflight[..k]), Live(cut, [s.inflight[k]]),
                    Live(cut, s.inflight[k + 1..]) + Live(cut, s.scheduled));
  }

  lemma StepSeamless(c: Config, s: State, step: Step)
    requires Seamless(c, s) && Enabled(c, s, step) && Inner(step) && KeepsLine(c, s, step)
    ensures Seamless(c, Next(c, s, step)) && Next(c, s, step).sub.start == s.sub.start
  {
    NextSane(c, s, step);
    match step
    case Patch(event) =>
      PatchTimeline(c, s, event);
      assert Range(s.sub.start, |s.log| + 1) == Range(s.sub.start, |s.log|) + [|s.log|];
    case LinkedPatch(source, index, event) => LinkedTimeline(c, s, source, index, event);
    case Begin => BeginTimeline(c, s);
    case Put(k) => OvertakingBreaksOrder(c, s, k);
    case Replay => ReplayFront(c, s);
    case Take => TakeFront(c, s);
  }

  lemma {:induction false} RunSeamless(c: Config, s: State, steps: seq<Step>)
    requires Seamless(c, s) && RunEnabled(c, s, steps) && RunKeepsLine(c, s, steps)
    ensures Seamless(c, Run(c, s, steps)) && Run(c, s, steps).sub.start == s.sub.start
    decreases steps
  {
    if steps != [] {
      StepSeamless(c, s, steps[0]);
      RunSeamless(c, Next(c, s, steps[0]), steps[1..]);
    }
  }

  /**
   Exactly once, in order, without gap: after any interleaving of patches, publishes, entangled
   traffic and reads, the own events delivered are start, start+1, ... and carry the logged events;
   when nothing is left to replay, queued or pending, they reach the end of the log.
   */
  lemma DeliversConsecutively(c: Config, s0: State, cursor: Option<Cursor>, steps: seq<Step>)
    requires Sane(c, s0) && Enabled(c, s0, Subscribe(cursor))
    requires var s := Next(c, s0, Subscribe(cursor)); RunEnabled(c, s, steps) && RunKeepsLine(c, s, steps)
    ensures var start := ResolveCursor(c.uri, cursor, |s0.log|).value;
      var t := Run(c, Next(c, s0, Subscribe(cursor)), steps);
      && (forall i :: 0 <= i < |OwnIndices(t.delivered)| ==> OwnIndices(t.delivered)[i] == start + i)
      && start + |OwnIndices(t.delivered)| <= |t.log|
      && Faithful(t.log, Items(t.delivered))
      && (t.sub.Open? && t.sub.next == t.sub.cutoff && t.queue == t.inflight == t.scheduled == [] ==>
            start + |OwnIndices(t.delivered)| == |t.log|)
  {
    var s := Next(c, s0, Subscribe(cursor));
    NextSane(c, s0, Subscribe(cursor));
    SubscribeTimeline(c, s0, cursor);
    RunSeamless(c, s, steps);
    var t := Run(c, s, steps);
    var line := Timeline(t);
    assert forall i :: 0 <= i < |OwnIndices(t.delivered)| ==> line[i] == OwnIndices(t.delivered)[i];
  }

  /**
   When the token of a delivered payload can be resumed from, against any later log: always for an own payload, and
   for a forwarded one exactly when it names this uri after all and its index lies within the log. Then it resolves
   to the position right after the payload; a token of another uri is refused as such.
   */
  lemma TokenResumes(c: Config, s: State, d: Delivery, laterLen: nat)
    requires Sane(c, s) && d in s.delivered && |s.log| <= laterLen
    ensures ResolveCursor(c.uri, Some(d.token), laterLen) ==
      if d.item.Linked? && d.item.source != c.uri then Err(UriMismatch)
      else if d.item.Own? || d.item.index + 1 <= laterLen then Ok(d.item.index + 1)
      else Err(OutOfRange)
  {
    var i :| 0 <= i < |s.delivered| && s.delivered[i] == d;
    assert Items(s.delivered)[i] == d.item;
  }

  /**
   Resuming: take the token of any own payload a first session delivered, and subscribe again at any
   later time, whatever was logged in between. The second session is accepted and its own events are
   the ones right after that payload, consecutively.
   */
  lemma ResumeContinues(c: Config, t: State, d: Delivery, s2: State, steps: seq<Step>)
    requires Sane(c, t) && d in t.delivered && d.item.Own?
    requires Sane(c, s2) && s2.sub.Closed? && t.log <= s2.log
    requires Enabled(c, s2, Subscribe(Some(d.token))) ==>
      var s := Next(c, s2, Subscribe(Some(d.token))); RunEnabled(c, s, steps) && RunKeepsLine(c, s, steps)
    ensures Enabled(c, s2, Subscribe(Some(d.token)))
    ensures var u := Run(c, Next(c, s2, Subscribe(Some(d.token))), steps);
      forall i :: 0 <= i < |OwnIndices(u.delivered)| ==> OwnIndices(u.delivered)[i] == d.item.index + 1 + i
  {
    TokenResumes(c, t, d, |s2.log|);
    DeliversConsecutively(c, s2, Some(d.token), steps);
  }

  // ----- any order of puts, any backpressure: nothing twice, nothing lost but what a full queue dropped

  lemma SwapBalance(h: seq<nat>, q: seq<nat>, x: seq<nat>)
    ensures multiset(q + x) + multiset(h) == multiset(h + q) + multiset(x)
  {
  }

  lemma EnqueueConserves(c: Config, cutoff: nat, queue: seq<Item>, item: Item)
    ensures multiset(Live(cutoff, Enqueue(c, queue, item))) + multiset(Live(cutoff, Discarded(c, queue, item)))
      == multiset(Live(cutoff, queue)) + multiset(Live(cutoff, [item]))
  {
    if |queue| < c.capacity || c.mode.Block? {
      LiveAppend(cutoff, queue, [item]);
      SwapBalance([], Live(cutoff, queue), Live(cutoff, [item]));
      assert [] + Live(cutoff, queue) == Live(cutoff, queue);
    } else if !(c.mode.DropNewest? || queue == []) {
      var first, rest := [queue[0]], queue[1..];
      assert queue == first + rest;
      LiveAppend(cutoff, rest, [item]);
      LiveAppend(cutoff, first, rest);
      SwapBalance(Live(cutoff, first), Live(cutoff, rest), Live(cutoff, [item]));
    }
  }

  /** Moving x from the middle of the flight to the queue, less what is discarded. */
  lemma PutBalance(front: seq<nat>, q: seq<nat>, q': seq<nat>, a: seq<nat>, x: seq<nat>, b: seq<nat>, sched: seq<nat>,
                   lost: seq<nat>, disc: seq<nat>)
    requires multiset(q') + multiset(disc) == multiset(q) + multiset(x)
    ensures multiset(front + q' + (a + b) + sched) + multiset(lost + disc)
      == multiset(front + q + (a + x + b) + sched) + multiset(lost)
  {
    assert multiset(front + q' + (a + b) + sched)
      == multiset(front) + multiset(q') + multiset(a) + multiset(b) + multiset(sched);
    assert multiset(front + q + (a + x + b) + sched)
      == multiset(front) + multiset(q) + multiset(a) + multiset(x) + multiset(b) + multiset(sched);
    assert multiset(lost + disc) == multiset(lost) + multiset(disc);
    SameSum(multiset(q') + multiset(disc), multiset(q) + multiset(x),
            multiset(front) + multiset(a) + multiset(b) + multiset(sched) + multiset(lost));
    assert multiset(front) + multiset(q') + multiset(a) + multiset(b) + multiset(sched)
      + (multiset(lost) + multiset(disc))
      == (multiset(q') + multiset(disc))
      + (multiset(front) + multiset(a) + multiset(b) + multiset(sched) + multiset(lost));
    assert multiset(front) + multiset(q) + multiset(a) + multiset(x) + multiset(b) + multiset(sched) + multiset(lost)
      == (multiset(q) + multiset(x)) + (multiset(front) + multiset(a) + multiset(b) + multiset(sched) + multiset(lost));
  }

  lemma SameSum(m: multiset<nat>, n: multiset<nat>, rest: multiset<nat>)
    requires m == n
    ensures m + rest == n + rest
  {
  }

  ghost predicate Conserved(c: Config, s: State) {
    Sane(c, s) && s.sub.Open? && Balanced(s)
  }

  ghost predicate Balanced(s: State)
    requires s.sub.Open?
  {
    multiset(Timeline(s)) + multiset(s.dropped) == multiset(Range(s.sub.start, |s.log|))
  }

  lemma PutBalanced(c: Config, s: State, k: nat)
    requires s.sub.Open? && Balanced(s) && Enabled(c, s, Put(k))
    ensures Balanced(Next(c, s, Put(k)))
  {
    var cut, item := s.sub.cutoff, s.inflight[k];
    EnqueueConserves(c, cut, s.queue, item);
    PutTimelines(c, s, k);
    PutBalance(OwnIndices(s.delivered) + Range(s.sub.next, cut),
               Live(cut, s.queue), Live(cut, Enqueue(c, s.queue, item)),
               Live(cut, s.inflight[..k]), Live(cut, [item]), Live(cut, s.inflight[k + 1..]), Live(cut, s.scheduled),
               s.dropped, Live(cut, Discarded(c, s.queue, item)));
  }

  lemma PatchBalanced(c: Config, s: State, event: Event)
    requires Sane(c, s) && s.sub.Open? && Balanced(s)
    ensures Balanced(Next(c, s, Patch(event)))
  {
    PatchTimeline(c, s, event);
    OneMoreIndex(s.sub.start, |s.log|);
    OneMoreBalance(Timeline(s), s.dropped, Range(s.sub.start, |s.log|), |s.log|);
  }

  lemma OneMoreIndex(a: nat, b: nat)
    requires a <= b
    ensures Range(a, b + 1) == Range(a, b) + [b]
  {
  }

  lemma OneMoreBalance(line: seq<nat>, lost: seq<nat>, all: seq<nat>, x: nat)
    requires multiset(line) + multiset(lost) == multiset(all)
    ensures multiset(line + [x]) + multiset(lost) == multiset(all + [x])
  {
    assert multiset(line + [x]) == multiset(line) + multiset{x};
    assert multiset(all + [x]) == multiset(all) + multiset{x};
  }

  lemma StepConserved(c: Config, s: State, step: Step)
    requires Conserved(c, s) && Enabled(c, s, step) && Inner(step)
    ensures Conserved(c, Next(c, s, step)) && Next(c, s, step).sub.start == s.sub.start
  {
    NextSane(c, s, step);
    match step
    case Patch(event) => PatchBalanced(c, s, event);
    case LinkedPatch(source, index, event) => LinkedTimeline(c, s, source, index, event);
    case Begin => BeginTimeline(c, s);
    case Put(k) => PutBalanced(c, s, k);
    case Replay => ReplayFront(c, s);
    case Take => TakeFront(c, s);
  }

  lemma {:induction false} RunConserved(c: Config, s: State, steps: seq<Step>)
    requires Conserved(c, s) && RunEnabled(c, s, steps)
    ensures Conserved(c, Run(c, s, steps)) && Run(c, s, steps).sub.start == s.sub.start
    decreases steps
  {
    if steps != [] {
      StepConserved(c, s, steps[0]);
      RunConserved(c, Next(c, s, steps[0]), steps[1..]);
    }
  }

  /** A repetition in part of a line would show in the balance. */
  lemma BalanceNoRepeat(own: seq<nat>, rest: seq<nat>, lost: seq<nat>, a: nat, b: nat)
    requires multiset(own + rest) + multiset(lost) == multiset(Range(a, b))
    ensures NoDuplicates(own)
  {
    assert multiset(own + rest) == multiset(own) + multiset(rest);
    forall i, j | 0 <= i < j < |own| ensures own[i] != own[j] {
      if own[i] == own[j] {
        TwiceInSeq(own, i, j);
        OnceInRange(a, b, own[i]);
      }
    }
  }

  lemma BalancedNoRepeat(s: State)
    requires s.sub.Open? && Balanced(s)
    ensures NoDuplicates(OwnIndices(s.delivered))
  {
    var cut := s.sub.cutoff;
    var own := OwnIndices(s.delivered);
    var rest := Range(s.sub.next, cut) + Live(cut, s.queue) + Live(cut, s.inflight) + Live(cut, s.scheduled);
    FrontShuffle(own, Range(s.sub.next, cut), Live(cut, s.queue), Live(cut, s.inflight), Live(cut, s.scheduled));
    BalanceNoRepeat(own, rest, s.dropped, s.sub.start, |s.log|);
  }

  lemma FrontShuffle(d: seq<nat>, r: seq<nat>, q: seq<nat>, f: seq<nat>, g: seq<nat>)
    ensures d + r + q + f + g == d + (r + q + f + g)
  {
  }

  /** Nothing left to replay, to take, to put or to start. */
  predicate Quiet(s: State) {
    s.sub.Open? && s.sub.next == s.sub.cutoff && s.queue == s.inflight == s.scheduled == []
  }

  lemma QuietTimeline(s: State)
    requires Quiet(s)
    ensures Timeline(s) == OwnIndices(s.delivered)
  {
  }

  /**
   Conservation in every run: each index from the cursor to the end of the log is delivered, still to
   come, or dropped by a full queue, exactly once in all.
   */
  lemma DeliversAtMostOnce(c: Config, s0: State, cursor: Option<Cursor>, steps: seq<Step>)
    requires Sane(c, s0) && Enabled(c, s0, Subscribe(cursor)) && RunEnabled(c, Next(c, s0, Subscribe(cursor)), steps)
    ensures var t := Run(c, Next(c, s0, Subscribe(cursor)), steps);
      && t.sub.Open? && Balanced(t)
      && NoDuplicates(OwnIndices(t.delivered))
      && (Quiet(t) ==> multiset(OwnIndices(t.delivered)) + multiset(t.dropped) == multiset(Range(t.sub.start, |t.log|)))
  {
    var s := Next(c, s0, Subscribe(cursor));
    NextSane(c, s0, Subscribe(cursor));
    SubscribeTimeline(c, s0, cursor);
    RunConserved(c, s, steps);
    var t := Run(c, s, steps);
    BalancedNoRepeat(t);
    if Quiet(t) { QuietTimeline(t); }
  }

  lemma TwiceInSeq(s: seq<nat>, i: nat, j: nat)
    requires i < j < |s| && s[i] == s[j]
    ensures multiset(s)[s[i]] >= 2
  {
    assert s == s[..i] + [s[i]] + s[i + 1..j] + [s[j]] + s[j + 1..];
  }

  lemma {:induction false} OnceInRange(a: nat, b: nat, x: nat)
    ensures multiset(Range(a, b))[x] <= 1
    decreases b - a
  {
    if a < b {
      RangeHead(a, b);
      OnceInRange(a + 1, b, x);
      if x == a { assert x !in Range(a + 1, b); }
    }
  }

  // ----- order under backpressure

  /** What is delivered and to come increases, and lies within the log. */
  ghost predicate Ordered(s: State) {
    s.sub.Open? && Increasing(Timeline(s)) && Below(Timeline(s), |s.log|)
  }

  ghost predicate Below(s: seq<nat>, bound: nat) {
    forall i :: 0 <= i < |s| ==> s[i] < bound
  }

  lemma CutIncreasing(a: seq<nat>, h: seq<nat>, b: seq<nat>, bound: nat)
    requires Increasing(a + h + b) && Below(a + h + b, bound)
    ensures Increasing(a + b) && Below(a + b, bound)
  {
    var whole, cut := a + h + b, a + b;
    forall i | 0 <= i < |cut| ensures cut[i] == whole[if i < |a| then i else i + |h|] { }
  }

  /** Whether a put finds a place; a full queue that drops its oldest makes one. */
  predicate Accepts(c: Config, queue: seq<Item>) {
    |queue| < c.capacity || c.mode.Block? || (c.mode.DropOldest? && queue != [])
  }

  /** A full queue that drops its oldest keeps the newest of what there is, one that drops its newest the oldest. */
  lemma FullQueueKeeps(c: Config, queue: seq<Item>, item: Item)
    requires 0 < c.capacity && |queue| <= c.capacity && (c.mode.Block? ==> |queue| < c.capacity)
    ensures var all, kept := queue + [item], Enqueue(c, queue, item);
      && (|all| <= c.capacity ==> kept == all && Discarded(c, queue, item) == [])
      && (|all| > c.capacity ==>
           && |kept| == c.capacity
           && (c.mode.DropOldest? ==> Discarded(c, queue, item) + kept == all)
           && (c.mode.DropNewest? ==> kept + Discarded(c, queue, item) == all))
  {
    if |queue| == c.capacity && c.mode.DropOldest? { assert [queue[0]] + (queue[1..] + [item]) == queue + [item]; }
  }

  /** What an accepted put does to the live queue: its head h may leave, and the payload joins at the end. */
  lemma AcceptedQueue(c: Config, cutoff: nat, queue: seq<Item>, item: Item) returns (h: seq<nat>, q: seq<nat>)
    requires Accepts(c, queue)
    ensures Live(cutoff, queue) == h + q && Live(cutoff, Enqueue(c, queue, item)) == q + Live(cutoff, [item])
  {
    if |queue| < c.capacity || c.mode.Block? {
      h, q := [], Live(cutoff, queue);
      LiveAppend(cutoff, queue, [item]);
    } else {
      h, q := Live(cutoff, [queue[0]]), Live(cutoff, queue[1..]);
      assert queue == [queue[0]] + queue[1..];
      LiveAppend(cutoff, [queue[0]], queue[1..]);
      LiveAppend(cutoff, queue[1..], [item]);
    }
  }

  /** A payload that finds no place leaves the line. */
  lemma RefusedOrder(front: seq<nat>, a: seq<nat>, x: seq<nat>, b: seq<nat>, sched: seq<nat>, bound: nat)
    requires Increasing(front + (a + x + b) + sched) && Below(front + (a + x + b) + sched, bound)
    ensures Increasing(front + (a + b) + sched) && Below(front + (a + b) + sched, bound)
  {
    assert front + (a + x + b) + sched == (front + a) + x + (b + sched);
    CutIncreasing(front + a, x, b + sched, bound);
    assert front + (a + b) + sched == (front + a) + (b + sched);
  }

  /** The head h of the queue leaves the line and x joins the queue ahead of a: in order exactly if one is empty. */
  lemma AcceptedOrderIff(front: seq<nat>, h: seq<nat>, q: seq<nat>, a: seq<nat>, x: seq<nat>, tail: seq<nat>,
                         bound: nat)
    requires Increasing(front + h + (q + a + x + tail)) && Below(front + h + (q + a + x + tail), bound)
    ensures Increasing(front + (q + x + a + tail)) && Below(front + (q + x + a + tail), bound) <==>
      a == [] || x == []
  {
    var line, swapped := front + h + (q + a + x + tail), front + (q + x + a + tail);
    if a == [] || x == [] {
      assert a + x == x + a;
      assert q + a + x + tail == q + (a + x) + tail && q + x + a + tail == q + (x + a) + tail;
      CutIncreasing(front, h, q + x + a + tail, bound);
    } else {
      assert line[|front| + |h| + |q|] == a[0] && line[|front| + |h| + |q| + |a|] == x[0];
      assert swapped[|front| + |q|] == x[0] && swapped[|front| + |q| + |x|] == a[0];
    }
  }

  /** A put that finds no place, or overtakes nothing live with something live. */
  predicate KeepsOrder(c: Config, s: State, step: Step)
    requires Enabled(c, s, step)
  {
    step.Put? ==>
      || !Accepts(c, s.queue)
      || Live(s.sub.cutoff, s.inflight[..step.k]) == []
      || Live(s.sub.cutoff, [s.inflight[step.k]]) == []
  }

  predicate RunKeepsOrder(c: Config, s: State, steps: seq<Step>)
    requires RunEnabled(c, s, steps)
    decreases steps
  {
    steps == [] || (KeepsOrder(c, s, steps[0]) && RunKeepsOrder(c, Next(c, s, steps[0]), steps[1..]))
  }

  lemma LineShuffle(front: seq<nat>, h: seq<nat>, q: seq<nat>, a: seq<nat>, x: seq<nat>, b: seq<nat>, g: seq<nat>)
    ensures front + (h + q) + (a + x + b) + g == front + h + (q + a + x + (b + g))
    ensures front + (q + x) + (a + b) + g == front + (q + x + a + (b + g))
  {
  }

  /** In any backpressure mode, a put keeps what is delivered and to come in order exactly when it is such a put. */
  lemma PutOrderedIff(c: Config, s: State, k: nat)
    requires Ordered(s) && Enabled(c, s, Put(k))
    ensures Ordered(Next(c, s, Put(k))) <==> KeepsOrder(c, s, Put(k))
  {
    var cut, item := s.sub.cutoff, s.inflight[k];
    var front := OwnIndices(s.delivered) + Range(s.sub.next, cut);
    var a, x := Live(cut, s.inflight[..k]), Live(cut, [item]);
    var b, g := Live(cut, s.inflight[k + 1..]), Live(cut, s.scheduled);
    PutTimelines(c, s, k);
    if Accepts(c, s.queue) {
      var h, q := AcceptedQueue(c, cut, s.queue, item);
      LineShuffle(front, h, q, a, x, b, g);
      AcceptedOrderIff(front, h, q, a, x, b + g, |s.log|);
    } else {
      RefusedOrder(front + Live(cut, s.queue), a, x, b, g, |s.log|);
    }
  }

  lemma StepOrdered(c: Config, s: State, step: Step)
    requires Sane(c, s) && Ordered(s) && Enabled(c, s, step) && Inner(step) && KeepsOrder(c, s, step)
    ensures Ordered(Next(c, s, step))
  {
    match step
    case Patch(event) => PatchTimeline(c, s, event);
    case LinkedPatch(source, index, event) => LinkedTimeline(c, s, source, index, event);
    case Begin => BeginTimeline(c, s);
    case Put(k) => PutOrderedIff(c, s, k);
    case Replay => ReplayFront(c, s);
    case Take => TakeFront(c, s);
  }

  lemma {:induction false} RunOrdered(c: Config, s: State, steps: seq<Step>)
    requires Sane(c, s) && Ordered(s) && RunEnabled(c, s, steps) && RunKeepsOrder(c, s, steps)
    ensures Ordered(Run(c, s, steps))
    decreases steps
  {
    if steps != [] {
      NextSane(c, s, steps[0]);
      StepOrdered(c, s, steps[0]);
      RunOrdered(c, Next(c, s, steps[0]), steps[1..]);
    }
  }

  lemma OrderedDelivered(s: State)
    requires Ordered(s)
    ensures Increasing(OwnIndices(s.delivered))
  {
    var own, line := OwnIndices(s.delivered), Timeline(s);
    assert forall i :: 0 <= i < |own| ==> own[i] == line[i];
  }

  /**
   In the dropping modes too, as long as no accepted put lets something live overtake something live: there may be
   gaps, but nothing is repeated or out of order.
   */
  lemma DeliversInOrder(c: Config, s0: State, cursor: Option<Cursor>, steps: seq<Step>)
    requires Sane(c, s0) && Enabled(c, s0, Subscribe(cursor)) && RunEnabled(c, Next(c, s0, Subscribe(cursor)), steps)
    requires RunKeepsOrder(c, Next(c, s0, Subscribe(cursor)), steps)
    ensures Increasing(OwnIndices(Run(c, Next(c, s0, Subscribe(cursor)), steps).delivered))
  {
    var s := Next(c, s0, Subscribe(cursor));
    NextSane(c, s0, Subscribe(cursor));
    SubscribeTimeline(c, s0, cursor);
    RunOrdered(c, s, steps);
    OrderedDelivered(Run(c, s, steps));
  }

  // ----- where the promise of order stops, exactly

  ghost predicate Inverted(line: seq<nat>) {
    exists i, j :: 0 <= i < j < |line| && line[i] > line[j]
  }

  /** Something live in flight has been passed by something queued, replayed or delivered. */
  ghost predicate Overtaken(s: State)
    requires s.sub.Open?
  {
    exists x, y :: x in Front(s) && y in Live(s.sub.cutoff, s.inflight) && y < x
  }

  /** Something live is lost, out of order, or bound to end up out of order. */
  ghost predicate Broken(s: State) {
    s.sub.Open? && (s.dropped != [] || Inverted(Front(s)) || Overtaken(s))
  }

  lemma InvertedGrows(line: seq<nat>, more: seq<nat>)
    requires Inverted(line)
    ensures Inverted(line + more)
  {
    var i, j :| 0 <= i < j < |line| && line[i] > line[j];
    assert (line + more)[i] == line[i] && (line + more)[j] == line[j];
  }

  lemma InvertedByNext(line: seq<nat>, x: nat, more: seq<nat>, y: nat)
    requires x in line && y in more && y < x
    ensures Inverted(line + more)
  {
    var i :| 0 <= i < |line| && line[i] == x;
    var j :| 0 <= j < |more| && more[j] == y;
    assert (line + more)[i] == x && (line + more)[|line| + j] == y;
  }

  /** A put that does not keep the line breaks it. */
  lemma PutBreaks(c: Config, s: State, k: nat)
    requires Seamless(c, s) && Enabled(c, s, Put(k)) && !KeepsLine(c, s, Put(k))
    ensures Broken(Next(c, s, Put(k)))
  {
    var cut, item := s.sub.cutoff, s.inflight[k];
    if Live(cut, Discarded(c, s.queue, item)) == [] {
      var ahead, x := Live(cut, s.inflight[..k]), Live(cut, [item]);
      PutTimeline(c, s, k);
      PutFront(c, s, k);
      LiveSplit(cut, s.inflight, k);
      assert Timeline(s)[|Front(s)|] == ahead[0] && Timeline(s)[|Front(s)| + |ahead|] == x[0];
      var t := Next(c, s, Put(k));
      assert x[0] in Front(t) && ahead[0] in Live(cut, t.inflight);
    }
  }

  lemma PutStaysBroken(c: Config, s: State, k: nat)
    requires Broken(s) && Enabled(c, s, Put(k))
    ensures Broken(Next(c, s, Put(k)))
  {
    var cut, item := s.sub.cutoff, s.inflight[k];
    var t := Next(c, s, Put(k));
    if s.dropped == [] && Live(cut, Discarded(c, s.queue, item)) == [] {
      PutFront(c, s, k);
      LiveSplit(cut, s.inflight, k);
      if Inverted(Front(s)) {
        InvertedGrows(Front(s), Live(cut, [item]));
      } else {
        var x, y :| x in Front(s) && y in Live(cut, s.inflight) && y < x;
        if y in Live(cut, [item]) {
          InvertedByNext(Front(s), x, Live(cut, [item]), y);
        } else {
          assert x in Front(t) && y in Live(cut, t.inflight);
        }
      }
    }
  }

  /** Steps that leave the front alone and take nothing out of the flight. */
  lemma FlightGrowsStaysBroken(s: State, t: State)
    requires Broken(s) && t.sub.Open? && t.sub.cutoff == s.sub.cutoff && t.dropped == s.dropped
    requires Front(t) == Front(s) && s.inflight <= t.inflight
    ensures Broken(t)
  {
    if Overtaken(s) {
      var x, y :| x in Front(s) && y in Live(s.sub.cutoff, s.inflight) && y < x;
      LiveAppend(s.sub.cutoff, s.inflight, t.inflight[|s.inflight|..]);
      assert t.inflight == s.inflight + t.inflight[|s.inflight|..];
      assert x in Front(t) && y in Live(t.sub.cutoff, t.inflight);
    }
  }

  /** A broken line never heals. */
  lemma BrokenStays(c: Config, s: State, step: Step)
    requires Broken(s) && Enabled(c, s, step) && Inner(step)
    ensures Broken(Next(c, s, step))
  {
    var t := Next(c, s, step);
    match step
    case Put(k) => PutStaysBroken(c, s, k);
    case Replay =>
      ReplayFront(c, s);
      FlightGrowsStaysBroken(s, t);
    case Take =>
      TakeFront(c, s);
      FlightGrowsStaysBroken(s, t);
    case Patch(event) => FlightGrowsStaysBroken(s, t);
    case LinkedPatch(source, index, event) => FlightGrowsStaysBroken(s, t);
    case Begin => FlightGrowsStaysBroken(s, t);
  }

  lemma {:induction false} RunStaysBroken(c: Config, s: State, steps: seq<Step>)
    requires Broken(s) && RunEnabled(c, s, steps)
    ensures Broken(Run(c, s, steps))
    decreases steps
  {
    if steps != [] {
      BrokenStays(c, s, steps[0]);
      RunStaysBroken(c, Next(c, s, steps[0]), steps[1..]);
    }
  }

  lemma RisingCrossesNothing(front: seq<nat>, flight: seq<nat>, rest: seq<nat>)
    requires Increasing(front + flight + rest)
    ensures !Inverted(front) && forall x, y :: x in front && y in flight ==> x < y
  {
    var line := front + flight + rest;
    assert forall i :: 0 <= i < |front| ==> line[i] == front[i];
    forall x, y | x in front && y in flight ensures x < y {
      var i :| 0 <= i < |front| && front[i] == x;
      var j :| 0 <= j < |flight| && flight[j] == y;
      assert line[i] == x && line[|front| + j] == y;
    }
  }

  lemma NothingLost(line: seq<nat>, lost: seq<nat>)
    requires multiset(line) + multiset(lost) == multiset(line)
    ensures lost == []
  {
    assert |multiset(line) + multiset(lost)| == |line| + |lost|;
  }

  lemma BrokenIsNotSeamless(c: Config, s: State)
    requires Conserved(c, s) && Seamless(c, s)
    ensures !Broken(s)
  {
    NothingLost(Timeline(s), s.dropped);
    RisingCrossesNothing(Front(s), Live(s.sub.cutoff, s.inflight), Live(s.sub.cutoff, s.scheduled));
  }

  /**
   The hand-over keeps its line over a run exactly when no put of the run discards something live or lets
   something live overtake something live.
   */
  lemma {:induction false} RunSeamlessIff(c: Config, s: State, steps: seq<Step>)
    requires Conserved(c, s) && Seamless(c, s) && RunEnabled(c, s, steps)
    ensures Seamless(c, Run(c, s, steps)) <==> RunKeepsLine(c, s, steps)
    decreases steps
  {
    if steps != [] {
      var next := Next(c, s, steps[0]);
      StepConserved(c, s, steps[0]);
      if KeepsLine(c, s, steps[0]) {
        StepSeamless(c, s, steps[0]);
        RunSeamlessIff(c, next, steps[1..]);
      } else {
        PutBreaks(c, s, steps[0].k);
        RunStaysBroken(c, next, steps[1..]);
        RunConserved(c, next, steps[1..]);
        if Seamless(c, Run(c, s, steps)) { BrokenIsNotSeamless(c, Run(c, s, steps)); }
      }
    }
  }

  /**
   What a subscriber sees: once nothing is left to come, it has been given start, start+1, ... up to the end
   of the log, in that order, exactly when no put of the run lost or overtook something live.
   */
  lemma DeliversAllInOrderIff(c: Config, s0: State, cursor: Option<Cursor>, steps: seq<Step>)
    requires Sane(c, s0) && Enabled(c, s0, Subscribe(cursor)) && RunEnabled(c, Next(c, s0, Subscribe(cursor)), steps)
    requires Quiet(Run(c, Next(c, s0, Subscribe(cursor)), steps))
    ensures var s := Next(c, s0, Subscribe(cursor));
      var t := Run(c, s, steps);
      OwnIndices(t.delivered) == Range(ResolveCursor(c.uri, cursor, |s0.log|).value, |t.log|) <==>
        RunKeepsLine(c, s, steps)
  {
    var s := Next(c, s0, Subscribe(cursor));
    NextSane(c, s0, Subscribe(cursor));
    SubscribeTimeline(c, s0, cursor);
    RunConserved(c, s, steps);
    RunSeamlessIff(c, s, steps);
    QuietTimeline(Run(c, s, steps));
  }

  /** The caller asks for the events from index n on: by nothing at all, by a position, or by a token of this uri. */
  predicate AsksFrom(uri: string, cursor: Option<Cursor>, n: int) {
    || (cursor == None && n == 0)
    || cursor == Some(Position(n))
    || cursor == Some(Token(UriToken(uri, Some(n))))
  }

  /**
   When a subscription is accepted, and where it begins: on a closed subscription, exactly when the caller asks for
   an index within the log, and it begins there.
   */
  lemma SubscribeStartsIff(c: Config, s: State, cursor: Option<Cursor>)
    ensures Enabled(c, s, Subscribe(cursor)) <==>
      s.sub.Closed? && exists n :: 0 <= n <= |s.log| && AsksFrom(c.uri, cursor, n)
    ensures forall n: nat :: Enabled(c, s, Subscribe(cursor)) && AsksFrom(c.uri, cursor, n) ==>
      Next(c, s, Subscribe(cursor)) == State(s.log, s.scheduled, [], [], Open(n, |s.log|, n), [], [])
  {
    if Enabled(c, s, Subscribe(cursor)) {
      var n: int := ResolveCursor(c.uri, cursor, |s.log|).value;
      if cursor.Some? && cursor.value.Token? {
        var token := cursor.value.decoded;
        assert token == UriToken(c.uri, token.next) && token.next == Some(n);
      }
      assert AsksFrom(c.uri, cursor, n);
    }
  }

  /**
   Asked for the events from index n on, a subscription that has come to rest has been given n, n+1, ... up to the end
   of the log, in that order, exactly when no put lost or overtook something live. With no cursor n is 0.
   */
  lemma DeliversFromIff(c: Config, s0: State, cursor: Option<Cursor>, n: nat, steps: seq<Step>)
    requires Sane(c, s0) && s0.sub.Closed? && n <= |s0.log| && AsksFrom(c.uri, cursor, n)
    requires Enabled(c, s0, Subscribe(cursor)) ==>
      var s := Next(c, s0, Subscribe(cursor)); RunEnabled(c, s, steps) && Quiet(Run(c, s, steps))
    ensures Enabled(c, s0, Subscribe(cursor))
    ensures var s := Next(c, s0, Subscribe(cursor));
      OwnIndices(Run(c, s, steps).delivered) == Range(n, |Run(c, s, steps).log|) <==> RunKeepsLine(c, s, steps)
  {
    SubscribeStartsIff(c, s0, cursor);
    DeliversAllInOrderIff(c, s0, cursor, steps);
  }

  // ----- whole histories: subscriptions opened and closed again

  predicate HistoryEnabled(c: Config, s: State, steps: seq<Step>)
    decreases steps
  {
    steps == [] || (Enabled(c, s, steps[0]) && HistoryEnabled(c, Next(c, s, steps[0]), steps[1..]))
  }

  function History(c: Config, s: State, steps: seq<Step>): State
    requires HistoryEnabled(c, s, steps)
    decreases steps
  {
    if steps == [] then s else History(c, Next(c, s, steps[0]), steps[1..])
  }

  /** In every history, whatever the mode, the queue stays within its capacity and the payloads stay faithful. */
  lemma {:induction false} QueueBounded(c: Config, s: State, steps: seq<Step>)
    requires Sane(c, s) && |s.queue| <= c.capacity && HistoryEnabled(c, s, steps)
    ensures var t := History(c, s, steps); Sane(c, t) && |t.queue| <= c.capacity && s.log <= t.log
    decreases steps
  {
    if steps != [] {
      NextSane(c, s, steps[0]);
      QueueBounded(c, Next(c, s, steps[0]), steps[1..]);
    }
  }

  /** Once unsubscribed, nothing more is delivered or queued until someone subscribes again, whatever is published. */
  lemma {:induction false} NothingAfterUnsubscribe(c: Config, s: State, steps: seq<Step>)
    requires s.sub.Open? && HistoryEnabled(c, s, [Unsubscribe] + steps)
    requires forall i :: 0 <= i < |steps| ==> !steps[i].Subscribe?
    ensures var t := History(c, s, [Unsubscribe] + steps);
      t.sub.Closed? && t.inflight == t.queue == [] && t.delivered == s.delivered
  {
    assert ([Unsubscribe] + steps)[1..] == steps;
    ClosedStaysIdle(c, Next(c, s, Unsubscribe), steps);
  }

  lemma {:induction false} ClosedStaysIdle(c: Config, s: State, steps: seq<Step>)
    requires s.sub.Closed? && s.inflight == s.queue == [] && HistoryEnabled(c, s, steps)
    requires forall i :: 0 <= i < |steps| ==> !steps[i].Subscribe?
    ensures var t := History(c, s, steps);
      t.sub.Closed? && t.inflight == t.queue == [] && t.delivered == s.delivered
    decreases steps
  {
    if steps != [] { ClosedStaysIdle(c, Next(c, s, steps[0]), steps[1..]); }
  }

  /** A step that is not taken from outside: a publish task starts or puts, the generator replays or takes. */
  predicate Working(step: Step) {
    step.Begin? || step.Put? || step.Replay? || step.Take?
  }

  /** An open subscription can always go on until it has come to rest, and only then can it not. */
  lemma WorksUntilQuiet(c: Config, s: State)
    requires Sane(c, s) && s.sub.Open? && c.capacity > 0
    ensures Quiet(s) <==> forall step :: Working(step) ==> !Enabled(c, s, step)
  {
    if !Quiet(s) {
      var step := NextWork(s);
      assert Working(step) && Enabled(c, s, step);
    }
  }

  /** Replays before taking, takes before putting, puts before starting. */
  function NextWork(s: State): Step
    requires s.sub.Open? && !Quiet(s)
  {
    if s.sub.next != s.sub.cutoff then Replay
    else if s.queue != [] then Take
    else if s.inflight != [] then Put(0)
    else Begin
  }

  function WorkLeft(s: State): int
    requires s.sub.Open?
  {
    s.sub.cutoff - s.sub.next + |s.queue| + 2 * |s.inflight| + 3 * |s.scheduled|
  }

  /**
   From any state of an open subscription, in any mode, there is a run without further patches that keeps the line and
   comes to rest.
   */
  lemma {:induction false} ComesToRest(c: Config, s: State) returns (steps: seq<Step>)
    requires Sane(c, s) && s.sub.Open? && c.capacity > 0
    ensures RunEnabled(c, s, steps) && RunKeepsLine(c, s, steps)
    ensures forall i :: 0 <= i < |steps| ==> Working(steps[i])
    ensures Quiet(Run(c, s, steps)) && Run(c, s, steps).log == s.log
    decreases WorkLeft(s)
  {
    steps := [];
    if !Quiet(s) {
      var step := NextWork(s);
      NextSane(c, s, step);
      var more := ComesToRest(c, Next(c, s, step));
      steps := [step] + more;
      assert steps[1..] == more;
    }
  }

  lemma {:induction false} RunConcat(c: Config, s: State, a: seq<Step>, b: seq<Step>)
    requires RunEnabled(c, s, a) && RunEnabled(c, Run(c, s, a), b)
    ensures RunEnabled(c, s, a + b) && Run(c, s, a + b) == Run(c, Run(c, s, a), b)
    decreases a
  {
    if a == [] {
      assert a + b == b;
    } else {
      RunConcat(c, Next(c, s, a[0]), a[1..], b);
      assert (a + b)[1..] == a[1..] + b;
    }
  }

  /** The run is possible and ends there. */
  predicate Reaches(c: Config, s: State, steps: seq<Step>, t: State) {
    RunEnabled(c, s, steps) && Run(c, s, steps) == t
  }

  lemma ReachesOn(c: Config, s: State, a: seq<Step>, t: State, b: seq<Step>, u: State)
    requires Reaches(c, s, a, t) && Reaches(c, t, b, u)
    ensures Reaches(c, s, a + b, u)
  {
    RunConcat(c, s, a, b);
  }

  lemma OneStep(c: Config, s: State, step: Step)
    requires Enabled(c, s, step) && Inner(step)
    ensures Reaches(c, s, [step], Next(c, s, step))
  {
    assert [step][1..] == [];
  }

  lemma TwoSteps(c: Config, s: State, first: Step, second: Step)
    requires Enabled(c, s, first) && Inner(first)
    requires Enabled(c, Next(c, s, first), second) && Inner(second)
    ensures Reaches(c, s, [first, second], Next(c, Next(c, s, first), second))
  {
    OneStep(c, s, first);
    OneStep(c, Next(c, s, first), second);
    ReachesOn(c, s, [first], Next(c, s, first), [second], Next(c, Next(c, s, first), second));
    assert [first] + [second] == [first, second];
  }

  /** A payload in flight is put into the free slot of a blocking queue, and the reader takes it. */
  lemma PutThenTake(c: Config, s: State, k: nat, t: State)
    requires s.sub.Open? && s.sub.next == s.sub.cutoff && s.queue == [] && k < |s.inflight|
    requires c.mode.Block? && c.capacity > 0 && !Stale(s.sub.cutoff, s.inflight[k])
    requires t == s.(inflight := s.inflight[..k] + s.inflight[k + 1..],
                     delivered := s.delivered + [Deliver(c.uri, s.inflight[k])])
    ensures Reaches(c, s, [Put(k), Take], t)
  {
    TwoSteps(c, s, Put(k), Take);
    assert s.dropped + [] == s.dropped;
  }

  /** The second event's task waits behind the first, which fills the queue. */
  lemma SecondWaits(c: Config, s: State, e0: Event, e1: Event) returns (steps: seq<Step>)
    requires c.mode.Block? && c.capacity == 1 && s == State([], [], [], [], Open(0, 0, 0), [], [])
    ensures Reaches(c, s, steps, State([e0, e1], [], [Own(1, e1)], [Own(0, e0)], Open(0, 0, 0), [], []))
  {
    var begun := State([e0], [], [Own(0, e0)], [], Open(0, 0, 0), [], []);
    var full := State([e0], [], [], [Own(0, e0)], Open(0, 0, 0), [], []);
    TwoSteps(c, s, Patch(e0), Begin);
    OneStep(c, begun, Put(0));
    ReachesOn(c, s, [Patch(e0), Begin], begun, [Put(0)], full);
    TwoSteps(c, full, Patch(e1), Begin);
    steps := [Patch(e0), Begin] + [Put(0)] + [Patch(e1), Begin];
    ReachesOn(c, s, [Patch(e0), Begin] + [Put(0)], full, [Patch(e1), Begin],
      State([e0, e1], [], [Own(1, e1)], [Own(0, e0)], Open(0, 0, 0), [], []));
  }

  /** The third event is logged, the reader takes the first, and the third's task starts before the second wakes. */
  lemma ThirdArrives(c: Config, e0: Event, e1: Event, e2: Event) returns (steps: seq<Step>)
    requires c.mode.Block? && c.capacity == 1
    ensures Reaches(c, State([e0, e1], [], [Own(1, e1)], [Own(0, e0)], Open(0, 0, 0), [], []), steps,
      State([e0, e1, e2], [], [Own(1, e1), Own(2, e2)], [], Open(0, 0, 0), [Deliver(c.uri, Own(0, e0))], []))
  {
    var s := State([e0, e1], [], [Own(1, e1)], [Own(0, e0)], Open(0, 0, 0), [], []);
    var taken := State([e0, e1, e2], [Own(2, e2)], [Own(1, e1)], [], Open(0, 0, 0), [Deliver(c.uri, Own(0, e0))], []);
    TwoSteps(c, s, Patch(e2), Take);
    OneStep(c, taken, Begin);
    steps := [Patch(e2), Take] + [Begin];
    ReachesOn(c, s, [Patch(e2), Take], taken, [Begin], Next(c, taken, Begin));
  }

  /** Both are put and taken, the third first. */
  lemma ThirdFirst(c: Config, e0: Event, e1: Event, e2: Event) returns (steps: seq<Step>)
    requires c.mode.Block? && c.capacity == 1
    ensures var d0, d1, d2 := Deliver(c.uri, Own(0, e0)), Deliver(c.uri, Own(1, e1)), Deliver(c.uri, Own(2, e2));
      Reaches(c, State([e0, e1, e2], [], [Own(1, e1), Own(2, e2)], [], Open(0, 0, 0), [d0], []), steps,
        State([e0, e1, e2], [], [], [], Open(0, 0, 0), [d0, d2, d1], []))
  {
    var d0, d1, d2 := Deliver(c.uri, Own(0, e0)), Deliver(c.uri, Own(1, e1)), Deliver(c.uri, Own(2, e2));
    var s := State([e0, e1, e2], [], [Own(1, e1), Own(2, e2)], [], Open(0, 0, 0), [d0], []);
    var passed := State([e0, e1, e2], [], [Own(1, e1)], [], Open(0, 0, 0), [d0, d2], []);
    var done := State([e0, e1, e2], [], [], [], Open(0, 0, 0), [d0, d2, d1], []);
    PutThenTake(c, s, 1, passed);
    PutThenTake(c, passed, 0, done);
    steps := [Put(1), Take] + [Put(0), Take];
    ReachesOn(c, s, [Put(1), Take], passed, [Put(0), Take], done);
  }

  /**
   It happens in `block` mode with a queue of one: the first event fills the queue and the second waits in flight;
   the third is logged, the reader takes the first, and the third's task starts and puts before the second wakes.
   Nothing is dropped, everything arrives, and the order is 0, 2, 1.
   */
  lemma BlockedPutOvertaken(uri: string, e0: Event, e1: Event, e2: Event) returns (steps: seq<Step>)
    ensures var c := Config(uri, Block, 1);
      var s0 := State([], [], [], [], Closed, [], []);
      && Sane(c, s0) && Enabled(c, s0, Subscribe(None)) && RunEnabled(c, Next(c, s0, Subscribe(None)), steps)
      && var t := Run(c, Next(c, s0, Subscribe(None)), steps);
        Quiet(t) && t.dropped == [] && OwnIndices(t.delivered) == [0, 2, 1]
  {
    var c := Config(uri, Block, 1);
    var d0, d1, d2 := Deliver(uri, Own(0, e0)), Deliver(uri, Own(1, e1)), Deliver(uri, Own(2, e2));
    var s := State([], [], [], [], Open(0, 0, 0), [], []);
    var waits := State([e0, e1], [], [Own(1, e1)], [Own(0, e0)], Open(0, 0, 0), [], []);
    var arrived := State([e0, e1, e2], [], [Own(1, e1), Own(2, e2)], [], Open(0, 0, 0), [d0], []);
    var done := State([e0, e1, e2], [], [], [], Open(0, 0, 0), [d0, d2, d1], []);
    var first := SecondWaits(c, s, e0, e1);
    var second := ThirdArrives(c, e0, e1, e2);
    var third := ThirdFirst(c, e0, e1, e2);
    ReachesOn(c, s, first, waits, second, arrived);
    ReachesOn(c, s, first + second, arrived, third, done);
    steps := first + second + third;
    OwnOfThree(d0, d2, d1);
  }

  lemma OwnOfThree(a: Delivery, b: Delivery, d: Delivery)
    requires a.item.Own? && b.item.Own? && d.item.Own?
    ensures OwnIndices([a, b, d]) == [a.item.index, b.item.index, d.item.index]
  {
    assert [a, b, d][..2] == [a, b] && [a, b][..1] == [a] && [a][..0] == [];
    assert OwnIndices([a]) == [a.item.index];
    assert OwnIndices([a, b]) == [a.item.index, b.item.index];
  }

  // ----- entangled payloads

  function LinkedIn(delivered: seq<Delivery>): seq<Item> {
    if delivered == [] then []
    else
      var n := |delivered| - 1;
      if delivered[n].item.Linked? then LinkedIn(delivered[..n]) + [delivered[n].item] else LinkedIn(delivered[..n])
  }

  /** The entangled payloads that the filter lets through. */
  function Passing(cutoff: nat, items: seq<Item>): seq<Item> {
    if items == [] then []
    else
      var n := |items| - 1;
      if items[n].Linked? && !Stale(cutoff, items[n]) then Passing(cutoff, items[..n]) + [items[n]]
      else Passing(cutoff, items[..n])
  }

  /** What a step appends to the queue. */
  function EnteredBy(c: Config, s: State, step: Step): seq<Item>
    requires Enabled(c, s, step)
  {
    if step.Put? && Accepts(c, s.queue) then [s.inflight[step.k]] else []
  }

  /** A payload that leaves the queue is taken by the reader, or dropped to make room. */
  datatype Exit = Exit(item: Item, taken: bool)

  function LeftBy(c: Config, s: State, step: Step): seq<Exit>
    requires Enabled(c, s, step)
  {
    if step.Take? then [Exit(s.queue[0], true)]
    else if step.Put? && Accepts(c, s.queue) && |s.queue| >= c.capacity && !c.mode.Block? then [Exit(s.queue[0], false)]
    else []
  }

  function Entered(c: Config, s: State, steps: seq<Step>): seq<Item>
    requires RunEnabled(c, s, steps)
    decreases steps
  {
    if steps == [] then [] else EnteredBy(c, s, steps[0]) + Entered(c, Next(c, s, steps[0]), steps[1..])
  }

  function Exits(c: Config, s: State, steps: seq<Step>): seq<Exit>
    requires RunEnabled(c, s, steps)
    decreases steps
  {
    if steps == [] then [] else LeftBy(c, s, steps[0]) + Exits(c, Next(c, s, steps[0]), steps[1..])
  }

  function ItemsOf(exits: seq<Exit>): seq<Item> {
    seq(|exits|, i requires 0 <= i < |exits| => exits[i].item)
  }

  function TakenOf(exits: seq<Exit>): seq<Item> {
    if exits == [] then []
    else
      var n := |exits| - 1;
      if exits[n].taken then TakenOf(exits[..n]) + [exits[n].item] else TakenOf(exits[..n])
  }

  lemma {:induction false} PassingAppend(cutoff: nat, a: seq<Item>, b: seq<Item>)
    ensures Passing(cutoff, a + b) == Passing(cutoff, a) + Passing(cutoff, b)
    decreases |b|
  {
    if b == [] {
      assert a + b == a;
    } else {
      PassingAppend(cutoff, a, b[..|b| - 1]);
      assert (a + b)[..|a + b| - 1] == a + b[..|b| - 1];
    }
  }

  lemma {:induction false} TakenAppend(a: seq<Exit>, b: seq<Exit>)
    ensures TakenOf(a + b) == TakenOf(a) + TakenOf(b)
    decreases |b|
  {
    if b == [] {
      assert a + b == a;
    } else {
      TakenAppend(a, b[..|b| - 1]);
      assert (a + b)[..|a + b| - 1] == a + b[..|b| - 1];
    }
  }

  lemma TakeExits(c: Config, s: State)
    requires s.sub.Open? && Enabled(c, s, Take)
    ensures var t := Next(c, s, Take);
      && s.queue == [s.queue[0]] + t.queue
      && LinkedIn(t.delivered) == LinkedIn(s.delivered) + Passing(s.sub.cutoff, [s.queue[0]])
  {
    assert [s.queue[0]][..0] == [];
  }

  lemma OneExit(item: Item, taken: bool)
    ensures ItemsOf([Exit(item, taken)]) == [item] && TakenOf([Exit(item, taken)]) == if taken then [item] else []
  {
    assert [Exit(item, taken)][..0] == [];
  }

  lemma StepExits(c: Config, s: State, step: Step)
    requires s.sub.Open? && Enabled(c, s, step) && Inner(step)
    ensures var t := Next(c, s, step);
      && t.sub.Open? && t.sub.cutoff == s.sub.cutoff
      && s.queue + EnteredBy(c, s, step) == ItemsOf(LeftBy(c, s, step)) + t.queue
      && LinkedIn(t.delivered) == LinkedIn(s.delivered) + Passing(s.sub.cutoff, TakenOf(LeftBy(c, s, step)))
  {
    if step.Take? {
      TakeExits(c, s);
      OneExit(s.queue[0], true);
    } else if step.Put? && LeftBy(c, s, step) != [] {
      assert s.queue == [s.queue[0]] + s.queue[1..];
      OneExit(s.queue[0], false);
    }
  }

  lemma QueueShuffle(q: seq<Item>, e1: seq<Item>, e2: seq<Item>, x1: seq<Item>, x2: seq<Item>,
      q1: seq<Item>, q2: seq<Item>)
    requires q + e1 == x1 + q1 && q1 + e2 == x2 + q2
    ensures q + (e1 + e2) == (x1 + x2) + q2
  {
    assert q + (e1 + e2) == (q + e1) + e2 == x1 + (q1 + e2);
  }

  lemma TwoStretches(a: seq<Item>, b: seq<Item>, d: seq<Item>)
    ensures (a + b) + d == a + (b + d)
  {
  }

  lemma ItemsOfAppend(a: seq<Exit>, b: seq<Exit>)
    ensures ItemsOf(a + b) == ItemsOf(a) + ItemsOf(b)
  {
  }

  /**
   Over any run the queue is first in, first out; and the entangled payloads delivered are, in order, those
   taken from it whose index in their own log reaches this uri's cutoff. The others taken are skipped.
   */
  lemma {:induction false} LinkedDeliveredExactly(c: Config, s: State, steps: seq<Step>)
    requires s.sub.Open? && RunEnabled(c, s, steps)
    ensures var t := Run(c, s, steps);
      && t.sub.Open? && t.sub.cutoff == s.sub.cutoff
      && s.queue + Entered(c, s, steps) == ItemsOf(Exits(c, s, steps)) + t.queue
      && LinkedIn(t.delivered) == LinkedIn(s.delivered) + Passing(s.sub.cutoff, TakenOf(Exits(c, s, steps)))
    decreases steps
  {
    if steps != [] {
      var next, t := Next(c, s, steps[0]), Run(c, s, steps);
      var x1, x2 := LeftBy(c, s, steps[0]), Exits(c, next, steps[1..]);
      StepExits(c, s, steps[0]);
      LinkedDeliveredExactly(c, next, steps[1..]);
      ItemsOfAppend(x1, x2);
      TwoStretches(LinkedIn(s.delivered), Passing(s.sub.cutoff, TakenOf(x1)), Passing(s.sub.cutoff, TakenOf(x2)));
      QueueShuffle(s.queue, EnteredBy(c, s, steps[0]), Entered(c, next, steps[1..]), ItemsOf(x1), ItemsOf(x2),
                   next.queue, t.queue);
      TakenAppend(x1, x2);
      PassingAppend(s.sub.cutoff, TakenOf(x1), TakenOf(x2));
    }
  }

  lemma {:induction false} BlockTakesAll(c: Config, s: State, steps: seq<Step>)
    requires c.mode.Block? && RunEnabled(c, s, steps)
    ensures TakenOf(Exits(c, s, steps)) == ItemsOf(Exits(c, s, steps))
    decreases steps
  {
    if steps != [] {
      var x1, x2 := LeftBy(c, s, steps[0]), Exits(c, Next(c, s, steps[0]), steps[1..]);
      BlockTakesAll(c, Next(c, s, steps[0]), steps[1..]);
      TakenAppend(x1, x2);
      ItemsOfAppend(x1, x2);
      assert x1 != [] ==> x1[..0] == [] && TakenOf(x1) == [x1[0].item];
    }
  }

  /** In `block` mode: of the entangled payloads put into the queue, exactly those at or above the cutoff, in order. */
  lemma LinkedDeliveredBlocking(c: Config, s0: State, cursor: Option<Cursor>, steps: seq<Step>)
    requires c.mode.Block? && Enabled(c, s0, Subscribe(cursor)) && RunEnabled(c, Next(c, s0, Subscribe(cursor)), steps)
    ensures var s := Next(c, s0, Subscribe(cursor));
      var t := Run(c, s, steps);
      LinkedIn(t.delivered) + Passing(|s0.log|, t.queue) == Passing(|s0.log|, Entered(c, s, steps))
  {
    var s := Next(c, s0, Subscribe(cursor));
    LinkedDeliveredExactly(c, s, steps);
    BlockTakesAll(c, s, steps);
    FromNothing(|s0.log|, LinkedIn(Run(c, s, steps).delivered), Entered(c, s, steps), ItemsOf(Exits(c, s, steps)),
                Run(c, s, steps).queue);
  }

  lemma FromNothing(cutoff: nat, linked: seq<Item>, entered: seq<Item>, taken: seq<Item>, queue: seq<Item>)
    requires [] + entered == taken + queue && linked == [] + Passing(cutoff, taken)
    ensures linked + Passing(cutoff, queue) == Passing(cutoff, entered)
  {
    PassingAppend(cutoff, taken, queue);
    assert [] + entered == entered && [] + Passing(cutoff, taken) == Passing(cutoff, taken);
  }

  /**
   An event of an entangled uri published after the subscription began, put and taken with room to spare: it is
   delivered exactly when its index in its own log is not below the length this uri's log had at the beginning.
   */
  lemma EntangledEventDeliveredIff(c: Config, s0: State, source: string, index: nat, event: Event)
      returns (steps: seq<Step>)
    requires c.capacity > 0 && s0.sub.Closed? && s0.scheduled == []
    ensures var cursor := Some(Position(|s0.log|));
      && Enabled(c, s0, Subscribe(cursor))
      && var s := Next(c, s0, Subscribe(cursor));
      && steps == [LinkedPatch(source, index, event), Put(0), Take] && RunEnabled(c, s, steps)
      && Quiet(Run(c, s, steps)) && Entered(c, s, steps) == [Linked(source, index, event)]
      && Run(c, s, steps).delivered ==
           if index >= |s0.log| then [Deliver(c.uri, Linked(source, index, event))] else []
  {
    var item := Linked(source, index, event);
    var s := Next(c, s0, Subscribe(Some(Position(|s0.log|))));
    var s1 := Next(c, s, LinkedPatch(source, index, event));
    var s2 := Next(c, s1, Put(0));
    var s3 := Next(c, s2, Take);
    steps := [LinkedPatch(source, index, event), Put(0), Take];
    assert s1.inflight == [item] && s2.inflight == [] && s2.queue == [item];
    assert steps[1..] == [Put(0), Take] && steps[1..][1..] == [Take] && steps[1..][1..][1..] == [];
    assert RunEnabled(c, s2, [Take]) && Run(c, s2, [Take]) == s3 && Entered(c, s2, [Take]) == [];
    assert RunEnabled(c, s1, [Put(0), Take]) && Run(c, s1, [Put(0), Take]) == s3;
    assert Entered(c, s1, [Put(0), Take]) == [item];
  }

  // ----- the generator object

  /** The items left once the stale ones at the head are skipped. */
  function SkipStale(cutoff: nat, queue: seq<Item>): seq<Item> {
    if queue != [] && Stale(cutoff, queue[0]) then SkipStale(cutoff, queue[1..]) else queue
  }

  /** Serving the first payload of `rest`, if there is one. */
  predicate Served(uri: string, rest: seq<Item>, d: Option<Delivery>, queue: seq<Item>) {
    if rest == [] then d == None && queue == [] else d == Some(Deliver(uri, rest[0])) && queue == rest[1..]
  }

  class Subscriber {
    const config: Config
    const replayed: seq<Event>  // the log at registration
    var next: nat
    var queue: seq<Item>

    ghost predicate Valid()
      reads this
    {
      next <= |replayed| && |queue| <= config.capacity && config.capacity > 0
    }

    constructor (config: Config, log: seq<Event>, start: nat)
      requires start <= |log| && config.capacity > 0
      ensures Valid() && this.config == config && replayed == log && next == start && queue == []
    {
      this.config, replayed, next, queue := config, log, start, [];
    }

    /** `_enqueue`, where a blocking put has waited for room. */
    method Put(item: Item)
      requires Valid() && (config.mode.Block? ==> |queue| < config.capacity)
      modifies this`queue
      ensures Valid() && queue == Enqueue(config, old(queue), item)
    {
      if config.mode.Block? {
        queue := queue + [item];
        return;
      }
      if config.mode.DropNewest? {
        if |queue| >= config.capacity {
          return;
        }
        queue := queue + [item];
        return;
      }
      if |queue| >= config.capacity && queue != [] {
        queue := queue[1..];
      }
      if |queue| < config.capacity {
        queue := queue + [item];
      }
    }

    /** The generator's next yield without waiting; None when it would wait on an empty queue. */
    method NextPayload() returns (d: Option<Delivery>)
      requires Valid()
      modifies this
      ensures Valid()
      ensures old(next) < |replayed| ==>
        d == Some(Deliver(config.uri, Own(old(next), replayed[old(next)]))) && next == old(next) + 1
          && queue == old(queue)
      ensures old(next) == |replayed| ==>
        next == old(next) && Served(config.uri, SkipStale(|replayed|, old(queue)), d, queue)
    {
      if next < |replayed| {
        d := Some(Deliver(config.uri, Own(next, replayed[next])));
        next := next + 1;
        return;
      }
      while queue != []
        invariant Valid() && next == old(next) && SkipStale(|replayed|, queue) == SkipStale(|replayed|, old(queue))
        decreases |queue|
      {
        var payload := queue[0];
        queue := queue[1..];
        if payload.index < |replayed| {
          continue;
        }
        return Some(Deliver(config.uri, payload));
      }
      return None;
    }
  }

  /** One yield from the queue is a run of the machine's Take steps. */
  lemma {:induction false} NextPayloadIsTakes(c: Config, s: State, d: Option<Delivery>, queue: seq<Item>)
      returns (steps: seq<Step>)
    requires s.sub.Open? && s.sub.next == s.sub.cutoff
    requires Served(c.uri, SkipStale(s.sub.cutoff, s.queue), d, queue)
    ensures RunEnabled(c, s, steps) && forall i :: 0 <= i < |steps| ==> steps[i].Take?
    ensures Run(c, s, steps) ==
      s.(queue := queue, delivered := s.delivered + if d.None? then [] else [d.value])
    decreases |s.queue|
  {
    if s.queue == [] {
      steps := [];
      assert s.delivered + [] == s.delivered;
    } else {
      var t := Next(c, s, Take);
      if Stale(s.sub.cutoff, s.queue[0]) {
        var more := NextPayloadIsTakes(c, t, d, queue);
        steps := [Take] + more;
        assert steps[1..] == more;
      } else {
        steps := [Take];
        assert steps[1..] == [];
      }
    }
  }
}
