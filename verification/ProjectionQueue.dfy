/**
 The bounded projection queue (`publish` and `drain`, qso_xr/stream_projection.py)
 under its three answers to a full queue.
 */
module ProjectionQueue {
  datatype Backpressure = Block | DropOldest | DropNewest

  /** What became of a published payload. */
  datatype Publication = Queued | Refused | Raised

  function Clamped(maxSize: int): nat {
    if maxSize < 1 then 1 else maxSize
  }

  /** The least size that is at least one and at least what was asked for. */
  lemma ClampedIsLeast(maxSize: int, n: int)
    ensures Clamped(maxSize) >= 1 && Clamped(maxSize) >= maxSize
    ensures n >= 1 && n >= maxSize ==> n >= Clamped(maxSize)
  {
  }

  class Queue<T> {
    const maxSize: nat
    const backpressure: Backpressure
    var queue: seq<T>

    constructor (maxSize: int, backpressure: Backpressure)
      ensures this.maxSize == Clamped(maxSize) && this.backpressure == backpressure && queue == []
    {
      this.maxSize, this.backpressure, queue := Clamped(maxSize), backpressure, [];
    }

    method Publish(payload: T) returns (p: Publication)
      requires maxSize > 0
      modifies this
      ensures queue == Published(maxSize, backpressure, old(queue), payload).0
      ensures p == Published(maxSize, backpressure, old(queue), payload).1
    {
      if |queue| >= maxSize {
        match backpressure {
          case DropOldest => queue := queue[1..];
          case DropNewest => return Refused;
          case Block => return Raised;
        }
      }
      queue := queue + [payload];
      return Queued;
    }

    /** A negative limit takes nothing; no limit takes everything. */
    method Drain(limit: int, unlimited: bool) returns (out: seq<T>)
      modifies this
      ensures out + queue == old(queue)
      ensures |out| == Take(old(queue), limit, unlimited)
    {
      var bound := if unlimited then |queue| else limit;
      var least := if bound < |queue| then bound else |queue|;
      var take := if least < 0 then 0 else least;
      out := queue[..take];
      queue := queue[take..];
    }
  }

  function Take<T>(queue: seq<T>, limit: int, unlimited: bool): (n: nat)
    ensures n <= |queue|
  {
    if unlimited || limit >= |queue| then |queue| else if limit < 0 then 0 else limit
  }

  function Published<T>(maxSize: nat, backpressure: Backpressure, queue: seq<T>, payload: T): (seq<T>, Publication)
    requires maxSize > 0
  {
    if |queue| < maxSize then (queue + [payload], Queued)
    else match backpressure
      case Block => (queue, Raised)
      case DropNewest => (queue, Refused)
      case DropOldest => (queue[1..] + [payload], Queued)
  }

  // ----- runs

  datatype Call<T> = Publish(payload: T) | Drain(limit: int, unlimited: bool)

  /** The queue, everything drained so far, and everything `publish` answered True to. */
  datatype History<T> = History(queue: seq<T>, drained: seq<T>, taken: seq<T>)

  function Then<T>(maxSize: nat, backpressure: Backpressure, h: History<T>, call: Call<T>): History<T>
    requires maxSize > 0
  {
    match call
    case Publish(payload) =>
      var (queue, p) := Published(maxSize, backpressure, h.queue, payload);
      History(queue, h.drained, if p.Queued? then h.taken + [payload] else h.taken)
    case Drain(limit, unlimited) =>
      var n := Take(h.queue, limit, unlimited);
      History(h.queue[n..], h.drained + h.queue[..n], h.taken)
  }

  function After<T>(maxSize: nat, backpressure: Backpressure, calls: seq<Call<T>>): History<T>
    requires maxSize > 0
    decreases calls
  {
    if calls == [] then History([], [], [])
    else Then(maxSize, backpressure, After(maxSize, backpressure, calls[..|calls| - 1]), calls[|calls| - 1])
  }

  /** Everything drained was taken, each payload once and in order: `at` lists where in `taken` it came from. */
  ghost predicate DrawnFrom<T>(drained: seq<T>, taken: seq<T>, at: seq<nat>) {
    && |at| == |drained|
    && (forall i :: 0 <= i < |at| ==> at[i] < |taken| && drained[i] == taken[at[i]])
    && forall i, j :: 0 <= i < j < |at| ==> at[i] < at[j]
  }

  ghost predicate InOrderFrom<T>(drained: seq<T>, taken: seq<T>) {
    exists at :: DrawnFrom(drained, taken, at)
  }

  /** The bound holds, the queue is the newest end of what was taken, and what was drained came before it. */
  ghost predicate Sound<T>(maxSize: nat, h: History<T>) {
    && |h.queue| <= maxSize && |h.queue| <= |h.taken|
    && h.queue == h.taken[|h.taken| - |h.queue|..]
    && InOrderFrom(h.drained, h.taken[..|h.taken| - |h.queue|])
  }

  lemma DrainSound<T>(maxSize: nat, h: History<T>, n: nat)
    requires Sound(maxSize, h) && n <= |h.queue|
    ensures Sound(maxSize, History(h.queue[n..], h.drained + h.queue[..n], h.taken))
  {
    var k := |h.taken| - |h.queue|;
    var at :| DrawnFrom(h.drained, h.taken[..k], at);
    var more := at + seq(n, i => k + i);
    assert forall i :: 0 <= i < n ==> h.queue[i] == h.taken[k + i];
    assert DrawnFrom(h.drained + h.queue[..n], h.taken[..k + n], more);
  }

  lemma PublishSound<T>(maxSize: nat, h: History<T>, payload: T)
    requires maxSize > 0 && Sound(maxSize, h)
    ensures |h.queue| < maxSize ==> Sound(maxSize, History(h.queue + [payload], h.drained, h.taken + [payload]))
    ensures |h.queue| == maxSize ==> Sound(maxSize, History(h.queue[1..] + [payload], h.drained, h.taken + [payload]))
  {
    var k := |h.taken| - |h.queue|;
    var at :| DrawnFrom(h.drained, h.taken[..k], at);
    var taken := h.taken + [payload];
    assert taken[..k] == h.taken[..k];
    if |h.queue| == maxSize {
      assert DrawnFrom(h.drained, taken[..k + 1], at);
    }
  }

  /** In every run, under every backpressure. */
  lemma {:induction false} RunsSound<T>(maxSize: nat, backpressure: Backpressure, calls: seq<Call<T>>)
    requires maxSize > 0
    ensures Sound(maxSize, After(maxSize, backpressure, calls))
    decreases |calls|
  {
    if calls == [] {
      var h := After(maxSize, backpressure, calls);
      assert DrawnFrom(h.drained, h.taken[..0], []);
    } else {
      var h := After(maxSize, backpressure, calls[..|calls| - 1]);
      RunsSound(maxSize, backpressure, calls[..|calls| - 1]);
      match calls[|calls| - 1]
      case Publish(payload) => PublishSound(maxSize, h, payload);
      case Drain(limit, unlimited) => DrainSound(maxSize, h, Take(h.queue, limit, unlimited));
    }
  }

  /** A payload is given up exactly when it is published onto a full queue that drops its oldest. */
  ghost predicate Overflows<T>(maxSize: nat, backpressure: Backpressure, calls: seq<Call<T>>)
    requires maxSize > 0
  {
    exists i :: 0 <= i < |calls| && OverflowAt(maxSize, backpressure, calls, i)
  }

  ghost predicate OverflowAt<T>(maxSize: nat, backpressure: Backpressure, calls: seq<Call<T>>, i: nat)
    requires maxSize > 0 && i < |calls|
  {
    backpressure.DropOldest? && calls[i].Publish? && |After(maxSize, backpressure, calls[..i]).queue| == maxSize
  }

  lemma OverflowsSnoc<T>(maxSize: nat, backpressure: Backpressure, calls: seq<Call<T>>)
    requires maxSize > 0 && calls != []
    ensures var n := |calls| - 1;
      Overflows(maxSize, backpressure, calls) <==>
        Overflows(maxSize, backpressure, calls[..n]) || OverflowAt(maxSize, backpressure, calls, n)
  {
    var n := |calls| - 1;
    forall i | 0 <= i < n
      ensures OverflowAt(maxSize, backpressure, calls[..n], i) <==> OverflowAt(maxSize, backpressure, calls, i)
    {
      assert calls[..n][..i] == calls[..i];
    }
  }

  ghost predicate AllKept<T>(h: History<T>) {
    h.drained + h.queue == h.taken
  }

  /** No more comes out than went in; as much, only if it is all there. */
  ghost predicate Balanced<T>(h: History<T>) {
    && |h.drained| + |h.queue| <= |h.taken|
    && (|h.drained| + |h.queue| == |h.taken| ==> AllKept(h))
  }

  lemma PublishBalance<T>(maxSize: nat, backpressure: Backpressure, h: History<T>, payload: T)
    requires maxSize > 0 && |h.queue| <= maxSize && Balanced(h)
    ensures var next := Then(maxSize, backpressure, h, Publish(payload));
      Balanced(next) && (AllKept(next) <==> AllKept(h) && !(backpressure.DropOldest? && |h.queue| == maxSize))
  {
    var next := Then(maxSize, backpressure, h, Publish(payload));
    if |h.queue| < maxSize {
      assert h.drained + (h.queue + [payload]) == (h.drained + h.queue) + [payload];
      if AllKept(next) { assert |h.drained| + |h.queue| == |h.taken|; }
    } else if backpressure.DropOldest? {
      assert |next.drained| + |next.queue| < |next.taken|;
    }
  }

  /** All that was taken comes out, in order, exactly in the runs without such a publish. */
  lemma {:induction false} NothingLostIff<T>(maxSize: nat, backpressure: Backpressure, calls: seq<Call<T>>)
    requires maxSize > 0
    ensures Balanced(After(maxSize, backpressure, calls))
    ensures AllKept(After(maxSize, backpressure, calls)) <==> !Overflows(maxSize, backpressure, calls)
    decreases |calls|
  {
    if calls != [] {
      var n := |calls| - 1;
      var before := After(maxSize, backpressure, calls[..n]);
      NothingLostIff(maxSize, backpressure, calls[..n]);
      RunsSound(maxSize, backpressure, calls[..n]);
      OverflowsSnoc(maxSize, backpressure, calls);
      match calls[n]
      case Publish(payload) => PublishBalance(maxSize, backpressure, before, payload);
      case Drain(limit, unlimited) =>
    }
  }

  /**
   What a publish does to a run: it is queued last, unless the queue is full and does not drop its oldest; then nothing
   changes, and `publish` raises or answers False.
   */
  lemma PublishEffect<T>(maxSize: nat, backpressure: Backpressure, calls: seq<Call<T>>, payload: T)
    requires maxSize > 0
    ensures var h, next := After(maxSize, backpressure, calls),
                           After(maxSize, backpressure, calls + [Publish(payload)]);
      var full, answer := |h.queue| == maxSize, Published(maxSize, backpressure, h.queue, payload).1;
      && (full && backpressure.Block? ==> next == h && answer == Raised)
      && (full && backpressure.DropNewest? ==> next == h && answer == Refused)
      && (!full || backpressure.DropOldest? ==>
           && answer == Queued && next.drained == h.drained && next.taken == h.taken + [payload]
           && next.queue == (if full then h.queue[1..] else h.queue) + [payload])
  {
    RunsSound(maxSize, backpressure, calls);
    assert (calls + [Publish(payload)])[..|calls|] == calls;
  }

  /** What a drain does to a run: the oldest come out, all without a limit, none for a negative one, else that many. */
  lemma DrainEffect<T>(maxSize: nat, backpressure: Backpressure, calls: seq<Call<T>>, limit: int, unlimited: bool)
    requires maxSize > 0
    ensures var h, next := After(maxSize, backpressure, calls),
                           After(maxSize, backpressure, calls + [Drain(limit, unlimited)]);
      var n := |h.queue| - |next.queue|;
      && next.taken == h.taken && 0 <= n && next.queue == h.queue[n..] && next.drained == h.drained + h.queue[..n]
      && (unlimited ==> next.queue == [])
      && (!unlimited ==> n <= (if limit < 0 then 0 else limit) && (n < limit ==> next.queue == []))
  {
    assert (calls + [Drain(limit, unlimited)])[..|calls|] == calls;
  }
}
