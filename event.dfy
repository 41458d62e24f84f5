/**
 * The UI event queue of kernel/src/event.rs (a verbatim copy sits at
 * kernel/src/vga.rs:35-79): a 128-slot ring with `head` (next to pop) and
 * `tail` (next free slot). One slot always stays empty, so at most 127
 * events are queued; a push onto a full queue is dropped.
 */
module Event {
  import opened Wrappers

  const UI_QUEUE_SIZE: nat := 128

  datatype UiEvent = ScrollDown | ScrollUp | WriteStr(text: string)

  type Slots = s: seq<UiEvent> | |s| == UI_QUEUE_SIZE
    witness seq(128, _ => ScrollDown)

  datatype QueueState = QueueState(events: Slots, head: nat, tail: nat)
  {
    predicate Valid()
    {
      head < UI_QUEUE_SIZE && tail < UI_QUEUE_SIZE
    }

    /** Occupancy `(tail - head) mod 128`. */
    function Count(): (n: nat)
      requires Valid()
      ensures n < UI_QUEUE_SIZE
      ensures (head + n) % UI_QUEUE_SIZE == tail
    {
      (tail + UI_QUEUE_SIZE - head) % UI_QUEUE_SIZE
    }

    /** The queued events, oldest first. */
    function Contents(): (s: seq<UiEvent>)
      requires Valid()
      ensures |s| == Count()
    {
      seq(Count(), k requires 0 <= k < Count() => events[(head + k) % UI_QUEUE_SIZE])
    }

    /** `UiEventQueue::push`: dropped when `(tail + 1) % 128 == head`. */
    function Push(event: UiEvent): (r: QueueState)
      requires Valid()
      ensures r.Valid()
      ensures (tail + 1) % UI_QUEUE_SIZE == head ==> r == this
      ensures (tail + 1) % UI_QUEUE_SIZE != head ==>
                && r.head == head && r.tail == (tail + 1) % UI_QUEUE_SIZE
                && r.events == events[tail := event]
    {
      if (tail + 1) % UI_QUEUE_SIZE == head then this
      else QueueState(events[tail := event], head, (tail + 1) % UI_QUEUE_SIZE)
    }

    /** `UiEventQueue::pop`: `None` when `head == tail`. */
    function Pop(): (r: (Option<UiEvent>, QueueState))
      requires Valid()
      ensures r.1.Valid()
      ensures head == tail ==> r.0 == None && r.1 == this
      ensures head != tail ==>
                && r.0 == Some(events[head])
                && r.1 == this.(head := (head + 1) % UI_QUEUE_SIZE)
    {
      if head == tail then (None, this)
      else (Some(events[head]), this.(head := (head + 1) % UI_QUEUE_SIZE))
    }
  }

  /** Slot `(head + k) % 128` for `k` below the occupancy is never the free slot `tail`. */
  lemma QueuedSlotIsNotTail(q: QueueState, k: nat)
    requires q.Valid() && k < q.Count()
    ensures (q.head + k) % UI_QUEUE_SIZE != q.tail
  {
    if q.head <= q.tail {
      assert q.Count() == q.tail - q.head;
      assert (q.head + k) % UI_QUEUE_SIZE == q.head + k;
    } else {
      assert q.Count() == q.tail + UI_QUEUE_SIZE - q.head;
      if q.head + k < UI_QUEUE_SIZE {
        assert (q.head + k) % UI_QUEUE_SIZE == q.head + k;
      } else {
        assert (q.head + k) % UI_QUEUE_SIZE == q.head + k - UI_QUEUE_SIZE;
      }
    }
  }

  /** The full-queue test of `push` is "127 events queued"; the empty test of `pop` is "none". */
  lemma FullAndEmpty(q: QueueState)
    requires q.Valid()
    ensures (q.tail + 1) % UI_QUEUE_SIZE == q.head <==> q.Count() == UI_QUEUE_SIZE - 1
    ensures q.head == q.tail <==> q.Count() == 0
  {
    if q.tail + 1 < UI_QUEUE_SIZE {
      assert (q.tail + 1) % UI_QUEUE_SIZE == q.tail + 1;
    } else {
      assert (q.tail + 1) % UI_QUEUE_SIZE == 0;
    }
    if q.head <= q.tail {
      assert q.Count() == q.tail - q.head;
    } else {
      assert q.Count() == q.tail + UI_QUEUE_SIZE - q.head;
    }
  }

  /** A push onto a queue that is not full adds one to the occupancy. */
  lemma PushCount(q: QueueState, e: UiEvent)
    requires q.Valid() && q.Count() < UI_QUEUE_SIZE - 1
    ensures q.Push(e).Count() == q.Count() + 1
  {
    FullAndEmpty(q);
    var r := q.Push(e);
    var n := q.Count();
    if q.head <= q.tail {
      assert n == q.tail - q.head;
      if q.tail + 1 < UI_QUEUE_SIZE {
        assert r.tail == q.tail + 1;
      } else {
        assert r.tail == 0;
      }
    } else {
      assert n == q.tail + UI_QUEUE_SIZE - q.head;
      assert r.tail == q.tail + 1;
    }
  }

  /** A push appends the event, unless 127 are already queued, when it is dropped. */
  lemma PushContents(q: QueueState, e: UiEvent)
    requires q.Valid()
    ensures q.Push(e).Contents() ==
              if q.Count() == UI_QUEUE_SIZE - 1 then q.Contents() else q.Contents() + [e]
  {
    FullAndEmpty(q);
    if q.Count() < UI_QUEUE_SIZE - 1 {
      var r := q.Push(e);
      var n := q.Count();
      PushCount(q, e);
      forall k | 0 <= k < n
        ensures r.Contents()[k] == q.Contents()[k]
      {
        QueuedSlotIsNotTail(q, k);
      }
      assert r.Contents()[n] == e;
      assert r.Contents() == q.Contents() + [e];
    }
  }

  /** Counting from the slot after `h` is counting from `h` one further on. */
  lemma NextSlotShift(h: nat, k: nat)
    requires h < UI_QUEUE_SIZE && k < UI_QUEUE_SIZE
    ensures ((h + 1) % UI_QUEUE_SIZE + k) % UI_QUEUE_SIZE == (h + k + 1) % UI_QUEUE_SIZE
  {
    if h + 1 == UI_QUEUE_SIZE {
      assert (h + k + 1) % UI_QUEUE_SIZE == k;
    }
  }

  /** A pop from a non-empty queue takes one off the occupancy. */
  lemma PopCount(q: QueueState)
    requires q.Valid() && q.Count() > 0
    ensures q.Pop().1.Count() == q.Count() - 1
  {
    FullAndEmpty(q);
    var r := q.Pop().1;
    var n := q.Count();
    if q.head <= q.tail {
      assert n == q.tail - q.head;
      assert r.head == q.head + 1;
    } else {
      assert n == q.tail + UI_QUEUE_SIZE - q.head;
      if q.head + 1 < UI_QUEUE_SIZE {
        assert r.head == q.head + 1;
      } else {
        assert r.head == 0;
      }
    }
  }

  /** A pop on a non-empty queue returns the oldest event and removes it; on an empty one, nothing. */
  lemma PopContents(q: QueueState)
    requires q.Valid()
    ensures q.Contents() == [] ==> q.Pop().0 == None && q.Pop().1 == q
    ensures q.Contents() != [] ==>
              && q.Pop().0 == Some(q.Contents()[0])
              && q.Pop().1.Contents() == q.Contents()[1..]
  {
    FullAndEmpty(q);
    if q.Count() > 0 {
      var r := q.Pop().1;
      var n := q.Count();
      PopCount(q);
      assert q.Contents()[0] == q.events[q.head];
      forall k | 0 <= k < n - 1
        ensures r.Contents()[k] == q.Contents()[k + 1]
      {
        NextSlotShift(q.head, k);
      }
      assert r.Contents() == q.Contents()[1..];
    }
  }

  /** One call on the queue: what a producer or the consumer does. */
  datatype Op = PushOp(event: UiEvent) | PopOp

  /** The result of a run of calls: the events popped, the pushes that were kept, and the final queue. */
  datatype Run = Run(popped: seq<UiEvent>, accepted: seq<UiEvent>, final: QueueState)

  /** Applies `ops` in order to `q`. */
  function Execute(q: QueueState, ops: seq<Op>): (r: Run)
    requires q.Valid()
    ensures r.final.Valid()
    decreases |ops|
  {
    if ops == [] then Run([], [], q)
    else
      var r := Execute(q, ops[..|ops| - 1]);
      match ops[|ops| - 1]
      case PushOp(e) =>
        var f := r.final.Push(e);
        Run(r.popped, if f == r.final then r.accepted else r.accepted + [e], f)
      case PopOp =>
        var (o, f) := r.final.Pop();
        Run(if o.Some? then r.popped + [o.value] else r.popped, r.accepted, f)
  }

  /**
   * FIFO: over any sequence of calls, what was queued at the start, followed
   * by the pushes that were kept, is exactly what was popped followed by what
   * is still queued. Dropped pushes appear nowhere.
   */
  lemma {:induction false} Fifo(q: QueueState, ops: seq<Op>)
    requires q.Valid()
    ensures Execute(q, ops).popped + Execute(q, ops).final.Contents() == q.Contents() + Execute(q, ops).accepted
    decreases |ops|
  {
    if ops != [] {
      var prefix := ops[..|ops| - 1];
      Fifo(q, prefix);
      var r := Execute(q, prefix);
      match ops[|ops| - 1]
      case PushOp(e) => FifoPush(r.popped, r.accepted, r.final, e, q.Contents());
      case PopOp => FifoPop(r.popped, r.accepted, r.final, q.Contents());
    }
  }

  /** One push keeps the FIFO equation of `Fifo`. */
  lemma FifoPush(popped: seq<UiEvent>, accepted: seq<UiEvent>, q: QueueState, e: UiEvent, start: seq<UiEvent>)
    requires q.Valid() && popped + q.Contents() == start + accepted
    ensures var f := q.Push(e);
      popped + f.Contents() == start + (if f == q then accepted else accepted + [e])
  {
    PushContents(q, e);
    FullAndEmpty(q);
    var f := q.Push(e);
    if q.Count() != UI_QUEUE_SIZE - 1 {
      assert f != q by {
        assert f.Contents() == q.Contents() + [e];
      }
      assert popped + (q.Contents() + [e]) == (popped + q.Contents()) + [e];
    }
  }

  /** One pop keeps the FIFO equation of `Fifo`. */
  lemma FifoPop(popped: seq<UiEvent>, accepted: seq<UiEvent>, q: QueueState, start: seq<UiEvent>)
    requires q.Valid() && popped + q.Contents() == start + accepted
    ensures var (o, f) := q.Pop();
      (if o.Some? then popped + [o.value] else popped) + f.Contents() == start + accepted
  {
    PopContents(q);
    if q.Contents() != [] {
      var c := q.Contents();
      assert c == [c[0]] + c[1..];
      assert (popped + [c[0]]) + c[1..] == popped + c;
    }
  }

  /**
   * The queue itself: a fixed 128-slot buffer and two indices. In the source
   * the indices are atomics read and stored with interrupts disabled; here
   * they are plain fields.
   */
  class UiEventQueue {
    const events: array<UiEvent>
    var head: nat
    var tail: nat

    ghost predicate Valid()
      reads this
    {
      events.Length == UI_QUEUE_SIZE && head < UI_QUEUE_SIZE && tail < UI_QUEUE_SIZE
    }

    ghost function State(): (q: QueueState)
      requires Valid()
      reads this, events
      ensures q.Valid()
    {
      QueueState(events[..], head, tail)
    }

    /** `UI_EVT_QUEUE`'s initialiser: zeroed slots, `head == tail == 0`. */
    constructor ()
      ensures Valid() && fresh(events)
      ensures State() == QueueState(seq(UI_QUEUE_SIZE, _ => ScrollDown), 0, 0)
      ensures State().Contents() == []
    {
      events := new UiEvent[UI_QUEUE_SIZE](_ => ScrollDown);
      head := 0;
      tail := 0;
      new;
      assert events[..] == seq(UI_QUEUE_SIZE, _ => ScrollDown);
    }

    /** `push`. */
    method Push(event: UiEvent)
      requires Valid()
      modifies this, events
      ensures Valid() && State() == old(State()).Push(event)
      ensures State().Contents() ==
                if old(State().Count()) == UI_QUEUE_SIZE - 1 then old(State().Contents())
                else old(State().Contents()) + [event]
    {
      PushContents(State(), event);
      var h := head;
      var t := tail;
      if (t + 1) % UI_QUEUE_SIZE == h {
        return;
      }
      events[t] := event;
      tail := (t + 1) % UI_QUEUE_SIZE;
    }

    /** `pop`. */
    method Pop() returns (r: Option<UiEvent>)
      requires Valid()
      modifies this
      ensures Valid() && (r, State()) == old(State()).Pop()
      ensures old(State().Contents()) == [] ==> r == None && State() == old(State())
      ensures old(State().Contents()) != [] ==>
                r == Some(old(State().Contents())[0]) && State().Contents() == old(State().Contents())[1..]
    {
      PopContents(State());
      var h := head;
      var t := tail;
      if h == t {
        return None;
      }
      var event := events[h];
      head := (h + 1) % UI_QUEUE_SIZE;
      r := Some(event);
    }
  }
}
