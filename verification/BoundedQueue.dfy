/**
 The specification the bounded buffer programs refine: an atomic FIFO queue
 of limited capacity. It knows nothing of threads, semaphores or indices.
 */
module BoundedQueue {

  datatype Queue = Queue(capacity: nat, items: seq<int>)

  datatype Event = Enqueue(value: int) | Dequeue(value: int) | Stutter

  /** An enqueue needs room; a dequeue can only deliver the oldest value. */
  predicate Legal(q: Queue, ev: Event)
  {
    match ev
    case Enqueue(v) => |q.items| < q.capacity
    case Dequeue(v) => q.items != [] && q.items[0] == v
    case Stutter => true
  }

  function Apply(q: Queue, ev: Event): Queue
    requires Legal(q, ev)
  {
    match ev
    case Enqueue(v) => q.(items := q.items + [v])
    case Dequeue(v) => q.(items := q.items[1..])
    case Stutter => q
  }

  /** `evs` is a run of the queue from `q` to `q'`. */
  ghost predicate QueueRun(q: Queue, evs: seq<Event>, q': Queue)
    decreases |evs|
  {
    if evs == [] then q' == q
    else Legal(q, evs[0]) && QueueRun(Apply(q, evs[0]), evs[1..], q')
  }

  function Enqueued(evs: seq<Event>): seq<int>
  {
    if evs == [] then []
    else (if evs[0].Enqueue? then [evs[0].value] else []) + Enqueued(evs[1..])
  }

  function Dequeued(evs: seq<Event>): seq<int>
  {
    if evs == [] then []
    else (if evs[0].Dequeue? then [evs[0].value] else []) + Dequeued(evs[1..])
  }

  lemma {:induction false} QueueRunSnoc(q: Queue, evs: seq<Event>, mid: Queue, ev: Event)
    requires QueueRun(q, evs, mid) && Legal(mid, ev)
    ensures QueueRun(q, evs + [ev], Apply(mid, ev))
    decreases |evs|
  {
    if evs == [] {
      assert QueueRun(Apply(q, ev), [], Apply(mid, ev));
      assert (evs + [ev])[1..] == [];
    } else {
      assert (evs + [ev])[1..] == evs[1..] + [ev];
      QueueRunSnoc(Apply(q, evs[0]), evs[1..], mid, ev);
    }
  }

  /** What makes it a queue: values leave in the order in which they entered, none lost. */
  lemma {:induction false} QueueIsFifo(q: Queue, evs: seq<Event>, q': Queue)
    requires QueueRun(q, evs, q') && |q.items| <= q.capacity
    ensures q.items + Enqueued(evs) == Dequeued(evs) + q'.items
    ensures |q'.items| <= q'.capacity == q.capacity
    decreases |evs|
  {
    if evs != [] {
      var mid := Apply(q, evs[0]);
      QueueIsFifo(mid, evs[1..], q');
      match evs[0] {
        case Enqueue(v) =>
          assert q.items + Enqueued(evs) == mid.items + Enqueued(evs[1..]);
        case Dequeue(v) =>
          assert q.items == [v] + mid.items;
          assert q.items + Enqueued(evs) == [v] + (mid.items + Enqueued(evs[1..]));
        case Stutter =>
          assert Enqueued(evs) == Enqueued(evs[1..]) && Dequeued(evs) == Dequeued(evs[1..]);
      }
    }
  }
}
