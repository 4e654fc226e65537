/**
 What the bounded buffer programs are for, over all interleavings, any numbers of
 threads and operations, any buffer size of at least one, and one or two locks.
 */
module BufferTheorems {
  import opened Sums
  import opened Sequences
  import opened Modular
  import opened IntBytes
  import opened BoundedQueue
  import opened BoundedBuffer
  import opened BufferInvariant
  import opened BufferSteps
  import opened BufferTraces

  // ---------------------------------------------------------------- critical sections

  /**
   Producers exclude each other, consumers exclude each other, and in the program with one
   lock they exclude each other as well.
   */
  lemma CriticalSections(cfg: Config, acts: seq<Action>)
    requires cfg.Valid()
    ensures var s := Run(Init(cfg), acts);
            && (forall i, i' :: 0 <= i < i' < |s.producers| ==>
                  InWrite(s.producers[i]) == 0 || InWrite(s.producers[i']) == 0)
            && (forall j, j' :: 0 <= j < j' < |s.consumers| ==>
                  InRead(s.consumers[j]) == 0 || InRead(s.consumers[j']) == 0)
            && (cfg.oneLock ==>
                  forall i, j :: 0 <= i < |s.producers| && 0 <= j < |s.consumers| ==>
                    InWrite(s.producers[i]) == 0 || InRead(s.consumers[j]) == 0)
  {
    RunKeepsInvariant(cfg, acts);
    var s := Run(Init(cfg), acts);
    hide Run;
    Exclusion(s);
    forall i, j | cfg.oneLock && 0 <= i < |s.producers| && 0 <= j < |s.consumers|
      ensures InWrite(s.producers[i]) == 0 || InRead(s.consumers[j]) == 0
    {
      TotalTerm(InWrite, s.producers, i);
      TotalTerm(InRead, s.consumers, j);
    }
  }

  // ---------------------------------------------------------------- slot race freedom

  /**
   A producer about to store and a consumer about to load address different slots, the
   loaded slot holds the oldest unread value, and the stored slot holds none.
   */
  lemma SlotRaceFreedom(cfg: Config, acts: seq<Action>, i: nat, j: nat)
    requires cfg.Valid()
    ensures var s := Run(Init(cfg), acts);
            && (i < |s.producers| && s.producers[i].pc.PStore? ==>
                  && s.producers[i].index < |s.transactions|
                  && forall k :: |s.consumed| <= k < |s.written| ==>
                       k % cfg.size != s.producers[i].index)
            && (j < |s.consumers| && s.consumers[j].pc.CLoadItem? ==>
                  && |s.consumed| < |s.written|
                  && s.consumers[j].index < |s.transactions|
                  && s.transactions[s.consumers[j].index] == s.written[|s.consumed|])
            && (i < |s.producers| && s.producers[i].pc.PStore? &&
                j < |s.consumers| && s.consumers[j].pc.CLoadItem? ==>
                  s.producers[i].index != s.consumers[j].index)
  {
    RunKeepsInvariant(cfg, acts);
    var s := Run(Init(cfg), acts);
    if i < |s.producers| && s.producers[i].pc.PStore? {
      assert ProducerLocals(s, s.producers[i]);
      RoomToWrite(cfg, s, i);
      forall k | |s.consumed| <= k < |s.written| ensures k % cfg.size != s.producers[i].index {
        DistinctSlots(k, |s.written|, cfg.size);
      }
    }
    if j < |s.consumers| && s.consumers[j].pc.CLoadItem? {
      assert ConsumerLocals(s, s.consumers[j]);
      SomethingToRead(cfg, s, j);
      assert s.consumers[j].index == |s.consumed| % cfg.size;
    }
  }

  // ---------------------------------------------------------------- refinement

  /** The queue the circular array stands for, read off the array from `read_index` on. */
  function Contents(s: State): seq<int>
    requires |s.transactions| > 0 && |s.consumed| <= |s.written|
  {
    seq(|s.written| - |s.consumed|,
        k requires 0 <= k => s.transactions[(s.readIndex + k) % |s.transactions|])
  }

  /** What the queue sees of a step: the moves of the two indices. */
  function EventOf(s: State, a: Action): Event
  {
    if !Enabled(s, a) then Stutter
    else match a
      case Produce(i, _) =>
        if s.producers[i].pc.PAdvance? then Enqueue(s.producers[i].current) else Stutter
      case Consume(j) =>
        if s.consumers[j].pc.CAdvance? then Dequeue(s.consumers[j].item) else Stutter
  }

  function Events(s: State, acts: seq<Action>): seq<Event>
    requires |s.transactions| > 0
  {
    if acts == [] then []
    else
      var front := acts[..|acts| - 1];
      Events(s, front) + [EventOf(Run(s, front), acts[|acts| - 1])]
  }

  lemma ContentsAreUnread(cfg: Config, s: State)
    requires Slots(cfg, s)
    ensures Contents(s) == s.written[|s.consumed|..]
  {
    var c := Contents(s);
    forall k | 0 <= k < |c| ensures c[k] == s.written[|s.consumed| + k] {
      SlotAfter(|s.consumed|, k, cfg.size);
    }
  }

  lemma HistoryGrows(s: State, a: Action)
    requires |s.transactions| > 0
    ensures var s', ev := Next(s, a), EventOf(s, a);
            && s'.written == s.written + (if ev.Enqueue? then [ev.value] else [])
            && s'.consumed == s.consumed + (if ev.Dequeue? then [ev.value] else [])
  {
  }

  /** There is room for what is entered, and what is taken is the oldest unread value. */
  lemma EventIsPossible(cfg: Config, s: State, a: Action)
    requires Invariant(cfg, s)
    ensures EventOf(s, a).Enqueue? ==> Unread(s) < cfg.size
    ensures EventOf(s, a).Dequeue? ==> Unread(s) > 0 && EventOf(s, a).value == s.written[|s.consumed|]
  {
    hide Total, Locks, Budget, Ops, Balance;
    if EventOf(s, a).Enqueue? {
      RoomToWrite(cfg, s, a.thread);
    } else if EventOf(s, a).Dequeue? {
      assert ConsumerLocals(s, s.consumers[a.thread]);
    }
  }

  /** The unread values as a queue: those of the written ones that come after the first `c`. */
  lemma UnreadStep(size: nat, w: seq<int>, c: nat, ev: Event)
    requires c <= |w| && (ev.Enqueue? ==> |w| - c < size) && (ev.Dequeue? ==> c < |w| && ev.value == w[c])
    ensures var q := Queue(size, w[c..]);
            var w' := w + (if ev.Enqueue? then [ev.value] else []);
            var c' := c + (if ev.Dequeue? then 1 else 0);
            Legal(q, ev) && Apply(q, ev) == Queue(size, w'[c'..])
  {
    if ev.Dequeue? {
      assert w[c..][1..] == (w + [])[c + 1..];
    } else if ev.Enqueue? {
      assert w[c..] + [ev.value] == (w + [ev.value])[c..];
    } else {
      assert w[c..] == (w + [])[c..];
    }
  }

  /** One step of one thread is one step of the atomic queue, or invisible to it. */
  lemma StepRefinesQueue(cfg: Config, s: State, a: Action)
    requires Invariant(cfg, s)
    ensures Invariant(cfg, Next(s, a))
    ensures var q, q' := Queue(cfg.size, Contents(s)), Queue(cfg.size, Contents(Next(s, a)));
            Legal(q, EventOf(s, a)) && Apply(q, EventOf(s, a)) == q'
  {
    StepKeepsInvariant(cfg, s, a);
    HistoryGrows(s, a);
    EventIsPossible(cfg, s, a);
    hide Next, EventOf, Contents, Tokens, Locks, Budget, Ops, Locals, Balance, Legal, Apply;
    ContentsAreUnread(cfg, s);
    ContentsAreUnread(cfg, Next(s, a));
    UnreadStep(cfg.size, s.written, |s.consumed|, EventOf(s, a));
  }

  lemma {:induction false} EventsAreHistory(s: State, acts: seq<Action>)
    requires |s.transactions| > 0 && s.written == [] && s.consumed == []
    ensures Enqueued(Events(s, acts)) == Run(s, acts).written
    ensures Dequeued(Events(s, acts)) == Run(s, acts).consumed
    decreases |acts|
  {
    if acts != [] {
      var front, a := acts[..|acts| - 1], acts[|acts| - 1];
      EventsAreHistory(s, front);
      HistoryGrows(Run(s, front), a);
      hide Next, EventOf;
      EnqueuedSnoc(Events(s, front), EventOf(Run(s, front), a));
    }
  }

  lemma {:induction false} EnqueuedSnoc(evs: seq<Event>, ev: Event)
    ensures Enqueued(evs + [ev]) == Enqueued(evs) + (if ev.Enqueue? then [ev.value] else [])
    ensures Dequeued(evs + [ev]) == Dequeued(evs) + (if ev.Dequeue? then [ev.value] else [])
  {
    if evs == [] {
      assert (evs + [ev])[1..] == [];
    } else {
      assert (evs + [ev])[1..] == evs[1..] + [ev];
      EnqueuedSnoc(evs[1..], ev);
      Regroup(if evs[0].Enqueue? then [evs[0].value] else [], Enqueued(evs[1..]),
              if ev.Enqueue? then [ev.value] else []);
      Regroup(if evs[0].Dequeue? then [evs[0].value] else [], Dequeued(evs[1..]),
              if ev.Dequeue? then [ev.value] else []);
    }
  }

  lemma {:induction false} RunRefinesQueue(cfg: Config, acts: seq<Action>)
    requires cfg.Valid()
    ensures var s := Run(Init(cfg), acts);
            && |s.consumed| <= |s.written|
            && QueueRun(Queue(cfg.size, []), Events(Init(cfg), acts), Queue(cfg.size, Contents(s)))
    decreases |acts|
  {
    RunKeepsInvariant(cfg, acts);
    if acts == [] {
      assert Contents(Init(cfg)) == [];
    } else {
      var front, a := acts[..|acts| - 1], acts[|acts| - 1];
      var mid := Run(Init(cfg), front);
      RunKeepsInvariant(cfg, front);
      RunRefinesQueue(cfg, front);
      StepRefinesQueue(cfg, mid, a);
      QueueRunSnoc(Queue(cfg.size, []), Events(Init(cfg), front), Queue(cfg.size, Contents(mid)), EventOf(mid, a));
    }
  }

  /**
   Every interleaving is a run of the atomic FIFO queue; the values consumed are a prefix
   of the values written, and at most `size` values are unread.
   */
  lemma {:induction false} RefinesAtomicQueue(cfg: Config, acts: seq<Action>)
    requires cfg.Valid()
    ensures var s, evs := Run(Init(cfg), acts), Events(Init(cfg), acts);
            && |s.consumed| <= |s.written|
            && QueueRun(Queue(cfg.size, []), evs, Queue(cfg.size, Contents(s)))
            && Enqueued(evs) == s.written && Dequeued(evs) == s.consumed
            && s.consumed <= s.written
            && s.written == s.consumed + Contents(s)
            && |Contents(s)| <= cfg.size
  {
    hide Run;
    RunRefinesQueue(cfg, acts);
    EventsAreHistory(Init(cfg), acts);
    QueueIsFifo(Queue(cfg.size, []), Events(Init(cfg), acts),
                Queue(cfg.size, Contents(Run(Init(cfg), acts))));
    var s := Run(Init(cfg), acts);
    assert s.written == s.consumed + Contents(s);
    assert s.written[..|s.consumed|] == s.consumed;
  }

  // ---------------------------------------------------------------- termination

  function ProducerWork(p: Producer): int
  {
    if p.pc.PDone? then 0 else p.numOps * 12 + 12 - At(p.pc)
  }

  function ConsumerWork(c: Consumer): int
  {
    if c.pc.CDone? then 0 else c.numOps * 13 + 13 - CAt(c.pc)
  }

  /** An upper bound on the steps still to be taken. */
  function Work(s: State): int
  {
    Total(ProducerWork, s.producers) + Total(ConsumerWork, s.consumers)
  }

  lemma WorkIsNatural(s: State)
    ensures Work(s) >= 0
  {
    TotalNonNegative(ProducerWork, s.producers);
    TotalNonNegative(ConsumerWork, s.consumers);
  }

  lemma ProducerStepWorks(s: State, i: nat, amount: int)
    requires Enabled(s, Produce(i, amount)) && |s.transactions| > 0
    requires ProducerOps(s.producers[i])
    ensures ProducerWork(StepProducer(s, i, amount).producers[i]) < ProducerWork(s.producers[i])
  {
  }

  lemma ConsumerStepWorks(s: State, j: nat)
    requires Enabled(s, Consume(j)) && |s.transactions| > 0
    requires ConsumerOps(s.consumers[j])
    ensures ConsumerWork(StepConsumer(s, j).consumers[j]) < ConsumerWork(s.consumers[j])
  {
  }

  /** The measure drops on every step, whoever takes it. */
  lemma EveryStepWorks(s: State, a: Action)
    requires Ops(s) && |s.transactions| > 0 && Enabled(s, a)
    ensures Work(Next(s, a)) < Work(s)
  {
    match a {
      case Produce(i, amount) =>
        OtherProducerStepsKeepSlots(s, i, amount);
        assert ProducerOps(s.producers[i]);
        ProducerStepWorks(s, i, amount);
        TotalUpdate(ProducerWork, s.producers, i, StepProducer(s, i, amount).producers[i]);
      case Consume(j) =>
        ConsumerFrame(s, j);
        assert ConsumerOps(s.consumers[j]);
        ConsumerStepWorks(s, j);
        TotalUpdate(ConsumerWork, s.consumers, j, StepConsumer(s, j).consumers[j]);
    }
  }

  /** How many of the scheduled steps were really taken. */
  function Moves(s: State, acts: seq<Action>): nat
    requires |s.transactions| > 0
  {
    if acts == [] then 0
    else
      var front := acts[..|acts| - 1];
      Moves(s, front) + (if Enabled(Run(s, front), acts[|acts| - 1]) then 1 else 0)
  }

  /** Termination: no schedule, however long, makes the threads move more often than this. */
  lemma {:induction false} BoundedMoves(cfg: Config, acts: seq<Action>)
    requires cfg.Valid()
    ensures Moves(Init(cfg), acts) + Work(Run(Init(cfg), acts)) <= Work(Init(cfg))
    ensures Moves(Init(cfg), acts) <= Work(Init(cfg))
    decreases |acts|
  {
    WorkIsNatural(Run(Init(cfg), acts));
    if acts != [] {
      var front := acts[..|acts| - 1];
      BoundedMoves(cfg, front);
      RunKeepsInvariant(cfg, front);
      if Enabled(Run(Init(cfg), front), acts[|acts| - 1]) {
        EveryStepWorks(Run(Init(cfg), front), acts[|acts| - 1]);
      }
    }
  }

  // ---------------------------------------------------------------- deadlock

  ghost predicate Stuck(s: State)
  {
    forall a :: !Enabled(s, a)
  }

  predicate AllDone(s: State)
  {
    && (forall i :: 0 <= i < |s.producers| ==> s.producers[i].pc.PDone?)
    && (forall j :: 0 <= j < |s.consumers| ==> s.consumers[j].pc.CDone?)
  }

  lemma RunSnoc(s: State, acts: seq<Action>, a: Action)
    requires |s.transactions| > 0
    ensures Run(s, acts + [a]) == Next(Run(s, acts), a)
  {
    hide Next;
    assert (acts + [a])[..|acts|] == acts;
  }

  /** Every maximal run ends: any run extends to one in which nobody can move. */
  lemma {:induction false} RunsToRest(cfg: Config, acts: seq<Action>) returns (more: seq<Action>)
    requires cfg.Valid()
    ensures Stuck(Run(Init(cfg), acts + more))
    decreases Work(Run(Init(cfg), acts))
  {
    hide Run, Next, Work;
    RunKeepsInvariant(cfg, acts);
    var s := Run(Init(cfg), acts);
    if Stuck(s) {
      more := [];
      assert acts + more == acts;
    } else {
      var a :| Enabled(s, a);
      RunSnoc(Init(cfg), acts, a);
      EveryStepWorks(s, a);
      WorkIsNatural(Next(s, a));
      var rest := RunsToRest(cfg, acts + [a]);
      more := [a] + rest;
      assert acts + more == acts + [a] + rest;
    }
  }

  /** A thread inside a critical section can always move. */
  lemma GuardsAreOpen(cfg: Config, s: State)
    requires Invariant(cfg, s) && Stuck(s)
    ensures Total(InWrite, s.producers) == 0 && Total(InRead, s.consumers) == 0
    ensures s.writeLock == 1 && ReadGuard(s) == 1
  {
    TotalNonNegative(InWrite, s.producers);
    TotalNonNegative(InRead, s.consumers);
    if Total(InWrite, s.producers) > 0 {
      var i := TotalWitness(InWrite, s.producers);
      assert Enabled(s, Produce(i, 0));
    }
    if Total(InRead, s.consumers) > 0 {
      var j := TotalWitness(InRead, s.consumers);
      assert Enabled(s, Consume(j));
    }
  }

  /** At rest, a producer has exited or waits for room, a consumer has exited or waits for an item. */
  lemma StuckThreads(cfg: Config, s: State)
    requires Invariant(cfg, s) && Stuck(s)
    ensures forall i :: 0 <= i < |s.producers| ==>
              s.producers[i].pc.PDone? || (s.producers[i].pc.PWaitEmpty? && s.empty == 0)
    ensures forall j :: 0 <= j < |s.consumers| ==>
              s.consumers[j].pc.CDone? || (s.consumers[j].pc.CWaitFull? && s.full == 0)
    ensures s.empty + Unread(s) == cfg.size && s.full == Unread(s)
  {
    GuardsAreOpen(cfg, s);
    forall i | 0 <= i < |s.producers|
      ensures s.producers[i].pc.PDone? || (s.producers[i].pc.PWaitEmpty? && s.empty == 0)
    {
      assert !Enabled(s, Produce(i, 0));
    }
    forall j | 0 <= j < |s.consumers|
      ensures s.consumers[j].pc.CDone? || (s.consumers[j].pc.CWaitFull? && s.full == 0)
    {
      assert !Enabled(s, Consume(j));
    }
    TotalConstant(TookEmpty, s.producers, 0);
    TotalConstant(OwesFull, s.producers, 0);
    TotalConstant(TookFull, s.consumers, 0);
    TotalConstant(OwesEmpty, s.consumers, 0);
  }

  /** Producers that have all exited have written everything; likewise for consumers. */
  lemma DoneMeansWritten(cfg: Config, s: State)
    requires Budget(cfg, s) && Ops(s) && Balance(cfg, s)
    ensures (forall i :: 0 <= i < |s.producers| ==> s.producers[i].pc.PDone?) ==>
              |s.written| == |s.made| == Sum(cfg.producerOps) && Sum(s.made) == Sum(s.written)
    ensures (forall j :: 0 <= j < |s.consumers| ==> s.consumers[j].pc.CDone?) ==>
              |s.consumed| == Sum(cfg.consumerOps) && s.deposit == cfg.initial + Sum(s.consumed)
  {
    hide Total, Sum;
    if forall i :: 0 <= i < |s.producers| ==> s.producers[i].pc.PDone? {
      assert forall i :: 0 <= i < |s.producers| ==> ProducerOps(s.producers[i]);
      TotalConstant(ToWrite, s.producers, 0);
      TotalConstant(ToMake, s.producers, 0);
      TotalConstant(Carried, s.producers, 0);
    }
    if forall j :: 0 <= j < |s.consumers| ==> s.consumers[j].pc.CDone? {
      assert forall j :: 0 <= j < |s.consumers| ==> ConsumerOps(s.consumers[j]);
      TotalConstant(ToRead, s.consumers, 0);
      TotalConstant(Added, s.consumers, 0);
    }
  }

  /** The counters at rest, read against the totals the threads were created with. */
  lemma StuckTotals(cfg: Config, s: State)
    requires Invariant(cfg, s) && Stuck(s)
    ensures |s.written| <= Sum(cfg.producerOps) && |s.consumed| <= Sum(cfg.consumerOps)
    ensures (exists i :: 0 <= i < |s.producers| && !s.producers[i].pc.PDone?) ==>
              |s.written| < Sum(cfg.producerOps) && Unread(s) == cfg.size
    ensures (exists j :: 0 <= j < |s.consumers| && !s.consumers[j].pc.CDone?) ==>
              |s.consumed| < Sum(cfg.consumerOps) && Unread(s) == 0
  {
    StuckThreads(cfg, s);
    forall i | 0 <= i < |s.producers| ensures ToWrite(s.producers[i]) >= 0 {
      assert ProducerOps(s.producers[i]);
    }
    forall j | 0 <= j < |s.consumers| ensures ToRead(s.consumers[j]) >= 0 {
      assert ConsumerOps(s.consumers[j]);
    }
    TotalNonNegative(ToWrite, s.producers);
    TotalNonNegative(ToRead, s.consumers);
    if i :| 0 <= i < |s.producers| && !s.producers[i].pc.PDone? {
      assert ProducerOps(s.producers[i]);
      TotalTerm(ToWrite, s.producers, i);
    }
    if j :| 0 <= j < |s.consumers| && !s.consumers[j].pc.CDone? {
      assert ConsumerOps(s.consumers[j]);
      TotalTerm(ToRead, s.consumers, j);
    }
  }

  ghost predicate Balanced(cfg: Config)
  {
    Sum(cfg.consumerOps) <= Sum(cfg.producerOps) <= Sum(cfg.consumerOps) + cfg.size
  }

  lemma BalancedNeverDeadlocks(cfg: Config, acts: seq<Action>)
    requires cfg.Valid() && Balanced(cfg) && Stuck(Run(Init(cfg), acts))
    ensures AllDone(Run(Init(cfg), acts))
  {
    var s := Run(Init(cfg), acts);
    RunKeepsInvariant(cfg, acts);
    StuckTotals(cfg, s);
    DoneMeansWritten(cfg, s);
  }

  /** The other direction: outside the bounds every maximal run leaves someone waiting for ever. */
  lemma UnbalancedDeadlocks(cfg: Config, acts: seq<Action>)
    requires cfg.Valid() && AllDone(Run(Init(cfg), acts))
    ensures Balanced(cfg)
  {
    RunKeepsInvariant(cfg, acts);
    var s := Run(Init(cfg), acts);
    DoneMeansWritten(cfg, s);
    TotalNonNegative(TookEmpty, s.producers);
    TotalNonNegative(OwesEmpty, s.consumers);
  }

  /** No interleaving is ever stuck with unfinished threads. */
  ghost predicate DeadlockFree(cfg: Config)
    requires cfg.Valid()
  {
    forall acts :: Stuck(Run(Init(cfg), acts)) ==> AllDone(Run(Init(cfg), acts))
  }

  /**
   With P producer and C consumer operations in all, the program is free of deadlock
   if and only if C <= P <= C + size. `P == C`, which the programs check when they are
   compiled, is one such case.
   */
  lemma DeadlockFreeIffBalanced(cfg: Config)
    requires cfg.Valid()
    ensures DeadlockFree(cfg) <==> Balanced(cfg)
  {
    hide Run, Stuck, AllDone;
    if Balanced(cfg) {
      forall acts | Stuck(Run(Init(cfg), acts)) ensures AllDone(Run(Init(cfg), acts)) {
        BalancedNeverDeadlocks(cfg, acts);
      }
    }
    if DeadlockFree(cfg) {
      var acts := RunsToRest(cfg, []);
      assert [] + acts == acts;
      UnbalancedDeadlocks(cfg, acts);
    }
  }

  // ---------------------------------------------------------------- conservation

  /**
   With as many consumer as producer operations, a run in which nobody can move any more
   has finished every thread; every amount drawn has been consumed as often as it was drawn,
   and the deposit has grown by their sum.
   */
  lemma DepositConserved(cfg: Config, acts: seq<Action>)
    requires cfg.Valid() && Sum(cfg.producerOps) == Sum(cfg.consumerOps)
    requires Stuck(Run(Init(cfg), acts))
    ensures var s := Run(Init(cfg), acts);
            && AllDone(s)
            && s.consumed == s.written && |s.made| == Sum(cfg.producerOps)
            && s.made == Drawn(Init(cfg), acts)
            && multiset(s.consumed) == multiset(Drawn(Init(cfg), acts))
            && s.deposit == cfg.initial + Sum(Drawn(Init(cfg), acts))
  {
    BalancedNeverDeadlocks(cfg, acts);
    RunKeepsInvariant(cfg, acts);
    DoneMeansWritten(cfg, Run(Init(cfg), acts));
    AllEntered(cfg, acts);
  }

  const MAX_TRANSACTION := 1000

  /** `performRandomTransaction` without the pause: `amount` is the residue drawn. */
  function Transaction(amount: nat, max: nat): int
  {
    if amount >= max then max - (amount + 1) else amount + 1
  }

  /** The residue from which `Transaction` makes `value`. */
  function Residue(value: int, max: nat): int
  {
    if value > 0 then value - 1 else max - value - 1
  }

  /** Residues below `2 * max` correspond one-to-one to the nonzero values of magnitude at most `max`. */
  lemma TransactionIsBijective(amount: nat, value: int, max: nat)
    ensures amount < 2 * max ==>
              && 0 != Transaction(amount, max) && 0 - max <= Transaction(amount, max) <= max
              && Residue(Transaction(amount, max), max) == amount
    ensures 0 != value && 0 - max <= value <= max ==>
              && 0 <= Residue(value, max) < 2 * max
              && Transaction(Residue(value, max), max) == value
  {
  }

  /** Below `max` the amounts are positive and grow with the residue; above, they are the same ones, negative. */
  lemma TransactionSigns(amount: nat, other: nat, max: nat)
    ensures amount < max ==> 0 < Transaction(amount, max) <= max
    ensures amount < other < max ==> Transaction(amount, max) < Transaction(other, max)
    ensures amount < max ==> Transaction(max + amount, max) == -Transaction(amount, max)
  {
  }

  ghost predicate AmountsIn(acts: seq<Action>, lo: int, hi: int)
  {
    forall k :: 0 <= k < |acts| && acts[k].Produce? ==> lo <= acts[k].amount <= hi
  }

  ghost predicate ValuesIn(vs: seq<int>, lo: int, hi: int)
  {
    forall k :: 0 <= k < |vs| ==> lo <= vs[k] <= hi
  }

  ghost predicate CarriedIn(s: State, lo: int, hi: int)
  {
    forall i :: 0 <= i < |s.producers| && 2 <= At(s.producers[i].pc) <= 7 ==>
      lo <= s.producers[i].current <= hi
  }

  lemma StepKeepsAmounts(s: State, a: Action, lo: int, hi: int)
    requires |s.transactions| > 0 && (a.Produce? ==> lo <= a.amount <= hi)
    requires ValuesIn(s.made, lo, hi) && ValuesIn(s.written, lo, hi) && CarriedIn(s, lo, hi)
    ensures var s' := Next(s, a);
            ValuesIn(s'.made, lo, hi) && ValuesIn(s'.written, lo, hi) && CarriedIn(s', lo, hi)
  {
    if Enabled(s, a) {
      match a {
        case Produce(i, amount) => OtherProducerStepsKeepSlots(s, i, amount);
        case Consume(j) => ConsumerFrame(s, j);
      }
    }
  }

  lemma {:induction false} OnlyGivenAmounts(cfg: Config, acts: seq<Action>, lo: int, hi: int)
    requires cfg.Valid() && AmountsIn(acts, lo, hi)
    ensures var s := Run(Init(cfg), acts);
            ValuesIn(s.made, lo, hi) && ValuesIn(s.written, lo, hi) && CarriedIn(s, lo, hi)
    decreases |acts|
  {
    hide Next;
    if acts != [] {
      OnlyGivenAmounts(cfg, acts[..|acts| - 1], lo, hi);
      StepKeepsAmounts(Run(Init(cfg), acts[..|acts| - 1]), acts[|acts| - 1], lo, hi);
    }
  }

  /** The amount of every item in the two-lock program, where the draw is pinned to 1. */
  const PINNED := Transaction(1, MAX_TRANSACTION)

  /** The final deposit of the two-lock program. */
  lemma PinnedDeposit(cfg: Config, acts: seq<Action>)
    requires cfg.Valid() && Sum(cfg.producerOps) == Sum(cfg.consumerOps)
    requires Stuck(Run(Init(cfg), acts)) && AmountsIn(acts, PINNED, PINNED)
    ensures Run(Init(cfg), acts).deposit == cfg.initial + 2 * Sum(cfg.producerOps)
  {
    hide Run, Next, Stuck, AllDone, AmountsIn, ValuesIn, Transaction, Sum;
    DepositConserved(cfg, acts);
    OnlyGivenAmounts(cfg, acts, PINNED, PINNED);
    AllPinned(Run(Init(cfg), acts).made);
  }

  lemma AllPinned(amounts: seq<int>)
    requires ValuesIn(amounts, PINNED, PINNED)
    ensures Sum(amounts) == 2 * |amounts|
  {
    assert PINNED == 2;
    SumConstant(amounts, 2);
  }

  /** Items already added although `read_index` has not moved yet. */
  function AddedAhead(c: Consumer): int { if 7 <= CAt(c.pc) <= 8 then 1 else 0 }

  /** How many values have been added to the deposit. */
  function Additions(s: State): int
  {
    |s.consumed| + Total(AddedAhead, s.consumers)
  }

  lemma BalanceBounded(cfg: Config, s: State, max: nat)
    requires Balance(cfg, s) && Slots(cfg, s) && Locals(s) && ValuesIn(s.written, 0 - max, max)
    ensures 0 - max * Additions(s) <= s.deposit - cfg.initial <= max * Additions(s)
  {
    SumMagnitude(s.consumed, max);
    var added, ahead := Weights(Added, s.consumers), Weights(AddedAhead, s.consumers);
    forall j | 0 <= j < |added| ensures 0 - max * ahead[j] <= added[j] <= max * ahead[j] {
      assert ConsumerLocals(s, s.consumers[j]);
      assert ahead[j] == 0 || ahead[j] == 1;
    }
    SumScaled(added, ahead, max);
    Distribute(max, Additions(s), Sum(ahead));
  }

  lemma {:induction false} SumScaled(a: seq<int>, b: seq<int>, max: nat)
    requires |a| == |b| && forall j :: 0 <= j < |a| ==> 0 - max * b[j] <= a[j] <= max * b[j]
    ensures 0 - max * Sum(b) <= Sum(a) <= max * Sum(b)
  {
    if a != [] {
      SumScaled(a[1..], b[1..], max);
      Distribute(max, Sum(b), Sum(b[1..]));
    }
  }

  /** The deposit never strays further from its start than the additions made so far allow. */
  lemma {:induction false} DepositBounded(cfg: Config, acts: seq<Action>, max: nat)
    requires cfg.Valid() && AmountsIn(acts, 0 - max, max)
    ensures var s := Run(Init(cfg), acts);
            0 - max * Additions(s) <= s.deposit - cfg.initial <= max * Additions(s)
  {
    hide Run;
    RunKeepsInvariant(cfg, acts);
    OnlyGivenAmounts(cfg, acts, 0 - max, max);
    BalanceBounded(cfg, Run(Init(cfg), acts), max);
  }

  lemma AdditionsBounded(cfg: Config, s: State)
    requires Budget(cfg, s) && Ops(s)
    ensures 0 <= Additions(s) <= Sum(cfg.consumerOps)
  {
    TotalNonNegative(AddedAhead, s.consumers);
    forall j | 0 <= j < |s.consumers| ensures AddedAhead(s.consumers[j]) <= ToRead(s.consumers[j]) {
      assert ConsumerOps(s.consumers[j]);
    }
    SumLeq(Weights(AddedAhead, s.consumers), Weights(ToRead, s.consumers));
  }

  lemma Scales(max: nat, a: int, b: int)
    requires a <= b
    ensures max * a <= max * b
  {
  }

  /**
   The sums the program forms are those of unbounded integers: when the largest amounts
   cannot take the deposit out of the range of `int`, no interleaving ever does.
   */
  lemma DepositNeverOverflows(cfg: Config, acts: seq<Action>, max: nat)
    requires cfg.Valid() && AmountsIn(acts, 0 - max, max)
    requires INT_MIN <= cfg.initial - max * Sum(cfg.consumerOps)
    requires cfg.initial + max * Sum(cfg.consumerOps) <= INT_MAX
    ensures INT_MIN <= Run(Init(cfg), acts).deposit <= INT_MAX
  {
    hide Run, Init, Additions, Sum, AmountsIn;
    DepositBounded(cfg, acts, max);
    RunKeepsInvariant(cfg, acts);
    AdditionsBounded(cfg, Run(Init(cfg), acts));
    Scales(max, Additions(Run(Init(cfg), acts)), Sum(cfg.consumerOps));
  }
}
