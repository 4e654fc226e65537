/** What the processes on the two ends of the pipe can rely on, over all interleavings. */
module ValueFifoTheorems {
  import opened Sums
  import opened IntBytes
  import opened ValueFifo

  /**
   The values consumed, in order, are a prefix of the values produced; the pipe holds the
   others, as whole values; the local sums account for all of them.
   */
  lemma PipeIsFifo(cfg: Config, acts: seq<Action>)
    requires cfg.Valid()
    ensures var s := Run(Init(cfg), acts);
            && s.consumed <= s.produced
            && |s.pipe| == SIZEOF_INT * (|s.produced| - |s.consumed|) <= cfg.capacity
            && (forall j :: 0 <= j < |s.consumers| && s.consumers[j].pc.CReceive? ==> s.consumers[j].got == [])
            && Sum(s.produced) == Total(Sent, s.producers)
            && Sum(s.consumed) == Total(Received, s.consumers)
  {
    RunKeepsInvariant(cfg, acts);
    var s := Run(Init(cfg), acts);
    hide Run;
    var pending :| Holds(s, pending);
    forall j | 0 <= j < |s.consumers| && s.consumers[j].pc.CReceive?
      ensures s.consumers[j].got == []
    {
      assert ConsumerOk(s.consumers[j]);
    }
  }

  // ---------------------------------------------------------------- termination

  function ProducerWork(p: Producer): int
  {
    match p.pc
    case PTest => 4 * p.numOps + 4
    case PMake => 4 * p.numOps + 3
    case PSend => 4 * p.numOps + 2
    case PSum => 4 * p.numOps + 1
    case PDone => 0
  }

  function ConsumerWork(c: Consumer): int
  {
    match c.pc
    case CTest => 3 * c.numOps + 3
    case CReceive => 3 * c.numOps + 2
    case CSum => 3 * c.numOps + 1
    case CDone => 0
  }

  function Flag(b: bool): int { if b then 0 else 1 }

  function Work(s: State): int
  {
    Total(ProducerWork, s.producers) + Total(ConsumerWork, s.consumers)
    + Flag(s.writeClosed) + Flag(s.readClosed) + Flag(s.failed)
  }

  lemma WorkIsNatural(s: State)
    ensures Work(s) >= 0
  {
    TotalNonNegative(ProducerWork, s.producers);
    TotalNonNegative(ConsumerWork, s.consumers);
  }

  lemma ProducerProgress(s: State, i: nat, amount: Int32)
    requires Enabled(s, Produce(i, amount)) && ProducerOk(s.producers[i])
    ensures var p, p' := s.producers[i], StepProducer(s, i, amount).producers[i];
            ProducerWork(p') < ProducerWork(p) || (p' == p && StepProducer(s, i, amount).failed)
  {
  }

  lemma ConsumerProgress(s: State, j: nat)
    requires Enabled(s, Consume(j)) && PipeOk(s) && ConsumerOk(s.consumers[j])
    ensures var c, c' := s.consumers[j], StepConsumer(s, j).consumers[j];
            ConsumerWork(c') < ConsumerWork(c) || (c' == c && StepConsumer(s, j).failed)
  {
    if s.consumers[j].pc.CReceive? && s.pipe != [] {
      var pending :| Holds(s, pending);
      ConsumerTakesOldest(s, j, pending);
    }
  }

  lemma ProducerStepWorks(s: State, i: nat, amount: Int32)
    requires Enabled(s, Produce(i, amount)) && ProducerOk(s.producers[i])
    ensures Work(StepProducer(s, i, amount)) < Work(s)
  {
    ProducerDelta(s, i, amount);
    ProducerProgress(s, i, amount);
    hide StepProducer, ProducerWork;
    TotalUpdate(ProducerWork, s.producers, i, StepProducer(s, i, amount).producers[i]);
  }

  lemma ConsumerStepWorks(s: State, j: nat)
    requires Enabled(s, Consume(j)) && PipeOk(s) && ConsumerOk(s.consumers[j])
    ensures Work(StepConsumer(s, j)) < Work(s)
  {
    ConsumerDelta(s, j);
    ConsumerProgress(s, j);
    hide StepConsumer, ConsumerWork;
    TotalUpdate(ConsumerWork, s.consumers, j, StepConsumer(s, j).consumers[j]);
  }

  /** The measure drops on every step, whoever takes it. */
  lemma EveryStepWorks(cfg: Config, s: State, a: Action)
    requires Invariant(cfg, s) && Enabled(s, a)
    ensures Work(Next(s, a)) < Work(s)
  {
    match a {
      case Produce(i, amount) => ProducerStepWorks(s, i, amount);
      case Consume(j) => ConsumerStepWorks(s, j);
      case CloseWriteEnd =>
      case CloseReadEnd =>
      case Interrupted =>
    }
  }

  /** How often somebody has actually moved. */
  function Moves(s: State, acts: seq<Action>): nat
    decreases |acts|
  {
    if acts == [] then 0
    else
      var front := acts[..|acts| - 1];
      Moves(s, front) + (if Enabled(Run(s, front), acts[|acts| - 1]) then 1 else 0)
  }

  /** Termination: no schedule, however long, makes the processes move more often than this. */
  lemma {:induction false} BoundedMoves(cfg: Config, acts: seq<Action>)
    requires cfg.Valid()
    ensures Moves(Init(cfg), acts) + Work(Run(Init(cfg), acts)) <= Work(Init(cfg))
    ensures Moves(Init(cfg), acts) <= Work(Init(cfg))
    decreases |acts|
  {
    hide Next, Work, Enabled, Invariant, Init;
    WorkIsNatural(Run(Init(cfg), acts));
    if acts != [] {
      var front, a := acts[..|acts| - 1], acts[|acts| - 1];
      BoundedMoves(cfg, front);
      RunKeepsInvariant(cfg, front);
      var s := Run(Init(cfg), front);
      if Enabled(s, a) {
        EveryStepWorks(cfg, s, a);
      } else {
        BlockedStays(s, a);
      }
    }
  }

  lemma BlockedStays(s: State, a: Action)
    requires !Enabled(s, a)
    ensures Next(s, a) == s
  {
  }

  // ---------------------------------------------------------------- the error exits

  /** The totals tell who may still have something to do. */
  lemma Bounds(cfg: Config, s: State)
    requires Invariant(cfg, s)
    ensures |s.consumed| <= |s.produced| <= Sum(cfg.producerOps)
    ensures |s.consumed| <= Sum(cfg.consumerOps)
    ensures AllProduced(s) ==> |s.produced| == Sum(cfg.producerOps)
    ensures AllConsumed(s) ==> |s.consumed| == Sum(cfg.consumerOps)
    ensures forall i :: 0 <= i < |s.producers| && s.producers[i].pc.PSend? ==> |s.produced| < Sum(cfg.producerOps)
    ensures forall j :: 0 <= j < |s.consumers| && s.consumers[j].pc.CReceive? ==> |s.consumed| < Sum(cfg.consumerOps)
    ensures s.pipe == [] <==> |s.consumed| == |s.produced|
  {
    forall i | 0 <= i < |s.producers| ensures ToSend(s.producers[i]) >= 0 {
      assert ProducerOk(s.producers[i]);
    }
    forall j | 0 <= j < |s.consumers| ensures ToReceive(s.consumers[j]) >= 0 {
      assert ConsumerOk(s.consumers[j]);
    }
    TotalNonNegative(ToSend, s.producers);
    TotalNonNegative(ToReceive, s.consumers);
    forall i | 0 <= i < |s.producers| && s.producers[i].pc.PSend? ensures |s.produced| < Sum(cfg.producerOps) {
      assert ProducerOk(s.producers[i]);
      TotalTerm(ToSend, s.producers, i);
    }
    forall j | 0 <= j < |s.consumers| && s.consumers[j].pc.CReceive? ensures |s.consumed| < Sum(cfg.consumerOps) {
      assert ConsumerOk(s.consumers[j]);
      TotalTerm(ToReceive, s.consumers, j);
    }
    if AllProduced(s) {
      assert forall i :: 0 <= i < |s.producers| ==> ProducerOk(s.producers[i]);
      TotalConstant(ToSend, s.producers, 0);
    }
    if AllConsumed(s) {
      assert forall j :: 0 <= j < |s.consumers| ==> ConsumerOk(s.consumers[j]);
      TotalConstant(ToReceive, s.consumers, 0);
    }
    var pending :| Holds(s, pending);
  }

  /** With equal totals no step runs into a closed pipe. */
  lemma EqualTotalsStepSafely(cfg: Config, s: State, a: Action)
    requires Invariant(cfg, s) && Sum(cfg.producerOps) == Sum(cfg.consumerOps) && !s.failed
    ensures !Next(s, a).failed
  {
    Bounds(cfg, s);
  }

  lemma {:induction false} EqualTotalsNeverFail(cfg: Config, acts: seq<Action>)
    requires cfg.Valid() && Sum(cfg.producerOps) == Sum(cfg.consumerOps)
    ensures !Run(Init(cfg), acts).failed
    decreases |acts|
  {
    hide Next;
    if acts != [] {
      var front := acts[..|acts| - 1];
      EqualTotalsNeverFail(cfg, front);
      RunKeepsInvariant(cfg, front);
      EqualTotalsStepSafely(cfg, Run(Init(cfg), front), acts[|acts| - 1]);
    }
  }

  /**
   A schedule that fails when the totals differ: producers move only when every consumer is
   held up, and as soon as all consumers have exited their end of the pipe is closed.
   */
  lemma ConsumersFirst(cfg: Config, s: State) returns (a: Action)
    requires Invariant(cfg, s) && !s.failed && Sum(cfg.producerOps) != Sum(cfg.consumerOps)
    requires |s.produced| <= Sum(cfg.consumerOps)
    ensures Enabled(s, a) && |Next(s, a).produced| <= Sum(cfg.consumerOps)
  {
    Bounds(cfg, s);
    if j :| 0 <= j < |s.consumers| && Enabled(s, Consume(j)) {
      a := Consume(j);
    } else if Enabled(s, CloseReadEnd) {
      a := CloseReadEnd;
    } else if Enabled(s, CloseWriteEnd) {
      a := CloseWriteEnd;
    } else {
      if i :| 0 <= i < |s.producers| && !s.producers[i].pc.PDone? {
        a := Produce(i, 0);
        if !AllConsumed(s) {
          var j :| 0 <= j < |s.consumers| && !s.consumers[j].pc.CDone?;
          assert !Enabled(s, Consume(j));
          assert s.pipe == [];
          assert s.consumers[j].pc.CReceive?;
        }
      } else {
        assert AllProduced(s) && s.writeClosed;
        if j :| 0 <= j < |s.consumers| && !s.consumers[j].pc.CDone? {
          assert Enabled(s, Consume(j));
        }
      }
    }
  }

  lemma {:induction false} UnequalTotalsFail(cfg: Config, acts: seq<Action>) returns (more: seq<Action>)
    requires cfg.Valid() && Sum(cfg.producerOps) != Sum(cfg.consumerOps)
    requires |Run(Init(cfg), acts).produced| <= Sum(cfg.consumerOps)
    ensures Run(Init(cfg), acts + more).failed
    decreases Work(Run(Init(cfg), acts))
  {
    hide Run, Next, Work, Invariant, Enabled, Init, Sum;
    var s := Run(Init(cfg), acts);
    RunKeepsInvariant(cfg, acts);
    if s.failed {
      more := [];
      assert acts + more == acts;
    } else {
      var a := ConsumersFirst(cfg, s);
      RunSnoc(Init(cfg), acts, a);
      EveryStepWorks(cfg, s, a);
      WorkIsNatural(Next(s, a));
      var rest := UnequalTotalsFail(cfg, acts + [a]);
      more := [a] + rest;
      assert acts + more == (acts + [a]) + rest;
    }
  }

  ghost predicate NeverFails(cfg: Config)
  {
    forall acts :: !Run(Init(cfg), acts).failed
  }

  lemma {:induction false} SumOfNats(s: seq<nat>)
    ensures Sum(s) >= 0
  {
    SumZeroBound(s);
  }

  /**
   No interleaving reaches an error exit (a premature end of file, or a write to a pipe
   that nobody reads) if and only if the numbers of operations agree, which is what the
   programs check when they are compiled.
   */
  lemma NeverFailsIffTotalsAgree(cfg: Config)
    requires cfg.Valid()
    ensures NeverFails(cfg) <==> Sum(cfg.producerOps) == Sum(cfg.consumerOps)
  {
    hide Next;
    if Sum(cfg.producerOps) == Sum(cfg.consumerOps) {
      forall acts ensures !Run(Init(cfg), acts).failed {
        EqualTotalsNeverFail(cfg, acts);
      }
    } else {
      SumOfNats(cfg.consumerOps);
      var acts := UnequalTotalsFail(cfg, []);
      assert [] + acts == acts;
    }
  }

  // ---------------------------------------------------------------- completion

  ghost predicate Stuck(s: State)
  {
    forall a :: !Enabled(s, a)
  }

  /** With equal totals somebody can move until both ends are closed. */
  lemma SomebodyMoves(cfg: Config, s: State) returns (a: Action)
    requires Invariant(cfg, s) && Sum(cfg.producerOps) == Sum(cfg.consumerOps) && !s.failed
    requires !s.writeClosed || !s.readClosed
    ensures Enabled(s, a)
  {
    if AllConsumed(s) && !s.readClosed {
      a := CloseReadEnd;
    } else if j :| 0 <= j < |s.consumers| && !s.consumers[j].pc.CDone? && Enabled(s, Consume(j)) {
      a := Consume(j);
    } else if i :| 0 <= i < |s.producers| && !s.producers[i].pc.PDone? {
      a := Produce(i, 0);
      if !AllConsumed(s) {
        var j :| 0 <= j < |s.consumers| && !s.consumers[j].pc.CDone?;
        assert !Enabled(s, Consume(j));
      }
    } else {
      a := CloseWriteEnd;
      if !AllConsumed(s) {
        var j :| 0 <= j < |s.consumers| && !s.consumers[j].pc.CDone?;
        assert !Enabled(s, Consume(j));
      }
    }
  }

  /**
   With equal totals a run in which nobody can move any more is complete: every process has
   exited, the consumers received exactly what the producers sent, and the sums agree.
   */
  lemma CompleteRun(cfg: Config, acts: seq<Action>)
    requires cfg.Valid() && Sum(cfg.producerOps) == Sum(cfg.consumerOps)
    requires Stuck(Run(Init(cfg), acts))
    ensures var s := Run(Init(cfg), acts);
            && AllProduced(s) && AllConsumed(s)
            && s.pipe == [] && s.consumed == s.produced && |s.produced| == Sum(cfg.producerOps)
            && Total(LocalSumP, s.producers) == Total(LocalSumC, s.consumers) == Sum(s.produced)
  {
    var s := Run(Init(cfg), acts);
    RunKeepsInvariant(cfg, acts);
    EqualTotalsNeverFail(cfg, acts);
    hide Run;
    if !s.writeClosed || !s.readClosed {
      var a := SomebodyMoves(cfg, s);
      assert false;
    }
    Bounds(cfg, s);
    var pending :| Holds(s, pending);
    assert Weights(LocalSumP, s.producers) == Weights(Sent, s.producers);
    assert Weights(LocalSumC, s.consumers) == Weights(Received, s.consumers);
  }

  function LocalSumP(p: Producer): int { p.localSum }

  function LocalSumC(c: Consumer): int { c.localSum }

  /** Every run can be completed: the measure leaves only finitely many steps. */
  lemma {:induction false} RunsToRest(cfg: Config, acts: seq<Action>) returns (more: seq<Action>)
    requires cfg.Valid()
    ensures Stuck(Run(Init(cfg), acts + more))
    decreases Work(Run(Init(cfg), acts))
  {
    hide Run, Next, Work, Invariant, Enabled, Init;
    var s := Run(Init(cfg), acts);
    RunKeepsInvariant(cfg, acts);
    if Stuck(s) {
      more := [];
      assert acts + more == acts;
    } else {
      var a :| Enabled(s, a);
      RunSnoc(Init(cfg), acts, a);
      EveryStepWorks(cfg, s, a);
      WorkIsNatural(Next(s, a));
      var rest := RunsToRest(cfg, acts + [a]);
      more := [a] + rest;
      assert acts + more == (acts + [a]) + rest;
    }
  }
}
