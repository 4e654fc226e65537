/**
 Whose values go through the pipe: each producer sends what it drew, each consumer adds up
 what it took, and each does as many operations as it was created for.
 */
module ValueFifoTraces {
  import opened Sums
  import opened Sequences
  import opened IntBytes
  import opened ValueFifo
  import opened ValueFifoTheorems

  // ---------------------------------------------------------------- draws, sends and receipts

  /** The amount drawn by a step: that of a producer scheduled where it makes its value. */
  function Draw(s: State, a: Action): seq<int>
  {
    if !s.failed && a.Produce? && a.i < |s.producers| && s.producers[a.i].pc.PMake? then [a.amount] else []
  }

  /** All amounts drawn, in order. */
  function Drawn(s: State, acts: seq<Action>): seq<int>
    decreases |acts|
  {
    if acts == [] then []
    else
      var front := acts[..|acts| - 1];
      Drawn(s, front) + Draw(Run(s, front), acts[|acts| - 1])
  }

  /** Those drawn by producer `i`. */
  function DrawnBy(s: State, acts: seq<Action>, i: nat): seq<int>
    decreases |acts|
  {
    if acts == [] then []
    else
      var front, a := acts[..|acts| - 1], acts[|acts| - 1];
      DrawnBy(s, front, i) + (if a.Produce? && a.i == i then Draw(Run(s, front), a) else [])
  }

  /** What a history has grown by. */
  function Grown(before: seq<int>, after: seq<int>): seq<int>
  {
    if |before| <= |after| then after[|before|..] else []
  }

  /** The values that went into the pipe in the steps of producer `i`. */
  function SentBy(s: State, acts: seq<Action>, i: nat): seq<int>
    decreases |acts|
  {
    if acts == [] then []
    else
      var front, a := acts[..|acts| - 1], acts[|acts| - 1];
      var before := Run(s, front);
      SentBy(s, front, i) +
      (if a.Produce? && a.i == i then Grown(before.produced, Next(before, a).produced) else [])
  }

  /** The values that came out of the pipe in the steps of consumer `j`. */
  function TakenBy(s: State, acts: seq<Action>, j: nat): seq<int>
    decreases |acts|
  {
    if acts == [] then []
    else
      var front, a := acts[..|acts| - 1], acts[|acts| - 1];
      var before := Run(s, front);
      TakenBy(s, front, j) +
      (if a.Consume? && a.j == j then Grown(before.consumed, Next(before, a).consumed) else [])
  }

  // ---------------------------------------------------------------- one producer

  /** Operations begun by the drawing of an amount. */
  function ToDraw(p: Producer): int { p.numOps - (if p.pc.PSend? || p.pc.PSum? then 1 else 0) }

  predicate ProducerAccount(p: Producer, drawn: seq<int>, sent: seq<int>)
  {
    && drawn == (if p.pc.PSend? then sent + [p.value as int] else sent)
    && Sum(sent) == Sent(p)
  }

  lemma ProducerStep(s: State, i: nat, amount: Int32, drawn: seq<int>, sent: seq<int>)
    requires Enabled(s, Produce(i, amount)) && ProducerAccount(s.producers[i], drawn, sent)
    requires ProducerOk(s.producers[i])
    ensures var s' := StepProducer(s, i, amount);
            && |s'.producers| == |s.producers|
            && ProducerAccount(s'.producers[i], drawn + Draw(s, Produce(i, amount)),
                               sent + Grown(s.produced, s'.produced))
            && |Draw(s, Produce(i, amount))| + ToDraw(s'.producers[i]) == ToDraw(s.producers[i])
  {
    var p := s.producers[i];
    assert drawn + [] == drawn && sent + [] == sent;
    if p.pc.PSend? && !s.readClosed {
      assert Grown(s.produced, s.produced + [p.value as int]) == [p.value as int];
      SumSnoc(sent, p.value);
    } else {
      assert Grown(s.produced, s.produced) == [];
    }
  }

  /** A producer changes only in its own steps. */
  lemma OthersKeepProducer(s: State, a: Action, i: nat)
    requires i < |s.producers| && !(Enabled(s, a) && a.Produce? && a.i == i)
    ensures |Next(s, a).producers| == |s.producers| && Next(s, a).producers[i] == s.producers[i]
    ensures a.Produce? && a.i == i ==> Draw(s, a) == [] && Grown(s.produced, Next(s, a).produced) == []
  {
  }

  lemma {:induction false} ProducerAccounts(cfg: Config, acts: seq<Action>, i: nat)
    requires cfg.Valid() && i < |cfg.producerOps|
    ensures var s := Run(Init(cfg), acts);
            && i < |s.producers|
            && ProducerAccount(s.producers[i], DrawnBy(Init(cfg), acts, i), SentBy(Init(cfg), acts, i))
            && |DrawnBy(Init(cfg), acts, i)| + ToDraw(s.producers[i]) == cfg.producerOps[i]
    decreases |acts|
  {
    if acts != [] {
      var front, a := acts[..|acts| - 1], acts[|acts| - 1];
      ProducerAccounts(cfg, front, i);
      RunKeepsInvariant(cfg, front);
      var s := Run(Init(cfg), front);
      var drawn, sent := DrawnBy(Init(cfg), front, i), SentBy(Init(cfg), front, i);
      assert ProducerOk(s.producers[i]);
      if Enabled(s, a) && a.Produce? && a.i == i {
        ProducerStep(s, i, a.amount, drawn, sent);
        hide Draw, Grown, ProducerAccount, Invariant, Init, Enabled, StepProducer;
      } else {
        OthersKeepProducer(s, a, i);
        hide Next, Draw, Grown, ProducerAccount, Invariant, Init, Enabled;
        assert drawn + [] == drawn && sent + [] == sent;
      }
    }
  }

  /**
   A producer sends exactly the amounts it drew, in that order, the last one perhaps not yet,
   and its sum is that of what it sent. When it exits it has done as many operations as it
   was created for, and its sum is that of its own draws.
   */
  lemma ProducerSendsItsDraws(cfg: Config, acts: seq<Action>, i: nat)
    requires cfg.Valid() && i < |cfg.producerOps|
    ensures var s := Run(Init(cfg), acts);
            var drawn, sent := DrawnBy(Init(cfg), acts, i), SentBy(Init(cfg), acts, i);
            && |s.producers| == |cfg.producerOps|
            && sent <= drawn && |drawn| <= |sent| + 1 && |drawn| <= cfg.producerOps[i]
            && (s.producers[i].pc.PTest? || s.producers[i].pc.PDone? ==> s.producers[i].localSum == Sum(sent))
            && (s.producers[i].pc.PDone? ==>
                  sent == drawn && |drawn| == cfg.producerOps[i] && s.producers[i].localSum == Sum(drawn))
  {
    ProducerAccounts(cfg, acts, i);
    RunKeepsInvariant(cfg, acts);
    var s := Run(Init(cfg), acts);
    assert ProducerOk(s.producers[i]);
    hide Run, Init, DrawnBy, SentBy;
  }

  // ---------------------------------------------------------------- one consumer

  predicate ConsumerAccount(c: Consumer, taken: seq<int>)
  {
    Sum(taken) == Received(c)
  }

  lemma ConsumerStep(s: State, j: nat, taken: seq<int>)
    requires Enabled(s, Consume(j)) && ConsumerAccount(s.consumers[j], taken)
    requires PipeOk(s) && ConsumerOk(s.consumers[j])
    ensures var s' := StepConsumer(s, j);
            && |s'.consumers| == |s.consumers|
            && ConsumerAccount(s'.consumers[j], taken + Grown(s.consumed, s'.consumed))
            && |Grown(s.consumed, s'.consumed)| + ToReceive(s'.consumers[j]) == ToReceive(s.consumers[j])
  {
    assert taken + [] == taken;
    if s.consumers[j].pc.CReceive? && s.pipe != [] {
      var pending :| Holds(s, pending);
      ConsumerTakesOldest(s, j, pending);
      DecodeEncode(pending[0]);
      hide StepConsumer, Encode, Decode;
      assert Grown(s.consumed, s.consumed + [pending[0] as int]) == [pending[0] as int];
      SumSnoc(taken, pending[0]);
    } else {
      assert Grown(s.consumed, s.consumed) == [];
    }
  }

  lemma OthersKeepConsumer(s: State, a: Action, j: nat)
    requires j < |s.consumers| && !(Enabled(s, a) && a.Consume? && a.j == j)
    ensures |Next(s, a).consumers| == |s.consumers| && Next(s, a).consumers[j] == s.consumers[j]
    ensures a.Consume? && a.j == j ==> Grown(s.consumed, Next(s, a).consumed) == []
  {
  }

  lemma {:induction false} ConsumerAccounts(cfg: Config, acts: seq<Action>, j: nat)
    requires cfg.Valid() && j < |cfg.consumerOps|
    ensures var s := Run(Init(cfg), acts);
            && j < |s.consumers|
            && ConsumerAccount(s.consumers[j], TakenBy(Init(cfg), acts, j))
            && |TakenBy(Init(cfg), acts, j)| + ToReceive(s.consumers[j]) == cfg.consumerOps[j]
    decreases |acts|
  {
    if acts != [] {
      var front, a := acts[..|acts| - 1], acts[|acts| - 1];
      ConsumerAccounts(cfg, front, j);
      RunKeepsInvariant(cfg, front);
      var s := Run(Init(cfg), front);
      var taken := TakenBy(Init(cfg), front, j);
      assert ConsumerOk(s.consumers[j]);
      if Enabled(s, a) && a.Consume? && a.j == j {
        ConsumerStep(s, j, taken);
        hide Grown, ConsumerAccount, Invariant, Init, Enabled, StepConsumer;
      } else {
        OthersKeepConsumer(s, a, j);
        hide Next, Grown, ConsumerAccount, Invariant, Init, Enabled;
        assert taken + [] == taken;
      }
    }
  }

  /** A consumer's sum is that of what it took; when it exits it has taken as many as it was created for. */
  lemma ConsumerSumsItsValues(cfg: Config, acts: seq<Action>, j: nat)
    requires cfg.Valid() && j < |cfg.consumerOps|
    ensures var s, taken := Run(Init(cfg), acts), TakenBy(Init(cfg), acts, j);
            && |s.consumers| == |cfg.consumerOps|
            && |taken| <= cfg.consumerOps[j]
            && (!s.consumers[j].pc.CSum? ==> s.consumers[j].localSum == Sum(taken))
            && (s.consumers[j].pc.CDone? ==> |taken| == cfg.consumerOps[j])
  {
    ConsumerAccounts(cfg, acts, j);
    RunKeepsInvariant(cfg, acts);
    var s := Run(Init(cfg), acts);
    assert ConsumerOk(s.consumers[j]);
    hide Run, Init, TakenBy;
  }

  // ---------------------------------------------------------------- all of them

  /** Whether a producer has the amount `x` drawn and not yet sent. */
  function Holding(x: int): Producer -> int
  {
    (p: Producer) => if p.pc.PSend? && p.value as int == x then 1 else 0
  }

  /** The value sent by a step. */
  function Send(s: State, a: Action): seq<int>
  {
    if Enabled(s, a) && a.Produce? && s.producers[a.i].pc.PSend? && !s.readClosed
    then [s.producers[a.i].value as int] else []
  }

  lemma ProducerHistory(s: State, i: nat, amount: Int32, x: int)
    requires Enabled(s, Produce(i, amount))
    ensures var s', a := StepProducer(s, i, amount), Produce(i, amount);
            && |s'.producers| == |s.producers| && s'.producers == s.producers[i := s'.producers[i]]
            && s'.produced == s.produced + Send(s, a)
            && Holding(x)(s'.producers[i]) == Holding(x)(s.producers[i]) + Is(Draw(s, a), x) - Is(Send(s, a), x)
  {
    assert s.produced + [] == s.produced;
  }

  lemma OthersSendNothing(s: State, a: Action)
    requires !(Enabled(s, a) && a.Produce?)
    ensures Next(s, a).producers == s.producers && Next(s, a).produced == s.produced && Draw(s, a) == []
  {
  }

  /** Every amount drawn is still in the hands of its producer or has been sent, as often as it was drawn. */
  lemma {:induction false} AmountsAccountedFor(cfg: Config, acts: seq<Action>, x: int)
    requires cfg.Valid()
    ensures var s := Run(Init(cfg), acts);
            Occurrences(Drawn(Init(cfg), acts), x) == Occurrences(s.produced, x) + Total(Holding(x), s.producers)
    decreases |acts|
  {
    if acts == [] {
      TotalConstant(Holding(x), Init(cfg).producers, 0);
    } else {
      hide Init, Occurrences, Holding, Total, Draw, Send, Is;
      var front, a := acts[..|acts| - 1], acts[|acts| - 1];
      AmountsAccountedFor(cfg, front, x);
      var s, drawn := Run(Init(cfg), front), Drawn(Init(cfg), front);
      if Enabled(s, a) && a.Produce? {
        ProducerHistory(s, a.i, a.amount, x);
        AtMostOne(s, a);
        OccurrencesPlus(drawn, Draw(s, a), x);
        OccurrencesPlus(s.produced, Send(s, a), x);
        TotalUpdate(Holding(x), s.producers, a.i, StepProducer(s, a.i, a.amount).producers[a.i]);
        hide StepProducer, Enabled;
      } else {
        OthersSendNothing(s, a);
        hide Next, Enabled;
        assert drawn + [] == drawn;
      }
    }
  }

  lemma AtMostOne(s: State, a: Action)
    ensures |Draw(s, a)| <= 1 && |Send(s, a)| <= 1
  {
  }

  /**
   With equal totals, in a run in which nobody can move any more what has been consumed is what
   was drawn, in some order, and all consumers' sums together are the sum of all draws.
   */
  lemma DrawsArrive(cfg: Config, acts: seq<Action>)
    requires cfg.Valid() && Sum(cfg.producerOps) == Sum(cfg.consumerOps)
    requires Stuck(Run(Init(cfg), acts))
    ensures var s, drawn := Run(Init(cfg), acts), Drawn(Init(cfg), acts);
            && multiset(s.consumed) == multiset(drawn)
            && Total(LocalSumC, s.consumers) == Total(LocalSumP, s.producers) == Sum(drawn)
  {
    CompleteRun(cfg, acts);
    var s, drawn := Run(Init(cfg), acts), Drawn(Init(cfg), acts);
    hide Run, Init, Drawn, Stuck;
    forall x ensures multiset(s.produced)[x] == multiset(drawn)[x] {
      AmountsAccountedFor(cfg, acts, x);
      NothingHeld(s.producers, x);
      hide Holding, Total;
    }
    assert multiset(s.produced) == multiset(drawn);
    SameSum(s.produced, drawn);
  }

  lemma NothingHeld(ps: seq<Producer>, x: int)
    requires forall i :: 0 <= i < |ps| ==> ps[i].pc.PDone?
    ensures Total(Holding(x), ps) == 0
  {
    TotalConstant(Holding(x), ps, 0);
  }

  // ---------------------------------------------------------------- the pipe can fill up

  predicate OnlyProducersRan(s: State)
  {
    !s.failed && !s.readClosed && s.consumed == []
  }

  /** A producer that has not exited can go on while there is room. */
  lemma ProducerGoesOn(cfg: Config, s: State, i: nat)
    requires Invariant(cfg, s) && OnlyProducersRan(s) && i < |s.producers| && !s.producers[i].pc.PDone?
    requires |s.pipe| + SIZEOF_INT <= s.capacity
    ensures Enabled(s, Produce(i, 0)) && OnlyProducersRan(Next(s, Produce(i, 0)))
    ensures |s.produced| <= |Next(s, Produce(i, 0)).produced| <= |s.produced| + 1
  {
  }

  /** The producers can run ahead of the consumers by any number of values the pipe has room for. */
  lemma {:induction false} PipeFills(cfg: Config, acts: seq<Action>, k: nat) returns (more: seq<Action>)
    requires cfg.Valid() && k <= Sum(cfg.producerOps) && SIZEOF_INT * k <= cfg.capacity
    requires OnlyProducersRan(Run(Init(cfg), acts)) && |Run(Init(cfg), acts).produced| <= k
    ensures var s := Run(Init(cfg), acts + more);
            |s.produced| == k && s.consumed == [] && |s.pipe| == SIZEOF_INT * k
    decreases Work(Run(Init(cfg), acts))
  {
    hide Run, Init, Next, Work, Invariant, Enabled, Sum, OnlyProducersRan;
    var s := Run(Init(cfg), acts);
    RunKeepsInvariant(cfg, acts);
    PipeIsFifo(cfg, acts);
    NothingConsumed(s);
    if |s.produced| == k {
      more := [];
      assert acts + more == acts;
    } else {
      Bounds(cfg, s);
      var i :| 0 <= i < |s.producers| && !s.producers[i].pc.PDone?;
      SameCapacity(cfg, s);
      ProducerGoesOn(cfg, s, i);
      RunSnoc(Init(cfg), acts, Produce(i, 0));
      EveryStepWorks(cfg, s, Produce(i, 0));
      StepKeepsInvariant(cfg, s, Produce(i, 0));
      WorkIsNatural(Next(s, Produce(i, 0)));
      var rest := PipeFills(cfg, acts + [Produce(i, 0)], k);
      more := [Produce(i, 0)] + rest;
      assert acts + more == (acts + [Produce(i, 0)]) + rest;
    }
  }

  lemma NothingConsumed(s: State)
    requires OnlyProducersRan(s)
    ensures s.consumed == []
  {
  }

  lemma SameCapacity(cfg: Config, s: State)
    requires Invariant(cfg, s)
    ensures s.capacity == cfg.capacity
  {
  }

  /** A process is held up by nothing but a pipe without room, or an empty one that is still open. */
  lemma HeldUpOnlyByPipe(s: State, a: Action)
    requires !s.failed && !Enabled(s, a)
    ensures a.Produce? && a.i < |s.producers| ==>
              var pc := s.producers[a.i].pc;
              pc.PDone? || (pc.PSend? && !s.readClosed && |s.pipe| + SIZEOF_INT > s.capacity)
    ensures a.Consume? && a.j < |s.consumers| ==>
              var pc := s.consumers[a.j].pc;
              pc.CDone? || (pc.CReceive? && s.pipe == [] && !s.writeClosed)
  {
  }
}
