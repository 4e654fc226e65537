/**
 Producer and consumer processes that pass `int`s through one named pipe. A write of four
 bytes is atomic (POSIX.1-2017, System Interfaces, write(), for up to PIPE_BUF bytes); a
 read delivers what is there, at most what was asked. The parent of the producers closes
 the write end when all its children have exited, that of the consumers the read end.

 One step is one system call, or one assignment to a process's own variables.
 */
module ValueFifo {
  import opened Sums
  import opened IntBytes

  datatype ProducerPc = PTest | PMake | PSend | PSum | PDone
  datatype ConsumerPc = CTest | CReceive | CSum | CDone

  datatype Producer = Producer(pc: ProducerPc, numOps: nat, value: Int32, localSum: int)

  /** `got` is the part of `value` that has been filled in: `bytes_read` bytes. */
  datatype Consumer = Consumer(pc: ConsumerPc, numOps: nat, got: seq<Byte>, localSum: int)

  datatype Config = Config(capacity: nat, producerOps: seq<nat>, consumerOps: seq<nat>)
  {
    predicate Valid() { capacity >= SIZEOF_INT }
  }

  /** `failed` is set by the two error exits; the last two fields are history. */
  datatype State = State(
    capacity: nat, pipe: seq<Byte>, writeClosed: bool, readClosed: bool, failed: bool,
    producers: seq<Producer>, consumers: seq<Consumer>,
    produced: seq<int>, consumed: seq<int>)

  /** A call that the kernel interrupts (EINTR) is repeated: it is a step that changes nothing. */
  datatype Action =
    | Produce(i: nat, amount: Int32) | Consume(j: nat)
    | CloseWriteEnd | CloseReadEnd | Interrupted

  function Init(cfg: Config): State
  {
    State(cfg.capacity, [], false, false, false,
          seq(|cfg.producerOps|, i requires 0 <= i < |cfg.producerOps| => Producer(PTest, cfg.producerOps[i], 0, 0)),
          seq(|cfg.consumerOps|, i requires 0 <= i < |cfg.consumerOps| => Consumer(CTest, cfg.consumerOps[i], [], 0)),
          [], [])
  }

  predicate AllProduced(s: State)
  {
    forall i :: 0 <= i < |s.producers| ==> s.producers[i].pc.PDone?
  }

  predicate AllConsumed(s: State)
  {
    forall j :: 0 <= j < |s.consumers| ==> s.consumers[j].pc.CDone?
  }

  /** A write blocks while there is no room and somebody may read; a read while the pipe is empty and open. */
  predicate Enabled(s: State, a: Action)
  {
    !s.failed &&
    match a
    case Produce(i, _) =>
      i < |s.producers| && !s.producers[i].pc.PDone? &&
      (s.producers[i].pc.PSend? ==> s.readClosed || |s.pipe| + SIZEOF_INT <= s.capacity)
    case Consume(j) =>
      j < |s.consumers| && !s.consumers[j].pc.CDone? &&
      (s.consumers[j].pc.CReceive? ==> s.pipe != [] || s.writeClosed)
    case CloseWriteEnd => AllProduced(s) && !s.writeClosed
    case CloseReadEnd => AllConsumed(s) && !s.readClosed
    case Interrupted => false
  }

  function StepProducer(s: State, i: nat, amount: Int32): State
    requires Enabled(s, Produce(i, amount))
  {
    var p := s.producers[i];
    match p.pc
    case PTest => s.(producers := s.producers[i := p.(pc := if p.numOps > 0 then PMake else PDone)])
    case PMake => s.(producers := s.producers[i := p.(pc := PSend, value := amount)])
    case PSend =>
      if s.readClosed then s.(failed := true)
      else s.(pipe := s.pipe + Encode(p.value), produced := s.produced + [p.value],
              producers := s.producers[i := p.(pc := PSum)])
    case PSum =>
      s.(producers := s.producers[i := p.(
           pc := PTest, localSum := p.localSum + p.value, numOps := if p.numOps > 0 then p.numOps - 1 else 0)])
  }

  function StepConsumer(s: State, j: nat): State
    requires Enabled(s, Consume(j))
  {
    var c := s.consumers[j];
    match c.pc
    case CTest => s.(consumers := s.consumers[j := c.(pc := if c.numOps > 0 then CReceive else CDone, got := [])])
    case CReceive =>
      if s.pipe == [] then s.(failed := true)
      else
        var asked := if |c.got| < SIZEOF_INT then SIZEOF_INT - |c.got| else 0;
        var k := if |s.pipe| < asked then |s.pipe| else asked;
        var got := c.got + s.pipe[..k];
        s.(pipe := s.pipe[k..],
           consumed := s.consumed + (if |got| == SIZEOF_INT then [Decode(got)] else []),
           consumers := s.consumers[j := c.(pc := if |got| < SIZEOF_INT then CReceive else CSum, got := got)])
    case CSum =>
      s.(consumers := s.consumers[j := c.(
           pc := CTest, localSum := c.localSum + (if |c.got| == SIZEOF_INT then Decode(c.got) else 0),
           numOps := if c.numOps > 0 then c.numOps - 1 else 0)])
  }

  function Next(s: State, a: Action): State
  {
    if !Enabled(s, a) then s
    else match a
      case Produce(i, amount) => StepProducer(s, i, amount)
      case Consume(j) => StepConsumer(s, j)
      case CloseWriteEnd => s.(writeClosed := true)
      case CloseReadEnd => s.(readClosed := true)
      case Interrupted => s
  }

  /** The state after any interleaving `acts`. */
  function Run(s: State, acts: seq<Action>): State
    decreases |acts|
  {
    if acts == [] then s else Next(Run(s, acts[..|acts| - 1]), acts[|acts| - 1])
  }

  lemma RunSnoc(s: State, acts: seq<Action>, a: Action)
    ensures Run(s, acts + [a]) == Next(Run(s, acts), a)
  {
    hide Next;
    assert (acts + [a])[..|acts|] == acts;
  }

  // ---------------------------------------------------------------- what every step keeps

  /** The bytes of `values`, one `int` after the other. */
  function EncodeAll(values: seq<Int32>): (bs: seq<Byte>)
    ensures |bs| == SIZEOF_INT * |values|
  {
    if values == [] then [] else Encode(values[0]) + EncodeAll(values[1..])
  }

  lemma {:induction false} EncodeAllSnoc(values: seq<Int32>, v: Int32)
    ensures EncodeAll(values + [v]) == EncodeAll(values) + Encode(v)
  {
    if values == [] {
      assert (values + [v])[1..] == [];
    } else {
      assert (values + [v])[1..] == values[1..] + [v];
      EncodeAllSnoc(values[1..], v);
    }
  }

  function ToSend(p: Producer): int { p.numOps - (if p.pc.PSum? then 1 else 0) }

  function ToReceive(c: Consumer): int { c.numOps - (if c.pc.CSum? then 1 else 0) }

  /** What a producer has sent, including a value not yet added to its sum. */
  function Sent(p: Producer): int { p.localSum + (if p.pc.PSum? then p.value as int else 0) }

  function Received(c: Consumer): int
  {
    c.localSum + (if c.pc.CSum? && |c.got| == SIZEOF_INT then Decode(c.got) as int else 0)
  }

  ghost predicate ProducerOk(p: Producer)
  {
    if p.pc.PDone? then p.numOps == 0 else p.pc.PTest? || p.numOps > 0
  }

  /** No consumer ever holds part of a value. */
  ghost predicate ConsumerOk(c: Consumer)
  {
    && (if c.pc.CDone? then c.numOps == 0 else c.pc.CTest? || c.numOps > 0)
    && (c.pc.CReceive? ==> c.got == [])
    && (c.pc.CSum? ==> |c.got| == SIZEOF_INT)
  }

  /** The pipe holds whole values only: those produced and not yet consumed, in order. */
  ghost predicate PipeOk(s: State)
  {
    && (exists pending: seq<Int32> :: Holds(s, pending))
    && |s.pipe| <= s.capacity
  }

  ghost predicate Holds(s: State, pending: seq<Int32>)
  {
    s.pipe == EncodeAll(pending) && s.produced == s.consumed + pending
  }

  ghost predicate Counts(cfg: Config, s: State)
  {
    && |s.producers| == |cfg.producerOps| && |s.consumers| == |cfg.consumerOps|
    && |s.produced| + Total(ToSend, s.producers) == Sum(cfg.producerOps)
    && |s.consumed| + Total(ToReceive, s.consumers) == Sum(cfg.consumerOps)
    && Sum(s.produced) == Total(Sent, s.producers)
    && Sum(s.consumed) == Total(Received, s.consumers)
  }

  ghost predicate Processes(s: State)
  {
    && (forall i :: 0 <= i < |s.producers| ==> ProducerOk(s.producers[i]))
    && (forall j :: 0 <= j < |s.consumers| ==> ConsumerOk(s.consumers[j]))
    && (s.writeClosed ==> AllProduced(s))
    && (s.readClosed ==> AllConsumed(s))
  }

  ghost predicate Invariant(cfg: Config, s: State)
  {
    cfg.Valid() && s.capacity == cfg.capacity && PipeOk(s) && Counts(cfg, s) && Processes(s)
  }

  lemma InitHolds(cfg: Config)
    requires cfg.Valid()
    ensures Invariant(cfg, Init(cfg))
  {
    var s := Init(cfg);
    assert Holds(s, []);
    assert Weights(ToSend, s.producers) == cfg.producerOps;
    assert Weights(ToReceive, s.consumers) == cfg.consumerOps;
    TotalConstant(Sent, s.producers, 0);
    TotalConstant(Received, s.consumers, 0);
  }

  lemma ProducerKeepsPipe(s: State, i: nat, amount: Int32)
    requires Enabled(s, Produce(i, amount)) && PipeOk(s)
    ensures PipeOk(StepProducer(s, i, amount))
  {
    var pending :| Holds(s, pending);
    var s', p := StepProducer(s, i, amount), s.producers[i];
    if p.pc.PSend? && !s.readClosed {
      EncodeAllSnoc(pending, p.value);
      assert Holds(s', pending + [p.value]);
    } else {
      assert Holds(s', pending);
    }
  }

  lemma FrontOfPipe(pipe: seq<Byte>, pending: seq<Int32>)
    requires pipe == EncodeAll(pending) && pipe != []
    ensures pending != [] && |pipe| >= SIZEOF_INT
    ensures pipe[..SIZEOF_INT] == Encode(pending[0])
    ensures pipe[SIZEOF_INT..] == EncodeAll(pending[1..])
  {
    hide Encode;
    assert pipe == Encode(pending[0]) + EncodeAll(pending[1..]);
  }

  /** A read asks for four bytes and finds at least that many: it takes exactly the oldest value. */
  lemma ConsumerTakesOldest(s: State, j: nat, pending: seq<Int32>)
    requires Enabled(s, Consume(j)) && Holds(s, pending)
    requires s.consumers[j].pc.CReceive? && ConsumerOk(s.consumers[j]) && s.pipe != []
    ensures pending != []
    ensures var s' := StepConsumer(s, j);
            && Holds(s', pending[1..]) && s'.consumed == s.consumed + [pending[0]]
            && s'.consumers[j] == s.consumers[j].(pc := CSum, got := Encode(pending[0]))
  {
    FrontOfPipe(s.pipe, pending);
    DecodeEncode(pending[0]);
    hide Encode, Decode, EncodeAll;
    assert [] + s.pipe[..SIZEOF_INT] == s.pipe[..SIZEOF_INT];
  }

  lemma ConsumerKeepsPipe(s: State, j: nat)
    requires Enabled(s, Consume(j)) && PipeOk(s) && ConsumerOk(s.consumers[j])
    ensures PipeOk(StepConsumer(s, j)) && ConsumerOk(StepConsumer(s, j).consumers[j])
  {
    var pending :| Holds(s, pending);
    if s.consumers[j].pc.CReceive? && s.pipe != [] {
      ConsumerTakesOldest(s, j, pending);
    } else {
      assert Holds(StepConsumer(s, j), pending);
    }
  }

  /** What a step of one process changes, in terms of its own weights. */
  lemma ProducerDelta(s: State, i: nat, amount: Int32)
    requires Enabled(s, Produce(i, amount)) && ProducerOk(s.producers[i])
    ensures var s', p := StepProducer(s, i, amount), s.producers[i];
            && |s'.producers| == |s.producers|
            && var p' := s'.producers[i];
            && s'.producers == s.producers[i := p']
            && s' == s.(pipe := s'.pipe, failed := s'.failed, producers := s'.producers, produced := s'.produced)
            && |s'.produced| + ToSend(p') == |s.produced| + ToSend(p)
            && Sum(s'.produced) - Sent(p') == Sum(s.produced) - Sent(p)
            && ProducerOk(p')
  {
    SumSnoc(s.produced, s.producers[i].value);
  }

  lemma ConsumerDelta(s: State, j: nat)
    requires Enabled(s, Consume(j)) && PipeOk(s) && ConsumerOk(s.consumers[j])
    ensures var s', c := StepConsumer(s, j), s.consumers[j];
            && |s'.consumers| == |s.consumers|
            && var c' := s'.consumers[j];
            && s'.consumers == s.consumers[j := c']
            && s' == s.(pipe := s'.pipe, failed := s'.failed, consumers := s'.consumers, consumed := s'.consumed)
            && |s'.consumed| + ToReceive(c') == |s.consumed| + ToReceive(c)
            && Sum(s'.consumed) - Received(c') == Sum(s.consumed) - Received(c)
  {
    if s.consumers[j].pc.CReceive? && s.pipe != [] {
      var pending :| Holds(s, pending);
      ConsumerTakesOldest(s, j, pending);
      DecodeEncode(pending[0]);
      SumSnoc(s.consumed, pending[0]);
    }
  }

  lemma ProducerKeepsInvariant(cfg: Config, s: State, i: nat, amount: Int32)
    requires Invariant(cfg, s) && Enabled(s, Produce(i, amount))
    ensures Invariant(cfg, StepProducer(s, i, amount))
  {
    ProducerKeepsPipe(s, i, amount);
    ProducerDelta(s, i, amount);
    hide StepProducer, PipeOk;
    var p' := StepProducer(s, i, amount).producers[i];
    TotalUpdate(ToSend, s.producers, i, p');
    TotalUpdate(Sent, s.producers, i, p');
  }

  lemma ConsumerKeepsInvariant(cfg: Config, s: State, j: nat)
    requires Invariant(cfg, s) && Enabled(s, Consume(j))
    ensures Invariant(cfg, StepConsumer(s, j))
  {
    ConsumerKeepsPipe(s, j);
    ConsumerDelta(s, j);
    hide StepConsumer, PipeOk;
    var c' := StepConsumer(s, j).consumers[j];
    TotalUpdate(ToReceive, s.consumers, j, c');
    TotalUpdate(Received, s.consumers, j, c');
  }

  lemma StepKeepsInvariant(cfg: Config, s: State, a: Action)
    requires Invariant(cfg, s)
    ensures Invariant(cfg, Next(s, a))
  {
    if Enabled(s, a) {
      match a {
        case Produce(i, amount) => ProducerKeepsInvariant(cfg, s, i, amount);
        case Consume(j) => ConsumerKeepsInvariant(cfg, s, j);
        case CloseWriteEnd =>
          var pending :| Holds(s, pending);
          assert Holds(s.(writeClosed := true), pending);
        case CloseReadEnd =>
          var pending :| Holds(s, pending);
          assert Holds(s.(readClosed := true), pending);
        case Interrupted =>
      }
    }
  }

  lemma {:induction false} RunKeepsInvariant(cfg: Config, acts: seq<Action>)
    requires cfg.Valid()
    ensures Invariant(cfg, Run(Init(cfg), acts))
    decreases |acts|
  {
    hide Next, Invariant;
    if acts == [] {
      InitHolds(cfg);
    } else {
      RunKeepsInvariant(cfg, acts[..|acts| - 1]);
      StepKeepsInvariant(cfg, Run(Init(cfg), acts[..|acts| - 1]), acts[|acts| - 1]);
    }
  }
}
