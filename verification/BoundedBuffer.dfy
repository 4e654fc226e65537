/**
 The producer/consumer programs over a circular array of transactions. Producers and
 consumers hold different locks (`write_s`, `read_s`), or one and the same (`s`) when
 `oneLock` holds; two counting semaphores `empty` (e) and `full` (n) keep them apart.

 One step of a thread is one access to shared memory or one semaphore operation.
 */
module BoundedBuffer {
  import opened Sums

  /** Where a producer is in the body of its loop. */
  datatype ProducerPc =
    | PTest | PMake | PWaitEmpty | PLock | PLoadIndex | PStore | PLoadNext
    | PAdvance | PUnlock | PPostFull | PCount | PDone

  /** Where a consumer is in the body of its loop. */
  datatype ConsumerPc =
    | CTest | CWaitFull | CLock | CLoadIndex | CLoadItem | CLoadDeposit | CStoreDeposit
    | CLoadNext | CAdvance | CUnlock | CPostEmpty | CCount | CDone

  /** `index` and `current` are the thread's own copies of `write_index` and of the item. */
  datatype Producer = Producer(pc: ProducerPc, numOps: nat, current: int, index: nat)

  /** `item` and `balance` are the loaded operands of the addition to `deposit`. */
  datatype Consumer = Consumer(pc: ConsumerPc, numOps: nat, index: nat, item: int, balance: int)

  datatype Config = Config(
    oneLock: bool, size: nat, initial: int, producerOps: seq<nat>, consumerOps: seq<nat>)
  {
    predicate Valid() { size >= 1 }
  }

  /**
   The shared variables and the threads. The last three fields are history: the amounts
   generated, the amounts entered into and taken out of the buffer, each in the order of
   the step that generated them or moved the index.
   */
  datatype State = State(
    oneLock: bool,
    transactions: seq<int>, readIndex: nat, writeIndex: nat, deposit: int,
    empty: nat, full: nat, writeLock: nat, readLock: nat,
    producers: seq<Producer>, consumers: seq<Consumer>,
    made: seq<int>, written: seq<int>, consumed: seq<int>)

  datatype Action = Produce(thread: nat, amount: int) | Consume(thread: nat)

  function At(pc: ProducerPc): nat
  {
    match pc
    case PTest => 0 case PMake => 1 case PWaitEmpty => 2 case PLock => 3
    case PLoadIndex => 4 case PStore => 5 case PLoadNext => 6 case PAdvance => 7
    case PUnlock => 8 case PPostFull => 9 case PCount => 10 case PDone => 11
  }

  function CAt(pc: ConsumerPc): nat
  {
    match pc
    case CTest => 0 case CWaitFull => 1 case CLock => 2 case CLoadIndex => 3
    case CLoadItem => 4 case CLoadDeposit => 5 case CStoreDeposit => 6 case CLoadNext => 7
    case CAdvance => 8 case CUnlock => 9 case CPostEmpty => 10 case CCount => 11 case CDone => 12
  }

  function Init(c: Config): State
  {
    State(
      c.oneLock, seq(c.size, i => 0), 0, 0, c.initial, c.size, 0, 1, 1,
      seq(|c.producerOps|, i requires 0 <= i < |c.producerOps| => Producer(PTest, c.producerOps[i], 0, 0)),
      seq(|c.consumerOps|, i requires 0 <= i < |c.consumerOps| => Consumer(CTest, c.consumerOps[i], 0, 0, 0)),
      [], [], [])
  }

  /** The semaphore that guards the consumers' critical section. */
  function ReadGuard(s: State): nat
  {
    if s.oneLock then s.writeLock else s.readLock
  }

  function WithReadGuard(s: State, value: nat): State
  {
    if s.oneLock then s.(writeLock := value) else s.(readLock := value)
  }

  /** A thread is held up only in `sem_wait` on a zero semaphore, and once it has exited. */
  predicate Enabled(s: State, a: Action)
  {
    match a
    case Produce(i, _) =>
      i < |s.producers| &&
      (match s.producers[i].pc
       case PDone => false
       case PWaitEmpty => s.empty > 0
       case PLock => s.writeLock > 0
       case _ => true)
    case Consume(j) =>
      j < |s.consumers| &&
      (match s.consumers[j].pc
       case CDone => false
       case CWaitFull => s.full > 0
       case CLock => ReadGuard(s) > 0
       case _ => true)
  }

  function StepProducer(s: State, i: nat, amount: int): State
    requires Enabled(s, Produce(i, amount)) && |s.transactions| > 0
  {
    var p := s.producers[i];
    match p.pc
    case PTest => PutProducer(s, i, p.(pc := if p.numOps > 0 then PMake else PDone))
    case PMake => PutProducer(s, i, p.(pc := PWaitEmpty, current := amount)).(made := s.made + [amount])
    case PWaitEmpty => PutProducer(s, i, p.(pc := PLock)).(empty := s.empty - 1)
    case PLock => PutProducer(s, i, p.(pc := PLoadIndex)).(writeLock := s.writeLock - 1)
    case PLoadIndex => PutProducer(s, i, p.(pc := PStore, index := s.writeIndex))
    case PStore =>
      var s' := PutProducer(s, i, p.(pc := PLoadNext));
      if p.index < |s.transactions|
      then s'.(transactions := s.transactions[p.index := p.current]) else s'
    case PLoadNext => PutProducer(s, i, p.(pc := PAdvance, index := s.writeIndex))
    case PAdvance =>
      PutProducer(s, i, p.(pc := PUnlock))
      .(writeIndex := (p.index + 1) % |s.transactions|, written := s.written + [p.current])
    case PUnlock => PutProducer(s, i, p.(pc := PPostFull)).(writeLock := s.writeLock + 1)
    case PPostFull => PutProducer(s, i, p.(pc := PCount)).(full := s.full + 1)
    case PCount => PutProducer(s, i, p.(pc := PTest, numOps := if p.numOps > 0 then p.numOps - 1 else 0))
  }

  function StepConsumer(s: State, j: nat): State
    requires Enabled(s, Consume(j)) && |s.transactions| > 0
  {
    var c := s.consumers[j];
    match c.pc
    case CTest => PutConsumer(s, j, c.(pc := if c.numOps > 0 then CWaitFull else CDone))
    case CWaitFull => PutConsumer(s, j, c.(pc := CLock)).(full := s.full - 1)
    case CLock => WithReadGuard(PutConsumer(s, j, c.(pc := CLoadIndex)), ReadGuard(s) - 1)
    case CLoadIndex => PutConsumer(s, j, c.(pc := CLoadItem, index := s.readIndex))
    case CLoadItem =>
      PutConsumer(s, j, c.(pc := CLoadDeposit,
                           item := if c.index < |s.transactions| then s.transactions[c.index] else 0))
    case CLoadDeposit => PutConsumer(s, j, c.(pc := CStoreDeposit, balance := s.deposit))
    case CStoreDeposit => PutConsumer(s, j, c.(pc := CLoadNext)).(deposit := c.balance + c.item)
    case CLoadNext => PutConsumer(s, j, c.(pc := CAdvance, index := s.readIndex))
    case CAdvance =>
      PutConsumer(s, j, c.(pc := CUnlock))
      .(readIndex := (c.index + 1) % |s.transactions|, consumed := s.consumed + [c.item])
    case CUnlock => WithReadGuard(PutConsumer(s, j, c.(pc := CPostEmpty)), ReadGuard(s) + 1)
    case CPostEmpty => PutConsumer(s, j, c.(pc := CCount)).(empty := s.empty + 1)
    case CCount => PutConsumer(s, j, c.(pc := CTest, numOps := if c.numOps > 0 then c.numOps - 1 else 0))
  }

  function PutProducer(s: State, i: nat, p: Producer): State
    requires i < |s.producers|
  {
    s.(producers := s.producers[i := p])
  }

  function PutConsumer(s: State, j: nat, c: Consumer): State
    requires j < |s.consumers|
  {
    s.(consumers := s.consumers[j := c])
  }

  /** One step of one thread; a thread that cannot move stays where it is. */
  function Next(s: State, a: Action): (s': State)
    requires |s.transactions| > 0
    ensures |s'.transactions| == |s.transactions|
  {
    if !Enabled(s, a) then s
    else match a
      case Produce(i, amount) => StepProducer(s, i, amount)
      case Consume(j) => StepConsumer(s, j)
  }

  /** The state after any interleaving `acts` of the threads. */
  function Run(s: State, acts: seq<Action>): (s': State)
    requires |s.transactions| > 0
    ensures |s'.transactions| == |s.transactions|
  {
    if acts == [] then s else Next(Run(s, acts[..|acts| - 1]), acts[|acts| - 1])
  }
}
