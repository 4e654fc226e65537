/**
 What each thread is seen to do, told from the shared variables alone: a producer draws an
 amount, waits for room, locks, enters that amount, unlocks and posts, as often as it was
 created to; a consumer waits for an item, locks, takes one, unlocks and posts.
 */
module BufferTraces {
  import opened Sums
  import opened Sequences
  import opened BoundedBuffer
  import opened BufferInvariant
  import opened BufferSteps

  // ---------------------------------------------------------------- the amounts drawn

  /** The amount drawn by a step: that of a producer scheduled where it makes its item. */
  function Draw(s: State, a: Action): seq<int>
  {
    if a.Produce? && a.thread < |s.producers| && s.producers[a.thread].pc.PMake? then [a.amount] else []
  }

  /** All amounts drawn, in order. */
  function Drawn(s: State, acts: seq<Action>): seq<int>
    requires |s.transactions| > 0
    decreases |acts|
  {
    if acts == [] then []
    else
      var front := acts[..|acts| - 1];
      Drawn(s, front) + Draw(Run(s, front), acts[|acts| - 1])
  }

  /** Those drawn by producer `i`. */
  function DrawnBy(s: State, acts: seq<Action>, i: nat): seq<int>
    requires |s.transactions| > 0
    decreases |acts|
  {
    if acts == [] then []
    else
      var front, a := acts[..|acts| - 1], acts[|acts| - 1];
      DrawnBy(s, front, i) + (if a.thread == i then Draw(Run(s, front), a) else [])
  }

  /** What is recorded as made is what was drawn. */
  lemma {:induction false} MadeIsDrawn(s: State, acts: seq<Action>)
    requires |s.transactions| > 0
    ensures Run(s, acts).made == s.made + Drawn(s, acts)
    decreases |acts|
  {
    if acts != [] {
      var front, a := acts[..|acts| - 1], acts[|acts| - 1];
      MadeIsDrawn(s, front);
      OneMade(Run(s, front), a);
      hide Next, Draw;
    }
  }

  lemma OneMade(s: State, a: Action)
    requires |s.transactions| > 0
    ensures Next(s, a).made == s.made + Draw(s, a)
  {
  }

  // ---------------------------------------------------------------- nothing lost, nothing doubled

  /** Whether a producer has the amount `x` drawn and not yet entered. */
  function Holding(x: int): Producer -> int
  {
    (p: Producer) => if 2 <= At(p.pc) <= 7 && p.current == x then 1 else 0
  }

  /** The amount entered by a step. */
  function Enter(s: State, a: Action): seq<int>
  {
    if a.Produce? && a.thread < |s.producers| && s.producers[a.thread].pc.PAdvance?
    then [s.producers[a.thread].current] else []
  }

  lemma ProducerHistory(s: State, i: nat, amount: int)
    requires |s.transactions| > 0 && Enabled(s, Produce(i, amount))
    ensures var s', a := StepProducer(s, i, amount), Produce(i, amount);
            && |s'.producers| == |s.producers| && s'.producers == s.producers[i := s'.producers[i]]
            && s'.made == s.made + Draw(s, a) && s'.written == s.written + Enter(s, a)
  {
  }

  lemma HoldingChange(s: State, i: nat, amount: int, x: int)
    requires |s.transactions| > 0 && Enabled(s, Produce(i, amount))
    ensures |StepProducer(s, i, amount).producers| == |s.producers|
    ensures Holding(x)(StepProducer(s, i, amount).producers[i])
            == Holding(x)(s.producers[i]) + Is(Draw(s, Produce(i, amount)), x) - Is(Enter(s, Produce(i, amount)), x)
  {
  }

  lemma StepKeepsAmounts(s: State, a: Action, x: int)
    requires |s.transactions| > 0
    requires Occurrences(s.made, x) == Occurrences(s.written, x) + Total(Holding(x), s.producers)
    ensures var s' := Next(s, a);
            Occurrences(s'.made, x) == Occurrences(s'.written, x) + Total(Holding(x), s'.producers)
  {
    hide Occurrences, Holding, Total;
    if Enabled(s, a) {
      if a.Produce? {
        ProducerHistory(s, a.thread, a.amount);
        HoldingChange(s, a.thread, a.amount, x);
        OccurrencesPlus(s.made, Draw(s, a), x);
        OccurrencesPlus(s.written, Enter(s, a), x);
        TotalUpdate(Holding(x), s.producers, a.thread, StepProducer(s, a.thread, a.amount).producers[a.thread]);
        hide StepProducer, Enabled;
      } else {
        ConsumerFrame(s, a.thread);
        hide StepConsumer, Enabled;
      }
    }
  }

  /** Every amount drawn is in the hands of its producer or has been entered, as often as it was drawn. */
  lemma {:induction false} AmountsAccountedFor(cfg: Config, acts: seq<Action>, x: int)
    requires cfg.Valid()
    ensures var s := Run(Init(cfg), acts);
            Occurrences(s.made, x) == Occurrences(s.written, x) + Total(Holding(x), s.producers)
    decreases |acts|
  {
    if acts == [] {
      TotalConstant(Holding(x), Init(cfg).producers, 0);
    } else {
      hide Next, Init, Occurrences, Holding, Total;
      AmountsAccountedFor(cfg, acts[..|acts| - 1], x);
      StepKeepsAmounts(Run(Init(cfg), acts[..|acts| - 1]), acts[|acts| - 1], x);
    }
  }

  /** When all producers have exited, what has been entered is what was drawn, in some order. */
  lemma AllEntered(cfg: Config, acts: seq<Action>)
    requires cfg.Valid()
    requires forall i :: 0 <= i < |Run(Init(cfg), acts).producers| ==> Run(Init(cfg), acts).producers[i].pc.PDone?
    ensures Run(Init(cfg), acts).made == Drawn(Init(cfg), acts)
    ensures multiset(Run(Init(cfg), acts).written) == multiset(Drawn(Init(cfg), acts))
  {
    MadeIsDrawn(Init(cfg), acts);
    assert Init(cfg).made + Drawn(Init(cfg), acts) == Drawn(Init(cfg), acts);
    var s := Run(Init(cfg), acts);
    hide Run, Init;
    forall x ensures multiset(s.written)[x] == multiset(s.made)[x] {
      AmountsAccountedFor(cfg, acts, x);
      NothingHeld(s.producers, x);
      hide Holding, Total;
    }
  }

  lemma NothingHeld(ps: seq<Producer>, x: int)
    requires forall i :: 0 <= i < |ps| ==> ps[i].pc.PDone?
    ensures Total(Holding(x), ps) == 0
  {
    TotalConstant(Holding(x), ps, 0);
  }

  // ---------------------------------------------------------------- what is seen of a thread

  datatype Op =
    | Drew(v: int) | DownEmpty | UpEmpty | DownFull | UpFull | DownLock | UpLock | Entered(v: int) | Took(v: int)

  /** The lock of the thread that takes the step. */
  function LockOf(s: State, a: Action): nat
  {
    if a.Produce? then s.writeLock else ReadGuard(s)
  }

  /** What a step does to semaphores and history. */
  function Seen(s: State, s': State, a: Action): seq<Op>
  {
    if |s'.made| > |s.made| then [Drew(s'.made[|s'.made| - 1])]
    else if s'.empty != s.empty then [if s'.empty < s.empty then DownEmpty else UpEmpty]
    else if s'.full != s.full then [if s'.full < s.full then DownFull else UpFull]
    else if LockOf(s', a) != LockOf(s, a) then [if LockOf(s', a) < LockOf(s, a) then DownLock else UpLock]
    else if |s'.written| > |s.written| then [Entered(s'.written[|s'.written| - 1])]
    else if |s'.consumed| > |s.consumed| then [Took(s'.consumed[|s'.consumed| - 1])]
    else []
  }

  predicate ByProducer(a: Action, i: nat)
  {
    a.Produce? && a.thread == i
  }

  predicate ByConsumer(a: Action, j: nat)
  {
    a.Consume? && a.thread == j
  }

  /** Everything that is seen of the thread `mine` tells apart. */
  function Trace(s: State, acts: seq<Action>, mine: Action -> bool): seq<Op>
    requires |s.transactions| > 0
    decreases |acts|
  {
    if acts == [] then []
    else
      var front, a := acts[..|acts| - 1], acts[|acts| - 1];
      var before := Run(s, front);
      Trace(s, front, mine) + (if mine(a) then Seen(before, Next(before, a), a) else [])
  }

  /** One round of a producer with the amount `x`, and of a consumer that takes `x`. */
  function ProducerRound(x: int): seq<Op>
  {
    [Drew(x), DownEmpty, DownLock, Entered(x), UpLock, UpFull]
  }

  function ConsumerRound(x: int): seq<Op>
  {
    [DownFull, DownLock, Took(x), UpLock, UpEmpty]
  }

  function Rounds(round: int -> seq<Op>, xs: seq<int>): seq<Op>
  {
    if xs == [] then [] else Rounds(round, xs[..|xs| - 1]) + round(xs[|xs| - 1])
  }

  lemma {:induction false} RoundsLength(round: int -> seq<Op>, xs: seq<int>, len: nat)
    requires forall x :: |round(x)| == len
    ensures |Rounds(round, xs)| == len * |xs|
  {
    if xs != [] {
      RoundsLength(round, xs[..|xs| - 1], len);
    }
  }

  // ---------------------------------------------------------------- producers

  /** How much of its round a producer has been seen to do. */
  function Phase(pc: ProducerPc): nat
  {
    match pc
    case PTest => 0 case PMake => 0 case PWaitEmpty => 1 case PLock => 2
    case PLoadIndex => 3 case PStore => 3 case PLoadNext => 3 case PAdvance => 3
    case PUnlock => 4 case PPostFull => 5 case PCount => 6 case PDone => 0
  }

  predicate ProducerSeen(p: Producer, drawn: seq<int>, trace: seq<Op>)
  {
    if Phase(p.pc) == 0 then trace == Rounds(ProducerRound, drawn)
    else
      && drawn != [] && drawn[|drawn| - 1] == p.current
      && trace == Rounds(ProducerRound, drawn[..|drawn| - 1]) + ProducerRound(p.current)[..Phase(p.pc)]
  }

  lemma ProducerStepSeen(s: State, a: Action, i: nat, drawn: seq<int>, trace: seq<Op>)
    requires |s.transactions| > 0 && i < |s.producers| && Enabled(s, a) && ByProducer(a, i)
    requires ProducerSeen(s.producers[i], drawn, trace)
    ensures |Next(s, a).producers| == |s.producers|
    ensures ProducerSeen(Next(s, a).producers[i], drawn + Draw(s, a), trace + Seen(s, Next(s, a), a))
  {
    var p, p', s' := s.producers[i], Next(s, a).producers[i], Next(s, a);
    if p.pc.PMake? {
      assert (drawn + [a.amount])[..|drawn|] == drawn;
      assert ProducerRound(a.amount)[..1] == [Drew(a.amount)];
    } else if Phase(p.pc) == Phase(p'.pc) {
      assert Seen(s, s', a) == [] && drawn + [] == drawn && trace + [] == trace;
    } else if p.pc.PCount? {
      assert Seen(s, s', a) == [] && drawn + [] == drawn && trace + [] == trace;
      assert ProducerRound(p.current)[..6] == ProducerRound(p.current);
    } else {
      var k := Phase(p.pc);
      assert drawn + [] == drawn;
      assert Seen(s, s', a) == [ProducerRound(p.current)[k]];
      assert ProducerRound(p.current)[..k + 1] == ProducerRound(p.current)[..k] + [ProducerRound(p.current)[k]];
    }
  }

  /** A producer changes only in its own steps. */
  lemma OthersKeepProducer(s: State, a: Action, i: nat)
    requires |s.transactions| > 0 && i < |s.producers| && !(Enabled(s, a) && ByProducer(a, i))
    ensures |Next(s, a).producers| == |s.producers| && Next(s, a).producers[i] == s.producers[i]
    ensures ByProducer(a, i) ==> Seen(s, Next(s, a), a) == []
    ensures a.thread == i ==> Draw(s, a) == []
  {
    if Enabled(s, a) {
      hide Seen;
      if a.Produce? {
        ProducerHistory(s, a.thread, a.amount);
        hide StepProducer, Enabled;
      } else {
        ConsumerFrame(s, a.thread);
        hide StepConsumer, Enabled;
      }
    }
  }

  lemma {:induction false} ProducerTrace(cfg: Config, acts: seq<Action>, i: nat)
    requires cfg.Valid() && i < |cfg.producerOps|
    ensures var s := Run(Init(cfg), acts);
            && i < |s.producers|
            && ProducerSeen(s.producers[i], DrawnBy(Init(cfg), acts, i),
                            Trace(Init(cfg), acts, a => ByProducer(a, i)))
            && |DrawnBy(Init(cfg), acts, i)| + ToMake(s.producers[i]) == cfg.producerOps[i]
    decreases |acts|
  {
    if acts != [] {
      var front, a := acts[..|acts| - 1], acts[|acts| - 1];
      ProducerTrace(cfg, front, i);
      RunKeepsInvariant(cfg, front);
      var s := Run(Init(cfg), front);
      var drawn, trace := DrawnBy(Init(cfg), front, i), Trace(Init(cfg), front, a => ByProducer(a, i));
      assert ProducerOps(s.producers[i]);
      if Enabled(s, a) && ByProducer(a, i) {
        ProducerStepSeen(s, a, i, drawn, trace);
        ProducerDelta(s, i, a.amount);
        OneDrawn(s, a, i);
      } else {
        OthersKeepProducer(s, a, i);
      }
      hide Next, Seen, Draw, ProducerSeen, Invariant, Init, Enabled;
      assert trace + [] == trace && drawn + [] == drawn;
    }
  }

  lemma OneDrawn(s: State, a: Action, i: nat)
    requires |s.transactions| > 0 && i < |s.producers| && Enabled(s, a) && ByProducer(a, i)
    requires ProducerOps(s.producers[i])
    ensures |Next(s, a).producers| == |s.producers|
    ensures |Draw(s, a)| + ToMake(Next(s, a).producers[i]) == ToMake(s.producers[i])
  {
  }

  /**
   What is seen of a producer is its rounds, one for each amount it drew, in the order of the
   program text; it enters what it drew itself. It begins no round before it has finished
   the last one, and when it exits it has done exactly as many as it was created to.
   */
  lemma ProducerDoesItsRounds(cfg: Config, acts: seq<Action>, i: nat)
    requires cfg.Valid() && i < |cfg.producerOps|
    ensures var s := Run(Init(cfg), acts);
            var drawn, trace := DrawnBy(Init(cfg), acts, i), Trace(Init(cfg), acts, a => ByProducer(a, i));
            && |s.producers| == |cfg.producerOps|
            && trace <= Rounds(ProducerRound, drawn) && |trace| >= 6 * (|drawn| - 1)
            && |drawn| <= cfg.producerOps[i]
            && (s.producers[i].pc.PDone? ==>
                  trace == Rounds(ProducerRound, drawn) && |drawn| == cfg.producerOps[i])
  {
    ProducerTrace(cfg, acts, i);
    RunKeepsInvariant(cfg, acts);
    var s := Run(Init(cfg), acts);
    var drawn, trace := DrawnBy(Init(cfg), acts, i), Trace(Init(cfg), acts, a => ByProducer(a, i));
    assert ProducerOps(s.producers[i]);
    hide Run, Init, DrawnBy, Trace, Invariant;
    RoundsLength(ProducerRound, drawn, 6);
    if Phase(s.producers[i].pc) > 0 {
      RoundsLength(ProducerRound, drawn[..|drawn| - 1], 6);
    }
  }

  // ---------------------------------------------------------------- consumers

  function Take(s: State, a: Action): seq<int>
  {
    if a.Consume? && a.thread < |s.consumers| && s.consumers[a.thread].pc.CAdvance?
    then [s.consumers[a.thread].item] else []
  }

  /** The values taken by consumer `j`, in order. */
  function TakenBy(s: State, acts: seq<Action>, j: nat): seq<int>
    requires |s.transactions| > 0
    decreases |acts|
  {
    if acts == [] then []
    else
      var front, a := acts[..|acts| - 1], acts[|acts| - 1];
      TakenBy(s, front, j) + (if a.thread == j then Take(Run(s, front), a) else [])
  }

  function ConsumerPhase(pc: ConsumerPc): (k: nat)
    ensures k <= 5
  {
    match pc
    case CTest => 0 case CWaitFull => 0 case CLock => 1
    case CLoadIndex => 2 case CLoadItem => 2 case CLoadDeposit => 2 case CStoreDeposit => 2
    case CLoadNext => 2 case CAdvance => 2
    case CUnlock => 3 case CPostEmpty => 4 case CCount => 5 case CDone => 0
  }

  /** The rounds of the values taken, the last of them, or the next, up to its `k`-th operation. */
  predicate SeenUpTo(k: nat, taken: seq<int>, trace: seq<Op>)
    requires k <= 5
  {
    if k <= 2 then trace == Rounds(ConsumerRound, taken) + ConsumerRound(0)[..k]
    else
      && taken != []
      && trace == Rounds(ConsumerRound, taken[..|taken| - 1]) + ConsumerRound(taken[|taken| - 1])[..k]
  }

  lemma MoreSeen(k: nat, taken: seq<int>, trace: seq<Op>, op: Op)
    requires k < 5 && k != 2 && SeenUpTo(k, taken, trace) && op == ConsumerRound(0)[k]
    ensures SeenUpTo(k + 1, taken, trace + [op])
  {
    hide Rounds;
    var x := if k <= 2 then 0 else taken[|taken| - 1];
    assert ConsumerRound(x)[..k + 1] == ConsumerRound(x)[..k] + [op];
  }

  lemma TakeSeen(taken: seq<int>, trace: seq<Op>, x: int)
    requires SeenUpTo(2, taken, trace)
    ensures SeenUpTo(3, taken + [x], trace + [Took(x)])
  {
    hide Rounds;
    assert (taken + [x])[..|taken|] == taken;
    assert ConsumerRound(x)[..3] == ConsumerRound(0)[..2] + [Took(x)];
  }

  lemma RoundSeen(taken: seq<int>, trace: seq<Op>)
    requires SeenUpTo(5, taken, trace)
    ensures SeenUpTo(0, taken, trace)
  {
    var x := taken[|taken| - 1];
    assert ConsumerRound(x)[..5] == ConsumerRound(x);
    assert Rounds(ConsumerRound, taken) + ConsumerRound(0)[..0] == Rounds(ConsumerRound, taken);
  }

  predicate ConsumerSeen(c: Consumer, taken: seq<int>, trace: seq<Op>)
  {
    SeenUpTo(ConsumerPhase(c.pc), taken, trace)
  }

  /** Which of the five a step shows. */
  function ConsumerShows(c: Consumer): seq<Op>
  {
    match c.pc
    case CWaitFull => [DownFull] case CLock => [DownLock] case CAdvance => [Took(c.item)]
    case CUnlock => [UpLock] case CPostEmpty => [UpEmpty]
    case _ => []
  }

  lemma ConsumerStepShows(s: State, a: Action, j: nat)
    requires |s.transactions| > 0 && j < |s.consumers| && Enabled(s, a) && ByConsumer(a, j)
    ensures |Next(s, a).consumers| == |s.consumers|
    ensures Seen(s, Next(s, a), a) == ConsumerShows(s.consumers[j])
    ensures ConsumerPhase(Next(s, a).consumers[j].pc) ==
            if s.consumers[j].pc.CCount? then 0
            else ConsumerPhase(s.consumers[j].pc) + |ConsumerShows(s.consumers[j])|
  {
  }

  lemma ConsumerStepSeen(s: State, a: Action, j: nat, taken: seq<int>, trace: seq<Op>)
    requires |s.transactions| > 0 && j < |s.consumers| && Enabled(s, a) && ByConsumer(a, j)
    requires ConsumerSeen(s.consumers[j], taken, trace)
    ensures |Next(s, a).consumers| == |s.consumers|
    ensures ConsumerSeen(Next(s, a).consumers[j], taken + Take(s, a), trace + Seen(s, Next(s, a), a))
  {
    ConsumerStepShows(s, a, j);
    hide Next, Seen, Enabled, SeenUpTo;
    var c := s.consumers[j];
    if c.pc.CAdvance? {
      TakeSeen(taken, trace, c.item);
    } else {
      assert taken + [] == taken && trace + [] == trace;
      if c.pc.CCount? {
        RoundSeen(taken, trace);
      } else if ConsumerShows(c) != [] {
        MoreSeen(ConsumerPhase(c.pc), taken, trace, ConsumerShows(c)[0]);
      }
    }
  }

  lemma OthersKeepConsumer(s: State, a: Action, j: nat)
    requires |s.transactions| > 0 && j < |s.consumers| && !(Enabled(s, a) && ByConsumer(a, j))
    ensures |Next(s, a).consumers| == |s.consumers| && Next(s, a).consumers[j] == s.consumers[j]
    ensures ByConsumer(a, j) ==> Seen(s, Next(s, a), a) == []
    ensures a.thread == j ==> Take(s, a) == []
  {
    if Enabled(s, a) {
      hide Seen;
      if a.Produce? {
        ProducerHistory(s, a.thread, a.amount);
      } else {
        ConsumerStepShows(s, a, a.thread);
      }
    }
  }

  lemma OneTaken(s: State, a: Action, j: nat)
    requires |s.transactions| > 0 && j < |s.consumers| && Enabled(s, a) && ByConsumer(a, j)
    requires ConsumerOps(s.consumers[j])
    ensures |Next(s, a).consumers| == |s.consumers|
    ensures |Take(s, a)| + ToRead(Next(s, a).consumers[j]) == ToRead(s.consumers[j])
  {
  }

  lemma {:induction false} ConsumerTrace(cfg: Config, acts: seq<Action>, j: nat)
    requires cfg.Valid() && j < |cfg.consumerOps|
    ensures var s := Run(Init(cfg), acts);
            && j < |s.consumers|
            && ConsumerSeen(s.consumers[j], TakenBy(Init(cfg), acts, j),
                            Trace(Init(cfg), acts, a => ByConsumer(a, j)))
            && |TakenBy(Init(cfg), acts, j)| + ToRead(s.consumers[j]) == cfg.consumerOps[j]
    decreases |acts|
  {
    if acts != [] {
      var front, a := acts[..|acts| - 1], acts[|acts| - 1];
      ConsumerTrace(cfg, front, j);
      RunKeepsInvariant(cfg, front);
      var s := Run(Init(cfg), front);
      var taken, trace := TakenBy(Init(cfg), front, j), Trace(Init(cfg), front, a => ByConsumer(a, j));
      assert ConsumerOps(s.consumers[j]);
      if Enabled(s, a) && ByConsumer(a, j) {
        ConsumerStepSeen(s, a, j, taken, trace);
        OneTaken(s, a, j);
      } else {
        OthersKeepConsumer(s, a, j);
      }
      hide Next, Seen, Take, ConsumerSeen, Invariant, Init, Enabled;
      assert trace + [] == trace && taken + [] == taken;
    }
  }

  lemma ConsumerPrefix(k: nat, taken: seq<int>, trace: seq<Op>)
    requires k <= 5 && SeenUpTo(k, taken, trace)
    ensures trace <= Rounds(ConsumerRound, taken + [0]) && |trace| >= 5 * (|taken| - 1)
    ensures k == 0 ==> trace == Rounds(ConsumerRound, taken)
  {
    RoundsLength(ConsumerRound, taken, 5);
    assert (taken + [0])[..|taken|] == taken;
    assert Rounds(ConsumerRound, taken + [0]) == Rounds(ConsumerRound, taken) + ConsumerRound(0);
    if k <= 2 {
      hide Rounds;
      PrefixOfConcat(Rounds(ConsumerRound, taken), ConsumerRound(0), k);
    } else {
      var front := taken[..|taken| - 1];
      RoundsLength(ConsumerRound, front, 5);
      assert Rounds(ConsumerRound, taken) == Rounds(ConsumerRound, front) + ConsumerRound(taken[|taken| - 1]);
      hide Rounds;
      PrefixOfConcat(Rounds(ConsumerRound, front), ConsumerRound(taken[|taken| - 1]), k);
    }
  }

  /** The same for a consumer, with the values it takes: the next one is still open before it is taken. */
  lemma ConsumerDoesItsRounds(cfg: Config, acts: seq<Action>, j: nat)
    requires cfg.Valid() && j < |cfg.consumerOps|
    ensures var s := Run(Init(cfg), acts);
            var taken, trace := TakenBy(Init(cfg), acts, j), Trace(Init(cfg), acts, a => ByConsumer(a, j));
            && |s.consumers| == |cfg.consumerOps|
            && |taken| <= cfg.consumerOps[j]
            && trace <= Rounds(ConsumerRound, taken + [0]) && |trace| >= 5 * (|taken| - 1)
            && (s.consumers[j].pc.CDone? ==>
                  trace == Rounds(ConsumerRound, taken) && |taken| == cfg.consumerOps[j])
  {
    ConsumerTrace(cfg, acts, j);
    RunKeepsInvariant(cfg, acts);
    var c := Run(Init(cfg), acts).consumers[j];
    assert ConsumerOps(c);
    hide Run, Init, TakenBy, Trace, Rounds, SeenUpTo, Tokens, Locks, Slots, Locals, Balance, Ops;
    ConsumerPrefix(ConsumerPhase(c.pc), TakenBy(Init(cfg), acts, j), Trace(Init(cfg), acts, a => ByConsumer(a, j)));
  }

  // ---------------------------------------------------------------- waiting and writing

  /** A thread is held up by nothing but a semaphore at zero, and once it has exited. */
  lemma HeldUpOnlyBySemaphores(s: State, a: Action)
    requires !Enabled(s, a)
    ensures a.Produce? && a.thread < |s.producers| ==>
              var pc := s.producers[a.thread].pc;
              pc.PDone? || (pc.PWaitEmpty? && s.empty == 0) || (pc.PLock? && s.writeLock == 0)
    ensures a.Consume? && a.thread < |s.consumers| ==>
              var pc := s.consumers[a.thread].pc;
              pc.CDone? || (pc.CWaitFull? && s.full == 0) || (pc.CLock? && ReadGuard(s) == 0)
  {
  }

  /**
   A step that writes to the shared variables writes what the thread has in its own: it would
   write the same in any other state of the others.
   */
  lemma ProducerWritesItsOwn(s: State, t: State, a: Action)
    requires |s.transactions| == |t.transactions| > 0 && a.Produce? && Enabled(s, a) && Enabled(t, a)
    requires s.producers[a.thread] == t.producers[a.thread]
    ensures var s', t', p := Next(s, a), Next(t, a), s.producers[a.thread];
            && (s'.transactions != s.transactions ==>
                  && p.index < |t.transactions|
                  && t'.transactions == t.transactions[p.index := p.current]
                  && s'.transactions == s.transactions[p.index := p.current])
            && (s'.writeIndex != s.writeIndex ==> t'.writeIndex == s'.writeIndex)
            && s'.deposit == s.deposit && s'.readIndex == s.readIndex
  {
  }

  lemma ConsumerWritesItsOwn(s: State, t: State, a: Action)
    requires |s.transactions| == |t.transactions| > 0 && a.Consume? && Enabled(s, a) && Enabled(t, a)
    requires s.consumers[a.thread] == t.consumers[a.thread]
    ensures var s', t' := Next(s, a), Next(t, a);
            && (s'.deposit != s.deposit ==> t'.deposit == s'.deposit)
            && (s'.readIndex != s.readIndex ==> t'.readIndex == s'.readIndex)
            && s'.transactions == s.transactions && s'.writeIndex == s.writeIndex
  {
  }
}
