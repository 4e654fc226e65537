/** Every step of every thread keeps the invariant. */
module BufferSteps {
  import opened Sums
  import opened Modular
  import opened BoundedBuffer
  import opened BufferInvariant

  /** What one producer step does to the shared counters, in terms of its own weights. */
  lemma ProducerDelta(s: State, i: nat, amount: int)
    requires Enabled(s, Produce(i, amount)) && |s.transactions| > 0
    requires s.producers[i].pc.PCount? ==> s.producers[i].numOps > 0
    ensures var s', p := StepProducer(s, i, amount), s.producers[i];
            && |s'.producers| == |s.producers|
            && s'.producers == s.producers[i := s'.producers[i]]
            && var p' := s'.producers[i];
            && s'.oneLock == s.oneLock && s'.readLock == s.readLock
            && s'.consumers == s.consumers && s'.consumed == s.consumed
            && s'.readIndex == s.readIndex && s'.deposit == s.deposit
            && s'.empty + TookEmpty(p') + |s'.written| == s.empty + TookEmpty(p) + |s.written|
            && s'.full + OwesFull(p') - |s'.written| == s.full + OwesFull(p) - |s.written|
            && s'.writeLock + InWrite(p') == s.writeLock + InWrite(p)
            && |s'.written| + ToWrite(p') == |s.written| + ToWrite(p)
            && |s'.made| + ToMake(p') == |s.made| + ToMake(p)
  {
    var s', p := StepProducer(s, i, amount), s.producers[i];
    var p' := s'.producers[i];
  }

  lemma ConsumerDelta(s: State, j: nat)
    requires Enabled(s, Consume(j)) && |s.transactions| > 0
    requires s.consumers[j].pc.CCount? ==> s.consumers[j].numOps > 0
    ensures var s', c := StepConsumer(s, j), s.consumers[j];
            && |s'.consumers| == |s.consumers|
            && s'.consumers == s.consumers[j := s'.consumers[j]]
            && var c' := s'.consumers[j];
            && s'.oneLock == s.oneLock
            && s'.producers == s.producers && s'.written == s.written && s'.made == s.made
            && s'.writeIndex == s.writeIndex && s'.transactions == s.transactions
            && s'.empty + OwesEmpty(c') - |s'.consumed| == s.empty + OwesEmpty(c) - |s.consumed|
            && s'.full + TookFull(c') + |s'.consumed| == s.full + TookFull(c) + |s.consumed|
            && ReadGuard(s') + InRead(c') == ReadGuard(s) + InRead(c)
            && (if s.oneLock then s'.readLock == s.readLock else s'.writeLock == s.writeLock)
            && |s'.consumed| + ToRead(c') == |s.consumed| + ToRead(c)
  {
  }

  lemma ProducerKeepsCounts(cfg: Config, s: State, i: nat, amount: int)
    requires Enabled(s, Produce(i, amount)) && |s.transactions| > 0
    requires Tokens(cfg, s) && Locks(s) && Budget(cfg, s) && Ops(s)
    ensures var s' := StepProducer(s, i, amount);
            Tokens(cfg, s') && Locks(s') && Budget(cfg, s')
  {
    assert ProducerOps(s.producers[i]);
    ProducerDelta(s, i, amount);
    ProducerTotals(s.producers, i, StepProducer(s, i, amount).producers[i]);
  }

  lemma ConsumerKeepsCounts(cfg: Config, s: State, j: nat)
    requires Enabled(s, Consume(j)) && |s.transactions| > 0
    requires Tokens(cfg, s) && Locks(s) && Budget(cfg, s) && Ops(s)
    ensures var s' := StepConsumer(s, j);
            Tokens(cfg, s') && Locks(s') && Budget(cfg, s')
  {
    assert ConsumerOps(s.consumers[j]);
    ConsumerDelta(s, j);
    ConsumerTotals(s.consumers, j, StepConsumer(s, j).consumers[j]);
  }

  lemma StepKeepsOps(s: State, a: Action)
    requires Ops(s) && |s.transactions| > 0
    ensures Ops(Next(s, a))
  {
    if Enabled(s, a) {
      match a {
        case Produce(i, amount) =>
          assert ProducerOps(s.producers[i]);
          ProducerKeepsOps(s, i, amount);
          hide StepProducer, Enabled, ProducerOps, ConsumerOps;
        case Consume(j) =>
          assert ConsumerOps(s.consumers[j]);
          ConsumerKeepsOps(s, j);
          hide StepConsumer, Enabled, ProducerOps, ConsumerOps;
      }
    }
  }

  lemma ProducerKeepsOps(s: State, i: nat, amount: int)
    requires Enabled(s, Produce(i, amount)) && |s.transactions| > 0 && ProducerOps(s.producers[i])
    ensures var s' := StepProducer(s, i, amount);
            && s'.consumers == s.consumers && |s'.producers| == |s.producers|
            && s'.producers == s.producers[i := s'.producers[i]] && ProducerOps(s'.producers[i])
  {
  }

  lemma ConsumerKeepsOps(s: State, j: nat)
    requires Enabled(s, Consume(j)) && |s.transactions| > 0 && ConsumerOps(s.consumers[j])
    ensures var s' := StepConsumer(s, j);
            && s'.producers == s.producers && |s'.consumers| == |s.consumers|
            && s'.consumers == s.consumers[j := s'.consumers[j]] && ConsumerOps(s'.consumers[j])
  {
  }

  /** Storing the item: the slot belongs to no unread value. */
  lemma StoreKeepsSlots(cfg: Config, s: State, i: nat, amount: int)
    requires Enabled(s, Produce(i, amount)) && s.producers[i].pc.PStore?
    requires Tokens(cfg, s) && Slots(cfg, s) && ProducerLocals(s, s.producers[i])
    ensures var s', p := StepProducer(s, i, amount), s.producers[i];
            && Slots(cfg, s')
            && s'.transactions[s.writeIndex] == p.current
            && s'.transactions == s.transactions[s.writeIndex := p.current]
  {
    RoomToWrite(cfg, s, i);
    var w := |s.written|;
    forall k | |s.consumed| <= k < w ensures k % cfg.size != s.writeIndex {
      DistinctSlots(k, w, cfg.size);
    }
  }

  /** Moving `write_index` turns the stored item into the youngest unread value. */
  lemma AdvanceKeepsSlots(cfg: Config, s: State, i: nat, amount: int)
    requires Enabled(s, Produce(i, amount)) && s.producers[i].pc.PAdvance?
    requires Slots(cfg, s) && ProducerLocals(s, s.producers[i])
    ensures Slots(cfg, StepProducer(s, i, amount))
  {
    NextSlot(|s.written|, cfg.size);
  }

  lemma OtherProducerStepsKeepSlots(s: State, i: nat, amount: int)
    requires Enabled(s, Produce(i, amount)) && |s.transactions| > 0
    ensures var s', pc := StepProducer(s, i, amount), s.producers[i].pc;
            && (pc.PStore? || s'.transactions == s.transactions)
            && (pc.PAdvance? || (s'.writeIndex == s.writeIndex && s'.written == s.written))
            && s'.consumers == s.consumers && s'.consumed == s.consumed
            && s'.readIndex == s.readIndex && s'.deposit == s.deposit
            && s'.producers == s.producers[i := s'.producers[i]]
  {
  }

  lemma ProducerKeepsSlots(cfg: Config, s: State, i: nat, amount: int)
    requires Enabled(s, Produce(i, amount))
    requires Tokens(cfg, s) && Slots(cfg, s) && ProducerLocals(s, s.producers[i])
    ensures Slots(cfg, StepProducer(s, i, amount))
  {
    if s.producers[i].pc.PStore? {
      StoreKeepsSlots(cfg, s, i, amount);
    } else if s.producers[i].pc.PAdvance? {
      AdvanceKeepsSlots(cfg, s, i, amount);
    } else {
      OtherProducerStepsKeepSlots(s, i, amount);
    }
  }

  /** The stepping producer itself. */
  lemma ProducerKeepsOwnLocals(cfg: Config, s: State, i: nat, amount: int)
    requires Enabled(s, Produce(i, amount))
    requires Tokens(cfg, s) && Slots(cfg, s) && ProducerLocals(s, s.producers[i])
    ensures var s' := StepProducer(s, i, amount);
            ProducerLocals(s', s'.producers[i])
  {
    if s.producers[i].pc.PStore? {
      StoreKeepsSlots(cfg, s, i, amount);
    }
  }

  /** Everyone else, thanks to mutual exclusion among the producers. */
  lemma ProducerKeepsLocals(cfg: Config, s: State, i: nat, amount: int)
    requires Enabled(s, Produce(i, amount))
    requires Tokens(cfg, s) && Locks(s) && Slots(cfg, s) && Locals(s)
    ensures Locals(StepProducer(s, i, amount))
  {
    Exclusion(s);
    OtherProducerStepsKeepSlots(s, i, amount);
    var s' := StepProducer(s, i, amount);
    forall m | 0 <= m < |s.producers| ensures ProducerLocals(s', s'.producers[m]) {
      assert ProducerLocals(s, s.producers[m]);
      if m == i {
        ProducerKeepsOwnLocals(cfg, s, i, amount);
      } else {
        assert InWrite(s.producers[i]) == 0 || InWrite(s.producers[m]) == 0;
      }
    }
    forall j | 0 <= j < |s.consumers| ensures ConsumerLocals(s', s'.consumers[j]) {
      assert ConsumerLocals(s, s.consumers[j]);
    }
  }

  lemma ConsumerFrame(s: State, j: nat)
    requires Enabled(s, Consume(j)) && |s.transactions| > 0
    ensures var s', pc := StepConsumer(s, j), s.consumers[j].pc;
            && s'.transactions == s.transactions && s'.written == s.written
            && s'.writeIndex == s.writeIndex && s'.producers == s.producers
            && (pc.CAdvance? || (s'.readIndex == s.readIndex && s'.consumed == s.consumed))
            && (pc.CStoreDeposit? || s'.deposit == s.deposit)
            && s'.consumers == s.consumers[j := s'.consumers[j]]
  {
  }

  lemma ConsumerKeepsSlots(cfg: Config, s: State, j: nat)
    requires Enabled(s, Consume(j))
    requires Tokens(cfg, s) && Slots(cfg, s) && ConsumerLocals(s, s.consumers[j])
    ensures Slots(cfg, StepConsumer(s, j))
  {
    ConsumerFrame(s, j);
    if s.consumers[j].pc.CAdvance? {
      var r := |s.consumed|;
      NextSlot(r, cfg.size);
      assert s.written[..r + 1] == s.written[..r] + [s.written[r]];
    }
  }

  lemma ConsumerKeepsOwnLocals(cfg: Config, s: State, j: nat)
    requires Enabled(s, Consume(j))
    requires Tokens(cfg, s) && Slots(cfg, s) && ConsumerLocals(s, s.consumers[j])
    ensures var s' := StepConsumer(s, j);
            ConsumerLocals(s', s'.consumers[j])
  {
    if s.consumers[j].pc.CLoadItem? {
      SomethingToRead(cfg, s, j);
    }
  }

  lemma ConsumerKeepsLocals(cfg: Config, s: State, j: nat)
    requires Enabled(s, Consume(j))
    requires Tokens(cfg, s) && Locks(s) && Slots(cfg, s) && Locals(s)
    ensures Locals(StepConsumer(s, j))
  {
    Exclusion(s);
    ConsumerFrame(s, j);
    var s' := StepConsumer(s, j);
    forall m | 0 <= m < |s.consumers| ensures ConsumerLocals(s', s'.consumers[m]) {
      assert ConsumerLocals(s, s.consumers[m]);
      if m == j {
        ConsumerKeepsOwnLocals(cfg, s, j);
      } else {
        assert InRead(s.consumers[j]) == 0 || InRead(s.consumers[m]) == 0;
      }
    }
    forall m | 0 <= m < |s.producers| ensures ProducerLocals(s', s'.producers[m]) {
      assert ProducerLocals(s, s.producers[m]);
    }
  }

  lemma ProducerAmounts(s: State, i: nat, amount: int)
    requires Enabled(s, Produce(i, amount)) && |s.transactions| > 0
    ensures var s', p := StepProducer(s, i, amount), s.producers[i];
            Sum(s'.made) - Sum(s'.written) - Carried(s'.producers[i])
            == Sum(s.made) - Sum(s.written) - Carried(p)
  {
    if s.producers[i].pc.PMake? {
      SumSnoc(s.made, amount);
    } else if s.producers[i].pc.PAdvance? {
      SumSnoc(s.written, s.producers[i].current);
    }
  }

  lemma ProducerKeepsBalance(cfg: Config, s: State, i: nat, amount: int)
    requires Enabled(s, Produce(i, amount)) && |s.transactions| > 0 && Balance(cfg, s)
    ensures Balance(cfg, StepProducer(s, i, amount))
  {
    OtherProducerStepsKeepSlots(s, i, amount);
    ProducerAmounts(s, i, amount);
    TotalUpdate(Carried, s.producers, i, StepProducer(s, i, amount).producers[i]);
  }

  /** The split `deposit +=` loses nothing: nobody else touches `deposit` meanwhile. */
  lemma ConsumerKeepsBalance(cfg: Config, s: State, j: nat)
    requires Enabled(s, Consume(j)) && |s.transactions| > 0 && Balance(cfg, s)
    requires ConsumerLocals(s, s.consumers[j])
    ensures Balance(cfg, StepConsumer(s, j))
  {
    ConsumerFrame(s, j);
    TotalUpdate(Added, s.consumers, j, StepConsumer(s, j).consumers[j]);
    SumSnoc(s.consumed, s.consumers[j].item);
  }

  lemma StepKeepsInvariant(cfg: Config, s: State, a: Action)
    requires Invariant(cfg, s)
    ensures Invariant(cfg, Next(s, a))
  {
    if Enabled(s, a) {
      StepKeepsOps(s, a);
      match a {
        case Produce(i, amount) =>
          assert ProducerLocals(s, s.producers[i]);
          ProducerKeepsCounts(cfg, s, i, amount);
          ProducerKeepsSlots(cfg, s, i, amount);
          ProducerKeepsLocals(cfg, s, i, amount);
          ProducerKeepsBalance(cfg, s, i, amount);
          assert s.producers[i].pc.PCount? ==> ProducerOps(s.producers[i]);
          ProducerDelta(s, i, amount);
        case Consume(j) =>
          assert ConsumerLocals(s, s.consumers[j]);
          ConsumerKeepsCounts(cfg, s, j);
          ConsumerKeepsSlots(cfg, s, j);
          ConsumerKeepsLocals(cfg, s, j);
          ConsumerKeepsBalance(cfg, s, j);
          assert s.consumers[j].pc.CCount? ==> ConsumerOps(s.consumers[j]);
          ConsumerDelta(s, j);
      }
    }
  }

  /** The invariant holds after every interleaving. */
  lemma {:induction false} RunKeepsInvariant(cfg: Config, acts: seq<Action>)
    requires cfg.Valid()
    ensures Invariant(cfg, Run(Init(cfg), acts))
    decreases |acts|
  {
    if acts == [] {
      InitHolds(cfg);
    } else {
      RunKeepsInvariant(cfg, acts[..|acts| - 1]);
      StepKeepsInvariant(cfg, Run(Init(cfg), acts[..|acts| - 1]), acts[|acts| - 1]);
    }
  }
}
