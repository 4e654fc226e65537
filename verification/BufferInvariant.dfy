/**
 What every step of every thread keeps. Semaphore values are tied to the numbers of
 threads at given places in their loops and to the history of the buffer.
 */
module BufferInvariant {
  import opened Sums
  import opened BoundedBuffer

  // Each function below says how much one thread contributes to an equation.

  /** Holds a unit of `empty` whose slot is not yet counted as written. */
  function TookEmpty(p: Producer): int { if 3 <= At(p.pc) <= 7 then 1 else 0 }

  /** Has moved `write_index` but not yet posted `full`. */
  function OwesFull(p: Producer): int { if 8 <= At(p.pc) <= 9 then 1 else 0 }

  function InWrite(p: Producer): int { if 4 <= At(p.pc) <= 8 then 1 else 0 }

  function ToWrite(p: Producer): int { p.numOps - (if 8 <= At(p.pc) <= 10 then 1 else 0) }

  /** Generated but not yet entered. */
  function Carried(p: Producer): int { if 2 <= At(p.pc) <= 7 then p.current else 0 }

  function ToMake(p: Producer): int { p.numOps - (if 2 <= At(p.pc) <= 10 then 1 else 0) }

  function TookFull(c: Consumer): int { if 2 <= CAt(c.pc) <= 8 then 1 else 0 }

  function OwesEmpty(c: Consumer): int { if 9 <= CAt(c.pc) <= 10 then 1 else 0 }

  function InRead(c: Consumer): int { if 3 <= CAt(c.pc) <= 9 then 1 else 0 }

  function ToRead(c: Consumer): int { c.numOps - (if 9 <= CAt(c.pc) <= 11 then 1 else 0) }

  /** Already added to `deposit` although `read_index` has not moved yet. */
  function Added(c: Consumer): int { if 7 <= CAt(c.pc) <= 8 then c.item else 0 }

  function Unread(s: State): int { |s.written| - |s.consumed| }

  ghost predicate Tokens(cfg: Config, s: State)
  {
    && s.empty + Total(TookEmpty, s.producers) + Unread(s) + Total(OwesEmpty, s.consumers) == cfg.size
    && s.full + Total(TookFull, s.consumers) + Total(OwesFull, s.producers) == Unread(s)
  }

  ghost predicate Locks(s: State)
  {
    if s.oneLock
    then s.writeLock + Total(InWrite, s.producers) + Total(InRead, s.consumers) == 1
    else
      && s.writeLock + Total(InWrite, s.producers) == 1
      && s.readLock + Total(InRead, s.consumers) == 1
  }

  ghost predicate Budget(cfg: Config, s: State)
  {
    && |s.producers| == |cfg.producerOps|
    && |s.consumers| == |cfg.consumerOps|
    && |s.written| + Total(ToWrite, s.producers) == Sum(cfg.producerOps)
    && |s.made| + Total(ToMake, s.producers) == Sum(cfg.producerOps)
    && |s.consumed| + Total(ToRead, s.consumers) == Sum(cfg.consumerOps)
  }

  /** A thread inside its loop has operations left; one that has exited has none. */
  ghost predicate ProducerOps(p: Producer)
  {
    if p.pc.PDone? then p.numOps == 0 else p.pc.PTest? || p.numOps > 0
  }

  ghost predicate ConsumerOps(c: Consumer)
  {
    if c.pc.CDone? then c.numOps == 0 else c.pc.CTest? || c.numOps > 0
  }

  ghost predicate Ops(s: State)
  {
    && (forall i :: 0 <= i < |s.producers| ==> ProducerOps(s.producers[i]))
    && (forall j :: 0 <= j < |s.consumers| ==> ConsumerOps(s.consumers[j]))
  }

  /** The slots between the two indices hold exactly the unread values, in order. */
  ghost predicate Slots(cfg: Config, s: State)
  {
    && 0 < cfg.size == |s.transactions|
    && s.writeIndex == |s.written| % cfg.size
    && s.readIndex == |s.consumed| % cfg.size
    && |s.consumed| <= |s.written|
    && s.consumed == s.written[..|s.consumed|]
    && (forall k :: |s.consumed| <= k < |s.written| ==> s.transactions[k % cfg.size] == s.written[k])
  }

  ghost predicate ProducerLocals(s: State, p: Producer)
  {
    && (p.pc.PStore? || p.pc.PAdvance? ==> p.index == s.writeIndex)
    && (p.pc.PLoadNext? || p.pc.PAdvance? ==>
          s.writeIndex < |s.transactions| && s.transactions[s.writeIndex] == p.current)
  }

  ghost predicate ConsumerLocals(s: State, c: Consumer)
  {
    && (c.pc.CLoadItem? || c.pc.CAdvance? ==> c.index == s.readIndex)
    && (5 <= CAt(c.pc) <= 8 ==> |s.consumed| < |s.written| && c.item == s.written[|s.consumed|])
    && (c.pc.CStoreDeposit? ==> c.balance == s.deposit)
  }

  ghost predicate Locals(s: State)
  {
    && (forall i :: 0 <= i < |s.producers| ==> ProducerLocals(s, s.producers[i]))
    && (forall j :: 0 <= j < |s.consumers| ==> ConsumerLocals(s, s.consumers[j]))
  }

  ghost predicate Balance(cfg: Config, s: State)
  {
    && s.deposit == cfg.initial + Sum(s.consumed) + Total(Added, s.consumers)
    && Sum(s.made) == Sum(s.written) + Total(Carried, s.producers)
  }

  ghost predicate Invariant(cfg: Config, s: State)
  {
    && cfg.Valid() && s.oneLock == cfg.oneLock
    && Tokens(cfg, s) && Locks(s) && Budget(cfg, s) && Ops(s)
    && Slots(cfg, s) && Locals(s) && Balance(cfg, s)
  }

  lemma InitHolds(cfg: Config)
    requires cfg.Valid()
    ensures Invariant(cfg, Init(cfg))
  {
    var s := Init(cfg);
    assert Weights(ToWrite, s.producers) == cfg.producerOps;
    assert Weights(ToMake, s.producers) == cfg.producerOps;
    assert Weights(ToRead, s.consumers) == cfg.consumerOps;
    TotalConstant(TookEmpty, s.producers, 0);
    TotalConstant(OwesFull, s.producers, 0);
    TotalConstant(InWrite, s.producers, 0);
    TotalConstant(Carried, s.producers, 0);
    TotalConstant(TookFull, s.consumers, 0);
    TotalConstant(OwesEmpty, s.consumers, 0);
    TotalConstant(InRead, s.consumers, 0);
    TotalConstant(Added, s.consumers, 0);
  }

  // How one step changes each total.

  lemma ProducerTotals(ps: seq<Producer>, i: nat, p: Producer)
    requires i < |ps|
    ensures var ps' := ps[i := p];
            && Total(TookEmpty, ps') == Total(TookEmpty, ps) - TookEmpty(ps[i]) + TookEmpty(p)
            && Total(OwesFull, ps') == Total(OwesFull, ps) - OwesFull(ps[i]) + OwesFull(p)
            && Total(InWrite, ps') == Total(InWrite, ps) - InWrite(ps[i]) + InWrite(p)
            && Total(ToWrite, ps') == Total(ToWrite, ps) - ToWrite(ps[i]) + ToWrite(p)
            && Total(ToMake, ps') == Total(ToMake, ps) - ToMake(ps[i]) + ToMake(p)
            && Total(Carried, ps') == Total(Carried, ps) - Carried(ps[i]) + Carried(p)
  {
    TotalUpdate(TookEmpty, ps, i, p);
    TotalUpdate(OwesFull, ps, i, p);
    TotalUpdate(InWrite, ps, i, p);
    TotalUpdate(ToWrite, ps, i, p);
    TotalUpdate(ToMake, ps, i, p);
    TotalUpdate(Carried, ps, i, p);
  }

  lemma ConsumerTotals(cs: seq<Consumer>, j: nat, c: Consumer)
    requires j < |cs|
    ensures var cs' := cs[j := c];
            && Total(TookFull, cs') == Total(TookFull, cs) - TookFull(cs[j]) + TookFull(c)
            && Total(OwesEmpty, cs') == Total(OwesEmpty, cs) - OwesEmpty(cs[j]) + OwesEmpty(c)
            && Total(InRead, cs') == Total(InRead, cs) - InRead(cs[j]) + InRead(c)
            && Total(ToRead, cs') == Total(ToRead, cs) - ToRead(cs[j]) + ToRead(c)
            && Total(Added, cs') == Total(Added, cs) - Added(cs[j]) + Added(c)
  {
    TotalUpdate(TookFull, cs, j, c);
    TotalUpdate(OwesEmpty, cs, j, c);
    TotalUpdate(InRead, cs, j, c);
    TotalUpdate(ToRead, cs, j, c);
    TotalUpdate(Added, cs, j, c);
  }

  /** No two producers, and no two consumers, are inside their critical sections. */
  lemma Exclusion(s: State)
    requires Locks(s)
    ensures forall i, i' :: 0 <= i < i' < |s.producers| ==>
              InWrite(s.producers[i]) == 0 || InWrite(s.producers[i']) == 0
    ensures forall j, j' :: 0 <= j < j' < |s.consumers| ==>
              InRead(s.consumers[j]) == 0 || InRead(s.consumers[j']) == 0
  {
    TotalNonNegative(InWrite, s.producers);
    TotalNonNegative(InRead, s.consumers);
    forall i, i' | 0 <= i < i' < |s.producers|
      ensures InWrite(s.producers[i]) == 0 || InWrite(s.producers[i']) == 0
    {
      TotalPair(InWrite, s.producers, i, i');
    }
    forall j, j' | 0 <= j < j' < |s.consumers|
      ensures InRead(s.consumers[j]) == 0 || InRead(s.consumers[j']) == 0
    {
      TotalPair(InRead, s.consumers, j, j');
    }
  }

  /** What the semaphores alone say about a producer that may touch a slot. */
  lemma RoomToWrite(cfg: Config, s: State, i: nat)
    requires Tokens(cfg, s) && i < |s.producers| && TookEmpty(s.producers[i]) == 1
    ensures Unread(s) < cfg.size
  {
    TotalTerm(TookEmpty, s.producers, i);
    TotalNonNegative(OwesEmpty, s.consumers);
  }

  lemma SomethingToRead(cfg: Config, s: State, j: nat)
    requires Tokens(cfg, s) && j < |s.consumers| && TookFull(s.consumers[j]) == 1
    ensures 0 < Unread(s)
  {
    TotalTerm(TookFull, s.consumers, j);
    TotalNonNegative(OwesFull, s.producers);
  }
}
