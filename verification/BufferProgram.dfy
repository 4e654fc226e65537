/**
 The bounded buffer programs as they run: shared variables updated in place, one access
 or semaphore operation at a time, by whichever thread the scheduler picks.
 */
module BufferProgram {
  import opened BoundedBuffer
  import opened BufferInvariant
  import opened BufferSteps

  class Program {
    ghost const config: Config
    const oneLock: bool
    const transactions: array<int>
    const producers: array<Producer>
    const consumers: array<Consumer>
    var readIndex: nat
    var writeIndex: nat
    var deposit: int
    var empty: nat
    var full: nat
    var writeLock: nat
    var readLock: nat
    ghost var made: seq<int>
    ghost var written: seq<int>
    ghost var consumed: seq<int>

    ghost function Abs(): State
      reads this, transactions, producers, consumers
    {
      State(oneLock, transactions[..], readIndex, writeIndex, deposit, empty, full, writeLock, readLock,
            producers[..], consumers[..], made, written, consumed)
    }

    ghost predicate Valid()
      reads this, transactions, producers, consumers
    {
      Invariant(config, Abs())
    }

    /** The initialisations of `main` and the creation of the threads. */
    constructor (ghost cfg: Config, oneLock: bool, size: nat, initial: int,
                 producerOps: seq<nat>, consumerOps: seq<nat>)
      requires size >= 1 && cfg == Config(oneLock, size, initial, producerOps, consumerOps)
      ensures Valid() && config == cfg && Abs() == Init(cfg)
      ensures fresh(transactions) && fresh(producers) && fresh(consumers)
    {
      config := cfg;
      this.oneLock := oneLock;
      transactions := new int[size](i => 0);
      producers := new Producer[|producerOps|](
        i requires 0 <= i < |producerOps| => Producer(PTest, producerOps[i], 0, 0));
      consumers := new Consumer[|consumerOps|](
        i requires 0 <= i < |consumerOps| => Consumer(CTest, consumerOps[i], 0, 0, 0));
      readIndex, writeIndex, deposit := 0, 0, initial;
      empty, full, writeLock, readLock := size, 0, 1, 1;
      made, written, consumed := [], [], [];
      new;
      assert Abs() == Init(cfg);
      InitHolds(cfg);
    }

    /** The next step of producer `i`; `amount` is what its next transaction would be. */
    method ProducerStep(i: nat, amount: int) returns (moved: bool)
      requires Valid() && i < producers.Length
      modifies this, transactions, producers
      ensures Valid() && Abs() == Next(old(Abs()), Produce(i, amount))
      ensures moved == Enabled(old(Abs()), Produce(i, amount))
    {
      var pc := producers[i].pc;
      assert ProducerLocals(Abs(), Abs().producers[i]) && ProducerOps(Abs().producers[i]);
      assert pc.PStore? ==> producers[i].index < transactions.Length;
      StepKeepsInvariant(config, Abs(), Produce(i, amount));
      hide Invariant, ProducerLocals, ProducerOps;
      moved := true;
      if pc.PWaitEmpty? || pc.PLock? {
        moved := ProducerWait(i, amount);
      } else if pc.PLoadIndex? || pc.PStore? || pc.PLoadNext? || pc.PAdvance? {
        ProducerCritical(i, amount);
      } else if pc.PUnlock? || pc.PPostFull? {
        ProducerPost(i, amount);
      } else if pc.PDone? {
        moved := false;
      } else {
        ProducerLoop(i, amount);
      }
    }

    /** `while (numOps > 0)`, the production of the item, and `numOps--`. */
    method ProducerLoop(i: nat, amount: int)
      requires 0 < transactions.Length && i < producers.Length
      requires var p := producers[i]; p.pc.PTest? || p.pc.PMake? || (p.pc.PCount? && p.numOps > 0)
      modifies this`made, producers
      ensures Abs() == Next(old(Abs()), Produce(i, amount))
    {
      var p := producers[i];
      if p.pc.PTest? {
        producers[i] := p.(pc := if p.numOps > 0 then PMake else PDone);
      } else if p.pc.PMake? {
        producers[i] := p.(pc := PWaitEmpty, current := amount);
        made := made + [amount];
      } else {
        producers[i] := p.(pc := PTest, numOps := p.numOps - 1);
      }
    }

    /** `sem_wait(e)` and `sem_wait(write_s)`. */
    method ProducerWait(i: nat, amount: int) returns (moved: bool)
      requires 0 < transactions.Length && i < producers.Length
      requires producers[i].pc.PWaitEmpty? || producers[i].pc.PLock?
      modifies this`empty, this`writeLock, producers
      ensures Abs() == Next(old(Abs()), Produce(i, amount))
      ensures moved == Enabled(old(Abs()), Produce(i, amount))
    {
      var p := producers[i];
      if p.pc.PWaitEmpty? {
        moved := empty > 0;
        if moved {
          empty := empty - 1;
          producers[i] := p.(pc := PLock);
        }
      } else {
        moved := writeLock > 0;
        if moved {
          writeLock := writeLock - 1;
          producers[i] := p.(pc := PLoadIndex);
        }
      }
    }

    /** Storing the item and moving `write_index`. */
    method ProducerCritical(i: nat, amount: int)
      requires 0 < transactions.Length && i < producers.Length
      requires var p := producers[i];
               p.pc.PLoadIndex? || (p.pc.PStore? && p.index < transactions.Length) ||
               p.pc.PLoadNext? || p.pc.PAdvance?
      modifies this`writeIndex, this`written, transactions, producers
      ensures Abs() == Next(old(Abs()), Produce(i, amount))
    {
      var p := producers[i];
      if p.pc.PLoadIndex? {
        producers[i] := p.(pc := PStore, index := writeIndex);
      } else if p.pc.PStore? {
        transactions[p.index] := p.current;
        producers[i] := p.(pc := PLoadNext);
      } else if p.pc.PLoadNext? {
        producers[i] := p.(pc := PAdvance, index := writeIndex);
      } else {
        writeIndex := (p.index + 1) % transactions.Length;
        written := written + [p.current];
        producers[i] := p.(pc := PUnlock);
      }
    }

    /** `sem_post(write_s)` and `sem_post(n)`. */
    method ProducerPost(i: nat, amount: int)
      requires 0 < transactions.Length && i < producers.Length
      requires producers[i].pc.PUnlock? || producers[i].pc.PPostFull?
      modifies this`full, this`writeLock, producers
      ensures Abs() == Next(old(Abs()), Produce(i, amount))
    {
      var p := producers[i];
      if p.pc.PUnlock? {
        writeLock := writeLock + 1;
        producers[i] := p.(pc := PPostFull);
      } else {
        full := full + 1;
        producers[i] := p.(pc := PCount);
      }
    }

    /** The next step of consumer `j`. */
    method ConsumerStep(j: nat) returns (moved: bool)
      requires Valid() && j < consumers.Length
      modifies this, consumers
      ensures Valid() && Abs() == Next(old(Abs()), Consume(j))
      ensures moved == Enabled(old(Abs()), Consume(j))
    {
      var pc := consumers[j].pc;
      assert ConsumerLocals(Abs(), Abs().consumers[j]) && ConsumerOps(Abs().consumers[j]);
      assert pc.CLoadItem? ==> consumers[j].index < transactions.Length;
      StepKeepsInvariant(config, Abs(), Consume(j));
      hide Invariant, ConsumerLocals, ConsumerOps;
      moved := true;
      if pc.CTest? || pc.CCount? {
        ConsumerLoop(j);
      } else if pc.CWaitFull? || pc.CLock? {
        moved := ConsumerWait(j);
      } else if pc.CLoadIndex? || pc.CLoadItem? || pc.CLoadDeposit? || pc.CStoreDeposit? {
        ConsumerDeposit(j);
      } else if pc.CLoadNext? || pc.CAdvance? {
        ConsumerAdvance(j);
      } else if pc.CDone? {
        moved := false;
      } else {
        ConsumerPost(j);
      }
    }

    /** `while (numOps > 0)` and `numOps--`. */
    method ConsumerLoop(j: nat)
      requires 0 < transactions.Length && j < consumers.Length
      requires var c := consumers[j]; c.pc.CTest? || (c.pc.CCount? && c.numOps > 0)
      modifies consumers
      ensures Abs() == Next(old(Abs()), Consume(j))
    {
      var c := consumers[j];
      if c.pc.CTest? {
        consumers[j] := c.(pc := if c.numOps > 0 then CWaitFull else CDone);
      } else {
        consumers[j] := c.(pc := CTest, numOps := c.numOps - 1);
      }
    }

    /** `sem_wait(n)` and `sem_wait(read_s)`. */
    method ConsumerWait(j: nat) returns (moved: bool)
      requires 0 < transactions.Length && j < consumers.Length
      requires consumers[j].pc.CWaitFull? || consumers[j].pc.CLock?
      modifies this`full, this`writeLock, this`readLock, consumers
      ensures Abs() == Next(old(Abs()), Consume(j))
      ensures moved == Enabled(old(Abs()), Consume(j))
    {
      var c := consumers[j];
      if c.pc.CWaitFull? {
        moved := full > 0;
        if moved {
          full := full - 1;
          consumers[j] := c.(pc := CLock);
        }
      } else if oneLock {
        moved := writeLock > 0;
        if moved {
          writeLock := writeLock - 1;
          consumers[j] := c.(pc := CLoadIndex);
        }
      } else {
        moved := readLock > 0;
        if moved {
          readLock := readLock - 1;
          consumers[j] := c.(pc := CLoadIndex);
        }
      }
    }

    /** `deposit += transactions[read_index]`, access by access. */
    method ConsumerDeposit(j: nat)
      requires 0 < transactions.Length && j < consumers.Length
      requires var c := consumers[j];
               c.pc.CLoadIndex? || (c.pc.CLoadItem? && c.index < transactions.Length) ||
               c.pc.CLoadDeposit? || c.pc.CStoreDeposit?
      modifies this`deposit, consumers
      ensures Abs() == Next(old(Abs()), Consume(j))
    {
      var c := consumers[j];
      if c.pc.CLoadIndex? {
        consumers[j] := c.(pc := CLoadItem, index := readIndex);
      } else if c.pc.CLoadItem? {
        consumers[j] := c.(pc := CLoadDeposit, item := transactions[c.index]);
      } else if c.pc.CLoadDeposit? {
        consumers[j] := c.(pc := CStoreDeposit, balance := deposit);
      } else {
        deposit := c.balance + c.item;
        consumers[j] := c.(pc := CLoadNext);
      }
    }

    /** `read_index = (read_index + 1) % BUFFER_SIZE`. */
    method ConsumerAdvance(j: nat)
      requires 0 < transactions.Length && j < consumers.Length
      requires consumers[j].pc.CLoadNext? || consumers[j].pc.CAdvance?
      modifies this`readIndex, this`consumed, consumers
      ensures Abs() == Next(old(Abs()), Consume(j))
    {
      var c := consumers[j];
      if c.pc.CLoadNext? {
        consumers[j] := c.(pc := CAdvance, index := readIndex);
      } else {
        readIndex := (c.index + 1) % transactions.Length;
        consumed := consumed + [c.item];
        consumers[j] := c.(pc := CUnlock);
      }
    }

    /** `sem_post(read_s)` and `sem_post(e)`. */
    method ConsumerPost(j: nat)
      requires 0 < transactions.Length && j < consumers.Length
      requires consumers[j].pc.CUnlock? || consumers[j].pc.CPostEmpty?
      modifies this`empty, this`writeLock, this`readLock, consumers
      ensures Abs() == Next(old(Abs()), Consume(j))
    {
      var c := consumers[j];
      if c.pc.CPostEmpty? {
        empty := empty + 1;
        consumers[j] := c.(pc := CCount);
      } else if oneLock {
        writeLock := writeLock + 1;
        consumers[j] := c.(pc := CPostEmpty);
      } else {
        readLock := readLock + 1;
        consumers[j] := c.(pc := CPostEmpty);
      }
    }
  }
}
