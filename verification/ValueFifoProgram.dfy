/** The processes on the two ends of the pipe as they run. */
module ValueFifoProgram {
  import opened IntBytes
  import opened ValueFifo

  class Program {
    ghost const config: Config
    const capacity: nat
    var pipe: seq<Byte>
    var writeClosed: bool
    var readClosed: bool
    var failed: bool
    const producers: array<Producer>
    const consumers: array<Consumer>
    ghost var produced: seq<int>
    ghost var consumed: seq<int>

    ghost function Abs(): State
      reads this, producers, consumers
    {
      State(capacity, pipe, writeClosed, readClosed, failed, producers[..], consumers[..], produced, consumed)
    }

    ghost predicate Valid()
      reads this, producers, consumers
    {
      Invariant(config, Abs())
    }

    constructor (ghost cfg: Config, capacity: nat, producerOps: seq<nat>, consumerOps: seq<nat>)
      requires cfg == Config(capacity, producerOps, consumerOps) && cfg.Valid()
      ensures Valid() && config == cfg && Abs() == Init(cfg)
      ensures fresh(producers) && fresh(consumers)
    {
      config := cfg;
      this.capacity := capacity;
      pipe, writeClosed, readClosed, failed := [], false, false, false;
      producers := new Producer[|producerOps|](
        i requires 0 <= i < |producerOps| => Producer(PTest, producerOps[i], 0, 0));
      consumers := new Consumer[|consumerOps|](
        j requires 0 <= j < |consumerOps| => Consumer(CTest, consumerOps[j], [], 0));
      produced, consumed := [], [];
      new;
      assert Abs() == Init(cfg);
      InitHolds(cfg);
    }

    /** The next step of producer `i`; `amount` is what its next transaction would be. */
    method ProducerStep(i: nat, amount: Int32) returns (moved: bool)
      requires Valid() && !failed && i < producers.Length
      modifies this, producers
      ensures Valid() && Abs() == Next(old(Abs()), Produce(i, amount))
      ensures moved == Enabled(old(Abs()), Produce(i, amount))
    {
      StepKeepsInvariant(config, Abs(), Produce(i, amount));
      var p := producers[i];
      assert ProducerOk(Abs().producers[i]);
      hide Invariant, ProducerOk;
      moved := true;
      if p.pc.PTest? {
        producers[i] := p.(pc := if p.numOps > 0 then PMake else PDone);
      } else if p.pc.PMake? {
        producers[i] := p.(pc := PSend, value := amount);
      } else if p.pc.PSend? {
        moved := WriteValue(i, amount);
      } else if p.pc.PSum? {
        producers[i] := p.(
          pc := PTest, localSum := p.localSum + p.value, numOps := p.numOps - 1);
      } else {
        moved := false;
      }
    }

    /** The `write` of `writeValue`, which blocks, transfers all four bytes, or finds nobody reading. */
    method WriteValue(i: nat, ghost amount: Int32) returns (moved: bool)
      requires !failed && i < producers.Length && producers[i].pc.PSend?
      modifies this`pipe, this`failed, this`produced, producers
      ensures Abs() == Next(old(Abs()), Produce(i, amount))
      ensures moved == Enabled(old(Abs()), Produce(i, amount))
    {
      var p := producers[i];
      moved := true;
      if readClosed {
        failed := true;
      } else if |pipe| + SIZEOF_INT <= capacity {
        pipe := pipe + Encode(p.value);
        produced := produced + [p.value];
        producers[i] := p.(pc := PSum);
      } else {
        moved := false;
      }
    }

    /** The next step of consumer `j`. */
    method ConsumerStep(j: nat) returns (moved: bool)
      requires Valid() && !failed && j < consumers.Length
      modifies this, consumers
      ensures Valid() && Abs() == Next(old(Abs()), Consume(j))
      ensures moved == Enabled(old(Abs()), Consume(j))
    {
      StepKeepsInvariant(config, Abs(), Consume(j));
      var c := consumers[j];
      assert ConsumerOk(Abs().consumers[j]);
      hide Invariant, ConsumerOk;
      moved := true;
      if c.pc.CTest? {
        consumers[j] := c.(pc := if c.numOps > 0 then CReceive else CDone, got := []);
      } else if c.pc.CReceive? {
        moved := ReadValue(j);
      } else if c.pc.CSum? {
        consumers[j] := c.(
          pc := CTest, localSum := c.localSum + Decode(c.got),
          numOps := c.numOps - 1);
      } else {
        moved := false;
      }
    }

    /** The `read` of `readValue`, which blocks, delivers some bytes, or finds the end of file. */
    method ReadValue(j: nat) returns (moved: bool)
      requires !failed && j < consumers.Length && consumers[j].pc.CReceive? && |consumers[j].got| < SIZEOF_INT
      modifies this`pipe, this`failed, this`consumed, consumers
      ensures Abs() == Next(old(Abs()), Consume(j))
      ensures moved == Enabled(old(Abs()), Consume(j))
    {
      var c := consumers[j];
      moved := true;
      if pipe != [] {
        var asked := SIZEOF_INT - |c.got|;
        var k := if |pipe| < asked then |pipe| else asked;
        var got := c.got + pipe[..k];
        pipe := pipe[k..];
        if |got| < SIZEOF_INT {
          consumers[j] := c.(got := got);
        } else {
          consumers[j] := c.(pc := CSum, got := got);
          consumed := consumed + [Decode(got)];
        }
      } else if writeClosed {
        failed := true;
      } else {
        moved := false;
      }
    }

    /** The parent of the producers closes its end once all of them have exited. */
    method CloseWriters() returns (moved: bool)
      requires Valid() && !failed
      modifies this`writeClosed
      ensures Valid() && Abs() == Next(old(Abs()), CloseWriteEnd)
      ensures moved == Enabled(old(Abs()), CloseWriteEnd)
    {
      StepKeepsInvariant(config, Abs(), CloseWriteEnd);
      var done := forall i :: 0 <= i < producers.Length ==> producers[i].pc.PDone?;
      assert done == AllProduced(Abs());
      moved := done && !writeClosed;
      if moved {
        writeClosed := true;
      }
    }

    method CloseReaders() returns (moved: bool)
      requires Valid() && !failed
      modifies this`readClosed
      ensures Valid() && Abs() == Next(old(Abs()), CloseReadEnd)
      ensures moved == Enabled(old(Abs()), CloseReadEnd)
    {
      StepKeepsInvariant(config, Abs(), CloseReadEnd);
      var done := forall j :: 0 <= j < consumers.Length ==> consumers[j].pc.CDone?;
      assert done == AllConsumed(Abs());
      moved := done && !readClosed;
      if moved {
        readClosed := true;
      }
    }
  }
}
