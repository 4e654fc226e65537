/** `writeMsg` and `readOneByOne` as they run on the two ends of the same pipe. */
module MessageLink {
  import opened IntBytes
  import opened Transfers
  import opened Messages
  import opened MessageTheorems

  /** What the writer's counters mean while a message is being sent. */
  lemma SendingBounds(s: State)
    requires Invariant(s)
    ensures CStrings(s.raws)
    ensures s.sending ==> s.next < |s.raws| && s.sent + s.left == Strlen(s.raws[s.next]) < |s.raws[s.next]|
    ensures s.closed ==> !s.sending && s.next == |s.raws|
  {
  }

  lemma PartIsSlice(raw: seq<Byte>, from: nat, to: nat)
    requires from <= to <= |raw|
    ensures Part(raw, from, to) == raw[from..to]
    ensures from == 0 ==> raw[from..to] == raw[..to]
  {
  }

  lemma CutAfter(before: seq<Byte>, raw: seq<Byte>, mid: nat, to: nat)
    requires mid <= to <= |raw|
    ensures before + Part(raw, 0, mid) + Part(raw, mid, to) == before + Part(raw, 0, to)
  {
    Cut(raw, 0, mid, to);
  }

  lemma WriteIsChunk(s: State, limit: nat)
    requires CStrings(s.raws) && s.sending && s.left > 0
    requires s.next < |s.raws| && s.sent + s.left <= |s.raws[s.next]| && !s.failed
    ensures Next(s, WriteSome(limit)) == AfterChunk(s, Granted(limit, s.left))
  {
  }

  lemma CallIsStep(s: State)
    requires CStrings(s.raws) && !s.sending && s.next < |s.raws| && !s.failed
    ensures Next(s, CallWrite) == s.(sending := true, sent := 0, left := Strlen(s.raws[s.next]))
  {
  }

  lemma ByteIsStep(s: State)
    requires CStrings(s.raws) && Enabled(s, ReadByte) && s.pipe != []
    ensures var m := s.buf + [s.pipe[0]];
            Next(s, ReadByte) ==
            if s.pipe[0] == s.separator
            then s.(pipe := s.pipe[1..], buf := [], delivered := s.delivered + [m])
            else s.(pipe := s.pipe[1..], buf := m)
  {
  }

  lemma EndIsStep(s: State)
    requires CStrings(s.raws) && s.sending && s.next < |s.raws| && s.left == 0 && !s.failed
    requires s.sent <= |s.raws[s.next]|
    ensures Next(s, WriteSome(0)) == s.(sending := false, next := s.next + 1)
  {
  }

  /** How many bytes `readOneByOne` takes off a stream: up to the first separator, or all of them. */
  function MessageLength(stream: seq<Byte>, separator: Byte): (n: nat)
    ensures n <= |stream|
    ensures separator in stream ==> FirstSeparatorAt(stream, n, separator)
    ensures separator !in stream ==> n == |stream|
  {
    if stream == [] then 0
    else if stream[0] == separator then 1
    else 1 + MessageLength(stream[1..], separator)
  }

  /** In the middle of a call, `ahead` having been to read and `before` delivered when it began. */
  ghost predicate Collecting(s: State, ahead: seq<Byte>, before: seq<seq<Byte>>)
    requires CStrings(s.raws)
  {
    && !s.failed && s.delivered == before && |s.buf| <= |ahead|
    && s.buf == ahead[..|s.buf|] && Ahead(s) == ahead[|s.buf|..]
  }

  /** The call has returned: it took the first message and left the rest of the stream alone. */
  ghost predicate Collected(s: State, ahead: seq<Byte>, before: seq<seq<Byte>>)
    requires CStrings(s.raws)
  {
    var n := MessageLength(ahead, s.separator);
    && !s.failed && s.buf == [] && s.separator in ahead
    && s.delivered == before + [ahead[..n]] && Ahead(s) == ahead[n..]
  }

  lemma SeparatorAt(ahead: seq<Byte>, k: nat, separator: Byte)
    requires k < |ahead| && separator !in ahead[..k]
    ensures k < MessageLength(ahead, separator)
    ensures ahead[k] == separator ==> separator in ahead && MessageLength(ahead, separator) == k + 1
  {
    assert forall i :: 0 <= i < k ==> ahead[i] == ahead[..k][i] != separator;
    if ahead[k] == separator {
      FirstSeparatorIsUnique(ahead, MessageLength(ahead, separator), k + 1, separator);
    }
  }

  /** While a byte is there to be read, the message is not complete: the buffer has room for it. */
  lemma RoomLeft(s: State, ahead: seq<Byte>, before: seq<seq<Byte>>)
    requires Invariant(s) && Collecting(s, ahead, before) && s.pipe != []
    ensures |s.buf| < |ahead| && s.pipe[0] == ahead[|s.buf|]
    ensures |s.buf| < MessageLength(ahead, s.separator)
  {
    hide Unsent, Flatten, MessageLength;
    assert Ahead(s)[0] == s.pipe[0];
    SeparatorAt(ahead, |s.buf|, s.separator);
  }

  lemma EndOfFile(s: State, ahead: seq<Byte>, before: seq<seq<Byte>>)
    requires Invariant(s) && Collecting(s, ahead, before) && Enabled(s, ReadByte) && s.pipe == []
    ensures var s' := Next(s, ReadByte);
            s'.failed && s.separator !in ahead && s'.delivered == before
  {
    NothingUnsent(s);
    assert ahead == s.buf;
  }

  /** What one byte does to the buffer, or to the messages delivered. */
  lemma ByteRead(s: State)
    requires CStrings(s.raws) && Enabled(s, ReadByte) && s.pipe != []
    ensures var s', m := Next(s, ReadByte), s.buf + [s.pipe[0]];
            && !s'.failed && Ahead(s) == [s.pipe[0]] + Ahead(s')
            && (if s.pipe[0] == s.separator
                then s'.buf == [] && s'.delivered == s.delivered + [m]
                else s'.buf == m && s'.delivered == s.delivered)
  {
    ReadMovesByte(s);
    hide Ahead, Flatten;
  }

  lemma ReadsOn(s: State, ahead: seq<Byte>, before: seq<seq<Byte>>)
    requires Invariant(s) && Collecting(s, ahead, before) && Enabled(s, ReadByte) && s.pipe != []
    ensures var s' := Next(s, ReadByte);
            if s.pipe[0] == s.separator
            then Collected(s', ahead, before) && MessageLength(ahead, s.separator) == |s.buf| + 1
            else Collecting(s', ahead, before) && |s'.buf| == |s.buf| + 1
  {
    RoomLeft(s, ahead, before);
    ByteRead(s);
    SeparatorAt(ahead, |s.buf|, s.separator);
    hide Next, Ahead, MessageLength, Invariant, Enabled;
    OneMore(ahead, s.buf, Ahead(Next(s, ReadByte)));
  }

  lemma OneMore(ahead: seq<Byte>, buf: seq<Byte>, rest: seq<Byte>)
    requires |buf| < |ahead| && buf == ahead[..|buf|] && [ahead[|buf|]] + rest == ahead[|buf|..]
    ensures ahead[..|buf| + 1] == buf + [ahead[|buf|]] && rest == ahead[|buf| + 1..]
  {
    assert rest == ([ahead[|buf|]] + rest)[1..];
  }

  /**
   What the reader's next step amounts to: one byte more, the end of the message, or the
   end of the file.
   */
  lemma ReadStep(s: State, ahead: seq<Byte>, before: seq<seq<Byte>>)
    requires Invariant(s) && Collecting(s, ahead, before) && |before| < s.wanted && (s.pipe != [] || s.closed)
    ensures Enabled(s, ReadByte) && Work(Next(s, ReadByte)) < Work(s)
    ensures s.pipe != [] ==> |s.buf| < MessageLength(ahead, s.separator)
    ensures var s' := Next(s, ReadByte);
            if s.pipe == [] then s'.failed && s.separator !in ahead && s'.delivered == before
            else if s.pipe[0] == s.separator
            then Collected(s', ahead, before) && MessageLength(ahead, s.separator) == |s.buf| + 1
            else Collecting(s', ahead, before) && |s'.buf| == |s.buf| + 1
  {
    EveryStepWorks(s, ReadByte);
    hide Next, Work, MessageLength, Collected, Invariant;
    if s.pipe == [] {
      EndOfFile(s, ahead, before);
    } else {
      RoomLeft(s, ahead, before);
      ReadsOn(s, ahead, before);
    }
  }

  lemma BufferGrows(s: State, ahead: seq<Byte>, before: seq<seq<Byte>>)
    requires Invariant(s) && Collecting(s, ahead, before) && s.pipe != []
    ensures |s.buf| < |ahead| && s.buf + [s.pipe[0]] == ahead[..|s.buf| + 1]
  {
    RoomLeft(s, ahead, before);
    hide Ahead, MessageLength, Invariant;
  }

  lemma NotFailed(s: State, ahead: seq<Byte>, before: seq<seq<Byte>>)
    requires CStrings(s.raws) && Collecting(s, ahead, before)
    ensures !s.failed && s.delivered == before
  {
  }

  lemma BeginsCollecting(s: State)
    requires Invariant(s) && !s.failed && s.buf == []
    ensures Collecting(s, Ahead(s), s.delivered)
  {
  }

  /** What the writer does meanwhile does not matter. */
  lemma StillCollecting(s: State, s': State, ahead: seq<Byte>, before: seq<seq<Byte>>)
    requires CStrings(s.raws) && CStrings(s'.raws) && Collecting(s, ahead, before)
    requires s'.buf == s.buf && s'.delivered == s.delivered && s'.failed == s.failed && Ahead(s') == Ahead(s)
    ensures Collecting(s', ahead, before) && s'.delivered == before && !s'.failed
  {
    hide Ahead, CStrings;
  }

  /** The writer going on changes nothing about what is ahead, and brings the end closer. */
  lemma WriterGoesOn(s: State, a: Action)
    requires Invariant(s) && Enabled(s, a) && !a.ReadByte?
    ensures Invariant(Next(s, a)) && Ahead(Next(s, a)) == Ahead(s)
    ensures 0 <= Work(Next(s, a)) < Work(s)
  {
    WriterKeepsInvariant(s, a);
    EveryStepWorks(s, a);
    WorkIsNatural(Next(s, a));
  }

  /**
   The two processes on one kernel: `decide(c)` is what it does with the `c`-th call, and
   `meanwhile(c)` how many steps the writer takes before the reader makes it.
   */
  class Link {
    const raws: seq<seq<Byte>>
    const separator: Byte
    const wanted: nat
    var next: nat
    var sending: bool
    var bytesSent: nat
    var bytesLeft: nat
    var closed: bool
    var pipe: seq<Byte>
    const buf: array<Byte>
    var bytesRead: nat
    ghost var delivered: seq<seq<Byte>>
    var failed: bool
    const decide: nat -> Decision
    const meanwhile: nat -> nat
    ghost const horizon: nat
    var calls: nat

    ghost function Abs(): State
      requires bytesRead <= buf.Length
      reads this, buf
    {
      State(raws, separator, wanted, next, sending, bytesSent, bytesLeft, closed,
            pipe, buf[..bytesRead], delivered, failed)
    }

    /** The interrupts come to an end some time. */
    ghost predicate Valid()
      reads this, buf
    {
      && bytesRead <= buf.Length
      && CStrings(raws) && Invariant(Abs())
      && forall c :: horizon <= c ==> !decide(c).Interrupt?
    }

    ghost function Patience(): nat
      reads this
    {
      if calls < horizon then horizon - calls else 0
    }

    constructor (raws: seq<seq<Byte>>, separator: Byte, wanted: nat, room: nat,
                 decide: nat -> Decision, meanwhile: nat -> nat, ghost horizon: nat)
      requires CStrings(raws)
      requires forall c :: horizon <= c ==> !decide(c).Interrupt?
      ensures Valid() && Abs() == Init(raws, separator, wanted) && buf.Length == room && fresh(buf)
    {
      this.raws, this.separator, this.wanted := raws, separator, wanted;
      this.decide, this.meanwhile, this.horizon := decide, meanwhile, horizon;
      next, sending, bytesSent, bytesLeft, closed, bytesRead, calls := 0, false, 0, 0, false, 0, 0;
      pipe, delivered, failed := [], [], false;
      buf := new Byte[room](i => 0);
      new;
      assert Abs() == Init(raws, separator, wanted);
      RunKeepsInvariant(raws, separator, wanted, []);
    }

    /** The beginning of `writeMsg`: `bytes_left = strlen(buf)`. */
    method BeginWrite()
      requires Valid() && !failed && !sending && next < |raws|
      modifies this`sending, this`bytesSent, this`bytesLeft
      ensures Valid() && Abs() == Next(old(Abs()), CallWrite)
      ensures sending && bytesSent == 0 && bytesLeft == Strlen(raws[next])
    {
      ghost var before := Abs();
      StepKeepsInvariant(before, CallWrite);
      SendingBounds(before);
      CallIsStep(before);
      hide Invariant, Strlen, Next, CStrings;
      sending, bytesSent, bytesLeft := true, 0, Strlen(raws[next]);
      assert Abs() == before.(sending := true, sent := 0, left := Strlen(raws[next]));
    }

    /** One `write` of `writeMsg`; -1 stands for EINTR. */
    method WriteCall() returns (ret: int, ghost limit: nat)
      requires Valid() && !failed && sending && bytesLeft > 0
      modifies this`pipe, this`bytesSent, this`bytesLeft, this`calls
      ensures Valid() && calls == old(calls) + 1 && (ret == -1 || 0 < ret <= old(bytesLeft))
      ensures ret == -1 ==> Abs() == old(Abs()) && Patience() < old(Patience())
      ensures ret != -1 ==> Abs() == Next(old(Abs()), WriteSome(limit))
      ensures ret == -1 ==> bytesSent == old(bytesSent) && bytesLeft == old(bytesLeft) && pipe == old(pipe)
      ensures ret != -1 ==> bytesSent == old(bytesSent) + ret && bytesLeft == old(bytesLeft) - ret
      ensures ret != -1 ==> pipe == old(pipe) + Part(raws[next], old(bytesSent), bytesSent)
      ensures ret != -1 ==> pipe == old(pipe) + raws[next][old(bytesSent)..bytesSent]
    {
      SendingBounds(Abs());
      hide Invariant, Strlen, Next, AfterChunk, Part;
      var d := decide(calls);
      calls := calls + 1;
      if d.Interrupt? {
        return -1, 0;
      }
      limit := d.limit;
      ret := Deliver(d.limit);
      PartIsSlice(raws[next], old(bytesSent), bytesSent);
    }

    /** The transfer itself. */
    method Deliver(limit: nat) returns (k: nat)
      requires Valid() && !failed && sending && bytesLeft > 0
      modifies this`pipe, this`bytesSent, this`bytesLeft
      ensures Valid() && 0 < k <= old(bytesLeft)
      ensures Abs() == Next(old(Abs()), WriteSome(limit))
      ensures bytesSent == old(bytesSent) + k && bytesLeft == old(bytesLeft) - k
      ensures pipe == old(pipe) + Part(raws[next], old(bytesSent), bytesSent)
    {
      SendingBounds(Abs());
      StepKeepsInvariant(Abs(), WriteSome(limit));
      WriteIsChunk(Abs(), limit);
      hide Invariant, Strlen, Next, Part, CStrings, AfterChunk;
      k := Granted(limit, bytesLeft);
      Advance(k);
    }

    /** The effect of a transfer of `k` bytes on the pipe and the counters. */
    method Advance(k: nat)
      requires bytesRead <= buf.Length && k <= bytesLeft
      requires next < |raws| && bytesSent + bytesLeft <= |raws[next]|
      modifies this`pipe, this`bytesSent, this`bytesLeft
      ensures Abs() == AfterChunk(old(Abs()), k)
      ensures bytesSent == old(bytesSent) + k && bytesLeft == old(bytesLeft) - k
      ensures pipe == old(pipe) + Part(raws[next], old(bytesSent), bytesSent)
    {
      hide Part;
      pipe := pipe + Part(raws[next], bytesSent, bytesSent + k);
      bytesSent, bytesLeft := bytesSent + k, bytesLeft - k;
    }

    /** The return from `writeMsg`. */
    method EndWrite()
      requires Valid() && !failed && sending && bytesLeft == 0
      modifies this`sending, this`next
      ensures Valid() && Abs() == Next(old(Abs()), WriteSome(0))
      ensures !sending && next == old(next) + 1
    {
      ghost var before := Abs();
      SendingBounds(before);
      StepKeepsInvariant(before, WriteSome(0));
      EndIsStep(before);
      hide Invariant, CStrings, Strlen, Next;
      assert Invariant(before.(sending := false, next := before.next + 1));
      sending, next := false, next + 1;
      assert Abs() == before.(sending := false, next := before.next + 1);
    }

    /** The writer closes its end when all messages are out. */
    method Close()
      requires Valid() && !failed && !sending && next >= |raws| && !closed
      modifies this`closed
      ensures Valid() && Abs() == Next(old(Abs()), CloseEnd) && closed
    {
      ghost var before := Abs();
      StepKeepsInvariant(before, CloseEnd);
      assert Next(before, CloseEnd) == before.(closed := true);
      hide Invariant, Next;
      closed := true;
      assert Abs() == before.(closed := true);
    }

    /** The loop of `writeMsg`. */
    method SendAll()
      requires Valid() && !failed && sending && bytesSent == 0
      modifies this`pipe, this`bytesSent, this`bytesLeft, this`calls
      ensures Valid() && bytesLeft == 0 && 0 <= next < |raws| && bytesSent == old(bytesLeft) <= |raws[next]|
      ensures pipe == old(pipe) + Part(raws[next], 0, bytesSent)
    {
      SendingBounds(Abs());
      hide Invariant, Strlen, Next, Part, Abs, Valid, Patience, CStrings;
      while bytesLeft > 0
        invariant Valid() && bytesSent + bytesLeft == old(bytesLeft) <= |raws[next]|
        invariant pipe == old(pipe) + Part(raws[next], 0, bytesSent)
        decreases bytesLeft, Patience()
      {
        ghost var sent := bytesSent;
        var ret, limit := WriteCall();
        if ret != -1 {
          CutAfter(old(pipe), raws[next], sent, bytesSent);
        }
      }
    }

    /** `writeMsg`, nobody reading meanwhile: however the kernel cuts it up, the whole message goes out. */
    method WriteMsg()
      requires Valid() && !failed && !sending && next < |raws|
      modifies this`pipe, this`sending, this`next, this`bytesSent, this`bytesLeft, this`calls
      ensures Valid() && !sending && next == old(next) + 1
      ensures var raw := raws[old(next)];
              pipe == old(pipe) + raw[..Strlen(raw)]
    {
      SendingBounds(Abs());
      assert 0 in raws[next];
      hide Invariant, Strlen, Next, Part, Abs, Valid, CStrings;
      BeginWrite();
      SendAll();
      PartIsSlice(raws[next], 0, bytesSent);
      EndWrite();
    }

    /** One step of the writer: the beginning, a `write` or the return of a call, or the close. */
    method WriterTurn()
      requires Valid() && !failed && !closed
      modifies this`next, this`sending, this`bytesSent, this`bytesLeft, this`closed, this`pipe, this`calls
      ensures Valid() && Ahead(Abs()) == old(Ahead(Abs()))
      ensures 0 <= Work(Abs())
      ensures Work(Abs()) < old(Work(Abs())) || (Abs() == old(Abs()) && Patience() < old(Patience()))
    {
      ghost var before := Abs();
      SendingBounds(before);
      WorkIsNatural(before);
      hide Invariant, Strlen, Next, Work, Ahead, CStrings;
      if sending && bytesLeft > 0 {
        var ret, limit := WriteCall();
        if ret != -1 {
          WriterGoesOn(before, WriteSome(limit));
        }
      } else if sending {
        EndWrite();
        WriterGoesOn(before, WriteSome(0));
      } else if next < |raws| {
        BeginWrite();
        WriterGoesOn(before, CallWrite);
      } else {
        Close();
        WriterGoesOn(before, CloseEnd);
      }
    }

    /** What the writer does before the reader's next call, and for as long as that blocks. */
    method LetWriterRun()
      requires Valid() && !failed
      modifies this`next, this`sending, this`bytesSent, this`bytesLeft, this`closed, this`pipe, this`calls
      ensures Valid() && Ahead(Abs()) == old(Ahead(Abs())) && (pipe != [] || closed)
      ensures Abs().buf == old(Abs().buf)
      ensures Work(Abs()) <= old(Work(Abs()))
      ensures Work(Abs()) == old(Work(Abs())) ==> Patience() <= old(Patience())
    {
      hide Invariant, Next, Work, Ahead, CStrings;
      var turns := meanwhile(calls);
      while (turns > 0 || pipe == []) && !closed
        invariant Valid() && Ahead(Abs()) == old(Ahead(Abs()))
        invariant Work(Abs()) <= old(Work(Abs()))
        invariant Work(Abs()) == old(Work(Abs())) ==> Patience() <= old(Patience())
        decreases Work(Abs()), Patience()
      {
        WriterTurn();
        if turns > 0 {
          turns := turns - 1;
        }
      }
    }

    /** One `read` of one byte by `readOneByOne`; -1 stands for EINTR, 0 for the end of the file. */
    method ReadCall() returns (ret: int)
      requires Valid() && Enabled(Abs(), ReadByte) && (pipe != [] ==> bytesRead < buf.Length)
      modifies this`pipe, this`bytesRead, this`calls, this`delivered, this`failed, buf
      ensures Valid() && -1 <= ret <= 1 && calls == old(calls) + 1
      ensures ret == -1 ==> Abs() == old(Abs()) && Patience() < old(Patience())
      ensures ret != -1 ==> Abs() == Next(old(Abs()), ReadByte) && (ret == 0 <==> old(pipe) == [])
      ensures ret == 1 ==>
                old(bytesRead) < buf.Length && buf[..old(bytesRead) + 1] == old(Abs().buf) + [old(pipe)[0]]
    {
      ghost var before := Abs();
      StepKeepsInvariant(before, ReadByte);
      if pipe == [] {
        assert Next(before, ReadByte) == before.(failed := true);
      } else {
        ByteIsStep(before);
      }
      hide Invariant, CStrings, Strlen, Next, Enabled;
      var d := decide(calls);
      calls := calls + 1;
      if d.Interrupt? {
        return -1;
      }
      if pipe == [] {
        failed := true;
        assert Abs() == before.(failed := true);
        return 0;
      }
      var curr := pipe[0];
      buf[bytesRead] := curr;
      pipe := pipe[1..];
      assert buf[..bytesRead + 1] == before.buf + [curr];
      if curr == separator {
        delivered := delivered + [buf[..bytesRead + 1]];
        bytesRead := 0;
      } else {
        bytesRead := bytesRead + 1;
      }
      assert Abs() == Next(before, ReadByte);
      ret := 1;
    }

    /** The first bytes of the buffer are the first of `ahead`. */
    ghost predicate Holds(count: nat, ahead: seq<Byte>)
      reads buf
    {
      count <= |ahead| && count <= buf.Length && buf[..count] == ahead[..count]
    }

    lemma Fields()
      requires Valid()
      ensures Invariant(Abs()) && CStrings(raws) && bytesRead == |Abs().buf| <= buf.Length
      ensures var s := Abs();
              && s.raws == raws && s.separator == separator && s.wanted == wanted && s.pipe == pipe
              && s.delivered == delivered && s.failed == failed && s.closed == closed
    {
    }

    /** One round of the loop of `readOneByOne`, in which `at` bytes have been read. */
    method ReadNext(at: nat, ghost ahead: seq<Byte>, ghost before: seq<seq<Byte>>)
      returns (ret: int, complete: bool)
      requires Valid() && bytesRead == at && |before| < wanted
      requires Collecting(Abs(), ahead, before) && MessageLength(ahead, separator) <= buf.Length
      modifies this, buf
      ensures Valid() && -1 <= ret <= 1
      ensures Work(Abs()) < old(Work(Abs())) || (Work(Abs()) == old(Work(Abs())) && Patience() < old(Patience()))
      ensures ret == -1 ==> Collecting(Abs(), ahead, before) && bytesRead == at
      ensures ret == 0 ==> failed && separator !in ahead && delivered == before
      ensures complete ==>
                ret == 1 && Collected(Abs(), ahead, before) && MessageLength(ahead, separator) == at + 1
      ensures ret == 1 && !complete ==> Collecting(Abs(), ahead, before) && bytesRead == at + 1
      ensures complete ==> Holds(at + 1, ahead)
    {
      ghost var s0 := Abs();
      Fields();
      NotFailed(s0, ahead, before);
      hide Invariant, Next, Work, Ahead, CStrings, Collecting, Collected, MessageLength, Enabled, Valid, Abs, Patience;
      LetWriterRun();
      ghost var s := Abs();
      Fields();
      StillCollecting(s0, s, ahead, before);
      ReadStep(s, ahead, before);
      if pipe != [] {
        BufferGrows(s, ahead, before);
      }
      ret := ReadCall();
      Fields();
      assert ret == 1 ==> buf[..at + 1][at] == s.pipe[0];
      complete := ret == 1 && buf[at] == separator;
    }

    /**
     `readOneByOne`, with the writer running in between: it takes the first message off the
     stream, whether that is in the pipe already or still to be written, and leaves the rest
     untouched. The message is in the buffer. The call exits at the end of the file if and
     only if no separator is ahead.
     */
    method ReadOneByOne() returns (count: nat)
      requires Valid() && !failed && bytesRead == 0 && |delivered| < wanted
      requires MessageLength(Ahead(Abs()), separator) <= buf.Length
      modifies this, buf
      ensures Valid() && (failed <==> separator !in old(Ahead(Abs())))
      ensures failed ==> delivered == old(delivered)
      ensures !failed ==>
                var ahead := old(Ahead(Abs()));
                && count == MessageLength(ahead, separator) && bytesRead == 0
                && delivered == old(delivered) + [ahead[..count]] && Ahead(Abs()) == ahead[count..]
                && Holds(count, ahead)
    {
      ghost var ahead, before := Ahead(Abs()), delivered;
      BeginsCollecting(Abs());
      hide Invariant, Next, Work, Ahead, CStrings, Collecting, Collected, MessageLength, Step;
      hide Patience, Valid, Abs, Holds;
      var complete := false;
      count := 0;
      while !complete && !failed
        invariant Valid()
        invariant !complete && !failed ==> Collecting(Abs(), ahead, before) && count == bytesRead
        invariant complete ==> Collected(Abs(), ahead, before) && count == MessageLength(ahead, separator)
        invariant complete ==> Holds(count, ahead)
        invariant !complete && failed ==> separator !in ahead && delivered == before
        decreases Work(Abs()), Patience()
      {
        var ret;
        ret, complete := ReadNext(count, ahead, before);
        if ret == 1 {
          count := count + 1;
        }
      }
    }
  }
}
