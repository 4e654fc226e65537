/**
 Messages through a byte stream: `writeMsg` sends a C string in as many pieces as the kernel
 makes of it, `readOneByOne` collects bytes up to and including a separator. Writer and
 reader run concurrently; one step is one system call, or the start or end of a call.
 The writer closes its end when all messages are out; the reader makes a given number of
 calls, and finding the end of the file in one of them is an error.
 */
module Messages {
  import opened IntBytes
  import opened Sequences
  import opened Transfers

  /** `strlen`: the position of the first NUL. */
  function Strlen(raw: seq<Byte>): (n: nat)
    requires 0 in raw
    ensures n < |raw| && raw[n] == 0 && forall k :: 0 <= k < n ==> raw[k] != 0
  {
    if raw[0] == 0 then 0 else 1 + Strlen(raw[1..])
  }

  /** The bytes `buf + from` to `buf + to`. */
  function Part(raw: seq<Byte>, from: nat, to: nat): seq<Byte>
    requires from <= to <= |raw|
  {
    raw[from..to]
  }

  /** What `writeMsg` sends of a buffer. */
  function Payload(raw: seq<Byte>): seq<Byte>
    requires 0 in raw
  {
    Part(raw, 0, Strlen(raw))
  }

  /** That is the bytes before the first NUL, in order. */
  lemma PayloadBytes(raw: seq<Byte>)
    requires 0 in raw
    ensures |Payload(raw)| < |raw| && raw[|Payload(raw)|] == 0
    ensures forall k :: 0 <= k < |Payload(raw)| ==> Payload(raw)[k] == raw[k] != 0
  {
  }

  ghost predicate CStrings(raws: seq<seq<Byte>>)
  {
    forall i :: 0 <= i < |raws| ==> 0 in raws[i]
  }

  function Payloads(raws: seq<seq<Byte>>): (ms: seq<seq<Byte>>)
    requires CStrings(raws)
    ensures |ms| == |raws| && forall i :: 0 <= i < |ms| ==> ms[i] == Payload(raws[i])
  {
    seq(|raws|, i requires 0 <= i < |raws| => Payload(raws[i]))
  }

  function Flatten(ms: seq<seq<Byte>>): seq<Byte>
  {
    if ms == [] then [] else ms[0] + Flatten(ms[1..])
  }

  /**
   `next` is the buffer `writeMsg` is or will be called with; while it is `sending`, `sent`
   and `left` are its counters. `wanted` is how often `readOneByOne` is called, `buf` what
   it has collected so far, and `failed` its exit at a premature end of file.
   */
  datatype State = State(
    raws: seq<seq<Byte>>, separator: Byte, wanted: nat,
    next: nat, sending: bool, sent: nat, left: nat, closed: bool,
    pipe: seq<Byte>, buf: seq<Byte>, delivered: seq<seq<Byte>>, failed: bool)

  /** A `write` is granted at most `limit` bytes; an interrupted call changes nothing. */
  datatype Action = CallWrite | WriteSome(limit: nat) | CloseEnd | ReadByte | Interrupted

  function Init(raws: seq<seq<Byte>>, separator: Byte, wanted: nat): State
  {
    State(raws, separator, wanted, 0, false, 0, 0, false, [], [], [], false)
  }

  /** A read blocks while the pipe is empty and open; a write after the last byte is the return. */
  predicate Enabled(s: State, a: Action)
  {
    !s.failed &&
    match a
    case CallWrite => !s.sending && s.next < |s.raws|
    case WriteSome(limit) => s.sending && s.next < |s.raws| && s.sent + s.left <= |s.raws[s.next]|
    case CloseEnd => !s.sending && s.next >= |s.raws| && !s.closed
    case ReadByte => |s.delivered| < s.wanted && (s.pipe != [] || s.closed)
    case Interrupted => false
  }

  function Step(s: State, a: Action): (s': State)
    requires CStrings(s.raws) && Enabled(s, a)
    ensures s'.raws == s.raws && s'.separator == s.separator && s'.wanted == s.wanted
  {
    match a
    case CallWrite => s.(sending := true, sent := 0, left := Strlen(s.raws[s.next]))
    case WriteSome(limit) =>
      if s.left == 0 then s.(sending := false, next := s.next + 1)
      else AfterChunk(s, Granted(limit, s.left))
    case CloseEnd => s.(closed := true)
    case ReadByte =>
      if s.pipe == [] then s.(failed := true)
      else
        var buf := s.buf + [s.pipe[0]];
        if s.pipe[0] == s.separator
        then s.(pipe := s.pipe[1..], buf := [], delivered := s.delivered + [buf])
        else s.(pipe := s.pipe[1..], buf := buf)
  }

  /** The state after `k` more bytes of the current message have gone into the pipe. */
  function AfterChunk(s: State, k: nat): State
    requires s.next < |s.raws| && k <= s.left && s.sent + s.left <= |s.raws[s.next]|
  {
    s.(pipe := s.pipe + Part(s.raws[s.next], s.sent, s.sent + k), sent := s.sent + k, left := s.left - k)
  }

  function Next(s: State, a: Action): (s': State)
    requires CStrings(s.raws)
    ensures s'.raws == s.raws && s'.separator == s.separator && s'.wanted == s.wanted
  {
    if Enabled(s, a) then Step(s, a) else s
  }

  /** The state after any interleaving of the two sides. */
  function Run(s: State, acts: seq<Action>): (s': State)
    requires CStrings(s.raws)
    ensures s'.raws == s.raws && s'.separator == s.separator && s'.wanted == s.wanted
    decreases |acts|
  {
    if acts == [] then s else Next(Run(s, acts[..|acts| - 1]), acts[|acts| - 1])
  }

  lemma RunSnoc(s: State, acts: seq<Action>, a: Action)
    requires CStrings(s.raws)
    ensures Run(s, acts + [a]) == Next(Run(s, acts), a)
  {
    hide Next, CStrings;
    assert (acts + [a])[..|acts|] == acts;
  }

  // ---------------------------------------------------------------- what every step keeps

  /** Ends in the separator, which occurs nowhere else. */
  predicate Framed(m: seq<Byte>, separator: Byte)
  {
    m != [] && m[|m| - 1] == separator && forall k :: 0 <= k < |m| - 1 ==> m[k] != separator
  }

  ghost predicate AllFramed(ms: seq<seq<Byte>>, separator: Byte)
  {
    forall i :: 0 <= i < |ms| ==> Framed(ms[i], separator)
  }

  /** The messages from number `i` on, as bytes. */
  function Following(raws: seq<seq<Byte>>, i: nat): seq<Byte>
    requires CStrings(raws)
  {
    if i <= |raws| then Flatten(Payloads(raws)[i..]) else []
  }

  /** What has not entered the pipe yet. */
  function Unsent(s: State): seq<Byte>
    requires CStrings(s.raws)
  {
    if s.sending && s.next < |s.raws| && s.sent + s.left <= |s.raws[s.next]|
    then Part(s.raws[s.next], s.sent, s.sent + s.left) + Following(s.raws, s.next + 1)
    else Following(s.raws, s.next)
  }

  /** What the reader has still to read, now or later. */
  function Ahead(s: State): seq<Byte>
    requires CStrings(s.raws)
  {
    s.pipe + Unsent(s)
  }

  ghost predicate WriterOk(s: State)
    requires CStrings(s.raws)
  {
    && s.next <= |s.raws|
    && (s.sending ==> s.next < |s.raws| && s.sent + s.left == Strlen(s.raws[s.next]))
    && (s.closed ==> !s.sending && s.next == |s.raws|)
  }

  ghost predicate ReaderOk(s: State)
  {
    && AllFramed(s.delivered, s.separator) && |s.delivered| <= s.wanted
    && s.separator !in s.buf
    && (s.failed ==> s.closed && s.pipe == [] && |s.delivered| < s.wanted)
  }

  ghost predicate Invariant(s: State)
  {
    && CStrings(s.raws)
    && WriterOk(s) && ReaderOk(s)
    && Flatten(s.delivered) + (s.buf + Ahead(s)) == Flatten(Payloads(s.raws))
  }

  lemma {:induction false} FlattenSnoc(ms: seq<seq<Byte>>, m: seq<Byte>)
    ensures Flatten(ms + [m]) == Flatten(ms) + m
  {
    if ms == [] {
      assert (ms + [m])[1..] == [];
    } else {
      assert (ms + [m])[1..] == ms[1..] + [m];
      FlattenSnoc(ms[1..], m);
    }
  }

  lemma FollowingStep(raws: seq<seq<Byte>>, i: nat)
    requires CStrings(raws) && i < |raws|
    ensures Following(raws, i) == Payload(raws[i]) + Following(raws, i + 1)
  {
    var ms := Payloads(raws);
    assert ms[i..][1..] == ms[i + 1..];
  }

  /** A call of `writeMsg` begins with all of its message unsent. */
  lemma CallKeepsBytes(s: State)
    requires CStrings(s.raws) && WriterOk(s) && Enabled(s, CallWrite)
    ensures WriterOk(Step(s, CallWrite)) && Ahead(Step(s, CallWrite)) == Ahead(s)
  {
    hide Following, Strlen;
    FollowingStep(s.raws, s.next);
  }

  lemma Cut(raw: seq<Byte>, from: nat, mid: nat, to: nat)
    requires from <= mid <= to <= |raw|
    ensures Part(raw, from, mid) + Part(raw, mid, to) == Part(raw, from, to)
  {
  }

  lemma ChunkKeepsBytes(s: State, k: nat)
    requires CStrings(s.raws) && WriterOk(s) && s.sending && k <= s.left
    ensures WriterOk(AfterChunk(s, k)) && Ahead(AfterChunk(s, k)) == Ahead(s)
  {
    hide Following, Strlen, Part;
    var raw, mid, end := s.raws[s.next], s.sent + k, s.sent + s.left;
    Cut(raw, s.sent, mid, end);
    RegroupMiddle(s.pipe, Part(raw, s.sent, mid), Part(raw, mid, end), Following(s.raws, s.next + 1));
  }

  lemma EndKeepsBytes(s: State, limit: nat)
    requires CStrings(s.raws) && WriterOk(s) && Enabled(s, WriteSome(limit)) && s.left == 0
    ensures WriterOk(Step(s, WriteSome(limit))) && Ahead(Step(s, WriteSome(limit))) == Ahead(s)
  {
    hide Following, Strlen;
    assert Part(s.raws[s.next], s.sent, s.sent) + Following(s.raws, s.next + 1) == Following(s.raws, s.next + 1);
  }

  /** Writing moves bytes from the beginning of what is unsent to the end of the pipe. */
  lemma WriteMovesBytes(s: State, limit: nat)
    requires CStrings(s.raws) && WriterOk(s) && Enabled(s, WriteSome(limit))
    ensures WriterOk(Step(s, WriteSome(limit))) && Ahead(Step(s, WriteSome(limit))) == Ahead(s)
  {
    if s.left > 0 {
      assert Step(s, WriteSome(limit)) == AfterChunk(s, Granted(limit, s.left));
      hide Step;
      ChunkKeepsBytes(s, Granted(limit, s.left));
    } else {
      EndKeepsBytes(s, limit);
    }
  }

  /** Closing and failing move no bytes. */
  lemma EndsKeepBytes(s: State)
    requires CStrings(s.raws) && WriterOk(s)
    ensures Enabled(s, CloseEnd) ==> WriterOk(Step(s, CloseEnd)) && Ahead(Step(s, CloseEnd)) == Ahead(s)
    ensures Ahead(s.(failed := true)) == Ahead(s)
  {
    hide Following, Strlen, Part, Payloads, CStrings;
    assert Unsent(s.(closed := true)) == Unsent(s) && Unsent(s.(failed := true)) == Unsent(s);
    hide Unsent;
  }

  /** Reading moves one byte from the pipe to the buffer, or completes the message with it. */
  lemma ReadMovesByte(s: State)
    requires CStrings(s.raws) && Enabled(s, ReadByte) && s.pipe != []
    ensures var s' := Step(s, ReadByte);
            && Ahead(s) == [s.pipe[0]] + Ahead(s')
            && Flatten(s.delivered) + (s.buf + Ahead(s)) == Flatten(s'.delivered) + (s'.buf + Ahead(s'))
  {
    var s', b := Step(s, ReadByte), [s.pipe[0]];
    assert Unsent(s') == Unsent(s);
    hide Unsent, Flatten;
    assert s.pipe + Unsent(s) == b + (s.pipe[1..] + Unsent(s));
    FlattenSnoc(s.delivered, s.buf + b);
    Regroup(s.buf, b, Ahead(s'));
    Regroup(Flatten(s.delivered), s.buf + b, Ahead(s'));
    assert [] + Ahead(s') == Ahead(s');
  }

  /** A message is delivered at its first separator. */
  lemma ReadKeepsFraming(s: State)
    requires CStrings(s.raws) && Enabled(s, ReadByte) && ReaderOk(s)
    ensures ReaderOk(Step(s, ReadByte))
  {
    if s.pipe != [] {
      var m := s.buf + [s.pipe[0]];
      if s.pipe[0] == s.separator {
        assert Framed(m, s.separator);
      }
    }
  }

  lemma ReadKeepsInvariant(s: State)
    requires Invariant(s) && Enabled(s, ReadByte)
    ensures Invariant(Step(s, ReadByte))
  {
    ReadKeepsFraming(s);
    if s.pipe == [] {
      EndsKeepBytes(s);
    } else {
      ReadMovesByte(s);
    }
    assert WriterOk(Step(s, ReadByte));
    hide Next, Ahead, Flatten, WriterOk, ReaderOk;
  }

  /** A writer's step does not touch what the reader has. */
  lemma WriterFrame(s: State, a: Action)
    requires CStrings(s.raws) && Enabled(s, a) && !a.ReadByte?
    ensures var s' := Step(s, a);
            && s'.buf == s.buf && s'.delivered == s.delivered && s'.failed == s.failed == false
            && (s.closed ==> s'.closed)
  {
  }

  lemma WriterKeepsInvariant(s: State, a: Action)
    requires Invariant(s) && Enabled(s, a) && !a.ReadByte?
    ensures Invariant(Step(s, a)) && Ahead(Step(s, a)) == Ahead(s)
  {
    match a {
      case CallWrite => CallKeepsBytes(s);
      case WriteSome(limit) => WriteMovesBytes(s, limit);
      case CloseEnd => EndsKeepBytes(s);
    }
    WriterFrame(s, a);
    hide Step, Ahead, Flatten, WriterOk;
  }

  lemma StepKeepsInvariant(s: State, a: Action)
    requires Invariant(s)
    ensures Invariant(Next(s, a))
  {
    hide Invariant, Step, CStrings;
    if Enabled(s, a) {
      if a.ReadByte? {
        ReadKeepsInvariant(s);
      } else {
        WriterKeepsInvariant(s, a);
      }
    }
  }

  lemma {:induction false} RunKeepsInvariant(raws: seq<seq<Byte>>, separator: Byte, wanted: nat, acts: seq<Action>)
    requires CStrings(raws)
    ensures Invariant(Run(Init(raws, separator, wanted), acts))
    decreases |acts|
  {
    if acts == [] {
      assert Payloads(raws)[0..] == Payloads(raws);
    } else {
      hide Invariant, Next;
      RunKeepsInvariant(raws, separator, wanted, acts[..|acts| - 1]);
      StepKeepsInvariant(Run(Init(raws, separator, wanted), acts[..|acts| - 1]), acts[|acts| - 1]);
    }
  }
}
