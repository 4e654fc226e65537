/** What the two ends of the pipe can rely on, over all interleavings. */
module MessageTheorems {
  import opened IntBytes
  import opened Transfers
  import opened Sequences
  import opened Messages

  // ---------------------------------------------------------------- framing

  /** The first separator of `stream` is its `n`-th byte. */
  predicate FirstSeparatorAt(stream: seq<Byte>, n: nat, separator: Byte)
  {
    && 0 < n <= |stream| && stream[n - 1] == separator
    && forall k :: 0 <= k < n - 1 ==> stream[k] != separator
  }

  lemma FramedPrefix(m: seq<Byte>, rest: seq<Byte>, separator: Byte)
    requires Framed(m, separator)
    ensures FirstSeparatorAt(m + rest, |m|, separator)
  {
  }

  lemma FirstSeparatorIsUnique(stream: seq<Byte>, n: nat, n': nat, separator: Byte)
    requires FirstSeparatorAt(stream, n, separator) && FirstSeparatorAt(stream, n', separator)
    ensures n == n'
  {
  }

  /** Two framed messages at the beginning of the same stream are the same message. */
  lemma SameFirst(a: seq<Byte>, x: seq<Byte>, b: seq<Byte>, y: seq<Byte>, separator: Byte)
    requires Framed(a, separator) && Framed(b, separator) && a + x == b + y
    ensures a == b && x == y
  {
    var s := a + x;
    FramedPrefix(a, x, separator);
    FramedPrefix(b, y, separator);
    FirstSeparatorIsUnique(s, |a|, |b|, separator);
    assert a == s[..|a|] && b == s[..|b|];
    assert x == s[|a|..] && y == s[|b|..];
  }

  /** A stream of framed messages can be cut in one way only. */
  lemma {:induction false} OneWayToCut(ds: seq<seq<Byte>>, rest: seq<Byte>, ms: seq<seq<Byte>>, separator: Byte)
    requires AllFramed(ds, separator) && AllFramed(ms, separator)
    requires Flatten(ds) + rest == Flatten(ms)
    ensures |ds| <= |ms| && ds == ms[..|ds|] && rest == Flatten(ms[|ds|..])
  {
    if ds == [] {
      assert Flatten(ds) + rest == rest;
      assert ms[0..] == ms;
    } else {
      assert Framed(ds[0], separator);
      assert |Flatten(ms)| >= |ds[0]| > 0;
      assert Framed(ms[0], separator);
      assert Flatten(ds) + rest == ds[0] + (Flatten(ds[1..]) + rest);
      SameFirst(ds[0], Flatten(ds[1..]) + rest, ms[0], Flatten(ms[1..]), separator);
      OneWayToCut(ds[1..], rest, ms[1..], separator);
      assert ms[1..][|ds| - 1..] == ms[|ds|..];
    }
  }

  /**
   If every message ends in its only separator, then in every interleaving the messages
   delivered are the first of those sent, in order; the bytes being collected, in the pipe
   and unsent are exactly the messages that follow.
   */
  lemma DeliveredInOrder(raws: seq<seq<Byte>>, separator: Byte, wanted: nat, acts: seq<Action>)
    requires CStrings(raws) && AllFramed(Payloads(raws), separator)
    ensures var s := Run(Init(raws, separator, wanted), acts);
            && |s.delivered| <= |raws| && |s.delivered| <= wanted
            && s.delivered == Payloads(raws)[..|s.delivered|]
            && s.buf + Ahead(s) == Flatten(Payloads(raws)[|s.delivered|..])
  {
    RunKeepsInvariant(raws, separator, wanted, acts);
    hide Run;
    InOrder(Run(Init(raws, separator, wanted), acts));
  }

  lemma InOrder(s: State)
    requires Invariant(s) && AllFramed(Payloads(s.raws), s.separator)
    ensures |s.delivered| <= |s.raws|
    ensures s.delivered == Payloads(s.raws)[..|s.delivered|]
    ensures s.buf + Ahead(s) == Flatten(Payloads(s.raws)[|s.delivered|..])
  {
    hide Ahead, Flatten, AllFramed;
    var tail := s.buf + Ahead(s);
    OneWayToCut(s.delivered, tail, Payloads(s.raws), s.separator);
  }

  /** The message being collected is incomplete: the rest of it is still to be read. */
  lemma RestOfMessage(s: State)
    requires Invariant(s) && AllFramed(Payloads(s.raws), s.separator) && |s.delivered| < |s.raws|
    ensures var m := Payloads(s.raws)[|s.delivered|];
            |s.buf| < |m| <= |s.buf + Ahead(s)|
  {
    InOrder(s);
    var ms := Payloads(s.raws)[|s.delivered|..];
    var tail := s.buf + Ahead(s);
    assert Framed(ms[0], s.separator);
    FramedPrefix(ms[0], Flatten(ms[1..]), s.separator);
    assert forall k :: 0 <= k < |s.buf| ==> tail[k] == s.buf[k];
  }

  /** The reader's buffer never needs more room than the longest message. */
  lemma BufferFits(raws: seq<seq<Byte>>, separator: Byte, wanted: nat, acts: seq<Action>, room: nat)
    requires CStrings(raws) && AllFramed(Payloads(raws), separator)
    requires forall i :: 0 <= i < |raws| ==> |Payload(raws[i])| <= room
    ensures var s := Run(Init(raws, separator, wanted), acts);
            s.buf != [] || s.pipe != [] ==> |s.buf| < room
  {
    RunKeepsInvariant(raws, separator, wanted, acts);
    var s := Run(Init(raws, separator, wanted), acts);
    hide Run;
    if |s.delivered| < |raws| {
      RestOfMessage(s);
    } else {
      NothingAhead(s);
    }
  }

  /** All messages delivered: no byte is left anywhere. */
  lemma NothingAhead(s: State)
    requires Invariant(s) && AllFramed(Payloads(s.raws), s.separator) && |s.delivered| >= |s.raws|
    ensures s.delivered == Payloads(s.raws) && s.buf == [] && s.pipe == [] && Unsent(s) == []
  {
    InOrder(s);
    assert Payloads(s.raws)[|s.delivered|..] == [];
    assert |s.buf + Ahead(s)| == 0;
  }

  // ---------------------------------------------------------------- the premature end of file

  function Separators(bytes: seq<Byte>, separator: Byte): nat
  {
    multiset(bytes)[separator]
  }

  /** A framed message holds one separator. */
  lemma {:induction false} SeparatorsOfFramed(ms: seq<seq<Byte>>, separator: Byte)
    requires AllFramed(ms, separator)
    ensures Separators(Flatten(ms), separator) == |ms|
  {
    if ms != [] {
      var m := ms[0];
      assert Framed(m, separator);
      assert m == m[..|m| - 1] + [separator];
      assert separator !in m[..|m| - 1];
      SeparatorsOfFramed(ms[1..], separator);
    }
  }

  /** Every separator sent is one delivered or one still ahead. */
  lemma SeparatorsAddUp(s: State)
    requires Invariant(s)
    ensures |s.delivered| + Separators(Ahead(s), s.separator) == Separators(Flatten(Payloads(s.raws)), s.separator)
  {
    SeparatorsOfFramed(s.delivered, s.separator);
    hide Ahead, Flatten, WriterOk, AllFramed;
    var d, rest := Flatten(s.delivered), s.buf + Ahead(s);
    assert multiset(d + rest) == multiset(d) + multiset(rest);
    assert multiset(rest) == multiset(s.buf) + multiset(Ahead(s));
  }

  lemma NothingUnsent(s: State)
    requires Invariant(s) && !s.sending && s.next >= |s.raws|
    ensures Unsent(s) == []
  {
    assert Payloads(s.raws)[s.next..] == [];
  }

  /** A call that meets the end of the file was one too many. */
  lemma FailedMeansTooMany(s: State)
    requires Invariant(s) && s.failed
    ensures Separators(Flatten(Payloads(s.raws)), s.separator) < s.wanted
  {
    SeparatorsAddUp(s);
    NothingUnsent(s);
    assert Ahead(s) == [];
  }

  ghost predicate NeverFails(raws: seq<seq<Byte>>, separator: Byte, wanted: nat)
    requires CStrings(raws)
  {
    forall acts :: !Run(Init(raws, separator, wanted), acts).failed
  }

  /**
   No interleaving reaches the exit at a premature end of file if and only if the reader
   makes no more calls than separators are sent.
   */
  lemma NeverFailsIff(raws: seq<seq<Byte>>, separator: Byte, wanted: nat)
    requires CStrings(raws)
    ensures NeverFails(raws, separator, wanted) <==> wanted <= Separators(Flatten(Payloads(raws)), separator)
  {
    hide Run, Init, Invariant, Stuck, Flatten, CStrings, Separators;
    InitConstants(raws, separator, wanted);
    if wanted <= Separators(Flatten(Payloads(raws)), separator) {
      forall acts ensures !Run(Init(raws, separator, wanted), acts).failed {
        RunKeepsInvariant(raws, separator, wanted, acts);
        if Run(Init(raws, separator, wanted), acts).failed {
          FailedMeansTooMany(Run(Init(raws, separator, wanted), acts));
        }
      }
    } else {
      var acts := RunsToRest(raws, separator, wanted, []);
      var s := Run(Init(raws, separator, wanted), [] + acts);
      RunKeepsInvariant(raws, separator, wanted, [] + acts);
      AtRest(s);
      SeparatorsAddUp(s);
    }
  }

  lemma InitConstants(raws: seq<seq<Byte>>, separator: Byte, wanted: nat)
    ensures var s := Init(raws, separator, wanted);
            s.raws == raws && s.separator == separator && s.wanted == wanted
  {
  }

  /**
   With messages that end in their only separator and at most as many calls, no call meets
   the end of the file, and until all are delivered there is something to send or to read.
   */
  lemma NoPrematureEnd(raws: seq<seq<Byte>>, separator: Byte, wanted: nat, acts: seq<Action>)
    requires CStrings(raws) && AllFramed(Payloads(raws), separator) && wanted <= |raws|
    ensures var s := Run(Init(raws, separator, wanted), acts);
            && !s.failed
            && (|s.delivered| < |raws| ==> s.pipe != [] || Unsent(s) != [])
            && (|s.delivered| == |raws| ==> s.buf == [] && s.pipe == [] && Unsent(s) == [])
  {
    RunKeepsInvariant(raws, separator, wanted, acts);
    SeparatorsOfFramed(Payloads(raws), separator);
    var s := Run(Init(raws, separator, wanted), acts);
    hide Run, Separators;
    if s.failed {
      FailedMeansTooMany(s);
    }
    if |s.delivered| < |raws| {
      RestOfMessage(s);
    } else {
      NothingAhead(s);
    }
  }

  // ---------------------------------------------------------------- termination

  ghost predicate Stuck(s: State)
  {
    forall a :: !Enabled(s, a)
  }

  /** Bytes still to be moved, twice while unsent, and calls still to begin or end. */
  function Work(s: State): int
    requires CStrings(s.raws)
  {
    2 * |Unsent(s)| + |s.pipe| + 2 * (|s.raws| - s.next)
    - (if s.sending then 1 else 0) + (if s.closed then 0 else 1) + (if s.failed then 0 else 1)
  }

  lemma WorkIsNatural(s: State)
    requires Invariant(s)
    ensures Work(s) >= 0
  {
  }

  /** Bytes that only move from the writer to the pipe, with the rest of the measure dropping. */
  lemma BytesOnTheirWay(s: State, s': State)
    requires CStrings(s.raws) && CStrings(s'.raws) && Ahead(s') == Ahead(s)
    ensures |s.pipe| + |Unsent(s)| == |s'.pipe| + |Unsent(s')|
  {
    hide Unsent, CStrings;
  }

  lemma WriterWorks(s: State, a: Action)
    requires Invariant(s) && Enabled(s, a) && !a.ReadByte?
    ensures Work(Step(s, a)) < Work(s)
  {
    var s' := Step(s, a);
    WriterKeepsInvariant(s, a);
    BytesOnTheirWay(s, s');
    assert a.WriteSome? ==> |s'.pipe| > |s.pipe| || (s'.pipe == s.pipe && s'.next == s.next + 1);
    hide Unsent, Strlen, WriterOk, ReaderOk, Flatten, AfterChunk;
  }

  lemma ReaderWorks(s: State)
    requires CStrings(s.raws) && Enabled(s, ReadByte)
    ensures Work(Step(s, ReadByte)) < Work(s)
  {
    hide Following, Strlen, Part, CStrings;
    assert Unsent(Step(s, ReadByte)) == Unsent(s);
    hide Unsent;
  }

  /** The measure drops on every step, whoever takes it. */
  lemma EveryStepWorks(s: State, a: Action)
    requires Invariant(s) && Enabled(s, a)
    ensures Work(Next(s, a)) < Work(s)
  {
    hide Work, Step, CStrings;
    if a.ReadByte? {
      ReaderWorks(s);
    } else {
      WriterWorks(s, a);
    }
  }

  lemma BlockedStays(s: State, a: Action)
    requires CStrings(s.raws) && !Enabled(s, a)
    ensures Next(s, a) == s
  {
  }

  /** The reader is held up only by an empty pipe that is still open; the writer never, until it has closed. */
  lemma HeldUpOnlyByPipe(s: State)
    requires Invariant(s) && !s.failed
    ensures !Enabled(s, ReadByte) ==> |s.delivered| == s.wanted || (s.pipe == [] && !s.closed)
    ensures !s.closed ==> Enabled(s, CallWrite) || Enabled(s, WriteSome(1)) || Enabled(s, CloseEnd)
  {
  }

  /** How often one of the two has actually moved. */
  function Moves(s: State, acts: seq<Action>): nat
    requires CStrings(s.raws)
    decreases |acts|
  {
    if acts == [] then 0
    else
      var front := acts[..|acts| - 1];
      Moves(s, front) + (if Enabled(Run(s, front), acts[|acts| - 1]) then 1 else 0)
  }

  /** Termination: no schedule, however long, makes the two sides move more often than this. */
  lemma {:induction false} BoundedMoves(raws: seq<seq<Byte>>, separator: Byte, wanted: nat, acts: seq<Action>)
    requires CStrings(raws)
    ensures var init := Init(raws, separator, wanted);
            && Moves(init, acts) + Work(Run(init, acts)) <= Work(init)
            && Moves(init, acts) <= Work(init)
    decreases |acts|
  {
    hide Next, Work, Enabled, Invariant, CStrings;
    var init := Init(raws, separator, wanted);
    RunKeepsInvariant(raws, separator, wanted, acts);
    WorkIsNatural(Run(init, acts));
    if acts != [] {
      var front, a := acts[..|acts| - 1], acts[|acts| - 1];
      BoundedMoves(raws, separator, wanted, front);
      RunKeepsInvariant(raws, separator, wanted, front);
      if Enabled(Run(init, front), a) {
        EveryStepWorks(Run(init, front), a);
      } else {
        BlockedStays(Run(init, front), a);
      }
    }
  }

  /** Every run ends: it extends to one in which neither side can move. */
  lemma {:induction false} RunsToRest(raws: seq<seq<Byte>>, separator: Byte, wanted: nat, acts: seq<Action>)
    returns (more: seq<Action>)
    requires CStrings(raws)
    ensures Stuck(Run(Init(raws, separator, wanted), acts + more))
    decreases Work(Run(Init(raws, separator, wanted), acts))
  {
    hide Run, Next, Work, Invariant, Enabled, CStrings, Init;
    var init := Init(raws, separator, wanted);
    InitConstants(raws, separator, wanted);
    var s := Run(init, acts);
    RunKeepsInvariant(raws, separator, wanted, acts);
    if Stuck(s) {
      more := [];
      assert acts + more == acts;
    } else {
      var a :| Enabled(s, a);
      RunSnoc(init, acts, a);
      EveryStepWorks(s, a);
      StepKeepsInvariant(s, a);
      WorkIsNatural(Next(s, a));
      var rest := RunsToRest(raws, separator, wanted, acts + [a]);
      more := [a] + rest;
      assert acts + more == (acts + [a]) + rest;
    }
  }

  /** When neither can move, the reader has failed, or both have done all they had to. */
  lemma AtRest(s: State)
    requires Invariant(s) && Stuck(s)
    ensures s.failed || (!s.sending && s.next == |s.raws| && s.closed && |s.delivered| == s.wanted)
    ensures Unsent(s) == []
  {
    assert !Enabled(s, CallWrite) && !Enabled(s, WriteSome(1)) && !Enabled(s, CloseEnd) && !Enabled(s, ReadByte);
    NothingUnsent(s);
  }

  // ---------------------------------------------------------------- the round trip

  /** Exactly the messages sent have been delivered, with no bytes left over. */
  ghost predicate Exact(s: State)
    requires CStrings(s.raws)
  {
    !s.failed && s.delivered == Payloads(s.raws) && s.buf == [] && s.pipe == [] && Unsent(s) == []
  }

  lemma ExactIffFramed(s: State)
    requires Invariant(s) && Stuck(s) && s.wanted == |s.raws|
    ensures Exact(s) <==> AllFramed(Payloads(s.raws), s.separator)
  {
    AtRest(s);
    if AllFramed(Payloads(s.raws), s.separator) {
      if s.failed {
        FailedMeansTooMany(s);
        SeparatorsOfFramed(Payloads(s.raws), s.separator);
      }
      NothingAhead(s);
    }
  }

  /**
   With one call for each message: complete runs exist, and on every one of them exactly the
   messages sent are delivered if and only if every message ends in its only separator.
   */
  lemma RoundTripIffFramed(raws: seq<seq<Byte>>, separator: Byte)
    requires CStrings(raws)
    ensures exists acts :: Stuck(Run(Init(raws, separator, |raws|), acts))
    ensures forall acts :: Stuck(Run(Init(raws, separator, |raws|), acts)) ==>
              (Exact(Run(Init(raws, separator, |raws|), acts)) <==> AllFramed(Payloads(raws), separator))
  {
    hide Run, Init, Invariant, Stuck, Exact, AllFramed, CStrings;
    InitConstants(raws, separator, |raws|);
    var some := RunsToRest(raws, separator, |raws|, []);
    forall acts | Stuck(Run(Init(raws, separator, |raws|), acts))
      ensures Exact(Run(Init(raws, separator, |raws|), acts)) <==> AllFramed(Payloads(raws), separator)
    {
      RunKeepsInvariant(raws, separator, |raws|, acts);
      ExactIffFramed(Run(Init(raws, separator, |raws|), acts));
    }
  }

  /** From every reachable state the two sides can go on until every message has been delivered. */
  lemma RunsToDelivery(raws: seq<seq<Byte>>, separator: Byte, acts: seq<Action>) returns (more: seq<Action>)
    requires CStrings(raws) && AllFramed(Payloads(raws), separator)
    ensures Exact(Run(Init(raws, separator, |raws|), acts + more))
  {
    hide Run, Invariant, Exact, AllFramed, CStrings;
    more := RunsToRest(raws, separator, |raws|, acts);
    RoundTripIffFramed(raws, separator);
  }
}
