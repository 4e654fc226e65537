/**
 A main process, `n` child processes and `m` threads in each child, over and over: every
 thread appends its child's identity to one log. Two counting semaphores start the
 children together, a third protects the log, and a flag in shared memory stops them.

 One step is one semaphore operation, one access to the flag or the log, one thread
 created or joined, or one process forked or reaped.
 */
module Riepilogo {
  import opened Sums

  datatype ThreadPc = Absent | Entering | Appending | Posting | Finished

  datatype ChildPc =
    | Unborn
    | Announcing        // sem_post(main_waits_for_children)
    | AwaitingStart     // sem_wait(children_wait_for_main)
    | Creating(j: nat)  // the loop that creates the threads of a round
    | Joining(j: nat)   // the loop that joins them
    | Checking          // if (*data) break
    | Exited

  datatype Child = Child(pc: ChildPc, threads: seq<ThreadPc>, rounds: nat)

  datatype MainPc =
    | Forking(i: nat)
    | Collecting(i: nat)  // sem_wait(main_waits_for_children), once a child
    | Releasing(i: nat)   // sem_post(children_wait_for_main), once a child
    | Stopping            // after any time asleep, *data = 1
    | Reaping(i: nat)     // wait(), once a child
    | Parsing             // parseOutput()
    | Done

  /** `ready`, `start` and `critical` are the three semaphores, `stop` is the flag. */
  datatype State = State(
    m: nat, main: MainPc, ready: nat, start: nat, critical: nat, stop: bool,
    log: seq<nat>, children: seq<Child>)

  datatype Action = Main | OfChild(c: nat) | OfThread(c: nat, t: nat)

  function NoThreads(m: nat): seq<ThreadPc>
  {
    seq(m, t => Absent)
  }

  function Init(n: nat, m: nat): (s: State)
    ensures |s.children| == n && s.m == m
  {
    State(m, Forking(0), 0, 0, 1, false, [], seq(n, c => Child(Unborn, NoThreads(m), 0)))
  }

  function IsExited(ch: Child): int { if ch.pc.Exited? then 1 else 0 }

  /** Held up only in `sem_wait` on a zero semaphore, in `wait` and in `pthread_join`. */
  predicate Enabled(s: State, a: Action)
  {
    match a
    case Main =>
      (match s.main
       case Collecting(i) => i < |s.children| ==> s.ready > 0
       case Reaping(i) => i < |s.children| ==> Total(IsExited, s.children) > i
       case Done => false
       case _ => true)
    case OfChild(c) =>
      c < |s.children| &&
      (match s.children[c].pc
       case Unborn => false
       case AwaitingStart => s.start > 0
       case Joining(j) => j < |s.children[c].threads| ==> s.children[c].threads[j].Finished?
       case Exited => false
       case _ => true)
    case OfThread(c, t) =>
      c < |s.children| && t < |s.children[c].threads| &&
      (match s.children[c].threads[t]
       case Absent => false
       case Entering => s.critical > 0
       case Finished => false
       case _ => true)
  }

  function Put(s: State, c: nat, ch: Child): State
    requires c < |s.children|
  {
    s.(children := s.children[c := ch])
  }

  function StepMain(s: State): State
    requires Enabled(s, Main)
  {
    var n := |s.children|;
    match s.main
    case Forking(i) =>
      if i < n then Put(s, i, s.children[i].(pc := Announcing)).(main := Forking(i + 1))
      else s.(main := Collecting(0))
    case Collecting(i) =>
      if i < n then s.(ready := s.ready - 1, main := Collecting(i + 1)) else s.(main := Releasing(0))
    case Releasing(i) =>
      if i < n then s.(start := s.start + 1, main := Releasing(i + 1)) else s.(main := Stopping)
    case Stopping => s.(stop := true, main := Reaping(0))
    case Reaping(i) => s.(main := if i < n then Reaping(i + 1) else Parsing)
    case Parsing => s.(main := Done)
  }

  function StepChild(s: State, c: nat): State
    requires Enabled(s, OfChild(c))
  {
    var ch := s.children[c];
    match ch.pc
    case Announcing => Put(s, c, ch.(pc := AwaitingStart)).(ready := s.ready + 1)
    case AwaitingStart =>
      Put(s, c, ch.(pc := Creating(0), threads := NoThreads(s.m))).(start := s.start - 1)
    case Creating(j) =>
      if j < |ch.threads|
      then Put(s, c, ch.(pc := Creating(j + 1), threads := ch.threads[j := Entering]))
      else Put(s, c, ch.(pc := Joining(0)))
    case Joining(j) =>
      if j < |ch.threads|
      then Put(s, c, ch.(pc := Joining(j + 1)))
      else Put(s, c, ch.(pc := Checking, rounds := ch.rounds + 1))
    case Checking =>
      if s.stop then Put(s, c, ch.(pc := Exited))
      else Put(s, c, ch.(pc := Creating(0), threads := NoThreads(s.m)))
  }

  function StepThread(s: State, c: nat, t: nat): State
    requires Enabled(s, OfThread(c, t))
  {
    var ch := s.children[c];
    match ch.threads[t]
    case Entering =>
      Put(s, c, ch.(threads := ch.threads[t := Appending])).(critical := s.critical - 1)
    case Appending =>
      Put(s, c, ch.(threads := ch.threads[t := Posting])).(log := s.log + [c])
    case Posting =>
      Put(s, c, ch.(threads := ch.threads[t := Finished])).(critical := s.critical + 1)
  }

  /** One step of one process or thread; one that cannot move stays where it is. */
  function Next(s: State, a: Action): (s': State)
    ensures |s'.children| == |s.children| && s'.m == s.m
  {
    if !Enabled(s, a) then s
    else match a
      case Main => StepMain(s)
      case OfChild(c) => StepChild(s, c)
      case OfThread(c, t) => StepThread(s, c, t)
  }

  /** The state after any interleaving `acts`. */
  function Run(s: State, acts: seq<Action>): (s': State)
    ensures |s'.children| == |s.children| && s'.m == s.m
    decreases |acts|
  {
    if acts == [] then s else Next(Run(s, acts[..|acts| - 1]), acts[|acts| - 1])
  }

  lemma {:induction false} RunConcat(s: State, a: seq<Action>, b: seq<Action>)
    ensures Run(s, a + b) == Run(Run(s, a), b)
    decreases |b|
  {
    hide Next;
    if b == [] {
      assert a + b == a;
    } else {
      assert (a + b)[..|a + b| - 1] == a + b[..|b| - 1];
      RunConcat(s, a, b[..|b| - 1]);
    }
  }

  // ---------------------------------------------------------------- what every step keeps

  function HasAnnounced(ch: Child): int { if ch.pc.Unborn? || ch.pc.Announcing? then 0 else 1 }

  predicate Started(pc: ChildPc)
  {
    !(pc.Unborn? || pc.Announcing? || pc.AwaitingStart?)
  }

  function HasStarted(ch: Child): int { if Started(ch.pc) then 1 else 0 }

  function InCritical(t: ThreadPc): int { if t.Appending? || t.Posting? then 1 else 0 }

  function HasAppended(t: ThreadPc): int { if t.Posting? || t.Finished? then 1 else 0 }

  function HoldsLog(ch: Child): int { Total(InCritical, ch.threads) }

  /** How often main has waited for a child to be ready. */
  function Collected(s: State): nat
  {
    match s.main
    case Forking(_) => 0
    case Collecting(i) => i
    case _ => |s.children|
  }

  /** How often main has posted the start semaphore. */
  function Released(s: State): nat
  {
    match s.main
    case Forking(_) => 0
    case Collecting(_) => 0
    case Releasing(i) => i
    case _ => |s.children|
  }

  predicate Stopped(main: MainPc)
  {
    main.Reaping? || main.Parsing? || main.Done?
  }

  ghost predicate MainOk(s: State)
  {
    && (forall c :: 0 <= c < |s.children| ==>
          (s.children[c].pc.Unborn? <==> s.main.Forking? && s.main.i <= c))
    && s.ready + Collected(s) == Total(HasAnnounced, s.children)
    && s.start + Total(HasStarted, s.children) == Released(s)
    && s.critical + Total(HoldsLog, s.children) == 1
    && s.stop == Stopped(s.main)
    && (match s.main
        case Forking(i) => i <= |s.children|
        case Collecting(i) => i <= |s.children|
        case Releasing(i) => i <= |s.children|
        case Reaping(i) => i <= |s.children| && i <= Total(IsExited, s.children)
        case Parsing => |s.children| <= Total(IsExited, s.children)
        case Done => |s.children| <= Total(IsExited, s.children)
        case _ => true)
  }

  /** The threads of a child, according to where the child is in its round. */
  ghost predicate ThreadsOk(m: nat, ch: Child)
  {
    && |ch.threads| == m
    && match ch.pc
       case Creating(j) =>
         && j <= m
         && (forall t :: 0 <= t < j ==> !ch.threads[t].Absent?)
         && (forall t :: j <= t < m ==> ch.threads[t].Absent?)
       case Joining(j) =>
         && j <= m
         && (forall t :: 0 <= t < m ==> !ch.threads[t].Absent?)
         && (forall t :: 0 <= t < j ==> ch.threads[t].Finished?)
       case Checking => forall t :: 0 <= t < m ==> ch.threads[t].Finished?
       case Exited => forall t :: 0 <= t < m ==> ch.threads[t].Finished?
       case _ => forall t :: 0 <= t < m ==> ch.threads[t].Absent?
  }

  /** Records of the current round. */
  function InRound(ch: Child): int
  {
    if ch.pc.Creating? || ch.pc.Joining? then Total(HasAppended, ch.threads) else 0
  }

  /** How many records of child `c` the log holds. */
  function Logged(s: State, c: nat): nat
  {
    multiset(s.log)[c]
  }

  ghost predicate ChildOk(s: State, c: nat)
    requires c < |s.children|
  {
    var ch := s.children[c];
    && ThreadsOk(s.m, ch)
    && (ch.pc.Checking? || ch.pc.Exited? ==> ch.rounds >= 1)
    && (!Started(ch.pc) ==> ch.rounds == 0)
    && (ch.pc.Exited? ==> s.stop)
    && Logged(s, c) == s.m * ch.rounds + InRound(ch)
  }

  ghost predicate ChildrenOk(s: State)
  {
    && (forall c :: 0 <= c < |s.children| ==> ChildOk(s, c))
    && (forall r :: 0 <= r < |s.log| ==> s.log[r] < |s.children|)
  }

  ghost predicate Invariant(s: State)
  {
    MainOk(s) && ChildrenOk(s)
  }

  lemma InitHolds(n: nat, m: nat)
    ensures Invariant(Init(n, m))
  {
    var s := Init(n, m);
    TotalConstant(InCritical, NoThreads(m), 0);
    TotalConstant(HasAnnounced, s.children, 0);
    TotalConstant(HasStarted, s.children, 0);
    TotalConstant(HoldsLog, s.children, 0);
  }

  // How one step of a child or thread changes each total.

  lemma ChildTotals(cs: seq<Child>, c: nat, ch: Child)
    requires c < |cs|
    ensures var cs' := cs[c := ch];
            && Total(HasAnnounced, cs') == Total(HasAnnounced, cs) - HasAnnounced(cs[c]) + HasAnnounced(ch)
            && Total(HasStarted, cs') == Total(HasStarted, cs) - HasStarted(cs[c]) + HasStarted(ch)
            && Total(IsExited, cs') == Total(IsExited, cs) - IsExited(cs[c]) + IsExited(ch)
            && Total(HoldsLog, cs') == Total(HoldsLog, cs) - HoldsLog(cs[c]) + HoldsLog(ch)
  {
    TotalUpdate(HasAnnounced, cs, c, ch);
    TotalUpdate(HasStarted, cs, c, ch);
    TotalUpdate(IsExited, cs, c, ch);
    TotalUpdate(HoldsLog, cs, c, ch);
  }

  lemma NobodyHolds(threads: seq<ThreadPc>)
    requires forall t :: 0 <= t < |threads| ==> threads[t].Absent? || threads[t].Finished?
    ensures Total(InCritical, threads) == 0
  {
    TotalConstant(InCritical, threads, 0);
  }

  lemma MainKeepsMainOk(s: State)
    requires MainOk(s) && Enabled(s, Main)
    ensures MainOk(StepMain(s))
  {
    hide Total;
    TotalNonNegative(IsExited, s.children);
    if s.main.Forking? && s.main.i < |s.children| {
      ChildTotals(s.children, s.main.i, StepMain(s).children[s.main.i]);
    }
  }

  lemma MainKeepsInvariant(s: State)
    requires Invariant(s) && Enabled(s, Main)
    ensures Invariant(StepMain(s))
  {
    MainKeepsMainOk(s);
    var s' := StepMain(s);
    hide Total, HoldsLog;
    forall c | 0 <= c < |s.children| ensures ChildOk(s', c) {
      assert ChildOk(s, c);
    }
  }

  /** What a child's step does to the shared variables, in terms of its own weights. */
  lemma ChildDelta(s: State, c: nat)
    requires Enabled(s, OfChild(c))
    ensures var s', ch := StepChild(s, c), s.children[c];
            && |s'.children| == |s.children|
            && var ch' := s'.children[c];
            && s' == s.(ready := s'.ready, start := s'.start, children := s.children[c := ch'])
            && s'.ready - HasAnnounced(ch') == s.ready - HasAnnounced(ch)
            && s'.start + HasStarted(ch') == s.start + HasStarted(ch)
            && IsExited(ch') >= IsExited(ch)
            && ch'.pc.Unborn? == ch.pc.Unborn?
            && (ch'.pc.Exited? ==> s.stop)
  {
  }

  lemma ChildKeepsThreads(s: State, c: nat)
    requires Enabled(s, OfChild(c)) && ThreadsOk(s.m, s.children[c])
    ensures ThreadsOk(s.m, StepChild(s, c).children[c])
    ensures HoldsLog(StepChild(s, c).children[c]) == HoldsLog(s.children[c])
  {
    var ch := s.children[c];
    if ch.pc.Checking? || ch.pc.AwaitingStart? {
      NobodyHolds(ch.threads);
      NobodyHolds(NoThreads(s.m));
    } else if ch.pc.Creating? && ch.pc.j < s.m {
      TotalUpdate(InCritical, ch.threads, ch.pc.j, Entering);
    }
  }

  lemma ChildKeepsMainOk(s: State, c: nat)
    requires MainOk(s) && Enabled(s, OfChild(c)) && ThreadsOk(s.m, s.children[c])
    ensures MainOk(StepChild(s, c))
  {
    ChildDelta(s, c);
    ChildKeepsThreads(s, c);
    hide StepChild, Enabled, ThreadsOk, Total, HoldsLog;
    ChildTotals(s.children, c, StepChild(s, c).children[c]);
  }

  /** The stepping child's records: m for every round completed, and those of the current round. */
  lemma ChildKeepsRecords(s: State, c: nat)
    requires Enabled(s, OfChild(c)) && ThreadsOk(s.m, s.children[c])
    ensures var ch, ch' := s.children[c], StepChild(s, c).children[c];
            s.m * ch'.rounds + InRound(ch') == s.m * ch.rounds + InRound(ch)
  {
    var ch := s.children[c];
    if ch.pc.Checking? || ch.pc.AwaitingStart? {
      TotalConstant(HasAppended, NoThreads(s.m), 0);
    } else if ch.pc.Creating? && ch.pc.j < s.m {
      TotalUpdate(HasAppended, ch.threads, ch.pc.j, Entering);
    } else if ch.pc.Joining? && ch.pc.j == s.m {
      TotalConstant(HasAppended, ch.threads, 1);
      assert s.m * (ch.rounds + 1) == s.m * ch.rounds + s.m;
    }
  }

  lemma ChildKeepsAccount(s: State, c: nat)
    requires Enabled(s, OfChild(c)) && ChildOk(s, c)
    ensures ChildOk(StepChild(s, c), c)
  {
    ChildDelta(s, c);
    ChildKeepsThreads(s, c);
    ChildKeepsRecords(s, c);
    hide InRound, ThreadsOk, HoldsLog, HasAnnounced, HasStarted;
  }

  lemma ChildKeepsInvariant(s: State, c: nat)
    requires Invariant(s) && Enabled(s, OfChild(c))
    ensures Invariant(StepChild(s, c))
  {
    assert ChildOk(s, c);
    ChildKeepsMainOk(s, c);
    ChildKeepsAccount(s, c);
    ChildDelta(s, c);
    var s' := StepChild(s, c);
    forall d | 0 <= d < |s.children| ensures ChildOk(s', d) {
      hide StepChild;
      assert ChildOk(s, d);
    }
  }

  /** What a thread's step does to the shared variables. */
  lemma ThreadDelta(s: State, c: nat, t: nat)
    requires Enabled(s, OfThread(c, t))
    ensures var s', ch := StepThread(s, c, t), s.children[c];
            && |s'.children| == |s.children|
            && var ch' := s'.children[c];
            && s' == s.(critical := s'.critical, log := s'.log, children := s.children[c := ch'])
            && ch' == ch.(threads := ch'.threads)
            && |ch'.threads| == |ch.threads| && ch'.threads == ch.threads[t := ch'.threads[t]]
            && s'.critical + InCritical(ch'.threads[t]) == s.critical + InCritical(ch.threads[t])
            && !ch.threads[t].Absent? && !ch'.threads[t].Absent? && !ch.threads[t].Finished?
            && s'.log == s.log + seq(HasAppended(ch'.threads[t]) - HasAppended(ch.threads[t]), i => c)
  {
    var s' := StepThread(s, c, t);
    if s.children[c].threads[t].Appending? {
      assert [c] == seq(1, i => c);
    } else {
      assert s.log == s.log + seq(0, i => c);
    }
  }

  lemma ThreadKeepsMainOk(s: State, c: nat, t: nat)
    requires MainOk(s) && Enabled(s, OfThread(c, t))
    ensures MainOk(StepThread(s, c, t))
  {
    var s' := StepThread(s, c, t);
    ThreadDelta(s, c, t);
    hide StepThread, Enabled, Total;
    ChildTotals(s.children, c, s'.children[c]);
    TotalUpdate(InCritical, s.children[c].threads, t, s'.children[c].threads[t]);
  }

  lemma ThreadKeepsAccount(s: State, c: nat, t: nat)
    requires Enabled(s, OfThread(c, t)) && ChildOk(s, c)
    ensures ChildOk(StepThread(s, c, t), c)
  {
    var s' := StepThread(s, c, t);
    ThreadDelta(s, c, t);
    TotalUpdate(HasAppended, s.children[c].threads, t, s'.children[c].threads[t]);
    hide StepThread, Enabled, Total;
    assert ThreadsOk(s.m, s'.children[c]);
  }

  lemma ThreadKeepsInvariant(s: State, c: nat, t: nat)
    requires Invariant(s) && Enabled(s, OfThread(c, t))
    ensures Invariant(StepThread(s, c, t))
  {
    assert ChildOk(s, c);
    ThreadKeepsMainOk(s, c, t);
    ThreadKeepsAccount(s, c, t);
    ThreadDelta(s, c, t);
    var s' := StepThread(s, c, t);
    forall d | 0 <= d < |s.children| ensures ChildOk(s', d) {
      hide StepThread;
      assert ChildOk(s, d);
    }
  }

  lemma StepKeepsInvariant(s: State, a: Action)
    requires Invariant(s)
    ensures Invariant(Next(s, a))
  {
    if Enabled(s, a) {
      match a {
        case Main => MainKeepsInvariant(s);
        case OfChild(c) => ChildKeepsInvariant(s, c);
        case OfThread(c, t) => ThreadKeepsInvariant(s, c, t);
      }
    }
  }

  lemma {:induction false} RunKeepsInvariant(n: nat, m: nat, acts: seq<Action>)
    ensures Invariant(Run(Init(n, m), acts))
    decreases |acts|
  {
    hide Next, Invariant, Init;
    if acts == [] {
      InitHolds(n, m);
    } else {
      RunKeepsInvariant(n, m, acts[..|acts| - 1]);
      StepKeepsInvariant(Run(Init(n, m), acts[..|acts| - 1]), acts[|acts| - 1]);
    }
  }
}
