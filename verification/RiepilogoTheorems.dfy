/**
 What the start barrier, the rounds and the stop flag guarantee, over all interleavings,
 any number `n` of children and any number `m` of threads in each.
 */
module RiepilogoTheorems {
  import opened Sums
  import opened Riepilogo

  // ---------------------------------------------------------------- start barrier

  lemma AtMostAll(w: Child -> int, cs: seq<Child>)
    requires forall c :: 0 <= c < |cs| ==> 0 <= w(cs[c]) <= 1
    ensures 0 <= Total(w, cs) <= |cs|
    ensures Total(w, cs) == |cs| ==> forall c :: 0 <= c < |cs| ==> w(cs[c]) == 1
  {
    var ws, ones := Weights(w, cs), seq(|cs|, c => 1);
    SumConstant(ones, 1);
    SumZeroBound(ws);
    SumLeq(ws, ones);
    forall c | 0 <= c < |cs| && w(cs[c]) == 0 ensures Total(w, cs) < |cs| {
      SumStrict(ws, ones, c);
    }
  }

  /** Main got past the barrier: every child has announced itself. */
  lemma ReleasedMeansAllReady(s: State)
    requires Invariant(s) && Collected(s) == |s.children|
    ensures forall c :: 0 <= c < |s.children| ==> HasAnnounced(s.children[c]) == 1
    ensures s.ready == 0
  {
    AtMostAll(HasAnnounced, s.children);
  }

  /**
   Nothing of a child but its announcement happens before all `n` children have announced
   themselves: as soon as any child is past the start semaphore, or has any thread, all are ready.
   */
  lemma StartBarrier(n: nat, m: nat, acts: seq<Action>, c: nat, t: nat)
    ensures var s := Run(Init(n, m), acts);
            c < n && (Started(s.children[c].pc) ||
                      (t < |s.children[c].threads| && !s.children[c].threads[t].Absent?)) ==>
              forall d :: 0 <= d < n ==> HasAnnounced(s.children[d]) == 1
  {
    RunKeepsInvariant(n, m, acts);
    var s := Run(Init(n, m), acts);
    hide Run;
    if c < n {
      assert ChildOk(s, c);
      if Started(s.children[c].pc) {
        TotalTerm(HasStarted, s.children, c);
        AtMostAll(HasAnnounced, s.children);
        assert Collected(s) == n;
        ReleasedMeansAllReady(s);
      }
    }
  }

  /** The start semaphore is posted once a child, and consumed once by each: none is left over. */
  lemma ReleasedOnce(n: nat, m: nat, acts: seq<Action>)
    ensures var s := Run(Init(n, m), acts);
            && Total(HasStarted, s.children) + s.start == Released(s) <= n
            && ((forall c :: 0 <= c < n ==> Started(s.children[c].pc)) ==> s.start == 0)
  {
    RunKeepsInvariant(n, m, acts);
    var s := Run(Init(n, m), acts);
    hide Run;
    if forall c :: 0 <= c < n ==> Started(s.children[c].pc) {
      TotalConstant(HasStarted, s.children, 1);
    }
  }

  // ---------------------------------------------------------------- exact accounting

  /** How often each of the identities below `n` occurs. */
  function Counts(log: seq<nat>, n: nat): (r: seq<nat>)
    ensures |r| == n && forall c :: 0 <= c < n ==> r[c] == multiset(log)[c]
  {
    seq(n, c requires 0 <= c => multiset(log)[c])
  }

  lemma {:induction false} CountsAddUp(log: seq<nat>, n: nat)
    requires forall r :: 0 <= r < |log| ==> log[r] < n
    ensures Sum(Counts(log, n)) == |log|
  {
    if log == [] {
      SumConstant(Counts(log, n), 0);
    } else {
      var front: seq<nat>, last := log[..|log| - 1], log[|log| - 1];
      assert log == front + [last];
      CountsAddUp(front, n);
      SumPoint(Counts(front, n), Counts(log, n), last);
    }
  }

  predicate AllExited(s: State)
  {
    forall c :: 0 <= c < |s.children| ==> s.children[c].pc.Exited?
  }

  /**
   Whenever main reaches `parseOutput` every child has exited, the log holds exactly `m`
   records of a child for each of its rounds, of which there is at least one, and nothing else.
   */
  lemma ExactAccounting(n: nat, m: nat, acts: seq<Action>)
    requires var main := Run(Init(n, m), acts).main; main.Parsing? || main.Done?
    ensures var s := Run(Init(n, m), acts);
            && AllExited(s)
            && (forall c :: 0 <= c < n ==> s.children[c].rounds >= 1 && Logged(s, c) == m * s.children[c].rounds)
            && (forall r :: 0 <= r < |s.log| ==> s.log[r] < n)
            && Sum(Counts(s.log, n)) == |s.log|
  {
    RunKeepsInvariant(n, m, acts);
    var s := Run(Init(n, m), acts);
    hide Run;
    AtMostAll(IsExited, s.children);
    forall c | 0 <= c < n
      ensures s.children[c].rounds >= 1 && Logged(s, c) == m * s.children[c].rounds
    {
      assert ChildOk(s, c);
    }
    CountsAddUp(s.log, n);
  }

  // ---------------------------------------------------------------- after the stop flag

  /** The records a child still appends once the flag is set: its first round, or the rest of its round. */
  function Left(m: nat, ch: Child): int
  {
    if !Started(ch.pc) then m
    else if ch.pc.Creating? || ch.pc.Joining? then m - Total(HasAppended, ch.threads)
    else 0
  }

  lemma LeftBounds(s: State, c: nat)
    requires c < |s.children| && ChildOk(s, c)
    ensures 0 <= Left(s.m, s.children[c]) <= s.m
  {
    var threads := s.children[c].threads;
    var ones := seq(|threads|, t => 1);
    SumZeroBound(Weights(HasAppended, threads));
    SumLeq(Weights(HasAppended, threads), ones);
    SumConstant(ones, 1);
  }

  lemma StoppedChild(s: State, c: nat)
    requires Enabled(s, OfChild(c)) && ThreadsOk(s.m, s.children[c]) && s.stop
    ensures Left(s.m, StepChild(s, c).children[c]) == Left(s.m, s.children[c])
  {
    var ch := s.children[c];
    if ch.pc.AwaitingStart? {
      TotalConstant(HasAppended, NoThreads(s.m), 0);
    } else if ch.pc.Creating? && ch.pc.j < s.m {
      TotalUpdate(HasAppended, ch.threads, ch.pc.j, Entering);
    } else if ch.pc.Joining? && ch.pc.j == s.m {
      TotalConstant(HasAppended, ch.threads, 1);
    }
  }

  lemma StoppedThread(s: State, c: nat, t: nat)
    requires Enabled(s, OfThread(c, t)) && ThreadsOk(s.m, s.children[c])
    ensures var s' := StepThread(s, c, t);
            Logged(s', c) + Left(s.m, s'.children[c]) == Logged(s, c) + Left(s.m, s.children[c])
    ensures forall d :: d != c ==> Logged(StepThread(s, c, t), d) == Logged(s, d)
  {
    var s' := StepThread(s, c, t);
    ThreadDelta(s, c, t);
    TotalUpdate(HasAppended, s.children[c].threads, t, s'.children[c].threads[t]);
    hide StepThread, Enabled, Total;
  }

  /** Once the flag is set, what a child has logged and what it will still log are fixed. */
  lemma StoppedStep(s: State, a: Action, c: nat)
    requires Invariant(s) && s.stop && c < |s.children|
    ensures var s' := Next(s, a);
            && s'.stop
            && Logged(s', c) + Left(s.m, s'.children[c]) == Logged(s, c) + Left(s.m, s.children[c])
  {
    hide ThreadsOk, Left, Logged, Total;
    if Enabled(s, a) {
      match a {
        case Main =>
          StoppedMain(s, c);
        case OfChild(d) =>
          assert ChildOk(s, d);
          ChildDelta(s, d);
          StoppedChild(s, d);
          hide StepChild, ChildOk;
          SameLog(s, StepChild(s, d), c);
        case OfThread(d, t) =>
          assert ChildOk(s, d);
          ThreadDelta(s, d, t);
          StoppedThread(s, d, t);
          hide StepThread, ChildOk;
      }
    }
  }

  lemma SameLog(s: State, s': State, c: nat)
    requires s'.log == s.log
    ensures Logged(s', c) == Logged(s, c)
  {
  }

  lemma StoppedMain(s: State, c: nat)
    requires Invariant(s) && s.stop && Enabled(s, Main)
    ensures StepMain(s) == s.(main := StepMain(s).main)
    ensures Logged(StepMain(s), c) == Logged(s, c)
  {
  }

  lemma {:induction false} StoppedRun(s: State, acts: seq<Action>, c: nat)
    requires Invariant(s) && s.stop && c < |s.children|
    ensures var s' := Run(s, acts);
            && Invariant(s') && s'.stop
            && Logged(s', c) + Left(s.m, s'.children[c]) == Logged(s, c) + Left(s.m, s.children[c])
    decreases |acts|
  {
    hide Next, Invariant, Logged, Left;
    if acts != [] {
      StoppedRun(s, acts[..|acts| - 1], c);
      StoppedStep(Run(s, acts[..|acts| - 1]), acts[|acts| - 1], c);
      StepKeepsInvariant(Run(s, acts[..|acts| - 1]), acts[|acts| - 1]);
    }
  }

  /**
   After `*data = 1` is stored each child appends at most `m` more records, in whatever
   order the processes and threads go on; the number it ends up with is already determined.
   */
  lemma StopBound(n: nat, m: nat, acts: seq<Action>, more: seq<Action>, c: nat)
    requires Run(Init(n, m), acts).stop && c < n
    ensures var s, s' := Run(Init(n, m), acts), Run(Init(n, m), acts + more);
            && Logged(s', c) <= Logged(s, c) + m
            && (s'.children[c].pc.Exited? ==> Logged(s', c) == Logged(s, c) + Left(m, s.children[c]))
  {
    var s := Run(Init(n, m), acts);
    RunKeepsInvariant(n, m, acts);
    RunConcat(Init(n, m), acts, more);
    StoppedRun(s, more, c);
    var s' := Run(s, more);
    hide Run;
    assert ChildOk(s, c) && ChildOk(s', c);
    LeftBounds(s, c);
    LeftBounds(s', c);
  }

  // ---------------------------------------------------------------- deadlock

  ghost predicate Stuck(s: State)
  {
    forall a :: !Enabled(s, a)
  }

  /** If the log's semaphore is taken, the thread that took it can go on. */
  lemma HolderMoves(s: State) returns (a: Action)
    requires Invariant(s) && s.critical == 0
    ensures Enabled(s, a)
  {
    var c := TotalWitness(HoldsLog, s.children);
    var t := TotalWitness(InCritical, s.children[c].threads);
    a := OfThread(c, t);
  }

  /** A child that has started and not exited can move, or one of the threads can. */
  lemma StartedChildMoves(s: State, c: nat) returns (a: Action)
    requires Invariant(s) && c < |s.children|
    requires Started(s.children[c].pc) && !s.children[c].pc.Exited?
    ensures Enabled(s, a)
  {
    assert ChildOk(s, c);
    var ch := s.children[c];
    if ch.pc.Joining? && ch.pc.j < s.m && !ch.threads[ch.pc.j].Finished? {
      if ch.threads[ch.pc.j].Entering? && s.critical == 0 {
        a := HolderMoves(s);
      } else {
        a := OfThread(c, ch.pc.j);
      }
    } else {
      a := OfChild(c);
    }
  }

  /** Some child falls short of a 0/1 weight whose total falls short. */
  lemma SomeZero(w: Child -> int, cs: seq<Child>) returns (c: nat)
    requires forall c :: 0 <= c < |cs| ==> 0 <= w(cs[c]) <= 1
    requires Total(w, cs) < |cs|
    ensures c < |cs| && w(cs[c]) == 0
  {
    if forall c :: 0 <= c < |cs| ==> w(cs[c]) == 1 {
      TotalConstant(w, cs, 1);
    }
    var d :| 0 <= d < |cs| && w(cs[d]) != 1;
    c := d;
  }

  /** Until main is done somebody can always move. */
  lemma SomebodyMoves(s: State) returns (a: Action)
    requires Invariant(s) && !s.main.Done?
    ensures Enabled(s, a)
  {
    if Enabled(s, Main) {
      a := Main;
    } else if s.main.Collecting? {
      var c := SomeZero(HasAnnounced, s.children);
      a := OfChild(c);
    } else {
      var c := SomeZero(IsExited, s.children);
      if Started(s.children[c].pc) {
        a := StartedChildMoves(s, c);
      } else {
        WaitingChildMayStart(s, c);
        a := OfChild(c);
      }
    }
  }

  /** A child waiting to start once main has released everybody finds a unit to take. */
  lemma WaitingChildMayStart(s: State, c: nat)
    requires Invariant(s) && s.main.Reaping? && c < |s.children| && !Started(s.children[c].pc)
    ensures s.children[c].pc.Announcing? || (s.children[c].pc.AwaitingStart? && s.start > 0)
  {
    AtMostAll(HasStarted, s.children);
  }

  /** No reachable state is stuck before main has finished. */
  lemma NeverStuck(n: nat, m: nat, acts: seq<Action>)
    ensures Stuck(Run(Init(n, m), acts)) ==> Run(Init(n, m), acts).main.Done?
  {
    var s := Run(Init(n, m), acts);
    RunKeepsInvariant(n, m, acts);
    hide Run;
    if !s.main.Done? {
      var a := SomebodyMoves(s);
    }
  }

  // ---------------------------------------------------------------- termination

  function ThreadWork(t: ThreadPc): int
  {
    match t
    case Absent => 4 case Entering => 3 case Appending => 2 case Posting => 1 case Finished => 0
  }

  /** Steps a child still takes, its threads included, once the flag is set. */
  function ChildWork(ch: Child): int
  {
    var m := |ch.threads|;
    match ch.pc
    case Unborn => 5 * m + 6
    case Announcing => 5 * m + 5
    case AwaitingStart => 5 * m + 4
    case Creating(j) => Total(ThreadWork, ch.threads) + m + 3
    case Joining(j) => Total(ThreadWork, ch.threads) + (if j <= m then m - j else 0) + 2
    case Checking => 1
    case Exited => 0
  }

  function MainWork(s: State): int
  {
    match s.main
    case Reaping(i) => |s.children| - i + 2
    case Parsing => 1
    case _ => 0
  }

  function Work(s: State): int
  {
    MainWork(s) + Total(ChildWork, s.children)
  }

  lemma ChildWorkIsNatural(ch: Child)
    ensures ChildWork(ch) >= 0
  {
    SumZeroBound(Weights(ThreadWork, ch.threads));
  }

  lemma WorkIsNatural(s: State)
    requires Invariant(s)
    ensures Work(s) >= 0
  {
    forall c | 0 <= c < |s.children| ensures ChildWork(s.children[c]) >= 0 {
      ChildWorkIsNatural(s.children[c]);
    }
    TotalNonNegative(ChildWork, s.children);
  }

  lemma ChildStepWorks(s: State, c: nat)
    requires Enabled(s, OfChild(c)) && ThreadsOk(s.m, s.children[c])
    requires s.children[c].pc.Checking? ==> s.stop
    ensures ChildWork(StepChild(s, c).children[c]) < ChildWork(s.children[c])
  {
    var ch := s.children[c];
    if ch.pc.AwaitingStart? {
      TotalConstant(ThreadWork, NoThreads(s.m), 4);
    } else if ch.pc.Creating? && ch.pc.j < s.m {
      TotalUpdate(ThreadWork, ch.threads, ch.pc.j, Entering);
    } else if ch.pc.Joining? && ch.pc.j == s.m {
      SumZeroBound(Weights(ThreadWork, ch.threads));
    }
  }

  lemma ThreadStepWorks(s: State, c: nat, t: nat)
    requires Enabled(s, OfThread(c, t)) && ThreadsOk(s.m, s.children[c])
    ensures ChildWork(StepThread(s, c, t).children[c]) < ChildWork(s.children[c])
  {
    ThreadDelta(s, c, t);
    TotalUpdate(ThreadWork, s.children[c].threads, t, StepThread(s, c, t).children[c].threads[t]);
  }

  /** Once the flag is set the measure drops on every step, whoever takes it. */
  lemma EveryStepWorks(s: State, a: Action)
    requires Invariant(s) && s.stop && Enabled(s, a)
    ensures Work(Next(s, a)) < Work(s)
  {
    match a {
      case Main =>
      case OfChild(c) =>
        assert ChildOk(s, c);
        ChildDelta(s, c);
        ChildStepWorks(s, c);
        hide StepChild, ChildWork, ThreadsOk;
        TotalUpdate(ChildWork, s.children, c, StepChild(s, c).children[c]);
      case OfThread(c, t) =>
        assert ChildOk(s, c);
        ThreadDelta(s, c, t);
        ThreadStepWorks(s, c, t);
        hide StepThread, ChildWork, ThreadsOk;
        TotalUpdate(ChildWork, s.children, c, StepThread(s, c, t).children[c]);
    }
  }

  /** How many of the scheduled steps are really taken. */
  function Moves(s: State, acts: seq<Action>): nat
    decreases |acts|
  {
    if acts == [] then 0
    else
      var front := acts[..|acts| - 1];
      Moves(s, front) + (if Enabled(Run(s, front), acts[|acts| - 1]) then 1 else 0)
  }

  /** Once the flag is set no schedule, however long, makes anybody move more often than this. */
  lemma {:induction false} BoundedMoves(s: State, acts: seq<Action>)
    requires Invariant(s) && s.stop
    ensures Invariant(Run(s, acts)) && Run(s, acts).stop
    ensures Moves(s, acts) + Work(Run(s, acts)) <= Work(s)
    ensures Moves(s, acts) <= Work(s)
    decreases |acts|
  {
    hide Next, Work, Invariant, Enabled;
    if acts != [] {
      var front, a := acts[..|acts| - 1], acts[|acts| - 1];
      BoundedMoves(s, front);
      StepKeepsInvariant(Run(s, front), a);
      StopStays(Run(s, front), a);
      if Enabled(Run(s, front), a) {
        EveryStepWorks(Run(s, front), a);
      } else {
        BlockedStays(Run(s, front), a);
      }
    }
    WorkIsNatural(Run(s, acts));
  }

  lemma StopStays(s: State, a: Action)
    requires s.stop
    ensures Next(s, a).stop
  {
  }

  lemma BlockedStays(s: State, a: Action)
    requires !Enabled(s, a)
    ensures Next(s, a) == s
  {
  }

  /** So after the flag is set every run can be completed, and completing it means that main is done. */
  lemma {:induction false} RunsToDone(n: nat, m: nat, acts: seq<Action>) returns (more: seq<Action>)
    requires Run(Init(n, m), acts).stop
    ensures Run(Init(n, m), acts + more).main.Done?
    decreases Work(Run(Init(n, m), acts))
  {
    var s := Run(Init(n, m), acts);
    RunKeepsInvariant(n, m, acts);
    hide Run, Next, Work, Invariant, Enabled, Init;
    if s.main.Done? {
      more := [];
      assert acts + more == acts;
    } else {
      var a := SomebodyMoves(s);
      RunConcat(Init(n, m), acts, [a]);
      RunOne(s, a);
      StopStays(s, a);
      StepKeepsInvariant(s, a);
      EveryStepWorks(s, a);
      WorkIsNatural(Next(s, a));
      var rest := RunsToDone(n, m, acts + [a]);
      more := [a] + rest;
      assert acts + more == acts + [a] + rest;
    }
  }

  lemma RunOne(s: State, a: Action)
    ensures Run(s, [a]) == Next(s, a)
  {
    assert [a][..0] == [];
  }
}
