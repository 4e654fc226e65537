/**
 The rounds: while the flag is unset every child that has started can go round again and
 again, whatever the others are in the middle of; and the log is written by one at a time.
 */
module RiepilogoRounds {
  import opened Sums
  import opened Riepilogo
  import opened RiepilogoTheorems
  import opened RiepilogoLiveness

  // ---------------------------------------------------------------- the log

  /** No two threads, of one child or of two, are between taking and releasing the log. */
  lemma LogIsExclusive(n: nat, m: nat, acts: seq<Action>, c: nat, t: nat, d: nat, u: nat)
    requires c < n && d < n && (c != d || t != u)
    ensures var s := Run(Init(n, m), acts);
            t < |s.children[c].threads| && u < |s.children[d].threads| ==>
              InCritical(s.children[c].threads[t]) == 0 || InCritical(s.children[d].threads[u]) == 0
  {
    RunKeepsInvariant(n, m, acts);
    var s := Run(Init(n, m), acts);
    hide Run, Init;
    if t < |s.children[c].threads| && u < |s.children[d].threads| {
      HoldsAtLeast(s.children[c], t);
      HoldsAtLeast(s.children[d], u);
      forall e | 0 <= e < n ensures HoldsLog(s.children[e]) >= 0 {
        TotalNonNegative(InCritical, s.children[e].threads);
      }
      if c != d {
        TotalPair(HoldsLog, s.children, c, d);
      } else {
        TotalPair(InCritical, s.children[c].threads, t, u);
        TotalTerm(HoldsLog, s.children, c);
      }
    }
  }

  lemma HoldsAtLeast(ch: Child, t: nat)
    requires t < |ch.threads|
    ensures HoldsLog(ch) >= InCritical(ch.threads[t])
  {
    TotalTerm(InCritical, ch.threads, t);
  }

  // ---------------------------------------------------------------- one step on

  /** In the middle of a round, the flag being unset. */
  predicate Going(s: State, c: nat)
  {
    && !s.stop && c < |s.children|
    && (s.children[c].pc.Creating? || s.children[c].pc.Joining?)
  }

  /** At the end of a round, the flag being unset. */
  predicate RoundDone(s: State, c: nat)
  {
    !s.stop && c < |s.children| && s.children[c].pc.Checking?
  }

  function CriticalWork(t: ThreadPc): int
  {
    match t
    case Appending => 2 case Posting => 1
    case _ => 0
  }

  function ChildCritical(ch: Child): int { Total(CriticalWork, ch.threads) }

  /** Steps until the log is released. */
  function ToRelease(s: State): (w: nat)
  {
    forall c | 0 <= c < |s.children| ensures ChildCritical(s.children[c]) >= 0 {
      TotalNonNegative(CriticalWork, s.children[c].threads);
    }
    TotalNonNegative(ChildCritical, s.children);
    Total(ChildCritical, s.children)
  }

  /** Steps of child `c` and its threads until its round is done. */
  function ToFinish(s: State, c: nat): (w: nat)
    requires c < |s.children|
  {
    ChildWorkIsNatural(s.children[c]);
    ChildWork(s.children[c])
  }

  /** One step that brings the end of the round of `c` closer, or is its end. */
  ghost predicate Closer(s: State, s': State, c: nat)
    requires c < |s.children| == |s'.children|
  {
    var ch, ch' := s.children[c], s'.children[c];
    || (RoundDone(s', c) && ch'.rounds == ch.rounds + 1)
    || (&& Going(s', c) && ch'.rounds == ch.rounds
        && (ToFinish(s', c) < ToFinish(s, c) || (ToFinish(s', c) == ToFinish(s, c) && ToRelease(s') < ToRelease(s))))
  }

  lemma OwnChildStep(s: State, c: nat)
    requires Invariant(s) && Going(s, c) && Enabled(s, OfChild(c))
    ensures Closer(s, StepChild(s, c), c)
  {
    assert ChildOk(s, c);
    ChildStepWorks(s, c);
    hide ChildWork, ToRelease, ThreadsOk;
  }

  lemma OwnThreadStep(s: State, c: nat, t: nat)
    requires Invariant(s) && Going(s, c) && Enabled(s, OfThread(c, t))
    ensures Closer(s, StepThread(s, c, t), c)
  {
    assert ChildOk(s, c);
    ThreadStepWorks(s, c, t);
    ThreadDelta(s, c, t);
    hide ChildWork, ToRelease, ThreadsOk, StepThread;
  }

  /** A thread of another child that has the log comes closer to releasing it. */
  lemma HolderStep(s: State, c: nat, d: nat, t: nat)
    requires Invariant(s) && Going(s, c) && Enabled(s, OfThread(d, t)) && d != c
    requires InCritical(s.children[d].threads[t]) == 1
    ensures Closer(s, StepThread(s, d, t), c)
  {
    var s' := StepThread(s, d, t);
    ThreadDelta(s, d, t);
    TotalUpdate(CriticalWork, s.children[d].threads, t, s'.children[d].threads[t]);
    TotalUpdate(ChildCritical, s.children, d, s'.children[d]);
    OneStepLess(s, d, t);
    hide ChildWork, StepThread, Total;
  }

  lemma OneStepLess(s: State, d: nat, t: nat)
    requires Enabled(s, OfThread(d, t)) && InCritical(s.children[d].threads[t]) == 1
    ensures |StepThread(s, d, t).children| == |s.children|
    ensures |StepThread(s, d, t).children[d].threads| == |s.children[d].threads|
    ensures CriticalWork(StepThread(s, d, t).children[d].threads[t]) < CriticalWork(s.children[d].threads[t])
  {
  }

  /** The thread that has the log. */
  lemma Holder(s: State) returns (d: nat, t: nat)
    requires Invariant(s) && s.critical == 0
    ensures Enabled(s, OfThread(d, t)) && InCritical(s.children[d].threads[t]) == 1
  {
    d := TotalWitness(HoldsLog, s.children);
    t := TotalWitness(InCritical, s.children[d].threads);
  }

  lemma OneStepOn(s: State, c: nat) returns (a: Action)
    requires Invariant(s) && Going(s, c)
    ensures Closer(s, Next(s, a), c)
  {
    assert ChildOk(s, c);
    var ch := s.children[c];
    if ch.pc.Joining? && ch.pc.j < s.m && !ch.threads[ch.pc.j].Finished? {
      if ch.threads[ch.pc.j].Entering? && s.critical == 0 {
        var d, t := Holder(s);
        a := OfThread(d, t);
        if d == c {
          OwnThreadStep(s, c, t);
        } else {
          HolderStep(s, c, d, t);
        }
      } else {
        a := OfThread(c, ch.pc.j);
        OwnThreadStep(s, c, ch.pc.j);
      }
    } else {
      a := OfChild(c);
      OwnChildStep(s, c);
    }
    hide StepThread, StepChild, Closer;
  }

  // ---------------------------------------------------------------- rounds

  /** A round that has begun can be finished without the flag being set. */
  lemma {:induction false} FinishesRound(n: nat, m: nat, acts: seq<Action>, c: nat) returns (more: seq<Action>)
    requires Going(Run(Init(n, m), acts), c)
    ensures RoundDone(Run(Init(n, m), acts + more), c)
    ensures Run(Init(n, m), acts + more).children[c].rounds == Run(Init(n, m), acts).children[c].rounds + 1
    decreases ToFinish(Run(Init(n, m), acts), c), ToRelease(Run(Init(n, m), acts))
  {
    hide Run, Init, Next, Invariant, ToFinish, ToRelease;
    var s := Run(Init(n, m), acts);
    RunKeepsInvariant(n, m, acts);
    var a := OneStepOn(s, c);
    RunConcat(Init(n, m), acts, [a]);
    RunOne(s, a);
    if RoundDone(Next(s, a), c) {
      more := [a];
    } else {
      var rest := FinishesRound(n, m, acts + [a], c);
      more := [a] + rest;
      assert acts + more == (acts + [a]) + rest;
    }
  }

  /** At the end of a round, with the flag unset, the child always begins another with `m` new threads. */
  lemma GoesRoundAgain(s: State, c: nat)
    requires Invariant(s) && RoundDone(s, c)
    ensures var s' := Next(s, OfChild(c));
            && Going(s', c) && s'.log == s.log
            && var ch' := s'.children[c];
            && ch'.pc == Creating(0) && ch'.rounds == s.children[c].rounds
            && |ch'.threads| == s.m && forall t :: 0 <= t < s.m ==> ch'.threads[t].Absent?
  {
  }

  lemma {:induction false} RoundAfterRound(n: nat, m: nat, acts: seq<Action>, c: nat, k: nat)
    returns (more: seq<Action>)
    requires RoundDone(Run(Init(n, m), acts), c)
    ensures RoundDone(Run(Init(n, m), acts + more), c)
    ensures Run(Init(n, m), acts + more).children[c].rounds == Run(Init(n, m), acts).children[c].rounds + k
    decreases k
  {
    hide Run, Init, Next, Invariant, Going, RoundDone;
    if k == 0 {
      more := [];
      assert acts + more == acts;
    } else {
      var s := Run(Init(n, m), acts);
      RunKeepsInvariant(n, m, acts);
      GoesRoundAgain(s, c);
      RunConcat(Init(n, m), acts, [OfChild(c)]);
      RunOne(s, OfChild(c));
      var one := FinishesRound(n, m, acts + [OfChild(c)], c);
      var rest := RoundAfterRound(n, m, acts + [OfChild(c)] + one, c, k - 1);
      more := [OfChild(c)] + one + rest;
      assert acts + more == (acts + [OfChild(c)] + one) + rest;
    }
  }

  /**
   Nobody is held up but main by children that are not ready or have not exited, children by
   the barrier and by threads that have not finished, and threads by a thread that has the log.
   */
  lemma HeldUpOnly(s: State, a: Action)
    requires Invariant(s) && !Enabled(s, a)
    ensures a.Main? ==>
              s.main.Done? || (s.main.Collecting? && s.ready == 0) ||
              (s.main.Reaping? && exists c :: 0 <= c < |s.children| && !s.children[c].pc.Exited?)
    ensures a.OfChild? && a.c < |s.children| ==>
              var ch := s.children[a.c];
              ch.pc.Unborn? || ch.pc.Exited? || (ch.pc.AwaitingStart? && s.start == 0) ||
              (ch.pc.Joining? && exists t :: 0 <= t < |ch.threads| && !ch.threads[t].Finished?)
    ensures a.OfThread? && a.c < |s.children| && a.t < |s.children[a.c].threads| ==>
              var pc := s.children[a.c].threads[a.t];
              pc.Absent? || pc.Finished? ||
              (pc.Entering? && exists d, u :: 0 <= d < |s.children| && 0 <= u < |s.children[d].threads| &&
                                 InCritical(s.children[d].threads[u]) == 1)
  {
    if a.Main? && s.main.Reaping? {
      var c := SomeZero(IsExited, s.children);
    } else if a.OfThread? && s.critical == 0 {
      var d, u := Holder(s);
    }
  }

  /** A child exits only by finding the flag set at the end of a round. */
  lemma ExitsOnlyAtCheck(s: State, a: Action, c: nat)
    requires c < |s.children| && !s.children[c].pc.Exited? && Next(s, a).children[c].pc.Exited?
    ensures a == OfChild(c) && s.children[c].pc.Checking? && s.stop
  {
  }

  // ---------------------------------------------------------------- getting started

  predicate HasBegun(s: State, c: nat)
  {
    c < |s.children| && Started(s.children[c].pc)
  }

  function MainToGo(s: State): nat { Natural(Stage(s)) }

  function OthersToGo(s: State): nat { Natural(Unannounced(s)) }

  /** One step towards the start of child `c`, or its start. */
  predicate ComesToStart(s: State, s': State, c: nat)
  {
    && !s'.stop
    && (|| HasBegun(s', c)
        || MainToGo(s') < MainToGo(s)
        || (MainToGo(s') == MainToGo(s) && OthersToGo(s') < OthersToGo(s)))
  }

  lemma AnnouncingComesToStart(s: State, d: nat, c: nat)
    requires Invariant(s) && !s.stop && d < |s.children| && s.children[d].pc.Announcing?
    ensures Enabled(s, OfChild(d)) && ComesToStart(s, StepChild(s, d), c)
  {
    var s' := StepChild(s, d);
    ChildTotals(s.children, d, s'.children[d]);
    AtMostAll(HasAnnounced, s'.children);
  }

  lemma MainComesToStart(s: State, c: nat)
    requires Invariant(s) && Enabled(s, Main) && (s.main.Forking? || s.main.Collecting? || s.main.Releasing?)
    ensures ComesToStart(s, StepMain(s), c)
  {
    RankIsNatural(s);
  }

  /** While a child has to wait at the barrier main has not released everybody. */
  lemma NotAllReleased(s: State, c: nat)
    requires Invariant(s) && !s.stop && c < |s.children| && !Started(s.children[c].pc)
    requires s.children[c].pc.Unborn? || s.start == 0
    ensures s.main.Forking? || s.main.Collecting? || s.main.Releasing?
  {
    AtMostAll(HasStarted, s.children);
  }

  lemma OneStepToStart(s: State, c: nat) returns (a: Action)
    requires Invariant(s) && !s.stop && c < |s.children| && !Started(s.children[c].pc)
    ensures ComesToStart(s, Next(s, a), c)
  {
    if s.children[c].pc.Announcing? {
      a := OfChild(c);
      AnnouncingComesToStart(s, c, c);
    } else if s.children[c].pc.AwaitingStart? && s.start > 0 {
      a := OfChild(c);
    } else {
      NotAllReleased(s, c);
      if Enabled(s, Main) {
        a := Main;
        MainComesToStart(s, c);
      } else {
        var d := SomeZero(HasAnnounced, s.children);
        a := OfChild(d);
        AnnouncingComesToStart(s, d, c);
      }
    }
  }

  /** Every child can start before the flag is set. */
  lemma {:induction false} GetsStarted(n: nat, m: nat, acts: seq<Action>, c: nat) returns (more: seq<Action>)
    requires c < n && !Run(Init(n, m), acts).stop
    ensures !Run(Init(n, m), acts + more).stop && HasBegun(Run(Init(n, m), acts + more), c)
    ensures Run(Init(n, m), acts + more).children[c].rounds >= Run(Init(n, m), acts).children[c].rounds
    ensures Logged(Run(Init(n, m), acts + more), c) >= Logged(Run(Init(n, m), acts), c)
    decreases MainToGo(Run(Init(n, m), acts)), OthersToGo(Run(Init(n, m), acts))
  {
    hide Run, Init, Next, Invariant, Logged, MainToGo, OthersToGo;
    var s := Run(Init(n, m), acts);
    RunKeepsInvariant(n, m, acts);
    if HasBegun(s, c) {
      more := [];
      assert acts + more == acts;
    } else {
      var a := OneStepToStart(s, c);
      RunConcat(Init(n, m), acts, [a]);
      RunOne(s, a);
      NothingLogged(s, c);
      if HasBegun(Next(s, a), c) {
        more := [a];
      } else {
        var rest := GetsStarted(n, m, acts + [a], c);
        more := [a] + rest;
        assert acts + more == (acts + [a]) + rest;
      }
    }
  }

  lemma NothingLogged(s: State, c: nat)
    requires Invariant(s) && c < |s.children| && !Started(s.children[c].pc)
    ensures Logged(s, c) == 0 && s.children[c].rounds == 0
  {
    assert ChildOk(s, c);
  }

  /** Records at the end of a round, and in the middle of one. */
  lemma RecordsOf(n: nat, m: nat, acts: seq<Action>, c: nat)
    requires c < n && Started(Run(Init(n, m), acts).children[c].pc)
    ensures var s := Run(Init(n, m), acts);
            && (RoundDone(s, c) ==> Logged(s, c) == m * s.children[c].rounds)
            && Logged(s, c) <= m * s.children[c].rounds + m
            && (!s.stop ==> Going(s, c) || RoundDone(s, c))
  {
    RunKeepsInvariant(n, m, acts);
    var s := Run(Init(n, m), acts);
    hide Run, Init;
    assert ChildOk(s, c);
    LeftBounds(s, c);
    TotalNonNegative(HasAppended, s.children[c].threads);
  }

  lemma Multiply(m: nat, a: nat, b: nat)
    requires a <= b
    ensures m * a <= m * b
  {
  }

  lemma AnyNumberOfRoundsFrom(n: nat, m: nat, acts: seq<Action>, c: nat, k: nat) returns (more: seq<Action>)
    requires c < n && !Run(Init(n, m), acts).stop && Started(Run(Init(n, m), acts).children[c].pc)
    ensures var s, s' := Run(Init(n, m), acts), Run(Init(n, m), acts + more);
            && !s'.stop
            && s'.children[c].rounds >= s.children[c].rounds + k
            && Logged(s', c) >= Logged(s, c) + m * k
  {
    hide Run, Init, Logged, Going, ToFinish;
    var s := Run(Init(n, m), acts);
    RecordsOf(n, m, acts, c);
    var first := [];
    assert acts + first == acts;
    if Going(s, c) {
      first := FinishesRound(n, m, acts, c);
    }
    var rest := RoundAfterRound(n, m, acts + first, c, k);
    more := first + rest;
    assert acts + more == (acts + first) + rest;
    RecordsOf(n, m, acts + more, c);
    var r, r' := s.children[c].rounds, Run(Init(n, m), acts + more).children[c].rounds;
    if first != [] || r' >= r + k + 1 {
      Multiply(m, r + 1 + k, r');
      assert m * (r + 1 + k) == m * r + m + m * k;
    } else {
      assert m * (r + k) == m * r + m * k;
    }
  }

  /**
   From every reachable state in which the flag is unset, for every child `c` and every number
   `k`, the run can go on, the flag staying unset, so that the child completes at least `k`
   more rounds and adds at least `m * k` more records.
   */
  lemma AnyNumberOfRounds(n: nat, m: nat, acts: seq<Action>, c: nat, k: nat) returns (more: seq<Action>)
    requires c < n && !Run(Init(n, m), acts).stop
    ensures var s, s' := Run(Init(n, m), acts), Run(Init(n, m), acts + more);
            && !s'.stop
            && s'.children[c].rounds >= s.children[c].rounds + k
            && Logged(s', c) >= Logged(s, c) + m * k
  {
    hide Run, Init, Logged, Started;
    var first := GetsStarted(n, m, acts, c);
    var rest := AnyNumberOfRoundsFrom(n, m, acts + first, c, k);
    more := first + rest;
    assert acts + more == (acts + first) + rest;
  }
}
