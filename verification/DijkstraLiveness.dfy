/**
 The core of progress in Dijkstra's algorithm: on every infinite weakly fair run, while
 somebody contends and nobody is inside, everything comes closer to somebody's entry.
 */
module DijkstraLiveness {
  import opened Sums
  import opened Modular
  import opened Fairness
  import opened Dijkstra

  // ---------------------------------------------------------------- infinite runs

  /** The state at time `t` of the infinite run in which `actor(t)` moves at time `t`. */
  function StateAt(scans: Scans, n: nat, actor: nat -> nat, t: nat): (s: State)
    ensures WellFormed(s) && |s.pc| == n
  {
    if t == 0 then Init(n) else Next(scans, StateAt(scans, n, actor, t - 1), actor(t - 1))
  }

  ghost predicate MovesOrRests(scans: Scans, n: nat, actor: nat -> nat, p: nat, t: nat)
    requires p < n
  {
    exists u: nat :: t <= u && (actor(u) == p || StateAt(scans, n, actor, u).pc[p].Idle?)
  }

  /** A process moves again and again, unless it is outside the protocol. */
  ghost predicate WeaklyFair(scans: Scans, n: nat, actor: nat -> nat)
  {
    forall p: nat, t: nat :: p < n ==> MovesOrRests(scans, n, actor, p, t)
  }

  lemma {:induction false} LocalsAt(scans: Scans, n: nat, actor: nat -> nat, t: nat)
    ensures Locals(StateAt(scans, n, actor, t))
  {
    if t == 0 {
      InitHolds(n);
    } else {
      LocalsAt(scans, n, actor, t - 1);
      StepKeepsLocals(scans, StateAt(scans, n, actor, t - 1), actor(t - 1));
    }
  }

  // ---------------------------------------------------------------- the measure

  predicate Leaving(pc: Pc)
  {
    pc.LeavePassed? || pc.LeaveInterested?
  }

  predicate Contending(pc: Pc)
  {
    !pc.Idle? && !pc.Critical? && !Leaving(pc)
  }

  ghost predicate SomeoneCritical(s: State)
  {
    exists i :: 0 <= i < |s.pc| && s.pc[i].Critical?
  }

  ghost predicate SomeoneContends(s: State)
  {
    exists i :: 0 <= i < |s.pc| && Contending(s.pc[i])
  }

  /** Steps a process takes before it contends again for good. */
  function JoinWeight(pc: Pc): nat
  {
    match pc
    case LeavePassed => 3 case LeaveInterested => 2 case Idle => 1
    case _ => 0
  }

  function Joins(s: State): seq<nat>
  {
    seq(|s.pc|, i requires 0 <= i < |s.pc| => JoinWeight(s.pc[i]))
  }

  /** Could still write `k` although its owner contends: it read `!interested` of an outsider before. */
  function WriterWeight(s: State, pc: Pc): nat
    requires pc.LoadInterested? ==> pc.owner < |s.pc|
  {
    match pc
    case LoadInterested(owner) => if s.pc[owner].Idle? then 2 else 0
    case WriteK => 1
    case _ => 0
  }

  function Writers(s: State): seq<nat>
    requires WellFormed(s)
  {
    seq(|s.pc|, i requires 0 <= i < |s.pc| => WriterWeight(s, s.pc[i]))
  }

  /** How far a process other than the owner of `k` is from clearing its `passed` entry for good. */
  function BlockerWeight(n: nat, pc: Pc, passed: bool): nat
  {
    match pc
    case SetPassed => n + 4
    case Scan(j) => if j <= n then n - j + 3 else 3
    case TestK => if passed then 2 else 0
    case ClearPassed => if passed then 1 else 0
    case _ => 0
  }

  function Blockers(s: State): seq<nat>
    requires WellFormed(s)
  {
    seq(|s.pc|, i requires 0 <= i < |s.pc| =>
      if i == s.k then 0 else BlockerWeight(|s.pc|, s.pc[i], s.passed[i]))
  }

  /** How far a process is from `k = i` when the owner of `k` is outside. */
  function ClaimWeight(s: State, pc: Pc): nat
    requires pc.LoadInterested? ==> pc.owner < |s.pc|
  {
    match pc
    case SetPassed => |s.pc| + 7
    case Scan(j) => if j <= |s.pc| then |s.pc| - j + 6 else 6
    case LoadInterested(owner) => if s.pc[owner].Idle? then 1 else 5
    case TestK => 4
    case ClearPassed => 3
    case LoadK => 2
    case _ => 0
  }

  /** How far the owner of `k` is from the critical section once nothing is in its way. */
  function OwnerWeight(n: nat, pc: Pc): nat
  {
    match pc
    case ClearPassed => n + 5
    case LoadK => n + 4
    case LoadInterested(_) => n + 3
    case WriteK => n + 3
    case TestK => n + 2
    case SetPassed => n + 1
    case Scan(j) => if j <= n then n - j else 0
    case _ => 0
  }

  function Leavers(s: State): seq<bool>
  {
    seq(|s.pc|, i requires 0 <= i < |s.pc| => Leaving(s.pc[i]))
  }

  function Contenders(s: State): seq<bool>
  {
    seq(|s.pc|, i requires 0 <= i < |s.pc| => Contending(s.pc[i]))
  }

  function Positive(ws: seq<nat>): seq<bool>
  {
    seq(|ws|, i requires 0 <= i < |ws| => ws[i] > 0)
  }

  /** 2 when the owner of `k` is outside, 1 when it is on its way out, 0 when it contends. */
  function OwnerClass(s: State): nat
    requires WellFormed(s) && |s.pc| > 0
  {
    if s.pc[s.k].Idle? then 2 else if Contending(s.pc[s.k]) then 0 else 1
  }

  function RankOf(s: State): Rank
    requires WellFormed(s)
  {
    if |s.pc| == 0 then Rank(0, 0, 0, 0, 0)
    else
      var c := First(Contenders(s));
      match OwnerClass(s)
      case 2 => Rank(Count(Joins(s)), 2, if c < |s.pc| then ClaimWeight(s, s.pc[c]) else 0, 0, 0)
      case 1 => Rank(Count(Joins(s)), 1, 0, 0, 0)
      case _ =>
        Rank(Count(Joins(s)), 0, Count(Writers(s)), Count(Blockers(s)),
             if Count(Blockers(s)) == 0 && First(Leavers(s)) == |s.pc|
             then OwnerWeight(|s.pc|, s.pc[s.k]) else 0)
  }

  /** The process whose next step brings somebody closer to the critical section. */
  function Helpful(s: State): nat
    requires WellFormed(s)
  {
    if |s.pc| == 0 then 0
    else if First(Leavers(s)) < |s.pc| then First(Leavers(s))
    else if OwnerClass(s) == 2 then First(Contenders(s))
    else if Count(Blockers(s)) > 0 then First(Positive(Blockers(s)))
    else s.k
  }

  ghost predicate Closer(scans: Scans, s: State, p: nat)
    requires WellFormed(s)
  {
    var s' := Next(scans, s, p);
    || SomeoneCritical(s')
    || Below(RankOf(s'), RankOf(s))
    || (RankOf(s') == RankOf(s) && Helpful(s') == Helpful(s) && p != Helpful(s))
  }

  /** The situation between two entries. */
  ghost predicate Waiting(scans: Scans, s: State)
  {
    WellFormed(s) && Locals(s) && NoSelf(scans, |s.pc|) && SomeoneContends(s) && !SomeoneCritical(s)
  }

  // ---------------------------------------------------------------- every step comes closer

  /** Joining, or getting out of the way for good. */
  lemma OutsiderComesCloser(scans: Scans, s: State, p: nat)
    requires Waiting(scans, s) && p < |s.pc| && !Contending(s.pc[p])
    ensures Closer(scans, s, p)
  {
    var s' := Next(scans, s, p);
    SumPoint(Joins(s), Joins(s'), p);
  }

  /** What the step of a contender that does not enter leaves alone. */
  lemma ContenderFrame(scans: Scans, s: State, p: nat)
    requires Waiting(scans, s) && p < |s.pc| && Contending(s.pc[p])
    ensures var s' := Next(scans, s, p);
            SomeoneCritical(s') ||
            (&& Contending(s'.pc[p]) && s'.pc == s.pc[p := s'.pc[p]]
             && s'.passed == s.passed[p := s'.passed[p]]
             && (s.pc[p].WriteK? || s'.k == s.k) && (s.pc[p].WriteK? ==> s'.k == p)
             && Joins(s') == Joins(s)
             && Leavers(s') == Leavers(s) && Contenders(s') == Contenders(s)
             && forall i :: 0 <= i < |s.pc| ==> s'.pc[i].Idle? == s.pc[i].Idle?)
  {
    var s' := Next(scans, s, p);
    if s'.pc[p].Critical? {
      assert SomeoneCritical(s');
    } else {
      assert Joins(s') == Joins(s) && Leavers(s') == Leavers(s) && Contenders(s') == Contenders(s);
    }
  }

  /** `k = i`: the owner now contends, or there is one writer fewer. */
  lemma WriteComesCloser(scans: Scans, s: State, p: nat)
    requires Waiting(scans, s) && p < |s.pc| && s.pc[p].WriteK?
    ensures Closer(scans, s, p)
  {
    ContenderFrame(scans, s, p);
    var s' := Next(scans, s, p);
    if !SomeoneCritical(s') && OwnerClass(s) == 0 {
      SumPoint(Writers(s), Writers(s'), p);
    }
  }

  /** The owner of `k` is outside: the first contender approaches its write. */
  lemma ClaimComesCloser(scans: Scans, s: State, p: nat)
    requires Waiting(scans, s) && p < |s.pc| && Contending(s.pc[p]) && !s.pc[p].WriteK?
    requires OwnerClass(s) == 2
    ensures Closer(scans, s, p)
  {
    ContenderFrame(scans, s, p);
    var s' := Next(scans, s, p);
    var c := First(Contenders(s));
    assert c < |s.pc| by {
      var i :| 0 <= i < |s.pc| && Contending(s.pc[i]);
      assert Contenders(s)[i];
    }
    assert Contenders(s)[c];
    assert Local(s, p);
    if s.pc[p].LoadInterested? {
      assert Local(s, s.pc[p].owner);
    }
    if !SomeoneCritical(s') && p == c {
      assert ClaimWeight(s', s'.pc[p]) < ClaimWeight(s, s.pc[p]);
    }
    assert !Leavers(s)[p];
  }

  /** The owner of `k` is on its way out: nobody else's step matters. */
  lemma NothingLost(scans: Scans, s: State, p: nat)
    requires Waiting(scans, s) && p < |s.pc| && Contending(s.pc[p]) && !s.pc[p].WriteK?
    requires OwnerClass(s) == 1
    ensures Closer(scans, s, p)
  {
    ContenderFrame(scans, s, p);
    assert !Leavers(s)[p] && Leavers(s)[s.k];
  }

  /** The owner of `k` contends: writers die out. */
  lemma WritersDwindle(scans: Scans, s: State, p: nat)
    requires Waiting(scans, s) && p < |s.pc| && Contending(s.pc[p]) && !s.pc[p].WriteK?
    requires OwnerClass(s) == 0 && !SomeoneCritical(Next(scans, s, p))
    ensures var s' := Next(scans, s, p);
            && Count(Writers(s')) <= Count(Writers(s))
            && (s.pc[p].LoadInterested? && s.pc[s.pc[p].owner].Idle? ==> Count(Writers(s')) < Count(Writers(s)))
  {
    ContenderFrame(scans, s, p);
    var s' := Next(scans, s, p);
    assert Local(s, s.k);
    SumPoint(Writers(s), Writers(s'), p);
    if s.pc[p].LoadInterested? {
      assert Local(s, s.pc[p].owner);
    }
  }

  /** The owner of `k` contends: others clear their `passed` entries and do not set them again. */
  lemma BlockersDwindle(scans: Scans, s: State, p: nat)
    requires Waiting(scans, s) && p < |s.pc| && Contending(s.pc[p]) && !s.pc[p].WriteK?
    requires OwnerClass(s) == 0 && !SomeoneCritical(Next(scans, s, p))
    ensures var s' := Next(scans, s, p);
            if Blockers(s)[p] > 0 then Count(Blockers(s')) < Count(Blockers(s))
            else Blockers(s') == Blockers(s)
  {
    ContenderFrame(scans, s, p);
    var s' := Next(scans, s, p);
    assert Local(s, p);
    SumPoint(Blockers(s), Blockers(s'), p);
    assert p != s.k ==> Blockers(s')[p] < Blockers(s)[p] || Blockers(s')[p] == Blockers(s)[p] == 0;
    if Blockers(s)[p] == 0 {
      assert Blockers(s') == Blockers(s);
    }
  }

  lemma AllZero(ws: seq<nat>, i: nat)
    requires Count(ws) == 0 && i < |ws|
    ensures ws[i] == 0
  {
    SumTerm(ws, i);
  }

  /** Nothing in the way of the owner of `k`: it goes straight in. */
  lemma OwnerComesCloser(scans: Scans, s: State)
    requires Waiting(scans, s) && |s.pc| > 0 && OwnerClass(s) == 0 && !s.pc[s.k].WriteK?
    requires Count(Blockers(s)) == 0 && First(Leavers(s)) == |s.pc|
    requires !(s.pc[s.k].LoadInterested? && s.pc[s.pc[s.k].owner].Idle?)
    requires !SomeoneCritical(Next(scans, s, s.k))
    ensures OwnerWeight(|s.pc|, Next(scans, s, s.k).pc[s.k]) < OwnerWeight(|s.pc|, s.pc[s.k])
  {
    assert Local(s, s.k);
    assert !Next(scans, s, s.k).pc[s.k].Critical?;
    match s.pc[s.k] {
      case Scan(j) =>
        if j != s.k {
          assert Local(s, j);
          AllZero(Blockers(s), j);
          assert !Leavers(s)[j];
          assert !s.pc[j].Critical?;
        }
      case LoadInterested(owner) =>
        assert Local(s, owner);
      case _ =>
    }
  }

  lemma FirstPositive(ws: seq<nat>)
    requires Count(ws) > 0
    ensures First(Positive(ws)) < |ws| && ws[First(Positive(ws))] > 0
  {
    var i := SumWitness(ws);
    assert Positive(ws)[i];
    assert Positive(ws)[First(Positive(ws))];
  }

  lemma RivalsComeCloser(scans: Scans, s: State, p: nat)
    requires Waiting(scans, s) && p < |s.pc| && Contending(s.pc[p]) && !s.pc[p].WriteK?
    requires OwnerClass(s) == 0
    ensures Closer(scans, s, p)
  {
    var s' := Next(scans, s, p);
    if !SomeoneCritical(s') {
      ContenderFrame(scans, s, p);
      WritersDwindle(scans, s, p);
      BlockersDwindle(scans, s, p);
      assert !Leavers(s)[p];
      if Count(Blockers(s)) > 0 {
        FirstPositive(Blockers(s));
      } else {
        AllZero(Blockers(s), p);
        if p == s.k && First(Leavers(s)) == |s.pc|
          && !(s.pc[p].LoadInterested? && s.pc[s.pc[p].owner].Idle?)
        {
          OwnerComesCloser(scans, s);
        }
      }
    }
  }

  lemma StepComesCloser(scans: Scans, s: State, p: nat)
    requires Waiting(scans, s)
    ensures Closer(scans, s, p)
    ensures SomeoneCritical(Next(scans, s, p)) || SomeoneContends(Next(scans, s, p))
  {
    if p >= |s.pc| {
      HelpfulIsActive(s);
    } else {
      var i :| 0 <= i < |s.pc| && Contending(s.pc[i]);
      if !Contending(s.pc[p]) {
        OutsiderComesCloser(scans, s, p);
        assert Contending(Next(scans, s, p).pc[i]);
      } else {
        ContenderFrame(scans, s, p);
        if s.pc[p].WriteK? {
          WriteComesCloser(scans, s, p);
        } else if OwnerClass(s) == 2 {
          ClaimComesCloser(scans, s, p);
        } else if OwnerClass(s) == 1 {
          NothingLost(scans, s, p);
        } else {
          RivalsComeCloser(scans, s, p);
        }
      }
    }
  }

  /** The process waited for is a process, and is never outside the protocol. */
  lemma HelpfulIsActive(s: State)
    requires WellFormed(s) && SomeoneContends(s) && !SomeoneCritical(s)
    ensures Helpful(s) < |s.pc| && !s.pc[Helpful(s)].Idle?
  {
    var i :| 0 <= i < |s.pc| && Contending(s.pc[i]);
    assert Contenders(s)[i];
    if First(Leavers(s)) < |s.pc| {
      assert Leavers(s)[First(Leavers(s))];
    } else if OwnerClass(s) == 2 {
      assert Contenders(s)[First(Contenders(s))];
    } else if Count(Blockers(s)) > 0 {
      FirstPositive(Blockers(s));
    }
  }

  // ---------------------------------------------------------------- progress

  ghost predicate EnteredBy(scans: Scans, n: nat, actor: nat -> nat, from: nat, t: nat)
  {
    exists u: nat :: from <= u <= t && SomeoneCritical(StateAt(scans, n, actor, u))
  }

  lemma {:induction false} StillWaiting(scans: Scans, n: nat, actor: nat -> nat, from: nat, t: nat)
    requires NoSelf(scans, n) && from <= t && SomeoneContends(StateAt(scans, n, actor, from))
    ensures EnteredBy(scans, n, actor, from, t) || Waiting(scans, StateAt(scans, n, actor, t))
    decreases t
  {
    LocalsAt(scans, n, actor, t);
    if from < t {
      StillWaiting(scans, n, actor, from, t - 1);
      if !EnteredBy(scans, n, actor, from, t - 1) {
        StepComesCloser(scans, StateAt(scans, n, actor, t - 1), actor(t - 1));
      }
    }
    assert SomeoneCritical(StateAt(scans, n, actor, t)) ==> EnteredBy(scans, n, actor, from, t);
  }

  lemma OthersStay(scans: Scans, s: State, p: nat, q: nat)
    requires WellFormed(s) && p < |s.pc| && p != q
    ensures Next(scans, s, q).pc[p] == s.pc[p]
  {
  }

  /** A process that is outside at a later time must have moved meanwhile. */
  lemma {:induction false} MovedBefore(scans: Scans, n: nat, actor: nat -> nat, p: nat, t: nat, u: nat) returns (v: nat)
    requires p < n && t <= u
    requires !StateAt(scans, n, actor, t).pc[p].Idle? && StateAt(scans, n, actor, u).pc[p].Idle?
    ensures t <= v && actor(v) == p
    decreases u - t
  {
    if actor(t) == p {
      v := t;
    } else {
      OthersStay(scans, StateAt(scans, n, actor, t), p, actor(t));
      hide Next;
      assert StateAt(scans, n, actor, t + 1).pc[p] == StateAt(scans, n, actor, t).pc[p];
      v := MovedBefore(scans, n, actor, p, t + 1, u);
    }
  }

  lemma HelpComes(scans: Scans, n: nat, actor: nat -> nat, t: nat) returns (v: nat)
    requires WeaklyFair(scans, n, actor) && Waiting(scans, StateAt(scans, n, actor, t))
    ensures t <= v && actor(v) == Helpful(StateAt(scans, n, actor, t))
  {
    HelpfulIsActive(StateAt(scans, n, actor, t));
    var p := Helpful(StateAt(scans, n, actor, t));
    assert MovesOrRests(scans, n, actor, p, t);
    v :| t <= v && (actor(v) == p || StateAt(scans, n, actor, v).pc[p].Idle?);
    if actor(v) != p {
      v := MovedBefore(scans, n, actor, p, t, v);
    }
  }

  lemma ProgressAt(scans: Scans, n: nat, actor: nat -> nat, from: nat, t: nat)
    requires NoSelf(scans, n) && from <= t && SomeoneContends(StateAt(scans, n, actor, from))
    ensures var s, s' := StateAt(scans, n, actor, t), StateAt(scans, n, actor, t + 1);
            || EnteredBy(scans, n, actor, from, t) || EnteredBy(scans, n, actor, from, t + 1)
            || Below(RankOf(s'), RankOf(s))
            || (RankOf(s') == RankOf(s) && Helpful(s') == Helpful(s) && actor(t) != Helpful(s))
  {
    hide RankOf, Helpful, Next, Below;
    StillWaiting(scans, n, actor, from, t);
    if !EnteredBy(scans, n, actor, from, t) {
      StepComesCloser(scans, StateAt(scans, n, actor, t), actor(t));
      if SomeoneCritical(StateAt(scans, n, actor, t + 1)) {
        assert EnteredBy(scans, n, actor, from, t + 1);
      }
    }
  }

  /**
   On every infinite weakly fair run on which somebody contends at time `from`, somebody is
   in the critical section then or later. Which entries the final loop looks at does not
   matter, as long as no process looks at its own.
   */
  lemma SomebodyInside(scans: Scans, n: nat, actor: nat -> nat, from: nat) returns (entry: nat)
    requires NoSelf(scans, n) && WeaklyFair(scans, n, actor)
    requires SomeoneContends(StateAt(scans, n, actor, from))
    ensures from <= entry && SomeoneCritical(StateAt(scans, n, actor, entry))
  {
    hide RankOf, Helpful, Next, StateAt, Below, Waiting;
    var goal := (t: nat) => EnteredBy(scans, n, actor, from, t);
    var rank := (t: nat) => RankOf(StateAt(scans, n, actor, t));
    var helpful := (t: nat) => Helpful(StateAt(scans, n, actor, t));
    forall t | from <= t ensures Progress(actor, goal, rank, helpful, t) {
      ProgressAt(scans, n, actor, from, t);
    }
    forall t | from <= t && !goal(t) ensures Helped(actor, goal, helpful, t) {
      StillWaiting(scans, n, actor, from, t);
      var v := HelpComes(scans, n, actor, t);
      assert HelpedAt(actor, goal, helpful, t, v);
    }
    var end := Eventually(actor, goal, rank, helpful, from, from);
    entry :| from <= entry <= end && SomeoneCritical(StateAt(scans, n, actor, entry));
  }
}
