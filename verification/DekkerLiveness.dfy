/** What Dekker's algorithm promises a process that waits. */
module DekkerLiveness {
  import opened Dekker
  import opened Fairness

  // ---------------------------------------------------------------- starvation freedom

  /** The state at time `t` of the infinite run in which `actor(t)` moves at time `t`. */
  function StateAt(actor: nat -> Pid, t: nat): (s: State)
    ensures WellFormed(s)
  {
    if t == 0 then INIT else Next(StateAt(actor, t - 1), actor(t - 1))
  }

  /** A process moves again and again, unless it is outside the protocol. */
  ghost predicate WeaklyFair(actor: nat -> Pid)
  {
    forall p: Pid, t: nat :: MovesOrRests(actor, p, t)
  }

  ghost predicate MovesOrRests(actor: nat -> Pid, p: Pid, t: nat)
  {
    exists u: nat :: t <= u && (actor(u) == p || StateAt(actor, u).pc[p].Idle?)
  }

  lemma {:induction false} InvariantAt(actor: nat -> Pid, t: nat)
    ensures Invariant(StateAt(actor, t))
  {
    if t > 0 {
      InvariantAt(actor, t - 1);
      StepKeepsInvariant(StateAt(actor, t - 1), actor(t - 1));
    }
  }

  /** Steps `me` still has to take before it waits, while the turn is the other's. */
  function WaitRank(pc: Pc): nat
  {
    match pc
    case TestFlag => 4 case TestTurn => 3 case ClearFlag => 2 case Spin => 1
    case _ => 0
  }

  /** Steps the other has to take before it hands over the turn, `me` having lowered its flag. */
  function HandOverRank(pc: Pc): nat
  {
    match pc
    case ClearFlag => 6 case Spin => 5 case RaiseFlag => 4 case TestTurn => 4
    case TestFlag => 3 case Critical => 2 case GiveTurn => 1
    case _ => 0
  }

  /** Steps `me` has to take before its flag is up for good, the turn being its own. */
  function ReturnRank(pc: Pc): nat
  {
    match pc
    case ClearFlag => 3 case Spin => 2 case RaiseFlag => 1
    case _ => 0
  }

  /** Steps the other has to take before its flag is down, `me` having its flag up and the turn. */
  function YieldRank(pc: Pc): nat
  {
    match pc
    case Critical => 8 case GiveTurn => 7 case DropFlag => 6 case Idle => 5 case RaiseFlag => 4
    case TestFlag => 3 case TestTurn => 2 case ClearFlag => 1 case Spin => 0
  }

  function RankOf(s: State, me: Pid): Rank
    requires WellFormed(s)
  {
    var pc, opc := s.pc[me], s.pc[Other(me)];
    if s.turn == Other(me) then
      Rank(1, WaitRank(pc), if pc.Spin? then HandOverRank(opc) else 0, 0, 0)
    else if ReturnRank(pc) > 0 then
      Rank(0, ReturnRank(pc), 0, 0, 0)
    else
      Rank(0, 0, YieldRank(opc), if (opc.Idle? || opc.Spin?) && pc.TestTurn? then 1 else 0, 0)
  }

  /** The process whose next step brings `me` closer to the critical section. */
  function Helpful(s: State, me: Pid): Pid
    requires WellFormed(s)
  {
    var pc, opc := s.pc[me], s.pc[Other(me)];
    if s.turn == Other(me) then (if pc.Spin? then Other(me) else me)
    else if ReturnRank(pc) > 0 || opc.Idle? || opc.Spin? then me
    else Other(me)
  }

  /** A step of `actor` takes `me` in, or closer, or leaves it all to the process depended on. */
  predicate Closer(s: State, me: Pid, actor: Pid)
    requires WellFormed(s)
  {
    var s' := Next(s, actor);
    || s'.pc[me].Critical?
    || (&& Contending(s'.pc[me])
        && (|| Below(RankOf(s', me), RankOf(s, me))
            || (&& RankOf(s', me) == RankOf(s, me)
                && Helpful(s', me) == Helpful(s, me)
                && actor != Helpful(s, me))))
  }

  lemma OwnStepComesCloser(s: State, me: Pid)
    requires Invariant(s) && Contending(s.pc[me])
    ensures Closer(s, me, me)
  {
  }

  lemma OtherStepComesCloser(s: State, me: Pid)
    requires Invariant(s) && Contending(s.pc[me])
    ensures Closer(s, me, Other(me))
  {
  }

  lemma StepComesCloser(s: State, me: Pid, actor: Pid)
    requires Invariant(s) && Contending(s.pc[me])
    ensures Closer(s, me, actor)
  {
    if actor == me {
      OwnStepComesCloser(s, me);
    } else {
      OtherStepComesCloser(s, me);
    }
  }

  /** The process waited for is never outside the protocol. */
  lemma HelpfulIsActive(s: State, me: Pid)
    requires Invariant(s) && Contending(s.pc[me])
    ensures !s.pc[Helpful(s, me)].Idle?
  {
  }

  ghost predicate EnteredBy(actor: nat -> Pid, me: Pid, from: nat, t: nat)
  {
    exists u: nat :: from <= u <= t && StateAt(actor, u).pc[me].Critical?
  }

  lemma {:induction false} StillContending(actor: nat -> Pid, me: Pid, from: nat, t: nat)
    requires from <= t && Contending(StateAt(actor, from).pc[me])
    ensures EnteredBy(actor, me, from, t) || Contending(StateAt(actor, t).pc[me])
    decreases t
  {
    hide RankOf, Helpful, Next, Below, Invariant;
    if from < t {
      StillContending(actor, me, from, t - 1);
      InvariantAt(actor, t - 1);
      if !EnteredBy(actor, me, from, t - 1) {
        StepComesCloser(StateAt(actor, t - 1), me, actor(t - 1));
      }
    }
  }

  lemma OthersStay(s: State, p: Pid, q: Pid)
    requires WellFormed(s) && p != q
    ensures Next(s, q).pc[p] == s.pc[p]
  {
  }

  /** A process that is outside at a later time must have moved meanwhile. */
  lemma {:induction false} MovedBefore(actor: nat -> Pid, p: Pid, t: nat, u: nat) returns (v: nat)
    requires t <= u && !StateAt(actor, t).pc[p].Idle? && StateAt(actor, u).pc[p].Idle?
    ensures t <= v && actor(v) == p
    decreases u - t
  {
    if actor(t) == p {
      v := t;
    } else {
      OthersStay(StateAt(actor, t), p, actor(t));
      hide Next;
      assert StateAt(actor, t + 1).pc[p] == StateAt(actor, t).pc[p];
      v := MovedBefore(actor, p, t + 1, u);
    }
  }

  lemma HelpComes(actor: nat -> Pid, me: Pid, t: nat) returns (v: nat)
    requires WeaklyFair(actor) && Contending(StateAt(actor, t).pc[me])
    ensures t <= v && actor(v) == Helpful(StateAt(actor, t), me)
  {
    InvariantAt(actor, t);
    var p := Helpful(StateAt(actor, t), me);
    HelpfulIsActive(StateAt(actor, t), me);
    assert MovesOrRests(actor, p, t);
    v :| t <= v && (actor(v) == p || StateAt(actor, v).pc[p].Idle?);
    if actor(v) != p {
      v := MovedBefore(actor, p, t, v);
    }
  }

  lemma ProgressAt(actor: nat -> Pid, me: Pid, from: nat, t: nat)
    requires from <= t && Contending(StateAt(actor, from).pc[me])
    ensures var s, s' := StateAt(actor, t), StateAt(actor, t + 1);
            || EnteredBy(actor, me, from, t) || EnteredBy(actor, me, from, t + 1)
            || Below(RankOf(s', me), RankOf(s, me))
            || (RankOf(s', me) == RankOf(s, me) && Helpful(s', me) == Helpful(s, me) && actor(t) != Helpful(s, me))
  {
    hide RankOf, Helpful, Next, Below, Invariant;
    InvariantAt(actor, t);
    StillContending(actor, me, from, t);
    if !EnteredBy(actor, me, from, t) {
      StepComesCloser(StateAt(actor, t), me, actor(t));
    }
  }

  /**
   On every infinite weakly fair run a process that has raised its flag enters the
   critical section at some later time.
   */
  lemma StarvationFreedom(actor: nat -> Pid, me: Pid, from: nat) returns (entry: nat)
    requires WeaklyFair(actor) && Contending(StateAt(actor, from).pc[me])
    ensures from <= entry && StateAt(actor, entry).pc[me].Critical?
  {
    hide RankOf, Helpful, Next, StateAt, Below, Invariant;
    var goal := (t: nat) => EnteredBy(actor, me, from, t);
    var rank := (t: nat) => RankOf(StateAt(actor, t), me);
    var helpful := (t: nat) => Helpful(StateAt(actor, t), me);
    forall t | from <= t ensures Progress(actor, goal, rank, helpful, t) {
      ProgressAt(actor, me, from, t);
    }
    forall t | from <= t && !goal(t) ensures Helped(actor, goal, helpful, t) {
      StillContending(actor, me, from, t);
      var v := HelpComes(actor, me, t);
      assert HelpedAt(actor, goal, helpful, t, v);
    }
    var end := Eventually(actor, goal, rank, helpful, from, from);
    entry :| from <= entry <= end && StateAt(actor, entry).pc[me].Critical?;
  }

  /** Such runs exist: the two processes in turn, for ever. */
  lemma AlternationIsFair()
    ensures WeaklyFair((t: nat) => t % 2)
  {
    var actor: nat -> Pid := (t: nat) => t % 2;
    forall p: Pid, t: nat ensures MovesOrRests(actor, p, t) {
      var u := 2 * t + p;
      assert t <= u && actor(u) == p;
    }
  }

  // ---------------------------------------------------------------- bypass

  /** `me` has its flag up and the turn is its own. */
  predicate HasPriority(s: State, me: Pid)
    requires WellFormed(s)
  {
    Contending(s.pc[me]) && s.flag[me] && s.turn == me
  }

  /** `me` is about to lower its flag although the turn has come to it, and the other is not waiting. */
  predicate Window(s: State, me: Pid)
    requires WellFormed(s)
  {
    var opc := s.pc[Other(me)];
    s.pc[me].ClearFlag? && !(opc.TestTurn? || opc.ClearFlag? || opc.Spin?)
  }

  /** What priority without the window amounts to, and stays until `me` enters. */
  predicate Protected(s: State, me: Pid)
    requires WellFormed(s)
  {
    var pc, opc := s.pc[me], s.pc[Other(me)];
    s.turn == me &&
    (pc.TestFlag? || pc.TestTurn? ||
     (Contending(pc) && (opc.TestTurn? || opc.ClearFlag? || opc.Spin?)))
  }

  lemma {:induction false} ProtectedIsNotBypassed(s: State, me: Pid, acts: seq<Pid>)
    requires Invariant(s) && Protected(s, me) && Entries(s, acts, me) == 0
    ensures Entries(s, acts, Other(me)) == 0
    decreases |acts|
  {
    if acts != [] {
      StepKeepsInvariant(s, acts[0]);
      ProtectedIsNotBypassed(Next(s, acts[0]), me, acts[1..]);
    }
  }

  /** `me` has lowered its flag and the other is outside: it may come and go. */
  predicate Open(s: State, me: Pid)
  {
    Invariant(s) && s.turn == me && s.pc[me].Spin? && s.pc[Other(me)].Idle?
  }

  lemma OneRound(s: State, me: Pid)
    requires Open(s, me)
    ensures var o := Other(me); var round := [o, o, o, o, o];
            && Run(s, round) == s
            && Entries(s, round, o) == 1 && Entries(s, round, me) == 0
  {
    var o := Other(me);
    var s1 := Next(s, o); var s2 := Next(s1, o); var s3 := Next(s2, o);
    var s4 := Next(s3, o); var s5 := Next(s4, o);
    assert s5.flag == s.flag && s5.pc == s.pc;
    assert [o, o, o, o, o][1..] == [o, o, o, o];
    assert [o, o, o, o][1..] == [o, o, o];
    assert [o, o, o][1..] == [o, o];
    assert [o, o][1..] == [o];
    assert [o][1..] == [];
    assert Run(s4, [o]) == s5;
    assert Run(s3, [o, o]) == s5;
    assert Run(s2, [o, o, o]) == s5;
    assert Run(s1, [o, o, o, o]) == s5;
    forall p: Pid ensures Entries(s, [o, o, o, o, o], p) == (if p == o then 1 else 0) {
      assert Entries(s4, [o], p) == 0;
      assert Entries(s3, [o, o], p) == 0;
      assert Entries(s2, [o, o, o], p) == 0;
      assert Entries(s1, [o, o, o, o], p) == (if p == o then 1 else 0);
    }
  }

  lemma {:induction false} ManyRounds(s: State, me: Pid, k: nat) returns (acts: seq<Pid>)
    requires Open(s, me)
    ensures Entries(s, acts, me) == 0 && Entries(s, acts, Other(me)) == k
  {
    if k == 0 {
      acts := [];
    } else {
      var o := Other(me);
      var round := [o, o, o, o, o];
      OneRound(s, me);
      var rest := ManyRounds(s, me, k - 1);
      RunConcat(s, round, rest, me);
      RunConcat(s, round, rest, o);
      acts := round + rest;
    }
  }

  /** The other completes the round it is in. */
  lemma {:induction false} LetOtherOut(s: State, me: Pid) returns (acts: seq<Pid>)
    requires Invariant(s) && s.turn == me && s.pc[me].Spin?
    requires var opc := s.pc[Other(me)]; opc.Idle? || opc.TestFlag? || Inside(opc)
    ensures Open(Run(s, acts), me) && Entries(s, acts, me) == 0
    decreases YieldRank(if s.pc[Other(me)].TestFlag? then Critical else s.pc[Other(me)]),
              s.pc[Other(me)].TestFlag?
  {
    if s.pc[Other(me)].Idle? {
      acts := [];
    } else {
      var s' := Next(s, Other(me));
      StepKeepsInvariant(s, Other(me));
      var rest := LetOtherOut(s', me);
      acts := [Other(me)] + rest;
      assert acts[1..] == rest;
    }
  }

  lemma WindowAllowsAnyBypass(s: State, me: Pid, k: nat) returns (acts: seq<Pid>)
    requires Invariant(s) && HasPriority(s, me) && Window(s, me)
    ensures Entries(s, acts, me) == 0 && Entries(s, acts, Other(me)) >= k
  {
    var s' := Next(s, me);
    StepKeepsInvariant(s, me);
    var out := LetOtherOut(s', me);
    var rounds := ManyRounds(Run(s', out), me, k);
    RunConcat(s', out, rounds, me);
    RunConcat(s', out, rounds, Other(me));
    acts := [me] + (out + rounds);
    assert acts[1..] == out + rounds;
  }

  ghost predicate BypassedAtMost(s: State, me: Pid, k: nat)
    requires WellFormed(s)
  {
    forall acts: seq<Pid> :: Entries(s, acts, me) == 0 ==> Entries(s, acts, Other(me)) <= k
  }

  /**
   Once `me` has its flag up and the turn, the other enters at most once before it if and
   only if `me` is not just about to lower its flag with the other free to enter. If it
   may be bypassed twice it may be bypassed any number of times, and otherwise not at all.
   */
  lemma BypassBoundedIff(s: State, me: Pid)
    requires Invariant(s) && HasPriority(s, me)
    ensures BypassedAtMost(s, me, 1) <==> !Window(s, me)
    ensures BypassedAtMost(s, me, 0) <==> !Window(s, me)
    ensures (exists k: nat :: BypassedAtMost(s, me, k)) <==> !Window(s, me)
  {
    if Window(s, me) {
      forall k: nat ensures !BypassedAtMost(s, me, k) {
        var acts := WindowAllowsAnyBypass(s, me, k + 1);
      }
    } else {
      forall acts: seq<Pid> | Entries(s, acts, me) == 0 ensures Entries(s, acts, Other(me)) == 0 {
        ProtectedIsNotBypassed(s, me, acts);
      }
      assert BypassedAtMost(s, me, 0);
    }
  }

  /** The window does occur: process 1 reads the turn just before process 0 hands it over. */
  lemma WindowIsReachable()
    ensures var s := Run(INIT, [0, 0, 1, 1, 1, 0, 0, 0]);
            Invariant(s) && HasPriority(s, 1) && Window(s, 1)
  {
    RunKeepsInvariant(INIT, [0, 0, 1, 1, 1, 0, 0, 0]);
    var s1 := Next(INIT, 0);
    var s2 := Next(s1, 0);
    var s3 := Next(s2, 1);
    var s4 := Next(s3, 1);
    var s5 := Next(s4, 1);
    var s6 := Next(s5, 0);
    var s7 := Next(s6, 0);
    RunCons(INIT, 0, [0, 1, 1, 1, 0, 0, 0]);
    RunCons(s1, 0, [1, 1, 1, 0, 0, 0]);
    RunCons(s2, 1, [1, 1, 0, 0, 0]);
    RunCons(s3, 1, [1, 0, 0, 0]);
    RunCons(s4, 1, [0, 0, 0]);
    RunCons(s5, 0, [0, 0]);
    RunCons(s6, 0, [0]);
    RunCons(s7, 0, []);
  }

  lemma RunCons(s: State, p: Pid, rest: seq<Pid>)
    requires WellFormed(s)
    ensures Run(s, [p] + rest) == Run(Next(s, p), rest)
  {
    assert ([p] + rest)[1..] == rest;
  }
}
