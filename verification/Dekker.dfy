/**
 Dekker's algorithm for two processes, each of which may call `dekker` again and again.
 One step is one read or write of `flag` or `turn`.
 */
module Dekker {

  type Pid = p: nat | p < 2

  datatype Pc =
    | Idle          // outside; the step from here is `flag[me] = true`
    | TestFlag      // while (flag[other])
    | TestTurn      // if (turn == other)
    | ClearFlag     // flag[me] = false
    | Spin          // while (turn == other)
    | RaiseFlag     // flag[me] = true, inside the loop
    | Critical
    | GiveTurn      // turn = other
    | DropFlag      // flag[me] = false

  datatype State = State(flag: seq<bool>, turn: Pid, pc: seq<Pc>)

  predicate WellFormed(s: State)
  {
    |s.flag| == 2 && |s.pc| == 2
  }

  function Other(me: Pid): Pid
  {
    if me == 0 then 1 else 0
  }

  const INIT := State([false, false], 0, [Idle, Idle])

  function Goto(s: State, me: Pid, pc: Pc): State
    requires WellFormed(s)
  {
    s.(pc := s.pc[me := pc])
  }

  /** The next step of process `me`. */
  function Next(s: State, me: Pid): (s': State)
    requires WellFormed(s)
    ensures WellFormed(s')
  {
    match s.pc[me]
    case Idle => Goto(s, me, TestFlag).(flag := s.flag[me := true])
    case TestFlag => Goto(s, me, if s.flag[Other(me)] then TestTurn else Critical)
    case TestTurn => Goto(s, me, if s.turn == Other(me) then ClearFlag else TestFlag)
    case ClearFlag => Goto(s, me, Spin).(flag := s.flag[me := false])
    case Spin => if s.turn == Other(me) then s else Goto(s, me, RaiseFlag)
    case RaiseFlag => Goto(s, me, TestFlag).(flag := s.flag[me := true])
    case Critical => Goto(s, me, GiveTurn)
    case GiveTurn => Goto(s, me, DropFlag).(turn := Other(me))
    case DropFlag => Goto(s, me, Idle).(flag := s.flag[me := false])
  }

  /** The state after the processes in `acts` have each taken one step, in that order. */
  function Run(s: State, acts: seq<Pid>): (s': State)
    requires WellFormed(s)
    ensures WellFormed(s')
    decreases |acts|
  {
    if acts == [] then s else Run(Next(s, acts[0]), acts[1..])
  }

  /** How often `p` passes its test and enters. */
  function Entries(s: State, acts: seq<Pid>, p: Pid): nat
    requires WellFormed(s)
    decreases |acts|
  {
    if acts == [] then 0
    else
      var s' := Next(s, acts[0]);
      (if s.pc[p].TestFlag? && s'.pc[p].Critical? then 1 else 0) + Entries(s', acts[1..], p)
  }

  lemma {:induction false} RunConcat(s: State, a: seq<Pid>, b: seq<Pid>, p: Pid)
    requires WellFormed(s)
    ensures Run(s, a + b) == Run(Run(s, a), b)
    ensures Entries(s, a + b, p) == Entries(s, a, p) + Entries(Run(s, a), b, p)
    decreases |a|
  {
    if a == [] {
      assert a + b == b;
    } else {
      assert (a + b)[1..] == a[1..] + b;
      RunConcat(Next(s, a[0]), a[1..], b, p);
    }
  }

  // ---------------------------------------------------------------- safety

  /** Wants to enter and has not entered yet. */
  predicate Contending(pc: Pc)
  {
    pc.TestFlag? || pc.TestTurn? || pc.ClearFlag? || pc.Spin? || pc.RaiseFlag?
  }

  /** Between passing the test and dropping the flag. */
  predicate Inside(pc: Pc)
  {
    pc.Critical? || pc.GiveTurn? || pc.DropFlag?
  }

  predicate FlagUp(pc: Pc)
  {
    pc.TestFlag? || pc.TestTurn? || pc.ClearFlag? || Inside(pc)
  }

  /** What one process may rely on. */
  predicate Local(s: State, me: Pid)
    requires WellFormed(s)
  {
    var pc, opc := s.pc[me], s.pc[Other(me)];
    && s.flag[me] == FlagUp(pc)
    && (pc.RaiseFlag? ==> s.turn == me)
    && (pc.DropFlag? ==> s.turn == Other(me))
    && ((pc.TestTurn? || pc.ClearFlag? || pc.Spin?) && s.turn == Other(me) ==>
          Contending(opc) || opc.Critical? || opc.GiveTurn?)
  }

  predicate Invariant(s: State)
  {
    && WellFormed(s)
    && Local(s, 0) && Local(s, 1)
    && !(Inside(s.pc[0]) && Inside(s.pc[1]))
  }

  lemma StepKeepsInvariant(s: State, me: Pid)
    requires Invariant(s)
    ensures Invariant(Next(s, me))
  {
  }

  lemma {:induction false} RunKeepsInvariant(s: State, acts: seq<Pid>)
    requires Invariant(s)
    ensures Invariant(Run(s, acts))
    decreases |acts|
  {
    if acts != [] {
      StepKeepsInvariant(s, acts[0]);
      RunKeepsInvariant(Next(s, acts[0]), acts[1..]);
    }
  }

  /** The two processes are never both in the critical section. */
  lemma MutualExclusion(acts: seq<Pid>)
    ensures !(Run(INIT, acts).pc[0].Critical? && Run(INIT, acts).pc[1].Critical?)
  {
    RunKeepsInvariant(INIT, acts);
  }

  // ---------------------------------------------------------------- asking and leaving

  /** Each process writes its own flag only; the turn changes only when it is given to the other. */
  lemma OwnFlagOnly(s: State, me: Pid)
    requires WellFormed(s)
    ensures var s', o := Next(s, me), Other(me);
            && s'.flag[o] == s.flag[o] && s'.pc[o] == s.pc[o]
            && (s'.turn == s.turn || (s.pc[me].GiveTurn? && s'.turn == o))
            && (s.pc[me].GiveTurn? ==> s'.turn == o)
  {
  }

  /**
   One access a step: what a process does next depends on one variable at most, and a step
   that writes one depends on none.
   */
  lemma OneAccess(s: State, t: State, me: Pid)
    requires WellFormed(s) && WellFormed(t) && s.pc[me] == t.pc[me]
    ensures var s', t', o := Next(s, me), Next(t, me), Other(me);
            && (s'.pc[me] == t'.pc[me] || if s.pc[me].TestFlag? then s.flag[o] != t.flag[o] else s.turn != t.turn)
            && (s'.flag != s.flag || s'.turn != s.turn ==>
                  s'.pc[me] == t'.pc[me] && s'.flag[me] == (if s'.flag != s.flag then t'.flag[me] else s.flag[me]))
  {
  }

  /** A process outside can always ask, whatever the other is doing: its first step raises its flag. */
  lemma AlwaysAsks(s: State, me: Pid)
    requires Invariant(s) && s.pc[me].Idle?
    ensures Contending(Next(s, me).pc[me]) && Next(s, me).flag[me]
  {
  }

  /** Nobody else wanting to, it enters with its next step. */
  lemma UncontendedEnters(s: State, me: Pid)
    requires Invariant(s) && s.pc == [Idle, Idle]
    ensures Run(s, [me, me]).pc[me].Critical?
  {
    assert Run(s, [me, me]) == Run(Next(s, me), [me]) == Run(Next(Next(s, me), me), []);
  }

  /** A process that has lowered its flag keeps it down while the turn is the other's. */
  lemma {:induction false} WaitsForTurn(s: State, me: Pid, acts: seq<Pid>)
    requires WellFormed(s) && s.pc[me].Spin? && s.turn == Other(me) && !s.flag[me]
    requires forall k :: 0 <= k <= |acts| ==> Run(s, acts[..k]).turn == Other(me)
    ensures Run(s, acts).pc[me].Spin? && !Run(s, acts).flag[me]
    decreases |acts|
  {
    if acts != [] {
      OwnFlagOnly(s, acts[0]);
      assert acts[..0] == [] && acts[..1][0] == acts[0] && acts[..1][1..] == [];
      assert Run(s, acts[..1]) == Next(s, acts[0]);
      forall k | 0 <= k <= |acts| - 1
        ensures Run(Next(s, acts[0]), acts[1..][..k]).turn == Other(me)
      {
        assert acts[..k + 1][1..] == acts[1..][..k];
        assert Run(s, acts[..k + 1]).turn == Other(me);
      }
      WaitsForTurn(Next(s, acts[0]), me, acts[1..]);
    }
  }

  /** How often `me` moves. */
  function MovesOf(acts: seq<Pid>, me: Pid): nat
  {
    if acts == [] then 0 else (if acts[0] == me then 1 else 0) + MovesOf(acts[1..], me)
  }

  function OnTheWayOut(pc: Pc): int
  {
    match pc
    case Critical => 0 case GiveTurn => 1 case DropFlag => 2 case Idle => 3
    case _ => -1
  }

  /** A process inside leaves with its next three steps, whatever the other does meanwhile. */
  lemma {:induction false} LeavesInThree(s: State, me: Pid, acts: seq<Pid>)
    requires Invariant(s) && 0 <= OnTheWayOut(s.pc[me])
    requires OnTheWayOut(s.pc[me]) + MovesOf(acts, me) <= 3
    ensures Invariant(Run(s, acts))
    ensures OnTheWayOut(Run(s, acts).pc[me]) == OnTheWayOut(s.pc[me]) + MovesOf(acts, me)
    ensures Run(s, acts).pc[me].Idle? ==> !Run(s, acts).flag[me]
    decreases |acts|
  {
    if acts != [] {
      StepKeepsInvariant(s, acts[0]);
      OwnFlagOnly(s, acts[0]);
      LeavesInThree(Next(s, acts[0]), me, acts[1..]);
    }
  }

  // ---------------------------------------------------------------- the program

  class Program {
    const flag: array<bool>
    var turn: Pid
    const pc: array<Pc>

    ghost function Abs(): State
      reads this, flag, pc
    {
      State(flag[..], turn, pc[..])
    }

    ghost predicate Valid()
      reads this, flag, pc
    {
      Invariant(Abs())
    }

    constructor ()
      ensures Valid() && Abs() == INIT
      ensures fresh(flag) && fresh(pc)
    {
      flag := new bool[2](i => false);
      pc := new Pc[2](i => Idle);
      turn := 0;
      new;
      assert Abs() == INIT;
    }

    /** Process `me` executes its next access to shared memory. */
    method Step(me: Pid)
      requires Valid()
      modifies this, flag, pc
      ensures Valid() && Abs() == Next(old(Abs()), me)
    {
      StepKeepsInvariant(Abs(), me);
      var other := Other(me);
      match pc[me] {
        case Idle =>
          flag[me] := true;
          pc[me] := TestFlag;
        case TestFlag =>
          pc[me] := if flag[other] then TestTurn else Critical;
        case TestTurn =>
          pc[me] := if turn == other then ClearFlag else TestFlag;
        case ClearFlag =>
          flag[me] := false;
          pc[me] := Spin;
        case Spin =>
          if turn != other {
            pc[me] := RaiseFlag;
          }
        case RaiseFlag =>
          flag[me] := true;
          pc[me] := TestFlag;
        case Critical =>
          pc[me] := GiveTurn;
        case GiveTurn =>
          turn := other;
          pc[me] := DropFlag;
        case DropFlag =>
          flag[me] := false;
          pc[me] := Idle;
      }
      assert Abs() == Next(old(Abs()), me);
    }
  }
}
