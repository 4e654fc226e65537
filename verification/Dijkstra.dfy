/**
 Dijkstra's mutual exclusion algorithm for any number of processes, each of which may call
 `dijkstra` again and again. One step is one read or write of `passed`, `interested` or `k`.

 Which entries of `passed` the final loop looks at is a parameter: `scans(i, j)` says whether
 process `i` looks at `passed[j]`. The algorithm means every `j` other than `i`; the loop
 condition as written stops the loop at `i`, so that only lower indices are looked at.
 */
module Dijkstra {

  type Scans = (nat, nat) -> bool

  datatype Pc =
    | Idle                        // outside; the step from here is `interested[i] = true`
    | TestK                       // while (k != i)
    | ClearPassed                 // passed[i] = false
    | LoadK                       // the read of `k` in `interested[k]`
    | LoadInterested(owner: nat)  // the read of `interested` at the index just read
    | WriteK                      // k = i
    | SetPassed                   // passed[i] = true
    | Scan(j: nat)                // the loop over `passed`
    | Critical
    | LeavePassed                 // passed[i] = false
    | LeaveInterested             // interested[i] = false

  datatype State = State(passed: seq<bool>, interested: seq<bool>, k: nat, pc: seq<Pc>)

  predicate WellFormed(s: State)
  {
    && |s.passed| == |s.interested| == |s.pc|
    && (|s.pc| > 0 ==> s.k < |s.pc|)
    && forall i :: 0 <= i < |s.pc| && s.pc[i].LoadInterested? ==> s.pc[i].owner < |s.pc|
  }

  function Init(n: nat): (s: State)
    ensures WellFormed(s) && |s.pc| == n
  {
    State(seq(n, i => false), seq(n, i => false), 0, seq(n, i => Idle))
  }

  function Goto(s: State, i: nat, pc: Pc): State
    requires i < |s.pc|
  {
    s.(pc := s.pc[i := pc])
  }

  /** The next step of process `i`. */
  function Next(scans: Scans, s: State, i: nat): (s': State)
    requires WellFormed(s)
    ensures WellFormed(s') && |s'.pc| == |s.pc|
  {
    if i >= |s.pc| then s
    else match s.pc[i]
      case Idle => Goto(s, i, TestK).(interested := s.interested[i := true])
      case TestK => Goto(s, i, if s.k != i then ClearPassed else SetPassed)
      case ClearPassed => Goto(s, i, LoadK).(passed := s.passed[i := false])
      case LoadK => Goto(s, i, LoadInterested(s.k))
      case LoadInterested(owner) => Goto(s, i, if !s.interested[owner] then WriteK else TestK)
      case WriteK => Goto(s, i, TestK).(k := i)
      case SetPassed => Goto(s, i, Scan(0)).(passed := s.passed[i := true])
      case Scan(j) =>
        if j >= |s.pc| then Goto(s, i, Critical)
        else if scans(i, j) && s.passed[j] then Goto(s, i, TestK)
        else Goto(s, i, Scan(j + 1))
      case Critical => Goto(s, i, LeavePassed)
      case LeavePassed => Goto(s, i, LeaveInterested).(passed := s.passed[i := false])
      case LeaveInterested => Goto(s, i, Idle).(interested := s.interested[i := false])
  }

  /** The state after the processes in `acts` have each taken one step, in that order. */
  function Run(scans: Scans, s: State, acts: seq<nat>): (s': State)
    requires WellFormed(s)
    ensures WellFormed(s') && |s'.pc| == |s.pc|
    decreases |acts|
  {
    if acts == [] then s
    else Next(scans, Run(scans, s, acts[..|acts| - 1]), acts[|acts| - 1])
  }

  lemma RunSnoc(scans: Scans, s: State, acts: seq<nat>, i: nat)
    requires WellFormed(s)
    ensures Run(scans, s, acts + [i]) == Next(scans, Run(scans, s, acts), i)
  {
    assert (acts + [i])[..|acts|] == acts;
  }

  /** Every other process is looked at. */
  ghost predicate Complete(scans: Scans, n: nat)
  {
    forall i, j :: 0 <= i < n && 0 <= j < n && i != j ==> scans(i, j)
  }

  /** No process looks at its own entry. */
  ghost predicate NoSelf(scans: Scans, n: nat)
  {
    forall i :: 0 <= i < n ==> !scans(i, i)
  }

  /** The loop the algorithm means. */
  function FullScan(): Scans
  {
    (i, j) => j != i
  }

  /** The loop `for (j = 0; j < N && j != i; j++)` as it is written. */
  function WrittenScan(): Scans
  {
    (i, j) => j < i
  }

  // ---------------------------------------------------------------- what every step keeps

  /** `i` has its `passed` entry set and has looked at that of `j`. */
  predicate Cleared(s: State, i: nat, j: nat)
    requires i < |s.pc|
  {
    match s.pc[i]
    case Scan(m) => m > j
    case Critical => true
    case LeavePassed => true
    case _ => false
  }

  predicate Local(s: State, i: nat)
    requires WellFormed(s) && i < |s.pc|
  {
    && s.interested[i] == !s.pc[i].Idle?
    && (match s.pc[i]
        case Scan(m) => m <= |s.pc| && s.passed[i]
        case Critical => s.passed[i]
        case LeavePassed => s.passed[i]
        case TestK => true
        case ClearPassed => true
        case SetPassed => true
        case _ => !s.passed[i])
  }

  ghost predicate Locals(s: State)
    requires WellFormed(s)
  {
    forall i :: 0 <= i < |s.pc| ==> Local(s, i)
  }

  /** Two processes cannot each have looked past the other. */
  ghost predicate Exclusive(s: State)
  {
    forall i, j :: 0 <= i < |s.pc| && 0 <= j < |s.pc| && i != j ==> !(Cleared(s, i, j) && Cleared(s, j, i))
  }

  lemma InitHolds(n: nat)
    ensures Locals(Init(n)) && Exclusive(Init(n))
  {
  }

  lemma StepKeepsLocals(scans: Scans, s: State, p: nat)
    requires WellFormed(s) && Locals(s)
    ensures Locals(Next(scans, s, p))
  {
    var s' := Next(scans, s, p);
    forall i | 0 <= i < |s.pc| ensures Local(s', i) {
      assert Local(s, i);
    }
  }

  /** A process comes to have looked at the entry of another only when that entry was clear. */
  lemma ClearedWhenUnset(scans: Scans, s: State, p: nat, i: nat, j: nat)
    requires WellFormed(s) && Complete(scans, |s.pc|)
    requires i < |s.pc| && j < |s.pc| && i != j && Cleared(Next(scans, s, p), i, j)
    ensures Cleared(s, i, j) || (p == i && !s.passed[j])
  {
  }

  lemma StepKeepsExclusion(scans: Scans, s: State, p: nat)
    requires WellFormed(s) && Locals(s) && Exclusive(s) && Complete(scans, |s.pc|)
    ensures Exclusive(Next(scans, s, p))
  {
    var s' := Next(scans, s, p);
    forall i, j | 0 <= i < |s.pc| && 0 <= j < |s.pc| && i != j
      ensures !(Cleared(s', i, j) && Cleared(s', j, i))
    {
      assert Local(s, i) && Local(s, j);
      assert !(Cleared(s, i, j) && Cleared(s, j, i));
      if Cleared(s', i, j) && Cleared(s', j, i) {
        ClearedWhenUnset(scans, s, p, i, j);
        ClearedWhenUnset(scans, s, p, j, i);
        hide Next;
      }
    }
  }

  lemma {:induction false} RunKeepsLocals(scans: Scans, n: nat, acts: seq<nat>)
    ensures Locals(Run(scans, Init(n), acts))
    decreases |acts|
  {
    if acts == [] {
      InitHolds(n);
    } else {
      RunKeepsLocals(scans, n, acts[..|acts| - 1]);
      StepKeepsLocals(scans, Run(scans, Init(n), acts[..|acts| - 1]), acts[|acts| - 1]);
    }
  }

  lemma {:induction false} RunKeepsExclusion(scans: Scans, n: nat, acts: seq<nat>)
    requires Complete(scans, n)
    ensures Exclusive(Run(scans, Init(n), acts))
    decreases |acts|
  {
    if acts == [] {
      InitHolds(n);
    } else {
      var front := acts[..|acts| - 1];
      RunKeepsLocals(scans, n, front);
      RunKeepsExclusion(scans, n, front);
      StepKeepsExclusion(scans, Run(scans, Init(n), front), acts[|acts| - 1]);
    }
  }

  ghost predicate AtMostOneCritical(s: State)
  {
    forall i, j :: 0 <= i < j < |s.pc| ==> !(s.pc[i].Critical? && s.pc[j].Critical?)
  }

  /** With every other process looked at, no two processes are ever in the critical section. */
  lemma MutualExclusion(scans: Scans, n: nat, acts: seq<nat>)
    requires Complete(scans, n)
    ensures AtMostOneCritical(Run(scans, Init(n), acts))
  {
    RunKeepsExclusion(scans, n, acts);
    var s := Run(scans, Init(n), acts);
    forall i, j | 0 <= i < j < |s.pc| ensures !(s.pc[i].Critical? && s.pc[j].Critical?) {
      assert !(Cleared(s, i, j) && Cleared(s, j, i));
    }
  }

  // ---------------------------------------------------------------- asking and leaving

  /** Each process writes its own entries only, and nothing but itself into `k`. */
  lemma OwnEntriesOnly(scans: Scans, s: State, i: nat, j: nat)
    requires WellFormed(s) && j < |s.pc| && i != j
    ensures var s' := Next(scans, s, i);
            && s'.passed[j] == s.passed[j] && s'.interested[j] == s.interested[j] && s'.pc[j] == s.pc[j]
            && (s'.k == s.k || s'.k == i)
  {
  }

  /**
   One access a step: what a process does next depends on one variable at most, and a step
   that writes one depends on none.
   */
  lemma OneAccess(scans: Scans, s: State, t: State, i: nat)
    requires WellFormed(s) && WellFormed(t) && |s.pc| == |t.pc| && i < |s.pc| && s.pc[i] == t.pc[i]
    ensures var s', t' := Next(scans, s, i), Next(scans, t, i);
            && (s'.pc[i] == t'.pc[i] ||
                match s.pc[i]
                case LoadInterested(owner) => s.interested[owner] != t.interested[owner]
                case Scan(j) => j < |s.pc| && s.passed[j] != t.passed[j]
                case _ => s.k != t.k)
            && (s'.passed != s.passed || s'.interested != s.interested || s'.k != s.k ==> s'.pc[i] == t'.pc[i])
  {
  }

  /** A process outside can always ask, whatever the others are doing: its first step raises its flag. */
  lemma AlwaysAsks(scans: Scans, s: State, i: nat)
    requires WellFormed(s) && i < |s.pc| && s.pc[i].Idle?
    ensures var s' := Next(scans, s, i);
            s'.interested[i] && s'.pc[i].TestK? && s'.k == s.k && s'.passed == s.passed
  {
  }

  /** Past the first loop, or in it for the test alone. */
  predicate Persisting(pc: Pc)
  {
    pc.TestK? || pc.SetPassed? || pc.Scan? || pc.Critical?
  }

  /**
   The owner of `k` never backs off: as long as `k` is its own its `passed` entry, once set,
   stays set until it has been inside, also when a scan sends it back to the first loop.
   */
  lemma {:induction false} OwnerNeverBacksOff(scans: Scans, s: State, i: nat, acts: seq<nat>)
    requires WellFormed(s) && i < |s.pc| && Persisting(s.pc[i])
    requires forall t :: 0 <= t <= |acts| ==>
               Run(scans, s, acts[..t]).k == i && !Run(scans, s, acts[..t]).pc[i].LeavePassed?
    ensures Persisting(Run(scans, s, acts).pc[i])
    ensures s.passed[i] ==> Run(scans, s, acts).passed[i]
    decreases |acts|
  {
    if acts != [] {
      var front, a := acts[..|acts| - 1], acts[|acts| - 1];
      forall t | 0 <= t <= |front|
        ensures Run(scans, s, front[..t]).k == i && !Run(scans, s, front[..t]).pc[i].LeavePassed?
      {
        assert front[..t] == acts[..t];
      }
      OwnerNeverBacksOff(scans, s, i, front);
      assert acts[..|acts|] == acts && acts[..|front|] == front;
      assert Run(scans, s, acts[..|front|]).k == i;
      if a != i {
        OwnEntriesOnly(scans, Run(scans, s, front), a, i);
      }
    }
  }

  /** How often `i` moves. */
  function MovesOf(acts: seq<nat>, i: nat): nat
    decreases |acts|
  {
    if acts == [] then 0 else MovesOf(acts[..|acts| - 1], i) + (if acts[|acts| - 1] == i then 1 else 0)
  }

  function OnTheWayOut(pc: Pc): int
  {
    match pc
    case Critical => 0 case LeavePassed => 1 case LeaveInterested => 2 case Idle => 3
    case _ => -1
  }

  /** A process inside leaves with its next three steps, whatever the others do meanwhile, and clears its entries. */
  lemma {:induction false} LeavesInThree(scans: Scans, s: State, i: nat, acts: seq<nat>)
    requires WellFormed(s) && Locals(s) && i < |s.pc| && 0 <= OnTheWayOut(s.pc[i])
    requires OnTheWayOut(s.pc[i]) + MovesOf(acts, i) <= 3
    ensures var s' := Run(scans, s, acts);
            && Locals(s')
            && OnTheWayOut(s'.pc[i]) == OnTheWayOut(s.pc[i]) + MovesOf(acts, i)
            && (s'.pc[i].Idle? ==> !s'.passed[i] && !s'.interested[i])
    decreases |acts|
  {
    if acts != [] {
      var front, a := acts[..|acts| - 1], acts[|acts| - 1];
      LeavesInThree(scans, s, i, front);
      StepKeepsLocals(scans, Run(scans, s, front), a);
      if a != i {
        OwnEntriesOnly(scans, Run(scans, s, front), a, i);
      }
    }
    assert Local(Run(scans, s, acts), i);
  }

  // ---------------------------------------------------------------- the program

  class Program {
    const scans: Scans
    const passed: array<bool>
    const interested: array<bool>
    const pc: array<Pc>
    var k: nat

    ghost function Abs(): State
      reads this, passed, interested, pc
    {
      State(passed[..], interested[..], k, pc[..])
    }

    /** In a class of its own arrays; exclusion is kept whenever the scan is complete. */
    ghost predicate Valid()
      reads this, passed, interested, pc
    {
      && passed != interested
      && WellFormed(Abs()) && Locals(Abs())
      && (Complete(scans, pc.Length) ==> Exclusive(Abs()))
    }

    constructor (scans: Scans, n: nat)
      ensures Valid() && this.scans == scans && Abs() == Init(n)
      ensures fresh(passed) && fresh(interested) && fresh(pc)
    {
      this.scans := scans;
      passed := new bool[n](i => false);
      interested := new bool[n](i => false);
      pc := new Pc[n](i => Idle);
      k := 0;
      new;
      assert Abs() == Init(n);
      InitHolds(n);
    }

    /** Process `i` executes its next access to shared memory. */
    method Step(i: nat)
      requires Valid() && i < pc.Length
      modifies this, passed, interested, pc
      ensures Valid() && Abs() == Next(scans, old(Abs()), i)
    {
      StepKeepsLocals(scans, Abs(), i);
      if Complete(scans, pc.Length) {
        StepKeepsExclusion(scans, Abs(), i);
      }
      hide Locals, Exclusive, Complete;
      Move(i);
    }

    method Move(i: nat)
      requires passed != interested && WellFormed(Abs()) && i < pc.Length
      modifies this, passed, interested, pc
      ensures Abs() == Next(scans, old(Abs()), i)
    {
      match pc[i] {
        case Idle =>
          interested[i] := true;
          pc[i] := TestK;
        case TestK =>
          pc[i] := if k != i then ClearPassed else SetPassed;
        case ClearPassed =>
          passed[i] := false;
          pc[i] := LoadK;
        case LoadK =>
          pc[i] := LoadInterested(k);
        case LoadInterested(owner) =>
          assert Abs().pc[i].LoadInterested?;
          pc[i] := if !interested[owner] then WriteK else TestK;
        case WriteK =>
          k := i;
          pc[i] := TestK;
        case SetPassed =>
          passed[i] := true;
          pc[i] := Scan(0);
        case Scan(j) =>
          if j >= pc.Length {
            pc[i] := Critical;
          } else if scans(i, j) && passed[j] {
            pc[i] := TestK;
          } else {
            pc[i] := Scan(j + 1);
          }
        case Critical =>
          pc[i] := LeavePassed;
        case LeavePassed =>
          passed[i] := false;
          pc[i] := LeaveInterested;
        case LeaveInterested =>
          interested[i] := false;
          pc[i] := Idle;
      }
    }
  }
}
