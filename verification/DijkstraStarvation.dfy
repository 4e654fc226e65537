/**
 What Dijkstra's algorithm does not promise: a single contender can wait for ever on a
 weakly fair run. Process 0, the owner of `k`, comes and goes; process 1 looks at
 `interested[k]` only while process 0 is inside the protocol.
 */
module DijkstraStarvation {
  import opened Modular
  import opened Dijkstra
  import opened DijkstraLiveness
  import opened DijkstraEntries

  /** The steps of one round: process 0 raises its flag, process 1 looks in vain, process 0 goes through. */
  function Round(n: nat): nat
  {
    n + 11
  }

  function Turn(j: nat): nat
  {
    if 1 <= j <= 4 then 1 else 0
  }

  /** Where process 0 is after `j` steps of a round. */
  function OwnerPc(n: nat, j: nat): Pc
  {
    if j == 0 then Idle
    else if j <= 5 then TestK
    else if j == 6 then SetPassed
    else if j <= n + 7 then Scan(j - 7)
    else if j == n + 8 then Critical
    else if j == n + 9 then LeavePassed
    else if j == n + 10 then LeaveInterested
    else Idle
  }

  /** Where process 1 is then: it never gets past the first loop. */
  function LoserPc(j: nat): Pc
  {
    if j == 2 then ClearPassed else if j == 3 then LoadK else if j == 4 then LoadInterested(0) else TestK
  }

  /** The state after `j` steps of a round. */
  function Phase(n: nat, j: nat): (s: State)
    ensures |s.pc| == |s.passed| == |s.interested| == n && s.k == 0
    ensures forall i :: 0 <= i < n ==> s.passed[i] == (i == 0 && 7 <= j <= n + 9)
    ensures forall i :: 0 <= i < n ==> s.interested[i] == (i == 1 || (i == 0 && 1 <= j <= n + 10))
    ensures forall i :: 0 <= i < n ==>
              s.pc[i] == if i == 0 then OwnerPc(n, j) else if i == 1 then LoserPc(j) else Idle
    ensures WellFormed(s)
  {
    State(seq(n, i => i == 0 && 7 <= j <= n + 9),
          seq(n, i => i == 1 || (i == 0 && 1 <= j <= n + 10)),
          0,
          seq(n, i => if i == 0 then OwnerPc(n, j) else if i == 1 then LoserPc(j) else Idle))
  }

  lemma PhaseStep(scans: Scans, n: nat, j: nat)
    requires n >= 2 && NoSelf(scans, n) && j < Round(n)
    ensures WellFormed(Phase(n, j)) && Next(scans, Phase(n, j), Turn(j)) == Phase(n, j + 1)
  {
    var s', e := Next(scans, Phase(n, j), Turn(j)), Phase(n, j + 1);
    assert s'.passed == e.passed && s'.interested == e.interested && s'.pc == e.pc;
  }

  lemma RoundCloses(n: nat)
    ensures Phase(n, Round(n)) == Phase(n, 0)
  {
  }

  /** Process 1 first raises its flag; then rounds for ever. */
  function Starving(n: nat): nat -> nat
  {
    (t: nat) => if t == 0 then 1 else Turn((t - 1) % Round(n))
  }

  lemma FirstPhase(scans: Scans, n: nat)
    requires n >= 2
    ensures Next(scans, Init(n), 1) == Phase(n, 0)
  {
    var s, e := Next(scans, Init(n), 1), Phase(n, 0);
    assert s.passed == e.passed && s.interested == e.interested && s.pc == e.pc;
  }

  lemma NextPhase(scans: Scans, n: nat, t: nat)
    requires n >= 2 && NoSelf(scans, n) && t >= 1
    ensures Next(scans, Phase(n, (t - 1) % Round(n)), Starving(n)(t)) == Phase(n, t % Round(n))
  {
    var j := (t - 1) % Round(n);
    PhaseStep(scans, n, j);
    NextSlot(t - 1, Round(n));
    hide Phase, Next;
    if j + 1 == Round(n) {
      RoundCloses(n);
      Remainder(Round(n), Round(n), 1, 0);
    } else {
      Remainder(j + 1, Round(n), 0, j + 1);
    }
  }

  lemma {:induction false} StateOfStarvingRun(scans: Scans, n: nat, t: nat)
    requires n >= 2 && NoSelf(scans, n) && t >= 1
    ensures StateAt(scans, n, Starving(n), t) == Phase(n, (t - 1) % Round(n))
  {
    if t == 1 {
      FirstPhase(scans, n);
      Remainder(0, Round(n), 0, 0);
      hide Phase, Next;
      assert StateAt(scans, n, Starving(n), 0) == Init(n);
    } else {
      hide Phase, Next, Turn;
      StateOfStarvingRun(scans, n, t - 1);
      NextPhase(scans, n, t - 1);
    }
  }

  lemma StarvingIsFair(scans: Scans, n: nat)
    requires n >= 2 && NoSelf(scans, n)
    ensures WeaklyFair(scans, n, Starving(n))
  {
    var actor := Starving(n);
    forall p: nat, t: nat | p < n ensures MovesOrRests(scans, n, actor, p, t) {
      AtLeastOnce(t + 1, Round(n));
      var r: nat := if p == 1 then 1 else 0;
      var u := Round(n) * (t + 1) + r + 1;
      Remainder(u - 1, Round(n), t + 1, r);
      assert t <= u;
      if p < 2 {
        assert actor(u) == Turn(r) == p;
      } else {
        StateOfStarvingRun(scans, n, u);
        assert StateAt(scans, n, actor, u).pc[p].Idle?;
      }
    }
  }

  /** Process 1 contends at every time but the first, and is never inside. */
  lemma LoserNeverEnters(scans: Scans, n: nat, t: nat)
    requires n >= 2 && NoSelf(scans, n) && t >= 1
    ensures var pc := StateAt(scans, n, Starving(n), t).pc[1];
            Contending(pc) && !pc.Critical?
  {
    hide StateAt;
    StateOfStarvingRun(scans, n, t);
  }

  ghost predicate GetsIn(scans: Scans, n: nat, actor: nat -> nat, p: nat, from: nat)
    requires p < n
  {
    exists t: nat :: from <= t && StateAt(scans, n, actor, t).pc[p].Critical?
  }

  /** Every contender gets in, on every weakly fair run. */
  ghost predicate StarvationFree(scans: Scans, n: nat)
  {
    forall actor: nat -> nat, p: nat, from: nat ::
      WeaklyFair(scans, n, actor) && p < n && Contending(StateAt(scans, n, actor, from).pc[p]) ==>
        GetsIn(scans, n, actor, p, from)
  }

  /** That somebody enters is all: no process can be starved if and only if there is at most one. */
  lemma StarvationFreeIff(scans: Scans, n: nat)
    requires NoSelf(scans, n)
    ensures StarvationFree(scans, n) <==> n <= 1
  {
    hide StateAt, WeaklyFair, NoSelf;
    if n <= 1 {
      forall actor: nat -> nat, p: nat, from: nat
        | WeaklyFair(scans, n, actor) && p < n && Contending(StateAt(scans, n, actor, from).pc[p])
        ensures GetsIn(scans, n, actor, p, from)
      {
        var q, entry := SomebodyEnters(scans, n, actor, from);
        assert StateAt(scans, n, actor, entry + 1).pc[p].Critical?;
      }
    } else {
      var actor := Starving(n);
      StarvingIsFair(scans, n);
      LoserNeverEnters(scans, n, 1);
      forall t: nat | 1 <= t ensures !StateAt(scans, n, actor, t).pc[1].Critical? {
        LoserNeverEnters(scans, n, t);
      }
      assert !GetsIn(scans, n, actor, 1, 1);
    }
  }
}
