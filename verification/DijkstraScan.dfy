/**
 Which scans give mutual exclusion: exactly those that look at every other process. For
 any pair left out there is a run that puts both processes in the critical section.
 */
module DijkstraScan {
  import opened Dijkstra

  /** `acts` leads from the start to `s`. */
  ghost predicate Leads(scans: Scans, n: nat, acts: seq<nat>, s: State)
  {
    Run(scans, Init(n), acts) == s
  }

  lemma Then(scans: Scans, n: nat, acts: seq<nat>, s: State, p: nat) returns (acts': seq<nat>, s': State)
    requires Leads(scans, n, acts, s)
    ensures WellFormed(s) && s' == Next(scans, s, p) && Leads(scans, n, acts', s')
  {
    RunSnoc(scans, Init(n), acts, p);
    acts', s' := acts + [p], Next(scans, s, p);
  }

  /** A process that finds the owner of `k` outside gets as far as its write to `k`. */
  lemma ToWriteK(scans: Scans, n: nat, acts: seq<nat>, s: State, p: nat) returns (acts': seq<nat>, s': State)
    requires Leads(scans, n, acts, s) && p < n
    requires s.pc[p].Idle? && !s.passed[p] && s.k != p && !s.interested[s.k]
    ensures Leads(scans, n, acts', s')
    ensures s' == s.(interested := s.interested[p := true], pc := s.pc[p := WriteK])
  {
    acts', s' := Then(scans, n, acts, s, p);
    acts', s' := Then(scans, n, acts', s', p);
    acts', s' := Then(scans, n, acts', s', p);
    acts', s' := Then(scans, n, acts', s', p);
    acts', s' := Then(scans, n, acts', s', p);
    assert s'.passed == s.passed && s'.pc == s.pc[p := WriteK];
  }

  /** A process that then writes `k` leaves the first loop. */
  lemma ToSetPassed(scans: Scans, n: nat, acts: seq<nat>, s: State, p: nat) returns (acts': seq<nat>, s': State)
    requires Leads(scans, n, acts, s) && p < n && s.pc[p].WriteK?
    ensures Leads(scans, n, acts', s')
    ensures s' == s.(k := p, pc := s.pc[p := SetPassed])
  {
    acts', s' := Then(scans, n, acts, s, p);
    acts', s' := Then(scans, n, acts', s', p);
    assert s'.pc == s.pc[p := SetPassed];
  }

  /** The owner of `k` passes the first loop at once. */
  lemma OwnerToSetPassed(scans: Scans, n: nat, acts: seq<nat>, s: State, p: nat)
    returns (acts': seq<nat>, s': State)
    requires Leads(scans, n, acts, s) && p < n && s.pc[p].Idle? && s.k == p
    ensures Leads(scans, n, acts', s')
    ensures s' == s.(interested := s.interested[p := true], pc := s.pc[p := SetPassed])
  {
    acts', s' := Then(scans, n, acts, s, p);
    acts', s' := Then(scans, n, acts', s', p);
    assert s'.pc == s.pc[p := SetPassed];
  }

  /** Alone among the entries it looks at, a process scans its way in. */
  lemma {:induction false} ScanIn(scans: Scans, n: nat, acts: seq<nat>, s: State, p: nat, m: nat)
    returns (acts': seq<nat>, s': State)
    requires Leads(scans, n, acts, s) && p < n && m <= n && s.pc[p] == Scan(m)
    requires forall j :: m <= j < n && scans(p, j) ==> !s.passed[j]
    ensures Leads(scans, n, acts', s') && s' == s.(pc := s.pc[p := Critical])
    decreases n - m
  {
    acts', s' := Then(scans, n, acts, s, p);
    if m < n {
      acts', s' := ScanIn(scans, n, acts', s', p, m + 1);
      assert s'.pc == s.pc[p := Critical];
    }
  }

  lemma SetAndScanIn(scans: Scans, n: nat, acts: seq<nat>, s: State, p: nat)
    returns (acts': seq<nat>, s': State)
    requires Leads(scans, n, acts, s) && p < n && s.pc[p].SetPassed? && !scans(p, p)
    requires forall j :: 0 <= j < n && scans(p, j) ==> !s.passed[j]
    ensures Leads(scans, n, acts', s')
    ensures s' == s.(passed := s.passed[p := true], pc := s.pc[p := Critical])
  {
    acts', s' := Then(scans, n, acts, s, p);
    acts', s' := ScanIn(scans, n, acts', s', p, 0);
    assert s'.pc == s.pc[p := Critical];
  }

  /** Both leave the first loop: each read `!interested[k]` before the owner of `k` raised it. */
  lemma BothPassFirstLoop(scans: Scans, n: nat, i: nat, j: nat) returns (acts: seq<nat>, s: State)
    requires i < n && j < n && i != j
    ensures Leads(scans, n, acts, s)
    ensures s.pc[i].SetPassed? && s.pc[j].SetPassed?
    ensures forall q :: 0 <= q < n ==> !s.passed[q]
  {
    acts, s := [], Init(n);
    if i == 0 {
      acts, s := ToWriteK(scans, n, acts, s, j);
      acts, s := OwnerToSetPassed(scans, n, acts, s, i);
      acts, s := ToSetPassed(scans, n, acts, s, j);
    } else if j == 0 {
      acts, s := ToWriteK(scans, n, acts, s, i);
      acts, s := OwnerToSetPassed(scans, n, acts, s, j);
      acts, s := ToSetPassed(scans, n, acts, s, i);
    } else {
      acts, s := ToWriteK(scans, n, acts, s, i);
      acts, s := ToWriteK(scans, n, acts, s, j);
      acts, s := ToSetPassed(scans, n, acts, s, i);
      acts, s := ToSetPassed(scans, n, acts, s, j);
    }
  }

  /** If `i` never looks at `j`, let `j` in first and `i` after it. */
  lemma MissingPairViolates(scans: Scans, n: nat, i: nat, j: nat) returns (acts: seq<nat>)
    requires i < n && j < n && i != j && !scans(i, j) && NoSelf(scans, n)
    ensures !AtMostOneCritical(Run(scans, Init(n), acts))
  {
    var s;
    acts, s := BothPassFirstLoop(scans, n, i, j);
    acts, s := SetAndScanIn(scans, n, acts, s, j);
    acts, s := SetAndScanIn(scans, n, acts, s, i);
    assert s.pc[i].Critical? && s.pc[j].Critical?;
  }

  ghost predicate Excludes(scans: Scans, n: nat)
  {
    forall acts :: AtMostOneCritical(Run(scans, Init(n), acts))
  }

  /** Mutual exclusion over all runs holds if and only if every other process is looked at. */
  lemma ExcludesIffComplete(scans: Scans, n: nat)
    requires NoSelf(scans, n)
    ensures Excludes(scans, n) <==> Complete(scans, n)
  {
    if Complete(scans, n) {
      forall acts ensures AtMostOneCritical(Run(scans, Init(n), acts)) {
        MutualExclusion(scans, n, acts);
      }
    } else {
      var i, j :| 0 <= i < n && 0 <= j < n && i != j && !scans(i, j);
      var acts := MissingPairViolates(scans, n, i, j);
    }
  }

  /** The loop as written excludes nobody once there are two processes; the intended one always does. */
  lemma WrittenAndFullScan(n: nat)
    ensures Excludes(WrittenScan(), n) <==> n <= 1
    ensures Excludes(FullScan(), n)
  {
    ExcludesIffComplete(WrittenScan(), n);
    ExcludesIffComplete(FullScan(), n);
    if n >= 2 {
      assert !WrittenScan()(0, 1);
    }
  }
}
