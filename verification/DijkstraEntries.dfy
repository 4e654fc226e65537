/**
 Progress of Dijkstra's algorithm: on every infinite weakly fair run on which somebody
 contends, somebody enters the critical section, whatever the number of processes and
 whoever is inside already.
 */
module DijkstraEntries {
  import opened Sums
  import opened Modular
  import opened Dijkstra
  import opened DijkstraLiveness

  // ---------------------------------------------------------------- entries

  /** The step at time `t` takes the contender `p` into the critical section. */
  ghost predicate EntersAt(scans: Scans, n: nat, actor: nat -> nat, p: nat, t: nat)
  {
    && p < n
    && Contending(StateAt(scans, n, actor, t).pc[p])
    && StateAt(scans, n, actor, t + 1).pc[p].Critical?
  }

  function IsInside(pc: Pc): int { if pc.Critical? then 1 else 0 }

  /** How many processes are in the critical section. */
  function Inside(s: State): (c: nat)
  {
    TotalNonNegative(IsInside, s.pc);
    Total(IsInside, s.pc)
  }

  predicate Enters(s: State, s': State, p: nat)
  {
    p < |s.pc| == |s'.pc| && Contending(s.pc[p]) && s'.pc[p].Critical?
  }

  /** A step that is no entry keeps the contenders and lets nobody more in. */
  lemma NoEntry(scans: Scans, s: State, p: nat)
    requires WellFormed(s) && !Enters(s, Next(scans, s, p), p)
    ensures var s' := Next(scans, s, p);
            && (SomeoneContends(s) ==> SomeoneContends(s'))
            && Inside(s') <= Inside(s)
            && (p < |s.pc| && s.pc[p].Critical? ==> Inside(s') < Inside(s))
  {
    var s' := Next(scans, s, p);
    if p < |s.pc| {
      TotalUpdate(IsInside, s.pc, p, s'.pc[p]);
      assert s'.pc == s.pc[p := s'.pc[p]];
    }
    if i :| 0 <= i < |s.pc| && Contending(s.pc[i]) {
      assert Contending(s'.pc[i]);
    }
  }

  /** Somebody inside who was not there before has entered meanwhile. */
  lemma {:induction false} EnteredMeanwhile(scans: Scans, n: nat, actor: nat -> nat, from: nat, t: nat)
    returns (p: nat, entry: nat)
    requires from <= t
    requires !SomeoneCritical(StateAt(scans, n, actor, from)) && SomeoneCritical(StateAt(scans, n, actor, t))
    ensures from <= entry < t && EntersAt(scans, n, actor, p, entry)
    decreases t - from
  {
    var s, s', a := StateAt(scans, n, actor, from), StateAt(scans, n, actor, from + 1), actor(from);
    if Enters(s, s', a) {
      p, entry := a, from;
    } else {
      NobodyGotIn(scans, s, a);
      p, entry := EnteredMeanwhile(scans, n, actor, from + 1, t);
    }
  }

  lemma NobodyGotIn(scans: Scans, s: State, p: nat)
    requires WellFormed(s) && !SomeoneCritical(s) && !Enters(s, Next(scans, s, p), p)
    ensures !SomeoneCritical(Next(scans, s, p))
  {
  }

  /** A process inside moves some time. */
  lemma InsiderMoves(scans: Scans, n: nat, actor: nat -> nat, q: nat, t: nat) returns (v: nat)
    requires WeaklyFair(scans, n, actor) && q < n && StateAt(scans, n, actor, t).pc[q].Critical?
    ensures t <= v && actor(v) == q
  {
    assert MovesOrRests(scans, n, actor, q, t);
    v :| t <= v && (actor(v) == q || StateAt(scans, n, actor, v).pc[q].Idle?);
    if actor(v) != q {
      v := MovedBefore(scans, n, actor, q, t, v);
    }
  }

  /**
   On every infinite weakly fair run on which somebody contends at time `from`, some
   contender enters the critical section then or later, also when others are inside at
   that time. Which entries the final loop looks at does not matter, as long as no process
   looks at its own.
   */
  lemma {:induction false} SomebodyEnters(scans: Scans, n: nat, actor: nat -> nat, from: nat)
    returns (p: nat, entry: nat)
    requires NoSelf(scans, n) && WeaklyFair(scans, n, actor)
    requires SomeoneContends(StateAt(scans, n, actor, from))
    ensures from <= entry && EntersAt(scans, n, actor, p, entry)
    decreases Inside(StateAt(scans, n, actor, from)), 1, 0
  {
    hide StateAt, Next, EntersAt, WeaklyFair;
    if q: nat :| q < n && StateAt(scans, n, actor, from).pc[q].Critical? {
      var v := InsiderMoves(scans, n, actor, q, from);
      p, entry := EntersAfter(scans, n, actor, from, q, v);
    } else {
      assert !SomeoneCritical(StateAt(scans, n, actor, from));
      var t := SomebodyInside(scans, n, actor, from);
      p, entry := EnteredMeanwhile(scans, n, actor, from, t);
    }
  }

  /** The same when `q` is inside at time `from` and moves at time `v`. */
  lemma {:induction false} EntersAfter(scans: Scans, n: nat, actor: nat -> nat, from: nat, q: nat, v: nat)
    returns (p: nat, entry: nat)
    requires NoSelf(scans, n) && WeaklyFair(scans, n, actor)
    requires SomeoneContends(StateAt(scans, n, actor, from))
    requires from <= v && actor(v) == q < n && StateAt(scans, n, actor, from).pc[q].Critical?
    ensures from <= entry && EntersAt(scans, n, actor, p, entry)
    decreases Inside(StateAt(scans, n, actor, from)), 0, v - from
  {
    hide Inside, Next, WeaklyFair, SomeoneContends;
    var s, s', a := StateAt(scans, n, actor, from), StateAt(scans, n, actor, from + 1), actor(from);
    if Enters(s, s', a) {
      p, entry := a, from;
    } else {
      NoEntry(scans, s, a);
      if a == q {
        p, entry := SomebodyEnters(scans, n, actor, from + 1);
      } else {
        OthersStay(scans, s, q, a);
        p, entry := EntersAfter(scans, n, actor, from + 1, q, v);
      }
    }
  }

  // ---------------------------------------------------------------- finite runs

  /** `acts` first, then every process in turn for ever. */
  function RoundRobin(n: nat, acts: seq<nat>): nat -> nat
    requires n > 0
  {
    (t: nat) => if t < |acts| then acts[t] else t % n
  }

  function Prefix(actor: nat -> nat, t: nat): (acts: seq<nat>)
    ensures |acts| == t && forall u :: 0 <= u < t ==> acts[u] == actor(u)
  {
    seq(t, (u: nat) => actor(u))
  }

  lemma {:induction false} StateAtIsRun(scans: Scans, n: nat, actor: nat -> nat, t: nat)
    ensures StateAt(scans, n, actor, t) == Run(scans, Init(n), Prefix(actor, t))
  {
    if t > 0 {
      StateAtIsRun(scans, n, actor, t - 1);
      assert Prefix(actor, t)[..t - 1] == Prefix(actor, t - 1);
    }
  }

  lemma RoundRobinIsFair(scans: Scans, n: nat, acts: seq<nat>)
    requires n > 0
    ensures WeaklyFair(scans, n, RoundRobin(n, acts))
  {
    var actor := RoundRobin(n, acts);
    forall p: nat, t: nat | p < n ensures MovesOrRests(scans, n, actor, p, t) {
      var q := t + |acts|;
      AtLeastOnce(q, n);
      var u := n * q + p;
      Remainder(u, n, q, p);
      assert t <= u && actor(u) == p;
    }
  }

  // ---------------------------------------------------------------- contenders on their own

  function OutWeight(pc: Pc): int
  {
    match pc
    case Critical => 3 case LeavePassed => 2 case LeaveInterested => 1
    case _ => 0
  }

  function ToGetOut(s: State): (w: nat)
  {
    TotalNonNegative(OutWeight, s.pc);
    Total(OutWeight, s.pc)
  }

  /** `s'` differs from `s` in that whoever did not contend is outside. */
  predicate Cleared(s: State, s': State)
  {
    && |s'.pc| == |s.pc|
    && forall i :: 0 <= i < |s.pc| ==> if Contending(s.pc[i]) then s'.pc[i] == s.pc[i] else s'.pc[i].Idle?
  }

  lemma OneGetsOut(scans: Scans, s: State, i: nat)
    requires WellFormed(s) && i < |s.pc| && !Contending(s.pc[i]) && !s.pc[i].Idle?
    ensures var s' := Next(scans, s, i);
            && s'.pc == s.pc[i := s'.pc[i]] && !Contending(s'.pc[i])
            && ToGetOut(s') < ToGetOut(s)
  {
    TotalUpdate(OutWeight, s.pc, i, Next(scans, s, i).pc[i]);
  }

  /** Those inside or on their way out leave, the contenders waiting. */
  lemma {:induction false} LetOthersOut(scans: Scans, n: nat, acts: seq<nat>) returns (more: seq<nat>)
    ensures Cleared(Run(scans, Init(n), acts), Run(scans, Init(n), acts + more))
    decreases ToGetOut(Run(scans, Init(n), acts))
  {
    hide Run, Next, ToGetOut;
    var s := Run(scans, Init(n), acts);
    if i: nat :| i < n && !Contending(s.pc[i]) && !s.pc[i].Idle? {
      OneGetsOut(scans, s, i);
      RunSnoc(scans, Init(n), acts, i);
      var rest := LetOthersOut(scans, n, acts + [i]);
      more := [i] + rest;
      assert (acts + [i]) + rest == acts + more;
    } else {
      more := [];
      assert acts + more == acts;
    }
  }

  /** `acts` first, then the processes in `who` in turn, the others resting. */
  function OnlyThese(acts: seq<nat>, who: seq<bool>): nat -> nat
    requires who != []
  {
    (t: nat) => if t < |acts| then acts[t] else if who[t % |who|] then t % |who| else |who|
  }

  lemma {:induction false} OthersRest(scans: Scans, acts: seq<nat>, who: seq<bool>, i: nat, t: nat)
    requires i < |who| && !who[i] && |acts| <= t
    ensures var actor := OnlyThese(acts, who);
            StateAt(scans, |who|, actor, t).pc[i] == StateAt(scans, |who|, actor, |acts|).pc[i]
    decreases t
  {
    var n, actor := |who|, OnlyThese(acts, who);
    if |acts| < t {
      OthersRest(scans, acts, who, i, t - 1);
      OthersStay(scans, StateAt(scans, n, actor, t - 1), i, actor(t - 1));
      hide Next;
    }
  }

  /** Such a run is fair if the others are outside by then. */
  lemma OnlyTheseIsFair(scans: Scans, acts: seq<nat>, who: seq<bool>)
    requires who != []
    requires forall i :: 0 <= i < |who| && !who[i] ==>
               StateAt(scans, |who|, OnlyThese(acts, who), |acts|).pc[i].Idle?
    ensures WeaklyFair(scans, |who|, OnlyThese(acts, who))
  {
    var n, actor := |who|, OnlyThese(acts, who);
    forall p: nat, t: nat | p < n ensures MovesOrRests(scans, n, actor, p, t) {
      var q := t + |acts|;
      AtLeastOnce(q, n);
      var u := n * q + p;
      Remainder(u, n, q, p);
      hide StateAt;
      assert t <= u && |acts| <= u;
      if who[p] {
        assert actor(u) == p;
      } else {
        OthersRest(scans, acts, who, p, u);
        assert StateAt(scans, n, actor, u).pc[p].Idle?;
      }
    }
  }

  /** Once nobody but contenders is in the protocol, one of them, left to themselves, gets in. */
  lemma OneOfThemEnters(scans: Scans, acts: seq<nat>, who: seq<bool>) returns (p: nat, entry: nat)
    requires NoSelf(scans, |who|) && who != []
    requires var s := StateAt(scans, |who|, OnlyThese(acts, who), |acts|);
             && SomeoneContends(s)
             && forall i :: 0 <= i < |who| && !who[i] ==> s.pc[i].Idle?
    ensures p < |who| && who[p] && |acts| <= entry
    ensures StateAt(scans, |who|, OnlyThese(acts, who), entry + 1).pc[p].Critical?
  {
    hide StateAt, Next, OnlyThese, NoSelf, SomeoneContends;
    OnlyTheseIsFair(scans, acts, who);
    hide WeaklyFair;
    p, entry := SomebodyEnters(scans, |who|, OnlyThese(acts, who), |acts|);
    if !who[p] {
      OthersRest(scans, acts, who, p, entry);
    }
  }

  lemma AmongThemselves(scans: Scans, n: nat, acts: seq<nat>) returns (p: nat, more: seq<nat>)
    requires NoSelf(scans, n) && n > 0 && SomeoneContends(Run(scans, Init(n), acts))
    requires forall i :: 0 <= i < n ==>
               var pc := Run(scans, Init(n), acts).pc[i]; Contending(pc) || pc.Idle?
    ensures p < n && Contending(Run(scans, Init(n), acts).pc[p])
    ensures Run(scans, Init(n), acts + more).pc[p].Critical?
  {
    hide StateAt, Run, Next, NoSelf, SomeoneContends;
    var who := Contenders(Run(scans, Init(n), acts));
    var actor := OnlyThese(acts, who);
    assert Prefix(actor, |acts|) == acts;
    hide OnlyThese, Contending, Prefix;
    StateAtIsRun(scans, n, actor, |acts|);
    var entry;
    p, entry := OneOfThemEnters(scans, acts, who);
    StateAtIsRun(scans, n, actor, entry + 1);
    PrefixGrows(actor, |acts|, entry + 1);
    more := Prefix(actor, entry + 1)[|acts|..];
    assert Prefix(actor, |acts|) + more == Prefix(actor, entry + 1);
  }

  lemma PrefixGrows(actor: nat -> nat, t: nat, u: nat)
    requires t <= u
    ensures Prefix(actor, u)[..t] == Prefix(actor, t)
  {
  }

  /**
   From every reachable state with a contender, some finite continuation takes one of the
   contenders of that state into the critical section.
   */
  lemma FiniteContinuation(scans: Scans, n: nat, acts: seq<nat>)
    returns (p: nat, more: seq<nat>)
    requires NoSelf(scans, n) && SomeoneContends(Run(scans, Init(n), acts))
    ensures p < n && Contending(Run(scans, Init(n), acts).pc[p])
    ensures Run(scans, Init(n), acts + more).pc[p].Critical?
  {
    hide Run, Next;
    var out := LetOthersOut(scans, n, acts);
    var i :| 0 <= i < n && Contending(Run(scans, Init(n), acts).pc[i]);
    assert Contending(Run(scans, Init(n), acts + out).pc[i]);
    var rest;
    p, rest := AmongThemselves(scans, n, acts + out);
    more := out + rest;
    assert (acts + out) + rest == acts + more;
  }
}
