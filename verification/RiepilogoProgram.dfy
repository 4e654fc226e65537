/** The processes and threads as they run, and the final report of the main process. */
module RiepilogoProgram {
  import opened Sums
  import opened Riepilogo
  import opened RiepilogoTheorems

  /**
   `winner` is the lowest of the indices at which `counts` is greatest, and `best` its
   count; both are -1 when there are no children.
   */
  ghost predicate IsReport(counts: seq<nat>, winner: int, best: int)
  {
    if counts == [] then winner == -1 && best == -1
    else
      && 0 <= winner < |counts| && best == counts[winner]
      && (forall c :: 0 <= c < |counts| ==> counts[c] <= best)
      && (forall c :: 0 <= c < winner ==> counts[c] < best)
  }

  /** `parseOutput`: a histogram of the log, then its first maximum. */
  method ParseOutput(log: seq<nat>, n: nat) returns (stats: array<nat>, winner: int, best: int)
    requires forall r :: 0 <= r < |log| ==> log[r] < n
    ensures fresh(stats) && stats[..] == Counts(log, n)
    ensures IsReport(Counts(log, n), winner, best)
  {
    stats := new nat[n](c => 0);
    var pos := 0;
    while pos < |log|
      invariant 0 <= pos <= |log|
      invariant forall c :: 0 <= c < n ==> stats[c] == multiset(log[..pos])[c]
    {
      var index := log[pos];
      assert log[..pos + 1] == log[..pos] + [index];
      stats[index] := stats[index] + 1;
      pos := pos + 1;
    }
    assert log[..pos] == log;
    assert stats[..] == Counts(log, n);
    winner, best := -1, -1;
    for i := 0 to n
      invariant i == 0 ==> winner == -1 && best == -1
      invariant i > 0 ==> 0 <= winner < i && best == stats[winner]
      invariant forall c :: 0 <= c < i ==> stats[c] <= best
      invariant forall c :: 0 <= c < winner ==> stats[c] < best
    {
      if stats[i] > best {
        best := stats[i];
        winner := i;
      }
    }
  }

  /** With at least one thread a round, the child reported is the first of those with the most rounds. */
  lemma MostRoundsWins(counts: seq<nat>, rounds: seq<nat>, m: nat, winner: int, best: int)
    requires m >= 1 && |counts| == |rounds| > 0 && IsReport(counts, winner, best)
    requires forall c :: 0 <= c < |counts| ==> counts[c] == m * rounds[c]
    ensures 0 <= winner < |rounds| && best == m * rounds[winner]
    ensures forall c :: 0 <= c < |rounds| ==> rounds[c] <= rounds[winner]
    ensures forall c :: 0 <= c < winner ==> rounds[c] < rounds[winner]
  {
    forall c | 0 <= c < |rounds|
      ensures rounds[c] <= rounds[winner] && (c < winner ==> rounds[c] < rounds[winner])
    {
      assert m * rounds[c] == counts[c] <= counts[winner] == m * rounds[winner];
      Cancel(m, rounds[c], rounds[winner]);
    }
  }

  lemma Cancel(m: nat, a: nat, b: nat)
    requires m >= 1
    ensures m * a <= m * b ==> a <= b
    ensures m * a < m * b ==> a < b
  {
    if a >= b {
      assert m * a == m * b + m * (a - b);
      assert m * (a - b) >= a - b;
    }
  }

  class Program {
    const m: nat
    var main: MainPc
    var ready: nat
    var start: nat
    var critical: nat
    var stop: bool
    var log: seq<nat>
    const children: array<Child>

    ghost function Abs(): State
      reads this, children
    {
      State(m, main, ready, start, critical, stop, log, children[..])
    }

    ghost predicate Valid()
      reads this, children
    {
      Invariant(Abs())
    }

    constructor (n: nat, m: nat)
      ensures Valid() && Abs() == Init(n, m) && fresh(children)
    {
      this.m := m;
      main, ready, start, critical, stop, log := Forking(0), 0, 0, 1, false, [];
      var none := NoThreads(m);
      children := new Child[n](c => Child(Unborn, none, 0));
      new;
      assert Abs() == Init(n, m);
      InitHolds(n, m);
    }

    /** The next step of the main process, up to its report. */
    method MainStep() returns (moved: bool)
      requires Valid()
      modifies this, children
      ensures Valid() && Abs() == Next(old(Abs()), Main)
      ensures moved == Enabled(old(Abs()), Main)
    {
      StepKeepsInvariant(Abs(), Main);
      hide Invariant;
      if main.Forking? || main.Releasing? {
        StartChildren();
        moved := true;
      } else if main.Collecting? || main.Reaping? {
        moved := AwaitChildren();
      } else if main.Done? {
        moved := false;
      } else {
        moved := true;
        if main.Stopping? {
          stop := true;
          main := Reaping(0);
        } else {
          main := Done;
        }
      }
    }

    /** The loop that forks the children, and the loop that lets them start. */
    method StartChildren()
      requires MainOk(Abs()) && (main.Forking? || main.Releasing?)
      modifies this`main, this`start, children
      ensures Abs() == Next(old(Abs()), Main)
    {
      var n, i := children.Length, main.i;
      if main.Forking? && i < n {
        children[i] := children[i].(pc := Announcing);
        main := Forking(i + 1);
      } else if main.Forking? {
        main := Collecting(0);
      } else if i < n {
        start := start + 1;
        main := Releasing(i + 1);
      } else {
        main := Stopping;
      }
    }

    /** The loop that waits for the children to be ready, and the loop that reaps them. */
    method AwaitChildren() returns (moved: bool)
      requires main.Collecting? || main.Reaping?
      modifies this`main, this`ready
      ensures Abs() == Next(old(Abs()), Main)
      ensures moved == Enabled(old(Abs()), Main)
    {
      var n, i := children.Length, main.i;
      var exited := CountExited();
      moved := true;
      if i >= n {
        main := if main.Collecting? then Releasing(0) else Parsing;
      } else if main.Collecting? && ready > 0 {
        ready := ready - 1;
        main := Collecting(i + 1);
      } else if main.Reaping? && exited > i {
        main := Reaping(i + 1);
      } else {
        moved := false;
      }
    }

    /** How many children `wait` could collect by now. */
    method CountExited() returns (k: int)
      ensures k == Total(IsExited, children[..])
    {
      k := 0;
      var w := Weights(IsExited, children[..]);
      for i := 0 to children.Length
        invariant k == Sum(w[..i])
      {
        assert w[..i + 1] == w[..i] + [w[i]];
        SumSnoc(w[..i], w[i]);
        if children[i].pc.Exited? {
          k := k + 1;
        }
      }
      assert w[..children.Length] == w;
    }

    /** The next step of child `c`. */
    method ChildStep(c: nat) returns (moved: bool)
      requires Valid() && c < children.Length
      modifies this, children
      ensures Valid() && Abs() == Next(old(Abs()), OfChild(c))
      ensures moved == Enabled(old(Abs()), OfChild(c))
    {
      StepKeepsInvariant(Abs(), OfChild(c));
      hide Invariant;
      var pc := children[c].pc;
      if pc.Announcing? || pc.AwaitingStart? {
        moved := ChildEnter(c);
      } else if pc.Creating? || pc.Joining? {
        moved := ChildRound(c);
      } else if pc.Checking? {
        ChildCheck(c);
        moved := true;
      } else {
        moved := false;
      }
    }

    /** `sem_post(main_waits_for_children)`, then `sem_wait(children_wait_for_main)`. */
    method ChildEnter(c: nat) returns (moved: bool)
      requires c < children.Length && (children[c].pc.Announcing? || children[c].pc.AwaitingStart?)
      modifies this`ready, this`start, children
      ensures Abs() == Next(old(Abs()), OfChild(c))
      ensures moved == Enabled(old(Abs()), OfChild(c))
    {
      var ch := children[c];
      moved := true;
      if ch.pc.Announcing? {
        ready := ready + 1;
        children[c] := ch.(pc := AwaitingStart);
      } else if start > 0 {
        start := start - 1;
        children[c] := ch.(pc := Creating(0), threads := NoThreads(m));
      } else {
        moved := false;
      }
    }

    /** The two loops over the threads of a round. */
    method ChildRound(c: nat) returns (moved: bool)
      requires c < children.Length && (children[c].pc.Creating? || children[c].pc.Joining?)
      modifies children
      ensures Abs() == Next(old(Abs()), OfChild(c))
      ensures moved == Enabled(old(Abs()), OfChild(c))
    {
      var ch := children[c];
      var j := ch.pc.j;
      moved := true;
      if ch.pc.Creating? && j < |ch.threads| {
        children[c] := ch.(pc := Creating(j + 1), threads := ch.threads[j := Entering]);
      } else if ch.pc.Creating? {
        children[c] := ch.(pc := Joining(0));
      } else if j >= |ch.threads| {
        children[c] := ch.(pc := Checking, rounds := ch.rounds + 1);
      } else if ch.threads[j].Finished? {
        children[c] := ch.(pc := Joining(j + 1));
      } else {
        moved := false;
      }
    }

    /** `if (*data) break`, or another round. */
    method ChildCheck(c: nat)
      requires c < children.Length && children[c].pc.Checking?
      modifies children
      ensures Abs() == Next(old(Abs()), OfChild(c))
    {
      var ch := children[c];
      if stop {
        children[c] := ch.(pc := Exited);
      } else {
        children[c] := ch.(pc := Creating(0), threads := NoThreads(m));
      }
    }

    /** The next step of thread `t` of child `c`. */
    method ThreadStep(c: nat, t: nat) returns (moved: bool)
      requires Valid() && c < children.Length && t < |children[c].threads|
      modifies this, children
      ensures Valid() && Abs() == Next(old(Abs()), OfThread(c, t))
      ensures moved == Enabled(old(Abs()), OfThread(c, t))
    {
      StepKeepsInvariant(Abs(), OfThread(c, t));
      hide Invariant;
      var ch := children[c];
      moved := true;
      match ch.threads[t] {
        case Absent =>
          moved := false;
        case Entering =>
          if critical > 0 {
            critical := critical - 1;
            children[c] := ch.(threads := ch.threads[t := Appending]);
          } else {
            moved := false;
          }
        case Appending =>
          log := log + [c];
          children[c] := ch.(threads := ch.threads[t := Posting]);
        case Posting =>
          critical := critical + 1;
          children[c] := ch.(threads := ch.threads[t := Finished]);
        case Finished =>
          moved := false;
      }
    }

    /** `parseOutput` on the log as main finds it: the first of the children with the most rounds. */
    method Report() returns (winner: int, best: int)
      requires Valid() && main.Parsing?
      ensures children.Length == 0 ==> winner == -1 && best == -1
      ensures children.Length > 0 && m == 0 ==> winner == 0 && best == 0
      ensures children.Length > 0 && m >= 1 ==>
                && 0 <= winner < children.Length && best == m * children[winner].rounds
                && (forall c :: 0 <= c < children.Length ==> children[c].rounds <= children[winner].rounds)
                && (forall c :: 0 <= c < winner ==> children[c].rounds < children[winner].rounds)
    {
      AccountsAtParsing(Abs());
      var stats;
      stats, winner, best := ParseOutput(log, children.Length);
      if children.Length > 0 && m >= 1 {
        MostRoundsWins(Counts(log, children.Length), Rounds(Abs()), m, winner, best);
      }
      if children.Length > 0 && m == 0 {
        assert Counts(log, children.Length)[0] == 0;
      }
    }
  }

  function Rounds(s: State): (r: seq<nat>)
    ensures |r| == |s.children| && forall c :: 0 <= c < |r| ==> r[c] == s.children[c].rounds
  {
    seq(|s.children|, c requires 0 <= c < |s.children| => s.children[c].rounds)
  }

  lemma AccountsAtParsing(s: State)
    requires Invariant(s) && s.main.Parsing?
    ensures forall r :: 0 <= r < |s.log| ==> s.log[r] < |s.children|
    ensures forall c :: 0 <= c < |s.children| ==>
              Counts(s.log, |s.children|)[c] == s.m * s.children[c].rounds
  {
    AtMostAll(IsExited, s.children);
    forall c | 0 <= c < |s.children|
      ensures Counts(s.log, |s.children|)[c] == s.m * s.children[c].rounds
    {
      assert ChildOk(s, c);
    }
  }
}
