/**
 The whole program comes to its end: on every infinite weakly fair run main passes the
 barrier, sets the flag, reaps every child and finishes its report.
 */
module RiepilogoLiveness {
  import opened Sums
  import opened Modular
  import opened Fairness
  import opened Riepilogo
  import opened RiepilogoTheorems

  /** The state at time `t` of the infinite run in which `actor(t)` is scheduled at time `t`. */
  function StateAt(n: nat, m: nat, actor: nat -> Action, t: nat): (s: State)
    ensures |s.children| == n && s.m == m
  {
    if t == 0 then Init(n, m) else Next(StateAt(n, m, actor, t - 1), actor(t - 1))
  }

  ghost predicate TakenOrBlocked(n: nat, m: nat, actor: nat -> Action, a: Action, t: nat)
  {
    exists u: nat :: t <= u && (actor(u) == a || !Enabled(StateAt(n, m, actor, u), a))
  }

  /** No process or thread that can move is passed over for ever. */
  ghost predicate WeaklyFair(n: nat, m: nat, actor: nat -> Action)
  {
    forall a: Action, t: nat :: TakenOrBlocked(n, m, actor, a, t)
  }

  lemma {:induction false} InvariantAt(n: nat, m: nat, actor: nat -> Action, t: nat)
    ensures Invariant(StateAt(n, m, actor, t))
  {
    hide Next, Invariant;
    if t == 0 {
      InitHolds(n, m);
    } else {
      InvariantAt(n, m, actor, t - 1);
      StepKeepsInvariant(StateAt(n, m, actor, t - 1), actor(t - 1));
    }
  }

  /** Steps of main before the flag is set. */
  function Stage(s: State): int
  {
    var n := |s.children|;
    match s.main
    case Forking(i) => 3 * n - i + 4
    case Collecting(i) => 2 * n - i + 3
    case Releasing(i) => n - i + 2
    case Stopping => 1
    case _ => 0
  }

  function Unannounced(s: State): int
  {
    |s.children| - Total(HasAnnounced, s.children)
  }

  function Natural(x: int): nat
  {
    if x >= 0 then x else 0
  }

  /** Before the flag is set, main's own way to it; afterwards, everybody's. */
  function RankOf(s: State): Rank
  {
    if s.stop then Rank(0, Natural(Work(s)), 0, 0, 0)
    else Rank(1, Natural(Stage(s)), Natural(Unannounced(s)), 0, 0)
  }

  lemma RankIsNatural(s: State)
    requires Invariant(s)
    ensures s.stop ==> Work(s) >= 0
    ensures !s.stop ==> Stage(s) >= 0 && Unannounced(s) >= 0
  {
    if s.stop {
      WorkIsNatural(s);
    } else {
      AtMostAll(HasAnnounced, s.children);
    }
  }

  function Announcers(s: State): seq<bool>
  {
    seq(|s.children|, c requires 0 <= c < |s.children| => s.children[c].pc.Announcing?)
  }

  /** The process depended on: before the flag is set, main or the first child it waits for. */
  ghost function Helpful(s: State): Action
  {
    if !s.stop then
      if Enabled(s, Main) then Main else OfChild(First(Announcers(s)))
    else if exists a :: Enabled(s, a) then
      var a :| Enabled(s, a); a
    else Main
  }

  lemma HelpfulIsEnabled(s: State)
    requires Invariant(s) && !s.main.Done?
    ensures Enabled(s, Helpful(s))
  {
    var a := SomebodyMoves(s);
    if !s.stop && !Enabled(s, Main) {
      var c := SomeZero(HasAnnounced, s.children);
      assert Announcers(s)[c];
    }
  }

  /** What one step does to the rank. */
  ghost predicate Closer(s: State, a: Action)
  {
    var s' := Next(s, a);
    || Below(RankOf(s'), RankOf(s))
    || (Helpful(s') == Helpful(s) && RankOf(s') == RankOf(s) && a != Helpful(s))
  }

  lemma MainComesCloser(s: State)
    requires Invariant(s) && !s.stop && Enabled(s, Main)
    ensures Below(RankOf(StepMain(s)), RankOf(s))
  {
    RankIsNatural(s);
  }

  lemma ChildComesCloser(s: State, c: nat)
    requires Invariant(s) && !s.stop && Enabled(s, OfChild(c))
    ensures Closer(s, OfChild(c))
  {
    var s' := StepChild(s, c);
    ChildDelta(s, c);
    ChildTotals(s.children, c, s'.children[c]);
    AtMostAll(HasAnnounced, s'.children);
    if s.children[c].pc.Announcing? {
      assert Unannounced(s') == Unannounced(s) - 1;
    } else {
      assert Announcers(s') == Announcers(s);
    }
  }

  lemma ThreadComesCloser(s: State, c: nat, t: nat)
    requires Invariant(s) && !s.stop && Enabled(s, OfThread(c, t))
    ensures Closer(s, OfThread(c, t))
  {
    var s' := StepThread(s, c, t);
    ThreadDelta(s, c, t);
    ChildTotals(s.children, c, s'.children[c]);
    assert Announcers(s') == Announcers(s);
  }

  lemma StepComesCloser(s: State, a: Action)
    requires Invariant(s) && !s.main.Done?
    ensures Closer(s, a)
  {
    hide Total;
    if !Enabled(s, a) {
      HelpfulIsEnabled(s);
    } else if s.stop {
      StopStays(s, a);
      EveryStepWorks(s, a);
      StepKeepsInvariant(s, a);
      WorkIsNatural(Next(s, a));
    } else {
      match a {
        case Main => MainComesCloser(s);
        case OfChild(c) => ChildComesCloser(s, c);
        case OfThread(c, t) => ThreadComesCloser(s, c, t);
      }
    }
  }

  /**
   On every infinite weakly fair run main reaches its end: it passes the barrier, sets the
   flag, reaps every child and finishes its report.
   */
  lemma AlwaysFinishes(n: nat, m: nat, actor: nat -> Action) returns (end: nat)
    requires WeaklyFair(n, m, actor)
    ensures StateAt(n, m, actor, end).main.Done?
  {
    hide RankOf, Helpful, Next, StateAt, Below, Invariant, Enabled;
    var goal := (t: nat) => StateAt(n, m, actor, t).main.Done?;
    var rank := (t: nat) => RankOf(StateAt(n, m, actor, t));
    var helpful := (t: nat) => Helpful(StateAt(n, m, actor, t));
    forall t: nat ensures Progress(actor, goal, rank, helpful, t) {
      var s := StateAt(n, m, actor, t);
      InvariantAt(n, m, actor, t);
      if !goal(t) {
        StepComesCloser(s, actor(t));
        NextState(n, m, actor, t);
      }
    }
    forall t: nat | !goal(t) ensures Helped(actor, goal, helpful, t) {
      var a := helpful(t);
      assert TakenOrBlocked(n, m, actor, a, t);
      var v: nat :| t <= v && (actor(v) == a || !Enabled(StateAt(n, m, actor, v), a));
      InvariantAt(n, m, actor, v);
      if !goal(v) {
        HelpfulIsEnabled(StateAt(n, m, actor, v));
      }
      assert HelpedAt(actor, goal, helpful, t, v);
    }
    end := Eventually(actor, goal, rank, helpful, 0, 0);
  }

  lemma NextState(n: nat, m: nat, actor: nat -> Action, t: nat)
    ensures StateAt(n, m, actor, t + 1) == Next(StateAt(n, m, actor, t), actor(t))
  {
  }

  // ---------------------------------------------------------------- fair runs exist

  /** Main, the children and their threads, in turn. */
  function InTurn(n: nat, m: nat, k: nat): Action
    requires k < 1 + n + n * m
  {
    if k == 0 then Main
    else if k <= n then OfChild(k - 1)
    else if m == 0 then Main
    else OfThread((k - 1 - n) / m, (k - 1 - n) % m)
  }

  function TurnOf(n: nat, m: nat, a: Action): nat
  {
    match a
    case Main => 0
    case OfChild(c) => 1 + c
    case OfThread(c, t) => 1 + n + (m * c + t)
  }

  predicate Exists(n: nat, m: nat, a: Action)
  {
    match a
    case Main => true
    case OfChild(c) => c < n
    case OfThread(c, t) => c < n && t < m
  }

  lemma EverybodyHasATurn(n: nat, m: nat, a: Action)
    requires Exists(n, m, a)
    ensures TurnOf(n, m, a) < 1 + n + n * m && InTurn(n, m, TurnOf(n, m, a)) == a
  {
    if a.OfThread? {
      Distribute(m, n, a.c);
      AtLeastOnce(m, n - a.c);
      Remainder(m * a.c + a.t, m, a.c, a.t);
    }
  }

  function RoundRobin(n: nat, m: nat): nat -> Action
  {
    (t: nat) => InTurn(n, m, t % (1 + n + n * m))
  }

  /** Everybody in turn, for ever, is a weakly fair run. */
  lemma RoundRobinIsFair(n: nat, m: nat)
    ensures WeaklyFair(n, m, RoundRobin(n, m))
  {
    var actor, all := RoundRobin(n, m), 1 + n + n * m;
    forall a: Action, t: nat ensures TakenOrBlocked(n, m, actor, a, t) {
      if Exists(n, m, a) {
        EverybodyHasATurn(n, m, a);
        var k := TurnOf(n, m, a);
        AtLeastOnce(t + 1, all);
        var u := all * (t + 1) + k;
        Remainder(u, all, t + 1, k);
        assert t <= u && actor(u) == a;
      } else {
        InvariantAt(n, m, actor, t);
        NobodyElse(StateAt(n, m, actor, t), a);
      }
    }
  }

  lemma NobodyElse(s: State, a: Action)
    requires Invariant(s) && !Exists(|s.children|, s.m, a)
    ensures !Enabled(s, a)
  {
    if a.OfThread? && a.c < |s.children| {
      assert ChildOk(s, a.c);
    }
  }
}
