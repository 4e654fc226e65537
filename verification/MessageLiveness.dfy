/** The exchange comes to its end: on every infinite weakly fair run, whatever the kernel grants. */
module MessageLiveness {
  import opened IntBytes
  import opened Modular
  import opened Fairness
  import opened Messages
  import opened MessageTheorems

  datatype Side = Writer | Reader | Nobody

  predicate WriterCan(s: State)
  {
    Enabled(s, CallWrite) || Enabled(s, WriteSome(1)) || Enabled(s, CloseEnd)
  }

  predicate Can(s: State, side: Side)
  {
    match side
    case Writer => WriterCan(s)
    case Reader => Enabled(s, ReadByte)
    case Nobody => false
  }

  /** The side that moves when `a` is scheduled: nobody if the call blocks or is interrupted. */
  function Mover(s: State, a: Action): Side
  {
    if !Enabled(s, a) then Nobody else if a.ReadByte? then Reader else Writer
  }

  /** The state at time `t` of the infinite run in which `actor(t)` is scheduled at time `t`. */
  function StateAt(init: State, actor: nat -> Action, t: nat): (s: State)
    requires CStrings(init.raws)
    ensures s.raws == init.raws && s.separator == init.separator && s.wanted == init.wanted
  {
    if t == 0 then init else Next(StateAt(init, actor, t - 1), actor(t - 1))
  }

  ghost predicate MovesOrBlocks(init: State, actor: nat -> Action, side: Side, t: nat)
    requires CStrings(init.raws)
  {
    exists u: nat :: t <= u && MovesOrBlocksAt(init, actor, side, u)
  }

  ghost predicate MovesOrBlocksAt(init: State, actor: nat -> Action, side: Side, u: nat)
    requires CStrings(init.raws)
  {
    var s := StateAt(init, actor, u);
    Mover(s, actor(u)) == side || !Can(s, side)
  }

  /** Neither side is passed over, or interrupted, for ever. */
  ghost predicate WeaklyFair(init: State, actor: nat -> Action)
    requires CStrings(init.raws)
  {
    forall side: Side, t: nat :: MovesOrBlocks(init, actor, side, t)
  }

  lemma {:induction false} InvariantAt(init: State, actor: nat -> Action, t: nat)
    requires CStrings(init.raws) && Invariant(init)
    ensures Invariant(StateAt(init, actor, t))
  {
    hide Next, Invariant, CStrings;
    if t > 0 {
      InvariantAt(init, actor, t - 1);
      StepKeepsInvariant(StateAt(init, actor, t - 1), actor(t - 1));
    }
  }

  /** The side on which progress depends: the reader when it can move. */
  function Helpful(s: State): Side
  {
    if Can(s, Reader) then Reader else Writer
  }

  lemma HelpfulCan(s: State)
    requires Invariant(s) && !Stuck(s)
    ensures Can(s, Helpful(s))
  {
    var a :| Enabled(s, a);
    assert a.WriteSome? ==> Enabled(s, WriteSome(1));
  }

  function RankOf(s: State): Rank
    requires CStrings(s.raws)
  {
    Rank(if Work(s) >= 0 then Work(s) else 0, 0, 0, 0, 0)
  }

  lemma StepComesCloser(s: State, a: Action)
    requires Invariant(s) && !Stuck(s)
    ensures var s' := Next(s, a);
            || Below(RankOf(s'), RankOf(s))
            || (s' == s && Mover(s, a) != Helpful(s))
  {
    hide Work, Step;
    if Enabled(s, a) {
      EveryStepWorks(s, a);
      StepKeepsInvariant(s, a);
      WorkIsNatural(Next(s, a));
      hide Invariant, CStrings, Next;
    } else {
      BlockedStays(s, a);
    }
  }

  /** On every weakly fair run there comes a time when neither side can move. */
  lemma AlwaysRests(init: State, actor: nat -> Action) returns (end: nat)
    requires CStrings(init.raws) && Invariant(init) && WeaklyFair(init, actor)
    ensures Stuck(StateAt(init, actor, end))
  {
    hide RankOf, Helpful, Mover, Can, Next, StateAt, Below, Invariant, CStrings, Stuck;
    var goal := (t: nat) => Stuck(StateAt(init, actor, t));
    var rank := (t: nat) => RankOf(StateAt(init, actor, t));
    var helpful := (t: nat) => Helpful(StateAt(init, actor, t));
    var mover := (t: nat) => Mover(StateAt(init, actor, t), actor(t));
    forall t: nat ensures Progress(mover, goal, rank, helpful, t) {
      InvariantAt(init, actor, t);
      if !goal(t) {
        StepComesCloser(StateAt(init, actor, t), actor(t));
        NextState(init, actor, t);
      }
    }
    forall t: nat | !goal(t) ensures Helped(mover, goal, helpful, t) {
      assert MovesOrBlocks(init, actor, helpful(t), t);
      var v: nat :| t <= v && MovesOrBlocksAt(init, actor, helpful(t), v);
      InvariantAt(init, actor, v);
      if !goal(v) {
        HelpfulCan(StateAt(init, actor, v));
      }
      assert HelpedAt(mover, goal, helpful, t, v);
    }
    end := Eventually(mover, goal, rank, helpful, 0, 0);
  }

  lemma NextState(init: State, actor: nat -> Action, t: nat)
    requires CStrings(init.raws)
    ensures StateAt(init, actor, t + 1) == Next(StateAt(init, actor, t), actor(t))
  {
  }

  /**
   With one call for each message, every infinite weakly fair run comes to rest, with
   exactly the messages sent delivered if and only if every message ends in its only
   separator.
   */
  lemma AlwaysDelivers(raws: seq<seq<Byte>>, separator: Byte, actor: nat -> Action) returns (end: nat)
    requires CStrings(raws) && WeaklyFair(Init(raws, separator, |raws|), actor)
    ensures var s := StateAt(Init(raws, separator, |raws|), actor, end);
            Stuck(s) && (Exact(s) <==> AllFramed(Payloads(raws), separator))
  {
    var init := Init(raws, separator, |raws|);
    RunKeepsInvariant(raws, separator, |raws|, []);
    hide Invariant, AllFramed, Exact, Stuck, CStrings, WeaklyFair, StateAt;
    end := AlwaysRests(init, actor);
    InvariantAt(init, actor, end);
    ExactIffFramed(StateAt(init, actor, end));
  }

  // ---------------------------------------------------------------- fair runs exist

  /** The three steps of a writer and the reader's in turn, for ever, one byte at a time. */
  function InTurn(): nat -> Action
  {
    (t: nat) =>
      if t % 4 == 0 then CallWrite else if t % 4 == 1 then WriteSome(1) else if t % 4 == 2 then CloseEnd else ReadByte
  }

  lemma InTurnIsFair(init: State)
    requires CStrings(init.raws)
    ensures WeaklyFair(init, InTurn())
  {
    var actor := InTurn();
    forall side: Side, t: nat ensures MovesOrBlocks(init, actor, side, t) {
      hide StateAt, Enabled;
      var u := 4 * t;
      if side.Reader? {
        assert MovesOrBlocksAt(init, actor, side, u + 3);
      } else if side.Nobody? {
        assert MovesOrBlocksAt(init, actor, side, u);
      } else {
        WriterHasItsTurn(init, u);
      }
    }
  }

  /** Whatever the writer can do at a time when its turn begins, it does within three steps. */
  lemma WriterHasItsTurn(init: State, u: nat)
    requires CStrings(init.raws) && u % 4 == 0
    ensures MovesOrBlocks(init, InTurn(), Writer, u)
  {
    var actor := InTurn();
    hide StateAt, Enabled, CStrings, Next;
    if !MovesOrBlocksAt(init, actor, Writer, u) {
      NextState(init, actor, u);
      BlockedStays(StateAt(init, actor, u), CallWrite);
      if !MovesOrBlocksAt(init, actor, Writer, u + 1) {
        NextState(init, actor, u + 1);
        BlockedStays(StateAt(init, actor, u + 1), WriteSome(1));
        assert MovesOrBlocksAt(init, actor, Writer, u + 2);
      }
    }
  }
}
