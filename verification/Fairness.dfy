/** The proof rule for "eventually" on infinite runs under weak fairness. */
module Fairness {

  /** Ranks are ordered lexicographically. */
  datatype Rank = Rank(first: nat, second: nat, third: nat, fourth: nat, fifth: nat)

  predicate Below(r: Rank, s: Rank)
  {
    || r.first < s.first
    || (r.first == s.first && r.second < s.second)
    || (r.first == s.first && r.second == s.second && r.third < s.third)
    || (r.first == s.first && r.second == s.second && r.third == s.third && r.fourth < s.fourth)
    || (r.first == s.first && r.second == s.second && r.third == s.third && r.fourth == s.fourth && r.fifth < s.fifth)
  }

  /**
   At time `t` the run reaches its goal, or comes closer to it; or it comes no closer, but
   then the process on which progress depends stays the same one and did not move.
   */
  ghost predicate Progress<A(!new)>(
    actor: nat -> A, goal: nat -> bool, rank: nat -> Rank, helpful: nat -> A, t: nat)
  {
    || goal(t) || goal(t + 1)
    || Below(rank(t + 1), rank(t))
    || (rank(t + 1) == rank(t) && helpful(t + 1) == helpful(t) && actor(t) != helpful(t))
  }

  /** The process depended on at time `u` moves from then on, unless progress comes to depend on another. */
  ghost predicate Helped<A(!new)>(actor: nat -> A, goal: nat -> bool, helpful: nat -> A, u: nat)
  {
    exists v: nat :: u <= v && HelpedAt(actor, goal, helpful, u, v)
  }

  ghost predicate HelpedAt<A(!new)>(actor: nat -> A, goal: nat -> bool, helpful: nat -> A, u: nat, v: nat)
  {
    actor(v) == helpful(u) || goal(v) || helpful(v) != helpful(u)
  }

  /** If that holds at every time, the goal is reached. */
  lemma {:induction false} Eventually<A(!new)>(
    actor: nat -> A, goal: nat -> bool, rank: nat -> Rank, helpful: nat -> A, start: nat, t: nat)
    returns (end: nat)
    requires start <= t
    requires forall u :: start <= u ==> Progress(actor, goal, rank, helpful, u)
    requires forall u :: start <= u && !goal(u) ==> Helped(actor, goal, helpful, u)
    ensures t <= end && goal(end)
    decreases rank(t).first, rank(t).second, rank(t).third, rank(t).fourth, rank(t).fifth, 1, 0
  {
    if goal(t) {
      end := t;
    } else {
      var v: nat :| t <= v && HelpedAt(actor, goal, helpful, t, v);
      end := UntilHelp(actor, goal, rank, helpful, start, t, v);
    }
  }

  lemma {:induction false} UntilHelp<A(!new)>(
    actor: nat -> A, goal: nat -> bool, rank: nat -> Rank, helpful: nat -> A, start: nat, t: nat, v: nat)
    returns (end: nat)
    requires start <= t <= v && HelpedAt(actor, goal, helpful, t, v)
    requires forall u :: start <= u ==> Progress(actor, goal, rank, helpful, u)
    requires forall u :: start <= u && !goal(u) ==> Helped(actor, goal, helpful, u)
    ensures t <= end && goal(end)
    decreases rank(t).first, rank(t).second, rank(t).third, rank(t).fourth, rank(t).fifth, 0, v - t
  {
    assert Progress(actor, goal, rank, helpful, t);
    if goal(t) {
      end := t;
    } else if goal(t + 1) {
      end := t + 1;
    } else if Below(rank(t + 1), rank(t)) {
      end := Eventually(actor, goal, rank, helpful, start, t + 1);
    } else {
      end := UntilHelp(actor, goal, rank, helpful, start, t + 1, v);
    }
  }
}
