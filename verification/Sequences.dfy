/** Concatenations regrouped and cut, and occurrences counted. */
module Sequences {

  lemma Regroup<T>(a: seq<T>, b: seq<T>, c: seq<T>)
    ensures (a + b) + c == a + (b + c)
  {
  }

  lemma RegroupMiddle<T>(a: seq<T>, b: seq<T>, c: seq<T>, d: seq<T>)
    ensures (a + b) + (c + d) == a + ((b + c) + d)
  {
  }

  lemma PrefixOfConcat<T>(a: seq<T>, b: seq<T>, k: nat)
    requires k <= |b|
    ensures a + b[..k] <= a + b
  {
  }

  lemma FirstOfPrefix<T>(s: seq<T>, k: nat)
    requires 0 < k <= |s|
    ensures s[..k] == [s[0]] + s[1..][..k - 1]
  {
  }

  function Occurrences(vs: seq<int>, x: int): nat
  {
    multiset(vs)[x]
  }

  function Is(one: seq<int>, x: int): int { if one == [x] then 1 else 0 }

  lemma OccurrencesPlus(vs: seq<int>, one: seq<int>, x: int)
    requires |one| <= 1
    ensures Occurrences(vs + one, x) == Occurrences(vs, x) + Is(one, x)
  {
    if one == [] {
      assert vs + one == vs;
    }
  }
}
