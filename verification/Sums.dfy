/** Sums over sequences of threads, with which semaphore equations are stated, and searches in them. */
module Sums {

  function Sum(s: seq<int>): int
  {
    if s == [] then 0 else s[0] + Sum(s[1..])
  }

  lemma {:induction false} SumAppend(a: seq<int>, b: seq<int>)
    ensures Sum(a + b) == Sum(a) + Sum(b)
  {
    if a == [] {
      assert a + b == b;
    } else {
      assert (a + b)[1..] == a[1..] + b;
      SumAppend(a[1..], b);
    }
  }

  lemma SumSnoc(a: seq<int>, x: int)
    ensures Sum(a + [x]) == Sum(a) + x
  {
    SumAppend(a, [x]);
  }

  lemma {:induction false} SumUpdate(s: seq<int>, i: nat, x: int)
    requires i < |s|
    ensures Sum(s[i := x]) == Sum(s) - s[i] + x
  {
    if i == 0 {
      assert s[0 := x][1..] == s[1..];
    } else {
      assert s[i := x][1..] == s[1..][i - 1 := x];
      SumUpdate(s[1..], i - 1, x);
    }
  }

  lemma {:induction false} SumConstant(s: seq<int>, x: int)
    requires forall i :: 0 <= i < |s| ==> s[i] == x
    ensures Sum(s) == x * |s|
  {
    if s != [] {
      SumConstant(s[1..], x);
    }
  }

  /** Sums of values of magnitude at most `bound`. */
  lemma {:induction false} SumMagnitude(s: seq<int>, bound: nat)
    requires forall i :: 0 <= i < |s| ==> 0 - bound <= s[i] <= bound
    ensures 0 - bound * |s| <= Sum(s) <= bound * |s|
  {
    if s != [] {
      SumMagnitude(s[1..], bound);
    }
  }

  /** The weight of every element of `ts`, in order. */
  function Weights<T>(w: T -> int, ts: seq<T>): (r: seq<int>)
    ensures |r| == |ts|
    ensures forall i :: 0 <= i < |ts| ==> r[i] == w(ts[i])
  {
    seq(|ts|, i requires 0 <= i < |ts| => w(ts[i]))
  }

  /** The total weight of `ts`. */
  function Total<T>(w: T -> int, ts: seq<T>): int
  {
    Sum(Weights(w, ts))
  }

  lemma TotalUpdate<T>(w: T -> int, ts: seq<T>, i: nat, t: T)
    requires i < |ts|
    ensures Total(w, ts[i := t]) == Total(w, ts) - w(ts[i]) + w(t)
  {
    assert Weights(w, ts[i := t]) == Weights(w, ts)[i := w(t)];
    SumUpdate(Weights(w, ts), i, w(t));
  }

  /** Two sequences that differ at one position only. */
  lemma SumPoint(a: seq<int>, b: seq<int>, i: nat)
    requires |a| == |b| && i < |a|
    requires forall j :: 0 <= j < |a| && j != i ==> a[j] == b[j]
    ensures Sum(b) == Sum(a) - a[i] + b[i]
  {
    assert b == a[i := b[i]];
    SumUpdate(a, i, b[i]);
  }

  lemma {:induction false} SumLeq(a: seq<int>, b: seq<int>)
    requires |a| == |b|
    requires forall j :: 0 <= j < |a| ==> a[j] <= b[j]
    ensures Sum(a) <= Sum(b)
  {
    if a != [] {
      SumLeq(a[1..], b[1..]);
    }
  }

  /** Sums are monotone, and strictly so where one term is strictly smaller. */
  lemma SumStrict(a: seq<int>, b: seq<int>, i: nat)
    requires |a| == |b| && i < |a|
    requires forall j :: 0 <= j < |a| ==> a[j] <= b[j]
    requires a[i] < b[i]
    ensures Sum(a) < Sum(b)
  {
    SumLeq(a[i := b[i]], b);
    SumUpdate(a, i, b[i]);
  }

  lemma SumTerm(s: seq<int>, i: nat)
    requires i < |s| && forall k :: 0 <= k < |s| ==> s[k] >= 0
    ensures Sum(s) >= s[i]
  {
    SumUpdate(s, i, 0);
    SumZeroBound(s[i := 0]);
  }

  lemma {:induction false} SumZeroBound(s: seq<int>)
    requires forall i :: 0 <= i < |s| ==> s[i] >= 0
    ensures Sum(s) >= 0
  {
    if s != [] {
      SumZeroBound(s[1..]);
    }
  }

  /** The sum of natural numbers, as a natural number. */
  function Count(ws: seq<nat>): (n: nat)
    ensures n == Sum(ws)
  {
    SumZeroBound(ws);
    Sum(ws)
  }

  lemma {:induction false} SumWitness(s: seq<int>) returns (i: nat)
    requires Sum(s) > 0
    ensures i < |s| && s[i] > 0
  {
    if s[0] > 0 {
      i := 0;
    } else {
      i := SumWitness(s[1..]);
      i := i + 1;
    }
  }

  lemma TotalNonNegative<T>(w: T -> int, ts: seq<T>)
    requires forall k :: 0 <= k < |ts| ==> w(ts[k]) >= 0
    ensures Total(w, ts) >= 0
  {
    SumZeroBound(Weights(w, ts));
  }

  lemma TotalTerm<T>(w: T -> int, ts: seq<T>, i: nat)
    requires forall k :: 0 <= k < |ts| ==> w(ts[k]) >= 0
    requires i < |ts|
    ensures Total(w, ts) >= w(ts[i])
  {
    SumTerm(Weights(w, ts), i);
  }

  lemma TotalPair<T>(w: T -> int, ts: seq<T>, i: nat, j: nat)
    requires forall k :: 0 <= k < |ts| ==> w(ts[k]) >= 0
    requires i < |ts| && j < |ts| && i != j
    ensures Total(w, ts) >= w(ts[i]) + w(ts[j])
  {
    var s := Weights(w, ts);
    SumUpdate(s, i, 0);
    SumTerm(s[i := 0], j);
  }

  lemma TotalWitness<T>(w: T -> int, ts: seq<T>) returns (i: nat)
    requires Total(w, ts) > 0
    ensures i < |ts| && w(ts[i]) > 0
  {
    i := SumWitness(Weights(w, ts));
  }

  lemma TotalConstant<T>(w: T -> int, ts: seq<T>, x: int)
    requires forall i :: 0 <= i < |ts| ==> w(ts[i]) == x
    ensures Total(w, ts) == x * |ts|
  {
    SumConstant(Weights(w, ts), x);
  }

  /** The first index at which `bs` holds, or its length. */
  function First(bs: seq<bool>): (i: nat)
    ensures i <= |bs| && (i < |bs| ==> bs[i])
    ensures i == |bs| ==> forall j :: 0 <= j < |bs| ==> !bs[j]
  {
    if bs == [] || bs[0] then 0 else 1 + First(bs[1..])
  }

  /** The order of the terms does not matter. */
  lemma {:induction false} SameSum(a: seq<int>, b: seq<int>)
    requires multiset(a) == multiset(b)
    ensures Sum(a) == Sum(b)
    decreases |a|
  {
    assert |a| == |multiset(a)| == |multiset(b)| == |b|;
    if a != [] {
      assert a[0] in multiset(b);
      var i :| 0 <= i < |b| && b[i] == a[0];
      assert a == [a[0]] + a[1..];
      assert b == b[..i] + ([b[i]] + b[i + 1..]);
      SumAppend(b[..i], [b[i]] + b[i + 1..]);
      SumAppend(b[..i], b[i + 1..]);
      assert ([b[i]] + b[i + 1..])[1..] == b[i + 1..];
      assert multiset(a[1..]) == multiset(a) - multiset{a[0]};
      assert multiset(b) == multiset(b[..i]) + (multiset{b[i]} + multiset(b[i + 1..]));
      assert multiset(b[..i] + b[i + 1..]) == multiset(b) - multiset{b[i]};
      SameSum(a[1..], b[..i] + b[i + 1..]);
    }
  }
}
