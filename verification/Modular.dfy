/** The little modular arithmetic that circular indices need. */
module Modular {

  lemma Distribute(n: int, a: int, b: int)
    ensures n * (a - b) == n * a - n * b
  {
  }

  lemma AtLeastOnce(n: nat, d: int)
    requires d >= 1
    ensures n * d >= n
  {
    Distribute(n, d, 1);
    assert n * (d - 1) >= 0;
  }

  /** A quotient and a small remainder determine each other. */
  lemma Remainder(x: nat, n: nat, q: nat, r: nat)
    requires r < n && x == n * q + r
    ensures x / n == q && x % n == r
  {
    var q', r' := x / n, x % n;
    Distribute(n, q, q');
    if q > q' {
      AtLeastOnce(n, q - q');
    } else if q < q' {
      Distribute(n, q', q);
      AtLeastOnce(n, q' - q);
    }
  }

  /** Positions less than a full lap apart fall on different slots. */
  lemma DistinctSlots(a: nat, b: nat, n: nat)
    requires a < b < a + n
    ensures a % n != b % n
  {
    if a % n == b % n {
      var qa, qb := a / n, b / n;
      Distribute(n, qb, qa);
      if qb > qa {
        AtLeastOnce(n, qb - qa);
      } else if qb < qa {
        Distribute(n, qa, qb);
        AtLeastOnce(n, qa - qb);
      }
    }
  }

  /** The slot `k` places after the one of position `a`. */
  lemma SlotAfter(a: nat, k: nat, n: nat)
    requires n >= 1
    ensures (a % n + k) % n == (a + k) % n
  {
    var q, x := a / n, a % n + k;
    var t := x / n;
    assert n * (q + t) == n * q + n * t by { Distribute(n, q + t, t); }
    Remainder(a + k, n, q + t, x % n);
  }

  /** Advancing an index and wrapping it is advancing the position it stands for. */
  lemma NextSlot(a: nat, n: nat)
    requires n >= 1
    ensures (a % n + 1) % n == (a + 1) % n
  {
    SlotAfter(a, 1, n);
  }
}
