/**
 What the kernel does with one `read` or `write`: it may interrupt the call, and it may
 transfer less than was asked.
 */
module Transfers {

  /** EINTR, or a transfer of at most so many bytes. */
  datatype Decision = Interrupt | Transfer(limit: nat)

  /** A transfer is never empty when there is something to transfer, and never longer than possible. */
  function Granted(limit: nat, possible: nat): (k: nat)
    ensures k <= possible && (possible > 0 ==> k > 0)
    ensures limit > 0 ==> k <= limit
  {
    if possible == 0 then 0 else if limit == 0 then 1 else if limit > possible then possible else limit
  }

  /** The kernel may transfer any part of what is possible, but never nothing. */
  lemma EveryTransferOccurs(possible: nat, k: nat)
    requires possible > 0
    ensures (exists limit: nat :: Granted(limit, possible) == k) <==> 0 < k <= possible
  {
    if 0 < k <= possible {
      assert Granted(k, possible) == k;
    }
  }
}
