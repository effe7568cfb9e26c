/** Places on a circle, as buffers and tables that come round at their end use them. */
module Circles {

  /** The place `i` steps after `start` on a circle of `n`. */
  function Slot(start: nat, i: nat, n: nat): nat {
    if start + i < n then start + i else start + i - n
  }

  lemma NextSlot(i: nat, n: nat)
    requires i < n
    ensures (i + 1) % n == if i + 1 == n then 0 else i + 1
  { }
}
