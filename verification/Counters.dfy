/** Unsigned 32-bit counters. */
module Counters {

  const UINT := 0x1_0000_0000

  lemma CountOn(x: nat)
    ensures (x % UINT + 1) % UINT == (x + 1) % UINT
  {
  }
}
