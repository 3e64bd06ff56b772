/** Places on a ring of `n` slots, as the FIFO of cdrecord and the ring buffer of cdda2wav count them. */
module Cyclic {
  /** The index after `i`, wrapping around. */
  function Inc(i: nat, n: nat): nat { if i + 1 >= n then 0 else i + 1 }

  /** The slot `j` places after `r`. */
  function Idx(r: nat, j: nat, n: nat): nat
    requires r < n && j <= n
  {
    if r + j < n then r + j else r + j - n
  }
}
