/** Reads and writes in pieces: the size of the copy buffers, and a piece of any size that fits. */
module Pieces {
  const BUFFER: nat := 8192

  function Least(a: nat, b: nat): nat {
    if a <= b then a else b
  }

  /** A number of bytes between one and `most`, as near to `n` as it gets. */
  function Piece(n: nat, most: nat): (k: nat)
    requires 0 < most
    ensures 1 <= k <= most
    ensures 1 <= n <= most ==> k == n
  {
    if n == 0 then 1 else Least(n, most)
  }
}
