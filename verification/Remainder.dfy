/** Positions in ring buffers. */
module Remainder {

  /** x % m. */
  function Rem(x: nat, m: nat): (r: nat)
    requires m > 0
    ensures r < m
  {
    if x < m then x else Rem(x - m, m)
  }

  lemma {:induction false} RemAdd(x: nat, y: nat, m: nat)
    requires m > 0 && Rem(y, m) == 0
    ensures Rem(x + y, m) == Rem(x, m)
    decreases y
  {
    if y > 0 { RemAdd(x, y - m, m); }
  }

  /** Counting on from a position is counting on from the number. */
  lemma {:induction false} RemPlus(x: nat, y: nat, m: nat)
    requires m > 0
    ensures Rem(Rem(x, m) + y, m) == Rem(x + y, m)
  {
    if x >= m { RemPlus(x - m, y, m); }
  }

  /** Positions less than a buffer apart do not meet. */
  lemma {:induction false} Apart(i: nat, j: nat, size: nat)
    requires size > 0 && i < j < i + size
    ensures Rem(i, size) != Rem(j, size)
  {
    if i >= size { Apart(i - size, j - size, size); }
  }
}
