/** Positions on a ring of n slots, as used by the probing loops and the pool scan. */
module Cyclic {

  /** One step forward with wrap-around: `(i + 1) & mask`. */
  function Next(i: nat, n: nat): (r: nat)
    requires i < n
    ensures r < n
  {
    if i + 1 == n then 0 else i + 1
  }

  /** Forward distance from a to b. */
  function Dist(a: nat, b: nat, n: nat): (d: nat)
    requires a < n && b < n
    ensures d < n
  {
    if a <= b then b - a else b - a + n
  }

  /** j lies cyclically in [from, to). */
  predicate InArc(from: nat, to: nat, j: nat, n: nat)
    requires from < n && to < n && j < n
  {
    Dist(from, j, n) < Dist(from, to, n)
  }

  /** The masked subtraction `(b - a) & mask` is the forward distance. */
  lemma MaskedDifference(a: nat, b: nat, n: nat)
    requires a < n && b < n
    ensures (b - a) % n == Dist(a, b, n)
    ensures (b - a - 1) % n == if a == b then n - 1 else Dist(a, b, n) - 1
  {
    ModOfShift(b - a, n);
    ModOfShift(b - a - 1, n);
  }

  lemma ModOfShift(x: int, n: nat)
    requires 0 < n && -(n as int) <= x < n
    ensures x % n == if x < 0 then x + n else x
  {
  }
}
