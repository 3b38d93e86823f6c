/** Division and remainder facts shared by the index computations. */
module Arith {
  /** A quotient and remainder in range are the quotient and remainder. */
  lemma DivModUnique(x: int, n: int, q: int, r: int)
    requires 0 <= r < n && x == q * n + r
    ensures x / n == q && x % n == r
  {
    MulSign(q - x / n, n);
  }

  lemma MulSign(d: int, n: int)
    requires 0 < n
    ensures d >= 1 ==> d * n >= n
    ensures d <= -1 ==> d * n <= -n
  {
  }

  lemma MulMono(a: nat, b: nat, c: nat)
    requires a <= b
    ensures a * c <= b * c
  {
  }

  /** `x & MASK` for an index at most one lap beyond a table of `n`. */
  function Wrap(x: nat, n: nat): (r: nat)
    requires x < 2 * n
    ensures r < n
  {
    if x < n then x else x - n
  }

  lemma WrapIsMask(x: nat, n: nat)
    requires x < 2 * n
    ensures Wrap(x, n) == x % n
  {
    DivModUnique(x, n, if x < n then 0 else 1, Wrap(x, n));
  }

  /** Start of region `g` when regions of `size` entries are laid end to end. */
  function Base(g: nat, size: nat): nat {
    if g == 0 then 0 else Base(g - 1, size) + size
  }

  lemma {:induction false} BaseIsProduct(g: nat, size: nat)
    ensures Base(g, size) == g * size
  {
    if g > 0 {
      BaseIsProduct(g - 1, size);
      assert g * size == (g - 1) * size + size;
    }
  }

  /** Two different regions do not meet. */
  lemma {:induction false} RegionsDisjoint(g: nat, h: nat, size: nat)
    requires g < h
    ensures Base(g, size) + size <= Base(h, size)
  {
    if g < h - 1 {
      RegionsDisjoint(g, h - 1, size);
    }
  }
}
