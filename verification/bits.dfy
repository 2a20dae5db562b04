/** Bits of unbounded naturals.

    Stored and output values are indexed from the least significant end
    (`Bit`), input elements from the most significant end (`ElBit`).
    The masks of the matching primitives (`1 << k`, `>> 1`) become bit
    indices here, so no machine width is involved.
 */
module Bits {

  /** 2 to the power n. */
  function Pow2(n: nat): (r: nat)
    ensures r >= 1
  {
    if n == 0 then 1 else 2 * Pow2(n - 1)
  }

  /** Bit j of v, counted from the right (bit 0 is the least significant). */
  function Bit(v: nat, j: nat): (b: nat)
    ensures b < 2
    decreases j
  {
    if j == 0 then v % 2 else Bit(v / 2, j - 1)
  }

  /** Bit k of a w-bit element, counted from the left (bit 0 is the most significant). */
  function ElBit(el: nat, w: nat, k: nat): (b: nat)
    requires k < w
    ensures b < 2
  {
    Bit(el, w - 1 - k)
  }

  /** v with bit j set to b and every other bit kept: `v |= mask` when b is 1,
      `v &= ~mask` when b is 0, for a mask holding the single bit j. */
  function SetBit(v: nat, j: nat, b: nat): (r: nat)
    requires b < 2
    ensures Bit(r, j) == b
    ensures forall i: nat :: i != j ==> Bit(r, i) == Bit(v, i)
    decreases j
  {
    if j == 0 then v / 2 * 2 + b else SetBit(v / 2, j - 1, b) * 2 + v % 2
  }

  /** A natural number is determined by its bits. */
  lemma {:induction false} BitsDetermine(a: nat, c: nat)
    requires forall i: nat :: Bit(a, i) == Bit(c, i)
    ensures a == c
    decreases a + c
  {
    if a != c {
      assert Bit(a, 0) == Bit(c, 0);
      forall i: nat
        ensures Bit(a / 2, i) == Bit(c / 2, i)
      {
        assert Bit(a, i + 1) == Bit(c, i + 1);
      }
      BitsDetermine(a / 2, c / 2);
    }
  }

  /** Every bit of zero is zero. */
  lemma {:induction false} ZeroBits(j: nat)
    ensures Bit(0, j) == 0
  {
    if j > 0 {
      ZeroBits(j - 1);
    }
  }

  /** A value below 2^n has no set bit at or above n. */
  lemma {:induction false} HighBitsClear(v: nat, n: nat, j: nat)
    requires v < Pow2(n)
    requires j >= n
    ensures Bit(v, j) == 0
    decreases j
  {
    if n == 0 {
      assert v == 0;
      ZeroBits(j);
    } else {
      HighBitsClear(v / 2, n - 1, j - 1);
    }
  }
}
