/** The shared base of every matcher (`bin_data_base`): its context, the
    window arithmetic, and the compare and fill primitives that work on one
    input element. Also the structured mismatch error (`bin_match_error`).
 */
module BinData {
  import opened Bits

  /** A mismatch: element index, bit index within the element (from the
      left), the bit the pattern expected and the bit the input held. */
  datatype MatchError = MatchError(elNum: nat, bitNum: nat, expected: nat, actual: nat)

  /** The result of a compare: every bit agreed, or the first mismatch. */
  datatype Check = Pass | Fail(error: MatchError)

  /** Per-matcher resumable progress: bits consumed so far. */
  datatype Context = Context(consumed: nat)

  /** A fresh context has consumed nothing. */
  function NewContext(): (ctx: Context)
    ensures ctx.consumed == 0
  {
    Context(0)
  }

  /** How many bits one `consume` call takes from a w-bit element starting at
      offset bitFrom, for a matcher of width bits that has already consumed
      ctx.consumed. */
  function CalculateToConsume(w: nat, bitFrom: nat, bits: nat, ctx: Context): (n: nat)
    requires bitFrom <= w && ctx.consumed <= bits
    ensures n <= w - bitFrom && n <= bits - ctx.consumed
    ensures n == w - bitFrom || n == bits - ctx.consumed
    ensures bitFrom < w && ctx.consumed < bits ==> n >= 1
  {
    if w - bitFrom <= bits - ctx.consumed then w - bitFrom else bits - ctx.consumed
  }

  /** Element bits bitFrom .. bitFrom + n - 1 (from the left) equal value bits
      valBitFrom down to valBitFrom - n + 1 (from the right), pairwise. */
  ghost predicate WindowEqual(el: nat, w: nat, bitFrom: nat, val: nat, valBitFrom: int, n: nat)
    requires bitFrom + n <= w && n <= valBitFrom + 1
  {
    forall b :: bitFrom <= b < bitFrom + n ==> ElBit(el, w, b) == Bit(val, valBitFrom - (b - bitFrom))
  }

  /** Dropping the first pair of a window leaves a window one bit further on
      in the element and one bit further down in the value. */
  lemma WindowTail(el: nat, w: nat, bitFrom: nat, val: nat, valBitFrom: int, n: nat)
    requires bitFrom + n <= w && n <= valBitFrom + 1 && n >= 1
    requires WindowEqual(el, w, bitFrom, val, valBitFrom, n)
    ensures ElBit(el, w, bitFrom) == Bit(val, valBitFrom)
    ensures WindowEqual(el, w, bitFrom + 1, val, valBitFrom - 1, n - 1)
  {
    assert ElBit(el, w, bitFrom) == Bit(val, valBitFrom - (bitFrom - bitFrom));
    forall b | bitFrom + 1 <= b < bitFrom + 1 + (n - 1)
      ensures ElBit(el, w, b) == Bit(val, valBitFrom - 1 - (b - (bitFrom + 1)))
    {
      assert ElBit(el, w, b) == Bit(val, valBitFrom - (b - bitFrom));
    }
  }

  /** e reports the first pair of the window that differs. */
  ghost predicate IsFirstMismatch(el: nat, elNum: nat, w: nat, bitFrom: nat, val: nat, valBitFrom: int, n: nat,
                                  e: MatchError)
    requires bitFrom + n <= w && n <= valBitFrom + 1
  {
    && e.elNum == elNum
    && bitFrom <= e.bitNum < bitFrom + n
    && e.expected == Bit(val, valBitFrom - (e.bitNum - bitFrom))
    && e.actual == ElBit(el, w, e.bitNum)
    && e.expected != e.actual
    && WindowEqual(el, w, bitFrom, val, valBitFrom, e.bitNum - bitFrom)
  }

  /** Compare n bits of el, from offset bitFrom of the left, against the bits
      of val from index valBitFrom of the right downwards; stop at the first
      difference. The masks `1 << (W - bit_from - 1)` and `1 << val_bit_from`
      of `validate_one`, shifted right once per bit, are tracked as the bit
      indices they select. */
  method ValidateOne(el: nat, elNum: nat, bitFrom: nat, w: nat, val: nat, valBitFrom: int, n: nat)
    returns (r: Check)
    requires bitFrom + n <= w && n <= valBitFrom + 1
    ensures r.Pass? <==> WindowEqual(el, w, bitFrom, val, valBitFrom, n)
    ensures r.Fail? ==> IsFirstMismatch(el, elNum, w, bitFrom, val, valBitFrom, n, r.error)
  {
    var elIdx: int := w - bitFrom - 1;
    var valIdx: int := valBitFrom;
    var i: nat := 0;
    while i < n
      invariant i <= n
      invariant elIdx == w - bitFrom - 1 - i && valIdx == valBitFrom - i
      invariant WindowEqual(el, w, bitFrom, val, valBitFrom, i)
    {
      var testEl := Bit(el, elIdx);
      var testVal := Bit(val, valIdx);
      if testEl != testVal {
        assert ElBit(el, w, bitFrom + i) == testEl;
        return Fail(MatchError(elNum, bitFrom + i, testVal, testEl));
      }
      i, elIdx, valIdx := i + 1, elIdx - 1, valIdx - 1;
    }
    return Pass;
  }

  /** Copy n bits of el, from offset bitFrom of the left, into val from index
      valBitFrom of the right downwards, keeping every other bit of val. */
  method FillOne(el: nat, bitFrom: nat, w: nat, val: nat, valBitFrom: int, n: nat) returns (r: nat)
    requires bitFrom + n <= w && n <= valBitFrom + 1
    ensures WindowEqual(el, w, bitFrom, r, valBitFrom, n)
    ensures forall j: nat :: j > valBitFrom || j <= valBitFrom - n ==> Bit(r, j) == Bit(val, j)
  {
    var elIdx: int := w - bitFrom - 1;
    var valIdx: int := valBitFrom;
    var i: nat := 0;
    r := val;
    while i < n
      invariant i <= n
      invariant elIdx == w - bitFrom - 1 - i && valIdx == valBitFrom - i
      invariant WindowEqual(el, w, bitFrom, r, valBitFrom, i)
      invariant forall j: nat :: j > valBitFrom || j <= valBitFrom - i ==> Bit(r, j) == Bit(val, j)
    {
      if Bit(el, elIdx) == 1 {
        r := SetBit(r, valIdx, 1);
      } else {
        r := SetBit(r, valIdx, 0);
      }
      i, elIdx, valIdx := i + 1, elIdx - 1, valIdx - 1;
    }
  }
}
