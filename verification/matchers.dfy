/** The matcher kinds: constant matchers (`const_data_base`, built from a
    binary-looking decimal literal by `c_bin_data`, or as `zeros`) and the
    extraction matcher (`nonconst_data`), with their `consume` operations.
 */
module Matchers {
  import opened Bits
  import opened BinData

  /** A matcher: compare the next `bits` stream bits with the low `bits` bits
      of `value`, or copy them into the caller's variable number `slot`. */
  datatype Matcher =
    | Const(value: nat, bits: nat)
    | Extract(slot: nat, bits: nat)

  /** Outcome of one `consume` call of a constant matcher. */
  datatype Consumed =
    | Took(n: nat, ctx: Context)
    | Failed(error: MatchError, ctx: Context)

  /** Outcome of building a constant matcher from a literal: the static
      assertion on the digits rejects the literal at construction. */
  datatype Construction = Built(matcher: Matcher) | BadDigit

  // ---------------------------------------------------------------------
  // Literal decoding (c_bin_data<BIN>)
  // ---------------------------------------------------------------------

  /** The decimal digits of lit, most significant first (0 has one digit). */
  function DecimalDigits(lit: nat): (ds: seq<nat>)
    ensures |ds| >= 1
    decreases lit
  {
    if lit < 10 then [lit] else DecimalDigits(lit / 10) + [lit % 10]
  }

  /** Every digit is 0 or 1. */
  ghost predicate BinaryDigits(ds: seq<nat>)
  {
    forall i :: 0 <= i < |ds| ==> ds[i] < 2
  }

  /** A digit sequence read in base 2, most significant digit first. */
  function FromBinaryDigits(ds: seq<nat>): nat
    decreases |ds|
  {
    if |ds| == 0 then 0 else 2 * FromBinaryDigits(ds[..|ds| - 1]) + ds[|ds| - 1]
  }

  /** `c_bin_data<BIN>::value`: the last decimal digit plus twice the value of
      the remaining digits, with `c_bin_data<0>` and `c_bin_data<1>` as the
      two base cases. */
  function LiteralValue(lit: nat): nat
    decreases lit
  {
    if lit == 0 then 0 else if lit == 1 then 1 else lit % 10 + 2 * LiteralValue(lit / 10)
  }

  /** `c_bin_data<BIN>::length`: one more than the remaining digits, 1 for the
      base cases. */
  function LiteralLength(lit: nat): nat
    decreases lit
  {
    if lit <= 1 then 1 else 1 + LiteralLength(lit / 10)
  }

  /** The static assertion `BIN % 10 < 2` of every generic instantiation on
      the way down to a base case. */
  predicate DigitsAccepted(lit: nat)
    decreases lit
  {
    lit <= 1 || (lit % 10 < 2 && DigitsAccepted(lit / 10))
  }

  /** The template recursion of `c_bin_data` reads the decimal digits of the
      literal as a binary number; it accepts exactly the literals whose
      digits are all 0 or 1. */
  lemma {:induction false} LiteralDecoding(lit: nat)
    ensures DigitsAccepted(lit) <==> BinaryDigits(DecimalDigits(lit))
    ensures DigitsAccepted(lit) ==> LiteralValue(lit) == FromBinaryDigits(DecimalDigits(lit))
    ensures DigitsAccepted(lit) ==> LiteralLength(lit) == |DecimalDigits(lit)|
    decreases lit
  {
    if lit >= 10 {
      var ds := DecimalDigits(lit / 10);
      LiteralDecoding(lit / 10);
      assert DecimalDigits(lit) == ds + [lit % 10];
      assert (ds + [lit % 10])[..|ds|] == ds;
      if BinaryDigits(ds + [lit % 10]) {
        assert BinaryDigits(ds) by {
          forall i | 0 <= i < |ds| ensures ds[i] < 2 {
            assert ds[i] == (ds + [lit % 10])[i];
          }
        }
        assert (ds + [lit % 10])[|ds|] < 2;
      }
    } else if lit >= 2 {
      assert DecimalDigits(lit)[0] == lit;
    } else {
      assert DecimalDigits(lit)[..0] == [];
    }
  }

  /** Reading binary digits gives a number below 2^(digit count) whose bits,
      from the most significant down, are those digits. */
  lemma {:induction false} BinaryDigitBits(ds: seq<nat>)
    requires BinaryDigits(ds)
    ensures FromBinaryDigits(ds) < Pow2(|ds|)
    ensures forall i :: 0 <= i < |ds| ==> Bit(FromBinaryDigits(ds), |ds| - 1 - i) == ds[i]
    decreases |ds|
  {
    if |ds| > 0 {
      var init := ds[..|ds| - 1];
      var d := ds[|ds| - 1];
      var v := FromBinaryDigits(init);
      assert BinaryDigits(init) by {
        forall i | 0 <= i < |init| ensures init[i] < 2 {
          assert init[i] == ds[i];
        }
      }
      BinaryDigitBits(init);
      assert FromBinaryDigits(ds) == 2 * v + d;
      assert (2 * v + d) / 2 == v;
      forall i | 0 <= i < |ds|
        ensures Bit(FromBinaryDigits(ds), |ds| - 1 - i) == ds[i]
      {
        if i < |ds| - 1 {
          assert Bit(2 * v + d, |ds| - 1 - i) == Bit(v, |init| - 1 - i);
          assert init[i] == ds[i];
        }
      }
    }
  }

  /** `c_bin_data<lit>`: a constant matcher whose width is the number of
      decimal digits of lit and whose value has those digits as its bits,
      most significant first; a digit of 2 or more is rejected. */
  function CBinData(lit: nat): (r: Construction)
    ensures r.Built? <==> BinaryDigits(DecimalDigits(lit))
    ensures r.Built? ==> r.matcher.Const? && r.matcher.bits == |DecimalDigits(lit)|
    ensures r.Built? ==> r.matcher.value < Pow2(r.matcher.bits)
    ensures r.Built? ==> forall i :: 0 <= i < |DecimalDigits(lit)| ==>
              Bit(r.matcher.value, r.matcher.bits - 1 - i) == DecimalDigits(lit)[i]
  {
    LiteralDecoding(lit);
    if DigitsAccepted(lit) then
      BinaryDigitBits(DecimalDigits(lit));
      Built(Const(LiteralValue(lit), LiteralLength(lit)))
    else
      BadDigit
  }

  /** `zeros<num>`: the constant 0 over num bits. */
  function Zeros(num: nat): Matcher
  {
    Const(0, num)
  }

  /** `nonconst(v, bits)`: an extraction into variable `slot` whose width
      defaults to the bit size `typeBits` of the variable's type. */
  function Nonconst(slot: nat, typeBits: nat, bits: nat := typeBits): Matcher
  {
    Extract(slot, bits)
  }

  // ---------------------------------------------------------------------
  // consume
  // ---------------------------------------------------------------------

  /** `const_data_base::consume`: compare the window that fits in the current
      element against the value bits still to be matched; on success
      advance the context by the window size, on failure leave it. */
  method ConstConsume(value: nat, bits: nat, el: nat, elNum: nat, bitFrom: nat, w: nat, ctx: Context)
    returns (r: Consumed)
    requires bitFrom <= w && ctx.consumed <= bits
    ensures var n := CalculateToConsume(w, bitFrom, bits, ctx);
            r.Took? <==> WindowEqual(el, w, bitFrom, value, bits - ctx.consumed - 1, n)
    ensures r.Took? ==> r.n == CalculateToConsume(w, bitFrom, bits, ctx)
    ensures r.Took? ==> r.ctx.consumed == ctx.consumed + r.n <= bits
    ensures r.Failed? ==> r.ctx == ctx
    ensures r.Failed? ==> IsFirstMismatch(el, elNum, w, bitFrom, value, bits - ctx.consumed - 1,
                                          CalculateToConsume(w, bitFrom, bits, ctx), r.error)
  {
    var toConsume := CalculateToConsume(w, bitFrom, bits, ctx);
    var valBitFrom: int := bits - ctx.consumed - 1;
    var check := ValidateOne(el, elNum, bitFrom, w, value, valBitFrom, toConsume);
    if check.Fail? {
      return Failed(check.error, ctx);
    }
    return Took(toConsume, Context(ctx.consumed + toConsume));
  }

  /** `nonconst_data::consume`: copy the window that fits in the current
      element into the variable bits still to be filled; never fails. */
  method NonconstConsume(bits: nat, el: nat, bitFrom: nat, w: nat, ctx: Context, out: nat)
    returns (n: nat, ctx': Context, out': nat)
    requires bitFrom <= w && ctx.consumed <= bits
    ensures n == CalculateToConsume(w, bitFrom, bits, ctx)
    ensures ctx'.consumed == ctx.consumed + n <= bits
    ensures WindowEqual(el, w, bitFrom, out', bits - ctx.consumed - 1, n)
    ensures forall j: nat :: j > bits - ctx.consumed - 1 || j <= bits - ctx.consumed - 1 - n ==>
              Bit(out', j) == Bit(out, j)
  {
    n := CalculateToConsume(w, bitFrom, bits, ctx);
    var valBitFrom: int := bits - ctx.consumed - 1;
    out' := FillOne(el, bitFrom, w, out, valBitFrom, n);
    ctx' := Context(ctx.consumed + n);
  }
}
