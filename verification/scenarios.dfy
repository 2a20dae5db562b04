/** The usage scenarios of the repository's test program, and two mismatch
    scenarios on the same formats, stated as calls of `Parse` on 8-bit elements
    (`unsigned char` buffers) with one 32-bit output variable `acc1`
    (variable 0).
 */
module Scenarios {
  import opened Bits
  import opened BinData
  import opened Matchers
  import opened Stream
  import opened Reference
  import opened Sequence
  import opened Drive

  /** Bits of the output variable's type (`unsigned int`). */
  const AccBits: nat := 32

  /** `c_bin_data<11>() | nonconst_data<unsigned int>(acc1, 3) | zeros<3>()`. */
  function SimpleFormat(): Holder
  {
    Then(Then(Leaf(CBinData(11).matcher), Nonconst(0, AccBits, 3)), Zeros(3))
  }

  /** `zeros<7>() | c_bin_data<111>() | nonconst(acc1, 3) | c_bin_data<000>()`;
      `000` is an octal literal, so the last matcher is `c_bin_data<0>`. */
  function TwoElementFormat(): Holder
  {
    Then(Then(Then(Leaf(Zeros(7)), CBinData(111).matcher), Nonconst(0, AccBits, 3)), CBinData(0).matcher)
  }

  /** The octal literal `000` is the number 0: a constant of width 1, not 3. */
  lemma OctalZeroLiteral()
    ensures CBinData(0) == Built(Const(0, 1))
    ensures CBinData(0) != Built(Zeros(3))
  {
  }

  /** `test_binny_simple`: the buffer `{0xe8}` = 11101000 matches `11`, puts
      `101` into acc1 and matches `000`. */
  method TestBinnySimple() returns (acc1: nat, result: Check)
    ensures acc1 == 5 && result == Pass
  {
    SimpleShape();
    SimpleFits([0xe8]);
    SimpleRun();
    var vars;
    vars, result := Parse(SimpleFormat(), [0xe8], 8, [0]);
    acc1 := vars[0];
  }

  /** `test_binny_2el`: the buffer `{0x1, 0xe8}` = 00000001 11101000 matches
      seven zeros, then `111` across the element boundary, puts `101` into
      acc1 and matches a single `0`. */
  method TestBinny2El() returns (acc1: nat, result: Check)
    ensures acc1 == 5 && result == Pass
  {
    TwoElementShape();
    TwoElementFits();
    TwoElementRun();
    var vars;
    vars, result := Parse(TwoElementFormat(), [0x1, 0xe8], 8, [0]);
    acc1 := vars[0];
  }

  /** The simple format on `{0x98}` = 10011000: the second bit is 0 where `11`
      wants 1, so the parse fails at element 0, bit 1, expected 1, actual 0,
      before acc1 is touched. */
  method SimpleMismatch() returns (acc1: nat, result: Check)
    ensures result == Fail(MatchError(0, 1, 1, 0)) && acc1 == 0
  {
    SimpleShape();
    SimpleFits([0x98]);
    SimpleMismatchRun();
    var vars;
    vars, result := Parse(SimpleFormat(), [0x98], 8, [0]);
    acc1 := vars[0];
  }

  /** `nonconst(acc1, 3) | c_bin_data<11>()` on `{0xe8}`: acc1 receives `111`
      and then bit 3 is 0 where `11` wants 1; the parse fails but acc1 keeps
      7. */
  method ExtractionBeforeMismatch() returns (acc1: nat, result: Check)
    ensures result == Fail(MatchError(0, 3, 1, 0)) && acc1 == 7
  {
    ExtractFirstShape();
    ExtractFirstFits();
    ExtractionBeforeMismatchRun();
    var vars;
    vars, result := Parse(ExtractFirstFormat(), [0xe8], 8, [0]);
    acc1 := vars[0];
  }

  // ---------------------------------------------------------------------
  // The formats with their literals decoded, and the runs, matcher by
  // matcher
  // ---------------------------------------------------------------------

  /** `nonconst(acc1, 3) | c_bin_data<11>()`. */
  function ExtractFirstFormat(): Holder
  {
    Then(Leaf(Nonconst(0, AccBits, 3)), CBinData(11).matcher)
  }

  /** `c_bin_data<11>` is the 2-bit constant 3. */
  lemma Literal11()
    ensures CBinData(11) == Built(Const(3, 2))
  {
  }

  /** `c_bin_data<111>` is the 3-bit constant 7. */
  lemma Literal111()
    ensures CBinData(111) == Built(Const(7, 3))
  {
  }

  /** The simple format with `c_bin_data<11>` decoded: `3/2 | acc1[3] | 0/3`. */
  function SimpleTree(): Holder
  {
    Seq(Seq(Leaf(Const(3, 2)), Leaf(Extract(0, 3))), Leaf(Const(0, 3)))
  }

  /** The two-element format with its literals decoded: `0/7 | 7/3 | acc1[3] | 0/1`. */
  function TwoElementTree(): Holder
  {
    Seq(Seq(Seq(Leaf(Const(0, 7)), Leaf(Const(7, 3))), Leaf(Extract(0, 3))), Leaf(Const(0, 1)))
  }

  /** The extraction-first format with `c_bin_data<11>` decoded: `acc1[3] | 3/2`. */
  function ExtractFirstTree(): Holder
  {
    Seq(Leaf(Extract(0, 3)), Leaf(Const(3, 2)))
  }

  /** The simple format decodes to `SimpleTree`. */
  lemma SimpleShape()
    ensures SimpleFormat() == SimpleTree()
  {
    Literal11();
  }

  /** The two-element format decodes to `TwoElementTree`. */
  lemma TwoElementShape()
    ensures TwoElementFormat() == TwoElementTree()
  {
    Literal111();
    OctalZeroLiteral();
  }

  /** The extraction-first format decodes to `ExtractFirstTree`. */
  lemma ExtractFirstShape()
    ensures ExtractFirstFormat() == ExtractFirstTree()
  {
    Literal11();
  }

  /** A one-byte buffer satisfies the preconditions of `Parse` for the
      simple format. */
  lemma SimpleFits(buf: seq<nat>)
    requires |buf| == 1 && buf[0] < 256
    ensures ValidInput(buf, 8) && TotalBits(SimpleTree()) <= |buf| * 8 && SlotsFit(SimpleTree(), 1)
  {
    assert Pow2(8) == 256;
  }

  /** `{0x1, 0xe8}` satisfies the preconditions of `Parse` for the two-element format. */
  lemma TwoElementFits()
    ensures ValidInput([0x1, 0xe8], 8) && TotalBits(TwoElementTree()) <= 16 && SlotsFit(TwoElementTree(), 1)
  {
    assert Pow2(8) == 256;
  }

  /** `{0xe8}` satisfies the preconditions of `Parse` for the extraction-first format. */
  lemma ExtractFirstFits()
    ensures ValidInput([0xe8], 8) && TotalBits(ExtractFirstTree()) <= 8 && SlotsFit(ExtractFirstTree(), 1)
  {
    assert Pow2(8) == 256;
  }

  /** The simple format on `{0xe8}`: all three matchers succeed and acc1
      becomes 5. */
  lemma SimpleRun()
    ensures SlotsFit(SimpleTree(), 1)
    ensures HolderRef([0xe8], 8, SimpleTree(), Cursor(0, 0), [0]) == Matched(Cursor(1, 0), [5])
  {
    SimpleHead();
    SimpleTail();
  }

  /** `11` at bits 0-1, then `101` into acc1. */
  lemma SimpleHead()
    ensures LeafRef([0xe8], 8, Const(3, 2), Cursor(0, 0), [0]) == Matched(Cursor(0, 2), [0])
    ensures LeafRef([0xe8], 8, Extract(0, 3), Cursor(0, 2), [0]) == Matched(Cursor(0, 5), [5])
  {
    assert ConstRest([0xe8], 8, 3, 2, Cursor(0, 0)) == Agree(Cursor(0, 2));
    assert ExtractRest([0xe8], 8, 3, Cursor(0, 2), 0) == (Cursor(0, 5), 5);
  }

  /** `000` at bits 5-7, ending at the start of the next element. */
  lemma SimpleTail()
    ensures LeafRef([0xe8], 8, Const(0, 3), Cursor(0, 5), [5]) == Matched(Cursor(1, 0), [5])
  {
    assert ConstRest([0xe8], 8, 0, 3, Cursor(0, 5)) == Agree(Cursor(1, 0));
  }

  /** The simple format on `{0x98}`: `11` fails at its second bit. */
  lemma SimpleMismatchRun()
    ensures SlotsFit(SimpleTree(), 1)
    ensures HolderRef([0x98], 8, SimpleTree(), Cursor(0, 0), [0]) == Mismatch(MatchError(0, 1, 1, 0), [0])
  {
    assert LeafRef([0x98], 8, Const(3, 2), Cursor(0, 0), [0]) == Mismatch(MatchError(0, 1, 1, 0), [0]) by {
      assert ConstRest([0x98], 8, 3, 2, Cursor(0, 0)) == Differ(MatchError(0, 1, 1, 0));
    }
  }

  /** The two-element format on `{0x1, 0xe8}`: the whole sequence succeeds,
      six bits into the second element, with acc1 equal to 5. */
  lemma TwoElementRun()
    ensures SlotsFit(TwoElementTree(), 1)
    ensures HolderRef([0x1, 0xe8], 8, TwoElementTree(), Cursor(0, 0), [0]) == Matched(Cursor(1, 6), [5])
  {
    TwoElementPrefix();
    TwoElementTail();
  }

  /** The first three matchers of the two-element format. */
  lemma TwoElementPrefix()
    ensures HolderRef([0x1, 0xe8], 8, Seq(Seq(Leaf(Const(0, 7)), Leaf(Const(7, 3))), Leaf(Extract(0, 3))),
                      Cursor(0, 0), [0]) == Matched(Cursor(1, 5), [5])
  {
    TwoElementHead();
    TwoElementTail();
  }

  /** Seven zeros in element 0, then `111` from its last bit into element 1. */
  lemma TwoElementHead()
    ensures LeafRef([0x1, 0xe8], 8, Const(0, 7), Cursor(0, 0), [0]) == Matched(Cursor(0, 7), [0])
    ensures LeafRef([0x1, 0xe8], 8, Const(7, 3), Cursor(0, 7), [0]) == Matched(Cursor(1, 2), [0])
  {
    assert ConstRest([0x1, 0xe8], 8, 0, 7, Cursor(0, 0)) == Agree(Cursor(0, 7));
    assert ConstRest([0x1, 0xe8], 8, 7, 3, Cursor(0, 7)) == Agree(Cursor(1, 2));
  }

  /** `101` from bit 2 of element 1 into acc1, then a single `0`. */
  lemma TwoElementTail()
    ensures LeafRef([0x1, 0xe8], 8, Extract(0, 3), Cursor(1, 2), [0]) == Matched(Cursor(1, 5), [5])
    ensures LeafRef([0x1, 0xe8], 8, Const(0, 1), Cursor(1, 5), [5]) == Matched(Cursor(1, 6), [5])
  {
    assert ExtractRest([0x1, 0xe8], 8, 3, Cursor(1, 2), 0) == (Cursor(1, 5), 5);
    assert ConstRest([0x1, 0xe8], 8, 0, 1, Cursor(1, 5)) == Agree(Cursor(1, 6));
  }

  /** The extraction succeeds with acc1 equal to 7; the constant then fails
      at bit 3 and the outcome keeps acc1. */
  lemma ExtractionBeforeMismatchRun()
    ensures SlotsFit(ExtractFirstTree(), 1)
    ensures HolderRef([0xe8], 8, ExtractFirstTree(), Cursor(0, 0), [0]) == Mismatch(MatchError(0, 3, 1, 0), [7])
  {
    ExtractFirstSteps();
  }

  /** `111` into acc1 from bits 0-2, then `11` against bits 3-4. */
  lemma ExtractFirstSteps()
    ensures LeafRef([0xe8], 8, Extract(0, 3), Cursor(0, 0), [0]) == Matched(Cursor(0, 3), [7])
    ensures LeafRef([0xe8], 8, Const(3, 2), Cursor(0, 3), [7]) == Mismatch(MatchError(0, 3, 1, 0), [7])
  {
    assert ExtractRest([0xe8], 8, 3, Cursor(0, 0), 0) == (Cursor(0, 3), 7);
    assert ConstRest([0xe8], 8, 3, 2, Cursor(0, 3)) == Differ(MatchError(0, 3, 1, 0));
  }
}
