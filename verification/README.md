# binny in Dafny

A model of `binny`, a header-only C++ library that matches a bit-level
layout against a buffer of fixed-width elements (`src/binny.hpp`). The
layout is written with `|`. For example, `c_bin_data<11>() |
nonconst(acc1, 3) | zeros<3>()` checks two 1-bits, copies the next three
bits into `acc1`, and checks three 0-bits. The input is read most
significant bit first and may cross element boundaries. The first
differing bit raises `bin_match_error` with its element index, its bit
index, the expected bit and the actual bit.

The model is organised by module:

- `Bits` has single bits of unbounded naturals. `Bit(v, j)` counts from the
  least significant end. `ElBit(el, w, k)` counts from the most significant
  end of a `w`-bit element. `SetBit` is the `|=` / `&= ~` of `fill_one`.
- `Stream` holds the input: a `seq<nat>` of `w`-bit elements, the cursor
  `(el_num, bit_from)`, its absolute position `el * w + bit`, the cursor
  step of the drive loop, and `BitAt`, the bit at an absolute position.
- `BinData` covers `bin_data_base`:
  - the context (`consumed`);
  - `calculate_to_consume`;
  - the two mask loops `validate_one` (compare) and `fill_one` (copy).
    Both are methods, with the window they touch stated bit by bit.
- `Matchers` has the matcher kinds:
  - a constant (`const_data_base`, built by `c_bin_data<BIN>` or `zeros<N>`);
  - an extraction (`nonconst_data` / `nonconst`).

  It also has their `consume` operations and the decoding of
  `c_bin_data` literals. The caller's variables are a `seq<nat>`. An
  extraction names the index of its variable, which replaces the C++
  reference.
- `Reference` is a bit-serial reference semantics, independent of windows
  and contexts. It compares or copies one bit at a time from a cursor. Its
  lemmas say what matching means in absolute stream positions.
- `Sequence` has the composition tree `bin_holder_sequence`, the `|`
  operators that build it left-nested, and the reference semantics of a
  tree.
- `Drive` has the drive loop `match`, its sequence overload, and `parse`.
  Each is proved equal to the reference semantics.
- `Scenarios` has the two usage scenarios of `src/test.cpp` and two mismatch
  scenarios on the same formats, each stated as a call of `Parse`.

Errors are values, not exceptions:

- A `consume` that fails returns `Failed(error, ctx)`.
- `Parse` returns `Check = Pass | Fail(MatchError)`.
- A mismatch outcome carries the variables. Extractions that completed
  before the throw have already written through their references, so they
  persist.

Three details of `src/binny.hpp` and `src/test.cpp` that the model keeps as
written:

- `bin_holder_sequence` has no `bits()`. A sequence is matched leaf by leaf,
  and `TotalBits` is only the model's own measure for preconditions.
- `parse` takes the input iterator by value, so the caller's position is not
  advanced. `Parse` returns only the variables and the verdict.
- The octal literal `000` in `src/test.cpp` is the number 0. It builds the
  1-bit constant 0, not a 3-bit one.

## Model

| member | source | states |
|---|---|---|
| Bits.SetBit | src/binny.hpp:122-125 | setting or clearing one bit changes that bit to the given value and no other bit |
| Stream.StepPos | src/binny.hpp:366-372 | after consuming n bits of an element the absolute position grows by exactly n, the bit offset stays inside the element, and the element index advances exactly when the element is used up |
| BinData.CalculateToConsume | src/binny.hpp:77-80 | the window is the smaller of the bits left in the element and the bits left to the matcher, and at least one bit while both remain |
| BinData.ValidateOne | src/binny.hpp:82-107 | passes exactly when the n element bits from bit_from (counted from the left) equal the value bits from val_bit_from downwards; otherwise reports the first differing bit with its element number, its bit index bit_from + i, the expected value bit and the actual element bit |
| BinData.FillOne | src/binny.hpp:109-127 | afterwards the n value bits from val_bit_from downwards equal the element bits from bit_from, and every other bit of the value is as before |
| Matchers.LiteralDecoding | src/binny.hpp:209-235 | the template recursion (last digit plus twice the rest, base cases 0 and 1, static assertion on every digit) accepts exactly the literals whose decimal digits are all 0 or 1, and then gives the digits read in base 2 and the digit count |
| Matchers.BinaryDigitBits | src/binny.hpp:212-213 | binary digits read in base 2 give a number below 2^(digit count) whose bits, most significant first, are those digits |
| Matchers.CBinData | src/binny.hpp:206-235 | `c_bin_data<lit>` builds a constant exactly when every digit is 0 or 1; its width is the digit count and its bits, most significant first, are the digits |
| Matchers.ConstConsume | src/binny.hpp:139-151 | succeeds exactly when the window equals the value bits still to be matched; then consumes the window size and adds it to the context; otherwise leaves the context alone and reports the window's first differing bit |
| Matchers.NonconstConsume | src/binny.hpp:257-268 | consumes the window size, adds it to the context, writes the window into the variable bits still to be filled, and keeps all other variable bits |
| Reference.ConstRestSpec | src/binny.hpp:352-374 | a constant of width k matches from a cursor exactly when the next k stream bits spell its value, most significant first, even across elements; it then ends k bits further on; otherwise the error names the first differing bit's element and bit, with all earlier bits agreeing |
| Reference.ExtractRestSpec | src/binny.hpp:352-374 | an extraction of width k sets bits k-1 down to 0 of the variable to the next k stream bits, keeps every higher bit, and ends k bits further on |
| Reference.LeafProgress | src/binny.hpp:362-373 | a matcher that completes moves the cursor forward by exactly its width |
| Reference.SingleBitFlip | src/binny.hpp:94-105 | when exactly one bit of a constant's window differs, the error points at that bit, and its expected and actual bits are opposite |
| Reference.ExtractRecoversMatchedConstant | src/binny.hpp:85-127 | where a constant matches, extracting the same window into a cleared variable recovers the constant and ends at the same position |
| Reference.ZerosMatchZeroBits | src/binny.hpp:237-244 | `zeros<n>` matches exactly when the next n stream bits are all 0 |
| Reference.LiteralMatchesDigits | src/binny.hpp:206-217 | `c_bin_data<lit>` matches exactly when the next stream bits are the decimal digits of lit |
| Reference.ExtractionLeaf | src/binny.hpp:246-276 | `nonconst(v, bits)` never fails; it consumes its width, whose default is the type's bit size, copies the stream bits into the low bits of its own variable, and leaves other variables alone |
| Reference.LeafFrame | src/binny.hpp:246-268 | a constant changes no variable, and an extraction changes only its own |
| Reference.ConstWindowAgrees | src/binny.hpp:142-151 | a window that agrees with the value advances the bit-serial compare by exactly the window |
| Reference.ConstWindowMismatch | src/binny.hpp:142-151 | a window whose first mismatch is e makes the bit-serial compare report e |
| Reference.ExtractWindow | src/binny.hpp:260-268 | filling one window equals copying its bits one at a time |
| Sequence.Then | src/binny.hpp:319-347 | `a \| m` appends m to the leaves of a, adds its width, and keeps the tree left-nested |
| Sequence.Build | src/binny.hpp:289-303 | a non-empty list of matchers builds a left-nested tree with exactly those leaves in order |
| Sequence.LeftNestedIsBuilt | src/binny.hpp:289-303 | every left-nested tree is the one built from its own leaves |
| Sequence.TotalBitsIsSum | src/binny.hpp:376-382 | the bits a tree consumes are the sum of its leaves' widths |
| Sequence.ListRefAppend | src/binny.hpp:376-382 | matching a concatenation runs the first list, and then the second list from where it stopped, unless the first mismatched |
| Sequence.HolderIsList | src/binny.hpp:376-382 | matching a tree is matching its leaves left to right from one shared cursor |
| Sequence.SeqAssociative | src/binny.hpp:376-382 | how a sequence is bracketed does not change the outcome |
| Sequence.HolderProgress | src/binny.hpp:376-382 | a tree that completes moves the cursor forward by exactly the sum of its leaf widths |
| Sequence.HolderFrame | src/binny.hpp:376-382 | a variable that no extraction of the tree names is untouched, whether or not the tree completes |
| Sequence.EarlierExtractionsPersist | src/binny.hpp:376-382 | when the second part of a sequence mismatches, what the first part extracted is kept |
| Drive.MatchLeaf | src/binny.hpp:352-374 | the drive loop, one `consume` window per element, gives the same outcome as the bit-serial reference, and on success consumes exactly the matcher's width |
| Drive.MatchSeq | src/binny.hpp:376-382 | the sequence overload, first part to completion then second part on the same cursor, gives the reference outcome of the tree and consumes all its bits on success |
| Drive.Parse | src/binny.hpp:389-394 | parsing from element 0, bit 0 passes exactly when the tree matches there; a failure carries the first mismatch; the variables are those the matchers left |
| Scenarios.TestBinnySimple | src/test.cpp:30-48 | `{0xe8}` against `11 \| nonconst(acc1, 3) \| zeros<3>` passes with acc1 = 5 |
| Scenarios.TestBinny2El | src/test.cpp:75-95 | `{0x1, 0xe8}` against `zeros<7> \| 111 \| nonconst(acc1, 3) \| 000` passes with acc1 = 5, with `111` crossing the element boundary |
| Scenarios.OctalZeroLiteral | src/test.cpp:85 | `c_bin_data<000>` is the 1-bit constant 0 |
| Scenarios.SimpleMismatch | src/binny.hpp:99-104 | `{0x98}` against the simple format fails at element 0, bit 1, expected 1, actual 0, with acc1 untouched |
| Scenarios.ExtractionBeforeMismatch | src/binny.hpp:376-382 | `nonconst(acc1, 3) \| 11` on `{0xe8}` fails at element 0, bit 3, and acc1 keeps the 7 it received |

## Left out

- `const_data_array` (src/binny.hpp:154-204) is left out. It does not compile:
  - it calls `calculate_to_consume` with two arguments where three are
    declared;
  - its `context_t` and `new_context` are private.

  It also clamps the window to `val_bit_from` instead of `val_bit_from + 1`,
  so a window of one remaining bit would consume nothing. The `|`
  operators that mention it are modelled only for the other two kinds.
- Formatting of the `bin_match_error` message (src/binny.hpp:28-33) is left
  out. The error is modelled by its four fields.
- The Boost concept checks and the static assertions are compile-time
  scaffolding and are left out. The exception is the digit check of
  `c_bin_data`, which is modelled as `BadDigit`.
- `holder_traits` (copy or reference storage of a leaf) is left out. Trees
  are values, and extractions name their variable by index.
- Machine integer widths are not modelled:
  - the masks `1 << k` are `int` shifts, undefined from bit 31 on;
  - `unsigned long` literals are limited to 20 digits;
  - `unsigned int` element and bit counters can wrap.

  The model uses unbounded naturals throughout.
- `BinData.ValidateOne`, `BinData.FillOne`, `Drive.MatchLeaf` and the
  reference they agree with model every buffer element and every variable
  as unsigned. For a signed type narrower than `int`, such as a `char`
  buffer where `char` is signed (src/binny.hpp:44-46), C++ behaves
  differently.
  - A mask that holds the sign bit is negative, so `>> 1` keeps that bit
    (src/binny.hpp:92-95, 117-125). The mask grows from 0x80 to 0xC0, 0xE0
    and so on, instead of selecting one bit.
  - A window that starts at the type's top bit therefore reads and writes
    several bits per step.
  - On `{0x80}`, `c_bin_data<10>` from bit 0 throws `(0, 1, 0, 1)` in C++.
    The model passes.
  - On `{0x80}`, `char c; nonconst(c)` ends with `c == -1` (all bits set) in
    C++. Every step sees `el & mask_el == 0x80` and ORs in the growing
    mask. The model gives 0x80.
- `Reference.ExtractionLeaf` and `Drive.MatchLeaf` do not model an explicit
  extraction width larger than the variable's type. The model writes all
  `bits` low bits of the variable. In C++, `fill_one` builds
  `mask_val = 1 << val_bit_from` once per window, converts it to the
  variable's type, and only shifts it right afterwards
  (src/binny.hpp:118-125). For a type narrower than `int` the mask of a
  window that starts above the type's top bit truncates to 0. That window
  then writes nothing, including its bits that would fit. For example,
  `unsigned char c; nonconst(c, 12)` on a byte buffer from bit 0 drops the
  whole first byte and writes only bits 3..0 from the second. For `int`
  width or wider, the shift itself is undefined behaviour.
- Reading past the end of the buffer is left out. The drive loop
  dereferences the input iterator without a bound check.
  - `Drive.MatchLeaf` requires the input to hold the matcher's whole width.
  - `Drive.MatchSeq` and `Drive.Parse` require it to hold the whole format's
    width (`TotalBits(h) <= |input| * w`).

  This holds even when a mismatch would stop the C++ `match` earlier. A short
  buffer that mismatches before its end is well defined in C++ but not
  covered by these methods, for example `{0x98}` against `11 | zeros<8>`.
  The bit-serial reference reads 0 past the end.
- Advancing the caller's iterator is left out: `parse` works on a copy.
- The test program's stack trace printing, console output and `main`
  (src/test.cpp:18-28, 98-104) are left out.
- A full "render a buffer, then parse it back" round trip is not stated for
  whole trees: rendering is not an operation of the library. The round trip
  is stated per matcher by `Reference.ExtractRecoversMatchedConstant` and
  `Reference.LiteralMatchesDigits`.
