/** Bit-serial reference semantics of one matcher: walk the stream one bit
    at a time from a cursor, with no notion of elements, windows or
    contexts. The drive loop, which works a window per `consume` call, is
    proved equal to it; the lemmas here say what it means in terms of
    absolute stream positions.
 */
module Reference {
  import opened Bits
  import opened Stream
  import opened BinData
  import opened Matchers

  /** Result of matching from a cursor: the cursor after the matched bits and
      the caller's variables, or the first mismatch together with the
      variables as the extractions before it left them. */
  datatype Outcome =
    | Matched(cur: Cursor, vars: seq<nat>)
    | Mismatch(error: MatchError, vars: seq<nat>)

  /** Result of a bit-serial compare. */
  datatype Compare = Agree(cur: Cursor) | Differ(error: MatchError)

  /** Compare the next k stream bits, one at a time, with value bits k-1
      down to 0; report the first differing bit where it lies. */
  function ConstRest(input: seq<nat>, w: nat, value: nat, k: nat, cur: Cursor): Compare
    decreases k
  {
    if k == 0 then Agree(cur)
    else
      var expected := Bit(value, k - 1);
      var actual := StreamBit(input, w, cur);
      if expected != actual then Differ(MatchError(cur.el, cur.bit, expected, actual))
      else ConstRest(input, w, value, k - 1, Advance(w, cur))
  }

  /** Copy the next k stream bits, one at a time, into bits k-1 down to 0 of
      out; return the cursor after them and the new value. */
  function ExtractRest(input: seq<nat>, w: nat, k: nat, cur: Cursor, out: nat): (Cursor, nat)
    decreases k
  {
    if k == 0 then (cur, out)
    else ExtractRest(input, w, k - 1, Advance(w, cur), SetBit(out, k - 1, StreamBit(input, w, cur)))
  }

  /** An extraction matcher refers to one of the caller's n variables. */
  predicate SlotFits(m: Matcher, n: nat)
  {
    m.Extract? ==> m.slot < n
  }

  /** Run the last k bits of matcher m from cur. */
  function LeafRest(input: seq<nat>, w: nat, m: Matcher, k: nat, cur: Cursor, vars: seq<nat>): (r: Outcome)
    requires SlotFits(m, |vars|)
    ensures |r.vars| == |vars|
  {
    match m
    case Const(value, _) =>
      (match ConstRest(input, w, value, k, cur)
       case Agree(c) => Matched(c, vars)
       case Differ(e) => Mismatch(e, vars))
    case Extract(slot, _) =>
      var (c, o) := ExtractRest(input, w, k, cur, vars[slot]);
      Matched(c, vars[slot := o])
  }

  /** Run matcher m from cur. */
  function LeafRef(input: seq<nat>, w: nat, m: Matcher, cur: Cursor, vars: seq<nat>): (r: Outcome)
    requires SlotFits(m, |vars|)
    ensures |r.vars| == |vars|
  {
    LeafRest(input, w, m, m.bits, cur, vars)
  }

  // ---------------------------------------------------------------------
  // Meaning of the reference, in absolute stream positions
  // ---------------------------------------------------------------------

  /** Stream bits start .. upto-1 equal value bits start+k-1-p: the k-bit
      value laid over the stream from position start, most significant bit
      first. */
  ghost predicate StreamEquals(input: seq<nat>, w: nat, start: nat, value: nat, k: nat, upto: nat)
    requires w >= 1 && upto <= start + k
  {
    forall p :: start <= p < upto ==> BitAt(input, w, p) == Bit(value, start + k - 1 - p)
  }

  /** Peeling the first bit: once it agrees, the value lies on the stream
      from s exactly when its remaining k-1 bits lie on it from s+1. */
  lemma StreamEqualsCons(input: seq<nat>, w: nat, s: nat, value: nat, k: nat, upto: nat)
    requires w >= 1 && k >= 1 && s < upto <= s + k
    requires BitAt(input, w, s) == Bit(value, k - 1)
    ensures StreamEquals(input, w, s, value, k, upto) <==> StreamEquals(input, w, s + 1, value, k - 1, upto)
  {
    if StreamEquals(input, w, s + 1, value, k - 1, upto) {
      forall p | s <= p < upto ensures BitAt(input, w, p) == Bit(value, s + k - 1 - p) {
        if p > s {
          assert BitAt(input, w, p) == Bit(value, (s + 1) + (k - 1) - 1 - p);
        }
      }
    }
  }

  /** A constant matcher of width k succeeds from cur exactly when the next k
      stream bits spell its value, most significant first, and then leaves
      the cursor k bits further on; otherwise it reports the first differing
      bit: its element and bit index, the expected value bit and the actual
      stream bit, all bits before it agreeing. */
  lemma {:induction false} ConstRestSpec(input: seq<nat>, w: nat, value: nat, k: nat, cur: Cursor)
    requires w >= 1 && cur.bit < w
    ensures var r := ConstRest(input, w, value, k, cur);
            r.Agree? <==> StreamEquals(input, w, Pos(w, cur), value, k, Pos(w, cur) + k)
    ensures var r := ConstRest(input, w, value, k, cur);
            r.Agree? ==> Pos(w, r.cur) == Pos(w, cur) + k && r.cur.bit < w
    ensures var r := ConstRest(input, w, value, k, cur);
            r.Differ? ==>
              var e := r.error;
              var p := Pos(w, Cursor(e.elNum, e.bitNum));
              && e.bitNum < w
              && Pos(w, cur) <= p < Pos(w, cur) + k
              && e.expected == Bit(value, Pos(w, cur) + k - 1 - p)
              && e.actual == BitAt(input, w, p)
              && e.expected != e.actual
              && StreamEquals(input, w, Pos(w, cur), value, k, p)
  {
    ConstRestAgree(input, w, value, k, cur);
    ConstRestDiffer(input, w, value, k, cur);
  }

  /** The success half of `ConstRestSpec`. */
  lemma {:induction false} ConstRestAgree(input: seq<nat>, w: nat, value: nat, k: nat, cur: Cursor)
    requires w >= 1 && cur.bit < w
    ensures var r := ConstRest(input, w, value, k, cur);
            r.Agree? <==> StreamEquals(input, w, Pos(w, cur), value, k, Pos(w, cur) + k)
    ensures var r := ConstRest(input, w, value, k, cur);
            r.Agree? ==> Pos(w, r.cur) == Pos(w, cur) + k && r.cur.bit < w
    decreases k
  {
    var s := Pos(w, cur);
    if k > 0 {
      StreamBitAt(input, w, cur);
      var next := Advance(w, cur);
      StepPos(w, cur, 1);
      if Bit(value, k - 1) == StreamBit(input, w, cur) {
        ConstRestAgree(input, w, value, k - 1, next);
        assert ConstRest(input, w, value, k, cur) == ConstRest(input, w, value, k - 1, next);
        StreamEqualsCons(input, w, s, value, k, s + k);
      } else {
        assert !StreamEquals(input, w, s, value, k, s + k) by {
          assert BitAt(input, w, s) != Bit(value, s + k - 1 - s);
        }
      }
    }
  }

  /** The failure half of `ConstRestSpec`. */
  lemma {:induction false} ConstRestDiffer(input: seq<nat>, w: nat, value: nat, k: nat, cur: Cursor)
    requires w >= 1 && cur.bit < w
    ensures var r := ConstRest(input, w, value, k, cur);
            r.Differ? ==>
              var e := r.error;
              var p := Pos(w, Cursor(e.elNum, e.bitNum));
              && e.bitNum < w
              && Pos(w, cur) <= p < Pos(w, cur) + k
              && e.expected == Bit(value, Pos(w, cur) + k - 1 - p)
              && e.actual == BitAt(input, w, p)
              && e.expected != e.actual
              && StreamEquals(input, w, Pos(w, cur), value, k, p)
    decreases k
  {
    var s := Pos(w, cur);
    if k > 0 {
      StreamBitAt(input, w, cur);
      var next := Advance(w, cur);
      StepPos(w, cur, 1);
      if Bit(value, k - 1) == StreamBit(input, w, cur) {
        ConstRestDiffer(input, w, value, k - 1, next);
        var r := ConstRest(input, w, value, k - 1, next);
        assert ConstRest(input, w, value, k, cur) == r;
        if r.Differ? {
          StreamEqualsCons(input, w, s, value, k, Pos(w, Cursor(r.error.elNum, r.error.bitNum)));
        }
      }
    }
  }

  /** An extraction of width k from cur sets bits k-1 .. 0 of the variable to
      the next k stream bits, most significant first, even across element
      boundaries, keeps every bit from k up, and leaves the cursor k bits
      further on. */
  lemma {:induction false} ExtractRestSpec(input: seq<nat>, w: nat, k: nat, cur: Cursor, out: nat)
    requires w >= 1 && cur.bit < w
    ensures var (c, o) := ExtractRest(input, w, k, cur, out);
            && Pos(w, c) == Pos(w, cur) + k && c.bit < w
            && (forall p :: Pos(w, cur) <= p < Pos(w, cur) + k ==> Bit(o, Pos(w, cur) + k - 1 - p) == BitAt(input, w, p))
            && (forall j: nat :: j >= k ==> Bit(o, j) == Bit(out, j))
    decreases k
  {
    if k > 0 {
      var s := Pos(w, cur);
      StreamBitAt(input, w, cur);
      var next := Advance(w, cur);
      StepPos(w, cur, 1);
      var out1 := SetBit(out, k - 1, StreamBit(input, w, cur));
      ExtractRestSpec(input, w, k - 1, next, out1);
      var (c, o) := ExtractRest(input, w, k - 1, next, out1);
      assert ExtractRest(input, w, k, cur, out) == (c, o);
      forall p | s <= p < s + k ensures Bit(o, s + k - 1 - p) == BitAt(input, w, p) {
        if p > s {
          assert Bit(o, (s + 1) + (k - 1) - 1 - p) == BitAt(input, w, p);
        } else {
          assert Bit(o, k - 1) == Bit(out1, k - 1);
        }
      }
      forall j: nat | j >= k ensures Bit(o, j) == Bit(out, j) {
        assert Bit(o, j) == Bit(out1, j);
      }
    }
  }

  /** A matcher that completes moves the cursor forward by exactly its width
      and keeps the bit offset inside an element. */
  lemma LeafProgress(input: seq<nat>, w: nat, m: Matcher, cur: Cursor, vars: seq<nat>)
    requires w >= 1 && cur.bit < w && SlotFits(m, |vars|)
    ensures var r := LeafRef(input, w, m, cur, vars);
            r.Matched? ==> Pos(w, r.cur) == Pos(w, cur) + m.bits && r.cur.bit < w
  {
    match m
    case Const(value, bits) =>
      ConstRestSpec(input, w, value, bits, cur);
    case Extract(slot, bits) =>
      ExtractRestSpec(input, w, bits, cur, vars[slot]);
  }

  /** A single differing bit inside the window is reported exactly where it
      is, with expected and actual bits opposite to each other. */
  lemma SingleBitFlip(input: seq<nat>, w: nat, value: nat, k: nat, cur: Cursor, q: nat)
    requires w >= 1 && cur.bit < w
    requires Pos(w, cur) <= q < Pos(w, cur) + k
    requires forall p :: Pos(w, cur) <= p < Pos(w, cur) + k && p != q ==>
               BitAt(input, w, p) == Bit(value, Pos(w, cur) + k - 1 - p)
    requires BitAt(input, w, q) != Bit(value, Pos(w, cur) + k - 1 - q)
    ensures var r := ConstRest(input, w, value, k, cur);
            && r.Differ?
            && r.error.bitNum < w
            && Pos(w, Cursor(r.error.elNum, r.error.bitNum)) == q
            && r.error.expected == 1 - r.error.actual
  {
    ConstRestSpec(input, w, value, k, cur);
    assert !StreamEquals(input, w, Pos(w, cur), value, k, Pos(w, cur) + k);
  }

  /** Round trip: where a constant of width k matches, an extraction of the
      same k bits into a cleared variable recovers exactly that constant and
      ends at the same stream position. */
  lemma ExtractRecoversMatchedConstant(input: seq<nat>, w: nat, value: nat, k: nat, cur: Cursor)
    requires w >= 1 && cur.bit < w && value < Pow2(k)
    requires ConstRest(input, w, value, k, cur).Agree?
    ensures var (c, o) := ExtractRest(input, w, k, cur, 0);
            o == value && Pos(w, c) == Pos(w, ConstRest(input, w, value, k, cur).cur)
  {
    var s := Pos(w, cur);
    ConstRestSpec(input, w, value, k, cur);
    ExtractRestSpec(input, w, k, cur, 0);
    var (c, o) := ExtractRest(input, w, k, cur, 0);
    forall j: nat ensures Bit(o, j) == Bit(value, j) {
      if j < k {
        var p := s + k - 1 - j;
        assert Bit(o, s + k - 1 - p) == BitAt(input, w, p);
        assert BitAt(input, w, p) == Bit(value, s + k - 1 - p);
      } else {
        ZeroBits(j);
        HighBitsClear(value, k, j);
      }
    }
    BitsDetermine(o, value);
  }

  /** `zeros<n>` matches exactly when the next n stream bits are all 0. */
  lemma ZerosMatchZeroBits(input: seq<nat>, w: nat, n: nat, cur: Cursor, vars: seq<nat>)
    requires w >= 1 && cur.bit < w
    ensures LeafRef(input, w, Zeros(n), cur, vars).Matched? <==>
            forall p :: Pos(w, cur) <= p < Pos(w, cur) + n ==> BitAt(input, w, p) == 0
  {
    ConstRestSpec(input, w, 0, n, cur);
    forall j: nat {
      ZeroBits(j);
    }
  }

  /** The stream bits from position s are the digits ds, first digit first. */
  ghost predicate StreamSpells(input: seq<nat>, w: nat, s: nat, ds: seq<nat>)
    requires w >= 1
  {
    forall i :: 0 <= i < |ds| ==> BitAt(input, w, s + i) == ds[i]
  }

  /** A value whose bits, most significant first, are the digits ds lies on
      the stream from s exactly when the stream bits from s are ds. */
  lemma StreamEqualsDigits(input: seq<nat>, w: nat, s: nat, value: nat, ds: seq<nat>)
    requires w >= 1
    requires forall i :: 0 <= i < |ds| ==> Bit(value, |ds| - 1 - i) == ds[i]
    ensures StreamEquals(input, w, s, value, |ds|, s + |ds|) <==> StreamSpells(input, w, s, ds)
  {
    var k := |ds|;
    if StreamEquals(input, w, s, value, k, s + k) {
      forall i | 0 <= i < k ensures BitAt(input, w, s + i) == ds[i] {
        assert BitAt(input, w, s + i) == Bit(value, s + k - 1 - (s + i));
      }
    }
    if StreamSpells(input, w, s, ds) {
      forall p | s <= p < s + k ensures BitAt(input, w, p) == Bit(value, s + k - 1 - p) {
        assert BitAt(input, w, s + (p - s)) == ds[p - s];
      }
    }
  }

  /** `c_bin_data<lit>` matches exactly when the next stream bits spell the
      decimal digits of lit, first digit first. */
  lemma LiteralMatchesDigits(input: seq<nat>, w: nat, lit: nat, cur: Cursor, vars: seq<nat>)
    requires w >= 1 && cur.bit < w && CBinData(lit).Built?
    ensures LeafRef(input, w, CBinData(lit).matcher, cur, vars).Matched? <==>
            StreamSpells(input, w, Pos(w, cur), DecimalDigits(lit))
  {
    var ds := DecimalDigits(lit);
    var m := CBinData(lit).matcher;
    assert m.Const? && m.bits == |ds|;
    ConstRestSpec(input, w, m.value, |ds|, cur);
    StreamEqualsDigits(input, w, Pos(w, cur), m.value, ds);
  }

  /** An extraction never fails: `nonconst(v, bits)` moves the cursor bits
      further on, sets the low bits of variable slot to the stream bits it
      passed, most significant first, and keeps every higher bit and every
      other variable. Without an explicit width it takes the bit size of
      the variable's type. */
  lemma ExtractionLeaf(input: seq<nat>, w: nat, slot: nat, typeBits: nat, bits: nat, cur: Cursor,
                       vars: seq<nat>)
    requires w >= 1 && cur.bit < w && slot < |vars|
    ensures Nonconst(slot, typeBits).bits == typeBits
    ensures var r := LeafRef(input, w, Nonconst(slot, typeBits, bits), cur, vars);
            && r.Matched?
            && Pos(w, r.cur) == Pos(w, cur) + bits
            && (forall p :: Pos(w, cur) <= p < Pos(w, cur) + bits ==>
                  Bit(r.vars[slot], Pos(w, cur) + bits - 1 - p) == BitAt(input, w, p))
            && (forall j: nat :: j >= bits ==> Bit(r.vars[slot], j) == Bit(vars[slot], j))
            && (forall s :: 0 <= s < |vars| && s != slot ==> r.vars[s] == vars[s])
  {
    ExtractRestSpec(input, w, bits, cur, vars[slot]);
  }

  /** Only an extraction changes the caller's variables, and only its own. */
  lemma LeafFrame(input: seq<nat>, w: nat, m: Matcher, cur: Cursor, vars: seq<nat>, s: nat)
    requires SlotFits(m, |vars|) && s < |vars|
    requires m.Const? || m.slot != s
    ensures LeafRef(input, w, m, cur, vars).vars[s] == vars[s]
  {
  }

  // ---------------------------------------------------------------------
  // One consume window of the drive loop is a run of single bit steps
  // ---------------------------------------------------------------------

  /** A window of n bits inside one element whose bits agree with value bits
      k-1 downwards is the same as n single-bit compare steps. */
  lemma {:induction false} ConstWindowAgrees(input: seq<nat>, w: nat, value: nat, k: nat, cur: Cursor, n: nat)
    requires cur.el < |input| && cur.bit < w && cur.bit + n <= w && n <= k
    requires WindowEqual(input[cur.el], w, cur.bit, value, k - 1, n)
    ensures ConstRest(input, w, value, k, cur) == ConstRest(input, w, value, k - n, Step(w, cur, n))
    decreases n
  {
    if n > 0 {
      WindowTail(input[cur.el], w, cur.bit, value, k - 1, n);
      var next := Advance(w, cur);
      assert ConstRest(input, w, value, k, cur) == ConstRest(input, w, value, k - 1, next);
      if n > 1 {
        assert next == Cursor(cur.el, cur.bit + 1);
        assert Step(w, next, n - 1) == Step(w, cur, n);
        ConstWindowAgrees(input, w, value, k - 1, next, n - 1);
      }
    }
  }

  /** A window of n bits inside one element whose first mismatch is e makes
      the bit-serial compare report exactly e. */
  lemma {:induction false} ConstWindowMismatch(input: seq<nat>, w: nat, value: nat, k: nat, cur: Cursor, n: nat,
                                               e: MatchError)
    requires cur.el < |input| && cur.bit < w && cur.bit + n <= w && n <= k
    requires IsFirstMismatch(input[cur.el], cur.el, w, cur.bit, value, k - 1, n, e)
    ensures ConstRest(input, w, value, k, cur) == Differ(e)
    decreases n
  {
    var el := input[cur.el];
    if e.bitNum != cur.bit {
      assert ElBit(el, w, cur.bit) == Bit(value, k - 1 - (cur.bit - cur.bit));
      var next := Advance(w, cur);
      assert next == Cursor(cur.el, cur.bit + 1);
      assert IsFirstMismatch(el, cur.el, w, cur.bit + 1, value, k - 2, n - 1, e) by {
        assert e.expected == Bit(value, k - 2 - (e.bitNum - (cur.bit + 1)));
        forall b | cur.bit + 1 <= b < cur.bit + 1 + (e.bitNum - (cur.bit + 1))
          ensures ElBit(el, w, b) == Bit(value, k - 2 - (b - (cur.bit + 1)))
        {
          assert ElBit(el, w, b) == Bit(value, k - 1 - (b - cur.bit));
        }
      }
      ConstWindowMismatch(input, w, value, k - 1, next, n - 1, e);
    }
  }

  /** Copying the top bit of the range still to be filled from filled into
      out leaves out and filled agreeing everywhere outside a range one bit
      smaller. */
  lemma SetTopBit(out: nat, filled: nat, k: nat, n: nat)
    requires 1 <= n <= k
    requires forall j: nat :: j > k - 1 || j <= k - 1 - n ==> Bit(filled, j) == Bit(out, j)
    ensures forall j: nat :: j > k - 2 || j <= k - 2 - (n - 1) ==>
              Bit(filled, j) == Bit(SetBit(out, k - 1, Bit(filled, k - 1)), j)
  {
    var out1 := SetBit(out, k - 1, Bit(filled, k - 1));
    forall j: nat | j > k - 2 || j <= k - 2 - (n - 1) ensures Bit(filled, j) == Bit(out1, j) {
      if j != k - 1 {
        assert Bit(out1, j) == Bit(out, j);
      }
    }
  }

  /** The first bit of a window copied into bit k-1 is one single-bit copy
      step; the rest of the window is again a window. */
  lemma ExtractFirstBit(input: seq<nat>, w: nat, k: nat, cur: Cursor, out: nat, n: nat, filled: nat)
    requires cur.el < |input| && cur.bit < w && cur.bit + n <= w && 1 <= n <= k
    requires WindowEqual(input[cur.el], w, cur.bit, filled, k - 1, n)
    requires forall j: nat :: j > k - 1 || j <= k - 1 - n ==> Bit(filled, j) == Bit(out, j)
    ensures var out1 := SetBit(out, k - 1, Bit(filled, k - 1));
            && ExtractRest(input, w, k, cur, out) == ExtractRest(input, w, k - 1, Advance(w, cur), out1)
            && WindowEqual(input[cur.el], w, cur.bit + 1, filled, k - 2, n - 1)
            && (forall j: nat :: j > k - 2 || j <= k - 2 - (n - 1) ==> Bit(filled, j) == Bit(out1, j))
  {
    WindowTail(input[cur.el], w, cur.bit, filled, k - 1, n);
    assert StreamBit(input, w, cur) == Bit(filled, k - 1);
    SetTopBit(out, filled, k, n);
  }

  /** A window of n bits inside one element copied into bits k-1 downwards of
      out, every other bit kept, is the same as n single-bit copy steps. */
  lemma {:induction false} ExtractWindow(input: seq<nat>, w: nat, k: nat, cur: Cursor, out: nat, n: nat,
                                         filled: nat)
    requires cur.el < |input| && cur.bit < w && cur.bit + n <= w && n <= k
    requires WindowEqual(input[cur.el], w, cur.bit, filled, k - 1, n)
    requires forall j: nat :: j > k - 1 || j <= k - 1 - n ==> Bit(filled, j) == Bit(out, j)
    ensures ExtractRest(input, w, k, cur, out) == ExtractRest(input, w, k - n, Step(w, cur, n), filled)
    decreases n
  {
    if n == 0 {
      BitsDetermine(filled, out);
    } else {
      ExtractFirstBit(input, w, k, cur, out, n, filled);
      var out1 := SetBit(out, k - 1, Bit(filled, k - 1));
      if n == 1 {
        BitsDetermine(filled, out1);
      } else {
        var next := Advance(w, cur);
        assert next == Cursor(cur.el, cur.bit + 1);
        assert Step(w, next, n - 1) == Step(w, cur, n);
        ExtractWindow(input, w, k - 1, next, out1, n - 1, filled);
      }
    }
  }

  // ---------------------------------------------------------------------
  // One iteration of the drive loop on the remaining bits of a matcher
  // ---------------------------------------------------------------------

  /** A constant's window that agrees moves the rest of the match n bits on. */
  lemma ConstLeafStep(input: seq<nat>, w: nat, m: Matcher, k: nat, cur: Cursor, vars: seq<nat>, n: nat)
    requires m.Const? && cur.el < |input| && cur.bit < w && cur.bit + n <= w && n <= k
    requires WindowEqual(input[cur.el], w, cur.bit, m.value, k - 1, n)
    ensures LeafRest(input, w, m, k, cur, vars) == LeafRest(input, w, m, k - n, Step(w, cur, n), vars)
  {
    ConstWindowAgrees(input, w, m.value, k, cur, n);
  }

  /** A constant's window whose first mismatch is e ends the match with e. */
  lemma ConstLeafStops(input: seq<nat>, w: nat, m: Matcher, k: nat, cur: Cursor, vars: seq<nat>, n: nat,
                       e: MatchError)
    requires m.Const? && cur.el < |input| && cur.bit < w && cur.bit + n <= w && n <= k
    requires IsFirstMismatch(input[cur.el], cur.el, w, cur.bit, m.value, k - 1, n, e)
    ensures LeafRest(input, w, m, k, cur, vars) == Mismatch(e, vars)
  {
    ConstWindowMismatch(input, w, m.value, k, cur, n, e);
  }

  /** An extraction's window, filled into its variable, moves the rest of the
      match n bits on with the variable updated. */
  lemma ExtractLeafStep(input: seq<nat>, w: nat, m: Matcher, k: nat, cur: Cursor, vars: seq<nat>, n: nat,
                        filled: nat)
    requires m.Extract? && m.slot < |vars|
    requires cur.el < |input| && cur.bit < w && cur.bit + n <= w && n <= k
    requires WindowEqual(input[cur.el], w, cur.bit, filled, k - 1, n)
    requires forall j: nat :: j > k - 1 || j <= k - 1 - n ==> Bit(filled, j) == Bit(vars[m.slot], j)
    ensures LeafRest(input, w, m, k, cur, vars) ==
            LeafRest(input, w, m, k - n, Step(w, cur, n), vars[m.slot := filled])
  {
    ExtractWindow(input, w, k, cur, vars[m.slot], n, filled);
    var o := ExtractRest(input, w, k - n, Step(w, cur, n), filled).1;
    assert vars[m.slot := filled][m.slot := o] == vars[m.slot := o];
  }
}
