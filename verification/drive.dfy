/** The drive loop (`match`) and the entry point (`parse`): feed the current
    input element to a matcher's `consume` until its width is used up,
    moving the shared cursor across element boundaries, and run a sequence
    left part first.
 */
module Drive {
  import opened Stream
  import opened BinData
  import opened Matchers
  import opened Reference
  import opened Sequence

  /** `match` on one matcher: consume exactly `m.bits` bits from cur, one
      window per element, and agree bit for bit with the bit-serial reference.
      The input must hold every bit the matcher reads. */
  method MatchLeaf(input: seq<nat>, w: nat, m: Matcher, cur: Cursor, vars: seq<nat>) returns (r: Outcome)
    requires ValidInput(input, w) && cur.bit < w
    requires Pos(w, cur) + m.bits <= |input| * w
    requires SlotFits(m, |vars|)
    ensures r == LeafRef(input, w, m, cur, vars)
    ensures r.Matched? ==> Pos(w, r.cur) == Pos(w, cur) + m.bits && r.cur.bit < w
  {
    var ctx := NewContext();
    var elNum: nat := cur.el;
    var bitFrom: nat := cur.bit;
    var vs: seq<nat> := vars;
    var bitsToRead: nat := m.bits;
    while bitsToRead > 0
      invariant ctx.consumed <= m.bits && bitsToRead == m.bits - ctx.consumed
      invariant bitFrom < w
      invariant Pos(w, Cursor(elNum, bitFrom)) == Pos(w, cur) + ctx.consumed
      invariant |vs| == |vars|
      invariant LeafRef(input, w, m, cur, vars) == LeafRest(input, w, m, bitsToRead, Cursor(elNum, bitFrom), vs)
      decreases bitsToRead
    {
      var here := Cursor(elNum, bitFrom);
      InBounds(w, here, |input|);
      var el := input[elNum];
      var consumed: nat;
      match m {
        case Const(value, bits) =>
          var step := ConstConsume(value, bits, el, elNum, bitFrom, w, ctx);
          if step.Failed? {
            ConstLeafStops(input, w, m, bitsToRead, here, vs, CalculateToConsume(w, bitFrom, bits, ctx), step.error);
            return Mismatch(step.error, vs);
          }
          ConstLeafStep(input, w, m, bitsToRead, here, vs, step.n);
          consumed, ctx := step.n, step.ctx;
        case Extract(slot, bits) =>
          var n, ctx', out' := NonconstConsume(bits, el, bitFrom, w, ctx, vs[slot]);
          ExtractLeafStep(input, w, m, bitsToRead, here, vs, n, out');
          consumed, ctx, vs := n, ctx', vs[slot := out'];
      }
      StepPos(w, here, consumed);
      bitsToRead := bitsToRead - consumed;
      bitFrom := bitFrom + consumed;
      if bitFrom >= w {
        bitFrom := 0;
        elNum := elNum + 1;
      }
    }
    if m.Extract? {
      assert vs[m.slot := vs[m.slot]] == vs;
    }
    return Matched(Cursor(elNum, bitFrom), vs);
  }

  /** `match` on a sequence: the first part to completion, then the second
      part on the same cursor; a mismatch stops the whole sequence. */
  method MatchSeq(input: seq<nat>, w: nat, h: Holder, cur: Cursor, vars: seq<nat>) returns (r: Outcome)
    requires ValidInput(input, w) && cur.bit < w
    requires Pos(w, cur) + TotalBits(h) <= |input| * w
    requires SlotsFit(h, |vars|)
    ensures r == HolderRef(input, w, h, cur, vars)
    ensures r.Matched? ==> Pos(w, r.cur) == Pos(w, cur) + TotalBits(h) && r.cur.bit < w
    decreases h
  {
    match h {
      case Leaf(m) =>
        r := MatchLeaf(input, w, m, cur, vars);
      case Seq(a, b) =>
        var ra := MatchSeq(input, w, a, cur, vars);
        if ra.Mismatch? {
          return Mismatch(ra.error, ra.vars);
        }
        r := MatchSeq(input, w, b, ra.cur, ra.vars);
    }
  }

  /** `parse`: match a matcher or sequence from the start of the input, bit 0
      of element 0. The cursor is a local copy, so the caller only sees the
      variables and whether a mismatch occurred. */
  method Parse(h: Holder, input: seq<nat>, w: nat, vars: seq<nat>) returns (vars': seq<nat>, result: Check)
    requires ValidInput(input, w)
    requires TotalBits(h) <= |input| * w
    requires SlotsFit(h, |vars|)
    ensures var o := HolderRef(input, w, h, Cursor(0, 0), vars);
            && vars' == o.vars
            && (result.Pass? <==> o.Matched?)
            && (result.Fail? ==> o.Mismatch? && result.error == o.error)
  {
    var elNum: nat := 0;
    var bitFrom: nat := 0;
    var o := MatchSeq(input, w, h, Cursor(elNum, bitFrom), vars);
    vars' := o.vars;
    if o.Mismatch? {
      result := Fail(o.error);
    } else {
      result := Pass;
    }
  }
}
