/** Sequences of matchers (`bin_holder_sequence`), built left to right by
    `operator|`, and their bit-serial meaning: the first part runs to
    completion, then the second part from the cursor the first left.
 */
module Sequence {
  import opened Stream
  import opened Matchers
  import opened Reference

  /** A binary composition tree of matchers. */
  datatype Holder = Leaf(m: Matcher) | Seq(holder1: Holder, holder2: Holder)

  /** The leaves of a tree, left subtree first: the declaration order. */
  function Leaves(h: Holder): (ms: seq<Matcher>)
    ensures |ms| >= 1
  {
    match h
    case Leaf(m) => [m]
    case Seq(a, b) => Leaves(a) + Leaves(b)
  }

  /** Total width of a list of matchers. */
  function SumBits(ms: seq<Matcher>): nat
    decreases |ms|
  {
    if |ms| == 0 then 0 else ms[0].bits + SumBits(ms[1..])
  }

  /** Total width of a tree: the bits one `match` of it consumes. */
  function TotalBits(h: Holder): nat
  {
    match h
    case Leaf(m) => m.bits
    case Seq(a, b) => TotalBits(a) + TotalBits(b)
  }

  /** The set of variables a tree extracts into. */
  function Slots(h: Holder): set<nat>
  {
    match h
    case Leaf(m) => if m.Extract? then {m.slot} else {}
    case Seq(a, b) => Slots(a) + Slots(b)
  }

  /** Every extraction of the tree refers to one of the caller's n variables. */
  predicate SlotsFit(h: Holder, n: nat)
  {
    match h
    case Leaf(m) => SlotFits(m, n)
    case Seq(a, b) => SlotsFit(a, n) && SlotsFit(b, n)
  }

  /** Every matcher of a list refers to one of the caller's n variables. */
  predicate AllSlotsFit(ms: seq<Matcher>, n: nat)
  {
    forall i :: 0 <= i < |ms| ==> SlotFits(ms[i], n)
  }

  /** The shape `operator|` builds: every right child is a single matcher. */
  predicate LeftNested(h: Holder)
  {
    match h
    case Leaf(_) => true
    case Seq(a, b) => b.Leaf? && LeftNested(a)
  }

  /** `left | right`: the overloads accept a matcher or a sequence on the left
      and only a matcher on the right. */
  function Then(left: Holder, right: Matcher): (h: Holder)
    ensures Leaves(h) == Leaves(left) + [right]
    ensures TotalBits(h) == TotalBits(left) + right.bits
    ensures LeftNested(h) <==> LeftNested(left)
  {
    Seq(left, Leaf(right))
  }

  /** `m0 | m1 | ... | mk`, where `|` groups to the left. */
  function Build(ms: seq<Matcher>): (h: Holder)
    requires |ms| >= 1
    ensures Leaves(h) == ms
    ensures LeftNested(h)
    decreases |ms|
  {
    if |ms| == 1 then Leaf(ms[0]) else Then(Build(ms[..|ms| - 1]), ms[|ms| - 1])
  }

  /** The left-nested trees are exactly the ones `operator|` builds: such a
      tree is rebuilt from its own leaves. */
  lemma {:induction false} LeftNestedIsBuilt(h: Holder)
    requires LeftNested(h)
    ensures Build(Leaves(h)) == h
  {
    match h
    case Leaf(m) =>
    case Seq(a, b) =>
      var ms := Leaves(h);
      assert Leaves(b) == [b.m];
      assert ms[..|ms| - 1] == Leaves(a);
      LeftNestedIsBuilt(a);
  }

  /** The width of a list split in two is the sum of the widths. */
  lemma {:induction false} SumBitsAppend(xs: seq<Matcher>, ys: seq<Matcher>)
    ensures SumBits(xs + ys) == SumBits(xs) + SumBits(ys)
    decreases |xs|
  {
    if |xs| == 0 {
      assert xs + ys == ys;
    } else {
      assert (xs + ys)[0] == xs[0];
      assert (xs + ys)[1..] == xs[1..] + ys;
      SumBitsAppend(xs[1..], ys);
    }
  }

  /** A tree consumes the sum of the widths of its leaves. */
  lemma {:induction false} TotalBitsIsSum(h: Holder)
    ensures TotalBits(h) == SumBits(Leaves(h))
  {
    match h
    case Leaf(m) =>
      assert SumBits([m]) == m.bits + SumBits([]);
    case Seq(a, b) =>
      TotalBitsIsSum(a);
      TotalBitsIsSum(b);
      SumBitsAppend(Leaves(a), Leaves(b));
  }

  /** A tree's extractions refer to the caller's variables exactly when those
      of its leaves do. */
  lemma {:induction false} SlotsFitLeaves(h: Holder, n: nat)
    ensures SlotsFit(h, n) <==> AllSlotsFit(Leaves(h), n)
  {
    match h
    case Leaf(m) =>
      assert Leaves(h)[0] == m;
    case Seq(a, b) =>
      SlotsFitLeaves(a, n);
      SlotsFitLeaves(b, n);
      var la, lb := Leaves(a), Leaves(b);
      assert forall i :: 0 <= i < |la| ==> (la + lb)[i] == la[i];
      assert forall i :: 0 <= i < |lb| ==> (la + lb)[|la| + i] == lb[i];
  }

  // ---------------------------------------------------------------------
  // Meaning of a sequence
  // ---------------------------------------------------------------------

  /** The matchers of a list, one after the other from cur; stop at the first
      mismatch. */
  function ListRef(input: seq<nat>, w: nat, ms: seq<Matcher>, cur: Cursor, vars: seq<nat>): (r: Outcome)
    requires AllSlotsFit(ms, |vars|)
    ensures |r.vars| == |vars|
    decreases |ms|
  {
    if |ms| == 0 then Matched(cur, vars)
    else
      match LeafRef(input, w, ms[0], cur, vars)
      case Matched(c, v) => ListRef(input, w, ms[1..], c, v)
      case Mismatch(e, v) => Mismatch(e, v)
  }

  /** A tree from cur: the first part to completion, then the second part from
      where the first left the cursor and the variables. */
  function HolderRef(input: seq<nat>, w: nat, h: Holder, cur: Cursor, vars: seq<nat>): (r: Outcome)
    requires SlotsFit(h, |vars|)
    ensures |r.vars| == |vars|
  {
    match h
    case Leaf(m) => LeafRef(input, w, m, cur, vars)
    case Seq(a, b) =>
      match HolderRef(input, w, a, cur, vars)
      case Matched(c, v) => HolderRef(input, w, b, c, v)
      case Mismatch(e, v) => Mismatch(e, v)
  }

  /** Running a concatenated list is running the first list and then, if it
      completed, the second from where it stopped. */
  lemma {:induction false} ListRefAppend(input: seq<nat>, w: nat, xs: seq<Matcher>, ys: seq<Matcher>,
                                         cur: Cursor, vars: seq<nat>)
    requires AllSlotsFit(xs, |vars|) && AllSlotsFit(ys, |vars|)
    ensures AllSlotsFit(xs + ys, |vars|)
    ensures ListRef(input, w, xs + ys, cur, vars) ==
            match ListRef(input, w, xs, cur, vars)
            case Matched(c, v) => ListRef(input, w, ys, c, v)
            case Mismatch(e, v) => Mismatch(e, v)
    decreases |xs|
  {
    assert forall i :: 0 <= i < |xs + ys| ==> (xs + ys)[i] == if i < |xs| then xs[i] else ys[i - |xs|];
    if |xs| == 0 {
      assert xs + ys == ys;
    } else {
      assert (xs + ys)[0] == xs[0];
      assert (xs + ys)[1..] == xs[1..] + ys;
      var r0 := LeafRef(input, w, xs[0], cur, vars);
      if r0.Matched? {
        assert AllSlotsFit(xs[1..], |r0.vars|) by {
          assert forall i :: 0 <= i < |xs[1..]| ==> xs[1..][i] == xs[i + 1];
        }
        ListRefAppend(input, w, xs[1..], ys, r0.cur, r0.vars);
      }
    }
  }

  /** A tree means the list of its leaves in declaration order: how the
      concatenations were nested does not matter. */
  lemma {:induction false} HolderIsList(input: seq<nat>, w: nat, h: Holder, cur: Cursor, vars: seq<nat>)
    requires SlotsFit(h, |vars|)
    ensures AllSlotsFit(Leaves(h), |vars|)
    ensures HolderRef(input, w, h, cur, vars) == ListRef(input, w, Leaves(h), cur, vars)
  {
    SlotsFitLeaves(h, |vars|);
    match h
    case Leaf(m) =>
      assert [m][1..] == [];
    case Seq(a, b) =>
      HolderIsList(input, w, a, cur, vars);
      SlotsFitLeaves(b, |vars|);
      ListRefAppend(input, w, Leaves(a), Leaves(b), cur, vars);
      var ra := HolderRef(input, w, a, cur, vars);
      if ra.Matched? {
        HolderIsList(input, w, b, ra.cur, ra.vars);
      }
  }

  /** Concatenation is associative: `(a | b) | c` and `a | (b | c)` read the
      same bits and give the same variables and errors. */
  lemma SeqAssociative(input: seq<nat>, w: nat, a: Holder, b: Holder, c: Holder, cur: Cursor, vars: seq<nat>)
    requires SlotsFit(a, |vars|) && SlotsFit(b, |vars|) && SlotsFit(c, |vars|)
    ensures HolderRef(input, w, Seq(Seq(a, b), c), cur, vars) == HolderRef(input, w, Seq(a, Seq(b, c)), cur, vars)
  {
  }

  /** A tree that completes moves the cursor forward by exactly the sum of
      its leaf widths and keeps the bit offset inside an element. */
  lemma {:induction false} HolderProgress(input: seq<nat>, w: nat, h: Holder, cur: Cursor, vars: seq<nat>)
    requires w >= 1 && cur.bit < w && SlotsFit(h, |vars|)
    ensures var r := HolderRef(input, w, h, cur, vars);
            r.Matched? ==> Pos(w, r.cur) == Pos(w, cur) + SumBits(Leaves(h)) && r.cur.bit < w
  {
    TotalBitsIsSum(h);
    match h
    case Leaf(m) =>
      LeafProgress(input, w, m, cur, vars);
    case Seq(a, b) =>
      HolderProgress(input, w, a, cur, vars);
      TotalBitsIsSum(a);
      var ra := HolderRef(input, w, a, cur, vars);
      if ra.Matched? {
        HolderProgress(input, w, b, ra.cur, ra.vars);
        TotalBitsIsSum(b);
      }
  }

  /** A variable that no extraction of the tree refers to is left alone,
      whether the tree completes or stops at a mismatch. */
  lemma {:induction false} HolderFrame(input: seq<nat>, w: nat, h: Holder, cur: Cursor, vars: seq<nat>, s: nat)
    requires SlotsFit(h, |vars|) && s < |vars| && s !in Slots(h)
    ensures HolderRef(input, w, h, cur, vars).vars[s] == vars[s]
  {
    match h
    case Leaf(m) =>
      LeafFrame(input, w, m, cur, vars, s);
    case Seq(a, b) =>
      HolderFrame(input, w, a, cur, vars, s);
      var ra := HolderRef(input, w, a, cur, vars);
      if ra.Matched? {
        HolderFrame(input, w, b, ra.cur, ra.vars, s);
      }
  }

  /** Extractions are not rolled back: when the first part of a sequence
      completes and the second part then mismatches, every variable the
      second part does not extract into keeps what the first part stored. */
  lemma EarlierExtractionsPersist(input: seq<nat>, w: nat, a: Holder, b: Holder, cur: Cursor, vars: seq<nat>,
                                  s: nat)
    requires SlotsFit(a, |vars|) && SlotsFit(b, |vars|) && s < |vars| && s !in Slots(b)
    requires HolderRef(input, w, a, cur, vars).Matched?
    ensures var r := HolderRef(input, w, Seq(a, b), cur, vars);
            r.vars[s] == HolderRef(input, w, a, cur, vars).vars[s]
  {
    var ra := HolderRef(input, w, a, cur, vars);
    HolderFrame(input, w, b, ra.cur, ra.vars, s);
  }
}
