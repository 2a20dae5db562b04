/** The input stream: a sequence of w-bit unsigned elements read through a
    cursor (element index, bit offset from the left of that element).
 */
module Stream {
  import opened Bits

  /** Every element fits in w bits, and w is at least one bit. */
  ghost predicate ValidInput(input: seq<nat>, w: nat)
  {
    w >= 1 && forall k :: 0 <= k < |input| ==> input[k] < Pow2(w)
  }

  /** The shared cursor `(el_num, bit_from)` of the drive loop. */
  datatype Cursor = Cursor(el: nat, bit: nat)

  /** Absolute bit position of a cursor in the stream. */
  function Pos(w: nat, c: Cursor): nat
  {
    c.el * w + c.bit
  }

  /** The cursor update of the drive loop after n bits were consumed: move
      the bit offset, and when the element is exhausted reset it to 0 and
      go to the next element. */
  function Step(w: nat, c: Cursor, n: nat): Cursor
  {
    if c.bit + n >= w then Cursor(c.el + 1, 0) else Cursor(c.el, c.bit + n)
  }

  /** One bit forward. */
  function Advance(w: nat, c: Cursor): Cursor
  {
    Step(w, c, 1)
  }

  /** The stream bit under a cursor (0 past the end of the input). */
  function StreamBit(input: seq<nat>, w: nat, c: Cursor): (b: nat)
    ensures b < 2
  {
    if c.el < |input| && c.bit < w then ElBit(input[c.el], w, c.bit) else 0
  }

  /** The stream bit at an absolute position: the elements are laid end to
      end, w bits each (0 past the end of the input). */
  function BitAt(input: seq<nat>, w: nat, p: nat): (b: nat)
    requires w >= 1
    ensures b < 2
    decreases |input|
  {
    if |input| == 0 then 0
    else if p < w then ElBit(input[0], w, p)
    else BitAt(input[1..], w, p - w)
  }

  /** A step within one element moves the absolute position by exactly n,
      keeps the bit offset inside the element, and moves to the next
      element exactly when the current one is exhausted. */
  lemma StepPos(w: nat, c: Cursor, n: nat)
    requires c.bit < w && c.bit + n <= w
    ensures Pos(w, Step(w, c, n)) == Pos(w, c) + n
    ensures Step(w, c, n).bit < w
    ensures Step(w, c, n).el == c.el + 1 <==> c.bit + n == w
    ensures Step(w, c, n).el == c.el <==> c.bit + n < w
  {
    if c.bit + n == w {
      assert (c.el + 1) * w == c.el * w + w;
    }
  }

  /** The stream bit under a cursor is the bit at its absolute position. */
  lemma {:induction false} StreamBitAt(input: seq<nat>, w: nat, c: Cursor)
    requires c.bit < w
    ensures StreamBit(input, w, c) == BitAt(input, w, Pos(w, c))
    decreases c.el
  {
    if |input| > 0 && c.el > 0 {
      var c' := Cursor(c.el - 1, c.bit);
      assert Pos(w, c) == Pos(w, c') + w;
      StreamBitAt(input[1..], w, c');
    }
  }

  /** A cursor before the end of an n-element input points at one of its
      elements. */
  lemma InBounds(w: nat, c: Cursor, n: nat)
    requires c.bit < w
    requires Pos(w, c) < n * w
    ensures c.el < n
  {
  }
}
