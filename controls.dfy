/**
 * The pure pieces of the control panel: the catalogue of algorithms the
 * slider steps through, the wrap-around step of that slider, and the label
 * shown next to the second counter.
 */
module Controls {

  /** The eight sorts, by the key the source selects them with. */
  datatype Algorithm = Bubble | Selection | Insertion | Merge | Quick | Heap | Radix | Counting

  /** The slider's catalogue, in display order. */
  const Catalogue: seq<Algorithm> := [Bubble, Selection, Insertion, Merge, Quick, Heap, Radix, Counting]

  /** JavaScript's `%` for a positive divisor: the remainder of division
      truncated toward zero, which takes the sign of the dividend. */
  function JsRem(a: int, b: int): (r: int)
    requires b > 0
    ensures -b < r < b
    ensures a >= 0 ==> r == a % b
    ensures a < 0 ==> r == -((-a) % b)
  {
    if a >= 0 then a % b else -((-a) % b)
  }

  /** The new slider position after a step of `direction` from `current`:
      `(current + direction + len) % len` with the source's `%`. */
  function WrapIndex(current: int, direction: int, len: int): int
    requires len > 0
  {
    JsRem(current + direction + len, len)
  }

  /** A step of one either way from a valid position lands on a valid
      position, and it is the next or previous one around the circle. */
  lemma WrapIndexStep(current: int, direction: int, len: int)
    requires len > 0 && 0 <= current < len && (direction == 1 || direction == -1)
    ensures 0 <= WrapIndex(current, direction, len) < len
    ensures direction == 1 ==> WrapIndex(current, direction, len) == if current == len - 1 then 0 else current + 1
    ensures direction == -1 ==> WrapIndex(current, direction, len) == if current == 0 then len - 1 else current - 1
  {
  }

  /** Stepping forward and then back returns to the start, and so does
      stepping back and then forward. */
  lemma WrapIndexInverse(current: int, len: int)
    requires len > 0 && 0 <= current < len
    ensures WrapIndex(WrapIndex(current, 1, len), -1, len) == current
    ensures WrapIndex(WrapIndex(current, -1, len), 1, len) == current
  {
    WrapIndexStep(current, 1, len);
    WrapIndexStep(current, -1, len);
    WrapIndexStep(WrapIndex(current, 1, len), -1, len);
    WrapIndexStep(WrapIndex(current, -1, len), 1, len);
  }

  /** The label of the second counter: insertion and merge sort move
      records by copying them, so their counter reads "Shifts". */
  function SwapsLabel(a: Algorithm): (text: string)
    ensures text == "Shifts" <==> a == Insertion || a == Merge
    ensures text == "Shifts" || text == "Swaps"
  {
    if a == Insertion || a == Merge then "Shifts" else "Swaps"
  }
}
