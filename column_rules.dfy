/** The integer rules BoardView uses to pick a column and a scroll position. */
module ColumnRules {

  /** Integer.MAX_VALUE: the starting minimum of getClosestColumn. */
  const INT_MAX: int := 0x7fff_ffff

  /** Java's int division by 2, which truncates toward zero (Dafny's / on
      int does not for negative operands). */
  function Half(a: int): (q: int)
    ensures a >= 0 ==> 0 <= a - 2 * q <= 1
    ensures a < 0 ==> -1 <= a - 2 * q <= 0
  {
    if a >= 0 then a / 2 else -((-a) / 2)
  }

  /** Math.abs on int. */
  function Abs(x: int): (r: nat)
    ensures r == x || r == -x
  {
    if x < 0 then -x else x
  }

  /** scrollToColumn's target: the scroll position that centres a column of
      the given left edge and width in a view of viewWidth, clamped first to
      at least 0 and then to at most maxScroll. */
  function ScrollTarget(left: int, viewWidth: int, columnWidth: int, maxScroll: int): (x: int)
    ensures x <= maxScroll
    ensures maxScroll >= 0 ==> x >= 0
    ensures var centred := left - Half(viewWidth - columnWidth);
      && (0 <= centred <= maxScroll ==> x == centred)
      && (centred < 0 ==> x == if maxScroll < 0 then maxScroll else 0)
      && (centred > maxScroll ==> x == maxScroll)
  {
    var centred := left - Half(viewWidth - columnWidth);
    var atLeastZero := if centred < 0 then 0 else centred;
    if atLeastZero > maxScroll then maxScroll else atLeastZero
  }

  /** The column onFling scrolls to. A fling with negative velocity moves to
      the next column unless the view has already scrolled back past where
      the touch started; any other fling moves to the previous column unless
      the view has already scrolled forward. The result is clamped to
      [0, size - 1]: 0 when the computed column is negative, otherwise size - 1
      when it is past the end (so -1 when size is 0). */
  function FlingTarget(current: int, size: int, velocityNegative: bool,
                       scrollX: int, startScrollX: int): (column: int)
    ensures size >= 1 ==> 0 <= column < size
    ensures 0 <= current < size && velocityNegative ==> current <= column <= current + 1
    ensures 0 <= current < size && !velocityNegative ==> current - 1 <= column <= current
    ensures 0 <= current < size && column != current ==>
      if velocityNegative then scrollX >= startScrollX else scrollX <= startScrollX
    ensures 0 <= current < size - 1 && velocityNegative && scrollX >= startScrollX ==>
      column == current + 1
    ensures 0 < current < size && !velocityNegative && scrollX <= startScrollX ==>
      column == current - 1
  {
    var next :=
      if velocityNegative then (if scrollX >= startScrollX then current + 1 else current)
      else (if scrollX <= startScrollX then current - 1 else current);
    if next < 0 || next > size - 1 then (if next < 0 then 0 else size - 1) else next
  }
}
