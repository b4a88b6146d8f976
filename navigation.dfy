/**
 * Pagination offsets for the search pages (`get_navigation_offsets`).
 *
 * The handlers call it with `offset1 = start`, `offset2 = end` and the page size as
 * `increment`. As in the source, each window's `topOffset` is derived from `offset2`
 * and its `bottomOffset` from `offset1`.
 */
module Navigation {

  /** One navigation target: the `top_offset` / `bottom_offset` pair of a link. */
  datatype Window = Window(topOffset: int, bottomOffset: int)

  /** The `offsets` dict: its "Previous" and "Next" entries. */
  datatype NavigationOffsets = NavigationOffsets(previous: Window, next: Window)

  /** Python's built-in `max` on two integers. */
  function Max(a: int, b: int): (m: int)
    ensures m >= a && m >= b
    ensures m == a || m == b
  {
    if a >= b then a else b
  }

  /** The window one page back is clamped at 0; the window one page ahead is shifted by `increment`. */
  function GetNavigationOffsets(offset1: int, offset2: int, increment: int): (r: NavigationOffsets)
    // "Previous" never goes below 0, and is the shifted offset whenever that is not negative
    ensures r.previous.topOffset >= 0 && r.previous.bottomOffset >= 0
    ensures offset2 - increment >= 0 ==> r.previous.topOffset + increment == offset2
    ensures offset2 - increment < 0 ==> r.previous.topOffset == 0
    ensures offset1 - increment >= 0 ==> r.previous.bottomOffset + increment == offset1
    ensures offset1 - increment < 0 ==> r.previous.bottomOffset == 0
    // "Next" is the current window moved forward by exactly one increment
    ensures r.next.topOffset - offset2 == increment && r.next.bottomOffset - offset1 == increment
  {
    NavigationOffsets(
      Window(Max(offset2 - increment, 0), Max(offset1 - increment, 0)),
      Window(offset2 + increment, offset1 + increment))
  }

  /** The "Next" window keeps the width of the current one. */
  lemma NextKeepsWidth(offset1: int, offset2: int, increment: int)
    ensures var r := GetNavigationOffsets(offset1, offset2, increment);
      r.next.topOffset - r.next.bottomOffset == offset2 - offset1
  {
  }

  /** With non-negative inputs, "Previous" never lies above the current window and "Next" never below it. */
  lemma PreviousBelowNextAbove(offset1: int, offset2: int, increment: int)
    requires offset1 >= 0 && offset2 >= 0 && increment >= 0
    ensures var r := GetNavigationOffsets(offset1, offset2, increment);
      r.previous.topOffset <= offset2 <= r.next.topOffset &&
      r.previous.bottomOffset <= offset1 <= r.next.bottomOffset
  {
  }

  /** Following "Next" and then "Previous" from a non-negative window returns to it. */
  lemma PreviousUndoesNext(offset1: int, offset2: int, increment: int)
    requires offset1 >= 0 && offset2 >= 0 && increment >= 0
    ensures var next := GetNavigationOffsets(offset1, offset2, increment).next;
      GetNavigationOffsets(next.bottomOffset, next.topOffset, increment).previous == Window(offset2, offset1)
  {
  }

  /** Following "Previous" and then "Next" returns to the current window unless the clamp at 0 fired. */
  lemma NextUndoesPrevious(offset1: int, offset2: int, increment: int)
    requires offset1 >= increment && offset2 >= increment
    ensures var previous := GetNavigationOffsets(offset1, offset2, increment).previous;
      GetNavigationOffsets(previous.bottomOffset, previous.topOffset, increment).next == Window(offset2, offset1)
  {
  }
}
