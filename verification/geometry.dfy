/**
 Screen geometry of the hot corner: the Win32 `POINT` and `RECT` records, the
 `PtInRect` containment test and the fixed `HOT_CORNER` rectangle.
 */
module Geometry {

  /** A screen position; Win32 stores both coordinates as 32-bit signed integers. */
  datatype Point = Point(x: int, y: int)

  /** An axis-aligned rectangle given by its left, top, right and bottom edges. */
  datatype Rect = Rect(left: int, top: int, right: int, bottom: int)

  /** The rectangle that counts as the hot corner: (0,0)-(20,20). */
  const HOT_CORNER: Rect := Rect(0, 0, 20, 20)

  /**
   `PtInRect`: the left and top edges belong to the rectangle, the right and
   bottom edges do not.
   */
  function Contains(r: Rect, p: Point): (inside: bool)
    ensures r.top <= p.y < r.bottom ==> (p.x == r.left < r.right ==> inside)
    ensures r.left <= p.x < r.right ==> (p.y == r.top < r.bottom ==> inside)
    ensures p.x == r.right || p.y == r.bottom ==> !inside
    ensures p.x < r.left || p.y < r.top ==> !inside
  {
    r.left <= p.x < r.right && r.top <= p.y < r.bottom
  }

  /** The four corners of `HOT_CORNER` and their neighbours under the convention. */
  lemma HotCornerBoundary()
    ensures Contains(HOT_CORNER, Point(0, 0))
    ensures Contains(HOT_CORNER, Point(19, 0)) && Contains(HOT_CORNER, Point(0, 19))
    ensures Contains(HOT_CORNER, Point(19, 19))
    ensures !Contains(HOT_CORNER, Point(20, 0)) && !Contains(HOT_CORNER, Point(0, 20))
    ensures !Contains(HOT_CORNER, Point(20, 20))
    ensures !Contains(HOT_CORNER, Point(-1, 0)) && !Contains(HOT_CORNER, Point(0, -1))
  {
  }

  /** A point beyond any edge of `HOT_CORNER` is never in it. */
  lemma OutsideHotCorner(p: Point)
    requires p.x < 0 || p.y < 0 || 20 <= p.x || 20 <= p.y
    ensures !Contains(HOT_CORNER, p)
  {
  }
}
