// Integer points and rectangles shared by every widget (the CPoint/CRect of the framework).

module Geometry {

  datatype Option<T> = None | Some(value: T)

  /** An integer (x, y) pair, used both as a position and as an offset. */
  datatype Point = Point(x: int, y: int)

  /** A widget's footprint: its top-left corner and its size. */
  datatype Rect = Rect(topLeft: Point, size: Point)

  /** Component-wise `+=` of a point. */
  function Add(p: Point, d: Point): Point {
    Point(p.x + d.x, p.y + d.y)
  }

  function Negate(d: Point): Point {
    Point(-d.x, -d.y)
  }

  /** CView::move: the top-left corner travels by `delta`; the size is kept. */
  function Translate(r: Rect, delta: Point): (t: Rect)
    ensures t.size == r.size
    ensures t.topLeft.x - r.topLeft.x == delta.x && t.topLeft.y - r.topLeft.y == delta.y
  {
    Rect(Add(r.topLeft, delta), r.size)
  }

  /** Moving back by the opposite offset restores the rectangle. */
  lemma TranslateUndone(r: Rect, delta: Point)
    ensures Translate(Translate(r, delta), Negate(delta)) == r
  {
  }
}
