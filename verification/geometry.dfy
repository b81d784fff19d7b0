/** The parts of Go's `image` package the compositor relies on: integer
    points and half-open rectangles. */
module Geometry {
  import opened Ints

  datatype Point = Point(x: int, y: int) {
    function Add(q: Point): Point { Point(x + q.x, y + q.y) }
    function Sub(q: Point): Point { Point(x - q.x, y - q.y) }

    /** `Point.In`: the rectangle is half-open, Min inclusive and Max exclusive. */
    predicate In(r: Rect) {
      r.min.x <= x < r.max.x && r.min.y <= y < r.max.y
    }
  }

  const Origin := Point(0, 0)

  datatype Rect = Rect(min: Point, max: Point) {
    function Dx(): int { max.x - min.x }
    function Dy(): int { max.y - min.y }
    predicate Empty() { min.x >= max.x || min.y >= max.y }
    /** Min <= Max on both axes, as `image.Rect` guarantees. */
    predicate Canonical() { min.x <= max.x && min.y <= max.y }
    function Add(p: Point): Rect { Rect(min.Add(p), max.Add(p)) }
    function Sub(p: Point): Rect { Rect(min.Sub(p), max.Sub(p)) }

    /** `Rectangle.Intersect`: clamp each side, and the zero rectangle when nothing is left. */
    function Intersect(s: Rect): (r: Rect)
      ensures r.Empty() ==> r == ZR
      ensures forall p: Point :: p.In(r) <==> p.In(this) && p.In(s)
      ensures !r.Empty() ==> r.Canonical()
    {
      var c := Rect(Point(Max(min.x, s.min.x), Max(min.y, s.min.y)),
                    Point(Min(max.x, s.max.x), Min(max.y, s.max.y)));
      if c.Empty() then ZR else c
    }
  }

  /** The zero rectangle. */
  const ZR := Rect(Origin, Origin)

  /** `image.Rect(x0, y0, x1, y1)`: the corners are swapped where needed so that Min <= Max. */
  function MakeRect(x0: int, y0: int, x1: int, y1: int): (r: Rect)
    ensures r.Canonical()
    ensures {r.min.x, r.max.x} == {x0, x1} && {r.min.y, r.max.y} == {y0, y1}
    ensures x0 <= x1 && y0 <= y1 ==> r == Rect(Point(x0, y0), Point(x1, y1))
  {
    Rect(Point(Min(x0, x1), Min(y0, y1)), Point(Max(x0, x1), Max(y0, y1)))
  }

  /** `image.Pt`. */
  function Pt(x: int, y: int): Point { Point(x, y) }

  lemma EmptyHasNoPoints(r: Rect, p: Point)
    requires r.Empty()
    ensures !p.In(r)
  {
  }

  /** Translating a point and a rectangle by the same vector keeps membership. */
  lemma InTranslated(p: Point, r: Rect, d: Point)
    ensures p.Add(d).In(r.Add(d)) <==> p.In(r)
  {
  }
}
