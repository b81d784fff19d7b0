/** utils/math.go: the half-open hit test that also converts to rectangle-local coordinates. */
module UtilsMath {
  import opened Geometry

  datatype Hit = Hit(intersects: bool, ix: int, iy: int)

  /** `IntersectsRect(mx, my, rect)`. */
  function IntersectsRect(mx: int, my: int, rect: Rect): (h: Hit)
    ensures h.intersects <==> Point(mx, my).In(rect)
    ensures h.intersects ==> h.ix == mx - rect.min.x && h.iy == my - rect.min.y
    ensures h.intersects ==> 0 <= h.ix < rect.Dx() && 0 <= h.iy < rect.Dy()
    ensures !h.intersects ==> h.ix == -1 && h.iy == -1
  {
    if mx >= rect.min.x && my >= rect.min.y && mx < rect.max.x && my < rect.max.y then
      Hit(true, mx - rect.min.x, my - rect.min.y)
    else
      Hit(false, -1, -1)
  }

  /** An empty rectangle is never hit. */
  lemma EmptyNeverIntersects(mx: int, my: int, rect: Rect)
    requires rect.Empty()
    ensures !IntersectsRect(mx, my, rect).intersects
  {
  }
}
