/** model/format.go: the BGRA image used for surface caches and the screen.
    Pixels are stored B, G, R, A and read back as RGBA colours. */
module Pixels {
  import opened Wrappers
  import opened Ints
  import opened Geometry

  /** The wl_shm formats the compositor distinguishes. */
  const FormatARGB := 0
  const FormatXRGB := 1

  datatype RGBA = RGBA(r: int, g: int, b: int, a: int)

  const Transparent := RGBA(0, 0, 0, 0)

  predicate IsColor(c: RGBA) { IsByte(c.r) && IsByte(c.g) && IsByte(c.b) && IsByte(c.a) }

  datatype BGRA = BGRA(pix: seq<int>, rect: Rect, stride: int)

  /** `&BGRA{}`. */
  const ZeroImage := BGRA([], ZR, 0)

  /** Every pixel of the rectangle lies inside Pix, and rows are at least a row of pixels apart. */
  predicate Valid(img: BGRA)
  {
    img.rect.Canonical() && 4 * img.rect.Dx() <= img.stride
    && (img.rect.Dx() > 0 && img.rect.Dy() > 0 ==>
          (img.rect.Dy() - 1) * img.stride + 4 * img.rect.Dx() <= |img.pix|)
  }

  /** `PixOffset`: the index of the first byte of pixel (x, y). */
  function PixOffset(img: BGRA, x: int, y: int): int
  {
    (y - img.rect.min.y) * img.stride + (x - img.rect.min.x) * 4
  }

  lemma MulMonotone(a: int, b: int, c: int)
    requires a <= b && 0 <= c
    ensures a * c <= b * c
  {
    assert (b - a) * c >= 0;
  }

  /** A row block of `stride` bytes starting at row a ends before row b starts. */
  lemma RowBefore(a: int, b: int, stride: int)
    requires a < b && 0 <= stride
    ensures a * stride + stride <= b * stride
  {
    MulMonotone(a + 1, b, stride);
    assert (a + 1) * stride == a * stride + stride;
  }

  /** The four bytes of an in-bounds pixel exist. */
  lemma OffsetInBounds(img: BGRA, p: Point)
    requires Valid(img) && p.In(img.rect)
    ensures 0 <= PixOffset(img, p.x, p.y) && PixOffset(img, p.x, p.y) + 4 <= |img.pix|
  {
    var dy := p.y - img.rect.min.y;
    MulMonotone(dy, img.rect.Dy() - 1, img.stride);
    assert dy * img.stride >= 0;
  }

  /** Distinct pixels own disjoint bytes. */
  lemma OffsetsDisjoint(img: BGRA, p: Point, q: Point)
    requires Valid(img) && p.In(img.rect) && q.In(img.rect) && p != q
    ensures PixOffset(img, p.x, p.y) + 4 <= PixOffset(img, q.x, q.y)
         || PixOffset(img, q.x, q.y) + 4 <= PixOffset(img, p.x, p.y)
  {
    var dp := p.y - img.rect.min.y;
    var dq := q.y - img.rect.min.y;
    if dp < dq {
      RowBefore(dp, dq, img.stride);
    } else if dq < dp {
      RowBefore(dq, dp, img.stride);
    }
  }

  /** `EmptyBGRA`: a zeroed image with a tight stride.  `make` panics on a negative length. */
  function EmptyBGRA(size: Rect): (img: BGRA)
    requires size.Dy() * size.Dx() >= 0
    ensures img.rect == size && img.stride == 4 * size.Dx()
    ensures |img.pix| == 4 * size.Dx() * size.Dy()
    ensures forall i :: 0 <= i < |img.pix| ==> img.pix[i] == 0
    ensures size.Canonical() ==> Valid(img)
  {
    var r := BGRA(seq(size.Dy() * size.Dx() * 4, _ => 0), size, size.Dx() * 4);
    assert size.Canonical() && size.Dx() > 0 && size.Dy() > 0 ==>
      (size.Dy() - 1) * (4 * size.Dx()) + 4 * size.Dx() == 4 * size.Dx() * size.Dy();
    r
  }

  /** `NewBGRA`: copies exactly Dy * stride bytes; slicing panics if the source is shorter. */
  function NewBGRA(pixels: seq<int>, rect: Rect, stride: int): (img: BGRA)
    requires 0 <= rect.Dy() * stride <= |pixels|
    ensures img.rect == rect && img.stride == stride
    ensures |img.pix| == rect.Dy() * stride
    ensures forall i :: 0 <= i < |img.pix| ==> img.pix[i] == pixels[i]
  {
    BGRA(pixels[..rect.Dy() * stride], rect, stride)
  }

  /** `At` (and `AtRaw`, which is the same code): transparent outside the rectangle. */
  function At(img: BGRA, p: Point): (c: RGBA)
    requires Valid(img)
  {
    if !p.In(img.rect) then Transparent
    else
      OffsetInBounds(img, p);
      var n := PixOffset(img, p.x, p.y);
      RGBA(img.pix[n + 2], img.pix[n + 1], img.pix[n], img.pix[n + 3])
  }

  /** `SetRGBA`: stores B, G, R, A at the pixel; a point outside the rectangle is ignored. */
  function SetRGBA(img: BGRA, p: Point, c: RGBA): (r: BGRA)
    requires Valid(img)
    ensures r.rect == img.rect && r.stride == img.stride && |r.pix| == |img.pix| && Valid(r)
    ensures !p.In(img.rect) ==> r == img
    ensures p.In(img.rect) ==> At(r, p) == c
    ensures forall q: Point :: q != p ==> At(r, q) == At(img, q)
    ensures p.In(img.rect) ==> forall k :: 0 <= k < |img.pix| && !(PixOffset(img, p.x, p.y) <= k < PixOffset(img, p.x, p.y) + 4)
                                   ==> r.pix[k] == img.pix[k]
  {
    if !p.In(img.rect) then img
    else
      OffsetInBounds(img, p);
      var n := PixOffset(img, p.x, p.y);
      var r := img.(pix := img.pix[n := c.b][n + 1 := c.g][n + 2 := c.r][n + 3 := c.a]);
      assert forall q: Point :: q != p && q.In(img.rect) ==> At(r, q) == At(img, q) by {
        forall q: Point | q != p && q.In(img.rect) ensures At(r, q) == At(img, q) {
          OffsetsDisjoint(img, p, q);
          OffsetInBounds(img, q);
        }
      }
      r
  }

  lemma OffsetShift(qy: int, qx: int, ly: int, lx: int, my: int, mx: int, stride: int)
    ensures (qy - ly) * stride + (qx - lx) * 4 + ((ly - my) * stride + (lx - mx) * 4)
         == (qy - my) * stride + (qx - mx) * 4
  {
    assert (qy - ly) * stride + (ly - my) * stride == (qy - my) * stride;
  }

  /** The view starting at the first pixel of a non-empty b inside the image is itself valid
      and reads the same pixels. */
  lemma SubImageView(img: BGRA, b: Rect)
    requires Valid(img) && !b.Empty() && b.Canonical()
    requires forall q: Point :: q.In(b) ==> q.In(img.rect)
    ensures 0 <= PixOffset(img, b.min.x, b.min.y) <= |img.pix|
    ensures var r := BGRA(img.pix[PixOffset(img, b.min.x, b.min.y)..], b, img.stride);
      Valid(r) && forall q: Point :: q.In(b) ==> At(r, q) == At(img, q)
  {
    assert b.min.In(b);
    OffsetInBounds(img, b.min);
    var p := PixOffset(img, b.min.x, b.min.y);
    var r := BGRA(img.pix[p..], b, img.stride);
    var last := Point(b.max.x - 1, b.max.y - 1);
    assert last.In(b);
    OffsetInBounds(img, last);
    OffsetShift(last.y, last.x, b.min.y, b.min.x, img.rect.min.y, img.rect.min.x, img.stride);
    assert Valid(r);
    forall q: Point | q.In(b) ensures At(r, q) == At(img, q) {
      OffsetShift(q.y, q.x, b.min.y, b.min.x, img.rect.min.y, img.rect.min.x, img.stride);
      OffsetInBounds(img, q);
    }
  }

  /** `SubImage`: a view of the intersection; an empty intersection gives the zero image. */
  function SubImage(img: BGRA, bounds: Rect): (r: BGRA)
    requires Valid(img)
    ensures Valid(r)
    ensures bounds.Intersect(img.rect).Empty() ==> r == ZeroImage
    ensures !bounds.Intersect(img.rect).Empty() ==> r.rect == bounds.Intersect(img.rect) && r.stride == img.stride
    ensures forall p: Point :: p.In(r.rect) ==> At(r, p) == At(img, p)
  {
    var b := bounds.Intersect(img.rect);
    if b.Empty() then ZeroImage
    else
      SubImageView(img, b);
      BGRA(img.pix[PixOffset(img, b.min.x, b.min.y)..], b, img.stride)
  }

  /** `clip`: shrinks r to the destination and to the source placed at r.Min - sp, and
      moves sp by the same amount as r.Min. */
  function Clip(dst: Rect, r: Rect, src: Rect, sp: Point): (res: (Rect, Point))
    ensures forall p: Point :: p.In(res.0) <==> p.In(r) && p.In(dst) && p.In(src.Add(r.min.Sub(sp)))
    ensures res.1 == sp.Add(res.0.min.Sub(r.min))
  {
    var orig := r.min;
    var r1 := r.Intersect(dst);
    var r2 := r1.Intersect(src.Add(orig.Sub(sp)));
    var dx := r2.min.x - orig.x;
    var dy := r2.min.y - orig.y;
    if dx == 0 && dy == 0 then (r2, sp) else (r2, Point(sp.x + dx, sp.y + dy))
  }

  /** The source point that lands on p: clipping keeps p - r.Min + sp unchanged. */
  lemma ClipKeepsSourcePoint(dst: Rect, r: Rect, src: Rect, sp: Point, p: Point)
    requires p.In(Clip(dst, r, src, sp).0)
    ensures var (cr, csp) := Clip(dst, r, src, sp);
      p.Sub(cr.min).Add(csp) == p.Sub(r.min).Add(sp) && p.Sub(cr.min).Add(csp).In(src)
  {
  }

  const M := 0xFFFF

  /** One channel of `DrawCopyOver`, in uint32 arithmetic: `>> 8` then `uint8(...)`. */
  function Blend(d: int, s: int, sa: int): (r: int)
    requires IsByte(d) && IsByte(s) && IsByte(sa)
    ensures IsByte(r)
  {
    var a := (M - sa * 0x101) * 0x101;
    ((d * a / M + s * 0x101) / 256) % U8
  }

  /** No intermediate value of `Blend` leaves uint32, so unbounded arithmetic is exact. */
  lemma BlendNoOverflow(d: int, s: int, sa: int)
    requires IsByte(d) && IsByte(s) && IsByte(sa)
    ensures var a := (M - sa * 0x101) * 0x101;
      0 <= a < U32 && 0 <= d * a < U32 && 0 <= d * a / M + s * 0x101 < U32
  {
    var a := BlendAlphaBound(sa);
    BlendProductBound(d, a);
    BlendSumBound(d * a, s);
  }

  lemma BlendAlphaBound(sa: int) returns (a: int)
    requires IsByte(sa)
    ensures a == (M - sa * 0x101) * 0x101 && 0 <= a <= M * 0x101
  {
    a := (M - sa * 0x101) * 0x101;
    MulMonotone(sa, 255, 0x101);
    MulMonotone(M - sa * 0x101, M, 0x101);
    MulMonotone(0, M - sa * 0x101, 0x101);
  }

  lemma BlendProductBound(d: int, a: int)
    requires IsByte(d) && 0 <= a <= M * 0x101
    ensures 0 <= d * a <= 255 * (M * 0x101) && d * a < U32
  {
    MulMonotone(d, 255, a);
    MulMonotone(a, M * 0x101, 255);
    MulMonotone(0, d, a);
  }

  lemma BlendSumBound(p: int, s: int)
    requires 0 <= p <= 255 * (M * 0x101) && IsByte(s)
    ensures 0 <= p / M + s * 0x101 < U32
  {
    assert p / M <= 255 * 0x101;
    MulMonotone(s, 255, 0x101);
  }

  /** An opaque source channel replaces the destination. */
  lemma BlendOpaque(d: int, s: int)
    requires IsByte(d) && IsByte(s)
    ensures Blend(d, s, 255) == s
  {
  }

  /** A fully transparent, all-zero source keeps the destination. */
  lemma BlendClear(d: int)
    requires IsByte(d)
    ensures Blend(d, 0, 0) == d
  {
    assert d * (M * 0x101) == (d * 0x101) * M;
    assert d * (M * 0x101) / M == d * 0x101;
  }

  /** `DrawCopyOver` for one pixel: each byte blended with the source alpha. */
  function BlendPixel(d: RGBA, s: RGBA): RGBA
    requires IsColor(d) && IsColor(s)
  {
    RGBA(Blend(d.r, s.r, s.a), Blend(d.g, s.g, s.a), Blend(d.b, s.b, s.a), Blend(d.a, s.a, s.a))
  }

  predicate AllColors(img: BGRA) { Valid(img) && AllBytes(img.pix) }

  lemma AtIsColor(img: BGRA, p: Point)
    requires AllColors(img)
    ensures IsColor(At(img, p))
  {
    if p.In(img.rect) {
      OffsetInBounds(img, p);
    }
  }

  /** The colour of q after blending, when `selected` says q is in the blended area. */
  function Blended(dst: BGRA, src: BGRA, delta: Point, q: Point, selected: bool): RGBA
    requires AllColors(dst) && AllColors(src)
  {
    if q.In(dst.rect) && selected then
      AtIsColor(dst, q);
      AtIsColor(src, q.Add(delta));
      BlendPixel(At(dst, q), At(src, q.Add(delta)))
    else At(dst, q)
  }

  /** Blends one row of the clipped rectangle, left to right from x. */
  function BlendRow(dst: BGRA, src: BGRA, delta: Point, y: int, x: int, x1: int): (r: BGRA)
    requires AllColors(dst) && AllColors(src)
    ensures AllColors(r) && r.rect == dst.rect && r.stride == dst.stride && |r.pix| == |dst.pix|
    ensures forall q: Point :: At(r, q) == Blended(dst, src, delta, q, q.y == y && x <= q.x < x1)
    decreases x1 - x
  {
    if x >= x1 then dst
    else
      var p := Point(x, y);
      AtIsColor(dst, p);
      AtIsColor(src, p.Add(delta));
      var c := BlendPixel(At(dst, p), At(src, p.Add(delta)));
      var d1 := SetRGBA(dst, p, c);
      assert AllBytes(d1.pix) by {
        if p.In(dst.rect) { OffsetInBounds(dst, p); }
      }
      BlendRow(d1, src, delta, y, x + 1, x1)
  }

  /** Blends rows y .. y1 - 1 of the column span [x0, x1). */
  function BlendRows(dst: BGRA, src: BGRA, delta: Point, y: int, y1: int, x0: int, x1: int): (r: BGRA)
    requires AllColors(dst) && AllColors(src)
    ensures AllColors(r) && r.rect == dst.rect && r.stride == dst.stride && |r.pix| == |dst.pix|
    ensures forall q: Point :: At(r, q) == Blended(dst, src, delta, q, y <= q.y < y1 && x0 <= q.x < x1)
    decreases y1 - y
  {
    if y >= y1 then dst
    else BlendRows(BlendRow(dst, src, delta, y, x0, x1), src, delta, y + 1, y1, x0, x1)
  }

  /** `DrawCopyOver`: every pixel p of the clipped rectangle is blended with the source
      pixel p - r.Min + sp; no other pixel changes.  Go walks the rows backwards when the
      two images could overlap in memory; images here are values, so the order does not
      change the result. */
  function DrawCopyOver(dst: BGRA, r: Rect, src: BGRA, sp: Point): (res: BGRA)
    requires AllColors(dst) && AllColors(src)
    ensures AllColors(res) && res.rect == dst.rect && res.stride == dst.stride && |res.pix| == |dst.pix|
    ensures forall p: Point :: At(res, p) == Blended(dst, src, sp.Sub(r.min), p, p.In(Clip(dst.rect, r, src.rect, sp).0))
  {
    var (cr, csp) := Clip(dst.rect, r, src.rect, sp);
    if cr.Empty() then dst
    else
      assert csp.Sub(cr.min) == sp.Sub(r.min);
      BlendRows(dst, src, sp.Sub(r.min), cr.min.y, cr.max.y, cr.min.x, cr.max.x)
  }

  lemma BlendPixelOpaque(d: RGBA, s: RGBA)
    requires IsColor(d) && IsColor(s) && s.a == 255
    ensures BlendPixel(d, s) == s
  {
    BlendOpaque(d.r, s.r);
    BlendOpaque(d.g, s.g);
    BlendOpaque(d.b, s.b);
    BlendOpaque(d.a, s.a);
  }

  lemma BlendPixelClear(d: RGBA)
    requires IsColor(d)
    ensures BlendPixel(d, Transparent) == d
  {
    BlendClear(d.r);
    BlendClear(d.g);
    BlendClear(d.b);
    BlendClear(d.a);
  }

  /** Over an opaque source pixel, `DrawCopyOver` copies the source. */
  lemma DrawCopyOverOpaque(dst: BGRA, r: Rect, src: BGRA, sp: Point, p: Point)
    requires AllColors(dst) && AllColors(src)
    requires p.In(Clip(dst.rect, r, src.rect, sp).0)
    requires At(src, p.Add(sp.Sub(r.min))).a == 255
    ensures At(DrawCopyOver(dst, r, src, sp), p) == At(src, p.Add(sp.Sub(r.min)))
  {
    var res := DrawCopyOver(dst, r, src, sp);
    assert At(res, p) == Blended(dst, src, sp.Sub(r.min), p, true);
    AtIsColor(src, p.Add(sp.Sub(r.min)));
    AtIsColor(dst, p);
    BlendPixelOpaque(At(dst, p), At(src, p.Add(sp.Sub(r.min))));
  }

  /** Where the source pixel is all zero, `DrawCopyOver` leaves the destination as it was. */
  lemma DrawCopyOverClear(dst: BGRA, r: Rect, src: BGRA, sp: Point, p: Point)
    requires AllColors(dst) && AllColors(src)
    requires At(src, p.Add(sp.Sub(r.min))) == Transparent
    ensures At(DrawCopyOver(dst, r, src, sp), p) == At(dst, p)
  {
    var res := DrawCopyOver(dst, r, src, sp);
    var inside := p.In(Clip(dst.rect, r, src.rect, sp).0);
    assert At(res, p) == Blended(dst, src, sp.Sub(r.min), p, inside);
    if inside && p.In(dst.rect) {
      AtIsColor(dst, p);
      BlendPixelClear(At(dst, p));
    }
  }

  /** One row of `Update`: the byte span [start, end) of row sy, in absolute coordinates. */
  function SpanStart(img: BGRA, damage: Rect, sy: int): int
  {
    sy * img.stride + Min(img.rect.max.x, damage.min.x) * 4
  }

  function SpanEnd(img: BGRA, damage: Rect, sy: int): int
  {
    sy * img.stride + Min(img.rect.max.x, damage.max.x) * 4
  }

  function FirstRow(img: BGRA, damage: Rect): int { Min(img.rect.max.y, damage.min.y) }

  function EndRow(img: BGRA, damage: Rect): int { Min(img.rect.max.y, damage.max.y) }

  /** Both slices of the row are in range (Go panics otherwise). */
  predicate RowOk(img: BGRA, pixels: seq<int>, damage: Rect, sy: int)
  {
    0 <= SpanStart(img, damage, sy) <= SpanEnd(img, damage, sy)
    && SpanEnd(img, damage, sy) <= |img.pix| && SpanEnd(img, damage, sy) <= |pixels|
  }

  predicate InSpans(img: BGRA, damage: Rect, k: int)
  {
    exists sy :: FirstRow(img, damage) <= sy < EndRow(img, damage)
      && SpanStart(img, damage, sy) <= k < SpanEnd(img, damage, sy)
  }

  predicate AllRowsOk(img: BGRA, pixels: seq<int>, damage: Rect)
  {
    forall sy :: FirstRow(img, damage) <= sy < EndRow(img, damage) ==> RowOk(img, pixels, damage, sy)
  }

  lemma SpanInRange(img: BGRA, pixels: seq<int>, damage: Rect, k: int)
    requires AllRowsOk(img, pixels, damage) && InSpans(img, damage, k)
    ensures 0 <= k < |pixels| && k < |img.pix|
  {
    var sy :| FirstRow(img, damage) <= sy < EndRow(img, damage)
      && SpanStart(img, damage, sy) <= k < SpanEnd(img, damage, sy);
    assert RowOk(img, pixels, damage, sy);
  }

  /** `Update`: copies the damaged byte span of each damaged row from pixels.  The stride
      argument is ignored, and coordinates are not made relative to Rect.Min. */
  function Update(img: BGRA, pixels: seq<int>, damage: Rect, stride: int): (r: Result<BGRA>)
    ensures img.rect.max.x < damage.min.x ==> r == Ok(img)
    ensures r.Err? <==> img.rect.max.x >= damage.min.x && !AllRowsOk(img, pixels, damage)
    ensures r.Ok? ==> r.value.rect == img.rect && r.value.stride == img.stride && |r.value.pix| == |img.pix|
    ensures r.Ok? ==> forall k :: 0 <= k < |img.pix| && InSpans(img, damage, k) ==> k < |pixels| && r.value.pix[k] == pixels[k]
    ensures r.Ok? ==> forall k :: 0 <= k < |img.pix| && !InSpans(img, damage, k) ==> r.value.pix[k] == img.pix[k]
  {
    if img.rect.max.x < damage.min.x then Ok(img)
    else if !AllRowsOk(img, pixels, damage) then Err(Fault)
    else
      assert forall k :: InSpans(img, damage, k) ==> k < |pixels| by {
        forall k | InSpans(img, damage, k) ensures k < |pixels| {
          SpanInRange(img, pixels, damage, k);
        }
      }
      Ok(img.(pix := seq(|img.pix|, k requires 0 <= k < |img.pix| =>
        if InSpans(img, damage, k) then SpanInRange(img, pixels, damage, k); pixels[k] else img.pix[k])))
  }

  /** An image at the origin with a tight stride, as the surface cache is. */
  predicate Tight(img: BGRA)
  {
    Valid(img) && img.rect.min == Origin && img.stride == 4 * img.rect.Dx()
    && |img.pix| == img.stride * img.rect.Dy()
  }

  /** Damage clamped into the image, as `read_buffer` clamps it. */
  predicate Inside(damage: Rect, img: BGRA)
  {
    damage.Canonical() && 0 <= damage.min.x && damage.max.x <= img.rect.max.x
    && 0 <= damage.min.y && damage.max.y <= img.rect.max.y
  }

  lemma TightRowsOk(img: BGRA, pixels: seq<int>, damage: Rect)
    requires Tight(img) && |pixels| == |img.pix| && Inside(damage, img)
    ensures AllRowsOk(img, pixels, damage)
  {
    forall sy | FirstRow(img, damage) <= sy < EndRow(img, damage)
      ensures RowOk(img, pixels, damage, sy)
    {
      MulMonotone(sy + 1, img.rect.Dy(), img.stride);
      MulMonotone(0, sy, img.stride);
    }
  }

  /** The bytes of a damaged pixel are in its own row's span. */
  lemma DamagedPixelInSpan(img: BGRA, damage: Rect, p: Point, k: int)
    requires Tight(img) && Inside(damage, img) && p.In(damage)
    requires PixOffset(img, p.x, p.y) <= k < PixOffset(img, p.x, p.y) + 4
    ensures InSpans(img, damage, k)
  {
    assert SpanStart(img, damage, p.y) <= k < SpanEnd(img, damage, p.y);
  }

  /** The bytes of a pixel outside the damage are in no span. */
  lemma CleanPixelOutsideSpans(img: BGRA, damage: Rect, p: Point, k: int)
    requires Tight(img) && Inside(damage, img) && p.In(img.rect) && !p.In(damage)
    requires PixOffset(img, p.x, p.y) <= k < PixOffset(img, p.x, p.y) + 4
    ensures !InSpans(img, damage, k)
  {
    if InSpans(img, damage, k) {
      var sy :| FirstRow(img, damage) <= sy < EndRow(img, damage)
        && SpanStart(img, damage, sy) <= k < SpanEnd(img, damage, sy);
      if sy < p.y {
        RowBefore(sy, p.y, img.stride);
      } else if sy > p.y {
        RowBefore(p.y, sy, img.stride);
      }
    }
  }

  /** For a tight image and damage inside it, `Update` succeeds, every damaged pixel then
      reads as in the new buffer, and every other pixel keeps its colour. */
  lemma UpdatePatchesDamage(img: BGRA, pixels: seq<int>, damage: Rect, stride: int, p: Point)
    requires Tight(img) && |pixels| == |img.pix| && Inside(damage, img)
    ensures Update(img, pixels, damage, stride).Ok?
    ensures p.In(damage) ==>
      At(Update(img, pixels, damage, stride).value, p) == At(BGRA(pixels, img.rect, img.stride), p)
    ensures !p.In(damage) ==> At(Update(img, pixels, damage, stride).value, p) == At(img, p)
  {
    TightRowsOk(img, pixels, damage);
    if p.In(img.rect) {
      OffsetInBounds(img, p);
      var n := PixOffset(img, p.x, p.y);
      if p.In(damage) {
        DamagedPixelInSpan(img, damage, p, n);
        DamagedPixelInSpan(img, damage, p, n + 1);
        DamagedPixelInSpan(img, damage, p, n + 2);
        DamagedPixelInSpan(img, damage, p, n + 3);
      } else {
        CleanPixelOutsideSpans(img, damage, p, n);
        CleanPixelOutsideSpans(img, damage, p, n + 1);
        CleanPixelOutsideSpans(img, damage, p, n + 2);
        CleanPixelOutsideSpans(img, damage, p, n + 3);
      }
    }
  }

  /** `HLine`: pixels (x, y) for x1 <= x <= x2. */
  function HLine(img: BGRA, x1: int, y: int, x2: int, c: RGBA): (r: BGRA)
    requires Valid(img)
    ensures Valid(r) && r.rect == img.rect && r.stride == img.stride && |r.pix| == |img.pix|
    ensures forall q: Point :: At(r, q) == if q.In(img.rect) && q.y == y && x1 <= q.x <= x2 then c else At(img, q)
    decreases x2 - x1
  {
    if x1 > x2 then img else HLine(SetRGBA(img, Point(x1, y), c), x1 + 1, y, x2, c)
  }

  /** `VLine`: pixels (x, y) for y1 <= y <= y2. */
  function VLine(img: BGRA, x: int, y1: int, y2: int, c: RGBA): (r: BGRA)
    requires Valid(img)
    ensures Valid(r) && r.rect == img.rect && r.stride == img.stride && |r.pix| == |img.pix|
    ensures forall q: Point :: At(r, q) == if q.In(img.rect) && q.x == x && y1 <= q.y <= y2 then c else At(img, q)
    decreases y2 - y1
  {
    if y1 > y2 then img else VLine(SetRGBA(img, Point(x, y1), c), x, y1 + 1, y2, c)
  }

  predicate OnBorder(q: Point, x1: int, y1: int, x2: int, y2: int)
  {
    ((q.y == y1 || q.y == y2) && x1 <= q.x <= x2) || ((q.x == x1 || q.x == x2) && y1 <= q.y <= y2)
  }

  /** `DrawRect`: the outline through both corners, clipped to the image. */
  function DrawRect(img: BGRA, x1: int, y1: int, x2: int, y2: int, c: RGBA): (r: BGRA)
    requires Valid(img)
    ensures Valid(r) && r.rect == img.rect
    ensures forall q: Point :: At(r, q) == if q.In(img.rect) && OnBorder(q, x1, y1, x2, y2) then c else At(img, q)
  {
    VLine(VLine(HLine(HLine(img, x1, y1, x2, c), x1, y2, x2, c), x1, y1, y2, c), x2, y1, y2, c)
  }
}
