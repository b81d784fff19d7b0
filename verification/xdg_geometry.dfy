/** wayland/xdg_surface.go, the geometry half: where an xdg_surface sits relative to
    its toplevel and whether a pointer position falls on it. */
module XdgGeometry {
  import opened Wrappers
  import opened Geometry
  import opened Registry
  import Regions

  /** The xdg_surface at address `a`, if that is what lives there. */
  predicate IsXdg(c: Conn, a: int) { a in c.objs && c.objs[a].XdgSurfaceObj? }

  /** `RelativeOffset`: the parent's offset (zero without a parent) plus the surface's
      own offset, minus the window geometry's origin.  Only one level of parent counts. */
  function RelativeOffset(c: Conn, x: XdgSurface): (p: Point)
    ensures x.parent.None? ==> p == x.offset.Sub(x.windowGeometry.min)
    ensures x.parent.Some? && IsXdg(c, x.parent.value) ==>
      p == c.objs[x.parent.value].xdg.offset.Add(x.offset).Sub(x.windowGeometry.min)
  {
    var parentOffset :=
      if x.parent.Some? && IsXdg(c, x.parent.value) then c.objs[x.parent.value].xdg.offset else Origin;
    parentOffset.Add(x.offset).Sub(x.windowGeometry.min)
  }

  /** The input-region rule shared by toplevels and popups: with no committed region
      every point counts; otherwise a point counts unless it lies in the region's area
      with a subtracted rectangle on top.  Asking the region reverses its stored areas
      (see `Regions.Intersects`), which is written back to the heap. */
  function InputHit(c: Conn, region: Option<int>, p: Point): (r: (bool, Conn))
    requires Valid(c)
    ensures Valid(r.1) && r.1 == c.(objs := r.1.objs) && r.1.objs.Keys == c.objs.Keys
    ensures forall b :: b in c.objs && (region.None? || b != region.value) ==> r.1.objs[b] == c.objs[b]
    ensures region.None? || !(region.value in c.objs && c.objs[region.value].RegionObj?) ==> r == (true, c)
    ensures region.Some? && region.value in c.objs && c.objs[region.value].RegionObj? ==>
      var h := Regions.Intersects(c.objs[region.value].region, p);
      (r.0 <==> !h.inArea || h.inRegion) && r.1 == Store(c, region.value, RegionObj(h.region))
  {
    if region.None? || region.value !in c.objs || !c.objs[region.value].RegionObj? then (true, c)
    else
      var h := Regions.Intersects(c.objs[region.value].region, p);
      (!h.inArea || h.inRegion, Store(c, region.value, RegionObj(h.region)))
  }

  /** The rectangle a popup occupies in toplevel coordinates: its positioner's size at
      its relative offset. */
  function PopupBounds(tl: Point, size: Rect): (b: Rect)
    ensures size.Canonical() ==> b == size.Sub(size.min).Add(tl)
  {
    MakeRect(tl.x, tl.y, tl.x + size.Dx(), tl.y + size.Dy())
  }

  /** `XDG_Surface.Intersects` for the xdg_surface at address `a`, given a point in
      toplevel-local coordinates.  A surface without a positioner is a toplevel; a popup
      first needs the point in its bounds, and then applies the input-region rule to the
      point plus (not minus) its offset. */
  function Intersects(c: Conn, x: XdgSurface, p: Point): (r: (bool, Conn))
    requires Valid(c)
    ensures Valid(r.1) && r.1 == c.(objs := r.1.objs) && r.1.objs.Keys == c.objs.Keys
    ensures forall b :: b in c.objs && !c.objs[b].RegionObj? ==> r.1.objs[b] == c.objs[b]
    ensures !(x.surface in c.objs && c.objs[x.surface].SurfaceObj?) ==> r == (false, c)
    ensures (x.surface in c.objs && c.objs[x.surface].SurfaceObj?
             && (x.positioner.None? || !(x.positioner.value in c.objs && c.objs[x.positioner.value].PositionerObj?))) ==>
      r == InputHit(c, c.objs[x.surface].surface.committedInput, p)
    ensures x.positioner.Some? && x.positioner.value in c.objs && c.objs[x.positioner.value].PositionerObj? ==>
      var tl := RelativeOffset(c, x);
      var b := PopupBounds(tl, c.objs[x.positioner.value].positioner.size);
      (r.0 ==> p.In(b)) && (!p.In(b) ==> r == (false, c))
    ensures x.surface in c.objs && c.objs[x.surface].SurfaceObj? && x.positioner.Some? && x.positioner.value in c.objs && c.objs[x.positioner.value].PositionerObj? ==>
      var tl := RelativeOffset(c, x);
      p.In(PopupBounds(tl, c.objs[x.positioner.value].positioner.size)) ==>
        r == InputHit(c, c.objs[x.surface].surface.committedInput, p.Add(tl))
  {
    if x.surface !in c.objs || !c.objs[x.surface].SurfaceObj? then (false, c)
    else
      var s := c.objs[x.surface].surface;
      if x.positioner.None? || x.positioner.value !in c.objs || !c.objs[x.positioner.value].PositionerObj? then
        InputHit(c, s.committedInput, p)
      else
        var tl := RelativeOffset(c, x);
        var b := PopupBounds(tl, c.objs[x.positioner.value].positioner.size);
        if p.In(b) then InputHit(c, s.committedInput, p.Add(tl)) else (false, c)
  }

  /** A toplevel with no committed input region takes the pointer everywhere. */
  lemma ToplevelWithoutRegionAlwaysHit(c: Conn, x: XdgSurface, p: Point)
    requires Valid(c) && x.surface in c.objs && c.objs[x.surface].SurfaceObj?
    requires x.positioner.None? && c.objs[x.surface].surface.committedInput.None?
    ensures Intersects(c, x, p) == (true, c)
  {
  }
}
