/** wayland/client.go: the `WaylandClient` bridge between a workspace window and the
    connection that owns it.  The window-local half lives in `Window`; here each
    operation also sees the connection's heap, where the window's xdg_surface is.

    `Buffer` is modelled as the list of drawing operations it performs on the
    output image, in order, rather than as the image itself; `Pixels.DrawCopyOver`
    and `Pixels.DrawRect` model what each operation does to the pixels. */
module Clients {
  import opened Wrappers
  import opened Ints
  import opened Geometry
  import opened Events
  import opened Registry
  import opened Protocol
  import opened XdgGeometry
  import Pixels
  import Stack
  import Window
  import XdgShell
  import Seats
  import Surfaces

  /** Outline colours: red around subsurfaces, blue around popups (alpha zero). */
  const Red := Pixels.RGBA(255, 0, 0, 0)
  const Blue := Pixels.RGBA(0, 0, 255, 0)

  /** The serial the subsurfaces' frame callbacks are sent with. */
  const ZeroSerial: seq<int> := [0, 0, 0, 0]

  /** One drawing operation on the output image: `DrawCopyOver(buffer, dst, src, sp)` or
      `DrawRect` around `rect`. */
  datatype Paint =
    | CopyOver(dst: Rect, src: Pixels.BGRA, sp: Point)
    | Outline(rect: Rect, color: Pixels.RGBA)

  /** A window's xdg_surface and wl_surface are live: Go's `wc.surface` and
      `wc.surface.surface` are never nil. */
  predicate Attached(c: Conn, w: Window.Window)
  {
    IsXdg(c, w.surface) && Surfaces.IsSurfaceAt(c, c.objs[w.surface].xdg.surface)
  }

  /** `WaylandClient.Resize`: a size equal to the last attempt does nothing; otherwise the
      attempt is recorded, and the xdg_surface is resized only when its window geometry
      has a different size. */
  function Resize(w: Window.Window, c: Conn, width: int, height: int): (r: (Window.Window, Conn, seq<Out>))
    requires Valid(c) && Attached(c, w)
    ensures Valid(r.1) && Attached(r.1, r.0)
    ensures r.0 == Window.ResizeAttempt(w, width, height).0
    ensures var g := c.objs[w.surface].xdg.windowGeometry;
      !(Window.ResizeAttempt(w, width, height).1 && (g.Dx() != width || g.Dy() != height)) ==> r.1 == c && r.2 == []
    ensures var g := c.objs[w.surface].xdg.windowGeometry;
      Window.ResizeAttempt(w, width, height).1 && (g.Dx() != width || g.Dy() != height) ==>
        (r.1, r.2) == XdgShell.Resize(c, w.surface, width, height)
    ensures forall b :: b in c.objs && (c.objs[b].SurfaceObj? || c.objs[b].PopupObj? || c.objs[b].SeatObj? || c.objs[b].PointerObj?) ==>
      b in r.1.objs && r.1.objs[b] == c.objs[b]
    ensures r.1.objs[w.surface].xdg == c.objs[w.surface].xdg.(configuring := r.1.objs[w.surface].xdg.configuring, serial := r.1.objs[w.surface].xdg.serial)
    ensures r.1.ids == c.ids
  {
    var (w1, attempt) := Window.ResizeAttempt(w, width, height);
    var g := c.objs[w.surface].xdg.windowGeometry;
    if attempt && (g.Dx() != width || g.Dy() != height) then
      var (c1, out) := XdgShell.Resize(c, w.surface, width, height);
      (w1, c1, out)
    else (w1, c, [])
  }

  /** Asking twice for the same non-negative size sends nothing the second time. */
  lemma ResizeTwiceSendsOnce(w: Window.Window, c: Conn, width: int, height: int)
    requires Valid(c) && Attached(c, w) && width >= 0 && height >= 0
    ensures var (w1, c1, _) := Resize(w, c, width, height);
      Resize(w1, c1, width, height) == (w1, c1, [])
  {
    Window.ResizeIsIdempotent(w, width, height);
  }

  /** `RenderFrame` on the wl_surface at `sa`. */
  function RenderFrameAt(c: Conn, sa: int, serial: seq<int>): (r: (Conn, seq<Out>))
    requires Valid(c) && Surfaces.IsSurfaceAt(c, sa) && |serial| == 4 && AllBytes(serial)
    ensures Valid(r.0) && Surfaces.IsSurfaceAt(r.0, sa) && r.0.ids == c.ids
    ensures r.0.objs[sa].surface == c.objs[sa].surface.(frameCallback := 0)
    ensures forall b :: b in c.objs && b != sa ==> b in r.0.objs && r.0.objs[b] == c.objs[b]
    ensures r.1 == Surfaces.RenderFrame(c.objs[sa].surface, serial).1
  {
    var (s, out) := Surfaces.RenderFrame(c.objs[sa].surface, serial);
    (Store(c, sa, SurfaceObj(s)), out)
  }

  // ---------------------------------------------------------------------
  // Subsurfaces

  /** The rectangle an image of the given bounds occupies with its corner at `at`. */
  function Placed(at: Point, bounds: Rect): (r: Rect)
    ensures bounds.Canonical() ==> r.min == at && r.Dx() == bounds.Dx() && r.Dy() == bounds.Dy()
  {
    MakeRect(at.x, at.y, at.x + bounds.Dx(), at.y + bounds.Dy())
  }

  /** The subsurface at `sub` is live and its wl_surface has a cached image. */
  predicate Drawable(c: Conn, sub: int)
  {
    sub in c.objs && c.objs[sub].SubSurfaceObj? && Surfaces.IsSurfaceAt(c, c.objs[sub].sub.surface)
    && c.objs[c.objs[sub].sub.surface].surface.cached.Some?
  }

  /** `Subsurfaces` for one subsurface, with `at` the accumulated offset of its parent:
      a subsurface whose wl_surface has a cached image is copied at its position,
      outlined in red, followed by its own subsurfaces, and then its frame callback
      fires with a zero serial.  Go recurses without a bound; `fuel` limits the depth. */
  function Subsurface(c: Conn, sub: int, at: Point, fuel: nat): (r: (Conn, seq<Paint>, seq<Out>))
    requires Valid(c)
    ensures Valid(r.0) && r.0.ids == c.ids
    ensures forall b :: b in c.objs && !c.objs[b].SurfaceObj? ==> b in r.0.objs && r.0.objs[b] == c.objs[b]
    ensures forall b :: b in c.objs && c.objs[b].SurfaceObj? ==> b in r.0.objs && r.0.objs[b].SurfaceObj?
    ensures !Drawable(c, sub) ==> r == (c, [], [])
    ensures Drawable(c, sub) ==>
      var u := c.objs[sub].sub; var img := c.objs[u.surface].surface.cached.value;
      var box := Placed(u.position.Add(at), img.rect);
      |r.1| >= 2 && r.1[0] == CopyOver(box, img, Origin) && r.1[1] == Outline(box, Red)
    decreases fuel, 0
  {
    if !(sub in c.objs && c.objs[sub].SubSurfaceObj?) then (c, [], [])
    else
      var u := c.objs[sub].sub;
      if !Surfaces.IsSurfaceAt(c, u.surface) || c.objs[u.surface].surface.cached.None? then (c, [], [])
      else
        var s := c.objs[u.surface].surface;
        var img := s.cached.value;
        var offset := u.position.Add(at);
        var box := Placed(offset, img.rect);
        var (c1, ps, os) := if fuel == 0 then (c, [], []) else Subsurfaces(c, s.children, offset, fuel - 1);
        var (c2, of) := RenderFrameAt(c1, u.surface, ZeroSerial);
        (c2, [CopyOver(box, img, Origin), Outline(box, Red)] + ps, os + of)
  }

  /** The subsurfaces of one surface, in the order of its children list. */
  function Subsurfaces(c: Conn, subs: seq<int>, at: Point, fuel: nat): (r: (Conn, seq<Paint>, seq<Out>))
    requires Valid(c)
    ensures Valid(r.0) && r.0.ids == c.ids
    ensures forall b :: b in c.objs && !c.objs[b].SurfaceObj? ==> b in r.0.objs && r.0.objs[b] == c.objs[b]
    ensures forall b :: b in c.objs && c.objs[b].SurfaceObj? ==> b in r.0.objs && r.0.objs[b].SurfaceObj?
    ensures subs == [] ==> r == (c, [], [])
    decreases fuel, |subs|
  {
    if |subs| == 0 then (c, [], [])
    else
      var (c1, p1, o1) := Subsurface(c, subs[0], at, fuel);
      var (c2, p2, o2) := Subsurfaces(c1, subs[1..], at, fuel);
      (c2, p1 + p2, o1 + o2)
  }

  // ---------------------------------------------------------------------
  // Popups

  /** One popup of the window's stack.  An unconfigured popup is configured and not
      drawn this frame.  A configured popup with a cached image is copied at its
      relative offset (moved by the output's origin) at its positioner's size, from its
      window geometry's corner, and outlined in blue; its frame callback then fires. */
  function PopupLayer(c: Conn, pa: int, view: Rect, serial: seq<int>): (r: (Conn, seq<Paint>, seq<Out>))
    requires Valid(c) && |serial| == 4 && AllBytes(serial)
    ensures Valid(r.0)
    ensures XdgShell.IsPopupAt(c, pa) && !c.objs[pa].popup.configured ==>
      var cp := XdgShell.ConfigurePopup(c, pa);
      r.1 == [] && r.2 == cp.out && r.0 == cp.conn
    ensures XdgShell.IsPopupAt(c, pa) && c.objs[pa].popup.configured && XdgShell.Linked(c, c.objs[pa].popup) ==>
      var p := c.objs[pa].popup; var x := c.objs[p.surface].xdg;
      Surfaces.IsSurfaceAt(c, x.surface) && c.objs[x.surface].surface.cached.Some? ==>
        var tl := RelativeOffset(c, x); var size := c.objs[p.positioner].positioner.size;
        var box := MakeRect(tl.x, tl.y, tl.x + size.Dx(), tl.y + size.Dy()).Add(view.min);
        r.1 == [CopyOver(box, c.objs[x.surface].surface.cached.value, x.windowGeometry.min), Outline(box, Blue)]
        && r.2 == Surfaces.RenderFrame(c.objs[x.surface].surface, serial).1
  {
    if !XdgShell.IsPopupAt(c, pa) then (c, [], [])
    else
      var p := c.objs[pa].popup;
      if !p.configured then
        var cp := XdgShell.ConfigurePopup(c, pa);
        (cp.conn, [], cp.out)
      else if !XdgShell.Linked(c, p) then (c, [], [])
      else
        var x := c.objs[p.surface].xdg;
        if !Surfaces.IsSurfaceAt(c, x.surface) || c.objs[x.surface].surface.cached.None? then (c, [], [])
        else
          var tl := RelativeOffset(c, x);
          var size := c.objs[p.positioner].positioner.size;
          var box := MakeRect(tl.x, tl.y, tl.x + size.Dx(), tl.y + size.Dy()).Add(view.min);
          var (c1, of) := RenderFrameAt(c, x.surface, serial);
          (c1, [CopyOver(box, c.objs[x.surface].surface.cached.value, x.windowGeometry.min), Outline(box, Blue)], of)
  }

  /** The window's popups from the bottom of the stack to the top; each draws at most
      an image and its outline. */
  function Popups(c: Conn, pas: seq<int>, view: Rect, serial: seq<int>): (r: (Conn, seq<Paint>, seq<Out>))
    requires Valid(c) && |serial| == 4 && AllBytes(serial)
    ensures Valid(r.0)
    ensures pas == [] ==> r == (c, [], [])
    ensures |r.1| <= 2 * |pas|
    decreases |pas|
  {
    if |pas| == 0 then (c, [], [])
    else
      var (c1, p1, o1) := PopupLayer(c, pas[0], view, serial);
      var (c2, p2, o2) := Popups(c1, pas[1..], view, serial);
      (c2, p1 + p2, o1 + o2)
  }

  /** A popup that has not been configured yet is configured and skipped: nothing of
      it is drawn until the next frame. */
  lemma UnconfiguredPopupIsSkipped(c: Conn, pa: int, view: Rect, serial: seq<int>)
    requires Valid(c) && |serial| == 4 && AllBytes(serial)
    requires XdgShell.IsPopupAt(c, pa) && !c.objs[pa].popup.configured
    ensures var r := Popups(c, [pa], view, serial);
      r.1 == [] && r.2 == XdgShell.ConfigurePopup(c, pa).out
  {
    var (c1, p1, o1) := PopupLayer(c, pa, view, serial);
    assert Popups(c1, [pa][1..], view, serial) == (c1, [], []);
    assert o1 + [] == o1;
  }

  // ---------------------------------------------------------------------
  // Cursor

  /** The cursor image: the cached image of the wl_surface the seat's pointer names
      (by wire id) through set_cursor. */
  function CursorImage(c: Conn, w: Window.Window): (r: Option<(int, Pixels.BGRA, Point)>)
    requires Valid(c)
    ensures r.Some? ==>
      w.hasPointer && FindSeat(c).Some? && Seats.MouseOf(c, c.objs[FindSeat(c).value].seat).Some?
      && var m := c.objs[c.objs[FindSeat(c).value].seat.mouse.value].pointer;
      m.surface in c.ids && r.value.0 == c.ids[m.surface] && Surfaces.IsSurfaceAt(c, r.value.0)
      && c.objs[r.value.0].surface.cached == Some(r.value.1) && r.value.2 == m.hotspot
  {
    if !w.hasPointer then None
    else match FindSeat(c)
      case None => None
      case Some(sa) =>
        match Seats.MouseOf(c, c.objs[sa].seat)
        case None => None
        case Some(ma) =>
          var m := c.objs[ma].pointer;
          if m.surface in c.ids && Surfaces.IsSurfaceAt(c, c.ids[m.surface])
             && c.objs[c.ids[m.surface]].surface.cached.Some? then
            Some((c.ids[m.surface], c.objs[c.ids[m.surface]].surface.cached.value, m.hotspot))
          else None
  }

  /** The cursor is drawn only while the window holds the pointer: at the local pointer
      position minus the hotspot (moved by the output's origin), at the cursor image's
      size; the cursor surface's frame callback then fires. */
  function Cursor(c: Conn, w: Window.Window, view: Rect, serial: seq<int>): (r: (Conn, seq<Paint>, seq<Out>))
    requires Valid(c) && |serial| == 4 && AllBytes(serial)
    ensures Valid(r.0)
    ensures CursorImage(c, w).None? ==> r == (c, [], [])
    ensures var ci := CursorImage(c, w);
      ci.Some? ==>
        var (sa, img, hotspot) := ci.value;
        var box := Placed(w.pointerLocal.Sub(hotspot), img.rect).Add(view.min);
        r.1 == [CopyOver(box, img, Origin)]
        && r.2 == Surfaces.RenderFrame(c.objs[sa].surface, serial).1
        && (img.rect.Canonical() ==>
              box.min == w.pointerLocal.Sub(hotspot).Add(view.min) && box.Dx() == img.rect.Dx() && box.Dy() == img.rect.Dy())
  {
    match CursorImage(c, w)
    case None => (c, [], [])
    case Some((sa, img, hotspot)) =>
      var box := Placed(w.pointerLocal.Sub(hotspot), img.rect).Add(view.min);
      var (c1, of) := RenderFrameAt(c, sa, serial);
      (c1, [CopyOver(box, img, Origin)], of)
  }

  // ---------------------------------------------------------------------
  // Buffer

  /** The corner of the window's image that lands on the output's origin: the window
      geometry's, or the image's own when the geometry has zero width. */
  function SourceOrigin(x: XdgSurface, img: Pixels.BGRA): (p: Point)
    ensures x.windowGeometry.Dx() != 0 ==> p == x.windowGeometry.min
    ensures x.windowGeometry.Dx() == 0 ==> p == img.rect.min
  {
    if x.windowGeometry.Dx() == 0 then img.rect.min else x.windowGeometry.min
  }

  /** Drawing a window whose surface has a cached image: copy it over the whole output
      from `SourceOrigin`, fire its frame callback with a zero serial, then draw the
      subsurfaces, the popups and the cursor in that order.  `view` is the output
      image's bounds; the popups' and the cursor's frame callbacks carry `serial`, the
      value the window surface's frame callback yields in Go (which
      `Surfaces.RenderFrame` does not model). */
  function Draw(w: Window.Window, c: Conn, view: Rect, serial: seq<int>, fuel: nat): (r: (Conn, seq<Paint>, seq<Out>))
    requires Valid(c) && Attached(c, w) && |serial| == 4 && AllBytes(serial)
    ensures Valid(r.0)
    ensures var x := c.objs[w.surface].xdg; var s := c.objs[x.surface].surface;
      s.cached.None? ==> r == (c, [], [])
    ensures var x := c.objs[w.surface].xdg; var s := c.objs[x.surface].surface;
      s.cached.Some? ==>
        |r.1| >= 1 && r.1[0] == CopyOver(view, s.cached.value, SourceOrigin(x, s.cached.value))
        && var of := Surfaces.RenderFrame(s, ZeroSerial).1; |r.2| >= |of| && r.2[..|of|] == of
  {
    var x := c.objs[w.surface].xdg;
    var s := c.objs[x.surface].surface;
    if s.cached.None? then (c, [], [])
    else
      var img := s.cached.value;
      var origin := SourceOrigin(x, img);
      var (c2, of) := RenderFrameAt(c, x.surface, ZeroSerial);
      var (c3, ps, os) := Subsurfaces(c2, s.children, view.min.Sub(origin), fuel);
      var (c4, pp, op) := Popups(c3, Stack.Inner(w.popups), view, serial);
      var (c5, pc, oc) := Cursor(c4, w, view, serial);
      var out := of + (os + op + oc);
      assert out[..|of|] == of;
      (c5, [CopyOver(view, img, origin)] + (ps + pp + pc), out)
  }

  /** `WaylandClient.Buffer`: resize to the output's size, then draw.  Resizing touches
      neither the window's image nor its window geometry, so what is drawn first is
      decided by the connection as it was. */
  function Buffer(w: Window.Window, c: Conn, view: Rect, width: int, height: int, serial: seq<int>, fuel: nat)
    : (r: (Window.Window, Conn, seq<Paint>, seq<Out>))
    requires Valid(c) && Attached(c, w) && |serial| == 4 && AllBytes(serial)
    ensures Valid(r.1)
    ensures r.0 == Window.ResizeAttempt(w, width, height).0
    ensures var rs := Resize(w, c, width, height); |r.3| >= |rs.2| && r.3[..|rs.2|] == rs.2
    ensures var x := c.objs[w.surface].xdg; var s := c.objs[x.surface].surface;
      s.cached.None? ==> r.2 == [] && (r.1, r.3) == (Resize(w, c, width, height).1, Resize(w, c, width, height).2)
    ensures var x := c.objs[w.surface].xdg; var s := c.objs[x.surface].surface;
      s.cached.Some? ==> |r.2| >= 1 && r.2[0] == CopyOver(view, s.cached.value, SourceOrigin(x, s.cached.value))
  {
    var (w1, c1, o1) := Resize(w, c, width, height);
    var (c2, ps, os) := Draw(w1, c1, view, serial, fuel);
    assert (o1 + os)[..|o1|] == o1 && o1 + [] == o1;
    (w1, c2, ps, o1 + os)
  }

  // ---------------------------------------------------------------------
  // Input

  /** `WaylandClient.ProcessKeyboardEvent`: the key goes to the connection's seat, if any. */
  function ProcessKeyboardEvent(c: Conn, ev: KeyboardEvent): (r: (Conn, seq<Out>))
    requires Valid(c)
    ensures Valid(r.0)
    ensures FindSeat(c).None? ==> r == (c, [])
    ensures FindSeat(c).Some? ==> r == Seats.ProcessKeyboardEvent(c, FindSeat(c).value, ev)
  {
    match FindSeat(c)
    case None => (c, [])
    case Some(sa) => Seats.ProcessKeyboardEvent(c, sa, ev)
  }

  /** `WaylandClient.ProcessFocus`: keyboard focus moves to the window's surface. */
  function ProcessFocus(c: Conn, w: Window.Window): (r: (Conn, seq<Out>))
    requires Valid(c) && Attached(c, w)
    ensures Valid(r.0)
    ensures FindSeat(c).None? ==> r == (c, [])
    ensures FindSeat(c).Some? ==> r == Seats.Grab(c, FindSeat(c).value, c.objs[w.surface].xdg.surface)
  {
    match FindSeat(c)
    case None => (c, [])
    case Some(sa) => Seats.Grab(c, sa, c.objs[w.surface].xdg.surface)
  }

  /** `WaylandClient.ProcessPointerEvent`: claimed exactly when the connection has a seat;
      then the window takes the pointer and the seat routes the event, starting the
      hit test at the window's surface. */
  method ProcessPointerEvent(w: Window.Window, c: Conn, ev: PointerEvent)
    returns (w1: Window.Window, c1: Conn, out: seq<Out>, claimed: bool)
    requires Valid(c)
    ensures Valid(c1)
    ensures claimed <==> FindSeat(c).Some?
    ensures (w1, claimed) == Window.ReceivePointer(w, ev, FindSeat(c).Some?)
    ensures !claimed ==> c1 == c && out == []
    ensures claimed ==> SameShape(c, c1)
  {
    var hasSeat := FindSeat(c).Some?;
    var received := Window.ReceivePointer(w, ev, hasSeat);
    w1, claimed := received.0, received.1;
    if hasSeat {
      c1, out := Seats.ProcessPointerEvent(c, FindSeat(c).value, ev, Some(w.surface));
    } else {
      c1, out := c, [];
    }
  }

  /** After a focus change the seat's keyboard, if it has one, is active on the window's
      wl_surface. */
  lemma FocusActivatesSurface(c: Conn, w: Window.Window)
    requires Valid(c) && Attached(c, w) && FindSeat(c).Some?
    requires Seats.KeyboardOf(c, c.objs[FindSeat(c).value].seat).Some?
    ensures var ka := Seats.KeyboardOf(c, c.objs[FindSeat(c).value].seat).value;
      ProcessFocus(c, w).0.objs[ka].keyboard.active == Some(c.objs[w.surface].xdg.surface)
  {
  }

  /** Once the pointer has left the window no cursor is drawn on it. */
  lemma LeaveHidesCursor(c: Conn, w: Window.Window, view: Rect, serial: seq<int>)
    requires Valid(c) && |serial| == 4 && AllBytes(serial)
    ensures Cursor(c, Window.HandlePointerLeave(w), view, serial) == (c, [], [])
  {
  }
}
