/** wayland/xdg_base.go, wayland/xdg_surface.go, wayland/xdg_toplevel.go and
    wayland/xdg_popup.go: the xdg-shell objects.

    A Go object here holds pointers to its neighbours; the model holds heap
    addresses.  A pointer in the Go code is never dangling, but an address could
    in principle name an object of another kind; every such case is treated the
    way Go treats the corresponding nil pointer (a dereference panics: `Fault`).
    The workspace is shared by all connections and not part of a connection's
    state: the handlers report what they do to it as effects, and where the Go
    code asks the workspace whether a window exists, the indices of the windows
    it holds are a parameter. */
module XdgShell {
  import opened Wrappers
  import opened Ints
  import opened Geometry
  import opened Wire
  import opened Registry
  import opened Protocol
  import opened XdgGeometry
  import Positioners
  import Seats
  import Window

  predicate IsToplevelAt(c: Conn, a: int) { a in c.objs && c.objs[a].ToplevelObj? }

  predicate IsPopupAt(c: Conn, a: int) { a in c.objs && c.objs[a].PopupObj? }

  predicate IsBaseAt(c: Conn, a: int) { a in c.objs && c.objs[a].BaseObj? }

  /** The xdg_toplevel role of a surface, absent (Go's nil) unless the reference names one. */
  function ToplevelOf(c: Conn, x: XdgSurface): (r: Option<int>)
    ensures r.Some? <==> x.topLevel.Some? && IsToplevelAt(c, x.topLevel.value)
    ensures r.Some? ==> r == x.topLevel
  {
    if x.topLevel.Some? && IsToplevelAt(c, x.topLevel.value) then x.topLevel else None
  }

  // ---------------------------------------------------------------------
  // Configure sequences

  /** `XDG_Toplevel.Configure`: configure(width, height, no states) goes out every time,
      sizes truncated to uint32, and the size is recorded. */
  function ConfigureToplevel(c: Conn, ta: int, width: int, height: int): (r: (Conn, seq<Out>))
    requires Valid(c) && IsToplevelAt(c, ta)
    ensures Valid(r.0) && IsToplevelAt(r.0, ta)
    ensures var t := c.objs[ta].toplevel;
      r.0 == Store(c, ta, ToplevelObj(t.(size := Pt(width, height))))
      && r.1 == [Msg(t.id, 0, [UintF(Wrap32(width)), UintF(Wrap32(height)), UintF(0)])]
  {
    var t := c.objs[ta].toplevel;
    (Store(c, ta, ToplevelObj(t.(size := Pt(width, height)))),
     [Msg(t.id, 0, [UintF(Wrap32(width)), UintF(Wrap32(height)), UintF(0)])])
  }

  /** The events `XDG_Surface.Configure` sends: a toplevel first gets event 3 with a
      zero word, then the surface gets configure with the given serial. */
  function ConfigureEvents(c: Conn, x: XdgSurface, serial: int): (out: seq<Out>)
    ensures |out| >= 1 && out[|out| - 1] == Msg(x.id, 0, [UintF(serial)])
    ensures ToplevelOf(c, x).None? ==> |out| == 1
    ensures ToplevelOf(c, x).Some? ==> |out| == 2 && out[0] == Msg(c.objs[x.topLevel.value].toplevel.id, 3, [UintF(0)])
  {
    (if ToplevelOf(c, x).Some? then [Msg(c.objs[x.topLevel.value].toplevel.id, 3, [UintF(0)])] else [])
    + [Msg(x.id, 0, [UintF(serial)])]
  }

  /** `XDG_Surface.Configure`: nothing while a configure is unacknowledged; otherwise the
      serial (a uint32 counter) advances, the events go out, and the surface waits for
      the ack. */
  function Configure(c: Conn, xa: int): (r: (Conn, seq<Out>))
    requires Valid(c) && IsXdg(c, xa)
    ensures Valid(r.0) && IsXdg(r.0, xa) && r.0.objs[xa].xdg.configuring
    ensures c.objs[xa].xdg.configuring ==> r == (c, [])
    ensures var x := c.objs[xa].xdg;
      !x.configuring ==>
        r.0 == Store(c, xa, XdgSurfaceObj(x.(configuring := true, serial := Wrap32(x.serial + 1))))
        && r.1 == ConfigureEvents(c, x, Wrap32(x.serial + 1))
  {
    var x := c.objs[xa].xdg;
    if x.configuring then (c, [])
    else
      var serial := Wrap32(x.serial + 1);
      (Store(c, xa, XdgSurfaceObj(x.(configuring := true, serial := serial))), ConfigureEvents(c, x, serial))
  }

  /** `XDG_Surface.Resize`: the toplevel (if any) is told the new size, then the surface
      is configured. */
  function Resize(c: Conn, xa: int, width: int, height: int): (r: (Conn, seq<Out>))
    requires Valid(c) && IsXdg(c, xa)
    ensures Valid(r.0) && IsXdg(r.0, xa)
    ensures forall b :: b in c.objs && b != xa && !c.objs[b].ToplevelObj? ==> b in r.0.objs && r.0.objs[b] == c.objs[b]
    ensures r.0.objs[xa].xdg == c.objs[xa].xdg.(configuring := true, serial := r.0.objs[xa].xdg.serial)
    ensures var x := c.objs[xa].xdg;
      ToplevelOf(c, x).None? ==> r == Configure(c, xa)
    ensures var x := c.objs[xa].xdg; var t := ToplevelOf(c, x);
      t.Some? ==>
        var ct := ConfigureToplevel(c, t.value, width, height);
        IsXdg(ct.0, xa) && r == (Configure(ct.0, xa).0, ct.1 + Configure(ct.0, xa).1)
  {
    var x := c.objs[xa].xdg;
    match ToplevelOf(c, x)
    case None => Configure(c, xa)
    case Some(ta) =>
      var (c1, o1) := ConfigureToplevel(c, ta, width, height);
      var (c2, o2) := Configure(c1, xa);
      (c2, o1 + o2)
  }

  /** The popup's configure event: the anchor rectangle's corner and the positioner's
      size, each truncated to uint32. */
  function PopupPlacement(p: Popup, pos: Positioner): (o: Out)
  {
    Msg(p.id, 0, [UintF(Wrap32(pos.anchorRect.min.x)), UintF(Wrap32(pos.anchorRect.min.y)),
                  UintF(Wrap32(pos.size.Dx())), UintF(Wrap32(pos.size.Dy()))])
  }

  /** Whether a popup's references name objects of the right kinds. */
  predicate Linked(c: Conn, p: Popup)
  {
    p.positioner in c.objs && c.objs[p.positioner].PositionerObj? && IsXdg(c, p.surface) && IsXdg(c, p.parent)
  }

  /** `XDGPopup.Configure`: the placement goes out, the popup is marked configured, and
      then the popup's own surface and its parent surface are configured, in that order. */
  function ConfigurePopup(c: Conn, pa: int): (r: Reply)
    requires Valid(c) && IsPopupAt(c, pa)
    ensures Valid(r.conn)
    ensures r.error.Some? <==> !Linked(c, c.objs[pa].popup)
    ensures r.error.Some? ==> r == Reply(c, [], Some(Fault))
    ensures var p := c.objs[pa].popup;
      r.error.None? ==>
        IsPopupAt(r.conn, pa) && r.conn.objs[pa].popup == p.(configured := true)
        && IsXdg(r.conn, p.surface) && r.conn.objs[p.surface].xdg.configuring
        && IsXdg(r.conn, p.parent) && r.conn.objs[p.parent].xdg.configuring
        && |r.out| >= 1 && r.out[0] == PopupPlacement(p, c.objs[p.positioner].positioner)
  {
    var p := c.objs[pa].popup;
    if !Linked(c, p) then Reply(c, [], Some(Fault))
    else
      var c1 := Store(c, pa, PopupObj(p.(configured := true)));
      var (c2, o2) := Configure(c1, p.surface);
      var (c3, o3) := Configure(c2, p.parent);
      Reply(c3, [PopupPlacement(p, c.objs[p.positioner].positioner)] + o2 + o3, None)
  }

  // ---------------------------------------------------------------------
  // xdg_wm_base

  /** `XDG_Base.Ping`: ping carrying the clock's milliseconds, truncated to uint32. */
  function Ping(c: Conn, ba: int, nowMillis: int): (o: Out)
    requires IsBaseAt(c, ba)
    ensures o.Send? && o.msg.id == c.objs[ba].baseId && o.msg.opcode == 0
    ensures o.msg.fields == [UintF(Wrap32(nowMillis))] && IsU32(o.msg.fields[0].u)
  {
    Msg(c.objs[ba].baseId, 0, [UintF(Wrap32(nowMillis))])
  }

  /** A fresh xdg_surface for the wl_surface at `s`: no role, no parent, no geometry. */
  function NewXdgSurface(id: int, s: int): (x: XdgSurface)
    ensures x.id == id && x.surface == s && x.uniq == 0
    ensures x.topLevel.None? && x.positioner.None? && x.parent.None? && x.popup.None?
    ensures !x.configuring && x.serial == 0 && x.windowGeometry == ZR && x.offset == Origin
  {
    XdgSurface(id, 0, s, None, None, ZR, false, None, None, Origin, false, 0)
  }

  /** get_xdg_surface (2): the surface id must be registered (otherwise the lookup's
      error is returned) and must name a wl_surface. */
  function GetXdgSurface(c: Conn, data: seq<int>): (r: Reply)
    requires Valid(c) && AllBytes(data)
    ensures Valid(r.conn) && r.out == []
    ensures r.error.Some? ==> r.conn == c
    ensures var p := ParseAll(data, [UintK, UintK]);
      p.Ok? && p.value[1].u !in c.ids ==> r.error == Some(UnknownObject)
    ensures var p := ParseAll(data, [UintK, UintK]);
      r.error.None? <==> p.Ok? && p.value[1].u in c.ids && c.objs[c.ids[p.value[1].u]].SurfaceObj?
    ensures var p := ParseAll(data, [UintK, UintK]);
      r.error.None? ==>
        Get(r.conn, p.value[0].u) == Ok(XdgSurfaceObj(NewXdgSurface(p.value[0].u, c.ids[p.value[1].u])))
        && forall k :: k != p.value[0].u ==> Get(r.conn, k) == Get(c, k)
  {
    match ParseAll(data, [UintK, UintK])
    case Err(e) => Short(c, e)
    case Ok(vs) =>
      match Get(c, vs[1].u)
      case Err(e) => Reply(c, [], Some(e))
      case Ok(o) =>
        if !o.SurfaceObj? then Reply(c, [], Some(Rejected("object is not a surface")))
        else Reply(New(c, vs[0].u, XdgSurfaceObj(NewXdgSurface(vs[0].u, c.ids[vs[1].u]))).0, [], None)
  }

  /** `XDG_Base.HandleMessage` for the xdg_wm_base at `ba`: destroy (0), create_positioner
      (1), get_xdg_surface (2). */
  function HandleBase(c: Conn, ba: int, opcode: int, data: seq<int>): (r: Reply)
    requires Valid(c) && IsBaseAt(c, ba) && AllBytes(data)
    ensures Valid(r.conn) && r.out == []
    ensures opcode == 0 ==> r == Reply(Destroy(c, c.objs[ba].baseId), [], None)
    ensures opcode == 1 ==> (r.error.None? <==> ParseAll(data, [UintK]).Ok?) && (r.error.Some? ==> r.conn == c)
    ensures var p := ParseAll(data, [UintK]);
      opcode == 1 && p.Ok? ==>
        Get(r.conn, p.value[0].u) == Ok(PositionerObj(Positioners.NewPositioner(p.value[0].u)))
        && forall k :: k != p.value[0].u ==> Get(r.conn, k) == Get(c, k)
    ensures opcode == 2 ==> r == GetXdgSurface(c, data)
    ensures opcode !in {0, 1, 2} ==> r == Unknown(c, opcode)
  {
    if opcode == 0 then Reply(Destroy(c, c.objs[ba].baseId), [], None)
    else if opcode == 1 then
      match ParseAll(data, [UintK])
      case Err(e) => Short(c, e)
      case Ok(vs) => Reply(New(c, vs[0].u, PositionerObj(Positioners.NewPositioner(vs[0].u))).0, [], None)
    else if opcode == 2 then GetXdgSurface(c, data)
    else Unknown(c, opcode)
  }

  // ---------------------------------------------------------------------
  // xdg_surface

  /** The window index the next toplevel of the connection receives: the registry's
      uint32 counter, incremented before use. */
  function NextIndex(c: Conn): (u: int)
    ensures IsU32(u) && (0 <= c.globalIdx < U32 - 1 ==> u == c.globalIdx + 1)
  {
    Wrap32(c.globalIdx + 1)
  }

  /** The first half of get_toplevel: the toplevel is registered under `id` and linked
      from the surface, the surface receives the next window index, and the workspace
      gets a window for it. */
  function AddToplevel(c: Conn, xa: int, id: int): (r: (Conn, Out))
    requires Valid(c) && IsXdg(c, xa)
    ensures Valid(r.0) && r.0.globalIdx == NextIndex(c) && r.0.index == c.index
    ensures id in r.0.ids && r.0.ids[id] !in c.objs && IsToplevelAt(r.0, r.0.ids[id])
    ensures r.0.objs[r.0.ids[id]].toplevel == Toplevel(id, [], Origin)
    ensures IsXdg(r.0, xa) && r.0.objs[xa].xdg == c.objs[xa].xdg.(topLevel := Some(r.0.ids[id]), uniq := NextIndex(c))
    ensures r.1 == WindowAdded(Window.NewWaylandClient(NextIndex(c), c.index, xa))
    ensures forall k :: k in r.0.ids ==> (r.0.objs[r.0.ids[k]].SeatObj? <==> k != id && k in c.ids && c.objs[c.ids[k]].SeatObj?)
  {
    var u := NextIndex(c);
    var x := c.objs[xa].xdg;
    var (c1, ta) := New(c.(globalIdx := u), id, ToplevelObj(Toplevel(id, [], Origin)));
    (Store(c1, xa, XdgSurfaceObj(x.(topLevel := Some(ta), uniq := u))),
     WindowAdded(Window.NewWaylandClient(u, c.index, xa)))
  }

  /** get_toplevel (1): `AddToplevel`, then keyboard focus moves to the surface.  With no
      seat bound that is an error, though the window has already been added. */
  function GetToplevel(c: Conn, xa: int, data: seq<int>): (r: Reply)
    requires Valid(c) && IsXdg(c, xa) && AllBytes(data)
    ensures Valid(r.conn)
    ensures ParseAll(data, [UintK]).Err? ==> r == Short(c, ParseAll(data, [UintK]).error)
    ensures var p := ParseAll(data, [UintK]);
      p.Ok? ==>
        var id := p.value[0].u; var add := AddToplevel(c, xa, id);
        |r.out| >= 1 && r.out[0] == add.1
        && (r.error.Some? <==> forall k :: k in c.ids && k != id ==> !c.objs[c.ids[k]].SeatObj?)
        && (r.error.Some? ==> r.conn == add.0 && |r.out| == 1)
        && (r.error.None? ==>
              var sa := FindSeat(add.0).value;
              r == Reply(Seats.Grab(add.0, sa, c.objs[xa].xdg.surface).0, [add.1] + Seats.Grab(add.0, sa, c.objs[xa].xdg.surface).1, None))
  {
    match ParseAll(data, [UintK])
    case Err(e) => Short(c, e)
    case Ok(vs) =>
      var (c1, added) := AddToplevel(c, xa, vs[0].u);
      match FindSeat(c1)
      case None => Reply(c1, [added], Some(Rejected("top_level: could not find seat")))
      case Some(sa) =>
        var (c2, o) := Seats.Grab(c1, sa, c.objs[xa].xdg.surface);
        Reply(c2, [added] + o, None)
  }

  /** get_popup (2): the parent must be a registered xdg_surface and the positioner id
      must name a positioner.  The surface takes its offset from the positioner's anchor
      point and records parent and positioner; the parent records the popup; the popup
      is registered, pushed onto the parent's window if the workspace has one, and
      configured. */
  function GetPopup(c: Conn, xa: int, data: seq<int>, windows: set<int>): (r: Reply)
    requires Valid(c) && IsXdg(c, xa) && AllBytes(data)
    ensures Valid(r.conn)
    ensures ParseAll(data, [UintK, UintK, UintK]).Err? ==> r == Short(c, ParseAll(data, [UintK, UintK, UintK]).error)
    ensures var p := ParseAll(data, [UintK, UintK, UintK]);
      p.Ok? ==>
        (r.error.None? <==>
           p.value[1].u in c.ids && IsXdg(c, c.ids[p.value[1].u])
           && p.value[2].u in c.ids && c.objs[c.ids[p.value[2].u]].PositionerObj?)
    ensures r.error.Some? ==> r.conn == c && r.out == []
    ensures var p := ParseAll(data, [UintK, UintK, UintK]);
      r.error.None? ==> r == OpenPopup(c, xa, p.value[0].u, c.ids[p.value[1].u], c.ids[p.value[2].u], windows)
  {
    match ParseAll(data, [UintK, UintK, UintK])
    case Err(e) => Short(c, e)
    case Ok(vs) =>
      if vs[1].u !in c.ids then Reply(c, [], Some(UnknownObject))
      else if !IsXdg(c, c.ids[vs[1].u]) || !(vs[2].u in c.ids && c.objs[c.ids[vs[2].u]].PositionerObj?) then
        Reply(c, [], Some(Rejected("could not setup xdgpopup")))
      else
        OpenPopup(c, xa, vs[0].u, c.ids[vs[1].u], c.ids[vs[2].u], windows)
  }

  /** The body of get_popup once every reference has been checked. */
  function OpenPopup(c: Conn, xa: int, id: int, parent: int, pos: int, windows: set<int>): (r: Reply)
    requires Valid(c) && IsXdg(c, xa) && IsXdg(c, parent) && pos in c.objs && c.objs[pos].PositionerObj?
    ensures Valid(r.conn) && r.error.None?
    ensures var pa := c.next; var uniq := c.objs[parent].xdg.uniq;
      id in r.conn.ids && r.conn.ids[id] == pa && IsPopupAt(r.conn, pa)
      && r.conn.objs[pa].popup == Popup(id, parent, xa, pos, true)
      && IsXdg(r.conn, xa) && r.conn.objs[xa].xdg.parent == Some(parent) && r.conn.objs[xa].xdg.positioner == Some(pos)
      && r.conn.objs[xa].xdg.offset == Positioners.CalculateAnchorPoint(c.objs[pos].positioner)
      && IsXdg(r.conn, parent) && r.conn.objs[parent].xdg.popup == Some(pa) && r.conn.objs[parent].xdg.uniq == uniq
      && |r.out| >= 1
      && (uniq in windows ==> r.out[0] == PopupPushed(uniq, pa))
      && (uniq !in windows ==> r.out[0] == PopupPlacement(Popup(id, parent, xa, pos, false), c.objs[pos].positioner))
  {
    var positioner := c.objs[pos].positioner;
    var x := c.objs[xa].xdg;
    var c1 := Store(c, xa, XdgSurfaceObj(x.(offset := Positioners.CalculateAnchorPoint(positioner),
                                            parent := Some(parent), positioner := Some(pos))));
    var px := c1.objs[parent].xdg;
    var pa := c.next;
    var c2 := Store(c1, parent, XdgSurfaceObj(px.(popup := Some(pa))));
    var popup := Popup(id, parent, xa, pos, false);
    var (c3, a) := New(c2, id, PopupObj(popup));
    assert Linked(c3, popup);
    var push := if px.uniq in windows then [PopupPushed(px.uniq, pa)] else [];
    var cr := ConfigurePopup(c3, pa);
    Reply(cr.conn, push + cr.out, cr.error)
  }

  /** set_window_geometry (3): x and y as int32, width and height as uint32. */
  function SetWindowGeometry(c: Conn, xa: int, data: seq<int>): (r: Reply)
    requires Valid(c) && IsXdg(c, xa) && AllBytes(data)
    ensures Valid(r.conn) && r.out == []
    ensures var p := ParseAll(data, [IntK, IntK, UintK, UintK]);
      (r.error.None? <==> p.Ok?) && (p.Err? ==> r.conn == c)
    ensures var p := ParseAll(data, [IntK, IntK, UintK, UintK]); var x := c.objs[xa].xdg;
      p.Ok? ==>
        IsXdg(r.conn, xa) &&
        var g := r.conn.objs[xa].xdg.windowGeometry;
        r.conn == Store(c, xa, XdgSurfaceObj(x.(windowGeometry := g)))
        && g.Canonical() && g.min == Pt(p.value[0].i, p.value[1].i) && g.Dx() == p.value[2].u && g.Dy() == p.value[3].u
  {
    match ParseAll(data, [IntK, IntK, UintK, UintK])
    case Err(e) => Short(c, e)
    case Ok(vs) =>
      var x := c.objs[xa].xdg;
      var g := MakeRect(vs[0].i, vs[1].i, vs[0].i + vs[2].u, vs[1].i + vs[3].u);
      Reply(Store(c, xa, XdgSurfaceObj(x.(windowGeometry := g))), [], None)
  }

  /** `XDG_Surface.HandleMessage` for the xdg_surface at `xa`: destroy (0) drops the id
      and removes the window with the surface's index from the workspace. */
  function HandleXdgSurface(c: Conn, xa: int, opcode: int, data: seq<int>, windows: set<int>): (r: Reply)
    requires Valid(c) && IsXdg(c, xa) && AllBytes(data)
    ensures Valid(r.conn)
    ensures var x := c.objs[xa].xdg;
      opcode == 0 ==> r == Reply(Destroy(c, x.id), [WindowRemoved(x.uniq)], None)
    ensures opcode == 1 ==> r == GetToplevel(c, xa, data)
    ensures opcode == 2 ==> r == GetPopup(c, xa, data, windows)
    ensures opcode == 3 ==> r == SetWindowGeometry(c, xa, data)
    ensures opcode == 4 ==> r == Reply(Store(c, xa, XdgSurfaceObj(c.objs[xa].xdg.(configuring := false))), [], None)
    ensures opcode !in {0, 1, 2, 3, 4} ==> r == Unknown(c, opcode)
  {
    var x := c.objs[xa].xdg;
    if opcode == 0 then Reply(Destroy(c, x.id), [WindowRemoved(x.uniq)], None)
    else if opcode == 1 then GetToplevel(c, xa, data)
    else if opcode == 2 then GetPopup(c, xa, data, windows)
    else if opcode == 3 then SetWindowGeometry(c, xa, data)
    else if opcode == 4 then Reply(Store(c, xa, XdgSurfaceObj(x.(configuring := false))), [], None)
    else Unknown(c, opcode)
  }

  // ---------------------------------------------------------------------
  // xdg_toplevel and xdg_popup

  /** `XDG_Toplevel.HandleMessage` for the toplevel at `ta`: destroy (0), set_title (2);
      opcodes 1, 3 to 10, 12 and 13 are accepted and ignored; 11 and all others fail. */
  function HandleToplevel(c: Conn, ta: int, opcode: int, data: seq<int>): (r: Reply)
    requires Valid(c) && IsToplevelAt(c, ta) && AllBytes(data)
    ensures Valid(r.conn) && r.out == []
    ensures opcode == 0 ==> r == Reply(Destroy(c, c.objs[ta].toplevel.id), [], None)
    ensures opcode == 2 ==> (r.error.None? <==> ParseAll(data, [StringK]).Ok?) && (r.error.Some? ==> r.conn == c)
    ensures var p := ParseAll(data, [StringK]);
      opcode == 2 && p.Ok? ==> r.conn == Store(c, ta, ToplevelObj(c.objs[ta].toplevel.(title := p.value[0].s)))
    ensures opcode in {1, 3, 4, 5, 6, 7, 8, 9, 10, 12, 13} ==> r == Reply(c, [], None)
    ensures opcode !in {0, 1, 2, 3, 4, 5, 6, 7, 8, 9, 10, 12, 13} ==> r == Unknown(c, opcode)
  {
    var t := c.objs[ta].toplevel;
    if opcode == 0 then Reply(Destroy(c, t.id), [], None)
    else if opcode == 2 then
      match ParseAll(data, [StringK])
      case Err(e) => Short(c, e)
      case Ok(vs) => Reply(Store(c, ta, ToplevelObj(t.(title := vs[0].s))), [], None)
    else if opcode in {1, 3, 4, 5, 6, 7, 8, 9, 10, 12, 13} then Reply(c, [], None)
    else Unknown(c, opcode)
  }

  /** destroy (0) on a popup: the id is dropped; when the workspace holds the parent's
      window, that window's top popup is popped and the parent forgets its popup. */
  function DestroyPopup(c: Conn, pa: int, windows: set<int>): (r: Reply)
    requires Valid(c) && IsPopupAt(c, pa)
    ensures Valid(r.conn)
    ensures var p := c.objs[pa].popup;
      !IsXdg(c, p.parent) ==> r == Reply(Destroy(c, p.id), [], Some(Fault))
    ensures var p := c.objs[pa].popup;
      IsXdg(c, p.parent) ==>
        var px := c.objs[p.parent].xdg;
        r.error.None?
        && (px.uniq in windows ==>
              r == Reply(Store(Destroy(c, p.id), p.parent, XdgSurfaceObj(px.(popup := None))), [PopupPopped(px.uniq)], None))
        && (px.uniq !in windows ==> r == Reply(Destroy(c, p.id), [], None))
  {
    var p := c.objs[pa].popup;
    var c1 := Destroy(c, p.id);
    if !IsXdg(c, p.parent) then Reply(c1, [], Some(Fault))
    else
      var px := c.objs[p.parent].xdg;
      if px.uniq in windows then
        Reply(Store(c1, p.parent, XdgSurfaceObj(px.(popup := None))), [PopupPopped(px.uniq)], None)
      else Reply(c1, [], None)
  }

  /** grab (1) on a popup: keyboard focus moves to the popup's surface, provided the
      seat `FindSeat` picks carries the requested id. */
  function GrabPopup(c: Conn, pa: int, data: seq<int>): (r: Reply)
    requires Valid(c) && IsPopupAt(c, pa) && AllBytes(data)
    ensures Valid(r.conn)
    ensures ParseAll(data, [UintK]).Err? ==> r == Short(c, ParseAll(data, [UintK]).error)
    ensures var p := ParseAll(data, [UintK]); var s := FindSeat(c);
      p.Ok? && (s.None? || c.objs[s.value].seat.id != p.value[0].u) ==> r.error.Some? && r.conn == c && r.out == []
    ensures var p := ParseAll(data, [UintK]); var s := FindSeat(c); var surf := c.objs[pa].popup.surface;
      p.Ok? && s.Some? && c.objs[s.value].seat.id == p.value[0].u && IsXdg(c, surf) ==>
        r == Reply(Seats.Grab(c, s.value, c.objs[surf].xdg.surface).0, Seats.Grab(c, s.value, c.objs[surf].xdg.surface).1, None)
  {
    match ParseAll(data, [UintK])
    case Err(e) => Short(c, e)
    case Ok(vs) =>
      match FindSeat(c)
      case None => Reply(c, [], Some(Rejected("grab_seat: could not find seat")))
      case Some(sa) =>
        if c.objs[sa].seat.id != vs[0].u then Reply(c, [], Some(Rejected("grab_seat: could not find seat")))
        else
          var surf := c.objs[pa].popup.surface;
          if !IsXdg(c, surf) then Reply(c, [], Some(Fault))
          else
            var (c1, out) := Seats.Grab(c, sa, c.objs[surf].xdg.surface);
            Reply(c1, out, None)
  }

  /** `XDGPopup.HandleMessage` for the popup at `pa`: destroy (0), grab (1), and
      reposition (2), which only configures the parent again. */
  function HandlePopup(c: Conn, pa: int, opcode: int, data: seq<int>, windows: set<int>): (r: Reply)
    requires Valid(c) && IsPopupAt(c, pa) && AllBytes(data)
    ensures Valid(r.conn)
    ensures opcode == 0 ==> r == DestroyPopup(c, pa, windows)
    ensures opcode == 1 ==> r == GrabPopup(c, pa, data)
    ensures var p := c.objs[pa].popup;
      opcode == 2 && IsXdg(c, p.parent) ==> r == Reply(Configure(c, p.parent).0, Configure(c, p.parent).1, None)
    ensures var p := c.objs[pa].popup;
      opcode == 2 && !IsXdg(c, p.parent) ==> r == Reply(c, [], Some(Fault))
    ensures opcode !in {0, 1, 2} ==> r == Unknown(c, opcode)
  {
    var p := c.objs[pa].popup;
    if opcode == 0 then DestroyPopup(c, pa, windows)
    else if opcode == 1 then GrabPopup(c, pa, data)
    else if opcode == 2 then
      if !IsXdg(c, p.parent) then Reply(c, [], Some(Fault))
      else
        var (c1, out) := Configure(c, p.parent);
        Reply(c1, out, None)
    else Unknown(c, opcode)
  }

  // ---------------------------------------------------------------------
  // Properties

  /** A surface is configured at most once per acknowledgement: a second configure
      before the ack sends nothing, and one after the ack carries the next serial. */
  lemma ConfigureWaitsForAck(c: Conn, xa: int)
    requires Valid(c) && IsXdg(c, xa) && !c.objs[xa].xdg.configuring
    ensures Configure(Configure(c, xa).0, xa).1 == []
    ensures var x := c.objs[xa].xdg;
      var first := Configure(c, xa);
      var acked := HandleXdgSurface(first.0, xa, 4, [], {}).conn;
      IsXdg(acked, xa)
      && var second := Configure(acked, xa);
      first.1[|first.1| - 1] == Msg(x.id, 0, [UintF(Wrap32(x.serial + 1))])
      && second.1[|second.1| - 1] == Msg(x.id, 0, [UintF(Wrap32(Wrap32(x.serial + 1) + 1))])
  {
  }

  /** A resize while a configure is unacknowledged still tells the toplevel its new size,
      but the surface itself is not configured again. */
  lemma ResizeBeforeAck(c: Conn, xa: int, width: int, height: int)
    requires Valid(c) && IsXdg(c, xa) && c.objs[xa].xdg.configuring && ToplevelOf(c, c.objs[xa].xdg).Some?
    ensures var t := c.objs[c.objs[xa].xdg.topLevel.value].toplevel;
      Resize(c, xa, width, height).1 == [Msg(t.id, 0, [UintF(Wrap32(width)), UintF(Wrap32(height)), UintF(0)])]
  {
  }

  /** Two toplevels created on one connection receive different window indices, as long
      as its counter does not wrap. */
  lemma ToplevelIndicesDiffer(c: Conn, xa: int, xb: int, id1: int, id2: int)
    requires Valid(c) && IsXdg(c, xa) && IsXdg(c, xb) && 0 <= c.globalIdx < U32 - 2
    ensures var a := AddToplevel(c, xa, id1);
      IsXdg(a.0, xb)
      && var b := AddToplevel(a.0, xb, id2);
      a.1.window.index != b.1.window.index
  {
  }

  /** Opening a popup on a parent that has a window and destroying it again leaves the
      parent's window with a push and a matching pop, and the parent without a popup. */
  lemma PopupOpenThenDestroy(c: Conn, xa: int, id: int, parent: int, pos: int, windows: set<int>)
    requires Valid(c) && IsXdg(c, xa) && IsXdg(c, parent) && pos in c.objs && c.objs[pos].PositionerObj?
    requires c.objs[parent].xdg.uniq in windows
    ensures var o := OpenPopup(c, xa, id, parent, pos, windows); var pa := c.next;
      IsPopupAt(o.conn, pa)
      && var d := DestroyPopup(o.conn, pa, windows);
      var u := c.objs[parent].xdg.uniq;
      o.out[0] == PopupPushed(u, pa) && d.error.None? && d.out == [PopupPopped(u)]
      && IsXdg(d.conn, parent) && d.conn.objs[parent].xdg.popup.None? && id !in d.conn.ids
  {
  }

  /** A title without NUL bytes, encoded as a wire string, is stored as sent. */
  lemma SetTitleRoundTrip(c: Conn, ta: int, title: seq<int>)
    requires Valid(c) && IsToplevelAt(c, ta) && AllBytes(title) && |title| + 8 < U32
    requires forall i :: 0 <= i < |title| ==> title[i] != 0
    ensures AllBytes(EncodeString(title))
    ensures var r := HandleToplevel(c, ta, 2, EncodeString(title));
      r.error.None? && IsToplevelAt(r.conn, ta) && r.conn.objs[ta].toplevel.title == title
  {
    StringRoundTrip(title, []);
    assert EncodeString(title) + [] == EncodeString(title);
    assert Parse(EncodeString(title), [StringK]) == Parsed([StringV(title)], None);
  }
}
