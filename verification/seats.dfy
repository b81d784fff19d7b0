/** wayland/seat.go: the wl_seat, its serial counter, keyboard focus and pointer focus. */
module Seats {
  import opened Wrappers
  import opened Ints
  import opened Geometry
  import opened Events
  import opened Wire
  import opened Registry
  import opened Protocol
  import opened XdgGeometry
  import Keyboards

  /** wl_seat capability bits: pointer (1) and keyboard (2). */
  const CapPointer := 1
  const CapKeyboard := 2

  /** The seat name, "default", as bytes. */
  const SeatName: seq<int> := [0x64, 0x65, 0x66, 0x61, 0x75, 0x6c, 0x74]

  predicate IsSeatAt(c: Conn, sa: int) { sa in c.objs && c.objs[sa].SeatObj? }

  /** `NewSeat`: capabilities (pointer and keyboard) then the name; no keyboard, no
      pointer, serial 0, no focus. */
  function NewSeat(id: int): (r: (WlSeat, seq<Out>))
    ensures r.0.id == id && r.0.keyboard.None? && r.0.mouse.None? && r.0.serial == 0 && r.0.pointerFocus.None?
    ensures |r.1| == 2 && r.1[0] == Msg(id, 0, [UintF(CapPointer + CapKeyboard)])
    ensures r.1[1] == Msg(id, 1, [StringF(SeatName)])
  {
    (WlSeat(id, None, None, 0, None), [Msg(id, 0, [UintF(3)]), Msg(id, 1, [StringF(SeatName)])])
  }

  /** The seat's keyboard, pointer and pointer focus, each absent (Go's nil) unless the
      reference names an object of the right kind. */
  function KeyboardOf(c: Conn, s: WlSeat): (r: Option<int>)
    ensures r.Some? <==> s.keyboard.Some? && s.keyboard.value in c.objs && c.objs[s.keyboard.value].KeyboardObj?
    ensures r.Some? ==> r == s.keyboard
  {
    if s.keyboard.Some? && s.keyboard.value in c.objs && c.objs[s.keyboard.value].KeyboardObj? then s.keyboard else None
  }

  function MouseOf(c: Conn, s: WlSeat): (r: Option<int>)
    ensures r.Some? <==> s.mouse.Some? && s.mouse.value in c.objs && c.objs[s.mouse.value].PointerObj?
    ensures r.Some? ==> r == s.mouse
  {
    if s.mouse.Some? && s.mouse.value in c.objs && c.objs[s.mouse.value].PointerObj? then s.mouse else None
  }

  function FocusOf(c: Conn, s: WlSeat): (r: Option<int>)
    ensures r.Some? <==> s.pointerFocus.Some? && IsXdg(c, s.pointerFocus.value)
    ensures r.Some? ==> r == s.pointerFocus
  {
    if s.pointerFocus.Some? && IsXdg(c, s.pointerFocus.value) then s.pointerFocus else None
  }

  /** `s.serial += 1` on a uint32. */
  function Bump(c: Conn, sa: int): (r: Conn)
    requires Valid(c) && IsSeatAt(c, sa)
    ensures Valid(r) && IsSeatAt(r, sa) && r.objs.Keys == c.objs.Keys
    ensures r.objs[sa] == SeatObj(c.objs[sa].seat.(serial := Wrap32(c.objs[sa].seat.serial + 1)))
    ensures forall b :: b in c.objs && b != sa ==> r.objs[b] == c.objs[b]
    ensures r == c.(objs := r.objs)
  {
    var s := c.objs[sa].seat;
    Store(c, sa, SeatObj(s.(serial := Wrap32(s.serial + 1))))
  }

  /** `Seat.Grab`: moves keyboard focus to the wl_surface at `surf`.  The leave (if
      the keyboard had a focus) carries the old serial and the enter the next one. */
  function Grab(c: Conn, sa: int, surf: int): (r: (Conn, seq<Out>))
    requires Valid(c) && IsSeatAt(c, sa)
    ensures Valid(r.0) && r.0.objs.Keys == c.objs.Keys && r.0 == c.(objs := r.0.objs)
    ensures IsSeatAt(r.0, sa) && r.0.objs[sa].seat == c.objs[sa].seat.(serial := r.0.objs[sa].seat.serial)
    ensures KeyboardOf(c, c.objs[sa].seat).None? ==> r == (c, [])
    ensures var s := c.objs[sa].seat; var ka := KeyboardOf(c, s);
      ka.Some? ==>
        r.0.objs[sa].seat.serial == Wrap32(s.serial + 1)
        && r.0.objs[ka.value] == KeyboardObj(c.objs[ka.value].keyboard.(active := Some(surf)))
        && r.1 == Keyboards.Leave(c, ka.value, s.serial) + Keyboards.Enter(c, ka.value, Wrap32(s.serial + 1), surf).1
    ensures var ka := KeyboardOf(c, c.objs[sa].seat);
      forall b :: b in c.objs && b != sa && (ka.None? || b != ka.value) ==> r.0.objs[b] == c.objs[b]
  {
    var s := c.objs[sa].seat;
    match KeyboardOf(c, s)
    case None => (c, [])
    case Some(ka) =>
      var leave := Keyboards.Leave(c, ka, s.serial);
      var c1 := Bump(c, sa);
      var (c2, enter) := Keyboards.Enter(c1, ka, Wrap32(s.serial + 1), surf);
      assert c1.objs[ka] == c.objs[ka];
      (c2, leave + enter)
  }

  /** After a grab the keyboard's next leave names the grabbed surface, carrying the
      serial of the enter that focused it. */
  lemma GrabThenGrabLeavesFirst(c: Conn, sa: int, s1: int, s2: int)
    requires Valid(c) && IsSeatAt(c, sa) && KeyboardOf(c, c.objs[sa].seat).Some?
    ensures var g1 := Grab(c, sa, s1);
      var g2 := Grab(g1.0, sa, s2);
      var k := c.objs[KeyboardOf(c, c.objs[sa].seat).value].keyboard;
      |g2.1| >= 1 && g2.1[0] == Msg(k.id, 2, [UintF(Wrap32(c.objs[sa].seat.serial + 1)), UintF(SurfaceIdAt(g1.0, s1))])
      && g2.1[1] == Msg(k.id, 1, Keyboards.EnterFields(Wrap32(Wrap32(c.objs[sa].seat.serial + 1) + 1), SurfaceIdAt(g1.0, s2), Keyboards.Ascending(k.kb.state)))
  {
    var s := c.objs[sa].seat;
    var ka := KeyboardOf(c, s).value;
    var g1 := Grab(c, sa, s1);
    assert KeyboardOf(g1.0, g1.0.objs[sa].seat) == Some(ka);
  }

  /** `Seat.ProcessKeyboardEvent`: with a keyboard, the serial advances and the key goes
      to the keyboard under the new serial; without one nothing happens. */
  function ProcessKeyboardEvent(c: Conn, sa: int, ev: KeyboardEvent): (r: (Conn, seq<Out>))
    requires Valid(c) && IsSeatAt(c, sa)
    ensures Valid(r.0) && r.0.objs.Keys == c.objs.Keys
    ensures KeyboardOf(c, c.objs[sa].seat).None? ==> r == (c, [])
    ensures var s := c.objs[sa].seat; var ka := KeyboardOf(c, s);
      ka.Some? ==> (r.0.objs[sa] == SeatObj(s.(serial := Wrap32(s.serial + 1)))
                    && r == Keyboards.ProcessKey(Bump(c, sa), ka.value, ev, Wrap32(s.serial + 1)))
  {
    var s := c.objs[sa].seat;
    match KeyboardOf(c, s)
    case None => (c, [])
    case Some(ka) =>
      var c1 := Bump(c, sa);
      Keyboards.ProcessKey(c1, ka, ev, Wrap32(s.serial + 1))
  }

  // ---------------------------------------------------------------------
  // Hit testing down the popup chain

  /** The xdg_surface of the popup opened on the xdg_surface at `a`, if there is one. */
  function PopupChild(c: Conn, a: int): (r: Option<int>)
    requires IsXdg(c, a)
  {
    var x := c.objs[a].xdg;
    if x.popup.Some? && x.popup.value in c.objs && c.objs[x.popup.value].PopupObj? then
      Some(c.objs[x.popup.value].popup.surface)
    else None
  }

  /** The surfaces `checkIntersect` descends through, at most `n` of them. */
  function Descent(c: Conn, xa: Option<int>, n: nat): (d: seq<int>)
    ensures |d| <= n
    ensures forall i :: 0 <= i < |d| ==> IsXdg(c, d[i])
    ensures |d| > 0 ==> xa == Some(d[0])
    decreases n
  {
    if xa.None? || !IsXdg(c, xa.value) || n == 0 then []
    else [xa.value] + Descent(c, PopupChild(c, xa.value), n - 1)
  }

  /** `checkIntersect` as written: the deepest popup holding the point wins, and a
      surface is asked only when nothing above it was hit.  Go recurses with no bound;
      `None` here means the recursion went deeper than `fuel` levels. */
  function CheckIntersectAsWritten(c: Conn, p: Point, xa: Option<int>, fuel: nat): (r: Option<(Option<int>, Conn)>)
    requires Valid(c)
    ensures r.Some? ==> Valid(r.value.1) && r.value.1 == c.(objs := r.value.1.objs) && r.value.1.objs.Keys == c.objs.Keys
    ensures r.Some? ==> forall b :: b in c.objs && !c.objs[b].RegionObj? ==> r.value.1.objs[b] == c.objs[b]
    ensures r.Some? && r.value.0.Some? ==> IsXdg(c, r.value.0.value)
    ensures xa.None? || !IsXdg(c, xa.value) ==> r == Some((None, c))
    decreases fuel
  {
    if xa.None? || !IsXdg(c, xa.value) then Some((None, c))
    else if fuel == 0 then None
    else
      var below :=
        match PopupChild(c, xa.value)
        case None => Some((None, c))
        case Some(child) => CheckIntersectAsWritten(c, p, Some(child), fuel - 1);
      if below.None? then None
      else if below.value.0.Some? then below
      else
        var hit := XdgGeometry.Intersects(below.value.1, c.objs[xa.value].xdg, p);
        Some((if hit.0 then xa else None, hit.1))
  }

  /** An xdg_surface made a popup of itself (`get_popup` naming its own id as parent)
      sends the search round the cycle for ever: no depth suffices. */
  lemma {:induction false} SelfPopupDiverges(c: Conn, p: Point, a: int, fuel: nat)
    requires Valid(c) && IsXdg(c, a) && PopupChild(c, a) == Some(a)
    ensures CheckIntersectAsWritten(c, p, Some(a), fuel).None?
    decreases fuel
  {
    if fuel > 0 {
      SelfPopupDiverges(c, p, a, fuel - 1);
    }
  }

  /** The search with the cycle cut: a surface already visited on the way down counts as
      absent.  Otherwise it decides as `checkIntersect` does. */
  function CheckIntersect(c: Conn, p: Point, xa: Option<int>, seen: set<int>): (r: (Option<int>, Conn))
    requires Valid(c)
    ensures Valid(r.1) && r.1 == c.(objs := r.1.objs) && r.1.objs.Keys == c.objs.Keys
    ensures forall b :: b in c.objs && !c.objs[b].RegionObj? ==> r.1.objs[b] == c.objs[b]
    ensures r.0.Some? ==> IsXdg(c, r.0.value) && r.0.value !in seen
    ensures xa.None? || !IsXdg(c, xa.value) || xa.value in seen ==> r == (None, c)
    decreases c.objs.Keys - seen
  {
    if xa.None? || !IsXdg(c, xa.value) || xa.value in seen then (None, c)
    else
      var a := xa.value;
      var below :=
        match PopupChild(c, a)
        case None => (None, c)
        case Some(child) => CheckIntersect(c, p, Some(child), seen + {a});
      if below.0.Some? then below
      else
        var hit := XdgGeometry.Intersects(below.1, c.objs[a].xdg, p);
        (if hit.0 then xa else None, hit.1)
  }

  /** The surfaces of a descent are all distinct and none was visited before. */
  predicate FreshChain(d: seq<int>, seen: set<int>)
    decreases |d|
  {
    |d| == 0 || (d[0] !in seen && FreshChain(d[1..], seen + {d[0]}))
  }

  /** The search rewrites regions only, and only with regions. */
  lemma {:induction false} CheckIntersectKeepsRegions(c: Conn, p: Point, xa: Option<int>, seen: set<int>)
    requires Valid(c)
    ensures forall b :: b in c.objs && c.objs[b].RegionObj? ==> CheckIntersect(c, p, xa, seen).1.objs[b].RegionObj?
    decreases c.objs.Keys - seen
  {
    if !(xa.None? || !IsXdg(c, xa.value) || xa.value in seen) {
      var a := xa.value;
      var below :=
        match PopupChild(c, a)
        case None => (None, c)
        case Some(child) => CheckIntersect(c, p, Some(child), seen + {a});
      match PopupChild(c, a)
      case None =>
      case Some(child) => CheckIntersectKeepsRegions(c, p, Some(child), seen + {a});
      assert forall b :: b in c.objs && c.objs[b].RegionObj? ==> below.1.objs[b].RegionObj?;
    }
  }

  /** Wherever the code's search returns at all on a chain without repeats, the
      corrected search gives the same answer and leaves the same state. */
  lemma {:induction false} CheckIntersectAgrees(c: Conn, p: Point, xa: Option<int>, fuel: nat, seen: set<int>)
    requires Valid(c)
    requires CheckIntersectAsWritten(c, p, xa, fuel).Some?
    requires FreshChain(Descent(c, xa, fuel), seen)
    ensures CheckIntersect(c, p, xa, seen) == CheckIntersectAsWritten(c, p, xa, fuel).value
    decreases fuel
  {
    if xa.Some? && IsXdg(c, xa.value) && fuel > 0 {
      var a := xa.value;
      var d := Descent(c, xa, fuel);
      assert d == [a] + Descent(c, PopupChild(c, a), fuel - 1);
      assert d[1..] == Descent(c, PopupChild(c, a), fuel - 1);
      match PopupChild(c, a)
      case None =>
      case Some(child) =>
        CheckIntersectAgrees(c, p, Some(child), fuel - 1, seen + {a});
    }
  }

  /** A toplevel without popups and without an input region is hit everywhere. */
  lemma BareToplevelIsHit(c: Conn, p: Point, a: int, seen: set<int>)
    requires Valid(c) && IsXdg(c, a) && a !in seen
    requires PopupChild(c, a).None? && c.objs[a].xdg.positioner.None?
    requires var x := c.objs[a].xdg; x.surface in c.objs && c.objs[x.surface].SurfaceObj? && c.objs[x.surface].surface.committedInput.None?
    ensures CheckIntersect(c, p, Some(a), seen) == (Some(a), c)
  {
  }

  // ---------------------------------------------------------------------
  // Pointer events

  /** The xdg_surface at `a` with its `hasPointer` flag set to `b`. */
  function SetHasPointer(c: Conn, a: int, b: bool): (r: Conn)
    requires Valid(c) && IsXdg(c, a)
    ensures Valid(r) && r.objs.Keys == c.objs.Keys && r == c.(objs := r.objs)
    ensures r.objs[a] == XdgSurfaceObj(c.objs[a].xdg.(hasPointer := b))
    ensures forall k :: k in c.objs && k != a ==> r.objs[k] == c.objs[k]
  {
    Store(c, a, XdgSurfaceObj(c.objs[a].xdg.(hasPointer := b)))
  }

  /** The wl_pointer.leave a seat sends when the pointer leaves `f`. */
  function PointerLeave(c: Conn, mid: int, serial: int, f: int): Out
    requires IsXdg(c, f)
  {
    Msg(mid, 1, [UintF(serial), UintF(SurfaceIdAt(c, c.objs[f].xdg.surface))])
  }

  /** The pointer leaves the focus `f` for `next` (possibly nothing): the serial
      advances and `f` loses the pointer. */
  function Unfocus(c: Conn, sa: int, f: int, next: Option<int>): (d: Conn)
    requires Valid(c) && IsSeatAt(c, sa) && IsXdg(c, f)
    ensures Valid(d) && SameShape(c, d) && IsSeatAt(d, sa)
    ensures var s := c.objs[sa].seat; d.objs[sa] == SeatObj(s.(serial := Wrap32(s.serial + 1), pointerFocus := next))
    ensures d.objs[f] == XdgSurfaceObj(c.objs[f].xdg.(hasPointer := false))
    ensures forall b :: b in c.objs && b != sa && b != f ==> d.objs[b] == c.objs[b]
  {
    var s := c.objs[sa].seat;
    Store(SetHasPointer(c, f, false), sa, SeatObj(s.(serial := Wrap32(s.serial + 1), pointerFocus := next)))
  }

  /** The first half of `ProcessPointerEvent`, once a move has been hit-tested to `hit`:
      re-target the focus.  `goOn` is false when the move hit nothing, where the handler
      returns early.  Focus compares xdg_surfaces by wire id, not by identity. */
  method Retarget(c: Conn, sa: int, mid: int, hit: Option<int>) returns (d: Conn, out: seq<Out>, goOn: bool)
    requires Valid(c) && IsSeatAt(c, sa) && (hit.Some? ==> IsXdg(c, hit.value))
    ensures Valid(d) && SameShape(c, d) && IsSeatAt(d, sa)
    ensures d.objs[sa].seat == c.objs[sa].seat.(serial := d.objs[sa].seat.serial, pointerFocus := d.objs[sa].seat.pointerFocus)
    ensures forall b :: b in c.objs && !c.objs[b].XdgSurfaceObj? && b != sa ==> d.objs[b] == c.objs[b]
    ensures forall b :: b in c.objs && c.objs[b].XdgSurfaceObj? ==>
      d.objs[b].XdgSurfaceObj? && d.objs[b].xdg == c.objs[b].xdg.(hasPointer := d.objs[b].xdg.hasPointer)
    ensures goOn <==> hit.Some?
    ensures var s := c.objs[sa].seat;
      hit.None? ==> (d.objs[sa].seat.pointerFocus.None?
        && (FocusOf(c, s).None? ==> out == [] && d.objs[sa].seat.serial == s.serial)
        && (FocusOf(c, s).Some? ==>
              d.objs[sa].seat.serial == Wrap32(s.serial + 1)
              && out == [PointerLeave(c, mid, Wrap32(s.serial + 1), FocusOf(c, s).value)]
              && !d.objs[FocusOf(c, s).value].xdg.hasPointer))
    ensures var s := c.objs[sa].seat;
      hit.Some? ==> var f := d.objs[sa].seat.pointerFocus;
        f.Some? && IsXdg(d, f.value) && d.objs[f.value].xdg.id == c.objs[hit.value].xdg.id
        && (FocusOf(c, s).None? ==> f == hit && !d.objs[hit.value].xdg.hasPointer && out == [])
        && (FocusOf(c, s).Some? && c.objs[FocusOf(c, s).value].xdg.id == c.objs[hit.value].xdg.id ==>
              f == s.pointerFocus && out == [] && d == c)
        && (FocusOf(c, s).Some? && c.objs[FocusOf(c, s).value].xdg.id != c.objs[hit.value].xdg.id ==>
              f == hit && d.objs[sa].seat.serial == Wrap32(s.serial + 1)
              && out == [PointerLeave(c, mid, Wrap32(s.serial + 1), FocusOf(c, s).value)]
              && !d.objs[FocusOf(c, s).value].xdg.hasPointer)
  {
    var s := c.objs[sa].seat;
    if FocusOf(c, s).None? {
      if hit.None? {
        d, out, goOn := Store(c, sa, SeatObj(s.(pointerFocus := None))), [], false;
      } else {
        var c2 := SetHasPointer(c, hit.value, false);
        d, out, goOn := Store(c2, sa, SeatObj(s.(pointerFocus := hit))), [], true;
      }
    } else {
      var f := s.pointerFocus.value;
      if hit.Some? && c.objs[f].xdg.id == c.objs[hit.value].xdg.id {
        d, out, goOn := c, [], true;
      } else {
        d, out, goOn := Unfocus(c, sa, f, hit), [PointerLeave(c, mid, Wrap32(s.serial + 1), f)], hit.Some?;
      }
    }
  }

  /** Adding after a uint32 wrap is adding before it. */
  lemma WrapAdd(x: int, k: int)
    ensures Wrap32(Wrap32(x) + k) == Wrap32(x + k)
  {
  }

  /** Keyboard focus follows the pointer: leave under one fresh serial, enter the
      surface `surf` under the next. */
  method KeyboardRefocus(c: Conn, sa: int, ka: int, surf: int) returns (d: Conn, out: seq<Out>)
    requires Valid(c) && IsSeatAt(c, sa) && ka in c.objs && c.objs[ka].KeyboardObj?
    ensures Valid(d) && SameShape(c, d)
    ensures d.objs[sa] == SeatObj(c.objs[sa].seat.(serial := Wrap32(c.objs[sa].seat.serial + 2)))
    ensures d.objs[ka] == KeyboardObj(c.objs[ka].keyboard.(active := Some(surf)))
    ensures forall b :: b in c.objs && b != sa && b != ka ==> d.objs[b] == c.objs[b]
    ensures forall i :: 0 <= i < |out| ==> out[i].Send? && out[i].msg.opcode in {1, 2, 4}
    ensures var serial := c.objs[sa].seat.serial;
      out == Keyboards.Leave(c, ka, Wrap32(serial + 1)) + Keyboards.Enter(c, ka, Wrap32(serial + 2), surf).1
  {
    var serial := c.objs[sa].seat.serial;
    var c0 := Bump(c, sa);
    var leave := Keyboards.Leave(c0, ka, Wrap32(serial + 1));
    var c1 := Bump(c0, sa);
    WrapAdd(serial + 1, 1);
    var enter := Keyboards.Enter(c1, ka, Wrap32(serial + 2), surf);
    d, out := enter.0, leave + enter.1;
  }

  /** The keyboard half of a first enter: a seat with a keyboard refocuses it on `surf`
      (`KeyboardRefocus`); a seat without one sends nothing and keeps its serial. */
  method KeyboardFollows(c: Conn, sa: int, surf: int) returns (d: Conn, out: seq<Out>)
    requires Valid(c) && IsSeatAt(c, sa)
    ensures Valid(d) && SameShape(c, d) && IsSeatAt(d, sa)
    ensures var s := c.objs[sa].seat;
      d.objs[sa] == SeatObj(s.(serial := if KeyboardOf(c, s).Some? then Wrap32(s.serial + 2) else s.serial))
    ensures var ka := KeyboardOf(c, c.objs[sa].seat);
      ka.Some? ==> ka.value in d.objs && d.objs[ka.value] == KeyboardObj(c.objs[ka.value].keyboard.(active := Some(surf)))
    ensures var ka := KeyboardOf(c, c.objs[sa].seat);
      forall b :: b in c.objs && b != sa && Some(b) != ka ==> d.objs[b] == c.objs[b]
    ensures forall i :: 0 <= i < |out| ==> out[i].Send? && out[i].msg.opcode in {1, 2, 4}
    ensures var s := c.objs[sa].seat; var ka := KeyboardOf(c, s);
      out == if ka.Some? then Keyboards.Leave(c, ka.value, Wrap32(s.serial + 1))
                              + Keyboards.Enter(c, ka.value, Wrap32(s.serial + 2), surf).1
             else []
  {
    var s := c.objs[sa].seat;
    d, out := c, [];
    if KeyboardOf(c, s).Some? {
      d, out := KeyboardRefocus(c, sa, s.keyboard.value, surf);
    }
  }

  /** The enter sequence for a focus that does not have the pointer yet: with a keyboard,
      keyboard leave and enter each under a fresh serial; then wl_pointer.enter under a
      fresh serial at the surface-local position, and a frame. */
  method EnterFocus(c: Conn, sa: int, top: int, mid: int, local: Point) returns (d: Conn, out: seq<Out>)
    requires Valid(c) && IsSeatAt(c, sa) && IsXdg(c, top)
    ensures Valid(d) && SameShape(c, d) && IsSeatAt(d, sa)
    ensures var s := c.objs[sa].seat;
      d.objs[sa] == SeatObj(s.(serial := Wrap32(s.serial + if KeyboardOf(c, s).Some? then 3 else 1)))
    ensures d.objs[top] == XdgSurfaceObj(c.objs[top].xdg.(hasPointer := true))
    ensures forall b :: b in c.objs && !c.objs[b].SeatObj? && !c.objs[b].XdgSurfaceObj? && !c.objs[b].KeyboardObj? ==>
      d.objs[b] == c.objs[b]
    ensures |out| >= 2 && out[|out| - 1] == Msg(mid, 5, [])
    ensures out[|out| - 2] == Msg(mid, 0, [UintF(d.objs[sa].seat.serial), UintF(SurfaceIdAt(c, c.objs[top].xdg.surface)), FixedF(local.x), FixedF(local.y)])
    ensures var ka := KeyboardOf(c, c.objs[sa].seat);
      ka.Some? ==> ka.value in d.objs && d.objs[ka.value] == KeyboardObj(c.objs[ka.value].keyboard.(active := Some(c.objs[top].xdg.surface)))
    ensures forall i :: 0 <= i < |out| - 2 ==> out[i].Send? && out[i].msg.opcode in {1, 2, 4}
    ensures var s := c.objs[sa].seat; var ka := KeyboardOf(c, s);
      out[..|out| - 2] == if ka.Some? then Keyboards.Leave(c, ka.value, Wrap32(s.serial + 1))
                                         + Keyboards.Enter(c, ka.value, Wrap32(s.serial + 2), c.objs[top].xdg.surface).1
                          else []
  {
    var s := c.objs[sa].seat;
    var x := c.objs[top].xdg;
    var c1, kout := KeyboardFollows(c, sa, x.surface);
    WrapAdd(s.serial + 2, 1);
    var c2 := Bump(c1, sa);
    var serial := c2.objs[sa].seat.serial;
    d := SetHasPointer(c2, top, true);
    out := kout + [Msg(mid, 0, [UintF(serial), UintF(SurfaceIdAt(c, x.surface)), FixedF(local.x), FixedF(local.y)]), Msg(mid, 5, [])];
    assert out[..|out| - 2] == kout;
  }

  /** What follows the enter: motion at `local`, button under a fresh serial, axis, and
      the closing frame. */
  method PointerTail(c: Conn, sa: int, mid: int, ev: PointerEvent, local: Point) returns (d: Conn, out: seq<Out>)
    requires Valid(c) && IsSeatAt(c, sa)
    ensures Valid(d) && SameShape(c, d)
    ensures var s := c.objs[sa].seat;
      d.objs[sa] == SeatObj(s.(serial := if ev.button.Some? then Wrap32(s.serial + 1) else s.serial))
    ensures forall b :: b in c.objs && b != sa ==> d.objs[b] == c.objs[b]
    ensures |out| >= 1 && out[|out| - 1] == Msg(mid, 5, [])
    ensures forall i :: 0 <= i < |out| ==> out[i].Send? && out[i].msg.opcode in {2, 3, 4, 5}
    ensures ev.move.Some? ==> out[0] == Msg(mid, 2, [UintF(ev.move.value.time), FixedF(local.x), FixedF(local.y)])
    ensures ev.button.Some? ==>
      var bt := ev.button.value;
      Msg(mid, 3, [UintF(Wrap32(c.objs[sa].seat.serial + 1)), UintF(bt.time), UintF(bt.button), UintF(bt.state)]) in out
     ensures out == (if ev.move.Some? then [Msg(mid, 2, [UintF(ev.move.value.time), FixedF(local.x), FixedF(local.y)])] else [])
                 + (if ev.button.Some?
                    then [Msg(mid, 3, [UintF(Wrap32(c.objs[sa].seat.serial + 1)), UintF(ev.button.value.time),
                                       UintF(ev.button.value.button), UintF(ev.button.value.state)])]
                    else [])
                 + (if ev.axis.Some?
                    then [Msg(mid, 4, [UintF(ev.axis.value.time), UintF(ev.axis.value.axis), FixedF(ev.axis.value.value)])]
                    else [])
                 + [Msg(mid, 5, [])]
  {
    d := c;
    out := [];
    if ev.move.Some? {
      out := [Msg(mid, 2, [UintF(ev.move.value.time), FixedF(local.x), FixedF(local.y)])];
    }
    if ev.button.Some? {
      d := Bump(c, sa);
      var bt := ev.button.value;
      out := out + [Msg(mid, 3, [UintF(d.objs[sa].seat.serial), UintF(bt.time), UintF(bt.button), UintF(bt.state)])];
      assert out[|out| - 1] == Msg(mid, 3, [UintF(Wrap32(c.objs[sa].seat.serial + 1)), UintF(bt.time), UintF(bt.button), UintF(bt.state)]);
    }
    if ev.axis.Some? {
      out := out + [Msg(mid, 4, [UintF(ev.axis.value.time), UintF(ev.axis.value.axis), FixedF(ev.axis.value.value)])];
    }
    out := out + [Msg(mid, 5, [])];
  }

  /** The event's position in the coordinates of the focused surface `x`: the
      toplevel-local position minus the surface's relative offset (zero without a move). */
  function Local(c: Conn, x: XdgSurface, ev: PointerEvent): (q: Point)
    ensures ev.move.Some? ==> q.Add(RelativeOffset(c, x)) == Pt(ev.move.value.mx, ev.move.value.my)
    ensures ev.move.None? ==> q == Origin
  {
    if ev.move.Some? then Pt(ev.move.value.mx, ev.move.value.my).Sub(RelativeOffset(c, x)) else Origin
  }

  /** The second half of `ProcessPointerEvent`, for a seat with a focus `top` and a
      wl_pointer `mid`: enter (only if the surface does not have the pointer yet), then
      motion in surface-local coordinates, button, axis and a closing frame. */
  method DeliverTo(c: Conn, sa: int, top: int, mid: int, ev: PointerEvent) returns (d: Conn, out: seq<Out>)
    requires Valid(c) && IsSeatAt(c, sa) && IsXdg(c, top)
    ensures Valid(d) && SameShape(c, d) && IsSeatAt(d, sa)
    ensures d.objs[sa].seat == c.objs[sa].seat.(serial := d.objs[sa].seat.serial)
    ensures d.objs[top] == XdgSurfaceObj(c.objs[top].xdg.(hasPointer := true))
    ensures forall b :: b in c.objs && c.objs[b].PointerObj? ==> b in d.objs && d.objs[b] == c.objs[b]
    ensures |out| >= 1 && out[|out| - 1] == Msg(mid, 5, [])
    ensures (exists i :: 0 <= i < |out| && out[i].Send? && out[i].msg.opcode == 0) <==> !c.objs[top].xdg.hasPointer
    ensures ev.move.Some? ==>
      var q := Local(c, c.objs[top].xdg, ev);
      Msg(mid, 2, [UintF(ev.move.value.time), FixedF(q.x), FixedF(q.y)]) in out
  {
    var x := c.objs[top].xdg;
    var local := Local(c, x, ev);
    var c1, eout := c, [];
    if !x.hasPointer {
      c1, eout := EnterFocus(c, sa, top, mid, local);
      assert eout[|eout| - 2].msg.opcode == 0;
    }
    var tout;
    d, tout := PointerTail(c1, sa, mid, ev, local);
    out := eout + tout;
    assert forall i :: |eout| <= i < |out| ==> out[i] == tout[i - |eout|];
    if ev.move.Some? {
      assert out[|eout|] == tout[0];
    }
    if !x.hasPointer {
      assert out[|eout| - 2] == eout[|eout| - 2];
    }
  }

  /** A move's hit test followed by the re-targeting, stated against the state before
      the test. */
  method MoveFocus(c: Conn, sa: int, mid: int, p: Point, xa: Option<int>) returns (d: Conn, out: seq<Out>, goOn: bool)
    requires Valid(c) && IsSeatAt(c, sa)
    ensures Valid(d) && SameShape(c, d) && IsSeatAt(d, sa)
    ensures d.objs[sa].seat == c.objs[sa].seat.(serial := d.objs[sa].seat.serial, pointerFocus := d.objs[sa].seat.pointerFocus)
    ensures forall b :: b in c.objs && c.objs[b].PointerObj? ==> b in d.objs && d.objs[b] == c.objs[b]
    ensures var hit := CheckIntersect(c, p, xa, {}).0;
      && (goOn <==> hit.Some?)
      && (hit.None? ==> d.objs[sa].seat.pointerFocus.None? && |out| <= 1)
      && (hit.Some? ==> var f := d.objs[sa].seat.pointerFocus;
            f.Some? && IsXdg(d, f.value) && d.objs[f.value].xdg.id == c.objs[hit.value].xdg.id)
    ensures var hit := CheckIntersect(c, p, xa, {}).0; var f := FocusOf(c, c.objs[sa].seat);
      hit.Some? && f.Some? && c.objs[f.value].xdg.id == c.objs[hit.value].xdg.id ==>
        out == [] && d.objs[sa].seat.pointerFocus == f && d.objs[f.value].xdg.hasPointer == c.objs[f.value].xdg.hasPointer
  {
    var s := c.objs[sa].seat;
    var h := CheckIntersect(c, p, xa, {});
    CheckIntersectKeepsRegions(c, p, xa, {});
    assert h.1.objs[sa] == c.objs[sa];
    assert FocusOf(h.1, s) == FocusOf(c, s);
    assert FocusOf(c, s).Some? ==> h.1.objs[s.pointerFocus.value] == c.objs[s.pointerFocus.value];
    assert h.0.Some? ==> h.1.objs[h.0.value] == c.objs[h.0.value];
    d, out, goOn := Retarget(h.1, sa, mid, h.0);
  }

  /** The move branch of `Seat.ProcessPointerEvent`, for a seat with a pointer: hit-test,
      re-target (returning early on a miss), then deliver to the focus. */
  method PointerMoved(c: Conn, sa: int, ev: PointerEvent, xa: Option<int>) returns (d: Conn, out: seq<Out>)
    requires Valid(c) && IsSeatAt(c, sa) && ev.move.Some? && MouseOf(c, c.objs[sa].seat).Some?
    ensures Valid(d) && SameShape(c, d) && IsSeatAt(d, sa)
    ensures d.objs[sa].seat == c.objs[sa].seat.(serial := d.objs[sa].seat.serial, pointerFocus := d.objs[sa].seat.pointerFocus)
    ensures var s := c.objs[sa].seat;
      var hit := CheckIntersect(c, Pt(ev.move.value.mx, ev.move.value.my), xa, {}).0;
      && (hit.None? ==> d.objs[sa].seat.pointerFocus.None? && |out| <= 1)
      && (hit.Some? ==> var f := d.objs[sa].seat.pointerFocus;
            f.Some? && IsXdg(d, f.value) && d.objs[f.value].xdg.id == c.objs[hit.value].xdg.id
            && d.objs[f.value].xdg.hasPointer
            && |out| >= 1 && out[|out| - 1] == Msg(c.objs[s.mouse.value].pointer.id, 5, []))
  {
    var s := c.objs[sa].seat;
    var mid := c.objs[s.mouse.value].pointer.id;
    var c1, tout, goOn := MoveFocus(c, sa, mid, Pt(ev.move.value.mx, ev.move.value.my), xa);
    assert s.mouse.value in c1.objs && c1.objs[s.mouse.value] == c.objs[s.mouse.value] by {
      var b := s.mouse.value;
      assert b in c.objs && c.objs[b].PointerObj?;
    }
    d, out := c1, tout;
    if goOn {
      var dout;
      d, dout := DeliverTo(c1, sa, c1.objs[sa].seat.pointerFocus.value, mid, ev);
      out := tout + dout;
    }
  }

  /** `Seat.ProcessPointerEvent` for the seat at `sa`, the event `ev` in toplevel-local
      coordinates and the window's xdg_surface `xa`.  Without a pointer nothing happens;
      a move goes through `PointerMoved`; any other event goes to the current focus. */
  method ProcessPointerEvent(c: Conn, sa: int, ev: PointerEvent, xa: Option<int>) returns (d: Conn, out: seq<Out>)
    requires Valid(c) && IsSeatAt(c, sa)
    ensures Valid(d) && SameShape(c, d) && IsSeatAt(d, sa)
    ensures d.objs[sa].seat == c.objs[sa].seat.(serial := d.objs[sa].seat.serial, pointerFocus := d.objs[sa].seat.pointerFocus)
    ensures MouseOf(c, c.objs[sa].seat).None? ==> d == c && out == []
    ensures var s := c.objs[sa].seat;
      ev.move.None? && MouseOf(c, s).Some? ==>
        d.objs[sa].seat.pointerFocus == s.pointerFocus
        && (FocusOf(c, s).None? ==> d == c && out == [])
        && (FocusOf(c, s).Some? ==>
              (IsXdg(d, s.pointerFocus.value) && d.objs[s.pointerFocus.value].xdg.hasPointer
               && |out| >= 1 && out[|out| - 1] == Msg(c.objs[s.mouse.value].pointer.id, 5, [])))
  {
    var s := c.objs[sa].seat;
    if MouseOf(c, s).None? {
      d, out := c, [];
    } else if ev.move.Some? {
      d, out := PointerMoved(c, sa, ev, xa);
    } else if FocusOf(c, s).Some? {
      d, out := DeliverTo(c, sa, s.pointerFocus.value, c.objs[s.mouse.value].pointer.id, ev);
    } else {
      d, out := c, [];
    }
  }

  /** get_pointer (0): a new wl_pointer (no cursor surface, hotspot at the origin) under
      the parsed id becomes the seat's pointer. */
  function GetPointer(c: Conn, sa: int, data: seq<int>): (r: Reply)
    requires Valid(c) && IsSeatAt(c, sa) && AllBytes(data)
    ensures Valid(r.conn) && r.out == [] && IsSeatAt(r.conn, sa)
    ensures (r.error.None? <==> ParseAll(data, [UintK]).Ok?) && (r.error.Some? ==> r.conn == c)
    ensures var p := ParseAll(data, [UintK]);
      p.Ok? ==>
        var id := p.value[0].u;
        Get(r.conn, id) == Ok(PointerObj(WlPointer(id, 0, Origin)))
        && r.conn.objs[sa].seat == c.objs[sa].seat.(mouse := Some(r.conn.ids[id]))
        && MouseOf(r.conn, r.conn.objs[sa].seat) == Some(r.conn.ids[id])
        && (forall k :: k != id ==> Get(r.conn, k) == Get(c, k) || (k in c.ids && c.ids[k] == sa))
  {
    match ParseAll(data, [UintK])
    case Err(e) => Short(c, e)
    case Ok(vs) =>
      var id := vs[0].u;
      var (c1, pa) := New(c, id, PointerObj(WlPointer(id, 0, Origin)));
      Reply(Store(c1, sa, SeatObj(c.objs[sa].seat.(mouse := Some(pa)))), [], None)
  }

  /** get_keyboard (1): `NewKeyboard` registers the keyboard and sends its keymap; it
      becomes the seat's keyboard. */
  function GetKeyboard(c: Conn, sa: int, data: seq<int>): (r: Reply)
    requires Valid(c) && IsSeatAt(c, sa) && AllBytes(data)
    ensures Valid(r.conn) && IsSeatAt(r.conn, sa)
    ensures (r.error.None? <==> ParseAll(data, [UintK]).Ok?) && (r.error.Some? ==> r.conn == c && r.out == [])
    ensures var p := ParseAll(data, [UintK]);
      p.Ok? ==>
        var id := p.value[0].u;
        var nk := Keyboards.NewKeyboard(c, id);
        r.out == nk.2
        && r.conn.objs[sa].seat == c.objs[sa].seat.(keyboard := Some(nk.1))
        && nk.1 !in c.objs && id in r.conn.ids && r.conn.ids[id] == nk.1
        && KeyboardOf(r.conn, r.conn.objs[sa].seat) == Some(nk.1)
  {
    match ParseAll(data, [UintK])
    case Err(e) => Short(c, e)
    case Ok(vs) =>
      var (c1, ka, out) := Keyboards.NewKeyboard(c, vs[0].u);
      Reply(Store(c1, sa, SeatObj(c.objs[sa].seat.(keyboard := Some(ka)))), out, None)
  }

  /** `Seat.HandleMessage` for the seat at `sa`. */
  function HandleSeat(c: Conn, sa: int, opcode: int, data: seq<int>): (r: Reply)
    requires Valid(c) && IsSeatAt(c, sa) && AllBytes(data)
    ensures Valid(r.conn)
    ensures opcode == 0 ==> r == GetPointer(c, sa, data)
    ensures opcode == 1 ==> r == GetKeyboard(c, sa, data)
    ensures opcode !in {0, 1} ==> r == Unknown(c, opcode)
  {
    if opcode == 0 then GetPointer(c, sa, data)
    else if opcode == 1 then GetKeyboard(c, sa, data)
    else Unknown(c, opcode)
  }

  /** Once a client asks for a keyboard, moving focus reaches it: a grab sends leave
      and enter to that keyboard and makes the surface its active one. */
  lemma GetKeyboardThenGrab(c: Conn, sa: int, id: int, surf: int)
    requires Valid(c) && IsSeatAt(c, sa) && IsU32(id)
    ensures AllBytes(LE32(id))
    ensures var r := GetKeyboard(c, sa, LE32(id));
      r.error.None? && IsSeatAt(r.conn, sa)
      && var g := Grab(r.conn, sa, surf);
      var ka := r.conn.ids[id];
      ka in g.0.objs && g.0.objs[ka].KeyboardObj? && g.0.objs[ka].keyboard.active == Some(surf)
  {
    OneWord(id);
  }
}
