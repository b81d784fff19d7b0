/** wayland/client.go: the per-window state of a `WaylandClient`, the
    top-level window the workspace tree holds.  Object references are indices
    into the owning connection's object heap: `surface` names the window's
    XDG surface and each popup names an xdg_popup object. */
module Window {
  import opened Wrappers
  import opened Geometry
  import opened Events
  import Stack

  datatype Window = Window(
    index: int,        // compositor-wide index (`GlobalIdx`)
    parent: int,       // index of the owning connection
    surface: int,      // the XDG surface
    hasPointer: bool,
    popups: Stack.Stack<int>,
    pointerLocal: Point,
    attempted: Rect)   // the last size asked for by `Resize`

  /** `NewWaylandClient`: every other field starts at its zero value. */
  function NewWaylandClient(idx: int, parent: int, surface: int): (w: Window)
    ensures Index(w) == idx && Parent(w) == parent && w.surface == surface
    ensures !w.hasPointer && Stack.IsEmpty(w.popups) && w.attempted == ZR
  {
    Window(idx, parent, surface, false, Stack.New(), Origin, ZR)
  }

  function Index(w: Window): int { w.index }

  function Parent(w: Window): int { w.parent }

  /** `PushPopup`. */
  function PushPopup(w: Window, popup: int): (r: Window)
    ensures r == w.(popups := r.popups) && Stack.Top(r.popups) == Some(popup)
    ensures Stack.Pop(r.popups) == (Some(popup), w.popups)
  {
    Stack.PushThenPop(w.popups, popup);
    w.(popups := Stack.Push(w.popups, popup))
  }

  /** `PopPopup`: the most recent popup, or none (Go: nil) on an empty stack. */
  function PopPopup(w: Window): (r: (Option<int>, Window))
    ensures r.1 == w.(popups := r.1.popups)
    ensures r.0 == Stack.Top(w.popups)
    ensures r.0.None? ==> r.1 == w
    ensures r.0.Some? ==> w.popups.elements == r.1.popups.elements + [r.0.value]
  {
    var (top, rest) := Stack.Pop(w.popups);
    (top, w.(popups := rest))
  }

  /** Pushing a popup and popping it again restores the window. */
  lemma PopupsAreLifo(w: Window, popup: int)
    ensures PopPopup(PushPopup(w, popup)) == (Some(popup), w)
  {
  }

  /** The first half of `Resize`: a size equal to the last attempt is ignored;
      otherwise the attempt is recorded and the result says the surface's window
      geometry must be compared next. */
  function ResizeAttempt(w: Window, width: int, height: int): (r: (Window, bool))
    ensures r.1 <==> w.attempted.Dx() != width || w.attempted.Dy() != height
    ensures !r.1 ==> r.0 == w
    ensures r.1 ==> r.0 == w.(attempted := MakeRect(0, 0, width, height))
  {
    if w.attempted.Dx() != width || w.attempted.Dy() != height then
      (w.(attempted := MakeRect(0, 0, width, height)), true)
    else (w, false)
  }

  /** Asking twice for the same (non-negative) size does nothing the second time. */
  lemma ResizeIsIdempotent(w: Window, width: int, height: int)
    requires width >= 0 && height >= 0
    ensures var (w1, _) := ResizeAttempt(w, width, height);
      ResizeAttempt(w1, width, height) == (w1, false)
  {
  }

  /** The window-side half of `ProcessPointerEvent`: with a seat on the connection
      the local pointer is taken from a move and the window holds the pointer; the
      result says whether the event was claimed. */
  function ReceivePointer(w: Window, ev: Events.PointerEvent, hasSeat: bool): (r: (Window, bool))
    ensures r.1 == hasSeat
    ensures !hasSeat ==> r.0 == w
    ensures hasSeat ==> r.0.hasPointer && r.0.popups == w.popups && r.0.attempted == w.attempted
    ensures hasSeat && ev.move.Some? ==> r.0.pointerLocal == Pt(ev.move.value.mx, ev.move.value.my)
    ensures hasSeat && ev.move.None? ==> r.0.pointerLocal == w.pointerLocal
    ensures r.0.index == w.index && r.0.parent == w.parent && r.0.surface == w.surface
  {
    if hasSeat then
      var local := if ev.move.Some? then Pt(ev.move.value.mx, ev.move.value.my) else w.pointerLocal;
      (w.(pointerLocal := local, hasPointer := true), true)
    else (w, false)
  }

  /** `HandlePointerLeave`. */
  function HandlePointerLeave(w: Window): (r: Window)
    ensures !r.hasPointer && r == w.(hasPointer := false)
  {
    w.(hasPointer := false)
  }
}
