/** workspace/panel.go, workspace/split.go and workspace/dragoverlay.go: the
    tiling workspace tree.  A `Panel` holds a queue of top-level windows whose
    front is the visible one; a `SplitPanel` is either inactive (it shows its
    only child) or splits its bounds between two children; the `DragOverlay`
    is the root split panel plus the window being dragged.

    The tree is a value.  Effects a window has on its own connection (a key
    or pointer event forwarded to the seat, a frame to paint) are returned as
    `Delivery` values, in the order the Go code performs them, for the
    connection layer to carry out. */
module Tiling {
  import opened Wrappers
  import opened Ints
  import opened Geometry
  import opened Events
  import opened KeyboardModel
  import opened PointerModel
  import opened Window
  import Pixels

  /** evdev BTN_LEFT. */
  const BtnLeft := 0x110
  const KeySplitVertical := 47     // ctrl-alt-v
  const KeySplitHorizontal := 35   // ctrl-alt-h
  const KeyShrink := 36            // ctrl-alt-j
  const KeyGrow := 38              // ctrl-alt-l
  /** The size the dragged window is painted at, next to the cursor. */
  const DragWidth := 480
  const DragHeight := 256
  /** `color.RGBA{R: 255, G: 255, B: 255}` and `color.RGBA{R: 255}`: alpha is zero. */
  const White := Pixels.RGBA(255, 255, 255, 0)
  const Red := Pixels.RGBA(255, 0, 0, 0)

  /** The split ratio `splitAt` is kept in tenths: it starts at 0.5 and moves by 0.1. */
  datatype Node =
    | Panel(windows: seq<Window>)   // windows[0] is the top of the queue
    | Single(first: Node, bounds: Rect)
    | Duo(first: Node, second: Node, tenths: int, horizontal: bool, bounds: Rect, focusSecond: bool)

  /** The drag state shared by every node of one tree. */
  datatype Drag = Drag(dragging: Option<Window>, start: Pointer)

  datatype Overlay = Overlay(split: Node, drag: Drag)

  datatype Act =
    | KeyAct(key: KeyboardEvent)
    | PointerAct(pointer: Events.PointerEvent)
    /** Paint into `view` (a sub-image in root coordinates) at the given size;
        `resize` says whether the window recorded a new size attempt. */
    | PaintAct(view: Rect, width: int, height: int, resize: bool)

  datatype Delivery =
    | Deliver(win: Window, act: Act)
    | Outline(view: Rect, x1: int, y1: int, x2: int, y2: int, color: Pixels.RGBA)

  /** The result of a pointer event on a subtree. */
  datatype Step = Step(node: Node, drag: Drag, out: seq<Delivery>, claimed: bool)

  // ---------------------------------------------------------------------
  // Flattened views of a tree

  /** Every window in the tree, first halves before second halves, each panel front to back. */
  function Windows(n: Node): seq<Window>
  {
    match n
    case Panel(ws) => ws
    case Single(f, _) => Windows(f)
    case Duo(f, s, _, _, _, _) => Windows(f) + Windows(s)
  }

  /** The tree with every panel emptied: its layout alone. */
  function Layout(n: Node): Node
  {
    match n
    case Panel(_) => Panel([])
    case Single(f, b) => Single(Layout(f), b)
    case Duo(f, s, t, h, b, fs) => Duo(Layout(f), Layout(s), t, h, b, fs)
  }

  /** The windows of the panel that `AddTopLevel` reaches by following the focus. */
  function Focused(n: Node): seq<Window>
  {
    match n
    case Panel(ws) => ws
    case Single(f, _) => Focused(f)
    case Duo(f, s, _, _, _, fs) => if fs then Focused(s) else Focused(f)
  }

  /** How many windows of `Windows(n)` come before the focused panel. */
  function FocusOffset(n: Node): (k: nat)
    ensures k + |Focused(n)| <= |Windows(n)|
  {
    match n
    case Panel(_) => 0
    case Single(f, _) => FocusOffset(f)
    case Duo(f, s, _, _, _, fs) => if fs then |Windows(f)| + FocusOffset(s) else FocusOffset(f)
  }

  lemma {:induction false} FocusOffsetInRange(n: Node)
    ensures Windows(n)[FocusOffset(n)..FocusOffset(n) + |Focused(n)|] == Focused(n)
  {
    match n
    case Panel(_) =>
    case Single(f, _) => FocusOffsetInRange(f);
    case Duo(f, s, _, _, _, fs) =>
      FocusOffsetInRange(f);
      FocusOffsetInRange(s);
      var a := Windows(f);
      var k := FocusOffset(n);
      if fs {
        var j := FocusOffset(s);
        assert (a + Windows(s))[k..k + |Focused(s)|] == Windows(s)[j..j + |Focused(s)|];
      } else {
        assert (a + Windows(s))[k..k + |Focused(f)|] == a[k..k + |Focused(f)|];
      }
  }

  /** The front window of every panel, in tree order: the windows a frame shows. */
  function Tops(n: Node): seq<Window>
  {
    match n
    case Panel(ws) => if |ws| > 0 then [ws[0]] else []
    case Single(f, _) => Tops(f)
    case Duo(f, s, _, _, _, _) => Tops(f) + Tops(s)
  }

  /** The indices of a sequence of windows, counted with multiplicity. */
  function Bag(ws: seq<Window>): multiset<int>
  {
    if |ws| == 0 then multiset{} else multiset{ws[0].index} + Bag(ws[1..])
  }

  lemma {:induction false} BagAppend(a: seq<Window>, b: seq<Window>)
    ensures Bag(a + b) == Bag(a) + Bag(b)
    decreases |a|
  {
    if |a| == 0 {
      assert a + b == b;
    } else {
      assert (a + b)[1..] == a[1..] + b;
      BagAppend(a[1..], b);
    }
  }

  /** The indices the tree holds, counted with multiplicity. */
  function Indices(n: Node): multiset<int>
  {
    match n
    case Panel(ws) => Bag(ws)
    case Single(f, _) => Indices(f)
    case Duo(f, s, _, _, _, _) => Indices(f) + Indices(s)
  }

  lemma {:induction false} IndicesOfWindows(n: Node)
    ensures Indices(n) == Bag(Windows(n))
  {
    match n
    case Panel(_) =>
    case Single(f, _) => IndicesOfWindows(f);
    case Duo(f, s, _, _, _, _) =>
      IndicesOfWindows(f);
      IndicesOfWindows(s);
      BagAppend(Windows(f), Windows(s));
    }

  lemma SliceLeft<T>(a: seq<T>, b: seq<T>, k: int)
    requires 0 <= k <= |a|
    ensures (a + b)[..k] == a[..k] && (a + b)[k..] == a[k..] + b
  {
  }

  lemma SliceRight<T>(a: seq<T>, b: seq<T>, k: int)
    requires 0 <= k <= |b|
    ensures (a + b)[..|a| + k] == a + b[..k] && (a + b)[|a| + k..] == b[k..]
  {
  }

  /** Adding the same part to both sides of a multiset equation. */
  lemma Regroup(x: multiset<int>, h: multiset<int>, y: multiset<int>, h0: multiset<int>, z: multiset<int>)
    requires x + h == y + h0
    ensures (x + z) + h == (y + z) + h0 && (z + x) + h == (z + y) + h0
  {
    assert forall o :: ((x + z) + h)[o] == (x + h)[o] + z[o] == (y + h0)[o] + z[o] == ((y + z) + h0)[o];
    assert forall o :: ((z + x) + h)[o] == (x + h)[o] + z[o] == (y + h0)[o] + z[o] == ((z + y) + h0)[o];
  }

  /** The index of the dragged window, if any. */
  function Held(d: Drag): multiset<int>
  {
    if d.dragging.Some? then multiset{d.dragging.value.index} else multiset{}
  }

  // ---------------------------------------------------------------------
  // Panel queue operations

  /** Panel's `GetTopLevel`: the first window from the front with the index. */
  function PanelGet(ws: seq<Window>, idx: int): (r: Option<Window>)
    ensures r.Some? ==> r.value in ws && r.value.index == idx
    ensures r.None? <==> forall w :: w in ws ==> w.index != idx
  {
    if |ws| == 0 then None
    else if ws[0].index == idx then Some(ws[0])
    else
      assert forall w :: w in ws[1..] ==> w in ws;
      PanelGet(ws[1..], idx)
  }

  lemma {:induction false} PanelGetAppend(a: seq<Window>, b: seq<Window>, idx: int)
    ensures PanelGet(a + b, idx) == if PanelGet(a, idx).Some? then PanelGet(a, idx) else PanelGet(b, idx)
    decreases |a|
  {
    if |a| == 0 {
      assert a + b == b;
    } else {
      assert (a + b)[1..] == a[1..] + b;
      PanelGetAppend(a[1..], b, idx);
    }
  }

  /** Which windows a removal drops: one index (`RemoveTopLevel`) or every
      window of one connection (`RemoveAllWithParent`). */
  datatype Selector = ByIndex(idx: int) | ByParent(pidx: int)

  predicate Selected(w: Window, sel: Selector)
  {
    match sel
    case ByIndex(idx) => w.index == idx
    case ByParent(pidx) => w.parent == pidx
  }

  /** The windows that survive a removal, in their original order. */
  function Filter(ws: seq<Window>, sel: Selector): (r: seq<Window>)
    ensures forall w :: w in r <==> w in ws && !Selected(w, sel)
    ensures |r| <= |ws|
  {
    if |ws| == 0 then []
    else if Selected(ws[0], sel) then Filter(ws[1..], sel)
    else [ws[0]] + Filter(ws[1..], sel)
  }

  lemma {:induction false} FilterAppend(a: seq<Window>, b: seq<Window>, sel: Selector)
    ensures Filter(a + b, sel) == Filter(a, sel) + Filter(b, sel)
    decreases |a|
  {
    if |a| == 0 {
      assert a + b == b;
    } else {
      assert (a + b)[1..] == a[1..] + b;
      FilterAppend(a[1..], b, sel);
    }
  }

  /** A removal that selects nothing keeps the panel as it was. */
  lemma {:induction false} FilterKeepsUnselected(ws: seq<Window>, sel: Selector)
    requires forall w :: w in ws ==> !Selected(w, sel)
    ensures Filter(ws, sel) == ws
    decreases |ws|
  {
    if |ws| > 0 {
      assert forall w :: w in ws[1..] ==> w in ws;
      FilterKeepsUnselected(ws[1..], sel);
    }
  }

  /** Panel's `RemoveTopLevel` and `RemoveAllWithParent`: pop every window off
      the queue and push the survivors onto a fresh one. */
  method DrainPanel(ws: seq<Window>, sel: Selector) returns (kept: seq<Window>)
    ensures kept == Filter(ws, sel)
  {
    kept := [];
    var i := 0;
    while i < |ws|
      invariant 0 <= i <= |ws|
      invariant kept == Filter(ws[..i], sel)
    {
      FilterAppend(ws[..i], [ws[i]], sel);
      assert ws[..i + 1] == ws[..i] + [ws[i]];
      assert [ws[i]][1..] == [];
      if !Selected(ws[i], sel) {
        kept := kept + [ws[i]];
      }
      i := i + 1;
    }
    assert ws[..|ws|] == ws;
  }

  /** The first window with the index replaced, as a pointer into the queue would update it. */
  function ReplaceFirst(ws: seq<Window>, idx: int, w: Window): (r: seq<Window>)
    ensures |r| == |ws|
    ensures forall i :: 0 <= i < |ws| ==> r[i] == ws[i] || (ws[i].index == idx && r[i] == w)
  {
    if |ws| == 0 then []
    else if ws[0].index == idx then [w] + ws[1..]
    else [ws[0]] + ReplaceFirst(ws[1..], idx, w)
  }

  /** Without a window of that index nothing changes; otherwise `PanelGet` then finds the replacement. */
  lemma {:induction false} ReplaceFirstFound(ws: seq<Window>, idx: int, w: Window)
    requires w.index == idx
    ensures PanelGet(ws, idx).None? ==> ReplaceFirst(ws, idx, w) == ws
    ensures PanelGet(ws, idx).Some? ==> PanelGet(ReplaceFirst(ws, idx, w), idx) == Some(w)
    decreases |ws|
  {
    if |ws| > 0 && ws[0].index != idx {
      ReplaceFirstFound(ws[1..], idx, w);
    }
  }

  lemma {:induction false} ReplaceFirstAppend(a: seq<Window>, b: seq<Window>, idx: int, w: Window)
    ensures ReplaceFirst(a + b, idx, w)
      == if PanelGet(a, idx).Some? then ReplaceFirst(a, idx, w) + b else a + ReplaceFirst(b, idx, w)
    decreases |a|
  {
    if |a| == 0 {
      assert a + b == b;
    } else {
      var ab := a + b;
      assert ab[0] == a[0] && ab[1..] == a[1..] + b;
      if a[0].index == idx {
        assert ReplaceFirst(ab, idx, w) == [w] + (a[1..] + b);
        assert ReplaceFirst(a, idx, w) == [w] + a[1..];
      } else {
        ReplaceFirstAppend(a[1..], b, idx, w);
        assert ReplaceFirst(ab, idx, w) == [a[0]] + ReplaceFirst(a[1..] + b, idx, w);
        assert ReplaceFirst(a, idx, w) == [a[0]] + ReplaceFirst(a[1..], idx, w);
        assert PanelGet(a, idx) == PanelGet(a[1..], idx);
        assert a == [a[0]] + a[1..];
      }
    }
  }

  // ---------------------------------------------------------------------
  // The model.Workspace operations on a tree

  /** `AddTopLevel`: the window goes on top of the focused panel. */
  function AddTopLevel(n: Node, w: Window): (r: Node)
    ensures Layout(r) == Layout(n)
    ensures Focused(r) == [w] + Focused(n)
    ensures FocusOffset(r) == FocusOffset(n)
    ensures Windows(r) == Windows(n)[..FocusOffset(n)] + [w] + Windows(n)[FocusOffset(n)..]
    ensures Indices(r) == Indices(n) + multiset{w.index}
    decreases n, 2
  {
    match n
    case Panel(ws) =>
      assert ([w] + ws)[1..] == ws;
      Panel([w] + ws)
    case Single(f, b) => Single(AddTopLevel(f, w), b)
    case Duo(_, _, _, _, _, fs) => if fs then AddToSecond(n, w) else AddToFirst(n, w)
  }

  /** `AddTopLevel` on a split whose second half has the focus. */
  function AddToSecond(n: Node, w: Window): (r: Node)
    requires n.Duo? && n.focusSecond
    ensures Layout(r) == Layout(n)
    ensures Focused(r) == [w] + Focused(n)
    ensures FocusOffset(r) == FocusOffset(n)
    ensures Windows(r) == Windows(n)[..FocusOffset(n)] + [w] + Windows(n)[FocusOffset(n)..]
    ensures Indices(r) == Indices(n) + multiset{w.index}
    decreases n, 1
  {
    var s' := AddTopLevel(n.second, w);
    var a := Windows(n.first);
    var b := Windows(n.second);
    var k := FocusOffset(n.second);
    InsertRight(a, b, k, w);
    UnionShift(Indices(n.first), Indices(n.second), multiset{w.index});
    Duo(n.first, s', n.tenths, n.horizontal, n.bounds, n.focusSecond)
  }

  /** `AddTopLevel` on a split whose first half has the focus. */
  function AddToFirst(n: Node, w: Window): (r: Node)
    requires n.Duo? && !n.focusSecond
    ensures Layout(r) == Layout(n)
    ensures Focused(r) == [w] + Focused(n)
    ensures FocusOffset(r) == FocusOffset(n)
    ensures Windows(r) == Windows(n)[..FocusOffset(n)] + [w] + Windows(n)[FocusOffset(n)..]
    ensures Indices(r) == Indices(n) + multiset{w.index}
    decreases n, 1
  {
    var f' := AddTopLevel(n.first, w);
    var a := Windows(n.first);
    var b := Windows(n.second);
    var k := FocusOffset(n.first);
    InsertLeft(a, b, k, w);
    UnionShift(Indices(n.first), Indices(n.second), multiset{w.index});
    Duo(f', n.second, n.tenths, n.horizontal, n.bounds, n.focusSecond)
  }

  /** Inserting into the right part of a concatenation, seen from the whole. */
  lemma InsertRight<T>(a: seq<T>, b: seq<T>, k: int, w: T)
    requires 0 <= k <= |b|
    ensures a + (b[..k] + [w] + b[k..]) == (a + b)[..|a| + k] + [w] + (a + b)[|a| + k..]
  {
    SliceRight(a, b, k);
    assert a + (b[..k] + [w] + b[k..]) == (a + b[..k]) + [w] + b[k..];
  }

  /** Inserting into the left part of a concatenation, seen from the whole. */
  lemma InsertLeft<T>(a: seq<T>, b: seq<T>, k: int, w: T)
    requires 0 <= k <= |a|
    ensures (a[..k] + [w] + a[k..]) + b == (a + b)[..k] + [w] + (a + b)[k..]
  {
    SliceLeft(a, b, k);
    assert (a[..k] + [w] + a[k..]) + b == a[..k] + [w] + (a[k..] + b);
  }

  lemma UnionShift(x: multiset<int>, y: multiset<int>, z: multiset<int>)
    ensures x + (y + z) == (x + y) + z && (x + z) + y == (x + y) + z
  {
  }

  /** `GetTopLevel`: the first half is searched before the second. */
  function GetTopLevel(n: Node, idx: int): (r: Option<Window>)
    ensures r == PanelGet(Windows(n), idx)
  {
    match n
    case Panel(ws) => PanelGet(ws, idx)
    case Single(f, _) => GetTopLevel(f, idx)
    case Duo(f, s, _, _, _, _) =>
      PanelGetAppend(Windows(f), Windows(s), idx);
      var first := GetTopLevel(f, idx);
      if first.None? then GetTopLevel(s, idx) else first
  }

  /** `RemoveTopLevel` (by index) and `RemoveAllWithParent` (by connection). */
  function Remove(n: Node, sel: Selector): (r: Node)
    ensures Layout(r) == Layout(n)
    ensures Windows(r) == Filter(Windows(n), sel)
  {
    match n
    case Panel(ws) => Panel(Filter(ws, sel))
    case Single(f, b) => Single(Remove(f, sel), b)
    case Duo(f, s, t, h, b, fs) =>
      FilterAppend(Windows(f), Windows(s), sel);
      Duo(Remove(f, sel), Remove(s, sel), t, h, b, fs)
  }

  /** Replaces the window `GetTopLevel(n, idx)` finds; the Go code mutates that window in place. */
  function ReplaceTopLevel(n: Node, idx: int, w: Window): (r: Node)
    ensures Layout(r) == Layout(n)
    ensures Windows(r) == ReplaceFirst(Windows(n), idx, w)
  {
    match n
    case Panel(ws) => Panel(ReplaceFirst(ws, idx, w))
    case Single(f, b) => Single(ReplaceTopLevel(f, idx, w), b)
    case Duo(f, s, t, h, b, fs) =>
      ReplaceFirstAppend(Windows(f), Windows(s), idx, w);
      if GetTopLevel(f, idx).Some? then Duo(ReplaceTopLevel(f, idx, w), s, t, h, b, fs)
      else Duo(f, ReplaceTopLevel(s, idx, w), t, h, b, fs)
  }

  /** A window added under a fresh index is what `GetTopLevel` then returns. */
  lemma AddThenGet(n: Node, w: Window)
    requires forall x :: x in Windows(n) ==> x.index != w.index
    ensures GetTopLevel(AddTopLevel(n, w), w.index) == Some(w)
  {
    var ws := Windows(n);
    var k := FocusOffset(n);
    PanelGetAppend(ws[..k], [w] + ws[k..], w.index);
    assert forall x :: x in ws[..k] ==> x in ws;
    assert ws[..k] + [w] + ws[k..] == ws[..k] + ([w] + ws[k..]);
  }

  /** After `RemoveTopLevel(idx)` no window with the index is left. */
  lemma RemoveThenGet(n: Node, idx: int)
    ensures GetTopLevel(Remove(n, ByIndex(idx)), idx).None?
  {
  }

  /** `RemoveAllWithParent` drops exactly the connection's windows and keeps the others in order. */
  lemma RemoveAllWithParentKeepsOthers(n: Node, pidx: int)
    ensures forall w :: w in Windows(Remove(n, ByParent(pidx))) <==> w in Windows(n) && w.parent != pidx
    ensures (forall w :: w in Windows(n) ==> w.parent != pidx) ==> Remove(n, ByParent(pidx)) == n
  {
    if forall w :: w in Windows(n) ==> w.parent != pidx {
      NoSelectedNoChange(n, ByParent(pidx));
    }
  }

  lemma {:induction false} NoSelectedNoChange(n: Node, sel: Selector)
    requires forall w :: w in Windows(n) ==> !Selected(w, sel)
    ensures Remove(n, sel) == n
  {
    match n
    case Panel(ws) => FilterKeepsUnselected(ws, sel);
    case Single(f, _) => NoSelectedNoChange(f, sel);
    case Duo(f, s, _, _, _, _) =>
      assert forall w :: w in Windows(f) ==> w in Windows(n);
      assert forall w :: w in Windows(s) ==> w in Windows(n);
      NoSelectedNoChange(f, sel);
      NoSelectedNoChange(s, sel);
  }

  // ---------------------------------------------------------------------
  // Split geometry

  /** `getBounds`: the two halves, each relative to the split panel's own origin. */
  function GetBounds(n: Node): (r: (Rect, Rect))
    requires n.Duo?
    ensures r.0.Canonical() && r.1.Canonical()
  {
    var d := n.bounds;
    if n.horizontal then
      var y := SplitPoint(n.tenths, d.Dy());
      (MakeRect(0, 0, d.Dx(), y), MakeRect(0, y, d.Dx(), d.Dy()))
    else
      var x := SplitPoint(n.tenths, d.Dx());
      (MakeRect(0, 0, x, d.Dy()), MakeRect(x, 0, d.Dx(), d.Dy()))
  }

  /** `int(splitAt * float64(length))` with `splitAt` = tenths / 10: truncated toward zero. */
  function SplitPoint(tenths: int, length: int): int
  {
    TruncDiv(Times(tenths, length), 10)
  }

  /** `k * length` by repeated addition, so that the product stays out of the
      solver's arithmetic except where `TimesIsProduct` brings it in. */
  function Times(k: int, length: int): int
    decreases if k >= 0 then k else -k
  {
    if k == 0 then 0 else if k > 0 then Times(k - 1, length) + length else Times(k + 1, length) - length
  }

  lemma {:induction false} TimesIsProduct(k: int, length: int)
    ensures Times(k, length) == k * length
    decreases if k >= 0 then k else -k
  {
    if k > 0 {
      TimesIsProduct(k - 1, length);
    } else if k < 0 {
      TimesIsProduct(k + 1, length);
    }
  }

  /** With the ratio between 0 and 1 the split point lies on the panel. */
  lemma SplitPointInRange(tenths: int, length: int)
    requires 0 <= tenths <= 10 && length >= 0
    ensures 0 <= SplitPoint(tenths, length) <= length
  {
    TimesIsProduct(tenths, length);
    assert tenths * length <= 10 * length;
  }

  /** With the ratio between 0 and 1, the halves tile the panel: every point of
      `Rect(0, 0, Dx, Dy)` lies in exactly one of them. */
  lemma BoundsPartition(n: Node, q: Point)
    requires n.Duo? && n.bounds.min == Origin && n.bounds.Canonical() && 0 <= n.tenths <= 10
    ensures var (a, b) := GetBounds(n);
      (q.In(n.bounds) <==> q.In(a) || q.In(b)) && !(q.In(a) && q.In(b))
  {
    if n.horizontal {
      SplitPointInRange(n.tenths, n.bounds.Dy());
    } else {
      SplitPointInRange(n.tenths, n.bounds.Dx());
    }
  }

  /** `img.SubImage(r)`: the part of the view inside `r`, or the zero rectangle. */
  function SubView(view: Rect, r: Rect): (v: Rect)
    ensures forall q: Point :: q.In(v) <==> q.In(view) && q.In(r)
  {
    r.Intersect(view)
  }

  // ---------------------------------------------------------------------
  // Pointer events

  predicate Chord(kb: Keyboard)
  {
    IsDown(kb, KB_CTRL) && IsDown(kb, KB_ALT)
  }

  /** Ctrl+Alt and a left-button press. */
  predicate StartsDrag(kb: Keyboard, ev: Events.PointerEvent)
  {
    Chord(kb) && ev.button.Some? && ev.button.value.button == BtnLeft && ev.button.value.state == 1
  }

  /** Ctrl+Alt and a left-button release while a window is being dragged. */
  predicate Drops(kb: Keyboard, ev: Events.PointerEvent, d: Drag)
  {
    Chord(kb) && ev.button.Some? && ev.button.value.button == BtnLeft && ev.button.value.state == 0
    && d.dragging.Some?
  }

  /** `HandlePointerLeave`: the top window of every panel of the subtree drops the pointer. */
  function Leave(n: Node): (r: Node)
    ensures Layout(r) == Layout(n) && Indices(r) == Indices(n)
    ensures forall w :: w in Tops(r) ==> !w.hasPointer
  {
    match n
    case Panel(ws) =>
      if |ws| > 0 then
        var r := [HandlePointerLeave(ws[0])] + ws[1..];
        assert r[1..] == ws[1..];
        Panel(r)
      else n
    case Single(f, b) => Single(Leave(f), b)
    case Duo(f, s, t, h, b, fs) => Duo(Leave(f), Leave(s), t, h, b, fs)
  }

  /** Panel's `ProcessPointerEvent`. */
  function PanelPointer(ws: seq<Window>, d: Drag, p: Pointer, kb: Keyboard, ev: Events.PointerEvent,
                        seats: set<int>): (r: Step)
    ensures r.node.Panel?
    ensures |ws| > 0 && StartsDrag(kb, ev) && d.dragging.None? ==>
      r == Step(Panel(ws[1..]), Drag(Some(ws[0]), p), [], true)
    ensures |ws| == 0 ==> r == Step(Panel(ws), d, [], false)
    ensures Indices(r.node) + Held(r.drag) == Bag(ws) + Held(d)
    ensures r.claimed <==> |ws| > 0 && ((StartsDrag(kb, ev) && d.dragging.None?) || ws[0].parent in seats)
  {
    if |ws| > 0 && StartsDrag(kb, ev) && d.dragging.None? then
      Step(Panel(ws[1..]), Drag(Some(ws[0]), p), [], true)
    else if |ws| > 0 then
      var ev' := WithMove(ev, p.mx, p.my);
      var (w', claimed) := ReceivePointer(ws[0], ev', ws[0].parent in seats);
      var r := [w'] + ws[1..];
      assert r[1..] == ws[1..];
      Step(Panel(r), d, if claimed then [Deliver(w', PointerAct(ev'))] else [], claimed)
    else Step(Panel(ws), d, [], false)
  }

  /** The drag state a pointer event leaves: unchanged, a drag started with no
      window held before, or the held window dropped. */
  predicate DragMoves(d: Drag, d': Drag)
  {
    d' == d || (d.dragging.None? && d'.dragging.Some?) || (d.dragging.Some? && d' == d.(dragging := None))
  }

  /** `ProcessPointerEvent` on any node.  No window is lost or duplicated: the
      tree and the drag hold the same indices before and after. */
  function NodePointer(n: Node, d: Drag, p: Pointer, kb: Keyboard, ev: Events.PointerEvent,
                       seats: set<int>): (r: Step)
    ensures Indices(r.node) + Held(r.drag) == Indices(n) + Held(d)
    ensures DragMoves(d, r.drag)
    ensures n.Panel? <==> r.node.Panel?
    decreases n, 1
  {
    match n
    case Panel(ws) => PanelPointer(ws, d, p, kb, ev, seats)
    case Single(f, b) =>
      if Drops(kb, ev, d) then
        var w := d.dragging.value;
        Step(Single(AddTopLevel(f, w), b), d.(dragging := None), [], true)
      else
        var r := NodePointer(f, d, p, kb, ev, seats);
        Step(Single(r.node, b), r.drag, r.out, r.claimed)
    case Duo(_, _, _, _, _, _) =>
      if Drops(kb, ev, d) then DuoDrop(n, d, p) else DuoPointer(n, d, p, kb, ev, seats)
  }

  /** An active split receiving a drop: the half under the pointer takes the
      window and the focus; outside both halves the event is still consumed. */
  function DuoDrop(n: Node, d: Drag, p: Pointer): (r: Step)
    requires n.Duo? && d.dragging.Some?
    ensures Indices(r.node) + Held(r.drag) == Indices(n) + Held(d)
    ensures r.drag == d || r.drag == d.(dragging := None)
    ensures r.node.Duo? && r.claimed && r.out == []
  {
    var (fb, sb) := GetBounds(n);
    var w := d.dragging.value;
    var Duo(f, s, t, h, b, fs) := n;
    if ToLocalPointer(p, fb).Some? then
      var f' := AddTopLevel(f, w);
      Step(Duo(f', s, t, h, b, false), d.(dragging := None), [], true)
    else if ToLocalPointer(p, sb).Some? then
      var s' := AddTopLevel(s, w);
      Step(Duo(f, s', t, h, b, true), d.(dragging := None), [], true)
    else Step(n, d, [], true)
  }

  /** An active split routing an ordinary pointer event to the half under the pointer. */
  function DuoPointer(n: Node, d: Drag, p: Pointer, kb: Keyboard, ev: Events.PointerEvent,
                      seats: set<int>): (r: Step)
    requires n.Duo?
    ensures Indices(r.node) + Held(r.drag) == Indices(n) + Held(d)
    ensures DragMoves(d, r.drag)
    ensures r.node.Duo? && !r.claimed
    decreases n, 0
  {
    var (fb, sb) := GetBounds(n);
    match ToLocalPointer(p, fb)
    case Some(lp) => FirstHalfPointer(n, d, lp, kb, ev, seats)
    case None =>
      match ToLocalPointer(p, sb)
      case Some(lp) => SecondHalfPointer(n, d, lp, kb, ev, seats)
      case None => Step(n, d, [], false)
  }

  /** The pointer is over the first half: it gets the event and the focus, the second half a leave. */
  function FirstHalfPointer(n: Node, d: Drag, lp: Pointer, kb: Keyboard, ev: Events.PointerEvent,
                            seats: set<int>): (r: Step)
    requires n.Duo?
    ensures Indices(r.node) + Held(r.drag) == Indices(n) + Held(d)
    ensures DragMoves(d, r.drag)
    ensures r.node.Duo? && !r.claimed && !r.node.focusSecond && r.node.second == Leave(n.second)
    ensures r.node.first == NodePointer(n.first, d, lp, kb, ev, seats).node
    decreases n, -1
  {
    var s := NodePointer(n.first, d, lp, kb, ev, seats);
    var m := Duo(s.node, Leave(n.second), n.tenths, n.horizontal, n.bounds, false);
    Regroup(Indices(s.node), Held(s.drag), Indices(n.first), Held(d), Indices(n.second));
    Step(m, s.drag, s.out, false)
  }

  /** The pointer is over the second half: the mirror image of `FirstHalfPointer`. */
  function SecondHalfPointer(n: Node, d: Drag, lp: Pointer, kb: Keyboard, ev: Events.PointerEvent,
                             seats: set<int>): (r: Step)
    requires n.Duo?
    ensures Indices(r.node) + Held(r.drag) == Indices(n) + Held(d)
    ensures DragMoves(d, r.drag)
    ensures r.node.Duo? && !r.claimed && r.node.focusSecond && r.node.first == Leave(n.first)
    ensures r.node.second == NodePointer(n.second, d, lp, kb, ev, seats).node
    decreases n, -1
  {
    var s := NodePointer(n.second, d, lp, kb, ev, seats);
    var m := Duo(Leave(n.first), s.node, n.tenths, n.horizontal, n.bounds, true);
    Regroup(Indices(s.node), Held(s.drag), Indices(n.second), Held(d), Indices(n.first));
    Step(m, s.drag, s.out, false)
  }

  /** Picking up the top window of an inactive split's panel and dropping it
      again puts it back where it was. */
  lemma PickUpPutDown(ws: seq<Window>, b: Rect, d: Drag, p: Pointer, kb: Keyboard,
                      press: Events.PointerEvent, release: Events.PointerEvent, seats: set<int>)
    requires |ws| > 0 && d.dragging.None? && StartsDrag(kb, press)
    requires Chord(kb) && release.button == Some(PointerButton(0, BtnLeft, 0))
    ensures var r1 := NodePointer(Single(Panel(ws), b), d, p, kb, press, seats);
      r1.drag.dragging == Some(ws[0]) && r1.node == Single(Panel(ws[1..]), b) && r1.claimed
      && var r2 := NodePointer(r1.node, r1.drag, p, kb, release, seats);
         r2.node == Single(Panel(ws), b) && r2.drag.dragging.None? && r2.claimed
  {
    assert !Drops(kb, press, d);
    assert [ws[0]] + ws[1..] == ws;
  }

  /** In an active split a pointer event that is not a drop goes to the half under
      the pointer, which takes the focus; the other half loses the pointer, and
      the split reports the event unclaimed. */
  lemma DuoRoutesToHalf(n: Node, d: Drag, p: Pointer, kb: Keyboard, ev: Events.PointerEvent, seats: set<int>)
    requires n.Duo? && !Drops(kb, ev, d)
    ensures var r := NodePointer(n, d, p, kb, ev, seats);
      var (fb, sb) := GetBounds(n);
      !r.claimed
      && (Point(p.mx, p.my).In(fb) ==>
            (r.node.Duo? && !r.node.focusSecond && r.node.second == Leave(n.second)
             && r.node.first == NodePointer(n.first, d, ToLocalPointer(p, fb).value, kb, ev, seats).node))
      && (!Point(p.mx, p.my).In(fb) && Point(p.mx, p.my).In(sb) ==>
            (r.node.Duo? && r.node.focusSecond && r.node.first == Leave(n.first)
             && r.node.second == NodePointer(n.second, d, ToLocalPointer(p, sb).value, kb, ev, seats).node))
      && (!Point(p.mx, p.my).In(fb) && !Point(p.mx, p.my).In(sb) ==> r == Step(n, d, [], false))
  {
    assert NodePointer(n, d, p, kb, ev, seats) == DuoPointer(n, d, p, kb, ev, seats);
  }

  // ---------------------------------------------------------------------
  // Keyboard events

  /** `ProcessKeyboardEvent` on any node.  The windows never change; only the
      layout (a split, a new ratio) and the deliveries do. */
  function NodeKey(n: Node, p: Pointer, kb: Keyboard, ev: KeyboardEvent): (r: (Node, seq<Delivery>))
    ensures Windows(r.0) == Windows(n)
    ensures forall x :: x in r.1 ==> x.Deliver? && x.act == KeyAct(ev) && x.win in Tops(n)
    ensures |r.1| <= 1
  {
    match n
    case Panel(ws) => (n, if |ws| > 0 then [Deliver(ws[0], KeyAct(ev))] else [])
    case Single(f, b) =>
      if Chord(kb) && IsDown(kb, KeySplitVertical) then
        (Duo(Single(f, ZR), Single(Panel([]), ZR), 5, false, b, false), [])
      else if Chord(kb) && IsDown(kb, KeySplitHorizontal) then
        (Duo(Single(f, ZR), Single(Panel([]), ZR), 5, true, b, false), [])
      else
        var (f', out) := NodeKey(f, p, kb, ev);
        (Single(f', b), out)
    case Duo(f, s, t, h, b, fs) =>
      if Chord(kb) && IsDown(kb, KeyShrink) then (Duo(f, s, t - 1, h, b, fs), [])
      else if Chord(kb) && IsDown(kb, KeyGrow) then (Duo(f, s, t + 1, h, b, fs), [])
      else
        var (fb, sb) := GetBounds(n);
        match ToLocalPointer(p, fb)
        case Some(lp) =>
          var (f', out) := NodeKey(f, lp, kb, ev);
          (Duo(f', s, t, h, b, fs), out)
        case None =>
          match ToLocalPointer(p, sb)
          case Some(lp) =>
            var (s', out) := NodeKey(s, lp, kb, ev);
            (Duo(f, s', t, h, b, fs), out)
          case None => (n, [])
  }

  /** Ctrl+Alt+V (or +H) on an inactive split makes it active at ratio 0.5, with
      the old content on the first side and an empty panel on the second. */
  lemma SplitActivates(f: Node, b: Rect, p: Pointer, kb: Keyboard, ev: KeyboardEvent)
    requires Chord(kb) && (IsDown(kb, KeySplitVertical) || IsDown(kb, KeySplitHorizontal))
    ensures var (r, out) := NodeKey(Single(f, b), p, kb, ev);
      r.Duo? && r.tenths == 5 && r.first == Single(f, ZR) && Windows(r.second) == [] && out == []
      && r.horizontal == !IsDown(kb, KeySplitVertical) && r.bounds == b
      && Focused(r) == Focused(f)
  {
  }

  /** Ctrl+Alt+J then Ctrl+Alt+L (each pressed alone) restores the ratio. */
  lemma ShrinkGrowRestores(n: Node, p: Pointer, kb: Keyboard, ev: KeyboardEvent)
    requires n.Duo? && Chord(kb) && IsDown(kb, KeyShrink)
    ensures var kb' := Keyboard(kb.state - {KeyShrink} + {KeyGrow});
      NodeKey(NodeKey(n, p, kb, ev).0, p, kb', ev).0 == n
  {
  }

  // ---------------------------------------------------------------------
  // Rendering

  /** `Buffer` on any node: `view` is the sub-image in root coordinates and
      `width`, `height` the size asked for.  Each panel's top window gets one
      paint; every active split then outlines its boundary. */
  function NodeRender(n: Node, view: Rect, width: int, height: int): (r: (Node, seq<Delivery>))
    ensures Indices(r.0) == Indices(n)
    ensures Paints(r.1) == Tops(r.0)
    decreases n, 1
  {
    match n
    case Panel(ws) =>
      if |ws| > 0 then
        var (w', resize) := ResizeAttempt(ws[0], width, height);
        var r := [w'] + ws[1..];
        assert r[1..] == ws[1..];
        (Panel(r), [Deliver(w', PaintAct(view, width, height, resize))])
      else (n, [])
    case Single(f, _) =>
      var (f', out) := NodeRender(f, view, width, height);
      (Single(f', MakeRect(0, 0, width, height)), out)
    case Duo(_, _, _, _, _, _) => DuoRender(n, view, width, height)
  }

  /** An active split: the two halves are painted into their sub-images, then the
      boundary is outlined in white along the first half's far edge. */
  function DuoRender(n: Node, view: Rect, width: int, height: int): (r: (Node, seq<Delivery>))
    requires n.Duo?
    ensures Indices(r.0) == Indices(n)
    ensures Paints(r.1) == Tops(r.0)
    ensures r.0.Duo? && r.0.bounds == MakeRect(0, 0, width, height)
    ensures |r.1| > 0 && r.1[|r.1| - 1].Outline?
    decreases n, 0
  {
    var Duo(f, s, t, h, _, fs) := n;
    var sized := Duo(f, s, t, h, MakeRect(0, 0, width, height), fs);
    var (fb, sb) := GetBounds(sized);
    var (f', out1) := NodeRender(f, SubView(view, fb.Add(view.min)), fb.Dx(), fb.Dy());
    var (s', out2) := NodeRender(s, SubView(view, sb.Add(view.min)), sb.Dx(), sb.Dy());
    var at := fb.Add(view.min);
    var line := if h then Outline(view, at.min.x, at.min.y + fb.Dy(), at.min.x + fb.Dx(), at.min.y + fb.Dy(), White)
                else Outline(view, at.min.x + fb.Dx(), at.min.y, at.min.x + fb.Dx(), at.min.y + fb.Dy(), White);
    PaintsAppend(out1 + out2, [line]);
    PaintsAppend(out1, out2);
    (Duo(f', s', t, h, MakeRect(0, 0, width, height), fs), out1 + out2 + [line])
  }

  /** The windows painted by a delivery list, in order. */
  function Paints(out: seq<Delivery>): seq<Window>
  {
    if |out| == 0 then []
    else if out[0].Deliver? && out[0].act.PaintAct? then [out[0].win] + Paints(out[1..])
    else Paints(out[1..])
  }

  lemma {:induction false} PaintsAppend(a: seq<Delivery>, b: seq<Delivery>)
    ensures Paints(a + b) == Paints(a) + Paints(b)
    decreases |a|
  {
    if |a| == 0 {
      assert a + b == b;
    } else {
      assert (a + b)[1..] == a[1..] + b;
      PaintsAppend(a[1..], b);
    }
  }

  /** Rendering a panel whose top window was already asked for this size asks again for nothing. */
  lemma RenderTwiceNoResize(ws: seq<Window>, view: Rect, width: int, height: int)
    requires |ws| > 0 && width >= 0 && height >= 0
    ensures var (n1, _) := NodeRender(Panel(ws), view, width, height);
      var (_, out) := NodeRender(n1, view, width, height);
      out == [Deliver(n1.windows[0], PaintAct(view, width, height, false))]
  {
  }

  // ---------------------------------------------------------------------
  // The drag overlay

  function NewDragOverlay(): (o: Overlay)
    ensures Windows(o.split) == [] && o.drag.dragging.None?
  {
    Overlay(Single(Panel([]), ZR), Drag(None, Pointer(0, 0, 0, 0, 0)))
  }

  /** DragOverlay's `ProcessPointerEvent`: the pointer is recorded, then the root split handles the event. */
  function OverlayPointer(o: Overlay, p: Pointer, kb: Keyboard, ev: Events.PointerEvent,
                          seats: set<int>): (r: (Overlay, seq<Delivery>, bool))
    ensures Indices(r.0.split) + Held(r.0.drag) == Indices(o.split) + Held(o.drag)
    ensures r.0.drag.start == p || (o.drag.dragging.None? && r.0.drag.dragging.Some?)
  {
    var d := o.drag.(start := p);
    var s := NodePointer(o.split, d, p, kb, ev, seats);
    (Overlay(s.node, s.drag), s.out, s.claimed)
  }

  /** DragOverlay's `ProcessKeyboardEvent`; launching a terminal on Ctrl+Alt+Enter is not modelled. */
  function OverlayKey(o: Overlay, p: Pointer, kb: Keyboard, ev: KeyboardEvent): (r: (Overlay, seq<Delivery>))
    ensures r.0.drag == o.drag && Windows(r.0.split) == Windows(o.split)
  {
    var (s, out) := NodeKey(o.split, p, kb, ev);
    (o.(split := s), out)
  }

  /** DragOverlay's `Buffer`: the tree, then the dragged window at 480x256 by the
      cursor, then a 2x2 red marker at the cursor. */
  function OverlayRender(o: Overlay, view: Rect, width: int, height: int): (r: (Overlay, seq<Delivery>))
    ensures |r.1| > 0 && r.1[|r.1| - 1] == Outline(view, o.drag.start.ox, o.drag.start.oy,
                                                   o.drag.start.ox + 2, o.drag.start.oy + 2, Red)
    ensures Paints(r.1) == Tops(r.0.split) + (if r.0.drag.dragging.Some? then [r.0.drag.dragging.value] else [])
    ensures Held(r.0.drag) == Held(o.drag) && r.0.drag.start == o.drag.start
  {
    var (s, out) := NodeRender(o.split, view, width, height);
    var st := o.drag.start;
    var marker := Outline(view, st.ox, st.oy, st.ox + 2, st.oy + 2, Red);
    match o.drag.dragging
    case None =>
      PaintsAppend(out, [marker]);
      (Overlay(s, o.drag), out + [marker])
    case Some(w) =>
      var (w', resize) := ResizeAttempt(w, DragWidth, DragHeight);
      var sub := SubView(view, MakeRect(st.ox, st.oy, st.ox + DragWidth, st.oy + DragHeight));
      var paint := Deliver(w', PaintAct(sub, DragWidth, DragHeight, resize));
      PaintsAppend(out, [paint]);
      PaintsAppend(out + [paint], [marker]);
      (Overlay(s, o.drag.(dragging := Some(w'))), out + [paint] + [marker])
  }
}
