/** workspace/workspace.go: the legacy tiling workspace.  Children are the
    `model.Client`s it lays out: the first in `order` takes a main column and
    the others share a stack on the right.  Calls the workspace makes on its
    children are returned as `Effect`s; whether a child claims a pointer event
    is an input.  Go iterates over the `children` map in an unspecified order;
    the model iterates in `order`, whose elements are exactly the map's keys. */
module LegacyWorkspace {
  import opened Wrappers
  import opened Ints
  import opened Geometry
  import opened Events
  import opened KeyboardModel
  import opened UtilsMath

  /** The calls the workspace makes on a child `model.Client`. */
  datatype Call =
    | ResizeTo(width: int, height: int)
    | Focus
    | UnFocus
    | Key(key: KeyboardEvent)
    | PointerTo(pointer: PointerEvent)
    | Leave
    | Ack
    | Blit(at: Rect)

  datatype Effect = Effect(child: int, call: Call)

  /** `Surface`: the child's id, the id it was added under, and its slot. */
  datatype Child = Child(id: int, parent: int, bounding: Rect)

  datatype Workspace = Workspace(
    uniq: int,
    children: map<int, Child>,
    order: seq<int>,
    width: int,
    height: int,
    focusChild: int,
    pointerPos: Point,
    keyboard: Keyboard,
    quit: bool,
    mx: int,
    my: int)

  predicate Distinct(s: seq<int>)
  {
    forall a, b :: 0 <= a < b < |s| ==> s[a] != s[b]
  }

  /** What every operation keeps: `order` lists each child exactly once, each
      child knows its own id, and ids are positive and below `uniq`. */
  predicate Valid(ws: Workspace)
  {
    && ws.uniq >= 1
    && Distinct(ws.order)
    && (forall i :: 0 <= i < |ws.order| ==> ws.order[i] in ws.children)
    && (forall k :: k in ws.children ==> k in ws.order)
    && (forall k :: k in ws.children ==> ws.children[k].id == k && 1 <= k < ws.uniq)
  }

  lemma DistinctTail(s: seq<int>)
    requires Distinct(s) && |s| > 0
    ensures Distinct(s[1..]) && s[0] !in s[1..]
  {
  }

  lemma DistinctCons(x: int, t: seq<int>)
    requires Distinct(t) && x !in t
    ensures Distinct([x] + t)
  {
    var s := [x] + t;
    forall a, b | 0 <= a < b < |s|
      ensures s[a] != s[b]
    {
      if a > 0 {
        assert s[a] == t[a - 1] && s[b] == t[b - 1];
      } else {
        assert s[b] in t;
      }
    }
  }

  /** `len(ws.children)` and `len(ws.order)` agree. */
  lemma DistinctCount(ws: Workspace)
    requires Valid(ws)
    ensures |ws.children| == |ws.order|
  {
    var keys := set k | k in ws.order;
    forall k
      ensures k in ws.children.Keys <==> k in keys
    {
      assert k in ws.children.Keys <==> k in ws.children;
    }
    assert ws.children.Keys == keys;
    DistinctCard(ws.order);
  }

  lemma {:induction false} DistinctCard(s: seq<int>)
    requires Distinct(s)
    ensures |set k | k in s| == |s|
  {
    if |s| > 0 {
      DistinctTail(s);
      DistinctCard(s[1..]);
      assert (set k | k in s) == {s[0]} + set k | k in s[1..];
    }
  }

  /** `int(float64(w) * 0.66666)` is a parameter: any width between 0 and w. */
  predicate MainWidthFits(w: int, mainWidth: int)
  {
    if w >= 0 then 0 <= mainWidth <= w else w <= mainWidth <= 0
  }

  /** `NewWorkspace`: ids start at 1 and nothing has focus. */
  function NewWorkspace(width: int, height: int): (ws: Workspace)
    ensures Valid(ws) && ws.children == map[] && ws.focusChild == -1 && !ws.quit
  {
    Workspace(1, map[], [], width, height, -1, Origin, NewKeyboardModel(), false, 0, 0)
  }

  /** `GetChild`. */
  function GetChild(ws: Workspace, id: int): (r: Option<Child>)
    ensures r.Some? <==> id in ws.children
    ensures r.Some? ==> r.value == ws.children[id]
  {
    if id in ws.children then Some(ws.children[id]) else None
  }

  // ---------------------------------------------------------------------
  // Layout

  /** Child i >= 1 of the stack: `Rect(mainWidth, sh*(i-1), w, sh*i)`. */
  function Slot(mainWidth: int, stackHeight: int, w: int, i: int): Rect
  {
    MakeRect(mainWidth, stackHeight * (i - 1), w, stackHeight * i)
  }

  /** `int(float64(h) / float64(n - 1))`: truncation toward zero. */
  function StackHeight(h: int, n: int): int
    requires n >= 2
  {
    TruncDiv(h, n - 1)
  }

  /** The slot of the i-th of n children: one child fills the workspace;
      with more, the first takes the main column `Rect(0, 0, mainWidth, h)`
      and the others share the stack. */
  function Bounds(n: int, i: int, mainWidth: int, w: int, h: int): Rect
    requires 0 <= i < n
  {
    if n == 1 then MakeRect(0, 0, w, h)
    else if i == 0 then MakeRect(0, 0, mainWidth, h)
    else Slot(mainWidth, StackHeight(h, n), w, i)
  }

  /** The size the i-th of n children is asked to take. */
  function Size(n: int, i: int, mainWidth: int, w: int, h: int): Call
    requires 0 <= i < n
  {
    if n == 1 then ResizeTo(w, h)
    else if i == 0 then ResizeTo(mainWidth, h)
    else ResizeTo(w - mainWidth, StackHeight(h, n))
  }

  /** Where `k` sits in `s`. */
  function IndexOf(s: seq<int>, k: int): (i: nat)
    requires Distinct(s) && k in s
    ensures i < |s| && s[i] == k
  {
    var i :| 0 <= i < |s| && s[i] == k; i
  }

  /** Every child sits in the slot its place in `order` gives it. */
  predicate LaidOut(ws: Workspace, mainWidth: int)
    requires Valid(ws)
  {
    forall i :: 0 <= i < |ws.order| ==>
      ws.children[ws.order[i]].bounding == Bounds(|ws.order|, i, mainWidth, ws.width, ws.height)
  }

  /** `configureChildren`: every child gets its slot and is asked to resize,
      in `order`; nothing else changes. */
  method Configure(ws: Workspace, mainWidth: int) returns (r: Workspace, out: seq<Effect>)
    requires Valid(ws) && MainWidthFits(ws.width, mainWidth)
    ensures Valid(r) && r == ws.(children := r.children) && LaidOut(r, mainWidth)
    ensures forall k :: k in r.children <==> k in ws.children
    ensures forall k :: k in ws.children ==> r.children[k].id == ws.children[k].id && r.children[k].parent == ws.children[k].parent
    ensures |out| == |ws.order|
    ensures forall i :: 0 <= i < |ws.order| ==> out[i] == Effect(ws.order[i], Size(|ws.order|, i, mainWidth, ws.width, ws.height))
  {
    if |ws.order| == 0 {
      return ws, [];
    }
    var m := Place(ws.children, ws.order, mainWidth, ws.width, ws.height);
    Relabelled(ws, m);
    r := ws.(children := m);
    out := Resizes(ws.order, mainWidth, ws.width, ws.height);
  }

  /** The children with their new slots. */
  function Place(children: map<int, Child>, order: seq<int>, mainWidth: int, w: int, h: int): (m: map<int, Child>)
    requires Distinct(order) && forall k :: k in children ==> k in order
    ensures forall k :: k in m <==> k in children
    ensures forall k :: k in children ==> m[k].id == children[k].id && m[k].parent == children[k].parent
    ensures forall i :: 0 <= i < |order| && order[i] in children ==> m[order[i]].bounding == Bounds(|order|, i, mainWidth, w, h)
  {
    var m := map k | k in children :: Placed(children[k], order, k, mainWidth, w, h);
    assert forall i :: 0 <= i < |order| ==> IndexOf(order, order[i]) == i;
    m
  }

  /** One child with the slot of its place in `order`. */
  function Placed(c: Child, order: seq<int>, k: int, mainWidth: int, w: int, h: int): (r: Child)
    requires Distinct(order) && k in order
    ensures r == c.(bounding := r.bounding)
  {
    c.(bounding := Bounds(|order|, IndexOf(order, k), mainWidth, w, h))
  }

  /** The resize calls, in `order`. */
  function Resizes(order: seq<int>, mainWidth: int, w: int, h: int): (r: seq<Effect>)
    ensures |r| == |order|
    ensures forall i :: 0 <= i < |order| ==> r[i] == Effect(order[i], Size(|order|, i, mainWidth, w, h))
  {
    seq(|order|, i requires 0 <= i < |order| => Effect(order[i], Size(|order|, i, mainWidth, w, h)))
  }

  /** New slots for the same children keep a workspace valid. */
  lemma Relabelled(ws: Workspace, m: map<int, Child>)
    requires Valid(ws) && forall k :: k in m <==> k in ws.children
    requires forall k :: k in ws.children ==> m[k].id == ws.children[k].id
    ensures Valid(ws.(children := m))
  {
  }

  /** `image.Rect` membership, with the corners in either order. */
  lemma InMakeRect(x0: int, y0: int, x1: int, y1: int, q: Point)
    ensures q.In(MakeRect(x0, y0, x1, y1)) <==> Min(x0, x1) <= q.x < Max(x0, x1) && Min(y0, y1) <= q.y < Max(y0, y1)
  {
  }

  lemma {:induction false} MulMono(c: int, a: int, b: int)
    requires c >= 0 && a <= b
    ensures c * a <= c * b
    decreases b - a
  {
    if a < b {
      MulMono(c, a, b - 1);
      assert c * b == c * (b - 1) + c;
    }
  }

  /** Two different stack slots share no point, whatever the sign of the heights. */
  lemma SlotsDisjoint(mainWidth: int, sh: int, w: int, i: int, j: int, q: Point)
    requires i < j
    ensures !(q.In(Slot(mainWidth, sh, w, i)) && q.In(Slot(mainWidth, sh, w, j)))
  {
    InMakeRect(mainWidth, sh * (i - 1), w, sh * i, q);
    InMakeRect(mainWidth, sh * (j - 1), w, sh * j, q);
    var c := if sh >= 0 then sh else -sh;
    MulMono(c, i - 1, i);
    MulMono(c, i, j - 1);
    MulMono(c, j - 1, j);
    assert c * (i - 1) == (if sh >= 0 then sh * (i - 1) else -(sh * (i - 1)));
    assert c * i == (if sh >= 0 then sh * i else -(sh * i));
    assert c * (j - 1) == (if sh >= 0 then sh * (j - 1) else -(sh * (j - 1)));
  }

  /** The main column and a stack slot share no point. */
  lemma MainSlotDisjoint(mainWidth: int, sh: int, w: int, h: int, i: int, q: Point)
    requires MainWidthFits(w, mainWidth)
    ensures !(q.In(MakeRect(0, 0, mainWidth, h)) && q.In(Slot(mainWidth, sh, w, i)))
  {
    InMakeRect(0, 0, mainWidth, h, q);
    InMakeRect(mainWidth, sh * (i - 1), w, sh * i, q);
  }

  /** No point lies in the slots of two different children. */
  lemma BoundsDisjoint(n: int, i: int, j: int, mainWidth: int, w: int, h: int, q: Point)
    requires 0 <= i < j < n && MainWidthFits(w, mainWidth)
    ensures !(q.In(Bounds(n, i, mainWidth, w, h)) && q.In(Bounds(n, j, mainWidth, w, h)))
  {
    var sh := StackHeight(h, n);
    if i == 0 {
      MainSlotDisjoint(mainWidth, sh, w, h, j, q);
    } else {
      SlotsDisjoint(mainWidth, sh, w, i, j, q);
    }
  }

  /** With a non-negative height, every slot lies inside the workspace. */
  lemma BoundsInside(n: int, i: int, mainWidth: int, w: int, h: int, q: Point)
    requires 0 <= i < n && MainWidthFits(w, mainWidth) && h >= 0
    ensures q.In(Bounds(n, i, mainWidth, w, h)) ==> q.In(MakeRect(0, 0, w, h))
  {
    InMakeRect(0, 0, w, h, q);
    if n == 1 || i == 0 {
      InMakeRect(0, 0, mainWidth, h, q);
    } else {
      var sh := StackHeight(h, n);
      InMakeRect(mainWidth, sh * (i - 1), w, sh * i, q);
      StackFits(h, n);
      MulMono(sh, i - 1, i);
      MulMono(sh, 0, i - 1);
      MulMono(sh, i, n - 1);
      assert 0 <= sh * (i - 1) <= sh * i <= h;
    }
  }

  /** The stack never runs past the bottom: (n - 1) slots of height h / (n - 1). */
  lemma StackFits(h: int, n: int)
    requires h >= 0 && n >= 2
    ensures 0 <= StackHeight(h, n) && StackHeight(h, n) * (n - 1) <= h
  {
    var d := n - 1;
    assert h == (h / d) * d + h % d;
  }

  /** In a laid-out workspace no point lies in the slots of two different children. */
  lemma LayoutDisjoint(ws: Workspace, mainWidth: int, a: int, b: int, q: Point)
    requires Valid(ws) && LaidOut(ws, mainWidth) && MainWidthFits(ws.width, mainWidth)
    requires a in ws.children && b in ws.children && a != b
    ensures !(q.In(ws.children[a].bounding) && q.In(ws.children[b].bounding))
  {
    var n := |ws.order|;
    var ia :| 0 <= ia < n && ws.order[ia] == a;
    var ib :| 0 <= ib < n && ws.order[ib] == b;
    if ia < ib {
      BoundsDisjoint(n, ia, ib, mainWidth, ws.width, ws.height, q);
    } else {
      BoundsDisjoint(n, ib, ia, mainWidth, ws.width, ws.height, q);
    }
  }

  // ---------------------------------------------------------------------
  // Children

  /** `AddChild`: the new child gets the current `uniq`, goes last in `order`
      and, when it is the only child, is told it has focus. */
  method AddChild(ws: Workspace, parent: int, mainWidth: int) returns (r: Workspace, cid: int, out: seq<Effect>)
    requires Valid(ws) && MainWidthFits(ws.width, mainWidth)
    ensures Valid(r) && LaidOut(r, mainWidth)
    ensures cid == ws.uniq && cid !in ws.children && r.uniq == ws.uniq + 1
    ensures r.order == ws.order + [cid] && forall k :: k in r.children <==> k in ws.children || k == cid
    ensures r.children[cid].parent == parent
    ensures forall k :: k in ws.children ==> r.children[k].parent == ws.children[k].parent
    ensures Effect(cid, Focus) in out <==> |ws.children| == 0
    ensures forall e :: e in out && e.call == Focus ==> e.child == cid
    ensures r == ws.(children := r.children, order := r.order, uniq := r.uniq)
    ensures var f := if |ws.children| == 0 then 1 else 0;
      |out| == f + |r.order| && (f == 1 ==> out[0] == Effect(cid, Focus))
      && forall i :: 0 <= i < |r.order| ==> out[f + i] == Effect(r.order[i], Size(|r.order|, i, mainWidth, r.width, r.height))
  {
    cid := ws.uniq;
    var ws1 := Insert(ws, parent);
    r, out := Reconfigure(ws1, cid, |ws1.children| == 1, mainWidth);
  }

  /** The layout half of `AddChild`: the new child `cid` is told it has focus when it
      is the only one (`first`), then every child is laid out and asked to resize. */
  method Reconfigure(ws: Workspace, cid: int, first: bool, mainWidth: int) returns (r: Workspace, out: seq<Effect>)
    requires Valid(ws) && MainWidthFits(ws.width, mainWidth)
    ensures Valid(r) && r == ws.(children := r.children) && LaidOut(r, mainWidth)
    ensures forall k :: k in r.children <==> k in ws.children
    ensures forall k :: k in ws.children ==> r.children[k].parent == ws.children[k].parent
    ensures Effect(cid, Focus) in out <==> first
    ensures forall e :: e in out && e.call == Focus ==> e.child == cid
    ensures var f := if first then 1 else 0;
      |out| == f + |r.order| && (first ==> out[0] == Effect(cid, Focus))
      && forall i :: 0 <= i < |r.order| ==> out[f + i] == Effect(r.order[i], Size(|r.order|, i, mainWidth, r.width, r.height))
  {
    var resize;
    r, resize := Configure(ws, mainWidth);
    assert forall e :: e in resize ==> e.call.ResizeTo?;
    out := WithFocus(cid, first, resize);
  }

  /** The resize calls, preceded by a focus call to `cid` when `first`. */
  function WithFocus(cid: int, first: bool, resize: seq<Effect>): (out: seq<Effect>)
    requires forall e :: e in resize ==> e.call.ResizeTo?
    ensures Effect(cid, Focus) in out <==> first
    ensures forall e :: e in out && e.call == Focus ==> e.child == cid
    ensures var f := if first then 1 else 0;
      |out| == f + |resize| && (first ==> out[0] == Effect(cid, Focus))
      && forall i :: 0 <= i < |resize| ==> out[f + i] == resize[i]
  {
    if first then
      var out := [Effect(cid, Focus)] + resize;
      assert out[1..] == resize;
      out
    else resize
  }

  /** The bookkeeping half of `AddChild`, before the new layout. */
  function Insert(ws: Workspace, parent: int): (r: Workspace)
    requires Valid(ws)
    ensures Valid(r) && r == ws.(children := r.children, order := r.order, uniq := r.uniq)
    ensures r.uniq == ws.uniq + 1 && r.order == ws.order + [ws.uniq]
    ensures r.children == ws.children[ws.uniq := Child(ws.uniq, parent, ZR)]
    ensures (forall k :: k in r.children <==> k in ws.children || k == ws.uniq) && |r.children| == |ws.children| + 1
    ensures ws.uniq !in ws.children
  {
    var cid := ws.uniq;
    assert cid !in ws.order;
    DistinctSnoc(ws.order, cid);
    var r := ws.(children := ws.children[cid := Child(cid, parent, ZR)], uniq := ws.uniq + 1,
                 order := ws.order + [cid]);
    assert forall i :: 0 <= i < |r.order| ==> r.order[i] in r.children by {
      assert forall i :: 0 <= i < |ws.order| ==> r.order[i] == ws.order[i];
    }
    r
  }

  lemma DistinctSnoc(s: seq<int>, x: int)
    requires Distinct(s) && x !in s
    ensures Distinct(s + [x])
  {
  }

  /** `s` without `id`, the rest in order. */
  function FilterOut(s: seq<int>, id: int): (r: seq<int>)
    ensures forall k :: k in r <==> k in s && k != id
    ensures |r| <= |s|
  {
    if |s| == 0 then []
    else if s[0] == id then FilterOut(s[1..], id)
    else
      var rest := FilterOut(s[1..], id);
      assert forall k :: k in rest ==> k in s[1..];
      [s[0]] + rest
  }

  lemma {:induction false} FilterOutDistinct(s: seq<int>, id: int)
    requires Distinct(s)
    ensures Distinct(FilterOut(s, id))
  {
    if |s| > 0 {
      DistinctTail(s);
      FilterOutDistinct(s[1..], id);
      if s[0] != id {
        DistinctCons(s[0], FilterOut(s[1..], id));
      }
    }
  }

  /** Filtering out an id that is not there changes nothing. */
  lemma {:induction false} FilterOutAbsent(s: seq<int>, id: int)
    requires id !in s
    ensures FilterOut(s, id) == s
  {
    if |s| > 0 {
      assert s == [s[0]] + s[1..];
      FilterOutAbsent(s[1..], id);
    }
  }

  /** Filtering distributes over concatenation. */
  lemma {:induction false} FilterOutAppend(s: seq<int>, t: seq<int>, id: int)
    ensures FilterOut(s + t, id) == FilterOut(s, id) + FilterOut(t, id)
  {
    if |s| > 0 {
      assert (s + t)[1..] == s[1..] + t;
      FilterOutAppend(s[1..], t, id);
    } else {
      assert s + t == t;
    }
  }

  /** Removing the child just inserted restores the order and the children. */
  lemma RemoveUndoesInsert(ws: Workspace, parent: int)
    requires Valid(ws)
    ensures var r := Insert(ws, parent);
      FilterOut(r.order, ws.uniq) == ws.order && r.children - {ws.uniq} == ws.children
  {
    var r := Insert(ws, parent);
    FilterOutAppend(ws.order, [ws.uniq], ws.uniq);
    FilterOutAbsent(ws.order, ws.uniq);
    assert FilterOut([ws.uniq], ws.uniq) == [];
    assert r.children - {ws.uniq} == ws.children;
  }

  /** `RemoveChild`: the id leaves both `order` and the map; the others keep their order. */
  method RemoveChild(ws: Workspace, id: int, mainWidth: int) returns (r: Workspace, out: seq<Effect>)
    requires Valid(ws) && MainWidthFits(ws.width, mainWidth)
    ensures Valid(r) && LaidOut(r, mainWidth) && r.uniq == ws.uniq
    ensures r.order == FilterOut(ws.order, id)
    ensures forall k :: k in r.children <==> k in ws.children && k != id
    ensures forall k :: k in r.children ==> r.children[k].parent == ws.children[k].parent
    ensures r == ws.(children := r.children, order := r.order)
    ensures |out| == |r.order|
    ensures forall i :: 0 <= i < |r.order| ==> out[i] == Effect(r.order[i], Size(|r.order|, i, mainWidth, r.width, r.height))
  {
    var ws1 := ws.(order := FilterOut(ws.order, id), children := ws.children - {id});
    assert forall k :: k in ws.order ==> k in ws.children;
    FilterOutDistinct(ws.order, id);
    r, out := Configure(ws1, mainWidth);
  }

  /** The ids in `s` whose child has a different parent. */
  function KeepOtherParents(s: seq<int>, children: map<int, Child>, pid: int): (r: seq<int>)
    requires forall i :: 0 <= i < |s| ==> s[i] in children
    ensures forall k :: k in r <==> k in s && children[k].parent != pid
  {
    if |s| == 0 then []
    else
      var rest := KeepOtherParents(s[1..], children, pid);
      if children[s[0]].parent == pid then rest else [s[0]] + rest
  }

  lemma {:induction false} KeepOtherParentsDistinct(s: seq<int>, children: map<int, Child>, pid: int)
    requires Distinct(s) && forall i :: 0 <= i < |s| ==> s[i] in children
    ensures Distinct(KeepOtherParents(s, children, pid))
  {
    if |s| > 0 {
      DistinctTail(s);
      KeepOtherParentsDistinct(s[1..], children, pid);
      if children[s[0]].parent != pid {
        DistinctCons(s[0], KeepOtherParents(s[1..], children, pid));
      }
    }
  }

  /** `RemoveChildren`: every child added under `pid` goes; no other does. */
  method RemoveChildren(ws: Workspace, pid: int, mainWidth: int) returns (r: Workspace, out: seq<Effect>)
    requires Valid(ws) && MainWidthFits(ws.width, mainWidth)
    ensures Valid(r) && LaidOut(r, mainWidth) && r.uniq == ws.uniq
    ensures forall k :: k in r.children <==> k in ws.children && ws.children[k].parent != pid
    ensures r.order == KeepOtherParents(ws.order, ws.children, pid)
    ensures r == ws.(children := r.children, order := r.order)
    ensures |out| == |r.order|
    ensures forall i :: 0 <= i < |r.order| ==> out[i] == Effect(r.order[i], Size(|r.order|, i, mainWidth, r.width, r.height))
  {
    var order := KeepOtherParents(ws.order, ws.children, pid);
    var children := map k | k in ws.children && ws.children[k].parent != pid :: ws.children[k];
    KeepOtherParentsDistinct(ws.order, ws.children, pid);
    var kept := ws.(order := order, children := children);
    assert forall i :: 0 <= i < |order| ==> order[i] in children by {
      forall i | 0 <= i < |order| ensures order[i] in children {
        assert order[i] in order;
      }
    }
    assert forall k :: k in children ==> k in order;
    assert forall k :: k in children ==> children[k] == ws.children[k];
    assert Valid(kept);
    r, out := Configure(kept, mainWidth);
  }

  /** `Resize`: the new size, then a fresh layout. */
  method Resize(ws: Workspace, width: int, height: int, mainWidth: int) returns (r: Workspace, out: seq<Effect>)
    requires Valid(ws) && MainWidthFits(width, mainWidth)
    ensures Valid(r) && LaidOut(r, mainWidth) && r.width == width && r.height == height
    ensures (forall k :: k in r.children <==> k in ws.children) && r.order == ws.order
    ensures r == ws.(children := r.children, width := width, height := height)
    ensures |out| == |r.order|
    ensures forall i :: 0 <= i < |r.order| ==> out[i] == Effect(r.order[i], Size(|r.order|, i, mainWidth, width, height))
  {
    r, out := Configure(ws.(width := width, height := height), mainWidth);
  }

  // ---------------------------------------------------------------------
  // Input and focus

  /** The same call to every child, in `order`. */
  function ToAll(order: seq<int>, call: Call): (r: seq<Effect>)
    ensures |r| == |order| && forall i :: 0 <= i < |order| ==> r[i] == Effect(order[i], call)
  {
    if |order| == 0 then [] else [Effect(order[0], call)] + ToAll(order[1..], call)
  }

  /** `ProcessKeyboardEvent`: Alt+Esc (after this event) sets `Quit` and goes no
      further; any other key goes to the focused child only. */
  function ProcessKeyboardEvent(ws: Workspace, ev: KeyboardEvent): (r: (Workspace, seq<Effect>))
    ensures r.0.keyboard == KeyboardModel.ProcessKeyboardEvent(ws.keyboard, ev)
    ensures var kb := r.0.keyboard;
      if IsDown(kb, KB_ALT) && IsDown(kb, KB_ESC) then r.0.quit && r.1 == []
      else r.0.quit == ws.quit && r.1 == (if ws.focusChild in ws.children then [Effect(ws.focusChild, Key(ev))] else [])
    ensures r.0.children == ws.children && r.0.order == ws.order && r.0.focusChild == ws.focusChild
  {
    var kb := KeyboardModel.ProcessKeyboardEvent(ws.keyboard, ev);
    var ws1 := ws.(keyboard := kb);
    if IsDown(kb, KB_ALT) && IsDown(kb, KB_ESC) then (ws1.(quit := true), [])
    else if ws.focusChild in ws.children then (ws1, [Effect(ws.focusChild, Key(ev))])
    else (ws1, [])
  }

  /** Pressing Esc while Alt is held quits whatever else is down. */
  lemma AltEscQuits(ws: Workspace, ev: KeyboardEvent)
    requires IsDown(ws.keyboard, KB_ALT) && ev.key == KB_ESC && ev.state == 1
    ensures var (r, out) := ProcessKeyboardEvent(ws, ev); r.quit && out == []
  {
  }

  /** The per-child part of `ProcessPointerEvent` inside the workspace: the
      children whose slot holds the pointer get the event in local coordinates
      (and focus, if they claim it); the others get a leave. */
  function RoutePointer(order: seq<int>, children: map<int, Child>, x: int, y: int, ev: PointerEvent,
                        claims: set<int>, focus: int): (r: (int, seq<Effect>))
    requires forall i :: 0 <= i < |order| ==> order[i] in children
    ensures |r.1| == |order|
    ensures forall i :: 0 <= i < |order| ==> r.1[i] == Effect(order[i], PointerCall(children[order[i]].bounding, x, y, ev))
    ensures r.0 == focus || (r.0 in order && r.0 in claims && Point(x, y).In(children[r.0].bounding))
  {
    if |order| == 0 then (focus, [])
    else
      var k := order[0];
      var call := PointerCall(children[k].bounding, x, y, ev);
      var focus' := if call.PointerTo? && k in claims then k else focus;
      var (f, out) := RoutePointer(order[1..], children, x, y, ev, claims, focus');
      (f, [Effect(k, call)] + out)
  }

  /** What a child with slot `b` is told about a pointer at (x, y): the event in
      slot-local coordinates when the slot holds the pointer, a leave otherwise. */
  function PointerCall(b: Rect, x: int, y: int, ev: PointerEvent): (c: Call)
    ensures c.PointerTo? <==> Point(x, y).In(b)
    ensures c.PointerTo? ==> c.pointer == WithMove(ev, x - b.min.x, y - b.min.y)
    ensures !c.PointerTo? ==> c == Leave
  {
    var h := IntersectsRect(x, y, b);
    if h.intersects then PointerTo(WithMove(ev, h.ix, h.iy)) else Leave
  }

  /** `ProcessPointerEvent`: a move updates the pointer position; outside the
      workspace every child gets a leave; the workspace always claims the event. */
  function ProcessPointerEvent(ws: Workspace, ev: PointerEvent, claims: set<int>): (r: (Workspace, seq<Effect>, bool))
    requires Valid(ws)
    ensures r.2 && Valid(r.0)
    ensures r.0.children == ws.children && r.0.order == ws.order
    ensures ev.move.Some? ==>
      (r.0.mx == ev.move.value.mx && r.0.my == ev.move.value.my && r.0.pointerPos == Pt(ev.move.value.mx, ev.move.value.my))
    ensures ev.move.None? ==> r.0.mx == ws.mx && r.0.my == ws.my && r.0.pointerPos == ws.pointerPos
    ensures !Point(r.0.mx, r.0.my).In(MakeRect(0, 0, ws.width, ws.height)) ==>
      r.1 == ToAll(ws.order, Leave) && r.0.focusChild == ws.focusChild
    ensures r.0.focusChild == ws.focusChild
      || (r.0.focusChild in claims && r.0.focusChild in ws.children
          && Point(r.0.mx, r.0.my).In(ws.children[r.0.focusChild].bounding))
  {
    var ws1 := if ev.move.Some? then
      ws.(mx := ev.move.value.mx, my := ev.move.value.my, pointerPos := Pt(ev.move.value.mx, ev.move.value.my))
    else ws;
    if !IntersectsRect(ws1.mx, ws1.my, MakeRect(0, 0, ws.width, ws.height)).intersects then
      (ws1, ToAll(ws.order, Leave), true)
    else
      var (f, out) := RoutePointer(ws.order, ws.children, ws1.mx, ws1.my, ev, claims, ws.focusChild);
      (ws1.(focusChild := f), out, true)
  }

  /** In a laid-out workspace the event reaches at most one child. */
  lemma PointerReachesOneChild(ws: Workspace, mainWidth: int, ev: PointerEvent, claims: set<int>, i: int, j: int)
    requires Valid(ws) && LaidOut(ws, mainWidth) && MainWidthFits(ws.width, mainWidth)
    requires 0 <= i < j < |ws.order|
    ensures var out := ProcessPointerEvent(ws, ev, claims).1;
      !(out[i].call.PointerTo? && out[j].call.PointerTo?)
  {
    var (r, out, _) := ProcessPointerEvent(ws, ev, claims);
    if out[i].call.PointerTo? && out[j].call.PointerTo? {
      assert ws.order[i] != ws.order[j];
      LayoutDisjoint(ws, mainWidth, ws.order[i], ws.order[j], Point(r.mx, r.my));
      assert false;
    }
  }

  /** `HandlePointerLeave`: every child gets a leave. */
  function HandlePointerLeave(ws: Workspace): (r: seq<Effect>)
    ensures |r| == |ws.order| && forall i :: 0 <= i < |r| ==> r[i] == Effect(ws.order[i], Leave)
  {
    ToAll(ws.order, Leave)
  }

  /** `ProcessFocus`: the first child in `order`, if any, takes focus. */
  function ProcessFocus(ws: Workspace): (r: Workspace)
    ensures |ws.order| >= 1 ==> r == ws.(focusChild := ws.order[0])
    ensures |ws.order| == 0 ==> r == ws
  {
    if |ws.order| >= 1 then ws.(focusChild := ws.order[0]) else ws
  }

  /** `ProcessUnFocus`: every child is told, and nothing has focus. */
  function ProcessUnFocus(ws: Workspace): (r: (Workspace, seq<Effect>))
    ensures r.0 == ws.(focusChild := -1)
    ensures r.1 == ToAll(ws.order, UnFocus)
  {
    (ws.(focusChild := -1), ToAll(ws.order, UnFocus))
  }

  /** After `ProcessUnFocus`, keys reach no child until focus is given again. */
  lemma UnFocusSilencesKeys(ws: Workspace, ev: KeyboardEvent)
    requires Valid(ws)
    ensures ProcessKeyboardEvent(ProcessUnFocus(ws).0, ev).1 == []
  {
  }

  /** `AckFrame`: every child is acknowledged. */
  function AckFrame(ws: Workspace): (r: seq<Effect>)
    ensures |r| == |ws.order| && forall i :: 0 <= i < |r| ==> r[i] == Effect(ws.order[i], Ack)
  {
    ToAll(ws.order, Ack)
  }

  // ---------------------------------------------------------------------
  // Rendering

  /** `blitChild` for each child in turn, given the size of each child's current
      buffer (absent: nil).  A missing buffer or one of the wrong size asks the
      child to resize to its slot; any buffer is then copied into the slot. */
  function BlitAll(order: seq<int>, children: map<int, Child>, buffers: map<int, Rect>): (r: seq<Effect>)
    requires forall i :: 0 <= i < |order| ==> order[i] in children
    ensures forall e :: e in r ==> e.child in order
    ensures forall k :: k in order && k in buffers ==> Effect(k, Blit(children[k].bounding)) in r
    ensures forall k :: k in order && (k !in buffers || children[k].bounding.Dx() != buffers[k].Dx()
                                       || children[k].bounding.Dy() != buffers[k].Dy()) ==>
      Effect(k, ResizeTo(children[k].bounding.Dx(), children[k].bounding.Dy())) in r
  {
    if |order| == 0 then []
    else
      var k := order[0];
      var b := children[k].bounding;
      var resize := [Effect(k, ResizeTo(b.Dx(), b.Dy()))];
      var mine :=
        if k !in buffers then resize
        else if b.Dx() != buffers[k].Dx() || b.Dy() != buffers[k].Dy() then resize + [Effect(k, Blit(b))]
        else [Effect(k, Blit(b))];
      var rest := BlitAll(order[1..], children, buffers);
      mine + rest
  }

  /** `Buffer`: every child is drawn; with no child focused, a 5x5 marker in
      `color.RGBA{R: 254}` is drawn at the pointer (returned as its top-left corner). */
  function Buffer(ws: Workspace, buffers: map<int, Rect>): (r: (seq<Effect>, Option<Point>))
    requires Valid(ws)
    ensures r.1.Some? <==> ws.focusChild == -1
    ensures r.1.Some? ==> r.1.value == ws.pointerPos
    ensures forall k :: k in ws.children && k in buffers ==> Effect(k, Blit(ws.children[k].bounding)) in r.0
    ensures forall k :: k in ws.children && (k !in buffers || ws.children[k].bounding.Dx() != buffers[k].Dx()
                                             || ws.children[k].bounding.Dy() != buffers[k].Dy()) ==>
      Effect(k, ResizeTo(ws.children[k].bounding.Dx(), ws.children[k].bounding.Dy())) in r.0
  {
    (BlitAll(ws.order, ws.children, buffers), if ws.focusChild == -1 then Some(ws.pointerPos) else None)
  }
}
