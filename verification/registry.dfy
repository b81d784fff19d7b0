/** wayland/registry.go and the state of one `WaylandServerConn`.

    Go objects are pointers, and the same object can be reachable from several
    places: one seat under several wire ids, a wl_surface from its xdg_surface,
    its subsurfaces and the keyboard focus.  The model keeps every object of a
    connection in a heap `objs` indexed by an address; the registry `ids` maps
    a wire id to an address, and objects refer to each other by address.
    `Registry.New` allocates a fresh address; `Destroy` only drops the wire id
    (an object still referenced elsewhere stays alive, as it does under Go's
    collector). */
module Registry {
  import opened Wrappers
  import opened Ints
  import opened Geometry
  import KeyboardModel
  import Pixels
  import Stack
  import Queue

  /** One rectangle of a wl_region, added or subtracted. */
  datatype Area = Area(rect: Rect, subtract: bool)

  datatype WlRegion = WlRegion(id: int, rects: Stack.Stack<Area>)

  datatype WlSurface = WlSurface(
    id: int,
    frameCallback: int,
    attached: bool,
    pending: Option<int>,          // a wl_buffer
    committedInput: Option<int>,   // a wl_region
    pendingInput: Option<int>,     // a wl_region
    children: seq<int>,            // wl_subsurfaces
    cached: Option<Pixels.BGRA>,
    damage: seq<Rect>,
    first: bool)

  datatype WlBuffer = WlBuffer(id: int, pool: int, width: int, height: int, stride: int,
                               offset: int, format: int, destroyed: bool)

  datatype ShmPool = ShmPool(id: int, fd: int, size: int, data: seq<int>)

  datatype SubSurface = SubSurface(id: int, surface: int, parent: int, position: Point, synced: bool)

  datatype WlSeat = WlSeat(id: int, keyboard: Option<int>, mouse: Option<int>, serial: int,
                           pointerFocus: Option<int>)   // an xdg_surface

  datatype WlKeyboard = WlKeyboard(id: int, kb: KeyboardModel.Keyboard, active: Option<int>)

  datatype WlPointer = WlPointer(id: int, surface: int, hotspot: Point)

  datatype DataDevice = DataDevice(id: int, seat: int, selection: Option<int>)

  datatype DataSource = DataSource(id: int, mimetypes: set<seq<int>>)

  datatype Positioner = Positioner(id: int, size: Rect, anchorRect: Rect, anchor: int, gravity: int,
                                   constraintAdjustment: int, offset: Point, reactive: bool)

  datatype XdgSurface = XdgSurface(
    id: int,
    uniq: int,                     // the compositor-wide window index
    surface: int,                  // the wl_surface it wraps
    topLevel: Option<int>,
    positioner: Option<int>,
    windowGeometry: Rect,
    hasPointer: bool,
    parent: Option<int>,           // the parent xdg_surface of a popup
    popup: Option<int>,            // the popup opened on this surface
    offset: Point,
    configuring: bool,
    serial: int)

  datatype Toplevel = Toplevel(id: int, title: seq<int>, size: Point)

  datatype Popup = Popup(id: int, parent: int, surface: int, positioner: int, configured: bool)

  /** The closed set of object kinds a registry entry can hold. */
  datatype Obj =
    | NullObj
    | DisplayObj(lastSync: int)
    | UnboundObj
    | CompositorObj
    | RegionObj(region: WlRegion)
    | SurfaceObj(surface: WlSurface)
    | BufferObj(buffer: WlBuffer)
    | ShmObj(shmId: int)
    | PoolObj(pool: ShmPool)
    | SubCompositorObj
    | SubSurfaceObj(sub: SubSurface)
    | SeatObj(seat: WlSeat)
    | KeyboardObj(keyboard: WlKeyboard)
    | PointerObj(pointer: WlPointer)
    | ManagerObj(managerId: int)
    | DeviceObj(device: DataDevice)
    | SourceObj(source: DataSource)
    | OutputObj(outputId: int)
    | ViewporterObj(viewporterId: int)
    | BaseObj(baseId: int)
    | PositionerObj(positioner: Positioner)
    | XdgSurfaceObj(xdg: XdgSurface)
    | ToplevelObj(toplevel: Toplevel)
    | PopupObj(popup: Popup)

  /** A connection: its heap, its registry, the queue of received descriptors, the
      xdg_wm_base that is pinged on a stalled read, and the registry's window counter
      `globalIdx`.  The count of stalled reads belongs to the read loop alone. */
  datatype Conn = Conn(
    index: int,
    objs: map<int, Obj>,
    ids: map<int, int>,
    next: int,
    fds: Queue.Queue<int>,
    pingTarget: Option<int>,
    globalIdx: int)

  /** Every wire id names a live object and every address is below the allocation counter. */
  predicate Valid(c: Conn)
  {
    c.next >= 0
    && (forall id :: id in c.ids ==> c.ids[id] in c.objs)
    && (forall a :: a in c.objs ==> 0 <= a < c.next)
  }

  /** A connection before `handle` runs: an empty registry and no descriptors. */
  function NewConn(index: int): (c: Conn)
    ensures Valid(c) && c.ids == map[] && c.objs == map[]
    ensures Queue.IsEmpty(c.fds) && c.pingTarget.None? && c.globalIdx == 0
  {
    Conn(index, map[], map[], 0, Queue.New(), None, 0)
  }

  // ---------------------------------------------------------------------
  // Registry operations

  /** `Registry.New`: a fresh object under `id`.  An earlier entry is overwritten
      without any teardown. */
  function New(c: Conn, id: int, o: Obj): (r: (Conn, int))
    requires Valid(c)
    ensures Valid(r.0)
    ensures r.1 == c.next && r.1 !in c.objs && r.0.next == c.next + 1
    ensures r.0.ids == c.ids[id := r.1] && r.0.objs == c.objs[r.1 := o]
    ensures r.0 == c.(ids := r.0.ids, objs := r.0.objs, next := r.0.next)
  {
    (c.(objs := c.objs[c.next := o], ids := c.ids[id := c.next], next := c.next + 1), c.next)
  }

  /** Makes `id` another name for the object at address `a` (the seat rebind). */
  function Alias(c: Conn, id: int, a: int): (r: Conn)
    requires Valid(c) && a in c.objs
    ensures Valid(r) && r == c.(ids := c.ids[id := a])
  {
    c.(ids := c.ids[id := a])
  }

  /** `Registry.Get`: the object under `id`, or "unknown object". */
  function Get(c: Conn, id: int): (r: Result<Obj>)
    requires Valid(c)
    ensures r.Err? <==> id !in c.ids
    ensures r.Err? ==> r.error == UnknownObject
    ensures r.Ok? ==> r.value == c.objs[c.ids[id]]
  {
    if id in c.ids then Ok(c.objs[c.ids[id]]) else Err(UnknownObject)
  }

  /** `Registry.Destroy`: drops `id` only. */
  function Destroy(c: Conn, id: int): (r: Conn)
    requires Valid(c)
    ensures Valid(r) && r == c.(ids := r.ids)
    ensures forall k :: k in r.ids <==> k in c.ids && k != id
    ensures forall k :: k in r.ids ==> r.ids[k] == c.ids[k]
  {
    c.(ids := c.ids - {id})
  }

  /** Replaces the object at an address, keeping its wire ids. */
  function Store(c: Conn, a: int, o: Obj): (r: Conn)
    requires Valid(c) && a in c.objs
    ensures Valid(r) && r == c.(objs := c.objs[a := o])
  {
    c.(objs := c.objs[a := o])
  }

  /** `d` differs from `c` only in the contents of the heap: the same addresses are
      live and the registry and counters are untouched. */
  ghost predicate SameShape(c: Conn, d: Conn)
  {
    d == c.(objs := d.objs) && (forall a :: a in d.objs ==> a in c.objs) && (forall a :: a in c.objs ==> a in d.objs)
  }

  /** The wire id of the wl_surface at address `a` (Go reads `surface.id` through a
      pointer that always names a surface; any other address reads as 0). */
  function SurfaceIdAt(c: Conn, a: int): (id: int)
    ensures a in c.objs && c.objs[a].SurfaceObj? ==> id == c.objs[a].surface.id
  {
    if a in c.objs && c.objs[a].SurfaceObj? then c.objs[a].surface.id else 0
  }

  /** After `New`, `Get` finds the new object, whatever `id` held before. */
  lemma NewThenGet(c: Conn, id: int, o: Obj)
    requires Valid(c)
    ensures Get(New(c, id, o).0, id) == Ok(o)
  {
  }

  /** `New` leaves every other id naming the object it named. */
  lemma NewKeepsOthers(c: Conn, id: int, o: Obj, k: int)
    requires Valid(c) && k != id
    ensures Get(New(c, id, o).0, k) == Get(c, k)
  {
  }

  /** After `Destroy`, the id is unknown and every other id is unaffected; an absent id
      changes nothing. */
  lemma DestroyThenGet(c: Conn, id: int, k: int)
    requires Valid(c)
    ensures Get(Destroy(c, id), id) == Err(UnknownObject)
    ensures k != id ==> Get(Destroy(c, id), k) == Get(c, k)
    ensures id !in c.ids ==> Destroy(c, id) == c
  {
  }

  // ---------------------------------------------------------------------
  // Lookups by kind

  predicate IsSeat(o: Obj) { o.SeatObj? }
  predicate IsOutput(o: Obj) { o.OutputObj? }

  /** The wire ids that currently name an object satisfying the kind test. */
  function IdsOf(c: Conn, seat: bool): (s: set<int>)
    requires Valid(c)
    ensures forall id :: id in s <==> id in c.ids && (if seat then IsSeat(c.objs[c.ids[id]]) else IsOutput(c.objs[c.ids[id]]))
  {
    set id | id in c.ids && (if seat then IsSeat(c.objs[c.ids[id]]) else IsOutput(c.objs[c.ids[id]]))
  }

  lemma Pick(s: set<int>) returns (y: int)
    requires s != {}
    ensures y in s
  {
    if forall x :: x !in s {
      assert false;   // s would equal {}
    }
    y :| y in s;
  }

  lemma {:induction false} MinOf(s: set<int>) returns (m: int)
    requires s != {}
    ensures m in s && forall x :: x in s ==> m <= x
    decreases |s|
  {
    var y := Pick(s);
    var rest := s - {y};
    if rest == {} {
      m := y;
      forall x | x in s ensures m <= x {
        assert x !in rest;
      }
    } else {
      var k := MinOf(rest);
      m := if y < k then y else k;
      forall x | x in s ensures m <= x {
        if x != y {
          assert x in rest;
        }
      }
    }
  }

  lemma MinExists(s: set<int>)
    requires s != {}
    ensures exists m :: m in s && forall x :: x in s ==> m <= x
  {
    var m := MinOf(s);
  }

  /** The least element: a fixed stand-in for Go's unspecified map iteration order. */
  function Least(s: set<int>): (m: int)
    requires s != {}
    ensures m in s && forall x :: x in s ==> m <= x
  {
    MinExists(s);
    var m :| m in s && forall x :: x in s ==> m <= x;
    m
  }

  /** `FindSeat`: the address of some registered seat, or none exactly when no wire id
      names a seat. */
  function FindSeat(c: Conn): (r: Option<int>)
    requires Valid(c)
    ensures r.None? <==> forall id :: id in c.ids ==> !c.objs[c.ids[id]].SeatObj?
    ensures r.Some? ==> r.value in c.objs && c.objs[r.value].SeatObj?
    ensures r.Some? ==> exists id :: id in c.ids && c.ids[id] == r.value
  {
    var s := IdsOf(c, true);
    if s == {} then None
    else
      var id := Least(s);
      Some(c.ids[id])
  }

  /** `FindOutput`: the wire id of some registered output, or none exactly when there is
      none.  (Only `Output.id` is ever read from the result.) */
  function FindOutput(c: Conn): (r: Option<int>)
    requires Valid(c)
    ensures r.None? <==> forall id :: id in c.ids ==> !c.objs[c.ids[id]].OutputObj?
    ensures r.Some? ==> exists id :: id in c.ids && c.objs[c.ids[id]] == OutputObj(r.value)
  {
    var s := IdsOf(c, false);
    if s == {} then None
    else
      var id := Least(s);
      Some(c.objs[c.ids[id]].outputId)
  }

  /** `FindSurfaces`: the addresses of exactly the registered wl_surfaces. */
  function FindSurfaces(c: Conn): (r: set<int>)
    requires Valid(c)
    ensures forall a :: a in r <==> a in c.objs && c.objs[a].SurfaceObj? && exists id :: id in c.ids && c.ids[id] == a
  {
    set id | id in c.ids && c.objs[c.ids[id]].SurfaceObj? :: c.ids[id]
  }

  /** `FindXDGSurfaces`: the addresses of exactly the registered xdg_surfaces. */
  function FindXdgSurfaces(c: Conn): (r: set<int>)
    requires Valid(c)
    ensures forall a :: a in r <==> a in c.objs && c.objs[a].XdgSurfaceObj? && exists id :: id in c.ids && c.ids[id] == a
  {
    set id | id in c.ids && c.objs[c.ids[id]].XdgSurfaceObj? :: c.ids[id]
  }
}
