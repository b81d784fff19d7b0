/** wayland/wayland.go `handle` and wayland/registry.go `NullObject`: one connection's
    life, from its initial registry through the read-and-dispatch loop to teardown,
    and the workspace all connections share.

    The socket reads are inputs: each turn of the loop is given what `ReadPacket`
    returned, the descriptors that came with it, the outcome of any `mmap` or
    `mremap` the request makes, and the clock a ping reads.  Handlers report their
    effects on the workspace as `Out` values; `Apply` carries them out on the tiling
    tree in the order they happened. */
module Server {
  import opened Wrappers
  import opened Ints
  import opened Wire
  import opened Registry
  import opened Protocol
  import opened XdgGeometry
  import Queue
  import Window
  import Tiling
  import Frame
  import Buffers
  import DataDevices
  import Displays
  import Keyboards
  import Outputs
  import Positioners
  import Regions
  import Seats
  import SubSurfaces
  import Surfaces
  import XdgShell

  /** The read loop pings at most this many times before a stalled read ends it. */
  const MaxRetries := 10

  /** `NullObject.HandleMessage`: every request on id 0 is an error. */
  function HandleNull(c: Conn): (r: Reply)
    ensures r.conn == c && r.out == [] && r.error.Some?
  {
    Reply(c, [], Some(Rejected("handle message called on nil object")))
  }

  /** The registry `handle` starts from: the null object at id 0 and the display, whose
      sync counter starts at 5, at id 1; nothing else. */
  function Initial(index: int): (c: Conn)
    ensures Valid(c) && c.index == index
    ensures Get(c, 0) == Ok(NullObj) && Get(c, DisplayId) == Ok(DisplayObj(5))
    ensures forall k :: k != 0 && k != DisplayId ==> Get(c, k) == Err(UnknownObject)
    ensures Queue.IsEmpty(c.fds) && c.pingTarget.None?
  {
    var (c1, _) := New(NewConn(index), 0, NullObj);
    New(c1, DisplayId, DisplayObj(5)).0
  }

  // ---------------------------------------------------------------------
  // Dispatch

  /** The kinds defined by the core wayland protocol files, as opposed to the seat,
      clipboard, output and xdg-shell ones. */
  predicate CoreKind(o: Obj)
  {
    o.NullObj? || o.DisplayObj? || o.UnboundObj? || o.CompositorObj? || o.RegionObj?
    || o.SurfaceObj? || o.BufferObj? || o.ShmObj? || o.PoolObj? || o.SubCompositorObj?
    || o.SubSurfaceObj?
  }

  /** `HandleMessage` of the core object at `a`. */
  function DispatchCore(c: Conn, a: int, opcode: int, data: seq<int>, mapping: Option<seq<int>>): (r: Reply)
    requires Valid(c) && a in c.objs && CoreKind(c.objs[a]) && AllBytes(data)
    ensures Valid(r.conn)
    ensures c.objs[a].NullObj? ==> r == HandleNull(c)
    ensures c.objs[a].DisplayObj? ==> r == Displays.HandleDisplay(c, a, opcode, data)
    ensures c.objs[a].UnboundObj? ==> r == Displays.HandleUnbound(c, opcode, data)
    ensures c.objs[a].CompositorObj? ==> r == Regions.HandleCompositor(c, opcode, data)
    ensures c.objs[a].RegionObj? ==> r == Regions.HandleRegion(c, a, opcode, data)
    ensures c.objs[a].SurfaceObj? ==> r == Surfaces.HandleSurface(c, a, opcode, data)
    ensures c.objs[a].BufferObj? ==> r == Buffers.HandleBuffer(c, a, opcode)
    ensures c.objs[a].ShmObj? ==> r == Buffers.HandleShm(c, opcode, data, mapping)
    ensures c.objs[a].PoolObj? ==> r == Buffers.HandlePool(c, a, opcode, data, mapping)
    ensures c.objs[a].SubCompositorObj? ==> r == SubSurfaces.HandleSubCompositor(c, opcode, data)
    ensures c.objs[a].SubSurfaceObj? ==> r == SubSurfaces.HandleSubSurface(c, a, opcode, data)
  {
    match c.objs[a]
    case NullObj => HandleNull(c)
    case DisplayObj(_) => Displays.HandleDisplay(c, a, opcode, data)
    case UnboundObj => Displays.HandleUnbound(c, opcode, data)
    case CompositorObj => Regions.HandleCompositor(c, opcode, data)
    case RegionObj(_) => Regions.HandleRegion(c, a, opcode, data)
    case SurfaceObj(_) => Surfaces.HandleSurface(c, a, opcode, data)
    case BufferObj(_) => Buffers.HandleBuffer(c, a, opcode)
    case ShmObj(_) => Buffers.HandleShm(c, opcode, data, mapping)
    case PoolObj(_) => Buffers.HandlePool(c, a, opcode, data, mapping)
    case SubCompositorObj => SubSurfaces.HandleSubCompositor(c, opcode, data)
    case SubSurfaceObj(_) => SubSurfaces.HandleSubSurface(c, a, opcode, data)
  }

  /** `HandleMessage` of the seat, clipboard, output or xdg-shell object at `a`;
      `windows` are the indices the workspace holds. */
  function DispatchShell(c: Conn, a: int, opcode: int, data: seq<int>, windows: set<int>): (r: Reply)
    requires Valid(c) && a in c.objs && !CoreKind(c.objs[a]) && AllBytes(data)
    ensures Valid(r.conn)
    ensures c.objs[a].SeatObj? ==> r == Seats.HandleSeat(c, a, opcode, data)
    ensures c.objs[a].KeyboardObj? ==> r == Keyboards.HandleKeyboard(c, a, opcode)
    ensures c.objs[a].PointerObj? ==> r == Keyboards.HandlePointer(c, a, opcode, data)
    ensures c.objs[a].ManagerObj? ==> r == DataDevices.HandleManager(c, opcode, data)
    ensures c.objs[a].DeviceObj? ==> r == DataDevices.HandleDevice(c, a, opcode, data)
    ensures c.objs[a].SourceObj? ==> r == DataDevices.HandleSource(c, a, opcode, data)
    ensures c.objs[a].OutputObj? ==> r == Outputs.HandleOutput(c, opcode)
    ensures c.objs[a].ViewporterObj? ==> r == Outputs.HandleViewporter(c, opcode)
    ensures c.objs[a].BaseObj? ==> r == XdgShell.HandleBase(c, a, opcode, data)
    ensures c.objs[a].PositionerObj? ==> r == Positioners.HandlePositioner(c, a, opcode, data)
    ensures c.objs[a].XdgSurfaceObj? ==> r == XdgShell.HandleXdgSurface(c, a, opcode, data, windows)
    ensures c.objs[a].ToplevelObj? ==> r == XdgShell.HandleToplevel(c, a, opcode, data)
    ensures c.objs[a].PopupObj? ==> r == XdgShell.HandlePopup(c, a, opcode, data, windows)
  {
    match c.objs[a]
    case SeatObj(_) => Seats.HandleSeat(c, a, opcode, data)
    case KeyboardObj(_) => Keyboards.HandleKeyboard(c, a, opcode)
    case PointerObj(_) => Keyboards.HandlePointer(c, a, opcode, data)
    case ManagerObj(_) => DataDevices.HandleManager(c, opcode, data)
    case DeviceObj(_) => DataDevices.HandleDevice(c, a, opcode, data)
    case SourceObj(_) => DataDevices.HandleSource(c, a, opcode, data)
    case OutputObj(_) => Outputs.HandleOutput(c, opcode)
    case ViewporterObj(_) => Outputs.HandleViewporter(c, opcode)
    case BaseObj(_) => XdgShell.HandleBase(c, a, opcode, data)
    case PositionerObj(_) => Positioners.HandlePositioner(c, a, opcode, data)
    case XdgSurfaceObj(_) => XdgShell.HandleXdgSurface(c, a, opcode, data, windows)
    case ToplevelObj(_) => XdgShell.HandleToplevel(c, a, opcode, data)
    case PopupObj(_) => XdgShell.HandlePopup(c, a, opcode, data, windows)
  }

  /** `obj.HandleMessage(wsc, packet)` for whichever kind of object is at `a`. */
  function Dispatch(c: Conn, a: int, opcode: int, data: seq<int>, mapping: Option<seq<int>>, windows: set<int>): (r: Reply)
    requires Valid(c) && a in c.objs && AllBytes(data)
    ensures Valid(r.conn)
    ensures CoreKind(c.objs[a]) ==> r == DispatchCore(c, a, opcode, data, mapping)
    ensures !CoreKind(c.objs[a]) ==> r == DispatchShell(c, a, opcode, data, windows)
  {
    if CoreKind(c.objs[a]) then DispatchCore(c, a, opcode, data, mapping)
    else DispatchShell(c, a, opcode, data, windows)
  }

  // ---------------------------------------------------------------------
  // The shared workspace

  /** The indices of the windows the workspace holds. */
  function WindowIndices(ws: Tiling.Node): (s: set<int>)
    ensures forall w :: w in Tiling.Windows(ws) ==> w.index in s
    ensures forall i :: i in s ==> Tiling.GetTopLevel(ws, i).Some?
  {
    set w | w in Tiling.Windows(ws) :: w.index
  }

  /** One workspace effect: `AddTopLevel`, `RemoveTopLevel`, or `PushPopup` / `PopPopup`
      on the window `GetTopLevel` finds (none when no window has the index).  Every
      other effect leaves the workspace alone. */
  function Effect(ws: Tiling.Node, o: Out): (r: Tiling.Node)
    ensures Tiling.Layout(r) == Tiling.Layout(ws)
    ensures o.WindowAdded? ==> Tiling.Indices(r) == Tiling.Indices(ws) + multiset{o.window.index}
    ensures o.WindowAdded? ==> Tiling.GetTopLevel(r, o.window.index).Some?
    ensures o.WindowRemoved? ==> forall w :: w in Tiling.Windows(r) <==> w in Tiling.Windows(ws) && w.index != o.index
    ensures o.PopupPushed? && Tiling.GetTopLevel(ws, o.index).Some? ==>
      Tiling.GetTopLevel(r, o.index) == Some(Window.PushPopup(Tiling.GetTopLevel(ws, o.index).value, o.popup))
    ensures o.PopupPopped? && Tiling.GetTopLevel(ws, o.index).Some? ==>
      Tiling.GetTopLevel(r, o.index) == Some(Window.PopPopup(Tiling.GetTopLevel(ws, o.index).value).1)
    ensures (o.PopupPushed? || o.PopupPopped?) && Tiling.GetTopLevel(ws, o.index).None? ==> r == ws
    ensures !(o.WindowAdded? || o.WindowRemoved? || o.PopupPushed? || o.PopupPopped?) ==> r == ws
  {
    match o
    case WindowAdded(w) =>
      var r := Tiling.AddTopLevel(ws, w);
      assert w in Tiling.Windows(r);
      r
    case WindowRemoved(i) => Tiling.Remove(ws, Tiling.ByIndex(i))
    case PopupPushed(i, p) =>
      (match Tiling.GetTopLevel(ws, i)
       case None => ws
       case Some(w) =>
         Tiling.ReplaceFirstFound(Tiling.Windows(ws), i, Window.PushPopup(w, p));
         Tiling.ReplaceTopLevel(ws, i, Window.PushPopup(w, p)))
    case PopupPopped(i) =>
      (match Tiling.GetTopLevel(ws, i)
       case None => ws
       case Some(w) =>
         Tiling.ReplaceFirstFound(Tiling.Windows(ws), i, Window.PopPopup(w).1);
         Tiling.ReplaceTopLevel(ws, i, Window.PopPopup(w).1))
    case _ => ws
  }

  /** Whether an effect is on the workspace rather than on the socket or a buffer. */
  predicate OnWorkspace(o: Out)
  {
    o.WindowAdded? || o.WindowRemoved? || o.PopupPushed? || o.PopupPopped?
  }

  /** The effects of one request, carried out on the workspace in order. */
  function Apply(ws: Tiling.Node, out: seq<Out>): (r: Tiling.Node)
    ensures Tiling.Layout(r) == Tiling.Layout(ws)
    ensures (forall i :: 0 <= i < |out| ==> !OnWorkspace(out[i])) ==> r == ws
    decreases |out|
  {
    if |out| == 0 then ws else Apply(Effect(ws, out[0]), out[1..])
  }

  /** Effects carried out in two batches land where they would in one. */
  lemma {:induction false} ApplyAppend(ws: Tiling.Node, a: seq<Out>, b: seq<Out>)
    ensures Apply(ws, a + b) == Apply(Apply(ws, a), b)
    decreases |a|
  {
    if |a| > 0 {
      assert (a + b)[0] == a[0] && (a + b)[1..] == a[1..] + b;
      ApplyAppend(Effect(ws, a[0]), a[1..], b);
    } else {
      assert a + b == b;
    }
  }

  // ---------------------------------------------------------------------
  // The window counter

  /** What every connection shares: the workspace and the window counter. */
  datatype Shared = Shared(ws: Tiling.Node, counter: int)

  /** One request as written: get_toplevel numbers windows from the connection's own
      registry counter, so each connection counts from 1. */
  function ExchangeAsWritten(s: Shared, c: Conn, a: int, opcode: int, data: seq<int>, mapping: Option<seq<int>>): (r: (Shared, Reply))
    requires Valid(c) && a in c.objs && AllBytes(data)
    ensures Valid(r.1.conn) && r.0.counter == s.counter
    ensures r.1 == Dispatch(c, a, opcode, data, mapping, WindowIndices(s.ws))
    ensures r.0.ws == Apply(s.ws, r.1.out)
  {
    var rep := Dispatch(c, a, opcode, data, mapping, WindowIndices(s.ws));
    (Shared(Apply(s.ws, rep.out), s.counter), rep)
  }

  /** One request with the counter the server holds for every connection
      (`WaylandServer.globalIdx`): the connection sees the shared value and what
      get_toplevel leaves in it is shared again. */
  function Exchange(s: Shared, c: Conn, a: int, opcode: int, data: seq<int>, mapping: Option<seq<int>>): (r: (Shared, Reply))
    requires Valid(c) && a in c.objs && AllBytes(data)
    ensures Valid(r.1.conn) && r.0.counter == r.1.conn.globalIdx
    ensures r.1 == Dispatch(c.(globalIdx := s.counter), a, opcode, data, mapping, WindowIndices(s.ws))
    ensures r.0.ws == Apply(s.ws, r.1.out)
  {
    var rep := Dispatch(c.(globalIdx := s.counter), a, opcode, data, mapping, WindowIndices(s.ws));
    (Shared(Apply(s.ws, rep.out), rep.conn.globalIdx), rep)
  }

  /** get_toplevel (xdg_surface opcode 1) at `xa` reports the new window first, numbered
      one past the connection's counter, and leaves that number in the counter. */
  lemma GetToplevelNumbers(c: Conn, xa: int, id: int, windows: set<int>)
    requires Valid(c) && IsXdg(c, xa) && IsU32(id)
    ensures AllBytes(LE32(id))
    ensures var r := Dispatch(c, xa, 1, LE32(id), None, windows);
      |r.out| >= 1 && r.out[0] == WindowAdded(Window.NewWaylandClient(XdgShell.NextIndex(c), c.index, xa))
      && r.conn.globalIdx == XdgShell.NextIndex(c)
  {
    OneWord(id);
  }

  /** As written, two connections whose counters agree (two fresh connections, say)
      number their first windows alike: both get index 1. */
  lemma PerConnectionIndicesCollide(s: Shared, c1: Conn, x1: int, id1: int, c2: Conn, x2: int, id2: int)
    requires Valid(c1) && IsXdg(c1, x1) && IsU32(id1) && c1.globalIdx == 0
    requires Valid(c2) && IsXdg(c2, x2) && IsU32(id2) && c2.globalIdx == 0
    requires c1.index != c2.index
    ensures AllBytes(LE32(id1)) && AllBytes(LE32(id2))
    ensures var e1 := ExchangeAsWritten(s, c1, x1, 1, LE32(id1), None);
      var e2 := ExchangeAsWritten(e1.0, c2, x2, 1, LE32(id2), None);
      |e1.1.out| >= 1 && |e2.1.out| >= 1 && e1.1.out[0].WindowAdded? && e2.1.out[0].WindowAdded?
      && e1.1.out[0].window.index == e2.1.out[0].window.index == 1
      && e1.1.out[0].window != e2.1.out[0].window
  {
    GetToplevelNumbers(c1, x1, id1, WindowIndices(s.ws));
    var e1 := ExchangeAsWritten(s, c1, x1, 1, LE32(id1), None);
    GetToplevelNumbers(c2, x2, id2, WindowIndices(e1.0.ws));
  }

  /** Two windows under one index are removed together: the xdg_surface destroy of one
      connection's window also removes the other connection's. */
  lemma RemovingSharedIndexTakesBoth(ws: Tiling.Node, w1: Window.Window, w2: Window.Window)
    requires w1.index == w2.index
    ensures var both := Effect(Effect(ws, WindowAdded(w1)), WindowAdded(w2));
      w1 in Tiling.Windows(both) && w2 in Tiling.Windows(both)
      && w2 !in Tiling.Windows(Effect(both, WindowRemoved(w1.index)))
  {
    var one := AddedWindows(ws, w1);
    var both := AddedWindows(one, w2);
    assert w1 in Tiling.Windows(both);
  }

  /** Adding a window keeps every window the workspace held and adds that one only. */
  lemma AddedWindows(ws: Tiling.Node, w: Window.Window) returns (r: Tiling.Node)
    ensures r == Effect(ws, WindowAdded(w))
    ensures forall x :: x in Tiling.Windows(r) <==> x in Tiling.Windows(ws) || x == w
  {
    r := Effect(ws, WindowAdded(w));
    var a := Tiling.Windows(ws);
    var k := Tiling.FocusOffset(ws);
    assert Tiling.Windows(Effect(ws, WindowAdded(w))) == a[..k] + [w] + a[k..];
    assert a == a[..k] + a[k..];
  }

  /** With the shared counter two get_toplevel requests, from any two connections,
      number their windows apart. */
  lemma SharedIndicesDiffer(s: Shared, c1: Conn, x1: int, id1: int, c2: Conn, x2: int, id2: int)
    requires Valid(c1) && IsXdg(c1, x1) && IsU32(id1)
    requires Valid(c2) && IsXdg(c2, x2) && IsU32(id2)
    requires 0 <= s.counter < U32 - 2
    ensures AllBytes(LE32(id1)) && AllBytes(LE32(id2))
    ensures var e1 := Exchange(s, c1, x1, 1, LE32(id1), None);
      var e2 := Exchange(e1.0, c2, x2, 1, LE32(id2), None);
      |e1.1.out| >= 1 && |e2.1.out| >= 1 && e1.1.out[0].WindowAdded? && e2.1.out[0].WindowAdded?
      && e1.1.out[0].window.index == s.counter + 1
      && e2.1.out[0].window.index == s.counter + 2
  {
    GetToplevelNumbers(c1.(globalIdx := s.counter), x1, id1, WindowIndices(s.ws));
    var e1 := Exchange(s, c1, x1, 1, LE32(id1), None);
    GetToplevelNumbers(c2.(globalIdx := e1.0.counter), x2, id2, WindowIndices(e1.0.ws));
  }

  // ---------------------------------------------------------------------
  // The read loop

  /** What one turn of the loop is given: the outcome of `ReadPacket`, the descriptors
      received with it, the outcome of any `mmap` / `mremap` the request makes, and
      the clock in milliseconds. */
  datatype Input = Input(read: Frame.Framed, fds: seq<int>, mapping: Option<seq<int>>, now: int)

  /** A packet body is bytes. */
  predicate Bytes(inp: Input)
  {
    inp.read.Packet? ==> AllBytes(inp.read.msg.data)
  }

  /** The loop's state: the connection's number (`wsc.id`, the parent of its windows),
      the connection, what it shares, the stalled reads pinged so far (`wsc.errors`),
      every effect in order, and why the loop ended, once it has. */
  datatype Session = Session(id: int, conn: Conn, shared: Shared, errors: int, out: seq<Out>, ending: Option<Error>)

  predicate Running(s: Session)
  {
    s.ending.None? && Valid(s.conn)
  }

  /** A read error that only says the socket had nothing yet. */
  predicate Stalled(read: Frame.Framed)
  {
    read == Frame.Failed(ReadFailed(true))
  }

  /** A stalled read is retried, after pinging the xdg_wm_base, while fewer than ten
      have been and a ping target exists; a target that is not an xdg_wm_base is a nil
      dereference. */
  function Retry(s: Session, c: Conn, now: int): (r: Session)
    requires Running(s) && Valid(c) && c.pingTarget == s.conn.pingTarget
    requires s.errors < MaxRetries && s.conn.pingTarget.Some?
    ensures XdgShell.IsBaseAt(c, c.pingTarget.value) ==>
      r == s.(conn := c, errors := s.errors + 1, out := s.out + [XdgShell.Ping(c, c.pingTarget.value, now)])
    ensures !XdgShell.IsBaseAt(c, c.pingTarget.value) ==> r == s.(conn := c, ending := Some(Fault))
  {
    var pt := c.pingTarget.value;
    if XdgShell.IsBaseAt(c, pt) then
      s.(conn := c, errors := s.errors + 1, out := s.out + [XdgShell.Ping(c, pt, now)])
    else s.(conn := c, ending := Some(Fault))
  }

  /** A packet: an id the registry does not hold ends the loop; otherwise the object
      handles it, and a handler error ends the loop with its effects kept. */
  function Deliver(s: Session, c: Conn, m: Frame.WaylandMessage, mapping: Option<seq<int>>): (r: Session)
    requires Running(s) && Valid(c) && AllBytes(m.data)
    ensures Valid(r.conn) && r.id == s.id && r.errors == s.errors
    ensures |r.out| >= |s.out| && r.out[..|s.out|] == s.out
    ensures m.address !in c.ids ==> r == s.(conn := c, ending := Some(UnknownObject))
    ensures m.address in c.ids ==>
      var e := Exchange(s.shared, c, c.ids[m.address], m.opcode, m.data, mapping);
      r == s.(conn := e.1.conn, shared := e.0, out := s.out + e.1.out, ending := e.1.error)
  {
    match Get(c, m.address)
    case Err(e) => s.(conn := c, ending := Some(e))
    case Ok(_) =>
      var e := Exchange(s.shared, c, c.ids[m.address], m.opcode, m.data, mapping);
      s.(conn := e.1.conn, shared := e.0, out := s.out + e.1.out, ending := e.1.error)
  }

  /** A failed read: a stalled one is retried while `Retry` allows, any other ends the loop. */
  function ReadError(s: Session, c: Conn, e: Error, now: int): (r: Session)
    requires Running(s) && Valid(c) && c.pingTarget == s.conn.pingTarget
    ensures Valid(r.conn) && r.id == s.id && r.shared == s.shared
    ensures r.ending.None? <==> e == ReadFailed(true) && s.errors < MaxRetries && s.conn.pingTarget.Some?
                                && XdgShell.IsBaseAt(c, s.conn.pingTarget.value)
    ensures r.ending.None? ==> r.errors == s.errors + 1 && |r.out| == |s.out| + 1 && r.out[..|s.out|] == s.out
    ensures r.ending.Some? ==> r.errors == s.errors && r.out == s.out
    ensures e != ReadFailed(true) ==> r.ending == Some(e)
  {
    if e == ReadFailed(true) && s.errors < MaxRetries && c.pingTarget.Some? then
      var r := Retry(s, c, now);
      assert r.ending.None? ==> r.out[..|s.out|] == s.out;
      r
    else s.(conn := c, ending := Some(e))
  }

  /** One turn of the `for` loop in `handle`.  Descriptors received with a read join
      the queue first; a read that asked to start over is simply read again. */
  function Turn(s: Session, inp: Input): (r: Session)
    requires Running(s) && Bytes(inp)
    ensures Valid(r.conn) && r.id == s.id
    ensures |r.out| >= |s.out| && r.out[..|s.out|] == s.out
    ensures inp.read.Retry? ==> r.ending.None? && r.out == s.out && r.errors == s.errors && r.shared == s.shared
    ensures inp.read.Failed? ==> r == ReadError(s, s.conn.(fds := Queue.PushAll(s.conn.fds, inp.fds)), inp.read.error, inp.now)
    ensures inp.read.Packet? ==> r == Deliver(s, s.conn.(fds := Queue.PushAll(s.conn.fds, inp.fds)), inp.read.msg, inp.mapping)
    ensures r.errors == s.errors || (r.errors == s.errors + 1 <= MaxRetries && inp.read.Failed?)
  {
    var c := s.conn.(fds := Queue.PushAll(s.conn.fds, inp.fds));
    match inp.read
    case Retry => s.(conn := c)
    case Failed(e) => ReadError(s, c, e, inp.now)
    case Packet(m) => Deliver(s, c, m, inp.mapping)
  }

  /** The loop over a prefix of the reads: it stops at the first turn that ends it. */
  function Serve(s: Session, ins: seq<Input>): (r: Session)
    requires Valid(s.conn) && forall i :: 0 <= i < |ins| ==> Bytes(ins[i])
    ensures Valid(r.conn) && r.id == s.id
    ensures |r.out| >= |s.out| && r.out[..|s.out|] == s.out
    ensures s.ending.Some? ==> r == s
    ensures s.errors <= r.errors && (s.errors <= MaxRetries ==> r.errors <= MaxRetries)
    decreases |ins|
  {
    if s.ending.Some? || |ins| == 0 then s
    else
      var t := Turn(s, ins[0]);
      var r := Serve(t, ins[1..]);
      assert r.out[..|s.out|] == s.out by {
        assert r.out[..|t.out|][..|s.out|] == s.out;
      }
      r
  }

  /** Requests are handled one at a time, in the order they arrive: serving two
      stretches of input one after the other is serving them joined. */
  lemma {:induction false} ServeInOrder(s: Session, a: seq<Input>, b: seq<Input>)
    requires Valid(s.conn) && (forall i :: 0 <= i < |a| ==> Bytes(a[i])) && (forall i :: 0 <= i < |b| ==> Bytes(b[i]))
    ensures forall i :: 0 <= i < |a + b| ==> Bytes((a + b)[i])
    ensures Serve(s, a + b) == Serve(Serve(s, a), b)
    decreases |a|
  {
    assert forall i :: 0 <= i < |a + b| ==> Bytes((a + b)[i]) by {
      forall i | 0 <= i < |a + b| ensures Bytes((a + b)[i]) {
        if i < |a| { assert (a + b)[i] == a[i]; } else { assert (a + b)[i] == b[i - |a|]; }
      }
    }
    if s.ending.None? && |a| > 0 {
      assert (a + b)[0] == a[0] && (a + b)[1..] == a[1..] + b;
      ServeInOrder(Turn(s, a[0]), a[1..], b);
    } else if |a| == 0 {
      assert a + b == b;
    }
  }

  // ---------------------------------------------------------------------
  // Teardown

  /** One `Closed` per descriptor, in queue order. */
  function CloseAll(fds: seq<int>): (out: seq<Out>)
    ensures |out| == |fds| && forall i :: 0 <= i < |fds| ==> out[i] == Closed(fds[i])
  {
    if |fds| == 0 then [] else [Closed(fds[0])] + CloseAll(fds[1..])
  }

  /** The deferred teardown: the workspace drops every window of this connection, the
      registry is emptied and every descriptor still queued is closed. */
  function Teardown(s: Session): (r: Session)
    ensures forall w :: w in Tiling.Windows(r.shared.ws) <==> w in Tiling.Windows(s.shared.ws) && w.parent != s.id
    ensures Tiling.Layout(r.shared.ws) == Tiling.Layout(s.shared.ws) && r.shared.counter == s.shared.counter
    ensures r.out == s.out + CloseAll(s.conn.fds.elements)
    ensures r.conn.ids == map[] && Queue.IsEmpty(r.conn.fds)
  {
    Tiling.RemoveAllWithParentKeepsOthers(s.shared.ws, s.id);
    s.(shared := s.shared.(ws := Tiling.Remove(s.shared.ws, Tiling.ByParent(s.id))),
       conn := s.conn.(ids := map[], fds := Queue.New()),
       out := s.out + CloseAll(s.conn.fds.elements))
  }

  /** `handle` for the connection numbered `index` over the reads it gets: once the
      loop has ended, the teardown runs. */
  function Handle(sh: Shared, index: int, ins: seq<Input>): (r: Session)
    requires forall i :: 0 <= i < |ins| ==> Bytes(ins[i])
    ensures r.errors <= MaxRetries
    ensures r.ending.Some? ==> forall w :: w in Tiling.Windows(r.shared.ws) ==> w.parent != index
    ensures r.ending.Some? ==> r.conn.ids == map[] && Queue.IsEmpty(r.conn.fds)
  {
    var s := Serve(Session(index, Initial(index), sh, 0, [], None), ins);
    if s.ending.Some? then Teardown(s) else s
  }
}
