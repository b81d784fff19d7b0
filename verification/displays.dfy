/** wayland/display.go and wayland/unbound.go: the wl_display at id 1 and the
    wl_registry it hands out, through which a client binds the globals. */
module Displays {
  import opened Wrappers
  import opened Ints
  import opened Wire
  import opened Registry
  import opened Protocol
  import Pixels
  import Outputs
  import Seats

  // ---------------------------------------------------------------------
  // wl_display

  /** sync (0): the callback is told `done` with the display's running counter, its
      id is released through delete_id, and the counter moves on by one. */
  function Sync(c: Conn, a: int, data: seq<int>): (r: Reply)
    requires Valid(c) && a in c.objs && c.objs[a].DisplayObj? && AllBytes(data)
    ensures Valid(r.conn)
    ensures r.error.None? <==> ParseAll(data, [UintK]).Ok?
    ensures r.error.Some? ==> r.conn == c && r.out == []
    ensures var p := ParseAll(data, [UintK]); var n := c.objs[a].lastSync;
      p.Ok? ==>
        r.out == [Msg(p.value[0].u, 0, [UintF(Wrap32(n))]), DeleteId(p.value[0].u)]
        && r.conn.ids == c.ids && a in r.conn.objs && r.conn.objs[a] == DisplayObj(n + 1)
        && forall b :: b in c.objs && b != a ==> b in r.conn.objs && r.conn.objs[b] == c.objs[b]
  {
    match ParseAll(data, [UintK])
    case Err(e) => Short(c, e)
    case Ok(vs) =>
      var cb := vs[0].u;
      var n := c.objs[a].lastSync;
      Reply(Store(c, a, DisplayObj(n + 1)), [Msg(cb, 0, [UintF(Wrap32(n))]), DeleteId(cb)], None)
  }

  /** Two syncs in a row are answered with consecutive counter values, each followed by
      the release of its own callback id. */
  lemma {:induction false} SuccessiveSyncs(c: Conn, a: int, cb1: int, cb2: int)
    requires Valid(c) && a in c.objs && c.objs[a].DisplayObj? && IsU32(cb1) && IsU32(cb2)
    ensures AllBytes(LE32(cb1)) && AllBytes(LE32(cb2))
    ensures var n := c.objs[a].lastSync;
      var r1 := Sync(c, a, LE32(cb1));
      r1.conn.objs[a].DisplayObj? &&
      var r2 := Sync(r1.conn, a, LE32(cb2));
      r1.out + r2.out == [Msg(cb1, 0, [UintF(Wrap32(n))]), DeleteId(cb1),
                          Msg(cb2, 0, [UintF(Wrap32(n + 1))]), DeleteId(cb2)]
  {
    OneWord(cb1);
    OneWord(cb2);
  }

  /** The interfaces advertised by get_registry, with global names 1 to 7 in this
      order, and the version advertised for each. */
  const Interfaces: seq<string> :=
    ["wl_compositor", "wl_subcompositor", "wl_seat", "wl_shm", "xdg_wm_base",
     "wl_data_device_manager", "wl_output"]
  const Versions: seq<int> := [5, 1, 7, 2, 2, 3, 1]

  /** The seven wl_registry.global events sent on the registry `id`. */
  function Globals(id: int): (out: seq<Out>)
    ensures |out| == |Interfaces| == 7
    ensures forall i :: 0 <= i < 7 ==>
      out[i] == Msg(id, 0, [UintF(i + 1), StringF(Ascii(Interfaces[i])), UintF(Versions[i])])
  {
    seq(7, i requires 0 <= i < 7 => Msg(id, 0, [UintF(i + 1), StringF(Ascii(Interfaces[i])), UintF(Versions[i])]))
  }

  /** get_registry (1): the new id is read straight from the first four bytes, with no
      length check, so a shorter body is a runtime panic.  The registry object is
      registered before the globals are announced. */
  function GetRegistry(c: Conn, data: seq<int>): (r: Reply)
    requires Valid(c) && AllBytes(data)
    ensures Valid(r.conn)
    ensures |data| < 4 ==> r == Reply(c, [], Some(Fault))
    ensures |data| >= 4 ==>
      var id := U32Of(data[..4]);
      r.error.None? && Get(r.conn, id) == Ok(UnboundObj) && r.out == Globals(id)
      && forall k :: k != id ==> Get(r.conn, k) == Get(c, k)
  {
    if |data| < 4 then Reply(c, [], Some(Fault))
    else
      var id := U32Of(data[..4]);
      Reply(New(c, id, UnboundObj).0, Globals(id), None)
  }

  /** `Display.HandleMessage` for the display at `a`. */
  function HandleDisplay(c: Conn, a: int, opcode: int, data: seq<int>): (r: Reply)
    requires Valid(c) && a in c.objs && c.objs[a].DisplayObj? && AllBytes(data)
    ensures Valid(r.conn)
    ensures opcode == 0 ==> r == Sync(c, a, data)
    ensures opcode == 1 ==> r == GetRegistry(c, data)
    ensures opcode !in {0, 1} ==> r == Unknown(c, opcode)
  {
    if opcode == 0 then Sync(c, a, data)
    else if opcode == 1 then GetRegistry(c, data)
    else Unknown(c, opcode)
  }

  // ---------------------------------------------------------------------
  // wl_registry

  /** The body of bind: global name, interface name, version, new id. */
  const BindKinds: seq<Kind> := [UintK, StringK, UintK, UintK]

  /** Every interface name bind accepts: the seven advertised ones and wp_viewporter. */
  predicate Bindable(name: seq<int>)
  {
    name == Ascii("wl_compositor") || name == Ascii("wl_subcompositor") || name == Ascii("wl_shm")
    || name == Ascii("xdg_wm_base") || name == Ascii("wl_seat") || name == Ascii("wl_output")
    || name == Ascii("wl_data_device_manager") || name == Ascii("wp_viewporter")
  }

  /** The object kinds bind can create. */
  datatype Binding = CompositorB | SubCompositorB | ShmB | BaseB | SeatB | OutputB | ManagerB | ViewporterB

  /** The interface names bind recognises, in the order the switch tries them. */
  function BindingOf(name: seq<int>): (r: Option<Binding>)
    ensures r.None? <==> !Bindable(name)
    ensures name == Ascii("wl_compositor") ==> r == Some(CompositorB)
    ensures name == Ascii("wl_subcompositor") ==> r == Some(SubCompositorB)
    ensures name == Ascii("wl_shm") ==> r == Some(ShmB)
    ensures name == Ascii("xdg_wm_base") ==> r == Some(BaseB)
    ensures name == Ascii("wl_seat") ==> r == Some(SeatB)
    ensures name == Ascii("wl_output") ==> r == Some(OutputB)
    ensures name == Ascii("wl_data_device_manager") ==> r == Some(ManagerB)
    ensures name == Ascii("wp_viewporter") ==> r == Some(ViewporterB)
  {
    assert Ascii("wp_viewporter")[1] != Ascii("wl_compositor")[1];
    if name == Ascii("wl_compositor") then Some(CompositorB)
    else if name == Ascii("wl_subcompositor") then Some(SubCompositorB)
    else if name == Ascii("wl_shm") then Some(ShmB)
    else if name == Ascii("xdg_wm_base") then Some(BaseB)
    else if name == Ascii("wl_seat") then Some(SeatB)
    else if name == Ascii("wl_output") then Some(OutputB)
    else if name == Ascii("wl_data_device_manager") then Some(ManagerB)
    else if name == Ascii("wp_viewporter") then Some(ViewporterB)
    else None
  }

  /** Binding a recognised kind under `id`.  wl_seat reuses a seat the connection
      already has, renaming it and mapping the new id to it; wl_output registers the
      same object twice under the same id, which leaves one entry. */
  function Bind(c: Conn, b: Binding, id: int): (r: (Conn, seq<Out>))
    requires Valid(c) && IsU32(id)
    ensures Valid(r.0) && id in r.0.ids
    ensures b == CompositorB ==> Get(r.0, id) == Ok(CompositorObj) && r.1 == []
    ensures b == SubCompositorB ==> Get(r.0, id) == Ok(SubCompositorObj) && r.1 == []
    ensures b == ShmB ==>
      Get(r.0, id) == Ok(ShmObj(id))
      && r.1 == [Msg(id, 0, [UintF(Pixels.FormatARGB)]), Msg(id, 0, [UintF(Pixels.FormatXRGB)])]
    ensures b == BaseB ==> Get(r.0, id) == Ok(BaseObj(id)) && r.0.pingTarget == Some(r.0.ids[id]) && r.1 == []
    ensures b == SeatB ==>
      Get(r.0, id).Ok? && Get(r.0, id).value.SeatObj? && Get(r.0, id).value.seat.id == id
    ensures b == SeatB && FindSeat(c).Some? ==>
      r.0.ids[id] == FindSeat(c).value && r.1 == []
      && r.0.objs[r.0.ids[id]] == SeatObj(c.objs[FindSeat(c).value].seat.(id := id))
    ensures b == SeatB && FindSeat(c).None? ==> r.1 == Seats.NewSeat(id).1
    ensures b == OutputB ==> Get(r.0, id) == Ok(OutputObj(id)) && r.1 == Outputs.Announcement(id)
    ensures b == ManagerB ==> Get(r.0, id) == Ok(ManagerObj(id)) && r.1 == []
    ensures b == ViewporterB ==> Get(r.0, id) == Ok(ViewporterObj(id)) && r.1 == []
    ensures b != BaseB ==> r.0.pingTarget == c.pingTarget
    ensures forall k :: k != id && k in c.ids && !c.objs[c.ids[k]].SeatObj? ==> Get(r.0, k) == Get(c, k)
  {
    match b
    case CompositorB => (New(c, id, CompositorObj).0, [])
    case SubCompositorB => (New(c, id, SubCompositorObj).0, [])
    case ShmB => (New(c, id, ShmObj(id)).0, [Msg(id, 0, [UintF(Pixels.FormatARGB)]), Msg(id, 0, [UintF(Pixels.FormatXRGB)])])
    case BaseB =>
      var (c1, a) := New(c, id, BaseObj(id));
      (c1.(pingTarget := Some(a)), [])
    case SeatB =>
      (match FindSeat(c)
       case Some(sa) =>
         var s := c.objs[sa].seat;
         (Alias(Store(c, sa, SeatObj(s.(id := id))), id, sa), [])
       case None =>
         var (s, out) := Seats.NewSeat(id);
         (New(c, id, SeatObj(s)).0, out))
    case OutputB => Outputs.NewOutput(c, id)
    case ManagerB => (New(c, id, ManagerObj(id)).0, [])
    case ViewporterB => (New(c, id, ViewporterObj(id)).0, [])
  }

  /** The switch on the interface name: an unknown name is an error that registers
      nothing and sends nothing. */
  function BindName(c: Conn, name: seq<int>, id: int): (r: Reply)
    requires Valid(c) && IsU32(id)
    ensures Valid(r.conn)
    ensures r.error.None? <==> Bindable(name)
    ensures !Bindable(name) ==> r == Reply(c, [], Some(BindFailed(name)))
    ensures Bindable(name) ==> (r.conn, r.out) == Bind(c, BindingOf(name).value, id)
  {
    match BindingOf(name)
    case None => Reply(c, [], Some(BindFailed(name)))
    case Some(b) =>
      var (d, out) := Bind(c, b, id);
      Reply(d, out, None)
  }

  /** `UnboundObject.HandleMessage`: bind (0) parses its body and binds by interface
      name; a short body is an error that binds nothing. */
  function HandleUnbound(c: Conn, opcode: int, data: seq<int>): (r: Reply)
    requires Valid(c) && AllBytes(data)
    ensures Valid(r.conn)
    ensures opcode != 0 ==> r == Unknown(c, opcode)
    ensures var p := ParseAll(data, BindKinds);
      opcode == 0 && p.Err? ==> r == Reply(c, [], Some(p.error))
    ensures var p := ParseAll(data, BindKinds);
      opcode == 0 && p.Ok? ==> r == BindName(c, p.value[1].s, p.value[3].u)
  {
    if opcode != 0 then Unknown(c, opcode)
    else
      match ParseAll(data, BindKinds)
      case Err(e) => Short(c, e)
      case Ok(vs) => BindName(c, vs[1].s, vs[3].u)
  }

  // ---------------------------------------------------------------------
  // Properties

  /** The body a client sends to bind `iface` under `id`. */
  function BindRequest(name: int, iface: seq<int>, version: int, id: int): (b: seq<int>)
    requires IsU32(name) && IsU32(version) && IsU32(id) && AllBytes(iface)
    ensures AllBytes(b)
  {
    assert AllWellFormed([UintF(name), StringF(iface), UintF(version), UintF(id)]);
    EncodeAll([UintF(name), StringF(iface), UintF(version), UintF(id)])
  }

  /** Unfolding helper for `BindRequestParses`: the kinds of a four-field list, one by one. */
  lemma FourKinds(fs: seq<Field>)
    requires |fs| == 4
    ensures KindsOf(fs) == [KindOf(fs[0]), KindOf(fs[1]), KindOf(fs[2]), KindOf(fs[3])]
  {
    assert KindsOf(fs[3..]) == [KindOf(fs[3])] + KindsOf(fs[4..]);
    assert KindsOf(fs[2..]) == [KindOf(fs[2])] + KindsOf(fs[3..]);
    assert KindsOf(fs[1..]) == [KindOf(fs[1])] + KindsOf(fs[2..]);
  }

  /** Unfolding helper for `BindRequestParses`: the decoded values of a four-field list. */
  lemma FourDecoded(fs: seq<Field>)
    requires |fs| == 4
    ensures DecodedAll(fs) == [Decoded(fs[0]), Decoded(fs[1]), Decoded(fs[2]), Decoded(fs[3])]
  {
    assert DecodedAll(fs[3..]) == [Decoded(fs[3])] + DecodedAll(fs[4..]);
    assert DecodedAll(fs[2..]) == [Decoded(fs[2])] + DecodedAll(fs[3..]);
    assert DecodedAll(fs[1..]) == [Decoded(fs[1])] + DecodedAll(fs[2..]);
  }

  /** A bind body parses back to its four fields, the interface name stripped of NULs. */
  lemma BindRequestParses(name: int, iface: seq<int>, version: int, id: int)
    requires IsU32(name) && IsU32(version) && IsU32(id) && AllBytes(iface) && |iface| + 8 < U32
    ensures ParseAll(BindRequest(name, iface, version, id), BindKinds)
      == Ok([UintV(name), StringV(TrimNul(iface)), UintV(version), UintV(id)])
  {
    var fs := BindFields(name, iface, version, id);
    WholeBody(fs);
  }

  /** The four fields of a bind request: each parseable, read back as uint, string,
      uint, uint. */
  lemma BindFields(name: int, iface: seq<int>, version: int, id: int) returns (fs: seq<Field>)
    requires IsU32(name) && IsU32(version) && IsU32(id) && AllBytes(iface) && |iface| + 8 < U32
    ensures fs == [UintF(name), StringF(iface), UintF(version), UintF(id)]
    ensures forall i :: 0 <= i < |fs| ==> Parseable(fs[i])
    ensures EncodeAll(fs) == BindRequest(name, iface, version, id)
    ensures KindsOf(fs) == BindKinds
    ensures DecodedAll(fs) == [UintV(name), StringV(TrimNul(iface)), UintV(version), UintV(id)]
  {
    fs := [UintF(name), StringF(iface), UintF(version), UintF(id)];
    FourKinds(fs);
    FourDecoded(fs);
  }

  lemma WholeBody(fs: seq<Field>)
    requires forall i :: 0 <= i < |fs| ==> Parseable(fs[i])
    ensures AllWellFormed(fs) && ParseAll(EncodeAll(fs), KindsOf(fs)) == Ok(DecodedAll(fs))
  {
    ParseRoundTrip(fs, []);
    assert EncodeAll(fs) + [] == EncodeAll(fs);
  }

  /** An interface name whose first and last bytes are not NUL survives the parse. */
  lemma NoOuterNul(s: string)
    requires |s| > 0 && s[0] != 0 as char && s[|s| - 1] != 0 as char
    requires s[0] as int < 256 && s[|s| - 1] as int < 256
    ensures TrimNul(Ascii(s)) == Ascii(s)
  {
    var b := Ascii(s);
    assert b[0] == s[0] as int && b[|b| - 1] == s[|s| - 1] as int;
  }

  /** Every global get_registry advertises can be bound, under the name and version it
      is advertised with, whatever the connection already holds. */
  lemma AdvertisedGlobalsBind(c: Conn, i: int, id: int)
    requires Valid(c) && 0 <= i < 7 && IsU32(id)
    ensures var g := Globals(1)[i].msg.fields;
      AllBytes(g[1].s) && Bindable(g[1].s)
      && var r := HandleUnbound(c, 0, BindRequest(g[0].u, g[1].s, g[2].u, id));
      r.error.None? && id in r.conn.ids
  {
    var s := Interfaces[i];
    var g := Globals(1)[i].msg.fields;
    assert g == [UintF(i + 1), StringF(Ascii(s)), UintF(Versions[i])];
    AdvertisedNameBindable(i);
    BindRequestParses(i + 1, Ascii(s), Versions[i], id);
  }

  lemma AdvertisedNameBindable(i: int)
    requires 0 <= i < 7
    ensures IsU32(Versions[i]) && |Interfaces[i]| < 100
    ensures TrimNul(Ascii(Interfaces[i])) == Ascii(Interfaces[i]) && Bindable(Ascii(Interfaces[i]))
  {
    NoOuterNul(Interfaces[i]);
  }

  /** Binding wl_seat twice on a connection without a seat gives one seat under both
      ids, renamed to the second id; the capabilities are announced only once. */
  lemma SeatRebindSharesSeat(c: Conn, id1: int, id2: int)
    requires Valid(c) && IsU32(id1) && IsU32(id2) && id1 != id2
    requires forall k :: k in c.ids ==> !c.objs[c.ids[k]].SeatObj?
    ensures var r1 := BindName(c, Ascii("wl_seat"), id1);
      var r2 := BindName(r1.conn, Ascii("wl_seat"), id2);
      id1 in r2.conn.ids && id2 in r2.conn.ids
      && r2.conn.ids[id1] == r2.conn.ids[id2]
      && r2.conn.objs[r2.conn.ids[id1]].SeatObj? && r2.conn.objs[r2.conn.ids[id1]].seat.id == id2
      && |r1.out| == 2 && r2.out == []
  {
    assert BindingOf(Ascii("wl_seat")) == Some(SeatB);
    var r1 := BindName(c, Ascii("wl_seat"), id1);
    assert FindSeat(c).None?;
    var sa := r1.conn.ids[id1];
    assert r1.conn.objs[sa].SeatObj?;
    assert FindSeat(r1.conn).Some?;
    var found := FindSeat(r1.conn).value;
    forall k | k in r1.conn.ids && r1.conn.objs[r1.conn.ids[k]].SeatObj?
      ensures r1.conn.ids[k] == sa
    {
      if k != id1 {
        assert false;   // `c` holds no seat, and bind changed no other id
      }
    }
    assert found == sa;
  }
}
