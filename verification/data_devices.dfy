/** wayland/data_device_manager.go, wayland/data_device.go and wayland/data_source.go:
    the clipboard objects.  Nothing is ever transferred; the objects only record. */
module DataDevices {
  import opened Wrappers
  import opened Ints
  import opened Wire
  import opened Registry
  import opened Protocol

  /** create_data_source: a source with no mime types under the parsed new id. */
  function CreateSource(c: Conn, data: seq<int>): (r: Reply)
    requires Valid(c) && AllBytes(data)
    ensures Valid(r.conn) && r.out == []
    ensures r.error.None? <==> ParseAll(data, [UintK]).Ok?
    ensures r.error.Some? ==> r.conn == c
    ensures var p := ParseAll(data, [UintK]);
      p.Ok? ==>
        Get(r.conn, p.value[0].u) == Ok(SourceObj(DataSource(p.value[0].u, {})))
        && forall k :: k != p.value[0].u ==> Get(r.conn, k) == Get(c, k)
  {
    match ParseAll(data, [UintK])
    case Err(e) => Short(c, e)
    case Ok(vs) => Reply(New(c, vs[0].u, SourceObj(DataSource(vs[0].u, {}))).0, [], None)
  }

  /** get_data_device: a device tied to the seat, provided the seat id names a seat. */
  function GetDevice(c: Conn, data: seq<int>): (r: Reply)
    requires Valid(c) && AllBytes(data)
    ensures Valid(r.conn) && r.out == []
    ensures r.error.Some? ==> r.conn == c
    ensures var p := ParseAll(data, [UintK, UintK]);
      r.error.None? <==> p.Ok? && p.value[1].u in c.ids && c.objs[c.ids[p.value[1].u]].SeatObj?
    ensures var p := ParseAll(data, [UintK, UintK]);
      r.error.None? ==>
        Get(r.conn, p.value[0].u) == Ok(DeviceObj(DataDevice(p.value[0].u, c.ids[p.value[1].u], None)))
        && forall k :: k != p.value[0].u ==> Get(r.conn, k) == Get(c, k)
  {
    match ParseAll(data, [UintK, UintK])
    case Err(e) => Short(c, e)
    case Ok(vs) =>
      if vs[1].u in c.ids && c.objs[c.ids[vs[1].u]].SeatObj? then
        Reply(New(c, vs[0].u, DeviceObj(DataDevice(vs[0].u, c.ids[vs[1].u], None))).0, [], None)
      else Reply(c, [], Some(Rejected("unable to get data device: invalid seat")))
  }

  /** `DataDeviceManager.HandleMessage`: create_data_source (0), get_data_device (1). */
  function HandleManager(c: Conn, opcode: int, data: seq<int>): (r: Reply)
    requires Valid(c) && AllBytes(data)
    ensures Valid(r.conn) && r.out == []
    ensures opcode !in {0, 1} ==> r == Unknown(c, opcode)
    ensures opcode == 0 ==> r == CreateSource(c, data)
    ensures opcode == 1 ==> r == GetDevice(c, data)
  {
    if opcode == 0 then CreateSource(c, data)
    else if opcode == 1 then GetDevice(c, data)
    else Unknown(c, opcode)
  }

  /** `DataDevice.Selection`: the selection event (opcode 5) naming no offer. */
  function Selection(d: DataDevice): (o: Out)
    ensures o.Send? && o.msg.id == d.id && o.msg.opcode == 5 && o.msg.fields == [UintF(0)]
  {
    Msg(d.id, 5, [UintF(0)])
  }

  /** `DataDevice.HandleMessage` for the device at `a`: set_selection (1) records the
      source when the id names a data source; every other opcode is an error. */
  function HandleDevice(c: Conn, a: int, opcode: int, data: seq<int>): (r: Reply)
    requires Valid(c) && a in c.objs && c.objs[a].DeviceObj? && AllBytes(data)
    ensures Valid(r.conn) && r.out == []
    ensures opcode != 1 ==> r == Unknown(c, opcode)
    ensures r.error.Some? ==> r.conn == c
    ensures var p := ParseAll(data, [UintK, UintK]);
      opcode == 1 ==> (r.error.None? <==> p.Ok? && p.value[0].u in c.ids && c.objs[c.ids[p.value[0].u]].SourceObj?)
    ensures var p := ParseAll(data, [UintK, UintK]);
      opcode == 1 && r.error.None? ==>
        r.conn == Store(c, a, DeviceObj(c.objs[a].device.(selection := Some(c.ids[p.value[0].u]))))
  {
    if opcode != 1 then Unknown(c, opcode)
    else
      match ParseAll(data, [UintK, UintK])
      case Err(e) => Short(c, e)
      case Ok(vs) =>
        if vs[0].u in c.ids && c.objs[c.ids[vs[0].u]].SourceObj? then
          Reply(Store(c, a, DeviceObj(c.objs[a].device.(selection := Some(c.ids[vs[0].u])))), [], None)
        else Reply(c, [], Some(Rejected("could not set selection")))
  }

  /** The protocol unsets a selection with a null source (id 0), but id 0 names the
      connection's null object, which is not a data source: the request is an error
      and the selection stays as it was. */
  lemma SelectionCannotBeUnset(c: Conn, a: int, serial: int)
    requires Valid(c) && a in c.objs && c.objs[a].DeviceObj? && IsU32(serial)
    requires 0 in c.ids && c.objs[c.ids[0]] == NullObj
    ensures AllBytes(LE32(0) + LE32(serial))
    ensures var r := HandleDevice(c, a, 1, LE32(0) + LE32(serial));
      r.error.Some? && r.conn == c
  {
    var fs := [UintF(0), UintF(serial)];
    ParseRoundTrip(fs, []);
    assert EncodeAll(fs) + [] == LE32(0) + LE32(serial) by {
      assert EncodeAll(fs[1..]) == LE32(serial) + [];
    }
    assert KindsOf(fs) == [UintK, UintK] by {
      assert KindsOf(fs[1..]) == [UintK] + KindsOf(fs[2..]);
    }
    assert DecodedAll(fs) == [UintV(0), UintV(serial)] by {
      assert DecodedAll(fs[1..]) == [UintV(serial)] + DecodedAll(fs[2..]);
    }
  }

  /** `DataSource.HandleMessage` for the source at `a`: offer (0) adds a mime type;
      destroy (1) drops the source's id. */
  function HandleSource(c: Conn, a: int, opcode: int, data: seq<int>): (r: Reply)
    requires Valid(c) && a in c.objs && c.objs[a].SourceObj? && AllBytes(data)
    ensures Valid(r.conn) && r.out == []
    ensures opcode !in {0, 1} ==> r == Unknown(c, opcode)
    ensures opcode == 0 ==> (r.error.None? <==> ParseAll(data, [StringK]).Ok?)
    ensures opcode == 0 && r.error.Some? ==> r.conn == c
    ensures var p := ParseAll(data, [StringK]); var s := c.objs[a].source;
      opcode == 0 && p.Ok? ==> r.conn == Store(c, a, SourceObj(s.(mimetypes := s.mimetypes + {p.value[0].s})))
    ensures opcode == 1 ==> r.error.None? && Get(r.conn, c.objs[a].source.id).Err?
    ensures opcode == 1 ==> forall k :: k != c.objs[a].source.id ==> Get(r.conn, k) == Get(c, k)
  {
    var s := c.objs[a].source;
    if opcode == 0 then
      match ParseAll(data, [StringK])
      case Err(e) => Short(c, e)
      case Ok(vs) => Reply(Store(c, a, SourceObj(s.(mimetypes := s.mimetypes + {vs[0].s}))), [], None)
    else if opcode == 1 then Reply(Destroy(c, s.id), [], None)
    else Unknown(c, opcode)
  }

  /** Offering the same mime type twice leaves the same source as offering it once. */
  lemma {:induction false} OfferIdempotent(c: Conn, a: int, data: seq<int>)
    requires Valid(c) && a in c.objs && c.objs[a].SourceObj? && AllBytes(data)
    requires ParseAll(data, [StringK]).Ok?
    ensures var once := HandleSource(c, a, 0, data);
      HandleSource(once.conn, a, 0, data) == once
  {
    var m := ParseAll(data, [StringK]).value[0].s;
    var s := c.objs[a].source;
    assert s.mimetypes + {m} + {m} == s.mimetypes + {m};
  }
}
