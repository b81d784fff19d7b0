/** wayland/subcompositor.go and wayland/subsurface.go. */
module SubSurfaces {
  import opened Wrappers
  import opened Ints
  import opened Geometry
  import opened Wire
  import opened Registry
  import opened Protocol

  /** The address a wire id names when it names a wl_surface. */
  function SurfaceNamed(c: Conn, id: int): (r: Option<int>)
    requires Valid(c)
    ensures r.Some? <==> id in c.ids && c.objs[c.ids[id]].SurfaceObj?
    ensures r.Some? ==> r.value == c.ids[id]
  {
    if id in c.ids && c.objs[c.ids[id]].SurfaceObj? then Some(c.ids[id]) else None
  }

  /** `Surface.AddSubSurface` (not part of this model's sources): the subsurface is
      appended to the parent's children. */
  function AddSubSurface(c: Conn, parent: int, sub: int): (r: Conn)
    requires Valid(c) && parent in c.objs && c.objs[parent].SurfaceObj?
    ensures Valid(r) && r.objs.Keys == c.objs.Keys
    ensures r.objs[parent].SurfaceObj?
    ensures r.objs[parent].surface == c.objs[parent].surface.(children := c.objs[parent].surface.children + [sub])
    ensures forall b :: b in c.objs && b != parent ==> r.objs[b] == c.objs[b]
    ensures r == c.(objs := r.objs)
  {
    var s := c.objs[parent].surface;
    Store(c, parent, SurfaceObj(s.(children := s.children + [sub])))
  }

  /** `SubCompositor.HandleMessage`: destroy (0) does nothing; get_subsurface (1)
      parses (new_id, surface, parent) and succeeds only when both ids name
      wl_surfaces.  The new subsurface starts at (0, 0), not synchronised, and is
      appended to the parent's children. */
  function HandleSubCompositor(c: Conn, opcode: int, data: seq<int>): (r: Reply)
    requires Valid(c) && AllBytes(data)
    ensures Valid(r.conn) && r.out == []
    ensures opcode == 0 ==> r == Reply(c, [], None)
    ensures opcode !in {0, 1} ==> r == Unknown(c, opcode)
    ensures opcode == 1 && r.error.Some? ==> r.conn == c
    ensures var p := ParseAll(data, [UintK, UintK, UintK]);
      opcode == 1 ==> (r.error.None? <==>
        p.Ok? && SurfaceNamed(c, p.value[1].u).Some? && SurfaceNamed(c, p.value[2].u).Some?)
    ensures var p := ParseAll(data, [UintK, UintK, UintK]);
      opcode == 1 && r.error.None? ==>
        var id := p.value[0].u;
        var s := c.ids[p.value[1].u];
        var parent := c.ids[p.value[2].u];
        id in r.conn.ids
        && r.conn.objs[r.conn.ids[id]] == SubSurfaceObj(SubSurface(id, s, parent, Origin, false))
        && parent in r.conn.objs && r.conn.objs[parent].SurfaceObj?
        && r.conn.objs[parent].surface.children == c.objs[parent].surface.children + [r.conn.ids[id]]
        && forall k :: k != id && k in c.ids && c.ids[k] != parent ==> Get(r.conn, k) == Get(c, k)
  {
    if opcode == 0 then Reply(c, [], None)
    else if opcode == 1 then
      match ParseAll(data, [UintK, UintK, UintK])
      case Err(e) => Short(c, e)
      case Ok(vs) =>
        var s := SurfaceNamed(c, vs[1].u);
        var parent := SurfaceNamed(c, vs[2].u);
        if s.None? || parent.None? then Reply(c, [], Some(Rejected("could not set up subsurface")))
        else
          var id := vs[0].u;
          var (c1, a) := New(c, id, SubSurfaceObj(SubSurface(id, s.value, parent.value, Origin, false)));
          Reply(AddSubSurface(c1, parent.value, a), [], None)
    else Unknown(c, opcode)
  }

  /** `SubSurface.HandleMessage` for the subsurface at `a`.  destroy (0) does nothing and
      keeps the subsurface registered; set_position (1) reads both coordinates as
      uint32; place_above (2) and place_below (3) parse their reference and ignore
      it; set_sync (4) and set_desync (5) set and clear the flag. */
  function HandleSubSurface(c: Conn, a: int, opcode: int, data: seq<int>): (r: Reply)
    requires Valid(c) && a in c.objs && c.objs[a].SubSurfaceObj? && AllBytes(data)
    ensures Valid(r.conn) && r.out == []
    ensures opcode == 0 ==> r == Reply(c, [], None)
    ensures opcode == 1 ==> (r.error.None? <==> ParseAll(data, [UintK, UintK]).Ok?)
    ensures var p := ParseAll(data, [UintK, UintK]); var u := c.objs[a].sub;
      opcode == 1 && p.Ok? ==> r.conn == Store(c, a, SubSurfaceObj(u.(position := Pt(p.value[0].u, p.value[1].u))))
    ensures opcode in {2, 3} ==> r.conn == c && (r.error.None? <==> ParseAll(data, [UintK]).Ok?)
    ensures opcode in {4, 5} ==> r.error.None?
    ensures opcode in {4, 5} ==> r.conn == Store(c, a, SubSurfaceObj(c.objs[a].sub.(synced := opcode == 4)))
    ensures opcode !in {0, 1, 2, 3, 4, 5} ==> r == Unknown(c, opcode)
    ensures opcode in {1, 2, 3} && r.error.Some? ==> r.conn == c
  {
    var u := c.objs[a].sub;
    if opcode == 0 then Reply(c, [], None)
    else if opcode == 1 then
      match ParseAll(data, [UintK, UintK])
      case Err(e) => Short(c, e)
      case Ok(vs) => Reply(Store(c, a, SubSurfaceObj(u.(position := Pt(vs[0].u, vs[1].u)))), [], None)
    else if opcode == 2 || opcode == 3 then
      match ParseAll(data, [UintK])
      case Err(e) => Short(c, e)
      case Ok(_) => Reply(c, [], None)
    else if opcode == 4 then Reply(Store(c, a, SubSurfaceObj(u.(synced := true))), [], None)
    else if opcode == 5 then Reply(Store(c, a, SubSurfaceObj(u.(synced := false))), [], None)
    else Unknown(c, opcode)
  }

  /** A client placing a subsurface at a negative offset, sent as an int32 in two's
      complement, ends up with a large positive position: -1 becomes 2^32 - 1. */
  lemma NegativePositionWraps(c: Conn, a: int, x: int, y: int)
    requires Valid(c) && a in c.objs && c.objs[a].SubSurfaceObj?
    requires IsI32(x) && IsI32(y) && x < 0
    ensures AllBytes(LE32(Wrap32(x)) + LE32(Wrap32(y)))
    ensures var r := HandleSubSurface(c, a, 1, LE32(Wrap32(x)) + LE32(Wrap32(y)));
      r.error.None? && r.conn.objs[a].SubSurfaceObj? && r.conn.objs[a].sub.position.x == x + U32
  {
    var fs := [UintF(Wrap32(x)), UintF(Wrap32(y))];
    ParseRoundTrip(fs, []);
    assert EncodeAll(fs) + [] == LE32(Wrap32(x)) + LE32(Wrap32(y)) by {
      assert EncodeAll(fs[1..]) == LE32(Wrap32(y)) + [];
    }
    assert KindsOf(fs) == [UintK, UintK] by {
      assert KindsOf(fs[1..]) == [UintK] + KindsOf(fs[2..]);
    }
    assert DecodedAll(fs) == [UintV(Wrap32(x)), UintV(Wrap32(y))] by {
      assert DecodedAll(fs[1..]) == [UintV(Wrap32(y))] + DecodedAll(fs[2..]);
    }
  }
}
