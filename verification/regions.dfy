/** wayland/region.go and wayland/compositor.go: wl_region and wl_compositor. */
module Regions {
  import opened Wrappers
  import opened Ints
  import opened Geometry
  import opened Wire
  import opened Registry
  import opened Protocol
  import Stack
  import Pixels

  /** `NewRegion`: an empty area stack. */
  function NewRegion(id: int): (r: WlRegion)
    ensures r.id == id && Stack.IsEmpty(r.rects)
  {
    WlRegion(id, Stack.New())
  }

  /** The position of the first area of `areas` containing `p`, or -1. */
  function FirstHit(areas: seq<Area>, p: Point): (k: int)
    ensures -1 <= k < |areas|
    ensures k == -1 <==> forall i :: 0 <= i < |areas| ==> !p.In(areas[i].rect)
    ensures k >= 0 ==> p.In(areas[k].rect) && forall i :: 0 <= i < k ==> !p.In(areas[i].rect)
  {
    if |areas| == 0 then -1
    else if p.In(areas[0].rect) then 0
    else
      var k := FirstHit(areas[1..], p);
      assert forall i :: 1 <= i < |areas| ==> areas[i] == areas[1..][i - 1];
      if k == -1 then -1 else k + 1
  }

  /** The answer `Intersects` gives and the stack it leaves behind. */
  datatype Hit = Hit(inArea: bool, inRegion: bool, region: WlRegion)

  /** `Intersects`: `slices.Reverse` runs on the slice `Inner` returns, which is the
      stack's own storage, so the stored order is reversed by every query; the
      search then takes the first area of the reversed order that holds the point. */
  function Intersects(reg: WlRegion, p: Point): (h: Hit)
    ensures h.region == reg.(rects := Stack.Stack(Stack.Reverse(reg.rects.elements)))
    ensures var areas := reg.rects.elements;
      h.inArea <==> exists i :: 0 <= i < |areas| && p.In(areas[i].rect)
    ensures !h.inArea ==> !h.inRegion
    ensures var areas := reg.rects.elements;
      h.inArea ==> exists i :: 0 <= i < |areas| && p.In(areas[i].rect) && h.inRegion == !areas[i].subtract
                     && forall j :: i < j < |areas| ==> !p.In(areas[j].rect)
  {
    var areas := Stack.Inner(reg.rects);
    var rev := Stack.Reverse(areas);
    var k := FirstHit(rev, p);
    var stored := reg.(rects := Stack.Stack(rev));
    ReversedSearch(areas, p);
    if k == -1 then Hit(false, false, stored)
    else Hit(true, !rev[k].subtract, stored)
  }

  /** The first hit in the reversed order is the last hit in the stored order. */
  lemma ReversedSearch(areas: seq<Area>, p: Point)
    ensures var k := FirstHit(Stack.Reverse(areas), p);
      k == -1 <==> forall i :: 0 <= i < |areas| ==> !p.In(areas[i].rect)
    ensures var k := FirstHit(Stack.Reverse(areas), p); var i := |areas| - 1 - k;
      k >= 0 ==> 0 <= i < |areas| && Stack.Reverse(areas)[k] == areas[i] && p.In(areas[i].rect)
                 && forall j :: i < j < |areas| ==> !p.In(areas[j].rect)
  {
    var rev := Stack.Reverse(areas);
    var k := FirstHit(rev, p);
    assert forall i :: 0 <= i < |areas| ==> rev[|areas| - 1 - i] == areas[i];
  }

  /** Two queries in a row bring the stored order back. */
  lemma IntersectsTwiceRestores(reg: WlRegion, p: Point, q: Point)
    ensures Intersects(Intersects(reg, p).region, q).region == reg
  {
    var e := reg.rects.elements;
    assert Stack.Reverse(Stack.Reverse(e)) == e;
  }

  /** The in-place reversal makes the answer depend on how many queries came before:
      an added area under a later subtracted one, both holding the point, answers
      "not in the region" and then, asked again, "in the region". */
  lemma IntersectsAlternates(p: Point, r: Rect)
    requires p.In(r)
    ensures var reg := WlRegion(0, Stack.Stack([Area(r, false), Area(r, true)]));
      var first := Intersects(reg, p);
      var second := Intersects(first.region, p);
      first.inArea && !first.inRegion && second.inArea && second.inRegion
  {
    var reg := WlRegion(0, Stack.Stack([Area(r, false), Area(r, true)]));
    var first := Intersects(reg, p);
    assert first.region.rects.elements == [Area(r, true), Area(r, false)];
  }

  /** The rectangle of `add`/`subtract`: (x, y, x + width, y + height), canonicalised. */
  function AreaOf(vs: seq<Value>, subtract: bool): (a: Area)
    requires |vs| == 4 && Matches(vs, [IntK, IntK, IntK, IntK])
    ensures a.subtract == subtract && a.rect.Canonical()
  {
    Area(MakeRect(vs[0].i, vs[1].i, vs[0].i + vs[2].i, vs[1].i + vs[3].i), subtract)
  }

  /** `Region.HandleMessage` for the region at address `a`. */
  function HandleRegion(c: Conn, a: int, opcode: int, data: seq<int>): (r: Reply)
    requires Valid(c) && a in c.objs && c.objs[a].RegionObj? && AllBytes(data)
    ensures Valid(r.conn)
    ensures var reg := c.objs[a].region;
      opcode == 0 ==> r == Reply(Destroy(c, reg.id), [DeleteId(reg.id)], None)
    ensures opcode in {1, 2} ==> r.out == []
    ensures opcode in {1, 2} ==> (r.error.None? <==> ParseAll(data, [IntK, IntK, IntK, IntK]).Ok?)
    ensures var reg := c.objs[a].region; var p := ParseAll(data, [IntK, IntK, IntK, IntK]);
      opcode in {1, 2} && p.Ok? ==>
        r.conn == Store(c, a, RegionObj(reg.(rects := Stack.Push(reg.rects, AreaOf(p.value, opcode == 2)))))
    ensures opcode in {1, 2} && r.error.Some? ==> r.conn == c
    ensures opcode !in {0, 1, 2} ==> r == Unknown(c, opcode)
  {
    var reg := c.objs[a].region;
    if opcode == 0 then
      Reply(Destroy(c, reg.id), [DeleteId(reg.id)], None)
    else if opcode == 1 || opcode == 2 then
      match ParseAll(data, [IntK, IntK, IntK, IntK])
      case Err(e) => Short(c, e)
      case Ok(vs) =>
        Reply(Store(c, a, RegionObj(reg.(rects := Stack.Push(reg.rects, AreaOf(vs, opcode == 2))))), [], None)
    else Unknown(c, opcode)
  }

  /** An `add` of an area holding the point, queried on a stack kept in pushing order,
      makes the point part of the region. */
  lemma AddedAreaIsInRegion(reg: WlRegion, vs: seq<Value>, p: Point)
    requires |vs| == 4 && Matches(vs, [IntK, IntK, IntK, IntK])
    requires p.In(AreaOf(vs, false).rect)
    ensures var h := Intersects(reg.(rects := Stack.Push(reg.rects, AreaOf(vs, false))), p);
      h.inArea && h.inRegion
  {
    var reg2 := reg.(rects := Stack.Push(reg.rects, AreaOf(vs, false)));
    var e := reg2.rects.elements;
    var h := Intersects(reg2, p);
    var i :| 0 <= i < |e| && p.In(e[i].rect) && h.inRegion == !e[i].subtract
             && forall j :: i < j < |e| ==> !p.In(e[j].rect);
    assert i == |e| - 1;
  }

  // ---------------------------------------------------------------------
  // wl_compositor

  /** `&Surface{id: id}`: every other field at its zero value. */
  function NewSurface(id: int): (s: WlSurface)
    ensures s.id == id && s.frameCallback == 0 && !s.attached && s.pending.None?
    ensures s.committedInput.None? && s.pendingInput.None? && s.children == []
    ensures s.cached.None? && s.damage == [] && !s.first
  {
    WlSurface(id, 0, false, None, None, None, [], None, [], false)
  }

  /** `Compositor.HandleMessage`: create_surface (0) and create_region (1) register a
      fresh object under the parsed new id. */
  function HandleCompositor(c: Conn, opcode: int, data: seq<int>): (r: Reply)
    requires Valid(c) && AllBytes(data)
    ensures Valid(r.conn) && r.out == []
    ensures opcode !in {0, 1} ==> r == Unknown(c, opcode)
    ensures opcode in {0, 1} ==> (r.error.None? <==> ParseAll(data, [UintK]).Ok?)
    ensures r.error.Some? ==> r.conn == c
    ensures var p := ParseAll(data, [UintK]);
      opcode == 0 && p.Ok? ==> Get(r.conn, p.value[0].u) == Ok(SurfaceObj(NewSurface(p.value[0].u)))
    ensures var p := ParseAll(data, [UintK]);
      opcode == 1 && p.Ok? ==> Get(r.conn, p.value[0].u) == Ok(RegionObj(NewRegion(p.value[0].u)))
    ensures var p := ParseAll(data, [UintK]);
      opcode in {0, 1} && p.Ok? ==> forall k :: k != p.value[0].u ==> Get(r.conn, k) == Get(c, k)
  {
    if opcode == 0 || opcode == 1 then
      match ParseAll(data, [UintK])
      case Err(e) => Short(c, e)
      case Ok(vs) =>
        var id := vs[0].u;
        var o := if opcode == 0 then SurfaceObj(NewSurface(id)) else RegionObj(NewRegion(id));
        Reply(New(c, id, o).0, [], None)
    else Unknown(c, opcode)
  }
}
