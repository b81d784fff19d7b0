/** wayland/xdg_positioner.go: where a popup is placed relative to its parent. */
module Positioners {
  import opened Wrappers
  import opened Ints
  import opened Geometry
  import opened Wire
  import opened Registry
  import opened Protocol

  /** The `xdg_positioner.anchor` values of the xdg-shell protocol the code handles. */
  const AnchorTopLeft := 5
  const AnchorBottomLeft := 6
  const AnchorTopRight := 7
  const AnchorBottomRight := 8

  /** `&XDG_Positioner{id: id}`. */
  function NewPositioner(id: int): (p: Positioner)
    ensures p.id == id && p.size == ZR && p.anchorRect == ZR && p.anchor == 0 && p.offset == Origin && !p.reactive
  {
    Positioner(id, ZR, ZR, 0, 0, 0, Origin, false)
  }

  /** `CalculateAnchorPoint`: a corner of the anchor rectangle for anchors 5 to 8 and its
      centre (halved with Go's truncating division) for every other value, plus the
      offset.  The contract names the anchors by their xdg_positioner enum constants;
      `AnchorPointInAnchorRect` is the property that places the point. */
  function CalculateAnchorPoint(p: Positioner): (q: Point)
    ensures var ar := p.anchorRect;
      q.Sub(p.offset) ==
        if p.anchor == AnchorTopLeft then Pt(ar.min.x, ar.min.y)
        else if p.anchor == AnchorBottomLeft then Pt(ar.min.x, ar.max.y)
        else if p.anchor == AnchorTopRight then Pt(ar.max.x, ar.min.y)
        else if p.anchor == AnchorBottomRight then Pt(ar.max.x, ar.max.y)
        else Pt(ar.min.x + TruncDiv(ar.Dx(), 2), ar.min.y + TruncDiv(ar.Dy(), 2))
  {
    var ar := p.anchorRect;
    if p.anchor == 5 then p.offset.Add(Pt(ar.min.x, ar.min.y))
    else if p.anchor == 6 then p.offset.Add(Pt(ar.min.x, ar.max.y))
    else if p.anchor == 7 then p.offset.Add(Pt(ar.max.x, ar.min.y))
    else if p.anchor == 8 then p.offset.Add(Pt(ar.max.x, ar.max.y))
    else p.offset.Add(Pt(ar.min.x + TruncDiv(ar.Dx(), 2), ar.min.y + TruncDiv(ar.Dy(), 2)))
  }

  /** On a canonical anchor rectangle every anchor point, offset removed, lies in the
      closed rectangle: the corners on its edges and the centre inside. */
  lemma AnchorPointInAnchorRect(p: Positioner)
    requires p.anchorRect.Canonical()
    ensures var q := CalculateAnchorPoint(p).Sub(p.offset);
      p.anchorRect.min.x <= q.x <= p.anchorRect.max.x && p.anchorRect.min.y <= q.y <= p.anchorRect.max.y
  {
  }

  /** The new positioner state a setter request leaves, given its parsed arguments. */
  function Set(p: Positioner, opcode: int, vs: seq<Value>): (r: Positioner)
    requires 1 <= opcode <= 6
    requires opcode == 1 ==> |vs| == 2 && Matches(vs, [UintK, UintK])
    requires opcode == 2 ==> |vs| == 4 && Matches(vs, [IntK, IntK, IntK, IntK])
    requires 3 <= opcode <= 5 ==> |vs| == 1 && Matches(vs, [UintK])
    requires opcode == 6 ==> |vs| == 2 && Matches(vs, [IntK, IntK])
    ensures opcode == 1 ==> r == p.(size := r.size) && r.size == MakeRect(0, 0, vs[0].u, vs[1].u)
    ensures opcode == 2 ==> r == p.(anchorRect := r.anchorRect)
    ensures opcode == 2 ==> r.anchorRect == MakeRect(vs[0].i, vs[1].i, vs[0].i + vs[2].i, vs[1].i + vs[3].i)
    ensures opcode == 3 ==> r == p.(anchor := vs[0].u)
    ensures opcode == 4 ==> r == p.(gravity := vs[0].u)
    ensures opcode == 5 ==> r == p.(constraintAdjustment := vs[0].u)
    ensures opcode == 6 ==> r == p.(offset := Pt(vs[0].i, vs[1].i))
  {
    if opcode == 1 then p.(size := MakeRect(0, 0, vs[0].u, vs[1].u))
    else if opcode == 2 then p.(anchorRect := MakeRect(vs[0].i, vs[1].i, vs[0].i + vs[2].i, vs[1].i + vs[3].i))
    else if opcode == 3 then p.(anchor := vs[0].u)
    else if opcode == 4 then p.(gravity := vs[0].u)
    else if opcode == 5 then p.(constraintAdjustment := vs[0].u)
    else p.(offset := Pt(vs[0].i, vs[1].i))
  }

  /** The field layout of each setter. */
  function Layout(opcode: int): (ks: seq<Kind>)
    requires 1 <= opcode <= 6
    ensures opcode == 1 ==> |ks| == 2
  {
    if opcode == 1 then [UintK, UintK]
    else if opcode == 2 then [IntK, IntK, IntK, IntK]
    else if opcode == 6 then [IntK, IntK]
    else [UintK]
  }

  /** `XDG_Positioner.HandleMessage` for the positioner at address `a`. */
  function HandlePositioner(c: Conn, a: int, opcode: int, data: seq<int>): (r: Reply)
    requires Valid(c) && a in c.objs && c.objs[a].PositionerObj? && AllBytes(data)
    ensures Valid(r.conn) && r.out == []
    ensures opcode == 0 ==> r == Reply(Destroy(c, c.objs[a].positioner.id), [], None)
    ensures 1 <= opcode <= 6 ==> (r.error.None? <==> ParseAll(data, Layout(opcode)).Ok?)
    ensures 1 <= opcode <= 6 && r.error.Some? ==> r.conn == c
    ensures var p := c.objs[a].positioner;
      opcode == 7 ==> r == Reply(Store(c, a, PositionerObj(p.(reactive := true))), [], None)
    ensures opcode in {8, 9} ==> r == Reply(c, [], None)
    ensures opcode < 0 || opcode > 9 ==> r == Unknown(c, opcode)
    ensures 1 <= opcode <= 7 && r.error.None? ==> r.conn == c.(objs := r.conn.objs) && r.conn.objs.Keys == c.objs.Keys
    ensures 1 <= opcode <= 7 && r.error.None? ==> forall b :: b in c.objs && b != a ==> r.conn.objs[b] == c.objs[b]
    ensures 1 <= opcode <= 7 && r.error.None? ==> r.conn.objs[a].PositionerObj? && r.conn.objs[a].positioner.id == c.objs[a].positioner.id
    ensures 1 <= opcode <= 6 && r.error.None? ==>
      r.conn.objs[a].positioner == Set(c.objs[a].positioner, opcode, ParseAll(data, Layout(opcode)).value)
  {
    var p := c.objs[a].positioner;
    if opcode == 0 then Reply(Destroy(c, p.id), [], None)
    else if 1 <= opcode <= 6 then
      match ParseAll(data, Layout(opcode))
      case Err(e) => Short(c, e)
      case Ok(vs) => Reply(Store(c, a, PositionerObj(Set(p, opcode, vs))), [], None)
    else if opcode == 7 then Reply(Store(c, a, PositionerObj(p.(reactive := true))), [], None)
    else if opcode == 8 || opcode == 9 then Reply(c, [], None)
    else Unknown(c, opcode)
  }

  /** A setter changes only its own field: gravity, in particular, never affects the
      anchor point. */
  lemma GravityIsNeverRead(p: Positioner, g: int)
    ensures CalculateAnchorPoint(p.(gravity := g)) == CalculateAnchorPoint(p)
  {
  }
}
