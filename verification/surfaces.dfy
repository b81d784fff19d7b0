/** wayland/surface.go: the wl_surface, its double-buffered state and the pixel
    cache that committing a buffer fills. */
module Surfaces {
  import opened Wrappers
  import opened Ints
  import opened Geometry
  import opened Wire
  import opened Registry
  import opened Protocol
  import Pixels

  predicate IsSurfaceAt(c: Conn, a: int) { a in c.objs && c.objs[a].SurfaceObj? }

  // ---------------------------------------------------------------------
  // read_buffer

  /** The spans a damage rectangle covers depend only on the image's bounds and stride. */
  lemma SameSpans(x: Pixels.BGRA, y: Pixels.BGRA, d: Rect, k: int)
    requires x.rect == y.rect && x.stride == y.stride
    ensures Pixels.InSpans(x, d, k) <==> Pixels.InSpans(y, d, k)
  {
    assert Pixels.FirstRow(x, d) == Pixels.FirstRow(y, d) && Pixels.EndRow(x, d) == Pixels.EndRow(y, d);
    assert forall sy :: Pixels.SpanStart(x, d, sy) == Pixels.SpanStart(y, d, sy) && Pixels.SpanEnd(x, d, sy) == Pixels.SpanEnd(y, d, sy);
  }

  /** A damage rectangle clamped into the buffer, side by side as `read_buffer` does:
      exactly the points of the damage that lie in [0, w) x [0, h). */
  function Clamp(d: Rect, w: int, h: int): (r: Rect)
    ensures forall p: Point :: p.In(r) <==> p.In(d) && p.In(Rect(Origin, Pt(w, h)))
    ensures 0 <= r.min.x && r.max.x <= w && 0 <= r.min.y && r.max.y <= h
  {
    Rect(Pt(Max(d.min.x, 0), Max(d.min.y, 0)), Pt(Min(d.max.x, w), Min(d.max.y, h)))
  }

  /** The loop of `read_buffer` over the damage list: each clamped rectangle is copied
      from the buffer's bytes into the cache with `Update`; a slice out of range on any
      of them is a panic. */
  function PatchAll(img: Pixels.BGRA, src: seq<int>, ds: seq<Rect>, w: int, h: int, stride: int): (r: Result<Pixels.BGRA>)
    ensures r.Ok? ==> r.value.rect == img.rect && r.value.stride == img.stride && |r.value.pix| == |img.pix|
    ensures r.Ok? ==> forall k :: 0 <= k < |img.pix| ==>
      r.value.pix[k] == img.pix[k] || (k < |src| && r.value.pix[k] == src[k])
    ensures r.Ok? ==> forall k :: 0 <= k < |img.pix| && (forall j :: 0 <= j < |ds| ==> !Pixels.InSpans(img, Clamp(ds[j], w, h), k)) ==>
      r.value.pix[k] == img.pix[k]
    decreases |ds|
  {
    if |ds| == 0 then Ok(img)
    else
      match Pixels.Update(img, src, Clamp(ds[0], w, h), stride)
      case Err(e) => Err(e)
      case Ok(img1) =>
        var r := PatchAll(img1, src, ds[1..], w, h, stride);
        assert forall j :: 1 <= j < |ds| ==> ds[j] == ds[1..][j - 1];
        assert forall j, k :: 0 <= j < |ds| ==>
          (Pixels.InSpans(img1, Clamp(ds[j], w, h), k) <==> Pixels.InSpans(img, Clamp(ds[j], w, h), k)) by {
          forall j, k | 0 <= j < |ds| { SameSpans(img1, img, Clamp(ds[j], w, h), k); }
        }
        r
  }

  /** Every byte in the span of some damage rectangle ends up equal to the buffer's byte. */
  lemma {:induction false} PatchAllCopies(img: Pixels.BGRA, src: seq<int>, ds: seq<Rect>, w: int, h: int, stride: int, j: int, k: int)
    requires PatchAll(img, src, ds, w, h, stride).Ok?
    requires 0 <= j < |ds| && 0 <= k < |img.pix| && Pixels.InSpans(img, Clamp(ds[j], w, h), k)
    ensures k < |src| && PatchAll(img, src, ds, w, h, stride).value.pix[k] == src[k]
    decreases |ds|
  {
    var img1 := Pixels.Update(img, src, Clamp(ds[0], w, h), stride).value;
    if j == 0 {
      assert img1.pix[k] == src[k];
    } else {
      assert ds[j] == ds[1..][j - 1];
      SameSpans(img1, img, Clamp(ds[j], w, h), k);
      assert Pixels.InSpans(img1, Clamp(ds[1..][j - 1], w, h), k);
      PatchAllCopies(img1, src, ds[1..], w, h, stride, j - 1, k);
    }
  }

  /** The pending buffer `read_buffer` can read: an ARGB wl_buffer whose pool exists. */
  predicate Readable(c: Conn, s: WlSurface)
  {
    s.pending.Some? && s.pending.value in c.objs && c.objs[s.pending.value].BufferObj?
    && var b := c.objs[s.pending.value].buffer;
    b.format == Pixels.FormatARGB && b.pool in c.objs && c.objs[b.pool].PoolObj?
  }

  /** The bounds of a buffer's pixels: (0, 0) to (width, height), canonicalised. */
  function Bounds(b: WlBuffer): Rect { MakeRect(0, 0, b.width, b.height) }

  /** Whether `read_buffer` replaces the cache wholesale rather than patching it. */
  predicate Replaces(s: WlSurface, b: WlBuffer)
  {
    s.cached.None? || s.damage == [] || Bounds(b) != s.cached.value.rect
  }

  /** `read_buffer`: the cache after reading the pending buffer.  The bytes start at the
      buffer's offset into the pool; an offset past the pool's end, or fewer bytes than
      height x stride for a fresh image, is a runtime panic. */
  function ReadBuffer(c: Conn, s: WlSurface): (r: Result<Option<Pixels.BGRA>>)
    requires Valid(c)
    ensures !Readable(c, s) ==> r == Ok(s.cached)
    ensures Readable(c, s) ==>
      var b := c.objs[s.pending.value].buffer; var data := c.objs[b.pool].pool.data;
      (r.Err? <==> !(0 <= b.offset <= |data|)
                   || (Replaces(s, b) && !(0 <= Bounds(b).Dy() * b.stride <= |data| - b.offset))
                   || (!Replaces(s, b) && PatchAll(s.cached.value, data[b.offset..], s.damage, b.width, b.height, b.stride).Err?))
    ensures Readable(c, s) && r.Ok? ==>
      var b := c.objs[s.pending.value].buffer; var src := c.objs[b.pool].pool.data[b.offset..];
      r.value.Some?
      && (Replaces(s, b) ==>
            r.value.value.rect == Bounds(b) && r.value.value.stride == b.stride
            && r.value.value.pix == src[..Bounds(b).Dy() * b.stride])
      && (!Replaces(s, b) ==>
            r.value.value == PatchAll(s.cached.value, src, s.damage, b.width, b.height, b.stride).value)
  {
    if !Readable(c, s) then Ok(s.cached)
    else
      var b := c.objs[s.pending.value].buffer;
      var data := c.objs[b.pool].pool.data;
      if !(0 <= b.offset <= |data|) then Err(Fault)
      else
        var src := data[b.offset..];
        var bounds := Bounds(b);
        if Replaces(s, b) then
          if !(0 <= bounds.Dy() * b.stride <= |src|) then Err(Fault)
          else Ok(Some(Pixels.NewBGRA(src, bounds, b.stride)))
        else
          match PatchAll(s.cached.value, src, s.damage, b.width, b.height, b.stride)
          case Err(e) => Err(e)
          case Ok(img) => Ok(Some(img))
  }

  // ---------------------------------------------------------------------
  // RenderFrame

  /** `RenderFrame`: with a frame callback pending, done (carrying the four serial bytes)
      then delete_id; the callback is cleared either way. */
  function RenderFrame(s: WlSurface, serial: seq<int>): (r: (WlSurface, seq<Out>))
    requires |serial| == 4 && AllBytes(serial)
    ensures r.0 == s.(frameCallback := 0)
    ensures r.1 == [] <==> s.frameCallback == 0
    ensures s.frameCallback != 0 ==>
      r.1 == [Msg(s.frameCallback, 0, [BytesF(serial)]), DeleteId(s.frameCallback)]
  {
    var out := if s.frameCallback != 0 then
      [Msg(s.frameCallback, 0, [BytesF(serial)]), DeleteId(s.frameCallback)] else [];
    (s.(frameCallback := 0), out)
  }

  /** A callback fires at most once: a second render sends nothing. */
  lemma RenderFrameOnce(s: WlSurface, x: seq<int>, y: seq<int>)
    requires |x| == 4 && AllBytes(x) && |y| == 4 && AllBytes(y)
    ensures RenderFrame(RenderFrame(s, x).0, y) == (RenderFrame(s, x).0, [])
  {
  }

  // ---------------------------------------------------------------------
  // Requests

  /** attach (1): id 0 clears the pending buffer; otherwise the id must name a wl_buffer.
      Either way the surface is marked attached. */
  function Attach(c: Conn, a: int, data: seq<int>): (r: Reply)
    requires Valid(c) && IsSurfaceAt(c, a) && AllBytes(data)
    ensures Valid(r.conn) && r.out == []
    ensures r.error.Some? ==> r.conn == c
    ensures var p := ParseAll(data, [UintK, IntK, IntK]);
      r.error.None? <==> p.Ok? && (p.value[0].u == 0 || (p.value[0].u in c.ids && c.objs[c.ids[p.value[0].u]].BufferObj?))
    ensures var p := ParseAll(data, [UintK, IntK, IntK]); var s := c.objs[a].surface;
      r.error.None? ==>
        r.conn == Store(c, a, SurfaceObj(s.(attached := true,
                                            pending := if p.value[0].u == 0 then None else Some(c.ids[p.value[0].u]))))
  {
    match ParseAll(data, [UintK, IntK, IntK])
    case Err(e) => Short(c, e)
    case Ok(vs) =>
      var s := c.objs[a].surface;
      var id := vs[0].u;
      if id == 0 then Reply(Store(c, a, SurfaceObj(s.(pending := None, attached := true))), [], None)
      else if id in c.ids && c.objs[c.ids[id]].BufferObj? then
        Reply(Store(c, a, SurfaceObj(s.(pending := Some(c.ids[id]), attached := true))), [], None)
      else Reply(c, [], Some(Rejected("failed to attach buffer: unknown buffer")))
  }

  /** damage (2): the rectangle (x, y, x + w, y + h) is appended to the damage list. */
  function Damage(c: Conn, a: int, data: seq<int>): (r: Reply)
    requires Valid(c) && IsSurfaceAt(c, a) && AllBytes(data)
    ensures Valid(r.conn) && r.out == []
    ensures var p := ParseAll(data, [IntK, IntK, IntK, IntK]);
      (r.error.None? <==> p.Ok?) && (p.Err? ==> r.conn == c)
    ensures var p := ParseAll(data, [IntK, IntK, IntK, IntK]); var s := c.objs[a].surface;
      p.Ok? ==>
        var x := p.value[0].i; var y := p.value[1].i;
        r.conn == Store(c, a, SurfaceObj(s.(damage := s.damage + [MakeRect(x, y, x + p.value[2].i, y + p.value[3].i)])))
  {
    match ParseAll(data, [IntK, IntK, IntK, IntK])
    case Err(e) => Short(c, e)
    case Ok(vs) =>
      var s := c.objs[a].surface;
      var d := MakeRect(vs[0].i, vs[1].i, vs[0].i + vs[2].i, vs[1].i + vs[3].i);
      Reply(Store(c, a, SurfaceObj(s.(damage := s.damage + [d]))), [], None)
  }

  /** frame (3): the new id replaces any callback requested before. */
  function Frame(c: Conn, a: int, data: seq<int>): (r: Reply)
    requires Valid(c) && IsSurfaceAt(c, a) && AllBytes(data)
    ensures Valid(r.conn) && r.out == []
    ensures var p := ParseAll(data, [UintK]);
      (r.error.None? <==> p.Ok?) && (p.Err? ==> r.conn == c)
    ensures var p := ParseAll(data, [UintK]);
      p.Ok? ==> r.conn == Store(c, a, SurfaceObj(c.objs[a].surface.(frameCallback := p.value[0].u)))
  {
    match ParseAll(data, [UintK])
    case Err(e) => Short(c, e)
    case Ok(vs) => Reply(Store(c, a, SurfaceObj(c.objs[a].surface.(frameCallback := vs[0].u))), [], None)
  }

  /** set_input_region (4): id 0 clears the pending region; otherwise the id must name a
      wl_region. */
  function SetInputRegion(c: Conn, a: int, data: seq<int>): (r: Reply)
    requires Valid(c) && IsSurfaceAt(c, a) && AllBytes(data)
    ensures Valid(r.conn) && r.out == []
    ensures r.error.Some? ==> r.conn == c
    ensures var p := ParseAll(data, [UintK]);
      r.error.None? <==> p.Ok? && (p.value[0].u == 0 || (p.value[0].u in c.ids && c.objs[c.ids[p.value[0].u]].RegionObj?))
    ensures var p := ParseAll(data, [UintK]);
      r.error.None? ==>
        r.conn == Store(c, a, SurfaceObj(c.objs[a].surface.(
          pendingInput := if p.value[0].u == 0 then None else Some(c.ids[p.value[0].u]))))
  {
    match ParseAll(data, [UintK])
    case Err(e) => Short(c, e)
    case Ok(vs) =>
      var s := c.objs[a].surface;
      var id := vs[0].u;
      if id == 0 then Reply(Store(c, a, SurfaceObj(s.(pendingInput := None))), [], None)
      else if id in c.ids && c.objs[c.ids[id]].RegionObj? then
        Reply(Store(c, a, SurfaceObj(s.(pendingInput := Some(c.ids[id])))), [], None)
      else Reply(c, [], Some(Rejected("unknown region reference")))
  }

  /** The output-enter event a first commit sends, naming the output `FindOutput`
      picks. */
  function EnterOutput(s: WlSurface, output: int): Out
  {
    Msg(s.id, 0, [UintF(output)])
  }

  /** commit (6).  The pending input region becomes the committed one.  A pending buffer
      is read into the cache and released; with no buffer, an attach of nothing drops
      the cache.  The pending state is then cleared, but the damage list is not.  The
      first commit also sends enter for an output, and with no output bound that is a
      nil dereference: a panic. */
  function Commit(c: Conn, a: int): (r: Reply)
    requires Valid(c) && IsSurfaceAt(c, a)
    ensures Valid(r.conn) && IsSurfaceAt(r.conn, a) && r.conn == Store(c, a, r.conn.objs[a])
    ensures var s := c.objs[a].surface; var t := r.conn.objs[a].surface;
      t.committedInput == s.pendingInput && t.pendingInput == s.pendingInput
      && t.damage == s.damage && t.id == s.id && t.children == s.children && t.frameCallback == s.frameCallback
    ensures var s := c.objs[a].surface;
      r.error.Some? <==> (s.pending.Some? && ReadBuffer(c, s).Err?) || (!s.first && FindOutput(c).None?)
    ensures r.error.Some? ==> r.error == Some(Fault)
    ensures var s := c.objs[a].surface; var t := r.conn.objs[a].surface;
      r.error.None? ==> !t.attached && t.pending.None? && t.first
    ensures var s := c.objs[a].surface; var t := r.conn.objs[a].surface;
      r.error.None? && s.pending.Some? ==> t.cached == ReadBuffer(c, s).value && |r.out| >= 1 && r.out[0] == Released(s.pending.value)
    ensures var s := c.objs[a].surface; var t := r.conn.objs[a].surface;
      r.error.None? && s.pending.None? ==> t.cached == (if s.attached then None else s.cached)
    ensures var s := c.objs[a].surface;
      r.error.None? ==>
        if s.first then forall i :: 0 <= i < |r.out| ==> !r.out[i].Send?
        else |r.out| >= 1 && r.out[|r.out| - 1] == EnterOutput(s, FindOutput(c).value)
  {
    var s := c.objs[a].surface;
    var s1 := s.(committedInput := s.pendingInput);
    var read := if s.pending.Some? then ReadBuffer(c, s) else Ok(s.cached);
    if read.Err? then Reply(Store(c, a, SurfaceObj(s1)), [], Some(Fault))
    else
      var released := if s.pending.Some? then [Released(s.pending.value)] else [];
      var cached := if s.pending.Some? then read.value else if s.attached then None else s.cached;
      var s2 := s1.(cached := cached, attached := false, pending := None, first := true);
      var c2 := Store(c, a, SurfaceObj(s2));
      if s.first then Reply(c2, released, None)
      else
        match FindOutput(c)
        case None => Reply(c2, released, Some(Fault))
        case Some(o) => Reply(c2, released + [EnterOutput(s, o)], None)
  }

  /** `Surface.HandleMessage` for the surface at `a`.  Opcodes 5, 8, 9 and 10 are
      accepted and ignored; 7 (set_buffer_transform) has no case and is an error.
      Whatever the request, a surface never loses damage it has recorded. */
  function HandleSurface(c: Conn, a: int, opcode: int, data: seq<int>): (r: Reply)
    requires Valid(c) && IsSurfaceAt(c, a) && AllBytes(data)
    ensures Valid(r.conn)
    ensures opcode == 0 ==> r == Reply(Destroy(c, c.objs[a].surface.id), [], None)
    ensures opcode == 1 ==> r == Attach(c, a, data)
    ensures opcode == 2 ==> r == Damage(c, a, data)
    ensures opcode == 3 ==> r == Frame(c, a, data)
    ensures opcode == 4 ==> r == SetInputRegion(c, a, data)
    ensures opcode == 6 ==> r == Commit(c, a)
    ensures opcode in {5, 8, 9, 10} ==> r == Reply(c, [], None)
    ensures opcode !in {0, 1, 2, 3, 4, 5, 6, 8, 9, 10} ==> r == Unknown(c, opcode)
    ensures IsSurfaceAt(r.conn, a) && c.objs[a].surface.damage <= r.conn.objs[a].surface.damage
  {
    if opcode == 0 then Reply(Destroy(c, c.objs[a].surface.id), [], None)
    else if opcode == 1 then Attach(c, a, data)
    else if opcode == 2 then Damage(c, a, data)
    else if opcode == 3 then Frame(c, a, data)
    else if opcode == 4 then SetInputRegion(c, a, data)
    else if opcode == 6 then Commit(c, a)
    else if opcode in {5, 8, 9, 10} then Reply(c, [], None)
    else Unknown(c, opcode)
  }

  // ---------------------------------------------------------------------
  // Properties

  /** The output-enter event goes out on the first successful commit only: a second
      commit sends no event at all. */
  lemma EnterSentOnce(c: Conn, a: int)
    requires Valid(c) && IsSurfaceAt(c, a)
    requires Commit(c, a).error.None?
    ensures var r2 := Commit(Commit(c, a).conn, a);
      forall i :: 0 <= i < |r2.out| ==> !r2.out[i].Send?
  {
  }

  /** Attaching nothing and committing drops the cached image. */
  lemma AttachNothingClears(c: Conn, a: int, x: int, y: int)
    requires Valid(c) && IsSurfaceAt(c, a) && IsI32(x) && IsI32(y)
    requires c.objs[a].surface.first
    ensures AllBytes(LE32(0) + LE32(Wrap32(x)) + LE32(Wrap32(y)))
    ensures var r1 := Attach(c, a, LE32(0) + LE32(Wrap32(x)) + LE32(Wrap32(y)));
      r1.error.None? && IsSurfaceAt(r1.conn, a)
      && var r2 := Commit(r1.conn, a);
      r2.error.None? && r2.conn.objs[a].surface.cached.None?
  {
    var fs := [UintF(0), IntF(x), IntF(y)];
    ParseRoundTrip(fs, []);
    assert EncodeAll(fs) + [] == LE32(0) + LE32(Wrap32(x)) + LE32(Wrap32(y)) by {
      assert EncodeAll(fs[2..]) == LE32(Wrap32(y)) + EncodeAll(fs[3..]);
      assert EncodeAll(fs[1..]) == LE32(Wrap32(x)) + EncodeAll(fs[2..]);
    }
    assert KindsOf(fs) == [UintK, IntK, IntK] by {
      assert KindsOf(fs[2..]) == [IntK] + KindsOf(fs[3..]);
      assert KindsOf(fs[1..]) == [IntK] + KindsOf(fs[2..]);
    }
    assert DecodedAll(fs)[0] == UintV(0);
  }

  /** A fresh cache holds exactly the first height x stride bytes of the buffer. */
  lemma FreshCacheCopiesBuffer(c: Conn, s: WlSurface)
    requires Valid(c) && Readable(c, s) && s.cached.None? && ReadBuffer(c, s).Ok?
    ensures var b := c.objs[s.pending.value].buffer; var data := c.objs[b.pool].pool.data;
      var img := ReadBuffer(c, s).value.value;
      |img.pix| == Bounds(b).Dy() * b.stride
      && forall k :: 0 <= k < |img.pix| ==> img.pix[k] == data[b.offset + k]
  {
  }
}
