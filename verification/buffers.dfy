/** wayland/buffer.go, wayland/shm.go and wayland/shm_pool.go: shared-memory pools and
    the wl_buffers carved out of them.

    The memory behind a pool is not modelled as a mapping of a file: what `mmap` and
    `mremap` produce is passed in, `None` standing for the call failing. */
module Buffers {
  import opened Wrappers
  import opened Ints
  import opened Wire
  import opened Registry
  import opened Protocol
  import Queue
  import Pixels

  /** `Buffer.Destroy`: marks the buffer destroyed and sends nothing. */
  function MarkDestroyed(b: WlBuffer): (r: WlBuffer)
    ensures r.destroyed
    ensures r.(destroyed := b.destroyed) == b
  {
    b.(destroyed := true)
  }

  /** A second `Destroy` changes nothing. */
  lemma MarkDestroyedIdempotent(b: WlBuffer)
    ensures MarkDestroyed(MarkDestroyed(b)) == MarkDestroyed(b)
  {
  }

  /** `Buffer.HandleMessage`: destroy (0) drops the buffer's id. */
  function HandleBuffer(c: Conn, a: int, opcode: int): (r: Reply)
    requires Valid(c) && a in c.objs && c.objs[a].BufferObj?
    ensures Valid(r.conn) && r.out == []
    ensures opcode == 0 ==> r.error.None? && Get(r.conn, c.objs[a].buffer.id).Err?
    ensures opcode == 0 ==> forall id :: id != c.objs[a].buffer.id ==> Get(r.conn, id) == Get(c, id)
    ensures opcode != 0 ==> r == Unknown(c, opcode)
  {
    if opcode == 0 then Reply(Destroy(c, c.objs[a].buffer.id), [], None) else Unknown(c, opcode)
  }

  // ---------------------------------------------------------------------
  // wl_shm

  /** `SHM.HandleMessage`.  create_pool (0) parses (new_id, size), takes the oldest
      queued descriptor and maps it; `mapped` is the outcome of that `mmap`.  A
      descriptor taken for a mapping that fails is not given back. */
  function HandleShm(c: Conn, opcode: int, data: seq<int>, mapped: Option<seq<int>>): (r: Reply)
    requires Valid(c) && AllBytes(data)
    ensures Valid(r.conn) && r.out == []
    ensures opcode != 0 ==> r == Unknown(c, opcode)
    ensures opcode == 0 && ParseAll(data, [UintK, UintK]).Err? ==> r.conn == c && r.error.Some?
    ensures opcode == 0 && ParseAll(data, [UintK, UintK]).Ok? && Queue.IsEmpty(c.fds) ==>
      r == Reply(c, [], Some(NoFd))
    ensures opcode == 0 && ParseAll(data, [UintK, UintK]).Ok? && !Queue.IsEmpty(c.fds) && mapped.None? ==>
      r == Reply(c.(fds := Queue.Pop(c.fds).1), [], Some(MapFailed))
    ensures var p := ParseAll(data, [UintK, UintK]);
      opcode == 0 && p.Ok? && !Queue.IsEmpty(c.fds) && mapped.Some? ==>
        var fd := c.fds.elements[0];
        r.error.None?
        && Get(r.conn, p.value[0].u) == Ok(PoolObj(ShmPool(p.value[0].u, fd, p.value[1].u, mapped.value)))
        && r.conn.fds.elements == c.fds.elements[1..]
        && forall k :: k != p.value[0].u ==> Get(r.conn, k) == Get(c, k)
  {
    if opcode != 0 then Unknown(c, opcode)
    else
      match ParseAll(data, [UintK, UintK])
      case Err(e) => Short(c, e)
      case Ok(vs) =>
        var (fd, rest) := Queue.Pop(c.fds);
        if fd.None? then Reply(c, [], Some(NoFd))
        else
          var c1 := c.(fds := rest);
          if mapped.None? then Reply(c1, [], Some(MapFailed))
          else
            var id := vs[0].u;
            Reply(New(c1, id, PoolObj(ShmPool(id, fd.value, vs[1].u, mapped.value))).0, [], None)
  }

  /** Two create_pool requests in a row take the two oldest descriptors, in the order
      they arrived. */
  lemma PoolsTakeDescriptorsInOrder(c: Conn, d1: seq<int>, d2: seq<int>, m1: seq<int>, m2: seq<int>)
    requires Valid(c) && AllBytes(d1) && AllBytes(d2) && |c.fds.elements| >= 2
    requires ParseAll(d1, [UintK, UintK]).Ok? && ParseAll(d2, [UintK, UintK]).Ok?
    requires ParseAll(d1, [UintK, UintK]).value[0].u != ParseAll(d2, [UintK, UintK]).value[0].u
    ensures var r1 := HandleShm(c, 0, d1, Some(m1));
      var r2 := HandleShm(r1.conn, 0, d2, Some(m2));
      var id1 := ParseAll(d1, [UintK, UintK]).value[0].u;
      var id2 := ParseAll(d2, [UintK, UintK]).value[0].u;
      Get(r2.conn, id1).Ok? && Get(r2.conn, id1).value.PoolObj? && Get(r2.conn, id1).value.pool.fd == c.fds.elements[0]
      && Get(r2.conn, id2).Ok? && Get(r2.conn, id2).value.PoolObj? && Get(r2.conn, id2).value.pool.fd == c.fds.elements[1]
  {
    var r1 := HandleShm(c, 0, d1, Some(m1));
    assert r1.conn.fds.elements == c.fds.elements[1..];
  }

  // ---------------------------------------------------------------------
  // wl_shm_pool

  /** `&Buffer{...}` as create_buffer builds it: the parsed geometry verbatim, no check
      against the pool's size, and the format left at its zero value, ARGB. */
  function NewBuffer(pool: int, vs: seq<Value>): (b: WlBuffer)
    requires |vs| == 5 && Matches(vs, [UintK, UintK, UintK, UintK, UintK])
    ensures b.id == vs[0].u && b.pool == pool && b.offset == vs[1].u && b.width == vs[2].u
    ensures b.height == vs[3].u && b.stride == vs[4].u
    ensures b.format == Pixels.FormatARGB && !b.destroyed
  {
    WlBuffer(vs[0].u, pool, vs[2].u, vs[3].u, vs[4].u, vs[1].u, 0, false)
  }

  /** `SHMPool.HandleMessage` for the pool at `a`: create_buffer (0), destroy (1) and
      resize (2).  `remapped` is the outcome of the `mremap` a resize asks for; the new
      size is stored before that call, so it stays even when the call fails. */
  function HandlePool(c: Conn, a: int, opcode: int, data: seq<int>, remapped: Option<seq<int>>): (r: Reply)
    requires Valid(c) && a in c.objs && c.objs[a].PoolObj? && AllBytes(data)
    ensures Valid(r.conn) && r.out == []
    ensures opcode !in {0, 1, 2} ==> r == Unknown(c, opcode)
    ensures opcode == 0 ==> (r.error.None? <==> ParseAll(data, [UintK, UintK, UintK, UintK, UintK]).Ok?)
    ensures opcode in {0, 2} && r.error == Some(ParseError) ==> r.conn == c
    ensures var p := ParseAll(data, [UintK, UintK, UintK, UintK, UintK]);
      opcode == 0 && p.Ok? ==>
        Get(r.conn, p.value[0].u) == Ok(BufferObj(NewBuffer(a, p.value)))
        && forall k :: k != p.value[0].u ==> Get(r.conn, k) == Get(c, k)
    ensures opcode == 1 ==> r.error.None? && Get(r.conn, c.objs[a].pool.id).Err?
    ensures opcode == 1 ==> forall k :: k != c.objs[a].pool.id ==> Get(r.conn, k) == Get(c, k)
    ensures opcode == 2 ==> (r.error.None? <==> ParseAll(data, [UintK]).Ok? && remapped.Some?)
    ensures var p := ParseAll(data, [UintK]); var pool := c.objs[a].pool;
      opcode == 2 && p.Ok? ==>
        r.conn == Store(c, a, PoolObj(pool.(size := p.value[0].u, data := if remapped.Some? then remapped.value else pool.data)))
  {
    var pool := c.objs[a].pool;
    if opcode == 0 then
      match ParseAll(data, [UintK, UintK, UintK, UintK, UintK])
      case Err(e) => Short(c, e)
      case Ok(vs) => Reply(New(c, vs[0].u, BufferObj(NewBuffer(a, vs))).0, [], None)
    else if opcode == 1 then Reply(Destroy(c, pool.id), [], None)
    else if opcode == 2 then
      match ParseAll(data, [UintK])
      case Err(e) => Short(c, e)
      case Ok(vs) =>
        var sized := pool.(size := vs[0].u);
        if remapped.None? then Reply(Store(c, a, PoolObj(sized)), [], Some(RemapFailed))
        else Reply(Store(c, a, PoolObj(sized.(data := remapped.value))), [], None)
    else Unknown(c, opcode)
  }

  /** A resize whose remap fails is an error that still leaves the new size behind. */
  lemma FailedResizeKeepsSize(c: Conn, a: int, size: int)
    requires Valid(c) && a in c.objs && c.objs[a].PoolObj? && IsU32(size)
    ensures AllBytes(LE32(size))
    ensures var r := HandlePool(c, a, 2, LE32(size), None);
      r.error == Some(RemapFailed) && r.conn.objs[a].PoolObj? && r.conn.objs[a].pool.size == size
  {
    WordRoundTrip(size, []);
    assert LE32(size) + [] == LE32(size);
    assert Parse(LE32(size), [UintK]) == Parsed([UintV(size)], None);
  }
}
