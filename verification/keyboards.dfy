/** wayland/keyboard.go and wayland/pointer.go: the wl_keyboard and wl_pointer
    objects of a seat. */
module Keyboards {
  import opened Wrappers
  import opened Ints
  import opened Geometry
  import opened Events
  import opened Wire
  import opened Registry
  import opened Protocol
  import KeyboardModel

  /** `uint32(depressed)` bits of wl_keyboard.modifiers. */
  const ShiftMask := 0x1
  const ControlMask := 0x4

  /** The down keys in increasing order.  Go ranges over a map, whose order is
      unspecified; any fixed order is one the program could produce. */
  function Ascending(s: set<int>): (r: seq<int>)
    decreases |s|
  {
    if s == {} then [] else [Least(s)] + Ascending(s - {Least(s)})
  }

  /** `Ascending` lists every element of the set exactly once, strictly increasing. */
  lemma {:induction false} AscendingSorted(s: set<int>)
    ensures |Ascending(s)| == |s|
    ensures forall k :: k in Ascending(s) <==> k in s
    ensures forall i, j :: 0 <= i < j < |Ascending(s)| ==> Ascending(s)[i] < Ascending(s)[j]
    decreases |s|
  {
    if s != {} {
      var m := Least(s);
      var rest := Ascending(s - {m});
      AscendingSorted(s - {m});
      assert Ascending(s) == [m] + rest;
      forall k ensures k in Ascending(s) <==> k in s {
        if k in s && k != m { assert k in s - {m}; }
      }
      forall i, j | 0 <= i < j < |Ascending(s)| ensures Ascending(s)[i] < Ascending(s)[j] {
        assert Ascending(s)[j] == rest[j - 1];
        assert rest[j - 1] in s - {m};
        if i > 0 { assert Ascending(s)[i] == rest[i - 1]; }
      }
    }
  }

  /** `NewKeyboard`: registers the keyboard, then sends keymap(format 0, size 0) with
      descriptor 0 attached. */
  function NewKeyboard(c: Conn, id: int): (r: (Conn, int, seq<Out>))
    requires Valid(c)
    ensures Valid(r.0)
    ensures var k := WlKeyboard(id, KeyboardModel.NewKeyboardModel(), None);
      (r.0, r.1) == New(c, id, KeyboardObj(k))
    ensures r.2 == [SendWithFd(Message(id, 0, [UintF(0), UintF(0)]), 0)]
  {
    var k := WlKeyboard(id, KeyboardModel.NewKeyboardModel(), None);
    var (c1, a) := New(c, id, KeyboardObj(k));
    (c1, a, [SendWithFd(Message(id, 0, [UintF(0), UintF(0)]), 0)])
  }

  /** The depressed-modifier mask: shift gives 0x1, control 0x4, both 0x5. */
  function Depressed(kb: KeyboardModel.Keyboard): (m: int)
    ensures m in {0, ShiftMask, ControlMask, ShiftMask + ControlMask}
    ensures (m % 2 == 1) <==> KeyboardModel.IsDown(kb, KeyboardModel.KB_SHIFT)
    ensures (m >= ControlMask) <==> KeyboardModel.IsDown(kb, KeyboardModel.KB_CTRL)
  {
    (if KeyboardModel.IsDown(kb, KeyboardModel.KB_SHIFT) then ShiftMask else 0)
    + (if KeyboardModel.IsDown(kb, KeyboardModel.KB_CTRL) then ControlMask else 0)
  }

  /** `sendModifiers`: latched, locked and group are always 0. */
  function Modifiers(k: WlKeyboard, serial: int): (o: Out)
    ensures o.Send? && o.msg.id == k.id && o.msg.opcode == 4 && |o.msg.fields| == 5
    ensures o.msg.fields[0] == UintF(serial) && o.msg.fields[1] == UintF(Depressed(k.kb))
    ensures o.msg.fields[2..] == [UintF(0), UintF(0), UintF(0)]
  {
    Msg(k.id, 4, [UintF(serial), UintF(Depressed(k.kb)), UintF(0), UintF(0), UintF(0)])
  }

  /** The fields of wl_keyboard.enter: serial, surface, then the down keys preceded by
      their count. */
  function EnterFields(serial: int, surfaceId: int, keys: seq<int>): (fs: seq<Field>)
    ensures |fs| == 3 + |keys|
    ensures fs[..3] == [UintF(serial), UintF(surfaceId), UintF(Wrap32(|keys|))]
    ensures forall i :: 0 <= i < |keys| ==> fs[3 + i] == UintF(keys[i])
  {
    [UintF(serial), UintF(surfaceId), UintF(Wrap32(|keys|))] + seq(|keys|, i requires 0 <= i < |keys| => UintF(keys[i]))
  }

  /** The wire format wants an array's byte length before its elements; enter sends the
      element count instead, so any non-empty key array is announced 4 times too short. */
  lemma EnterPrefixIsCount(serial: int, surfaceId: int, keys: seq<int>)
    requires 0 < |keys| < 0x4000_0000
    requires forall i :: 0 <= i < |keys| ==> IsU32(keys[i])
    ensures EnterFields(serial, surfaceId, keys)[2..] != U32Array(keys)
    ensures EnterFields(serial, surfaceId, keys)[3..] == U32Array(keys)[1..]
  {
    var fs := EnterFields(serial, surfaceId, keys);
    assert fs[2..][0] == UintF(|keys|);
    assert U32Array(keys)[0] == UintF(4 * |keys|);
  }

  /** `Enter`: the keyboard's active surface becomes the wl_surface at `s`, then enter
      and modifiers go out with the same serial. */
  function Enter(c: Conn, ka: int, serial: int, s: int): (r: (Conn, seq<Out>))
    requires Valid(c) && ka in c.objs && c.objs[ka].KeyboardObj?
    ensures var k := c.objs[ka].keyboard;
      r.0 == Store(c, ka, KeyboardObj(k.(active := Some(s))))
    ensures var k := c.objs[ka].keyboard;
      r.1 == [Msg(k.id, 1, EnterFields(serial, SurfaceIdAt(c, s), Ascending(k.kb.state))), Modifiers(k, serial)]
  {
    var k := c.objs[ka].keyboard;
    var k1 := k.(active := Some(s));
    (Store(c, ka, KeyboardObj(k1)),
     [Msg(k.id, 1, EnterFields(serial, SurfaceIdAt(c, s), Ascending(k.kb.state))), Modifiers(k1, serial)])
  }

  /** `Leave`: sends leave only if a surface was ever entered, and keeps it as the
      active surface. */
  function Leave(c: Conn, ka: int, serial: int): (out: seq<Out>)
    requires Valid(c) && ka in c.objs && c.objs[ka].KeyboardObj?
    ensures var k := c.objs[ka].keyboard;
      k.active.None? <==> out == []
    ensures var k := c.objs[ka].keyboard;
      k.active.Some? ==> out == [Msg(k.id, 2, [UintF(serial), UintF(SurfaceIdAt(c, k.active.value))])]
  {
    var k := c.objs[ka].keyboard;
    if k.active.Some? then [Msg(k.id, 2, [UintF(serial), UintF(SurfaceIdAt(c, k.active.value))])] else []
  }

  /** `Keyboard.ProcessKeyboardEvent`: the down-key set always follows the event; key and
      modifiers are sent only once a surface has been entered. */
  function ProcessKey(c: Conn, ka: int, ev: KeyboardEvent, serial: int): (r: (Conn, seq<Out>))
    requires Valid(c) && ka in c.objs && c.objs[ka].KeyboardObj?
    ensures var k := c.objs[ka].keyboard;
      r.0 == Store(c, ka, KeyboardObj(k.(kb := KeyboardModel.ProcessKeyboardEvent(k.kb, ev))))
    ensures var k := c.objs[ka].keyboard;
      k.active.None? <==> r.1 == []
    ensures var k := c.objs[ka].keyboard;
      k.active.Some? ==> |r.1| == 2 && r.1[0] == Msg(k.id, 3, [UintF(serial), UintF(ev.time), UintF(ev.key), UintF(ev.state)])
                         && r.1[1] == Modifiers(k.(kb := KeyboardModel.ProcessKeyboardEvent(k.kb, ev)), serial)
  {
    var k := c.objs[ka].keyboard;
    var k1 := k.(kb := KeyboardModel.ProcessKeyboardEvent(k.kb, ev));
    var out := if k.active.Some? then
      [Msg(k.id, 3, [UintF(serial), UintF(ev.time), UintF(ev.key), UintF(ev.state)]), Modifiers(k1, serial)]
    else [];
    (Store(c, ka, KeyboardObj(k1)), out)
  }

  /** Releasing shift after pressing it leaves the modifier mask as it was before. */
  lemma ShiftPressRelease(kb: KeyboardModel.Keyboard, t: int)
    requires !KeyboardModel.IsDown(kb, KeyboardModel.KB_SHIFT)
    ensures var down := KeyboardModel.ProcessKeyboardEvent(kb, KeyboardEvent(t, KeyboardModel.KB_SHIFT, 1, 0));
      var up := KeyboardModel.ProcessKeyboardEvent(down, KeyboardEvent(t, KeyboardModel.KB_SHIFT, 0, 0));
      Depressed(down) == Depressed(kb) + ShiftMask && Depressed(up) == Depressed(kb)
  {
  }

  /** `Keyboard.HandleMessage`: release (0) drops the keyboard's id. */
  function HandleKeyboard(c: Conn, a: int, opcode: int): (r: Reply)
    requires Valid(c) && a in c.objs && c.objs[a].KeyboardObj?
    ensures Valid(r.conn) && r.out == []
    ensures opcode == 0 ==> r.error.None? && Get(r.conn, c.objs[a].keyboard.id).Err?
    ensures opcode == 0 ==> forall id :: id != c.objs[a].keyboard.id ==> Get(r.conn, id) == Get(c, id)
    ensures opcode != 0 ==> r == Unknown(c, opcode)
  {
    if opcode == 0 then Reply(Destroy(c, c.objs[a].keyboard.id), [], None) else Unknown(c, opcode)
  }

  // ---------------------------------------------------------------------
  // wl_pointer

  /** `Pointer.HandleMessage`: set_cursor (0) records the cursor surface and hotspot and
      ignores the serial; opcode 1 (release) does nothing. */
  function HandlePointer(c: Conn, a: int, opcode: int, data: seq<int>): (r: Reply)
    requires Valid(c) && a in c.objs && c.objs[a].PointerObj? && AllBytes(data)
    ensures Valid(r.conn) && r.out == []
    ensures opcode == 0 ==> (r.error.None? <==> ParseAll(data, [UintK, UintK, IntK, IntK]).Ok?)
    ensures opcode == 0 && r.error.Some? ==> r.conn == c
    ensures var p := ParseAll(data, [UintK, UintK, IntK, IntK]); var m := c.objs[a].pointer;
      opcode == 0 && p.Ok? ==>
        r.conn == Store(c, a, PointerObj(m.(surface := p.value[1].u, hotspot := Pt(p.value[2].i, p.value[3].i))))
    ensures opcode == 1 ==> r == Reply(c, [], None)
    ensures opcode !in {0, 1} ==> r == Unknown(c, opcode)
  {
    var m := c.objs[a].pointer;
    if opcode == 0 then
      match ParseAll(data, [UintK, UintK, IntK, IntK])
      case Err(e) => Short(c, e)
      case Ok(vs) => Reply(Store(c, a, PointerObj(m.(surface := vs[1].u, hotspot := Pt(vs[2].i, vs[3].i)))), [], None)
    else if opcode == 1 then Reply(c, [], None)
    else Unknown(c, opcode)
  }

  /** Whatever the serial in set_cursor, the recorded cursor is the same. */
  lemma SetCursorIgnoresSerial(c: Conn, a: int, s1: int, s2: int, rest: seq<int>)
    requires Valid(c) && a in c.objs && c.objs[a].PointerObj? && AllBytes(rest)
    requires IsU32(s1) && IsU32(s2)
    ensures AllBytes(LE32(s1) + rest) && AllBytes(LE32(s2) + rest)
    ensures HandlePointer(c, a, 0, LE32(s1) + rest) == HandlePointer(c, a, 0, LE32(s2) + rest)
  {
    var ks := [UintK, UintK, IntK, IntK];
    WordRoundTrip(s1, rest);
    WordRoundTrip(s2, rest);
    var t := Parse(rest, ks[1..]);
    assert Parse(LE32(s1) + rest, ks) == Parsed([UintV(s1)] + t.values, t.error);
    assert Parse(LE32(s2) + rest, ks) == Parsed([UintV(s2)] + t.values, t.error);
  }
}
