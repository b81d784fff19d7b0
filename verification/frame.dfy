/** wayland/conn.go `ReadPacket`: an 8-byte header (object id, opcode, total
    length) followed by a body of length - 8 bytes.  The two socket reads are
    inputs; a read that asks the caller to start over is reported as `Retry`. */
module Frame {
  import opened Wrappers
  import opened Ints
  import opened Wire

  /** `WaylandMessage`.  `length` is the body length, already reduced by 8 in uint16. */
  datatype WaylandMessage = WaylandMessage(address: int, opcode: int, length: int, data: seq<int>)

  /** What one `RecvMsg` returned: bytes read (n = their count), -1, or an error; a
      transient error is one whose text says "resource temporarily unavailable". */
  datatype Recv = Received(bytes: seq<int>) | Again | RecvError(transient: bool)

  datatype Framed = Packet(msg: WaylandMessage) | Retry | Failed(error: Error)

  /** The header fields; the length subtraction wraps in uint16. */
  function DecodeHeader(p: seq<int>): (m: WaylandMessage)
    requires |p| == 8 && AllBytes(p)
    ensures m.address == U32Of(p[..4]) && m.opcode == U16Of(p[4..6])
    ensures U16Of(p[6..8]) >= 8 ==> m.length == U16Of(p[6..8]) - 8
    ensures U16Of(p[6..8]) < 8 ==> m.length == U16Of(p[6..8]) - 8 + U16
    ensures m.data == []
  {
    WaylandMessage(U32Of(p[..4]), U16Of(p[4..6]), Wrap16(U16Of(p[6..8]) - 8), [])
  }

  /** `ReadPacket` given the header read and, when one is made, the body read. */
  function ReadPacket(header: Recv, body: Recv): (r: Framed)
    ensures header.RecvError? ==> r == Failed(ReadFailed(header.transient))
    ensures header.Again? || (header.Received? && |header.bytes| != 8) ==> r == Retry
    ensures r.Packet? ==> header.Received? && |header.bytes| == 8 && IsU16(r.msg.length)
    ensures r.Packet? ==> |r.msg.data| == r.msg.length
    ensures r.Packet? && r.msg.length > 0 ==> body == Received(r.msg.data)
  {
    match header
    case RecvError(t) => Failed(ReadFailed(t))
    case Again => Retry
    case Received(p) =>
      if |p| != 8 || !AllBytes(p) then Retry
      else
        var m := DecodeHeader(p);
        if m.length > 0 then
          match body
          case RecvError(t) => Failed(ReadFailed(t))
          case Again => Retry
          case Received(b) =>
            if |b| != m.length then Failed(ShortBody(m.length, |b|))
            else Packet(m.(data := b))
        else Packet(m)
  }

  /** Reading back what `Build` wrote recovers the id, the opcode and the body, as long
      as the total length fits the 16-bit length field. */
  lemma BuildReadBack(msg: Message)
    requires ValidMessage(msg) && 8 + |EncodeAll(msg.fields)| < U16
    ensures var b := Build(msg);
      ReadPacket(Received(b[..8]), Received(b[8..]))
        == Packet(WaylandMessage(msg.id, msg.opcode, |b| - 8, b[8..]))
  {
    var b := Build(msg);
    var h := b[..8];
    assert h[..4] == b[..4] && h[4..6] == b[4..6] && h[6..8] == b[6..8];
    LE32RoundTrip(msg.id);
    LE16RoundTrip(msg.opcode);
    LE16RoundTrip(8 + |EncodeAll(msg.fields)|);
    assert Wrap16(8 + |EncodeAll(msg.fields)|) == |b|;
    assert AllBytes(h);
  }

  /** A header claiming fewer than 8 bytes wraps to a body length of at least 65528. */
  lemma ShortLengthWraps(p: seq<int>)
    requires |p| == 8 && AllBytes(p) && U16Of(p[6..8]) < 8
    ensures DecodeHeader(p).length >= U16 - 8
  {
  }
}
