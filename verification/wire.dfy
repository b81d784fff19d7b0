/** wayland/packet.go: the field encoders, `ParsePacketStructure` and
    `PacketBulder.Build`.  Bytes are integers in 0..255; the uint16 and uint32
    conversions of the Go code are written out with Wrap16 and Wrap32. */
module Wire {
  import opened Wrappers
  import opened Ints

  /** One byte split off the low end of a natural number, and its inverse. */
  lemma SplitByte(u: int)
    requires u >= 0
    ensures u == u % 256 + 256 * (u / 256) && IsByte(u % 256) && u / 256 >= 0
  {
  }

  lemma JoinByte(b: int, x: int)
    requires IsByte(b) && x >= 0
    ensures (b + 256 * x) % 256 == b && (b + 256 * x) / 256 == x
  {
  }

  /** `binary.LittleEndian.AppendUint16`. */
  function LE16(u: int): (b: seq<int>)
    requires IsU16(u)
    ensures |b| == 2 && AllBytes(b)
  {
    [u % 256, u / 256]
  }

  /** `binary.LittleEndian.AppendUint32`: the low byte first. */
  function LE32(u: int): (b: seq<int>)
    requires IsU32(u)
    ensures |b| == 4 && AllBytes(b)
  {
    var r1 := u / 256;
    var r2 := r1 / 256;
    [u % 256, r1 % 256, r2 % 256, r2 / 256]
  }

  /** `binary.LittleEndian.AppendUint64`. */
  function LE64(u: int): (b: seq<int>)
    requires 0 <= u < U64
    ensures |b| == 8 && AllBytes(b)
  {
    LE32(u % U32) + LE32(u / U32)
  }

  /** `binary.LittleEndian.Uint16`. */
  function U16Of(b: seq<int>): (u: int)
    requires |b| == 2 && AllBytes(b)
    ensures IsU16(u)
  {
    b[0] + 256 * b[1]
  }

  /** `binary.LittleEndian.Uint32`. */
  function U32Of(b: seq<int>): (u: int)
    requires |b| == 4 && AllBytes(b)
    ensures IsU32(u)
  {
    b[0] + 256 * (b[1] + 256 * (b[2] + 256 * b[3]))
  }

  lemma LE16RoundTrip(u: int)
    requires IsU16(u)
    ensures U16Of(LE16(u)) == u
  {
    SplitByte(u);
  }

  lemma LE32RoundTrip(u: int)
    requires IsU32(u)
    ensures U32Of(LE32(u)) == u
  {
    SplitByte(u);
    SplitByte(u / 256);
    SplitByte(u / 256 / 256);
  }

  lemma U16OfRoundTrip(b: seq<int>)
    requires |b| == 2 && AllBytes(b)
    ensures LE16(U16Of(b)) == b
  {
    JoinByte(b[0], b[1]);
  }

  lemma U32OfRoundTrip(b: seq<int>)
    requires |b| == 4 && AllBytes(b)
    ensures LE32(U32Of(b)) == b
  {
    var x2 := b[2] + 256 * b[3];
    var x1 := b[1] + 256 * x2;
    JoinByte(b[0], x1);
    JoinByte(b[1], x2);
    JoinByte(b[2], b[3]);
  }

  /** A field of an outgoing message, one case per `Field` implementation.  `FixedF`
      carries an integer: wl_fixed_t of an integer v is v * 256. */
  datatype Field =
    | UintF(u: int)
    | IntF(i: int)
    | FixedF(v: int)
    | StringF(s: seq<int>)
    | BytesF(b: seq<int>)
    | U16F(h: int)
    | U64F(w: int)

  predicate WellFormed(f: Field)
  {
    match f
    case UintF(u) => IsU32(u)
    case IntF(i) => IsI32(i)
    case FixedF(_) => true
    case StringF(s) => AllBytes(s)
    case BytesF(b) => AllBytes(b)
    case U16F(h) => IsU16(h)
    case U64F(w) => 0 <= w < U64
  }

  predicate AllWellFormed(fs: seq<Field>) { forall i :: 0 <= i < |fs| ==> WellFormed(fs[i]) }

  /** The zero padding that brings n up to a multiple of 4. */
  function Padding(n: nat): (p: nat)
    ensures p < 4 && (n + p) % 4 == 0
  {
    if n % 4 == 0 then 0 else 4 - n % 4
  }

  function Zeros(n: nat): (z: seq<int>)
    ensures |z| == n && AllBytes(z)
    ensures forall i :: 0 <= i < n ==> z[i] == 0
  {
    seq(n, _ => 0)
  }

  /** The bytes of a Go string literal; every literal of the program is ASCII. */
  function Ascii(s: string): (b: seq<int>)
    ensures |b| == |s| && AllBytes(b)
    ensures forall i :: 0 <= i < |s| ==> b[i] == (s[i] as int) % U8
  {
    seq(|s|, i requires 0 <= i < |s| => (s[i] as int) % U8)
  }

  /** `StringField.AppendToBuf`: length including the NUL, the bytes, the NUL, padding. */
  function EncodeString(s: seq<int>): (b: seq<int>)
    requires AllBytes(s)
    ensures AllBytes(b)
    ensures |b| == 4 + |s| + 1 + Padding(|s| + 1) && |b| % 4 == 0
    ensures b[..4] == LE32(Wrap32(|s| + 1)) && b[4..4 + |s|] == s
    ensures forall i :: 4 + |s| <= i < |b| ==> b[i] == 0
  {
    var b := LE32(Wrap32(|s| + 1)) + s + [0] + Zeros(Padding(|s| + 1));
    assert b[4..4 + |s|] == s;
    b
  }

  /** `AppendToBuf` of each field type. */
  function Encode(f: Field): (b: seq<int>)
    requires WellFormed(f)
    ensures AllBytes(b)
  {
    match f
    case UintF(u) => LE32(u)
    case IntF(i) => LE32(Wrap32(i))
    case FixedF(v) => LE32(Wrap32(v * 256))
    case StringF(s) => EncodeString(s)
    case BytesF(b) => b
    case U16F(h) => LE16(h)
    case U64F(w) => LE64(w)
  }

  function EncodeAll(fs: seq<Field>): (b: seq<int>)
    requires AllWellFormed(fs)
    ensures AllBytes(b)
    decreases |fs|
  {
    if |fs| == 0 then [] else Encode(fs[0]) + EncodeAll(fs[1..])
  }

  /** `WithU16Array`: a byte-length prefix, then each element as two bytes, unpadded. */
  function U16Array(arr: seq<int>): (fs: seq<Field>)
    requires forall i :: 0 <= i < |arr| ==> IsU16(arr[i])
    ensures |fs| == |arr| + 1 && fs[0] == UintF(Wrap32(2 * |arr|))
    ensures forall i :: 0 <= i < |arr| ==> fs[i + 1] == U16F(arr[i])
    ensures AllWellFormed(fs)
  {
    [UintF(Wrap32(|arr| * 2))] + seq(|arr|, i requires 0 <= i < |arr| => U16F(arr[i]))
  }

  /** `WithU32Array`. */
  function U32Array(arr: seq<int>): (fs: seq<Field>)
    requires forall i :: 0 <= i < |arr| ==> IsU32(arr[i])
    ensures |fs| == |arr| + 1 && fs[0] == UintF(Wrap32(4 * |arr|))
    ensures forall i :: 0 <= i < |arr| ==> fs[i + 1] == UintF(arr[i])
    ensures AllWellFormed(fs)
  {
    [UintF(Wrap32(|arr| * 4))] + seq(|arr|, i requires 0 <= i < |arr| => UintF(arr[i]))
  }

  /** `WithU64Array`: the prefix is converted through uint64 but appended as a 32-bit UintField. */
  function U64Array(arr: seq<int>): (fs: seq<Field>)
    requires forall i :: 0 <= i < |arr| ==> 0 <= arr[i] < U64
    ensures |fs| == |arr| + 1 && fs[0] == UintF(Wrap32(8 * |arr|))
    ensures forall i :: 0 <= i < |arr| ==> fs[i + 1] == U64F(arr[i])
    ensures AllWellFormed(fs)
  {
    [UintF(Wrap32(|arr| * 8))] + seq(|arr|, i requires 0 <= i < |arr| => U64F(arr[i]))
  }

  lemma {:induction false} EncodeAllAppend(a: seq<Field>, b: seq<Field>)
    requires AllWellFormed(a) && AllWellFormed(b)
    ensures AllWellFormed(a + b) && EncodeAll(a + b) == EncodeAll(a) + EncodeAll(b)
    decreases |a|
  {
    assert AllWellFormed(a + b) by {
      forall i | 0 <= i < |a + b| ensures WellFormed((a + b)[i]) {
        if i >= |a| { assert (a + b)[i] == b[i - |a|]; }
      }
    }
    if |a| > 0 {
      assert (a + b)[1..] == a[1..] + b;
      assert (a + b)[0] == a[0];
      EncodeAllAppend(a[1..], b);
    } else {
      assert a + b == b;
    }
  }

  /** An array field's encoding is the byte length, then every element at its width. */
  lemma {:induction false} U32ArrayEncoding(arr: seq<int>)
    requires forall i :: 0 <= i < |arr| ==> IsU32(arr[i])
    ensures |EncodeAll(U32Array(arr))| == 4 + 4 * |arr|
    ensures EncodeAll(U32Array(arr))[..4] == LE32(Wrap32(4 * |arr|))
    ensures forall i :: 0 <= i < |arr| ==> EncodeAll(U32Array(arr))[4 + 4 * i..8 + 4 * i] == LE32(arr[i])
    decreases |arr|
  {
    var fs := U32Array(arr);
    var elems := seq(|arr|, i requires 0 <= i < |arr| => UintF(arr[i]));
    assert fs[1..] == elems;
    ElementsEncoding(arr);
    var e := EncodeAll(fs);
    assert e == LE32(Wrap32(4 * |arr|)) + EncodeAll(elems);
    forall i | 0 <= i < |arr| ensures e[4 + 4 * i..8 + 4 * i] == LE32(arr[i]) {
      assert e[4 + 4 * i..8 + 4 * i] == EncodeAll(elems)[4 * i..4 * i + 4];
    }
  }

  lemma {:induction false} ElementsEncoding(arr: seq<int>)
    requires forall i :: 0 <= i < |arr| ==> IsU32(arr[i])
    ensures var fs := seq(|arr|, i requires 0 <= i < |arr| => UintF(arr[i]));
      AllWellFormed(fs) && |EncodeAll(fs)| == 4 * |arr|
      && forall i :: 0 <= i < |arr| ==> EncodeAll(fs)[4 * i..4 * i + 4] == LE32(arr[i])
    decreases |arr|
  {
    var fs := seq(|arr|, i requires 0 <= i < |arr| => UintF(arr[i]));
    if |arr| > 0 {
      var tail := seq(|arr| - 1, i requires 0 <= i < |arr| - 1 => UintF(arr[1..][i]));
      assert fs[1..] == tail;
      ElementsEncoding(arr[1..]);
      var e := EncodeAll(fs);
      assert e == LE32(arr[0]) + EncodeAll(tail);
      forall i | 0 <= i < |arr| ensures e[4 * i..4 * i + 4] == LE32(arr[i]) {
        if i > 0 {
          assert e[4 * i..4 * i + 4] == EncodeAll(tail)[4 * (i - 1)..4 * (i - 1) + 4];
        }
      }
    }
  }

  // ---- Parsing ----

  /** The field types `ParsePacketStructure` accepts. */
  datatype Kind = UintK | IntK | StringK

  datatype Value = UintV(u: int) | IntV(i: int) | StringV(s: seq<int>)

  predicate HasKind(v: Value, k: Kind)
  {
    match k
    case UintK => v.UintV? && IsU32(v.u)
    case IntK => v.IntV? && IsI32(v.i)
    case StringK => v.StringV? && AllBytes(v.s)
  }

  /** `bytes.Trim(b, "\x00")`: drop NUL bytes at both ends (`TrimNulIsInfix` says which bytes remain). */
  function TrimNul(b: seq<int>): (r: seq<int>)
    ensures |r| <= |b|
    ensures r != [] ==> r[0] != 0 && r[|r| - 1] != 0
    ensures (forall i :: 0 <= i < |b| ==> b[i] != 0) ==> r == b
    ensures AllBytes(b) ==> AllBytes(r)
    decreases |b|
  {
    if |b| > 0 && b[0] == 0 then TrimNul(b[1..])
    else if |b| > 0 && b[|b| - 1] == 0 then TrimNul(b[..|b| - 1])
    else b
  }

  /** What `TrimNul` keeps: the infix of `b` left after cutting a run of NULs from the
      front and a run from the back.  With the NUL-free ends of its contract this fixes
      the result, so NULs inside the string are kept. */
  lemma {:induction false} TrimNulIsInfix(b: seq<int>) returns (i: int, j: int)
    ensures 0 <= i <= j <= |b| && TrimNul(b) == b[i..j]
    ensures forall k :: 0 <= k < i ==> b[k] == 0
    ensures forall k :: j <= k < |b| ==> b[k] == 0
    decreases |b|
  {
    if |b| > 0 && b[0] == 0 {
      var i1, j1 := TrimNulIsInfix(b[1..]);
      i, j := i1 + 1, j1 + 1;
      assert b[1..][i1..j1] == b[i..j];
    } else if |b| > 0 && b[|b| - 1] == 0 {
      i, j := TrimNulIsInfix(b[..|b| - 1]);
      assert b[..|b| - 1][i..j] == b[i..j];
    } else {
      i, j := 0, |b|;
    }
  }

  /** The padded length of a declared string length, computed in uint32 as Go does. */
  function PaddedLen(strlen: int): (ide: int)
    requires IsU32(strlen)
    ensures IsU32(ide)
  {
    if strlen % 4 == 0 then strlen else Wrap32(strlen + (4 - strlen % 4))
  }

  /** One field: the value and the rest of the buffer.  A short buffer is a ParseError;
      a string whose uint32 arithmetic wraps so that `buf[4:4+strlen]` is out of range
      is a runtime panic, a Fault. */
  function ParseOne(buf: seq<int>, k: Kind): (r: Result<(Value, seq<int>)>)
    requires AllBytes(buf)
    ensures r.Ok? ==> HasKind(r.value.0, k) && AllBytes(r.value.1)
    ensures r.Ok? ==> |r.value.1| <= |buf| - 4 && r.value.1 == buf[|buf| - |r.value.1|..]
    ensures |buf| < 4 ==> r == Err(ParseError)
  {
    if |buf| < 4 then Err(ParseError)
    else
      var w := U32Of(buf[..4]);
      match k
      case UintK => Ok((UintV(w), buf[4..]))
      case IntK => Ok((IntV(ToI32(w)), buf[4..]))
      case StringK =>
        var ide := PaddedLen(w);
        var ptr := Wrap32(4 + ide);
        var hi := Wrap32(4 + w);
        if |buf| >= ptr && !(4 <= hi <= |buf|) then Err(Fault)
        else if |buf| >= ptr then
          if ptr < 4 then Err(Fault)
          else Ok((StringV(TrimNul(buf[4..hi])), buf[ptr..]))
        else Err(ParseError)
  }

  /** The result of `ParsePacketStructure`: the fields decoded before any failure. */
  datatype Parsed = Parsed(values: seq<Value>, error: Option<Error>)

  predicate Matches(vs: seq<Value>, ks: seq<Kind>)
  {
    |vs| <= |ks| && forall i :: 0 <= i < |vs| ==> HasKind(vs[i], ks[i])
  }

  /** `ParsePacketStructure`: decode fields left to right, stopping at the first failure. */
  function Parse(buf: seq<int>, ks: seq<Kind>): (r: Parsed)
    requires AllBytes(buf)
    ensures Matches(r.values, ks)
    ensures r.error.None? <==> |r.values| == |ks|
    decreases |ks|
  {
    if |ks| == 0 then Parsed([], None)
    else
      match ParseOne(buf, ks[0])
      case Err(e) => Parsed([], Some(e))
      case Ok((v, rest)) =>
        var tail := Parse(rest, ks[1..]);
        Parsed([v] + tail.values, tail.error)
  }

  /** The handlers' usual pattern: any failure aborts the request. */
  function ParseAll(buf: seq<int>, ks: seq<Kind>): (r: Result<seq<Value>>)
    requires AllBytes(buf)
    ensures r.Ok? ==> |r.value| == |ks| && Matches(r.value, ks)
    ensures r.Ok? <==> Parse(buf, ks).error.None?
  {
    var p := Parse(buf, ks);
    if p.error.Some? then Err(p.error.value) else Ok(p.values)
  }

  /** Parsing stops at a short buffer: everything decoded before keeps its value. */
  lemma {:induction false} ParseStopsAtShortBuffer(buf: seq<int>, ks: seq<Kind>, n: nat)
    requires AllBytes(buf) && n < |ks| && |buf| == 4 * n
    requires forall i :: 0 <= i < n ==> ks[i] != StringK
    ensures |Parse(buf, ks).values| == n && Parse(buf, ks).error == Some(ParseError)
    decreases n
  {
    if n > 0 {
      ParseStopsAtShortBuffer(buf[4..], ks[1..], n - 1);
    }
  }

  function KindOf(f: Field): Kind
  {
    match f
    case IntF(_) => IntK
    case StringF(_) => StringK
    case _ => UintK
  }

  /** What parsing an encoded field yields back. */
  function Decoded(f: Field): Value
  {
    match f
    case UintF(u) => UintV(u)
    case IntF(i) => IntV(i)
    case StringF(s) => StringV(TrimNul(s))
    case _ => UintV(0)
  }

  /** The fields `ParsePacketStructure` can read back: uint, int, and strings short
      enough that no uint32 arithmetic wraps. */
  predicate Parseable(f: Field)
  {
    WellFormed(f) && (f.UintF? || f.IntF? || (f.StringF? && |f.s| + 8 < U32))
  }

  lemma WordRoundTrip(u: int, rest: seq<int>)
    requires IsU32(u) && AllBytes(rest)
    ensures var b := LE32(u) + rest; |b| >= 4 && AllBytes(b) && U32Of(b[..4]) == u && b[4..] == rest
  {
    var b := LE32(u) + rest;
    assert b[..4] == LE32(u);
    LE32RoundTrip(u);
    assert b[4..] == rest;
  }

  lemma UintRoundTrip(u: int, rest: seq<int>)
    requires IsU32(u) && AllBytes(rest)
    ensures ParseOne(Encode(UintF(u)) + rest, UintK) == Ok((UintV(u), rest))
  {
    WordRoundTrip(u, rest);
  }

  lemma IntRoundTrip(i: int, rest: seq<int>)
    requires IsI32(i) && AllBytes(rest)
    ensures ParseOne(Encode(IntF(i)) + rest, IntK) == Ok((IntV(i), rest))
  {
    WordRoundTrip(Wrap32(i), rest);
    I32RoundTrip(i);
  }

  lemma PaddedLenNoWrap(w: int)
    requires 0 <= w && w + 7 < U32
    ensures PaddedLen(w) == w + Padding(w)
  {
    assert w % 4 != 0 ==> Wrap32(w + (4 - w % 4)) == w + (4 - w % 4);
  }

  /** The string branch of `ParsePacketStructure` when no uint32 arithmetic wraps. */
  lemma ParseStringNoWrap(buf: seq<int>, w: int)
    requires AllBytes(buf) && |buf| >= 4 && U32Of(buf[..4]) == w
    requires 0 <= w && w + 7 < U32 && |buf| >= 4 + PaddedLen(w)
    ensures ParseOne(buf, StringK) == Ok((StringV(TrimNul(buf[4..4 + w])), buf[4 + PaddedLen(w)..]))
  {
    PaddedLenNoWrap(w);
    assert Wrap32(4 + w) == 4 + w;
    assert Wrap32(4 + PaddedLen(w)) == 4 + PaddedLen(w);
  }

  /** A string comes back with NUL bytes trimmed from its ends, and parsing consumes
      exactly its padded encoding. */
  lemma {:induction false} StringFieldRoundTrip(s: seq<int>, rest: seq<int>)
    requires AllBytes(s) && AllBytes(rest) && |s| + 8 < U32
    ensures ParseOne(EncodeString(s) + rest, StringK) == Ok((StringV(TrimNul(s)), rest))
  {
    var e := EncodeString(s);
    var b := e + rest;
    var w := |s| + 1;
    assert Wrap32(w) == w;
    assert b[..4] == LE32(w);
    LE32RoundTrip(w);
    PaddedLenNoWrap(w);
    ParseStringNoWrap(b, w);
    assert b[4..4 + w] == s + [0] by {
      assert b[4..4 + |s|] == e[4..4 + |s|];
    }
    TrimTrailingNul(s);
    assert b[|e|..] == rest;
  }

  lemma {:induction false} TrimTrailingNul(s: seq<int>)
    ensures TrimNul(s + [0]) == TrimNul(s)
    decreases |s|
  {
    var t := s + [0];
    if |s| > 0 && s[0] == 0 {
      assert t[1..] == s[1..] + [0];
      TrimTrailingNul(s[1..]);
    } else if |s| > 0 {
      assert t[..|t| - 1] == s;
    } else {
      assert t == [0];
      assert t[1..] == [];
    }
  }

  /** Encoding a field and parsing it with its kind returns its value and consumes
      exactly its encoding. */
  lemma FieldRoundTrip(f: Field, rest: seq<int>)
    requires Parseable(f) && AllBytes(rest)
    ensures ParseOne(Encode(f) + rest, KindOf(f)) == Ok((Decoded(f), rest))
  {
    match f
    case UintF(u) => UintRoundTrip(u, rest);
    case IntF(i) => IntRoundTrip(i, rest);
    case StringF(s) => StringFieldRoundTrip(s, rest);
  }

  /** A string without NUL bytes survives the round trip unchanged. */
  lemma StringRoundTrip(s: seq<int>, rest: seq<int>)
    requires AllBytes(s) && AllBytes(rest) && |s| + 8 < U32
    requires forall i :: 0 <= i < |s| ==> s[i] != 0
    ensures ParseOne(EncodeString(s) + rest, StringK) == Ok((StringV(s), rest))
  {
    StringFieldRoundTrip(s, rest);
  }

  /** A declared string length of 2^32 - 4 or more wraps `4 + strlen` below 4: a panic. */
  lemma HugeStringLengthFaults(buf: seq<int>)
    requires AllBytes(buf) && |buf| >= 4 && U32Of(buf[..4]) >= U32 - 4
    ensures ParseOne(buf, StringK) == Err(Fault)
  {
  }

  function KindsOf(fs: seq<Field>): (ks: seq<Kind>)
    ensures |ks| == |fs|
    decreases |fs|
  {
    if |fs| == 0 then [] else [KindOf(fs[0])] + KindsOf(fs[1..])
  }

  function DecodedAll(fs: seq<Field>): (vs: seq<Value>)
    ensures |vs| == |fs|
    decreases |fs|
  {
    if |fs| == 0 then [] else [Decoded(fs[0])] + DecodedAll(fs[1..])
  }

  /** Parsing the encoding of a field list returns the decoded values, in order,
      whatever follows it. */
  lemma {:induction false} ParseRoundTrip(fs: seq<Field>, rest: seq<int>)
    requires forall i :: 0 <= i < |fs| ==> Parseable(fs[i])
    requires AllBytes(rest)
    ensures AllWellFormed(fs)
    ensures Parse(EncodeAll(fs) + rest, KindsOf(fs)) == Parsed(DecodedAll(fs), None)
    decreases |fs|
  {
    assert AllWellFormed(fs);
    if |fs| > 0 {
      assert AllWellFormed(fs[1..]);
      var tail := EncodeAll(fs[1..]) + rest;
      assert EncodeAll(fs) + rest == Encode(fs[0]) + tail;
      FieldRoundTrip(fs[0], tail);
      ParseRoundTrip(fs[1..], rest);
      assert KindsOf(fs)[1..] == KindsOf(fs[1..]);
    }
  }

  // ---- Building ----

  /** A `PacketBulder`: object id, opcode and the fields in insertion order. */
  datatype Message = Message(id: int, opcode: int, fields: seq<Field>)

  predicate ValidMessage(m: Message)
  {
    IsU32(m.id) && IsU16(m.opcode) && AllWellFormed(m.fields)
  }

  /** `Build`: id, opcode, then the total length truncated to 16 bits, then the body. */
  function Build(m: Message): (b: seq<int>)
    requires ValidMessage(m)
    ensures AllBytes(b) && |b| == 8 + |EncodeAll(m.fields)|
    ensures b[..4] == LE32(m.id) && b[4..6] == LE16(m.opcode)
    ensures b[6..8] == LE16(Wrap16(8 + |EncodeAll(m.fields)|)) && b[8..] == EncodeAll(m.fields)
  {
    var body := EncodeAll(m.fields);
    LE32(m.id) + LE16(m.opcode) + LE16(Wrap16(8 + |body|)) + body
  }

  /** The one-word body: `LE32(u)` parses back to `u` as a single uint. */
  lemma OneWord(u: int)
    requires IsU32(u)
    ensures AllBytes(LE32(u)) && ParseAll(LE32(u), [UintK]) == Ok([UintV(u)])
  {
    WordRoundTrip(u, []);
    assert LE32(u) + [] == LE32(u);
    assert Parse(LE32(u), [UintK]) == Parsed([UintV(u)], None);
  }
}
