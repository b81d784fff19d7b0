/** wayland/output.go and wayland/viewporter.go: the single fixed wl_output and the
    wp_viewporter, which accepts nothing. */
module Outputs {
  import opened Wrappers
  import opened Ints
  import opened Wire
  import opened Registry
  import opened Protocol

  /** The advertised mode: 1024 by 1024 at 60 Hz (in mHz), flags current | preferred. */
  const Width := 1024
  const Height := 1024
  const Refresh := 60000
  const ModeFlags := 3

  /** The four events announcing the output, in order: geometry, mode, scale, done. */
  function Announcement(id: int): (out: seq<Out>)
    ensures |out| == 4
    ensures out[0] == Msg(id, 0, [UintF(0), UintF(0), UintF(Width), UintF(Height), UintF(0),
                                  StringF(Ascii("nyctal")), StringF(Ascii("none")), UintF(0)])
    ensures out[1] == Msg(id, 1, [UintF(ModeFlags), UintF(Width), UintF(Height), UintF(Refresh)])
    ensures out[2] == Msg(id, 3, [UintF(1)])
    ensures out[3] == Msg(id, 2, [])
  {
    [Msg(id, 0, GeometryFields), Msg(id, 1, ModeFields), Msg(id, 3, [UintF(1)]), Msg(id, 2, [])]
  }

  /** wl_output.geometry: position 0,0, the physical size, subpixel 0, make, model, transform 0. */
  const GeometryFields := [UintF(0), UintF(0), UintF(Width), UintF(Height), UintF(0),
                           StringF(Ascii("nyctal")), StringF(Ascii("none")), UintF(0)]

  /** wl_output.mode: flags, width, height, refresh. */
  const ModeFields := [UintF(ModeFlags), UintF(Width), UintF(Height), UintF(Refresh)]

  /** A client decoding the mode event with wl_output's argument types reads back the
      advertised flags, size and refresh rate, with no parse error. */
  lemma ModeReadsBack()
    ensures AllWellFormed(ModeFields)
    ensures ParseAll(EncodeAll(ModeFields), [UintK, UintK, UintK, UintK])
         == Ok([UintV(ModeFlags), UintV(Width), UintV(Height), UintV(Refresh)])
  {
    BodyReadsBack(ModeFields);
    Unfold4(UintF(ModeFlags), UintF(Width), UintF(Height), UintF(Refresh));
  }

  /** Likewise for the geometry event: the size reads back, and the make and model
      strings survive NUL trimming unchanged. */
  lemma GeometryReadsBack()
    ensures AllWellFormed(GeometryFields)
    ensures ParseAll(EncodeAll(GeometryFields), [UintK, UintK, UintK, UintK, UintK, StringK, StringK, UintK])
         == Ok([UintV(0), UintV(0), UintV(Width), UintV(Height), UintV(0),
                StringV(Ascii("nyctal")), StringV(Ascii("none")), UintV(0)])
  {
    NoNulKept("nyctal");
    NoNulKept("none");
    BodyReadsBack(GeometryFields);
    Unfold8(UintF(0), UintF(0), UintF(Width), UintF(Height), UintF(0),
            StringF(Ascii("nyctal")), StringF(Ascii("none")), UintF(0));
  }

  /** An encoded body of parseable fields parses back, with their kinds, to their
      decoded values. */
  lemma BodyReadsBack(fs: seq<Field>)
    requires forall i :: 0 <= i < |fs| ==> Parseable(fs[i])
    ensures AllWellFormed(fs) && ParseAll(EncodeAll(fs), KindsOf(fs)) == Ok(DecodedAll(fs))
  {
    ParseRoundTrip(fs, []);
    assert EncodeAll(fs) + [] == EncodeAll(fs);
  }

  /** `KindsOf` and `DecodedAll` on a list of four fields. */
  lemma Unfold4(a: Field, b: Field, c: Field, d: Field)
    ensures KindsOf([a, b, c, d]) == [KindOf(a), KindOf(b), KindOf(c), KindOf(d)]
    ensures DecodedAll([a, b, c, d]) == [Decoded(a), Decoded(b), Decoded(c), Decoded(d)]
  {
    Unfold(d, []);
    assert [d] + [] == [d];
    Unfold(c, [d]);
    Unfold(b, [c, d]);
    Unfold(a, [b, c, d]);
    assert [a] + ([b] + ([c] + [d])) == [a, b, c, d];
  }

  /** `KindsOf` and `DecodedAll` on a list of eight fields. */
  lemma Unfold8(a: Field, b: Field, c: Field, d: Field, e: Field, f: Field, g: Field, h: Field)
    ensures KindsOf([a, b, c, d, e, f, g, h])
         == [KindOf(a), KindOf(b), KindOf(c), KindOf(d), KindOf(e), KindOf(f), KindOf(g), KindOf(h)]
    ensures DecodedAll([a, b, c, d, e, f, g, h])
         == [Decoded(a), Decoded(b), Decoded(c), Decoded(d), Decoded(e), Decoded(f), Decoded(g), Decoded(h)]
  {
    Unfold4(a, b, c, d);
    Unfold4(e, f, g, h);
    UnfoldAppend([a, b, c, d], [e, f, g, h]);
    assert [a, b, c, d] + [e, f, g, h] == [a, b, c, d, e, f, g, h];
  }

  /** `KindsOf` and `DecodedAll` distribute over concatenation. */
  lemma UnfoldAppend(x: seq<Field>, y: seq<Field>)
    ensures KindsOf(x + y) == KindsOf(x) + KindsOf(y)
    ensures DecodedAll(x + y) == DecodedAll(x) + DecodedAll(y)
  {
    KindsAppend(x, y);
    DecodedAppend(x, y);
  }

  lemma {:induction false} KindsAppend(x: seq<Field>, y: seq<Field>)
    ensures KindsOf(x + y) == KindsOf(x) + KindsOf(y)
    decreases |x|
  {
    if |x| == 0 {
      assert x + y == y;
    } else {
      KindsAppend(x[1..], y);
      assert (x + y)[0] == x[0] && (x + y)[1..] == x[1..] + y;
      assert KindsOf(x + y) == [KindOf(x[0])] + KindsOf(x[1..] + y);
    }
  }

  lemma {:induction false} DecodedAppend(x: seq<Field>, y: seq<Field>)
    ensures DecodedAll(x + y) == DecodedAll(x) + DecodedAll(y)
    decreases |x|
  {
    if |x| == 0 {
      assert x + y == y;
    } else {
      DecodedAppend(x[1..], y);
      assert (x + y)[0] == x[0] && (x + y)[1..] == x[1..] + y;
      assert DecodedAll(x + y) == [Decoded(x[0])] + DecodedAll(x[1..] + y);
    }
  }

  /** An ASCII string without a NUL character survives NUL trimming unchanged. */
  lemma NoNulKept(s: string)
    requires forall i :: 0 <= i < |s| ==> 0 < s[i] as int < 256
    ensures TrimNul(Ascii(s)) == Ascii(s)
  {
  }

  /** One step of `KindsOf` and `DecodedAll` on a list with a known head. */
  lemma Unfold(f: Field, fs: seq<Field>)
    ensures KindsOf([f] + fs) == [KindOf(f)] + KindsOf(fs)
    ensures DecodedAll([f] + fs) == [Decoded(f)] + DecodedAll(fs)
  {
    assert ([f] + fs)[1..] == fs;
  }

  /** `NewOutput`: registers the output under `id` before sending any event. */
  function NewOutput(c: Conn, id: int): (r: (Conn, seq<Out>))
    requires Valid(c)
    ensures Valid(r.0) && Get(r.0, id) == Ok(OutputObj(id))
    ensures forall k :: k != id ==> Get(r.0, k) == Get(c, k)
    ensures r.1 == Announcement(id)
  {
    (New(c, id, OutputObj(id)).0, Announcement(id))
  }

  /** `Output.HandleMessage`: opcodes 0 (release) and 1 are accepted and do nothing. */
  function HandleOutput(c: Conn, opcode: int): (r: Reply)
    ensures opcode in {0, 1} ==> r == Reply(c, [], None)
    ensures opcode !in {0, 1} ==> r.conn == c && r.out == [] && r.error == Some(UnknownOpcode(opcode))
  {
    if opcode == 0 || opcode == 1 then Reply(c, [], None) else Unknown(c, opcode)
  }

  /** `WPViewporter.HandleMessage`: every request is an error. */
  function HandleViewporter(c: Conn, opcode: int): (r: Reply)
    ensures r.conn == c && r.out == [] && r.error.Some?
  {
    Unknown(c, opcode)
  }
}
