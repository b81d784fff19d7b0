/** Go's fixed-width integer behaviour, written out over unbounded `int`. */
module Ints {

  const U8: int := 0x100
  const U16: int := 0x1_0000
  const U32: int := 0x1_0000_0000
  const U64: int := 0x1_0000_0000_0000_0000

  predicate IsByte(b: int) { 0 <= b < U8 }
  predicate IsU16(x: int) { 0 <= x < U16 }
  predicate IsU32(x: int) { 0 <= x < U32 }
  predicate IsI32(x: int) { -0x8000_0000 <= x < 0x8000_0000 }
  predicate AllBytes(s: seq<int>) { forall i :: 0 <= i < |s| ==> IsByte(s[i]) }

  /** `uint16(x)`: truncation to the low 16 bits. */
  function Wrap16(x: int): (r: int)
    ensures IsU16(r)
  {
    x % U16
  }

  /** `uint32(x)`: truncation to the low 32 bits (also the bit pattern of an int32). */
  function Wrap32(x: int): (r: int)
    ensures IsU32(r)
  {
    x % U32
  }

  /** `int32(u)` for a `uint32` bit pattern: two's complement reading. */
  function ToI32(u: int): (r: int)
    requires IsU32(u)
    ensures IsI32(r)
  {
    if u < 0x8000_0000 then u else u - U32
  }

  lemma {:induction false} I32RoundTrip(i: int)
    requires IsI32(i)
    ensures ToI32(Wrap32(i)) == i
  {
    if i < 0 {
      assert Wrap32(i) == i + U32;
    }
  }

  lemma U32RoundTrip(u: int)
    requires IsU32(u)
    ensures Wrap32(ToI32(u)) == u
  {
  }

  /** Go's integer division, which truncates toward zero (Dafny's `/` is Euclidean). */
  function TruncDiv(a: int, b: int): int
    requires b > 0
  {
    if a >= 0 then a / b else -((-a) / b)
  }

  function Min(a: int, b: int): int { if a <= b then a else b }
  function Max(a: int, b: int): int { if a >= b then a else b }
}
