/** Bytes, machine-integer ranges and the error values shared by every layer. */
module Bytes {
  type byte = b: int | 0 <= b < 256

  type bytes = seq<byte>

  /** The bytes of an ASCII string. */
  function Ascii(s: string): (b: bytes)
    requires forall i :: 0 <= i < |s| ==> s[i] < 128 as char
    ensures |b| == |s|
  {
    seq(|s|, i requires 0 <= i < |s| => s[i] as int)
  }

  const U32: int := 0x1_0000_0000
  const I63: int := 0x8000_0000_0000_0000
  const U64: int := 0x1_0000_0000_0000_0000

  datatype Option<+T> = None | Some(value: T)

  /** The int64 with the same low 64 bits as x (two's complement). */
  function Signed64(x: int): (r: int)
    ensures -I63 <= r < I63
  {
    var u := x % U64;
    if u < I63 then u else u - U64
  }

  /** The int32 with the same low 32 bits as x. */
  function Signed32(x: int): (r: int)
    ensures -0x8000_0000 <= r < 0x8000_0000
  {
    var u := x % U32;
    if u < 0x8000_0000 then u else u - U32
  }

  predicate IsInt64(x: int) { -I63 <= x < I63 }

  predicate IsInt32(x: int) { -0x8000_0000 <= x < 0x8000_0000 }

  /** Go's conversion uint64(x) of a signed integer. */
  function Unsigned64(x: int): (r: nat)
    ensures r < U64
  {
    x % U64
  }

  /** int64 addition, wrapping around as Go's int does. */
  function Add64(x: int, y: int): (r: int)
    ensures -I63 <= r < I63
  {
    Signed64(x + y)
  }

  /** A sum of two indices is exact, or it wrapped and the caller's sign test sees it. */
  lemma Add64OfIndices(x: int, y: int)
    requires 0 <= x < I63 && 0 <= y < I63
    ensures Add64(x, y) == if x + y < I63 then x + y else x + y - U64
    ensures Add64(x, y) < 0 <==> x + y >= I63
  {
  }

  lemma Signed64Inverse(x: int)
    requires IsInt64(x)
    ensures Signed64(Unsigned64(x)) == x
  {
  }

  /** Sign extension to 64 bits and truncation back to 32 loses nothing. */
  lemma Signed32Inverse(x: int)
    requires IsInt32(x)
    ensures Signed32(Unsigned64(x)) == x
  {
  }
}
