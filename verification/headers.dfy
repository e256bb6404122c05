/** The 8-byte frame header: a 4-byte zigzag varint size and a permuted copy of it as signature. */
module FrameHeaders {
  import opened Bytes
  import opened Varints

  const HEADER_SIZE: nat := 8

  /** The largest packet onRecv takes. */
  const MAX_MESSAGE_SIZE: nat := 0x10_0000

  /** 2^27: sizes outside [-2^27, 2^27) need a fifth varint byte. */
  const SIZE_LIMIT: int := 0x800_0000

  function ZigZag(x: int): nat { if x >= 0 then 2 * x else -2 * x - 1 }

  function UnZigZag(u: nat): int { if u % 2 == 0 then u / 2 else -((u + 1) / 2) }

  /** binary.PutVarint into a zeroed 4-byte array. */
  function SizeBytes(size: int): (s: bytes)
    requires -SIZE_LIMIT <= size < SIZE_LIMIT
    ensures |s| == 4
  {
    FitsFour(size);
    Encode(ZigZag(size)) + Zeros(4 - |Encode(ZigZag(size))|)
  }

  function Zeros(n: nat): (s: bytes)
    ensures |s| == n
  {
    seq(n, _ => 0)
  }

  /** Four bytes are enough for exactly the sizes in [-2^27, 2^27). */
  lemma FitsFour(size: int)
    ensures |Encode(ZigZag(size))| <= 4 <==> -SIZE_LIMIT <= size < SIZE_LIMIT
  {
    PowersOfFour();
    EncodeLength(ZigZag(size), 4);
  }

  /** binary.Varint on four bytes: the value, or none when every byte asks for another one. */
  function ReadSize(s: bytes): Option<int>
    requires |s| == 4
  {
    match Parse(s)
    case Read(u, _) => Some(UnZigZag(u))
    case _ => None
  }

  /** Encoder's byte order for the signature, and Check's way back. */
  function Sign(s: bytes): (r: bytes)
    requires |s| == 4
    ensures |r| == 4
  {
    [s[1], s[3], s[2], s[0]]
  }

  function Unsign(s: bytes): (r: bytes)
    requires |s| == 4
    ensures |r| == 4
  {
    [s[3], s[0], s[2], s[1]]
  }

  lemma UnsignSign(s: bytes)
    requires |s| == 4
    ensures Unsign(Sign(s)) == s && Sign(Unsign(s)) == s
  {
  }

  function HeaderBytes(size: int): (h: bytes)
    requires -SIZE_LIMIT <= size < SIZE_LIMIT
    ensures |h| == HEADER_SIZE
  {
    Sign(SizeBytes(size)) + SizeBytes(size)
  }

  /** The size a header announces once Decoder and Check have both accepted it. */
  function AcceptHeader(h: bytes): Option<int>
    requires |h| == HEADER_SIZE
  {
    match ReadSize(h[4..])
    case Some(size) => if SignedSize(h[..4]) == size then Some(size) else None
    case None => None
  }

  /** Check ignores a failed read of the signature and then compares with zero. */
  function SignedSize(sign: bytes): int
    requires |sign| == 4
  {
    match ReadSize(Unsign(sign))
    case Some(size) => size
    case None => 0
  }

  lemma SizeRoundTrip(size: int)
    requires -SIZE_LIMIT <= size < SIZE_LIMIT
    ensures ReadSize(SizeBytes(size)) == Some(size)
  {
    FitsFour(size);
    ParseEncode(ZigZag(size), Zeros(4 - |Encode(ZigZag(size))|));
  }

  /** What the encoder writes, the decoder reads and the check accepts. */
  lemma HeaderRoundTrip(size: int)
    requires -SIZE_LIMIT <= size < SIZE_LIMIT
    ensures AcceptHeader(HeaderBytes(size)) == Some(size)
  {
    hide SizeBytes;
    var s := SizeBytes(size);
    SizeRoundTrip(size);
    UnsignSign(s);
    assert HeaderBytes(size)[4..] == s && HeaderBytes(size)[..4] == Sign(s);
  }

  /** A size with the signature of another one is refused. */
  lemma WrongSignatureRefused(a: int, b: int)
    requires -SIZE_LIMIT <= a < SIZE_LIMIT && -SIZE_LIMIT <= b < SIZE_LIMIT
    ensures AcceptHeader(Sign(SizeBytes(a)) + SizeBytes(b)) == if a == b then Some(b) else None
  {
    hide SizeBytes;
    SizeRoundTrip(a);
    SizeRoundTrip(b);
    UnsignSign(SizeBytes(a));
    var h := Sign(SizeBytes(a)) + SizeBytes(b);
    assert h[4..] == SizeBytes(b) && h[..4] == Sign(SizeBytes(a));
  }

  /** Four bytes hold no size exactly when each of them asks for another one. */
  lemma Unreadable(s: bytes)
    requires |s| == 4
    ensures ReadSize(s) == None <==> s[0] >= 128 && s[1] >= 128 && s[2] >= 128 && s[3] >= 128
  {
    hide ValueOf; hide UnZigZag;
    var n := if s[0] < 128 then 1 else if s[1] < 128 then 2 else if s[2] < 128 then 3 else 4;
    assert s[..n][n - 1] == s[n - 1];
    ParseMeans(s, n);
    if Parse(s).Read? { ParseMeans(s, Parse(s).len); }
    hide Parse;
  }

  /** Such a size is refused, whatever its signature. */
  lemma UnreadableSizeRefused(h: bytes)
    requires |h| == HEADER_SIZE && h[4] >= 128 && h[5] >= 128 && h[6] >= 128 && h[7] >= 128
    ensures AcceptHeader(h) == None
  {
    hide ReadSize;
    Unreadable(h[4..]);
  }

  /** Check takes a signature it cannot read for the signature of zero. */
  lemma UnreadableSignatureIsZero(sign: bytes, size: int)
    requires |sign| == 4 && sign[0] >= 128 && sign[1] >= 128 && sign[2] >= 128 && sign[3] >= 128
    requires -SIZE_LIMIT <= size < SIZE_LIMIT
    ensures AcceptHeader(sign + SizeBytes(size)) == if size == 0 then Some(0) else None
  {
    hide SizeBytes; hide ReadSize;
    Unreadable(Unsign(sign));
    SizeRoundTrip(size);
    var h := sign + SizeBytes(size);
    assert h[4..] == SizeBytes(size) && h[..4] == sign;
  }

  /** Two headers byte by byte; the second has four different bytes, so it shows the permutation. */
  lemma HeadersByteByByte()
    ensures HeaderBytes(1) == [0, 0, 0, 2, 2, 0, 0, 0]
    ensures HeaderBytes(5275841) == [0x83, 0x05, 0x84, 0x82, 0x82, 0x83, 0x84, 0x05]
  {
    assert Encode(2) == [2] && Zeros(3) == [0, 0, 0];
    var u := 10551682;
    assert u == 0x2 + 128 * 82435 && 82435 == 3 + 128 * 644 && 644 == 4 + 128 * 5;
    assert Encode(5) == [5];
    assert Encode(644) == [0x84] + Encode(5);
    assert Encode(82435) == [0x83] + Encode(644);
    assert Encode(u) == [0x82] + Encode(82435);
    assert Encode(ZigZag(5275841)) == [0x82, 0x83, 0x84, 0x05];
    assert SizeBytes(5275841) == [0x82, 0x83, 0x84, 0x05];
  }

  /** An accepted header announces a 28-bit zigzag number. */
  lemma AcceptedSizeRange(h: bytes)
    requires |h| == HEADER_SIZE && AcceptHeader(h).Some?
    ensures -SIZE_LIMIT <= AcceptHeader(h).value < SIZE_LIMIT
  {
    hide Scan;
    FourBytes(h[4..]);
  }

  lemma FourBytes(s: bytes)
    requires |s| == 4 && Scan(s, 10).Read?
    ensures Scan(s, 10).value < 2 * SIZE_LIMIT
  {
    var n := Scan(s, 10).len;
    hide Scan; hide Pow2;
    ScanBelow(s, 10);
    Pow2Monotone(7 * n, 28);
    PowersOfFour();
  }

  lemma PowersOfFour()
    ensures Pow2(28) == 2 * SIZE_LIMIT
  {
    hide Pow2;
    Pow2Zero();
    Pow2Seven(0); Pow2Seven(7); Pow2Seven(14); Pow2Seven(21);
  }

  lemma {:induction false} ScanBelow(s: bytes, fuel: nat)
    requires Scan(s, fuel).Read?
    ensures Scan(s, fuel).value < Pow2(7 * Scan(s, fuel).len)
    decreases |s|
  {
    if s[0] < 128 {
      Pow2Seven(0);
    } else {
      ScanBelow(s[1..], fuel - 1);
      Pow2Seven(7 * Scan(s[1..], fuel - 1).len);
      assert 7 * Scan(s, fuel).len == 7 * Scan(s[1..], fuel - 1).len + 7;
    }
  }

  lemma {:induction false} Pow2Monotone(m: nat, n: nat)
    requires m <= n
    ensures Pow2(m) <= Pow2(n)
    decreases n - m
  {
    if m < n { Pow2Monotone(m, n - 1); }
  }

  /** binary.PutVarint: the varint goes to the front of buf, or the first byte past its end panics. */
  method PutVarint(buf: array<byte>, x: int) returns (panics: bool)
    modifies buf
    ensures panics <==> |Encode(ZigZag(x))| > buf.Length
    ensures !panics ==> buf[..] == Encode(ZigZag(x)) + old(buf[..])[|Encode(ZigZag(x))|..]
  {
    hide Encode; hide ZigZag;
    var ux := ZigZag(x);
    ghost var code := Encode(ux);
    var i := 0;
    while ux >= 128
      invariant i <= |code| && i <= buf.Length && Encode(ux) == code[i..]
      invariant forall j :: 0 <= j < buf.Length ==> buf[j] == if j < i then code[j] else old(buf[j])
      decreases ux
    {
      EncodeTurn(code, i, ux);
      if i >= buf.Length {
        return true;
      }
      buf[i] := ux % 128 + 128;
      i, ux := i + 1, ux / 128;
    }
    EncodeTurn(code, i, ux);
    if i >= buf.Length {
      return true;
    }
    buf[i] := ux;
    panics := false;
    assert buf[..] == code + old(buf[..])[|code|..];
  }

  class Header {
    var sign: bytes
    var size: int

    constructor ()
      ensures sign == [0, 0, 0, 0] && size == 0
    {
      sign, size := [0, 0, 0, 0], 0;
    }

    /** The size goes into a 4-byte buffer, whatever it is; one that needs more bytes panics there. */
    method Encoder() returns (read: bytes, panics: bool)
      ensures panics <==> !(-SIZE_LIMIT <= size < SIZE_LIMIT)
      ensures !panics ==> read == HeaderBytes(size)
    {
      var s2 := new byte[4](_ => 0);
      assert s2[..] == Zeros(4);
      FitsFour(size);
      panics := PutVarint(s2, size);
      if panics {
        return [], true;
      }
      ghost var n := |Encode(ZigZag(size))|;
      assert Zeros(4)[n..] == Zeros(4 - n);
      var rsa := [s2[1], s2[3], s2[2], s2[0]];
      read := rsa + s2[..];
    }

    /** Fails on a buffer that is too short, and on four bytes that all ask for another one. */
    method Decoder(buf: bytes) returns (ok: bool)
      modifies this
      ensures |buf| < HEADER_SIZE ==> !ok && sign == old(sign) && size == old(size)
      ensures |buf| >= HEADER_SIZE ==>
                && sign == buf[..4]
                && match ReadSize(buf[4..8])
                   case Some(n) => ok && size == n
                   case None => !ok && size == 0
    {
      if |buf| < HEADER_SIZE {
        return false;
      }
      sign := buf[..4];
      match ReadSize(buf[4..8])
      case Some(n) =>
        size := n;
        ok := true;
      case None =>
        size := 0;
        ok := false;
    }

    method Check() returns (ok: bool)
      requires |sign| == 4
      ensures ok <==> SignedSize(sign) == size
    {
      var original := [sign[3], sign[0], sign[2], sign[1]];
      var value := match ReadSize(original) case Some(n) => n case None => 0;
      ok := value == size;
    }
  }
}
