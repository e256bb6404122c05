/** Base-128 varints, as the generated code writes and reads them. */
module Varints {
  import opened Bytes

  datatype Varint = Read(value: nat, len: nat) | TooLong | Truncated

  datatype Error = NoError | IntOverflow | UnexpectedEOF | InvalidLength
                 | UnexpectedEndOfGroup | IllegalWireType | IllegalTag | WrongWireType | Panic

  /** Reads 7-bit groups, least significant first, allowing at most `fuel` of them. */
  function Scan(s: bytes, fuel: nat): (r: Varint)
    ensures r.Read? ==> 1 <= r.len <= |s| && r.len <= fuel
    decreases |s|
  {
    if fuel == 0 then TooLong
    else if s == [] then Truncated
    else if s[0] < 128 then Read(s[0], 1)
    else
      match Scan(s[1..], fuel - 1)
      case Read(v, n) => Read(s[0] - 128 + 128 * v, n + 1)
      case e => e
  }

  /** The 64-bit value of the varint at the head of s: shifts 0, 7, ..., 63. */
  function Parse(s: bytes): (r: Varint)
    ensures r.Read? ==> 1 <= r.len <= |s| && r.len <= 10 && r.value < U64
  {
    match Scan(s, 10)
    case Read(v, n) => Read(v % U64, n)
    case e => e
  }

  /** What the groups read so far are worth, whether the varint turns out complete or not. */
  function Gathered(s: bytes, fuel: nat): nat
    decreases |s|
  {
    if fuel == 0 || s == [] then 0
    else if s[0] < 128 then s[0]
    else s[0] - 128 + 128 * Gathered(s[1..], fuel - 1)
  }

  // ----- the format: "Base 128 Varints" of the Protocol Buffers encoding guide

  /** Up to ten bytes, of which all but the last have the continuation bit. */
  predicate IsVarint(b: bytes) {
    && 1 <= |b| <= 10 && b[|b| - 1] < 128
    && forall i :: 0 <= i < |b| - 1 ==> b[i] >= 128
  }

  /** Seven bits a byte, the lowest first. */
  function ValueOf(b: bytes): nat {
    if b == [] then 0 else b[0] % 128 + 128 * ValueOf(b[1..])
  }

  lemma {:induction false} ScanMeans(s: bytes, fuel: nat)
    requires Scan(s, fuel).Read?
    ensures var n := Scan(s, fuel).len;
            && s[n - 1] < 128 && (forall i :: 0 <= i < n - 1 ==> s[i] >= 128)
            && Scan(s, fuel).value == ValueOf(s[..n])
    decreases |s|
  {
    var n := Scan(s, fuel).len;
    if s[0] < 128 {
      assert s[..1][1..] == [];
    } else {
      ScanMeans(s[1..], fuel - 1);
      assert s[..n][1..] == s[1..][..n - 1];
      forall i | 0 <= i < n - 1 ensures s[i] >= 128 {
        if i > 0 { assert s[i] == s[1..][i - 1]; }
      }
    }
  }

  lemma {:induction false} ScanFinds(s: bytes, n: nat, fuel: nat)
    requires 1 <= n <= |s| && n <= fuel && s[n - 1] < 128 && forall i :: 0 <= i < n - 1 ==> s[i] >= 128
    ensures Scan(s, fuel).Read? && Scan(s, fuel).len == n
    decreases n
  {
    if n > 1 {
      ScanFinds(s[1..], n - 1, fuel - 1);
    }
  }

  /** The reading loop finds exactly the varints of the format, and their values modulo 2^64. */
  lemma ParseMeans(s: bytes, n: nat)
    requires n <= |s|
    ensures Parse(s).Read? && Parse(s).len == n <==> IsVarint(s[..n])
    ensures IsVarint(s[..n]) ==> Parse(s) == Read(ValueOf(s[..n]) % U64, n)
  {
    if Parse(s).Read? && Parse(s).len == n {
      ScanMeans(s, 10);
    }
    if IsVarint(s[..n]) {
      assert forall i :: 0 <= i < n ==> s[i] == s[..n][i];
      ScanFinds(s, n, 10);
      ScanMeans(s, 10);
    }
  }

  /** And the encoder writes the value it is given. */
  lemma EncodeMeans(v: nat)
    requires v < U64
    ensures IsVarint(Encode(v)) && ValueOf(Encode(v)) == v
  {
    EncodeAtMostTen(v);
    ParseEncode(v, []);
    assert Encode(v) + [] == Encode(v);
    var b := Encode(v);
    assert b[..|b|] == b;
    ParseMeans(b, |b|);
    ScanEncode(v, [], 10);
    ScanMeans(b, 10);
  }

  function Encode(v: nat): (r: bytes)
    ensures |r| >= 1
  {
    if v < 128 then [v] else [v % 128 + 128] + Encode(v / 128)
  }

  function Pow2(n: nat): (r: nat)
    ensures r >= 1
  {
    if n == 0 then 1 else 2 * Pow2(n - 1)
  }

  /** math/bits.Len64: the number of bits needed to represent v. */
  function BitLen(v: nat): nat {
    if v == 0 then 0 else 1 + BitLen(v / 2)
  }

  /** sovPacket: the number of bytes Encode will use. */
  function Sov(x: nat): nat {
    (BitLen(if x % 2 == 0 then x + 1 else x) + 6) / 7
  }

  // ----- round trip and exact size

  lemma {:induction false} ScanEncode(v: nat, rest: bytes, fuel: nat)
    requires |Encode(v)| <= fuel
    ensures Scan(Encode(v) + rest, fuel) == Read(v, |Encode(v)|)
  {
    if v >= 128 {
      assert (Encode(v) + rest)[1..] == Encode(v / 128) + rest;
      ScanEncode(v / 128, rest, fuel - 1);
    }
  }

  /** k bytes hold exactly the values of at most 7 * k bits. */
  lemma {:induction false} EncodeLength(v: nat, k: nat)
    requires k >= 1
    ensures |Encode(v)| <= k <==> v < Pow2(7 * k)
  {
    Pow2Seven(7 * (k - 1));
    if k == 1 {
      Pow2Zero();
    } else if v < 128 {
      Pow2Seven(7 * (k - 2));
    } else {
      EncodeLength(v / 128, k - 1);
    }
  }

  lemma Pow2Seven(n: nat)
    ensures Pow2(n + 7) == 128 * Pow2(n)
  {
    assert Pow2(n + 7) == 2 * Pow2(n + 6) == 4 * Pow2(n + 5) == 8 * Pow2(n + 4);
    assert Pow2(n + 4) == 2 * Pow2(n + 3) == 4 * Pow2(n + 2) == 8 * Pow2(n + 1);
  }

  lemma EncodeAtMostTen(v: nat)
    requires v < U64
    ensures |Encode(v)| <= 10
  {
    Pow2Seven(0); Pow2Seven(7); Pow2Seven(14); Pow2Seven(21); Pow2Seven(28);
    Pow2Seven(35); Pow2Seven(42); Pow2Seven(49); Pow2Seven(56); Pow2Seven(63);
    EncodeLength(v, 10);
  }

  /** Every 64-bit value is read back from its encoding, whatever follows it. */
  lemma ParseEncode(v: nat, rest: bytes)
    requires v < U64
    ensures Parse(Encode(v) + rest) == Read(v, |Encode(v)|)
  {
    EncodeAtMostTen(v);
    ScanEncode(v, rest, 10);
  }

  /** int64 and sign-extended int32 fields survive the trip as well. */
  lemma ParseEncodeSigned(x: int, rest: bytes)
    requires IsInt64(x)
    ensures Parse(Encode(Unsigned64(x)) + rest) == Read(Unsigned64(x), |Encode(Unsigned64(x))|)
    ensures Signed64(Unsigned64(x)) == x
    ensures IsInt32(x) ==> Signed32(Unsigned64(x)) == x
  {
    Signed64Inverse(x);
    if IsInt32(x) { Signed32Inverse(x); }
    ParseEncode(Unsigned64(x), rest);
  }

  lemma ParseByte(b: byte, rest: bytes)
    requires b < 128
    ensures Parse([b] + rest) == Read(b, 1)
  {
  }

  lemma BitLenHalf(v: nat)
    requires v >= 1
    ensures BitLen(v) == 1 + BitLen(v / 2)
  {
  }

  lemma Halves(v: nat)
    ensures v / 2 / 2 / 2 == v / 8 && v / 8 / 2 / 2 / 2 == v / 64 && v / 64 / 2 == v / 128
  {
  }

  lemma BitLenSeven(v: nat)
    requires v >= 128
    ensures BitLen(v) == 7 + BitLen(v / 128)
  {
    hide BitLen;
    Halves(v);
    BitLenHalf(v); BitLenHalf(v / 2); BitLenHalf(v / 2 / 2);
    BitLenHalf(v / 8); BitLenHalf(v / 8 / 2); BitLenHalf(v / 8 / 2 / 2);
    BitLenHalf(v / 64);
  }

  lemma {:induction false} BitLenBelow(v: nat, n: nat)
    requires v < Pow2(n)
    ensures BitLen(v) <= n
  {
    if v > 0 { BitLenBelow(v / 2, n - 1); }
  }

  lemma BitLenSmall(v: nat)
    requires 1 <= v < 128
    ensures 1 <= BitLen(v) <= 7
  {
    hide BitLen;
    Pow2Seven(0);
    BitLenBelow(v, 7);
    BitLenHalf(v);
  }

  lemma {:induction false} SovIsLength(v: nat)
    ensures Sov(v) == |Encode(v)|
  {
    var odd := if v % 2 == 0 then v + 1 else v;
    if v < 128 {
      BitLenSmall(odd);
    } else {
      BitLenSeven(odd);
      var w := v / 128;
      SovIsLength(w);
      assert odd / 128 == w;
      BitLenOrOne(w);
    }
  }

  /** Setting the lowest bit changes the bit length of zero only. */
  lemma BitLenOrOne(w: nat)
    requires w >= 1
    ensures BitLen(if w % 2 == 0 then w + 1 else w) == BitLen(w)
  {
    if w % 2 == 0 {
      assert (w + 1) / 2 == w / 2;
    }
  }

  // ----- appended bytes never change what was read

  lemma {:induction false} ScanExtends(s: bytes, t: bytes, fuel: nat)
    requires Scan(s, fuel).Read?
    ensures Scan(s + t, fuel) == Scan(s, fuel)
  {
    if s[0] >= 128 {
      assert (s + t)[1..] == s[1..] + t;
      ScanExtends(s[1..], t, fuel - 1);
    }
  }

  lemma ParseExtends(s: bytes, t: bytes)
    requires Parse(s).Read?
    ensures Parse(s + t) == Parse(s)
  {
    ScanExtends(s, t, 10);
  }

  /** Only the bytes of the varint itself matter. */
  lemma {:induction false} ScanPrefix(s: bytes, fuel: nat, n: nat)
    requires Scan(s, fuel).Read? && Scan(s, fuel).len <= n <= |s|
    ensures Scan(s[..n], fuel) == Scan(s, fuel)
  {
    if s[0] >= 128 {
      assert s[..n][1..] == s[1..][..n - 1];
      ScanPrefix(s[1..], fuel - 1, n - 1);
    }
  }

  lemma ParsePrefix(s: bytes, n: nat)
    requires Parse(s).Read? && Parse(s).len <= n <= |s|
    ensures Parse(s[..n]) == Parse(s)
  {
    ScanPrefix(s, 10, n);
  }

  // ----- the loops

  /** What the whole scan yields once k groups worth `raw` are in and `tail` is still to come. */
  ghost function Resume(raw: nat, k: nat, tail: Varint): Varint {
    match tail
    case Read(x, n) => Read(raw + Pow2(7 * k) * x, n + k)
    case e => e
  }

  /** A byte's seven payload bits, shifted into place. */
  function Group(b: byte, shift: nat): nat {
    b % 128 * Pow2(shift)
  }

  /** Bitwise or. */
  function Or(x: nat, y: nat): nat {
    if x == 0 then y
    else if y == 0 then x
    else 2 * Or(x / 2, y / 2) + (if x % 2 == 1 || y % 2 == 1 then 1 else 0)
  }

  lemma OrTurn(x: nat, y: nat)
    ensures Or(x, y) == 2 * Or(x / 2, y / 2) + (if x % 2 == 1 || y % 2 == 1 then 1 else 0)
  {
  }

  /** Or-ing in bits at or above s, where x has none, adds them. */
  lemma {:induction false} OrAbove(x: nat, g: nat, s: nat)
    requires x < Pow2(s)
    ensures Or(x, g * Pow2(s)) == x + g * Pow2(s)
  {
    if s > 0 {
      Distribute2(g, Pow2(s - 1));
      OrTurn(x, g * Pow2(s));
      OrAbove(x / 2, g, s - 1);
    }
  }

  lemma Distribute2(g: nat, p: nat)
    ensures g * (2 * p) == 2 * (g * p)
  {
  }

  /** An or truncated to n bits is the or of the truncated operands. */
  lemma {:induction false} OrTruncates(x: nat, y: nat, n: nat)
    ensures Or(x, y) % Pow2(n) == Or(x % Pow2(n), y % Pow2(n))
  {
    hide Or;
    if n == 0 {
      ModOne(x); ModOne(y); ModOne(Or(x, y));
      OrOfNothing();
    } else {
      OrTruncates(x / 2, y / 2, n - 1);
      OrTruncatesTurn(x, y, Pow2(n - 1));
    }
  }

  lemma OrTruncatesTurn(x: nat, y: nat, p: nat)
    requires p >= 1 && Or(x / 2, y / 2) % p == Or(x / 2 % p, y / 2 % p)
    ensures Or(x, y) % (2 * p) == Or(x % (2 * p), y % (2 * p))
  {
    hide Or;
    OrTurn(x, y);
    OrTurn(x % (2 * p), y % (2 * p));
    ModTwo(x, p);
    ModTwo(y, p);
    ModTwo(Or(x, y), p);
  }

  lemma ModOne(x: nat)
    ensures x % 1 == 0
  {
  }

  lemma OrOfNothing()
    ensures Or(0, 0) == 0
  {
  }

  lemma ModTwo(x: nat, p: nat)
    requires p >= 1
    ensures x % (2 * p) == 2 * (x / 2 % p) + x % 2
    ensures x % (2 * p) / 2 == x / 2 % p && x % (2 * p) % 2 == x % 2
  {
    var q, r := x / 2 / p, x / 2 % p;
    assert x / 2 == p * q + r;
    assert p * q * 2 == 2 * p * q;
    ModUnique(x, 2 * p, q, 2 * r + x % 2);
  }

  lemma ModUnique(x: nat, m: nat, q: nat, r: nat)
    requires r < m && x == m * q + r
    ensures x % m == r
  {
    var d := x / m - q;
    assert x == m * (x / m) + x % m;
    Factor(m, x / m, q);
    MulAtLeast(m, d);
  }

  lemma Factor(m: int, a: int, b: int)
    ensures m * (a - b) == m * a - m * b
  {
  }

  lemma MulAtLeast(m: int, d: int)
    requires m >= 0
    ensures d >= 1 ==> m * d >= m
    ensures d <= -1 ==> m * d <= -m
  {
  }

  /** The widths of Go's accumulators: int32 fields have 32 bits, everything else 64. */
  lemma Widths()
    ensures Pow2(32) == U32 && Pow2(64) == U64
  {
    hide Pow2;
    Pow2Zero();
    Pow2Seven(0); Pow2Seven(7); Pow2Seven(14); Pow2Seven(21); Pow2Four(28);
    Pow2Seven(32); Pow2Seven(39); Pow2Seven(46); Pow2Seven(53); Pow2Four(60);
  }

  lemma Pow2Zero()
    ensures Pow2(0) == 1
  {
  }

  lemma Pow2Four(n: nat)
    ensures Pow2(n + 4) == 16 * Pow2(n)
  {
    assert Pow2(n + 4) == 2 * Pow2(n + 3) == 4 * Pow2(n + 2) == 8 * Pow2(n + 1);
  }

  /** Or-ing the next group into the truncated accumulator truncates the sum. */
  lemma OrGroup(raw: nat, b: byte, shift: nat, modulus: nat)
    requires raw < Pow2(shift) && (modulus == U32 || modulus == U64)
    ensures Or(raw % modulus, Group(b, shift) % modulus) == (raw + Group(b, shift)) % modulus
    ensures raw + Group(b, shift) < Pow2(shift + 7)
  {
    Widths();
    Pow2Seven(shift);
    GroupBound(b % 128, Pow2(shift));
    hide Pow2;
    OrAbove(raw, b % 128, shift);
    OrTruncates(raw, Group(b, shift), if modulus == U32 then 32 else 64);
  }

  lemma GroupBound(g: nat, p: nat)
    requires g < 128
    ensures p + g * p <= 128 * p
  {
  }

  lemma ResumeStep(raw: nat, k: nat, s: bytes, fuel: nat)
    requires s != [] && fuel > 0
    ensures s[0] < 128 ==>
              Resume(raw, k, Scan(s, fuel)) == Read(raw + Group(s[0], 7 * k), k + 1)
    ensures s[0] >= 128 ==>
              Resume(raw, k, Scan(s, fuel))
              == Resume(raw + Group(s[0], 7 * k), k + 1, Scan(s[1..], fuel - 1))
  {
    if s[0] < 128 {
      GroupCommutes(s[0], 7 * k);
    } else if Scan(s[1..], fuel - 1).Read? {
      NextGroup(s[0], k, Scan(s[1..], fuel - 1).value);
    }
  }

  lemma GroupCommutes(b: byte, shift: nat)
    requires b < 128
    ensures Pow2(shift) * b == Group(b, shift)
  {
    hide Pow2;
  }

  lemma NextGroup(b: byte, k: nat, x: nat)
    requires b >= 128
    ensures Pow2(7 * k) * (b - 128 + 128 * x) == Group(b, 7 * k) + Pow2(7 * (k + 1)) * x
  {
    Pow2Seven(7 * k);
    assert 7 * (k + 1) == 7 * k + 7;
    hide Pow2;
    Distribute(Pow2(7 * k), b - 128, x);
  }

  /** The scan as a whole, and where it runs out of groups or of bytes. */
  lemma ResumeEnds(raw: nat, k: nat, s: bytes, fuel: nat)
    ensures Resume(0, 0, Scan(s, fuel)) == Scan(s, fuel) && Gather(0, 0, s, fuel) == Gathered(s, fuel)
    ensures fuel == 0 ==> Resume(raw, k, Scan(s, fuel)) == TooLong && Gather(raw, k, s, fuel) == raw
    ensures fuel > 0 && s == [] ==> Resume(raw, k, Scan(s, fuel)) == Truncated && Gather(raw, k, s, fuel) == raw
  {
  }

  /** The groups of s added to the `raw` that the k groups before them are worth. */
  ghost function Gather(raw: nat, k: nat, s: bytes, fuel: nat): nat {
    raw + Pow2(7 * k) * Gathered(s, fuel)
  }

  lemma GatherStep(raw: nat, k: nat, s: bytes, fuel: nat)
    requires s != [] && fuel > 0
    ensures Gather(raw, k, s, fuel)
            == if s[0] < 128 then raw + Group(s[0], 7 * k)
               else Gather(raw + Group(s[0], 7 * k), k + 1, s[1..], fuel - 1)
  {
    if s[0] < 128 {
      GroupCommutes(s[0], 7 * k);
    } else {
      NextGroup(s[0], k, Gathered(s[1..], fuel - 1));
    }
  }

  lemma WrapOnce(raw: nat, modulus: nat)
    requires modulus == U32 || modulus == U64
    ensures raw % U64 % modulus == raw % modulus
  {
  }

  lemma Distribute(p: nat, a: int, x: nat)
    ensures p * (a + 128 * x) == a * p + 128 * p * x
  {
  }

  /**
   * The inner read loop of every generated decoder. The accumulator has 64 bits, except for int32
   * fields, where it has 32 and shifts past the top drop what they carry.
   */
  method ReadVarint(dAtA: bytes, start: nat, modulus: nat := U64) returns (v: nat, next: nat, err: Error)
    requires start <= |dAtA| && (modulus == U32 || modulus == U64)
    ensures start <= next <= |dAtA|
    ensures err == NoError ==> start < next
    ensures v == Gathered(dAtA[start..], 10) % modulus < modulus
    ensures match Parse(dAtA[start..])
            case Read(x, n) => err == NoError && v == x % modulus && next == start + n
            case TooLong => err == IntOverflow
            case Truncated => err == UnexpectedEOF
  {
    hide Scan; hide Resume; hide Group; hide Gather; hide Gathered; hide Or; hide Pow2;
    v, next := 0, start;
    Pow2Zero();
    ResumeEnds(0, 0, dAtA[start..], 10);
    var shift := 0;
    ghost var raw: nat, k: nat := 0, 0;
    while true
      invariant next == start + k <= |dAtA| && k <= 10 && shift == 7 * k
      invariant v == raw % modulus && raw < Pow2(shift)
      invariant Scan(dAtA[start..], 10) == Resume(raw, k, Scan(dAtA[next..], 10 - k))
      invariant Gathered(dAtA[start..], 10) == Gather(raw, k, dAtA[next..], 10 - k)
      decreases 10 - k
    {
      ResumeEnds(raw, k, dAtA[next..], 10 - k);
      if shift >= 64 {
        return v, next, IntOverflow;
      }
      if next >= |dAtA| {
        return v, next, UnexpectedEOF;
      }
      ResumeStep(raw, k, dAtA[next..], 10 - k);
      GatherStep(raw, k, dAtA[next..], 10 - k);
      assert dAtA[next..][1..] == dAtA[next + 1..];
      var b := dAtA[next];
      next := next + 1;
      OrGroup(raw, b, shift, modulus);
      v := Or(v, Group(b, shift) % modulus);
      raw, k := raw + Group(b, shift), k + 1;
      if b < 128 {
        WrapOnce(raw, modulus);
        return v, next, NoError;
      }
      shift := shift + 7;
    }
  }

  /** The writing loop sends one byte of the code and goes on with the rest. */
  lemma EncodeTurn(code: bytes, n: nat, w: nat)
    requires n <= |code| && Encode(w) == code[n..]
    ensures n < |code| && code[n] == if w < 128 then w else w % 128 + 128
    ensures w < 128 ==> n + 1 == |code|
    ensures w >= 128 ==> Encode(w / 128) == code[n + 1..]
  {
    assert code[n] == code[n..][0] && code[n + 1..] == code[n..][1..];
  }

  /** encodeVarintPacket: writes v so that it ends just before `offset`, returns where it starts. */
  method EncodeVarint(dAtA: array<byte>, offset: nat, v: nat) returns (base: nat)
    requires v < U64 && Sov(v) <= offset <= dAtA.Length
    modifies dAtA
    ensures base == offset - Sov(v)
    ensures dAtA[base..] == Encode(v) + old(dAtA[offset..])
    ensures dAtA[..base] == old(dAtA[..base])
  {
    hide Sov; hide Encode;
    SovIsLength(v);
    base := offset - Sov(v);
    ghost var code := Encode(v);
    var at, w := base, v;
    while w >= 128
      invariant base <= at && at + |Encode(w)| == offset
      invariant Encode(w) == code[at - base..]
      invariant forall j :: base <= j < at ==> dAtA[j] == code[j - base]
      invariant forall j :: 0 <= j < dAtA.Length && !(base <= j < at) ==> dAtA[j] == old(dAtA[j])
      decreases w
    {
      EncodeTurn(code, at - base, w);
      dAtA[at] := w % 128 + 128;
      at, w := at + 1, w / 128;
    }
    EncodeTurn(code, at - base, w);
    dAtA[at] := w;
    assert dAtA[base..offset] == code;
    assert dAtA[base..] == dAtA[base..offset] + dAtA[offset..];
  }
}
