/** What Unmarshal makes of input, in the terms of the format and of the Go types. */
module Readings {
  import opened Bytes
  import opened Varints
  import opened Skips
  import opened Schemas
  import opened Decoding
  import opened Encoding
  import opened Merging
  import opened WireFields
  import opened WireMessages
  import opened Packets

  // ----- tags

  lemma TagRead(tag: nat, r: bytes)
    requires tag < U64
    ensures Parse(Encode(tag) + r) == Read(tag, |Encode(tag)|) && (Encode(tag) + r)[|Encode(tag)|..] == r
  {
    ParseEncode(tag, r);
  }

  lemma EncodeNotEmpty(v: nat)
    ensures |Encode(v)| >= 1
  {
  }

  lemma SmallNumber(num: nat, wireType: nat)
    requires num < 0x1000_0000 && wireType < 8
    ensures FieldNum(8 * num + wireType) == num && WireType(8 * num + wireType) == wireType
  {
  }

  /** The number of a tag is an int32: what is above its low 32 bits does not count. */
  lemma WrappedNumber(num: nat, n: int, wireType: nat)
    requires IsInt32(n) && (num - n) % U32 == 0 && wireType < 8
    ensures FieldNum(8 * num + wireType) == n && WireType(8 * num + wireType) == wireType
  {
    assert (8 * num + wireType) / 8 == num;
    assert Signed32(num) == n by {
      var q := (num - n) / U32;
      assert num == n + U32 * q;
    }
  }

  /** So a known field may have longer tags, which are read like its own. */
  lemma WideTagRead(sc: Schema, m: Msg, num: nat, n: int, wireType: nat, r: bytes)
    requires |m.fields| == |sc| <= 15 && 1 <= n <= |sc| && wireType < 8
    requires 8 * num + wireType < U64 && (num - n) % U32 == 0
    ensures Decode(sc, m, Encode(8 * num + wireType) + r) == Decode(sc, m, Encode(8 * n + wireType) + r)
  {
    WrappedNumber(num, n, wireType);
    WrappedNumber(n, n, wireType);
    TagRead(8 * num + wireType, r);
    TagRead(8 * n + wireType, r);
    hide *;
    KnownTagRead(sc, m, n, wireType, Encode(8 * num + wireType) + r, Encode(8 * n + wireType) + r, r);
  }

  lemma KnownTagRead(sc: Schema, m: Msg, n: int, wireType: nat, s1: bytes, s2: bytes, r: bytes)
    requires |m.fields| == |sc| && 1 <= n <= |sc| && Parse(s1).Read? && Parse(s2).Read?
    requires FieldNum(Parse(s1).value) == n == FieldNum(Parse(s2).value)
    requires WireType(Parse(s1).value) == wireType == WireType(Parse(s2).value)
    requires s1[Parse(s1).len..] == r == s2[Parse(s2).len..]
    ensures Decode(sc, m, s1) == Decode(sc, m, s2)
  {
    hide Parse; hide FieldNum; hide WireType; hide WireTypeOf; hide DecodeKnown; hide DecodeField; hide Decode;
    if wireType != WireTypeOf(sc[n - 1]) || DecodeKnown(sc[n - 1], m.fields[n - 1], r).None? {
      FieldRefused(sc, m, s1, r);
      FieldRefused(sc, m, s2, r);
    } else {
      FieldRead(sc, m, s1, r);
      FieldRead(sc, m, s2, r);
      var x := DecodeKnown(sc[n - 1], m.fields[n - 1], r).value;
      var m' := m.(fields := m.fields[n - 1 := x.value]);
      TurnThenRest(sc, m, s1, Parse(s1).len, m', x.len);
      TurnThenRest(sc, m, s2, Parse(s2).len, m', x.len);
    }
  }

  lemma FieldRefused(sc: Schema, m: Msg, s: bytes, r: bytes)
    requires |m.fields| == |sc| && Parse(s).Read? && s[Parse(s).len..] == r
    requires var n := FieldNum(Parse(s).value);
             && 1 <= n <= |sc|
             && (WireType(Parse(s).value) != WireTypeOf(sc[n - 1]) || DecodeKnown(sc[n - 1], m.fields[n - 1], r).None?)
    ensures Decode(sc, m, s) == None
  {
    hide Parse; hide DecodeKnown; hide SkipLoop; hide FieldNum; hide WireType;
  }

  lemma TurnThenRest(sc: Schema, m: Msg, s: bytes, t: nat, x: Msg, n: nat)
    requires |m.fields| == |sc| && t + n <= |s| && DecodeField(sc, m, s) == Some(Stepped(x, t + n))
    ensures |x.fields| == |sc| && Decode(sc, m, s) == Decode(sc, x, s[t..][n..])
  {
    hide DecodeField; hide Decode;
    DropTwice(s, t, n);
    DecodeTurn(sc, m, s);
  }

  lemma DropTwice(s: bytes, t: nat, n: nat)
    requires t + n <= |s|
    ensures s[t..][n..] == s[t + n..]
  {
  }

  lemma FieldRead(sc: Schema, m: Msg, s: bytes, r: bytes)
    requires |m.fields| == |sc| && Parse(s).Read? && s[Parse(s).len..] == r
    requires var n := FieldNum(Parse(s).value);
             && 1 <= n <= |sc| && WireType(Parse(s).value) == WireTypeOf(sc[n - 1])
             && DecodeKnown(sc[n - 1], m.fields[n - 1], r).Some?
    ensures var i := FieldNum(Parse(s).value) - 1;
            var x := DecodeKnown(sc[i], m.fields[i], r).value;
            DecodeField(sc, m, s) == Some(Stepped(m.(fields := m.fields[i := x.value]), Parse(s).len + x.len))
  {
    hide Parse; hide DecodeKnown; hide SkipLoop; hide FieldNum; hide WireType;
  }

  /** The wire type a field of this kind has in the format: varint, or length-delimited. */
  predicate RightWireType(k: Kind, wireType: nat) {
    match k
    case Int64K => wireType == 0
    case Int32K => wireType == 0
    case BoolK => wireType == 0
    case _ => wireType == 2
  }

  /** A known field of another wire type is refused, whatever follows. */
  lemma WrongWireTypeRefused(sc: Schema, m: Msg, num: nat, wireType: nat, r: bytes)
    requires |m.fields| == |sc| <= 15 && 1 <= num <= |sc| && wireType < 8 && !RightWireType(sc[num - 1], wireType)
    ensures Decode(sc, m, Encode(8 * num + wireType) + r) == None
  {
    TagRead(8 * num + wireType, r);
    SmallNumber(num, wireType);
    hide Encode; hide Parse; hide DecodeKnown; hide SkipLoop; hide FieldNum; hide WireType;
  }

  /** So are an end-group tag outside a group, and a field number that is not positive as an int32. */
  lemma BadTagRefused(sc: Schema, m: Msg, num: nat, n: int, wireType: nat, r: bytes)
    requires |m.fields| == |sc| && 8 * num + wireType < U64 && wireType < 8
    requires IsInt32(n) && (num - n) % U32 == 0 && (n <= 0 || wireType == 4)
    ensures Decode(sc, m, Encode(8 * num + wireType) + r) == None
  {
    TagRead(8 * num + wireType, r);
    WrappedNumber(num, n, wireType);
    hide Encode; hide Parse; hide DecodeKnown; hide SkipLoop; hide FieldNum; hide WireType;
  }

  /** A field the schema does not know is kept, byte for byte, when it is one of the format. */
  lemma UnknownKept(sc: Schema, m: Msg, num: nat, n: int, wireType: nat, r: bytes)
    requires |m.fields| == |sc| < n && IsInt32(n) && (num - n) % U32 == 0 && wireType < 8
    requires 8 * num + wireType < U64
    requires var f := Encode(8 * num + wireType) + r; IsField(f) && |f| < I63
    ensures var f := Encode(8 * num + wireType) + r;
            Decode(sc, m, f) == Some(m.(unknown := m.unknown + f))
  {
    var f := Encode(8 * num + wireType) + r;
    TagRead(8 * num + wireType, r);
    WrappedNumber(num, n, wireType);
    if wireType == 4 { NoSuchField(num, 4, r); }
    hide Encode; hide Parse; hide SkipLoop; hide FieldNum; hide WireType; hide IsField;
    SkipsOneField(f, []);
    assert f + [] == f && f[..|f|] == f && f[|f|..] == [];
    assert DecodeField(sc, m, f) == Some(Stepped(m.(unknown := m.unknown + f), |f|));
    DecodeNothing(sc, m.(unknown := m.unknown + f));
  }

  // ----- scalars

  /** v is what the Go field of this kind holds after reading the 64 bits `bits`. */
  predicate Holds(k: Kind, v: Value, bits: nat) {
    match k
    case Int64K => v.IntV? && IsInt64(v.i) && (v.i - bits) % U64 == 0
    case Int32K => v.IntV? && IsInt32(v.i) && (v.i - bits) % U32 == 0
    case BoolK => v == BoolV(bits != 0)
    case _ => false
  }

  /** Any varint in a scalar field sets it: to the int64 or the int32 of its low bits, or to true unless zero. */
  lemma ScalarReading(sc: Schema, m: Msg, i: nat, bits: nat) returns (v: Value)
    requires |m.fields| == |sc| <= 15 && i < |sc| && RightWireType(sc[i], 0) && bits < U64
    ensures Holds(sc[i], v, bits)
    ensures Decode(sc, m, Encode(8 * (i + 1)) + Encode(bits)) == Some(m.(fields := m.fields[i := v]))
  {
    v := Scalar(sc[i], bits);
    LowBits(bits);
    SmallTag(i, sc[i]);
    KnownScalar(sc[i], m.fields[i], bits);
    hide Encode; hide Decode; hide DecodeKnown; hide TagByte; hide Scalar;
    DecodeOne(sc, m, i, Encode(bits), Known(v, |Encode(bits)|));
  }

  lemma LowBits(bits: nat)
    requires bits < U64
    ensures (Signed64(bits) - bits) % U64 == 0 && (Signed32(bits) - bits) % U32 == 0
  {
  }

  /** Sid and RpcId of a request are int64s. */
  lemma RequestScalars(bits: nat, x: int)
    requires bits < U64 && IsInt64(x) && (x - bits) % U64 == 0
    ensures DecodeRequest(Encode(8) + Encode(bits)) == Some(Request(x, 0, map[], [], []))
    ensures DecodeRequest(Encode(16) + Encode(bits)) == Some(Request(0, x, map[], [], []))
  {
    hide Encode; hide Decode; hide Holds;
    var z := Fresh(REQUEST_SCHEMA);
    var v := ScalarReading(REQUEST_SCHEMA, z, 0, bits);
    var w := ScalarReading(REQUEST_SCHEMA, z, 1, bits);
    OneInteger(Int64K, v, bits, x);
    OneInteger(Int64K, w, bits, x);
  }

  lemma OneInteger(k: Kind, v: Value, bits: nat, x: int)
    requires Holds(k, v, bits)
    requires (k.Int64K? && IsInt64(x) && (x - bits) % U64 == 0) || (k.Int32K? && IsInt32(x) && (x - bits) % U32 == 0)
    ensures v == IntV(x)
  {
  }

  /** The Sid of a response is an int64, its Code an int32: the higher bits of the varint are dropped. */
  lemma ResponseScalars(bits: nat, x: int, y: int)
    requires bits < U64 && IsInt64(x) && (x - bits) % U64 == 0 && IsInt32(y) && (y - bits) % U32 == 0
    ensures DecodeResponse(Encode(8) + Encode(bits)) == Some(Response(x, map[], 0, [], []))
    ensures DecodeResponse(Encode(24) + Encode(bits)) == Some(Response(0, map[], y, [], []))
  {
    hide Encode; hide Decode; hide Holds;
    var z := Fresh(RESPONSE_SCHEMA);
    var v := ScalarReading(RESPONSE_SCHEMA, z, 0, bits);
    var w := ScalarReading(RESPONSE_SCHEMA, z, 2, bits);
    OneInteger(Int64K, v, bits, x);
    OneInteger(Int32K, w, bits, y);
  }

  // ----- map entries

  /** What a map entry may be made of: keys, values, and any other fields. */
  datatype Piece = KeyPiece(s: bytes) | ValuePiece(s: bytes) | OtherPiece(num: nat, wireType: nat, r: bytes)

  function PieceBytes(p: Piece): bytes {
    match p
    case KeyPiece(s) => RecordField(1, s)
    case ValuePiece(s) => RecordField(2, s)
    case OtherPiece(num, wireType, r) => Encode(8 * num + wireType) + r
  }

  ghost predicate ValidPiece(p: Piece) {
    p.OtherPiece? ==> 3 <= p.num < 0x1000_0000 && p.wireType < 8 && IsField(PieceBytes(p))
  }

  function AllPieces(ps: seq<Piece>): bytes {
    if ps == [] then [] else PieceBytes(ps[0]) + AllPieces(ps[1..])
  }

  /** The last key and the last value win; what is missing stays as it was, which is empty. */
  function LastOnes(ps: seq<Piece>, key: bytes, value: bytes): (bytes, bytes) {
    if ps == [] then (key, value)
    else
      match ps[0]
      case KeyPiece(s) => LastOnes(ps[1..], s, value)
      case ValuePiece(s) => LastOnes(ps[1..], key, s)
      case _ => LastOnes(ps[1..], key, value)
  }

  lemma RecordRead(num: nat, s: bytes, rest: bytes)
    requires (num == 1 || num == 2) && |RecordField(num, s) + rest| < I63
    ensures var r, t := RecordField(num, s) + rest, |Encode(8 * num + 2)|;
            && Parse(r) == Read(8 * num + 2, t) && ExtentOf(r[t..]).Some? && Payload(r[t..]) == s
            && t + PayloadEnd(r[t..]) == |RecordField(num, s)| && r[|RecordField(num, s)|..] == rest
  {
    var tag, body := 8 * num + 2, Encode(|s|) + s;
    hide Encode; hide Parse; hide ExtentOf; hide Payload; hide PayloadEnd;
    TagRead(tag, body + rest);
    DecodePayload(s, rest);
    assert RecordField(num, s) + rest == Encode(tag) + (body + rest);
    assert body + rest == Encode(|s|) + s + rest;
  }

  lemma RecordNotEmpty(num: nat, s: bytes)
    ensures |RecordField(num, s)| > 0
  {
    EncodeNotEmpty(8 * num + 2);
    hide Encode;
  }

  lemma StringPiece(num: nat, s: bytes, rest: bytes, left: nat, e: Entry)
    requires (num == 1 || num == 2) && |RecordField(num, s) + rest| < I63
    requires |RecordField(num, s)| <= left <= |RecordField(num, s) + rest|
    ensures ReadEntry(RecordField(num, s) + rest, left, e)
            == ReadEntry(rest, left - |RecordField(num, s)|, if num == 1 then e.(key := s) else e.(value := s))
  {
    hide Encode; hide Parse; hide ExtentOf; hide Payload; hide PayloadEnd; hide ReadEntry; hide FieldNum; hide WireType;
    SmallNumber(num, 2);
    RecordRead(num, s, rest);
    RecordNotEmpty(num, s);
    hide RecordField;
    StringTurn(RecordField(num, s) + rest, left, e, |Encode(8 * num + 2)|, s);
  }

  lemma StrangePiece(num: nat, wireType: nat, x: bytes, rest: bytes, left: nat, e: Entry)
    requires 3 <= num < 0x1000_0000 && wireType < 8
    requires var f := Encode(8 * num + wireType) + x; IsField(f) && |f + rest| < I63 && |f| <= left <= |f + rest|
    ensures var f := Encode(8 * num + wireType) + x;
            ReadEntry(f + rest, left, e) == ReadEntry(rest, left - |f|, e)
  {
    hide Encode; hide Parse; hide SkipLoop; hide ReadEntry; hide FieldNum; hide WireType; hide IsField;
    var f := Encode(8 * num + wireType) + x;
    TagRead(8 * num + wireType, x + rest);
    assert f + rest == Encode(8 * num + wireType) + (x + rest);
    SmallNumber(num, wireType);
    EncodeNotEmpty(8 * num + wireType);
    SkipsOneField(f, rest);
    assert (f + rest)[|f|..] == rest;
    OtherTurn(f + rest, left, e, |f|);
  }

  /** Unlike a key or a value, another field must not run past the end of the entry. */
  lemma StrangePieceOverruns(num: nat, wireType: nat, x: bytes, rest: bytes, left: nat, e: Entry)
    requires 3 <= num < 0x1000_0000 && wireType < 8
    requires var f := Encode(8 * num + wireType) + x; IsField(f) && |f + rest| < I63 && 0 < left < |f|
    ensures ReadEntry(Encode(8 * num + wireType) + x + rest, left, e) == None
  {
    hide Encode; hide Parse; hide SkipLoop; hide FieldNum; hide WireType; hide IsField; hide ExtentOf; hide Payload;
    hide PayloadEnd;
    var f := Encode(8 * num + wireType) + x;
    TagRead(8 * num + wireType, x + rest);
    assert f + rest == Encode(8 * num + wireType) + (x + rest);
    SmallNumber(num, wireType);
    SkipsOneField(f, rest);
  }

  /** An entry may have its parts in any order, repeated, missing, or mixed with other fields. */
  lemma {:induction false} EntryReading(ps: seq<Piece>, rest: bytes, key: bytes, value: bytes)
    requires (forall p :: p in ps ==> ValidPiece(p)) && |AllPieces(ps) + rest| < I63
    ensures var last := LastOnes(ps, key, value);
            ReadEntry(AllPieces(ps) + rest, |AllPieces(ps)|, Entry(key, value)) == Some(Entry(last.0, last.1))
  {
    hide ReadEntry; hide Encode; hide RecordField; hide IsField;
    if ps == [] {
      NothingLeft(rest, 0, Entry(key, value));
      assert AllPieces(ps) + rest == rest;
    } else {
      var f, more := PieceBytes(ps[0]), AllPieces(ps[1..]);
      assert ValidPiece(ps[0]);
      assert AllPieces(ps) + rest == f + (more + rest);
      match ps[0] {
        case KeyPiece(s) =>
          StringPiece(1, s, more + rest, |AllPieces(ps)|, Entry(key, value));
          EntryReading(ps[1..], rest, s, value);
        case ValuePiece(s) =>
          StringPiece(2, s, more + rest, |AllPieces(ps)|, Entry(key, value));
          EntryReading(ps[1..], rest, key, s);
        case OtherPiece(num, wireType, x) =>
          StrangePiece(num, wireType, x, more + rest, |AllPieces(ps)|, Entry(key, value));
          EntryReading(ps[1..], rest, key, value);
      }
    }
  }

  /** A map field sets one entry: the last key in the record to the last value in it. */
  lemma MapFieldReading(sc: Schema, m: Msg, i: nat, ps: seq<Piece>)
    requires |m.fields| == |sc| <= 15 && i < |sc| && sc[i].MapK? && m.fields[i].MapV?
    requires (forall p :: p in ps ==> ValidPiece(p)) && |AllPieces(ps)| < I63
    ensures var last := LastOnes(ps, [], []);
            Decode(sc, m, RecordField(i + 1, AllPieces(ps)))
            == Some(m.(fields := m.fields[i := MapV(m.fields[i].entries[last.0 := last.1])]))
  {
    var e, last := AllPieces(ps), LastOnes(ps, [], []);
    SmallTag(i, sc[i]);
    RecordOnWire(i + 1, TagByte(i, sc[i]), e);
    EntryReading(ps, [], [], []);
    assert e + [] == e;
    KnownEntryBytes(m.fields[i], e, Entry(last.0, last.1));
    hide Encode; hide Decode; hide DecodeKnown; hide TagByte; hide AllPieces; hide Record; hide RecordField;
    hide LastOnes;
    DecodeRecord(sc, m, i, e, MapV(m.fields[i].entries[last.0 := last.1]));
  }

  lemma KnownEntryBytes(v: Value, e: bytes, x: Entry)
    requires v.MapV? && |e| < I63 && ReadEntry(e, |e|, Entry([], [])) == Some(x)
    ensures DecodeKnown(MapK, v, Encode(|e|) + e) == Some(Known(MapV(v.entries[x.key := x.value]), |Encode(|e|) + e|))
  {
    hide Encode; hide ExtentOf; hide Payload; hide PayloadEnd; hide ReadEntry;
    DecodePayloadExact(e);
    assert (Encode(|e|) + e)[|Encode(|e|)|..] == e;
  }

  /**
   * The quirk of the entry loop: a key may run past the end of its entry. Here it takes the two bytes
   * after the entry, and these are then read once more, as the field Sid = 5 that they also are.
   */
  lemma KeyMayOverrun()
    ensures Decode(REQUEST_SCHEMA, Fresh(REQUEST_SCHEMA), [0x1a, 2, 0x0a, 2, 0x08, 5])
            == Some(RequestMsg(Request(5, 0, map[[0x08, 5] := []], [], [])))
  {
    hide Decode; hide DecodeField;
    var z := Fresh(REQUEST_SCHEMA);
    var m := z.(fields := z.fields[2 := MapV(map[[0x08, 5] := []])]);
    OverrunField(z, m);
    var s: bytes := [0x1a, 2, 0x0a, 2, 0x08, 5];
    DecodeTurn(REQUEST_SCHEMA, z, s);
    assert s[4..] == [0x08, 5];
    SidAfter(m);
    assert m.fields[0 := IntV(5)] == RequestMsg(Request(5, 0, map[[0x08, 5] := []], [], [])).fields;
  }

  lemma OverrunField(z: Msg, m: Msg)
    requires z == Fresh(REQUEST_SCHEMA) && m == z.(fields := z.fields[2 := MapV(map[[0x08, 5] := []])])
    ensures DecodeField(REQUEST_SCHEMA, z, [0x1a, 2, 0x0a, 2, 0x08, 5]) == Some(Stepped(m, 4))
  {
    var r: bytes := [2, 0x0a, 2, 0x08, 5];
    OverrunEntry();
    hide DecodeKnown;
    DecodeOneField(REQUEST_SCHEMA, z, 2, 0x1a, r, Known(MapV(map[[0x08, 5] := []]), 3));
    assert [0x1a] + r == [0x1a, 2, 0x0a, 2, 0x08, 5];
  }

  lemma SidAfter(m: Msg)
    requires |m.fields| == 4
    ensures Decode(REQUEST_SCHEMA, m, [0x08, 5]) == Some(m.(fields := m.fields[0 := IntV(5)]))
  {
    hide Decode;
    DecodeScalar(REQUEST_SCHEMA, m, 0, 5);
    assert ScalarBytes(TagByte(0, Int64K), 5) == [0x08, 5];
  }

  lemma DecodeTurn(sc: Schema, m: Msg, s: bytes)
    requires |m.fields| == |sc| && s != [] && DecodeField(sc, m, s).Some?
    ensures var x := DecodeField(sc, m, s).value; Decode(sc, m, s) == Decode(sc, x.msg, s[x.len..])
  {
    hide DecodeField;
  }

  lemma OverrunEntry()
    ensures DecodeKnown(MapK, MapV(map[]), [2, 0x0a, 2, 0x08, 5]) == Some(Known(MapV(map[[0x08, 5] := []]), 3))
  {
    var r: bytes := [2, 0x0a, 2, 0x08, 5];
    var e: bytes := [0x0a, 2, 0x08, 5];
    ParseByte(2, e);
    assert r == [2] + e && r[1..] == e;
    ParseByte(0x0a, [2, 0x08, 5]);
    assert e == [0x0a] + [2, 0x08, 5] && e[1..] == [2, 0x08, 5];
    ParseByte(2, [0x08, 5]);
    assert e[1..] == [2] + [0x08, 5];
    hide Parse;
    assert Payload(e[1..]) == [0x08, 5] && PayloadEnd(e[1..]) == 3;
    assert e[4..] == [];
    StringTurn(e, 2, Entry([], []), 1, [0x08, 5]);
    assert ReadEntry(e, 2, Entry([], [])) == Some(Entry([0x08, 5], []));
  }

  // ----- merging

  /** What merging y into x gives in one field. */
  predicate Merged(k: Kind, x: Value, y: Value, z: Value) {
    match k
    case Int64K => z.IntV? && z.i == if y.IntV? && y.i != 0 then y.i else if x.IntV? then x.i else 0
    case Int32K => z.IntV? && z.i == if y.IntV? && y.i != 0 then y.i else if x.IntV? then x.i else 0
    case BoolK => x.BoolV? && y.BoolV? && z == BoolV(x.b || y.b)
    case BytesK => x.BytesV? && y.BytesV? && z == BytesV(if |y.s| > 0 then y.s else x.s)
    case MapK => x.MapV? && y.MapV? && z.MapV? && z.entries == x.entries + y.entries
    case RepeatedK(_) => x.RepeatedV? && y.RepeatedV? && z == RepeatedV(x.lists + y.lists)
    case MessageK(of) =>
      x.MessageV? && y.MessageV? &&
      match (x.sub, y.sub)
      case (_, None) => z == x
      case (None, Some(n)) => z == y
      case (Some(o), Some(n)) => |o.fields| == |of| && z == MessageV(Some(Merge(of, o, n)))
  }

  /**
   * Field by field: set scalars and non-empty strings replace, entries override per key, a sub-message
   * that both have is merged, not replaced, and lists and unknown bytes are appended.
   */
  lemma MergeMeans(sc: Schema, x: Msg, y: Msg, i: nat)
    requires Typed(sc, x) && Wf(sc, y) && i < |sc|
    ensures Merged(sc[i], x.fields[i], y.fields[i], Merge(sc, x, y).fields[i])
    ensures Merge(sc, x, y).unknown == x.unknown + y.unknown
  {
    assert TypedValue(sc[i], x.fields[i]) && WfValue(sc[i], y.fields[i]);
    if sc[i].MessageK? && x.fields[i].sub.None? && y.fields[i].sub.Some? {
      MergeFresh(sc[i].of, y.fields[i].sub.value);
    }
    hide Merge; hide Wf; hide Typed;
    MergeField(sc, x, y, i);
  }

  lemma MergeField(sc: Schema, x: Msg, y: Msg, i: nat)
    requires |x.fields| == |sc| == |y.fields| && i < |sc|
    ensures Merge(sc, x, y).fields[i] == MergeValue(sc[i], x.fields[i], y.fields[i])
    ensures Merge(sc, x, y).unknown == x.unknown + y.unknown
  {
  }
}
