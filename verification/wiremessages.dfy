/** What Marshal puts on the wire for a message, field by field in the terms of the format. */
module WireMessages {
  import opened Bytes
  import opened Varints
  import opened Skips
  import opened Schemas
  import opened Decoding
  import opened Encoding
  import opened Packets
  import opened WireFields

  function VarintField(num: nat, v: nat): bytes { Encode(8 * num) + Encode(v) }

  function RecordField(num: nat, s: bytes): bytes { Encode(8 * num + 2) + (Encode(|s|) + s) }

  /** Zero values are not written. */
  function OptVarint(num: nat, v: nat): bytes { if v == 0 then [] else VarintField(num, v) }

  function OptRecord(num: nat, s: bytes): bytes { if s == [] then [] else RecordField(num, s) }

  // ----- maps

  /** The keys of m, each once, in some order. */
  ghost predicate IsOrder(keys: seq<bytes>, m: map<bytes, bytes>) {
    && (forall i, j :: 0 <= i < j < |keys| ==> keys[i] != keys[j])
    && forall key :: key in keys <==> key in m
  }

  /** A map entry is a message with the key as field 1 and the value as field 2. */
  function EntryField(num: nat, key: bytes, value: bytes): bytes {
    RecordField(num, RecordField(1, key) + RecordField(2, value))
  }

  function EntryFields(num: nat, keys: seq<bytes>, m: map<bytes, bytes>): bytes
    requires forall key :: key in keys ==> key in m
  {
    if keys == [] then [] else EntryField(num, keys[0], m[keys[0]]) + EntryFields(num, keys[1..], m)
  }

  lemma SmallTag(i: nat, k: Kind)
    requires i < 15
    ensures Encode(8 * (i + 1) + WireTypeOf(k)) == [TagByte(i, k)]
  {
  }

  lemma RecordOnWire(num: nat, tag: byte, s: bytes)
    requires Encode(8 * num + 2) == [tag]
    ensures Record(tag, s) == RecordField(num, s)
  {
    assert [tag] + Encode(|s|) + s == [tag] + (Encode(|s|) + s);
  }

  lemma EntryOnWire(i: nat, k: Kind, key: bytes, value: bytes)
    requires i < 15 && WireTypeOf(k) == 2
    ensures EntryRecord(TagByte(i, k), key, value) == EntryField(i + 1, key, value)
  {
    SmallTag(i, k);
    assert Encode(10) == [0x0a] && Encode(18) == [0x12];
    hide Encode; hide Record; hide RecordField; hide TagByte;
    RecordOnWire(1, 0x0a, key);
    RecordOnWire(2, 0x12, value);
    RecordOnWire(i + 1, TagByte(i, k), EntryBytes(key, value));
  }

  lemma {:induction false} EntriesElsewhere(num: nat, keys: seq<bytes>, m: map<bytes, bytes>, n: map<bytes, bytes>)
    requires forall key :: key in keys ==> key in m && key in n && m[key] == n[key]
    ensures EntryFields(num, keys, m) == EntryFields(num, keys, n)
  {
    hide EntryField;
    if keys != [] { EntriesElsewhere(num, keys[1..], m, n); }
  }

  /** Whatever is written for a map is its entries in some order. */
  lemma {:induction false} MapOnWire(i: nat, k: Kind, m: map<bytes, bytes>, b: bytes) returns (keys: seq<bytes>)
    requires i < 15 && WireTypeOf(k) == 2 && EncodesMap(TagByte(i, k), m, b)
    ensures IsOrder(keys, m) && b == EntryFields(i + 1, keys, m)
    decreases |m|
  {
    hide EntryRecord; hide EntryField; hide TagByte; hide WireTypeOf;
    if m == map[] {
      keys := [];
    } else {
      var key, n := FirstEntryOf(TagByte(i, k), m, b);
      EntryOnWire(i, k, key, m[key]);
      var rest := MapOnWire(i, k, m - {key}, b[n..]);
      keys := [key] + rest;
      OrderGrows(key, rest, m);
      assert keys[1..] == rest;
      EntriesElsewhere(i + 1, rest, m - {key}, m);
      assert b == b[..n] + b[n..];
    }
  }

  lemma FirstEntryOf(tag: byte, m: map<bytes, bytes>, b: bytes) returns (key: bytes, n: nat)
    requires EncodesMap(tag, m, b) && m != map[]
    ensures key in m && n <= |b| && b[..n] == EntryRecord(tag, key, m[key])
    ensures EncodesMap(tag, m - {key}, b[n..]) && |m - {key}| < |m|
  {
    key :| key in m && EntryRecord(tag, key, m[key]) <= b
           && EncodesMap(tag, m - {key}, b[|EntryRecord(tag, key, m[key])|..]);
    n := |EntryRecord(tag, key, m[key])|;
    assert (m - {key}).Keys == m.Keys - {key};
  }

  lemma OrderGrows(key: bytes, rest: seq<bytes>, m: map<bytes, bytes>)
    requires key in m && IsOrder(rest, m - {key})
    ensures IsOrder([key] + rest, m)
  {
    var keys := [key] + rest;
    forall x ensures x in keys <==> x in m {
      assert x in keys <==> x == key || x in rest;
    }
    assert key !in rest;
    forall a, c | 0 <= a < c < |keys| ensures keys[a] != keys[c] {
      assert keys[c] == rest[c - 1] && rest[c - 1] in rest;
      if a > 0 { assert keys[a] == rest[a - 1]; }
    }
  }

  /** And every order is one that may be written. */
  lemma {:induction false} AnyOrderEncodes(i: nat, k: Kind, keys: seq<bytes>, m: map<bytes, bytes>)
    requires i < 15 && WireTypeOf(k) == 2 && IsOrder(keys, m)
    ensures EncodesMap(TagByte(i, k), m, EntryFields(i + 1, keys, m))
    decreases |keys|
  {
    hide EncodesMap; hide EntryRecord; hide EntryField; hide TagByte; hide WireTypeOf;
    if keys == [] {
      assert m == map[] by { assert forall key :: key !in m; }
      EncodesNothing(TagByte(i, k));
    } else {
      var key, rest := keys[0], keys[1..];
      OrderShrinks(keys, m);
      AnyOrderEncodes(i, k, rest, m - {key});
      EntriesElsewhere(i + 1, rest, m - {key}, m);
      OneMore(TagByte(i, k), m - {key}, key, m[key], EntryFields(i + 1, rest, m));
      assert (m - {key})[key := m[key]] == m;
      EntryOnWire(i, k, key, m[key]);
    }
  }

  lemma OrderShrinks(keys: seq<bytes>, m: map<bytes, bytes>)
    requires IsOrder(keys, m) && keys != []
    ensures keys[0] in m && IsOrder(keys[1..], m - {keys[0]})
  {
    var key, rest := keys[0], keys[1..];
    forall x ensures x in rest <==> x in m - {key} {
      if x in rest { var j :| 0 <= j < |rest| && rest[j] == x; assert keys[j + 1] == x; }
      if x in m && x != key { var j :| 0 <= j < |keys| && keys[j] == x; assert rest[j - 1] == x; }
    }
  }

  // ----- every kind of field

  function RecordFields(num: nat, es: seq<bytes>): bytes {
    if es == [] then [] else RecordField(num, es[0]) + RecordFields(num, es[1..])
  }

  /** b is what the format asks for a value v in field num. */
  ghost predicate OnWire(num: nat, k: Kind, v: Value, b: bytes) {
    match v
    case IntV(i) => b == OptVarint(num, Unsigned64(i))
    case BoolV(x) => b == OptVarint(num, if x then 1 else 0)
    case BytesV(s) => b == OptRecord(num, s)
    case MapV(entries) => exists keys :: IsOrder(keys, entries) && b == EntryFields(num, keys, entries)
    case MessageV(sub) =>
      k.MessageK? && if sub.None? then b == [] else exists e :: Encodes(k.of, sub.value, e) && b == RecordField(num, e)
    case RepeatedV(lists) =>
      k.RepeatedK? && exists es :: AllEncode(k.of, lists, es) && b == RecordFields(num, es)
  }

  ghost predicate AllEncode(of: Schema, lists: seq<Msg>, es: seq<bytes>) {
    |es| == |lists| && forall j :: 0 <= j < |es| ==> Encodes(of, lists[j], es[j])
  }

  lemma ScalarOnWire(i: nat, k: Kind, bits: nat)
    requires i < 15 && WireTypeOf(k) == 0
    ensures ScalarBytes(TagByte(i, k), bits) == OptVarint(i + 1, bits)
  {
    SmallTag(i, k);
    hide Encode; hide TagByte;
  }

  lemma {:induction false} ListOnWire(i: nat, k: Kind, of: Schema, ms: seq<Msg>, b: bytes) returns (es: seq<bytes>)
    requires i < 15 && WireTypeOf(k) == 2 && EncodesList(of, TagByte(i, k), ms, b)
    ensures AllEncode(of, ms, es) && b == RecordFields(i + 1, es)
    decreases ms
  {
    hide Encodes; hide Record; hide RecordField; hide TagByte; hide WireTypeOf; hide Encode;
    es := [];
    if ms != [] {
      var tag := TagByte(i, k);
      var e, n := FirstItemOf(of, tag, ms, b);
      SmallTagTwo(i, k);
      RecordOnWire(i + 1, tag, e);
      var rest := ListOnWire(i, k, of, ms[1..], b[n..]);
      es := [e] + rest;
      assert es[1..] == rest;
      assert b == b[..n] + b[n..];
      AllEncodeGrows(of, ms, e, rest);
    }
  }

  lemma FirstItemOf(of: Schema, tag: byte, ms: seq<Msg>, b: bytes) returns (e: bytes, n: nat)
    requires EncodesList(of, tag, ms, b) && ms != []
    ensures Encodes(of, ms[0], e) && n <= |b| && b[..n] == Record(tag, e) && EncodesList(of, tag, ms[1..], b[n..])
  {
    hide Encodes;
    e :| Encodes(of, ms[0], e) && Record(tag, e) <= b && EncodesList(of, tag, ms[1..], b[|Record(tag, e)|..]);
    n := |Record(tag, e)|;
  }

  lemma AllEncodeGrows(of: Schema, ms: seq<Msg>, e: bytes, rest: seq<bytes>)
    requires ms != [] && Encodes(of, ms[0], e) && AllEncode(of, ms[1..], rest)
    ensures AllEncode(of, ms, [e] + rest)
  {
    hide Encodes;
    var es := [e] + rest;
    forall j | 0 <= j < |es| ensures Encodes(of, ms[j], es[j]) {
      if j > 0 { assert ms[j] == ms[1..][j - 1] && es[j] == rest[j - 1]; }
    }
  }

  lemma SmallTagTwo(i: nat, k: Kind)
    requires i < 15 && WireTypeOf(k) == 2
    ensures Encode(8 * (i + 1) + 2) == [TagByte(i, k)]
  {
    SmallTag(i, k);
  }

  /** Every kind of field is written with its number and the wire type of its kind. */
  lemma FieldOnWire(i: nat, k: Kind, v: Value, b: bytes)
    requires i < 15 && EncodesField(k, TagByte(i, k), v, b)
    ensures OnWire(i + 1, k, v, b)
  {
    hide Encodes; hide Record; hide RecordField; hide TagByte; hide EntryFields; hide RecordFields; hide ScalarBytes;
    hide OptVarint; hide IsOrder; hide AllEncode; hide EncodesMap; hide EncodesList;
    match v
    case IntV(x) => ScalarOnWire(i, k, Unsigned64(x));
    case BoolV(x) => ScalarOnWire(i, k, if x then 1 else 0);
    case BytesV(s) =>
      SmallTagTwo(i, k);
      RecordOnWire(i + 1, TagByte(i, k), s);
    case MapV(entries) => var keys := MapOnWire(i, k, entries, b);
    case MessageV(sub) =>
      if sub.Some? {
        var e :| Encodes(k.of, sub.value, e) && b == Record(TagByte(i, k), e);
        SmallTagTwo(i, k);
        RecordOnWire(i + 1, TagByte(i, k), e);
      }
    case RepeatedV(lists) => var es := ListOnWire(i, k, k.of, lists, b);
  }

  /** A message on the wire: its fields in the order of their numbers, and then the unknown bytes. */
  lemma MessageOnWire(sc: Schema, m: Msg, b: bytes) returns (parts: seq<bytes>)
    requires Encodes(sc, m, b)
    ensures |parts| == |sc| == |m.fields| && b == Flatten(parts) + m.unknown
    ensures forall i :: 0 <= i < |sc| ==> OnWire(i + 1, sc[i], m.fields[i], parts[i])
  {
    hide OnWire;
    parts := FieldsOnWire(sc, m, 0, b);
  }

  lemma {:induction false} FieldsOnWire(sc: Schema, m: Msg, i: nat, b: bytes) returns (parts: seq<bytes>)
    requires |m.fields| == |sc| <= 15 && i <= |sc| && EncodesFrom(sc, m, i, b)
    ensures |parts| == |sc| - i && b == Flatten(parts) + m.unknown
    ensures forall j :: i <= j < |sc| ==> OnWire(j + 1, sc[j], m.fields[j], parts[j - i])
    decreases |sc| - i
  {
    hide OnWire; hide EncodesField; hide TagByte;
    if i == |sc| {
      parts := [];
    } else {
      var c :| 0 <= c <= |b| && EncodesField(sc[i], TagByte(i, sc[i]), m.fields[i], b[..c])
               && EncodesFrom(sc, m, i + 1, b[c..]);
      FieldOnWire(i, sc[i], m.fields[i], b[..c]);
      var rest := FieldsOnWire(sc, m, i + 1, b[c..]);
      parts := [b[..c]] + rest;
      assert parts[1..] == rest;
      assert b == b[..c] + (Flatten(rest) + m.unknown);
      forall j | i <= j < |sc| ensures OnWire(j + 1, sc[j], m.fields[j], parts[j - i]) {
        if j > i { assert parts[j - i] == rest[j - i - 1]; }
      }
    }
  }

  // ----- the two envelopes, with the field numbers of packet.proto

  ghost predicate RequestOrdered(r: Request, keys: seq<bytes>, b: bytes) {
    && IsOrder(keys, r.headers)
    && b == OptVarint(1, Unsigned64(r.sid)) + (OptVarint(2, Unsigned64(r.rpcId)) +
            (EntryFields(3, keys, r.headers) + (OptRecord(4, r.packet) + r.unknown)))
  }

  ghost predicate ResponseOrdered(r: Response, keys: seq<bytes>, b: bytes) {
    && IsOrder(keys, r.headers)
    && b == OptVarint(1, Unsigned64(r.sid)) + (EntryFields(2, keys, r.headers) +
            (OptVarint(3, Unsigned64(r.code)) + (OptRecord(4, r.packet) + r.unknown)))
  }

  lemma FourParts(parts: seq<bytes>, u: bytes)
    requires |parts| == 4
    ensures Flatten(parts) + u == parts[0] + (parts[1] + (parts[2] + (parts[3] + u)))
  {
    assert Flatten(parts[4..]) == [];
    assert Flatten(parts[3..]) == parts[3] + Flatten(parts[3..][1..]) && parts[3..][1..] == parts[4..];
    assert Flatten(parts[2..]) == parts[2] + Flatten(parts[2..][1..]) && parts[2..][1..] == parts[3..];
    assert Flatten(parts[1..]) == parts[1] + Flatten(parts[1..][1..]) && parts[1..][1..] == parts[2..];
  }

  lemma OneFieldMore(sc: Schema, m: Msg, i: nat, x: bytes, rest: bytes)
    requires |m.fields| == |sc| <= 15 && i < |sc|
    requires EncodesField(sc[i], TagByte(i, sc[i]), m.fields[i], x) && EncodesFrom(sc, m, i + 1, rest)
    ensures EncodesFrom(sc, m, i, x + rest)
  {
    hide EncodesField;
    var b := x + rest;
    assert b[..|x|] == x && b[|x|..] == rest;
  }

  lemma VarintEncodes(i: nat, k: Kind, x: int)
    requires i < 15 && ((k.Int64K? && IsInt64(x)) || (k.Int32K? && IsInt32(x)))
    ensures EncodesField(k, TagByte(i, k), IntV(x), OptVarint(i + 1, Unsigned64(x)))
  {
    ScalarOnWire(i, k, Unsigned64(x));
    hide ScalarBytes; hide OptVarint; hide TagByte;
  }

  lemma RecordEncodes(i: nat, s: bytes)
    requires i < 15
    ensures EncodesField(BytesK, TagByte(i, BytesK), BytesV(s), OptRecord(i + 1, s))
  {
    SmallTagTwo(i, BytesK);
    RecordOnWire(i + 1, TagByte(i, BytesK), s);
    hide Record; hide RecordField; hide TagByte;
  }

  lemma EntriesEncode(i: nat, keys: seq<bytes>, m: map<bytes, bytes>)
    requires i < 15 && IsOrder(keys, m)
    ensures EncodesField(MapK, TagByte(i, MapK), MapV(m), EntryFields(i + 1, keys, m))
  {
    hide EncodesMap; hide TagByte; hide EntryFields;
    AnyOrderEncodes(i, MapK, keys, m);
  }

  /** Sid is field 1, RpcId field 2, each header an entry of field 3, in any order, and Packet field 4. */
  lemma RequestOnWire(r: Request, b: bytes)
    requires IsInt64(r.sid) && IsInt64(r.rpcId)
    ensures Encodes(REQUEST_SCHEMA, RequestMsg(r), b) <==> exists keys :: RequestOrdered(r, keys, b)
  {
    if Encodes(REQUEST_SCHEMA, RequestMsg(r), b) {
      var keys := RequestWritten(r, b);
    }
    if exists keys :: RequestOrdered(r, keys, b) {
      var keys :| RequestOrdered(r, keys, b);
      RequestMayBeWritten(r, keys, b);
    }
  }

  lemma RequestWritten(r: Request, b: bytes) returns (keys: seq<bytes>)
    requires Encodes(REQUEST_SCHEMA, RequestMsg(r), b)
    ensures RequestOrdered(r, keys, b)
  {
    hide Encodes; hide OptVarint; hide OptRecord; hide EntryFields;
    var sc, m := REQUEST_SCHEMA, RequestMsg(r);
    var parts := MessageOnWire(sc, m, b);
    assert OnWire(1, sc[0], m.fields[0], parts[0]) && OnWire(2, sc[1], m.fields[1], parts[1]);
    assert OnWire(3, sc[2], m.fields[2], parts[2]) && OnWire(4, sc[3], m.fields[3], parts[3]);
    keys :| IsOrder(keys, r.headers) && parts[2] == EntryFields(3, keys, r.headers);
    FourParts(parts, r.unknown);
  }

  lemma RequestMayBeWritten(r: Request, keys: seq<bytes>, b: bytes)
    requires IsInt64(r.sid) && IsInt64(r.rpcId) && RequestOrdered(r, keys, b)
    ensures Encodes(REQUEST_SCHEMA, RequestMsg(r), b)
  {
    hide EncodesField; hide OptVarint; hide OptRecord; hide EntryFields;
    var sc, m := REQUEST_SCHEMA, RequestMsg(r);
    VarintEncodes(0, Int64K, r.sid);
    VarintEncodes(1, Int64K, r.rpcId);
    EntriesEncode(2, keys, r.headers);
    RecordEncodes(3, r.packet);
    var b3 := OptRecord(4, r.packet) + r.unknown;
    var b2 := EntryFields(3, keys, r.headers) + b3;
    var b1 := OptVarint(2, Unsigned64(r.rpcId)) + b2;
    hide EncodesFrom;
    LastField(sc, m);
    OneFieldMore(sc, m, 3, OptRecord(4, r.packet), r.unknown);
    OneFieldMore(sc, m, 2, EntryFields(3, keys, r.headers), b3);
    OneFieldMore(sc, m, 1, OptVarint(2, Unsigned64(r.rpcId)), b2);
    OneFieldMore(sc, m, 0, OptVarint(1, Unsigned64(r.sid)), b1);
  }

  lemma LastField(sc: Schema, m: Msg)
    requires |m.fields| == |sc| <= 15
    ensures EncodesFrom(sc, m, |sc|, m.unknown)
  {
  }

  /** Sid is field 1, each header an entry of field 2, in any order, Code field 3 and Packet field 4. */
  lemma ResponseOnWire(r: Response, b: bytes)
    requires IsInt64(r.sid) && IsInt32(r.code)
    ensures Encodes(RESPONSE_SCHEMA, ResponseMsg(r), b) <==> exists keys :: ResponseOrdered(r, keys, b)
  {
    if Encodes(RESPONSE_SCHEMA, ResponseMsg(r), b) {
      var keys := ResponseWritten(r, b);
    }
    if exists keys :: ResponseOrdered(r, keys, b) {
      var keys :| ResponseOrdered(r, keys, b);
      ResponseMayBeWritten(r, keys, b);
    }
  }

  lemma ResponseWritten(r: Response, b: bytes) returns (keys: seq<bytes>)
    requires Encodes(RESPONSE_SCHEMA, ResponseMsg(r), b)
    ensures ResponseOrdered(r, keys, b)
  {
    hide Encodes; hide OptVarint; hide OptRecord; hide EntryFields;
    var sc, m := RESPONSE_SCHEMA, ResponseMsg(r);
    var parts := MessageOnWire(sc, m, b);
    assert OnWire(1, sc[0], m.fields[0], parts[0]) && OnWire(2, sc[1], m.fields[1], parts[1]);
    assert OnWire(3, sc[2], m.fields[2], parts[2]) && OnWire(4, sc[3], m.fields[3], parts[3]);
    keys :| IsOrder(keys, r.headers) && parts[1] == EntryFields(2, keys, r.headers);
    FourParts(parts, r.unknown);
  }

  lemma ResponseMayBeWritten(r: Response, keys: seq<bytes>, b: bytes)
    requires IsInt64(r.sid) && IsInt32(r.code) && ResponseOrdered(r, keys, b)
    ensures Encodes(RESPONSE_SCHEMA, ResponseMsg(r), b)
  {
    hide EncodesField; hide OptVarint; hide OptRecord; hide EntryFields;
    var sc, m := RESPONSE_SCHEMA, ResponseMsg(r);
    VarintEncodes(0, Int64K, r.sid);
    EntriesEncode(1, keys, r.headers);
    VarintEncodes(2, Int32K, r.code);
    RecordEncodes(3, r.packet);
    var b3 := OptRecord(4, r.packet) + r.unknown;
    var b2 := OptVarint(3, Unsigned64(r.code)) + b3;
    var b1 := EntryFields(2, keys, r.headers) + b2;
    hide EncodesFrom;
    LastField(sc, m);
    OneFieldMore(sc, m, 3, OptRecord(4, r.packet), r.unknown);
    OneFieldMore(sc, m, 2, OptVarint(3, Unsigned64(r.code)), b3);
    OneFieldMore(sc, m, 1, EntryFields(2, keys, r.headers), b2);
    OneFieldMore(sc, m, 0, OptVarint(1, Unsigned64(r.sid)), b1);
  }

  /** The tag bytes of each generated message, as its MarshalToSizedBuffer spells them out. */
  function TagBytes(sc: Schema): (tags: bytes)
    requires |sc| <= 15
    ensures |tags| == |sc|
  {
    seq(|sc|, i requires 0 <= i < |sc| => TagByte(i, sc[i]))
  }

  lemma GeneratedTags()
    ensures TagBytes(REQUEST_SCHEMA) == [0x08, 0x10, 0x1a, 0x22]
    ensures TagBytes(RESPONSE_SCHEMA) == [0x08, 0x12, 0x18, 0x22]
    ensures TagBytes(COUNTER_SCHEMA) == [0x0a, 0x12, 0x1a]
    ensures TagBytes(GAUGE_SCHEMA) == [0x0a, 0x12, 0x18, 0x20, 0x2a]
    ensures TagBytes(SUMMARY_SCHEMA) == [0x0a, 0x12]
    ensures TagBytes(METRIC_SCHEMA) == [0x08, 0x12, 0x1a, 0x22, 0x2a, 0x30, 0x3a, 0x42]
    ensures TagBytes(METRICS_SCHEMA) == [0x0a]
    ensures TagBytes(AUTHORIZE_SCHEMA) == [0x0a, 0x12, 0x1a]
    ensures TagBytes(CREATE_USER_REQ_SCHEMA) == [0x0a, 0x12, 0x1a, 0x22]
    ensures TagBytes(CREATE_USER_RESP_SCHEMA) == [0x08, 0x12, 0x1a]
    ensures TagBytes(USER_INFO_REQ_SCHEMA) == [0x0a, 0x12]
    ensures TagBytes(USER_INFO_RESP_SCHEMA) == [0x08, 0x12, 0x1a]
  {
  }

  // ----- a reader that knows none of the fields

  lemma {:induction false} Joined(sc: Schema, u: bytes, v: bytes)
    requires UnknownOnly(sc, u) && UnknownOnly(sc, v)
    ensures UnknownOnly(sc, u + v)
    decreases |u|
  {
    hide Parse; hide SkipLoop; hide FieldNum;
    if u == [] {
      assert u + v == v;
    } else {
      var n := Skip(u).value;
      SkipExtends(u, v);
      ParseExtends(u, v);
      assert (u + v)[n..] == u[n..] + v;
      Joined(sc, u[n..], v);
    }
  }

  lemma {:induction false} KnowingLess(sc: Schema, u: bytes)
    requires UnknownOnly(sc, u)
    ensures UnknownOnly([], u)
    decreases |u|
  {
    hide Parse; hide SkipLoop; hide FieldNum;
    if u != [] { KnowingLess(sc, u[Skip(u).value..]); }
  }

  lemma FieldKept(tag: nat, r: bytes)
    requires 8 <= tag < U32 && tag % 8 != 4 && IsField(Encode(tag) + r) && |Encode(tag) + r| < I63
    ensures UnknownOnly([], Encode(tag) + r)
  {
    var f := Encode(tag) + r;
    hide Encode; hide IsField;
    ParseEncode(tag, r);
    assert Parse(f) == Read(tag, |Encode(tag)|);
    assert FieldNum(tag) > 0;
    SkipsOneField(f, []);
    assert f + [] == f && f[|f|..] == [];
    hide Parse; hide SkipLoop;
    assert UnknownTag([], f);
  }

  lemma VarintKept(num: nat, v: nat)
    requires 1 <= num <= 15 && v < U64
    ensures UnknownOnly([], OptVarint(num, v))
  {
    hide Encode; hide UnknownOnly;
    NothingKept();
    if v != 0 {
      EncodeMeans(v);
      VarintIsField(num, Encode(v));
      EncodeAtMostTen(v); EncodeAtMostTen(8 * num);
      FieldKept(8 * num, Encode(v));
    }
  }

  lemma NothingKept()
    ensures UnknownOnly([], [])
  {
  }

  lemma RecordKept(num: nat, s: bytes)
    requires 1 <= num <= 15 && |RecordField(num, s)| < I63
    ensures UnknownOnly([], RecordField(num, s))
  {
    hide Encode; hide UnknownOnly; hide IsField;
    RecordIsField(num, |s|, s);
    FieldKept(8 * num + 2, Encode(|s|) + s);
  }

  lemma {:induction false} EntriesKept(num: nat, keys: seq<bytes>, m: map<bytes, bytes>)
    requires 1 <= num <= 15 && (forall key :: key in keys ==> key in m) && |EntryFields(num, keys, m)| < I63
    ensures UnknownOnly([], EntryFields(num, keys, m))
  {
    hide RecordField; hide UnknownOnly;
    NothingKept();
    if keys != [] {
      RecordKept(num, RecordField(1, keys[0]) + RecordField(2, m[keys[0]]));
      EntriesKept(num, keys[1..], m);
      Joined([], EntryField(num, keys[0], m[keys[0]]), EntryFields(num, keys[1..], m));
    }
  }

  lemma {:induction false} RecordsKept(num: nat, es: seq<bytes>)
    requires 1 <= num <= 15 && |RecordFields(num, es)| < I63
    ensures UnknownOnly([], RecordFields(num, es))
  {
    hide RecordField; hide UnknownOnly;
    NothingKept();
    if es != [] {
      RecordKept(num, es[0]);
      RecordsKept(num, es[1..]);
      Joined([], RecordField(num, es[0]), RecordFields(num, es[1..]));
    }
  }

  lemma OnWireKept(num: nat, k: Kind, v: Value, b: bytes)
    requires 1 <= num <= 15 && OnWire(num, k, v, b) && |b| < I63
    ensures UnknownOnly([], b)
  {
    hide UnknownOnly; hide OptVarint; hide RecordField; hide EntryFields; hide RecordFields; hide Encodes;
    hide AllEncode;
    NothingKept();
    match v
    case IntV(i) => VarintKept(num, Unsigned64(i));
    case BoolV(x) => VarintKept(num, if x then 1 else 0);
    case BytesV(s) => if s != [] { RecordKept(num, s); }
    case MapV(entries) =>
      var keys :| IsOrder(keys, entries) && b == EntryFields(num, keys, entries);
      EntriesKept(num, keys, entries);
    case MessageV(sub) =>
      if sub.Some? {
        var e :| Encodes(k.of, sub.value, e) && b == RecordField(num, e);
        RecordKept(num, e);
      }
    case RepeatedV(lists) =>
      var es :| AllEncode(k.of, lists, es) && b == RecordFields(num, es);
      RecordsKept(num, es);
  }

  lemma {:induction false} PartsKept(sc: Schema, m: Msg, parts: seq<bytes>, i: nat)
    requires |m.fields| == |sc| == |parts| <= 15 && i <= |sc| && |Flatten(parts[i..])| < I63
    requires forall j :: 0 <= j < |sc| ==> OnWire(j + 1, sc[j], m.fields[j], parts[j])
    ensures UnknownOnly([], Flatten(parts[i..]))
    decreases |sc| - i
  {
    hide UnknownOnly; hide OnWire;
    NothingKept();
    if i < |sc| {
      assert parts[i..][1..] == parts[i + 1..];
      OnWireKept(i + 1, sc[i], m.fields[i], parts[i]);
      PartsKept(sc, m, parts, i + 1);
      Joined([], parts[i], Flatten(parts[i + 1..]));
    }
  }

  /**
   * Whatever Marshal writes for a well-formed message is a run of complete fields: a reader of another
   * version, which knows none of them, keeps it whole.
   */
  lemma StrangersKeepAll(sc: Schema, m: Msg, b: bytes)
    requires Encodes(sc, m, b) && Wf(sc, m) && |b| < I63
    ensures UnknownOnly([], b)
  {
    hide OnWire; hide UnknownOnly; hide Encodes; hide Wf;
    var parts := MessageOnWire(sc, m, b);
    assert parts[0..] == parts;
    SchemaBound(sc, m, b);
    PartsKept(sc, m, parts, 0);
    KnowingLess(sc, m.unknown);
    Joined([], Flatten(parts), m.unknown);
  }

  lemma SchemaBound(sc: Schema, m: Msg, b: bytes)
    requires Encodes(sc, m, b) && Wf(sc, m)
    ensures |sc| <= 15 && UnknownOnly(sc, m.unknown)
  {
    hide UnknownOnly;
  }

  // ----- unknown bytes in the terms of the format

  /** f is one field, and its number is none of the schema's, as the int32 the code makes of it. */
  ghost predicate StrangeField(sc: Schema, f: bytes) {
    IsField(f) && exists t: nat :: 0 < t <= |f| && IsVarint(f[..t]) && FieldNum(ValueOf(f[..t]) % U64) > |sc|
  }

  lemma StrangeByTag(sc: Schema, f: bytes)
    requires IsField(f)
    ensures StrangeField(sc, f) <==> UnknownTag(sc, f)
  {
    FieldByHead(f);
    hide IsField; hide FieldNum;
    if Parse(f).Read? { ParseMeans(f, Parse(f).len); }
    if StrangeField(sc, f) {
      var t: nat :| 0 < t <= |f| && IsVarint(f[..t]) && FieldNum(ValueOf(f[..t]) % U64) > |sc|;
      ParseMeans(f, t);
    }
  }

  /** The unknown bytes of a well-formed message are complete fields one after the other, all of them strange. */
  lemma {:induction false} UnknownIsStrange(sc: Schema, u: bytes) returns (parts: seq<bytes>)
    requires UnknownOnly(sc, u) && |u| < I63
    ensures u == Flatten(parts) && forall f :: f in parts ==> StrangeField(sc, f)
    decreases |u|
  {
    hide Parse; hide SkipLoop; hide FieldNum; hide IsField; hide StrangeField;
    parts := [];
    if u != [] {
      var n := Skip(u).value;
      var f := u[..n];
      SkipAgreesWithGrammar(u, n);
      assert f + u[n..] == u;
      HeadOfField(f, u[n..]);
      StrangeByTag(sc, f);
      var rest := UnknownIsStrange(sc, u[n..]);
      parts := [f] + rest;
      assert parts[1..] == rest;
    }
  }

  lemma {:induction false} StrangeIsUnknown(sc: Schema, parts: seq<bytes>)
    requires (forall f :: f in parts ==> StrangeField(sc, f)) && |Flatten(parts)| < I63
    ensures UnknownOnly(sc, Flatten(parts))
  {
    hide Parse; hide SkipLoop; hide FieldNum; hide IsField;
    if parts != [] {
      var f, rest := parts[0], Flatten(parts[1..]);
      assert StrangeField(sc, f);
      FieldNotEmpty(f);
      StrangeByTag(sc, f);
      HeadOfField(f, rest);
      SkipsOneField(f, rest);
      StrangeIsUnknown(sc, parts[1..]);
      assert (f + rest)[|f|..] == rest;
    }
  }
}
