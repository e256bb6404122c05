/** Decoding what was encoded: merge semantics, and from it the round trip. */
module Merging {
  import opened Bytes
  import opened Varints
  import opened Skips
  import opened Schemas
  import opened Decoding
  import opened Encoding

  /**
   * The protobuf merge of y into x: set scalars and non-empty strings win, map entries override per
   * key, sub-messages merge, repeated messages and unknown fields are appended.
   */
  function Merge(sc: Schema, x: Msg, y: Msg): (m: Msg)
    requires |x.fields| == |sc|
    ensures |m.fields| == |sc|
    decreases y
  {
    Msg(seq(|sc|, i requires 0 <= i < |sc| =>
          if i < |y.fields| then MergeValue(sc[i], x.fields[i], y.fields[i]) else x.fields[i]),
        x.unknown + y.unknown)
  }

  function MergeValue(k: Kind, x: Value, y: Value): Value
    decreases y
  {
    match y
    case IntV(i) => if i != 0 then y else x
    case BoolV(b) => if b then y else x
    case BytesV(s) => if s != [] then y else x
    case MapV(entries) => MapV(MapOf(x) + entries)
    case MessageV(sub) =>
      if sub.Some? && k.MessageK? then MessageV(Some(Merge(k.of, Held(x, k.of), sub.value))) else x
    case RepeatedV(lists) => RepeatedV(ListOf(x) + lists)
  }

  // ----- one field at a time

  /** A record whose body decodes on its own is one turn of the field loop. */
  lemma DecodeOne(sc: Schema, m: Msg, i: nat, body: bytes, x: Known)
    requires |m.fields| == |sc| <= 15 && i < |sc|
    requires DecodeKnown(sc[i], m.fields[i], body) == Some(x) && x.len == |body|
    ensures Decode(sc, m, [TagByte(i, sc[i])] + body) == Some(m.(fields := m.fields[i := x.value]))
  {
    hide DecodeField; hide DecodeKnown; hide TagByte; hide FieldNum; hide WireType; hide WireTypeOf;
    var s := [TagByte(i, sc[i])] + body;
    TagParts(i, sc[i]);
    DecodeOneField(sc, m, i, TagByte(i, sc[i]), body, x);
    assert s[|s|..] == [];
  }

  lemma DecodeOneField(sc: Schema, m: Msg, i: nat, tag: byte, body: bytes, x: Known)
    requires |m.fields| == |sc| && i < |sc|
    requires tag < 128 && FieldNum(tag) == i + 1 && WireType(tag) == WireTypeOf(sc[i]) != 4
    requires DecodeKnown(sc[i], m.fields[i], body) == Some(x)
    ensures DecodeField(sc, m, [tag] + body) == Some(Stepped(m.(fields := m.fields[i := x.value]), 1 + x.len))
  {
    hide DecodeKnown; hide Parse; hide SkipLoop; hide FieldNum; hide WireType; hide WireTypeOf;
    ParseByte(tag, body);
    DropFirst(tag, body);
  }

  lemma DropFirst(b: byte, rest: bytes)
    ensures ([b] + rest)[1..] == rest && |[b] + rest| == 1 + |rest|
  {
  }

  lemma TagParts(i: nat, k: Kind)
    requires i < 15
    ensures TagByte(i, k) < 128
    ensures FieldNum(TagByte(i, k)) == i + 1 && WireType(TagByte(i, k)) == WireTypeOf(k) != 4
  {
  }

  lemma DecodePayload(s: bytes, rest: bytes)
    requires |s| < I63
    ensures ExtentOf(Encode(|s|) + s + rest) == Some(Extent(|Encode(|s|)|, |s|))
    ensures Payload(Encode(|s|) + s + rest) == s
    ensures PayloadEnd(Encode(|s|) + s + rest) == |Encode(|s|)| + |s|
  {
    ParseEncode(|s|, s + rest);
    assert Encode(|s|) + s + rest == Encode(|s|) + (s + rest);
  }

  lemma DecodePayloadExact(s: bytes)
    requires |s| < I63
    ensures ExtentOf(Encode(|s|) + s) == Some(Extent(|Encode(|s|)|, |s|))
    ensures Payload(Encode(|s|) + s) == s
    ensures PayloadEnd(Encode(|s|) + s) == |Encode(|s|) + s|
  {
    DecodePayload(s, []);
    assert Encode(|s|) + s + [] == Encode(|s|) + s;
  }

  lemma KnownScalar(k: Kind, v: Value, bits: nat)
    requires WireTypeOf(k) == 0 && bits < U64
    ensures DecodeKnown(k, v, Encode(bits)) == Some(Known(Scalar(k, bits), |Encode(bits)|))
  {
    hide Parse; hide Encode; hide Scalar;
    ParseEncode(bits, []);
    assert Encode(bits) + [] == Encode(bits);
  }

  lemma DecodeScalar(sc: Schema, m: Msg, i: nat, bits: nat)
    requires |m.fields| == |sc| <= 15 && i < |sc| && WireTypeOf(sc[i]) == 0 && 0 < bits < U64
    ensures Decode(sc, m, ScalarBytes(TagByte(i, sc[i]), bits))
            == Some(m.(fields := m.fields[i := Scalar(sc[i], bits)]))
  {
    hide Encode; hide Decode; hide DecodeKnown; hide TagByte; hide Scalar;
    KnownScalar(sc[i], m.fields[i], bits);
    DecodeOne(sc, m, i, Encode(bits), Known(Scalar(sc[i], bits), |Encode(bits)|));
  }

  /** One length-delimited record, when its body decodes to x. */
  lemma DecodeRecord(sc: Schema, m: Msg, i: nat, e: bytes, x: Value)
    requires |m.fields| == |sc| <= 15 && i < |sc|
    requires DecodeKnown(sc[i], m.fields[i], Encode(|e|) + e) == Some(Known(x, |Encode(|e|) + e|))
    ensures Decode(sc, m, Record(TagByte(i, sc[i]), e)) == Some(m.(fields := m.fields[i := x]))
  {
    hide Encode; hide Decode; hide DecodeKnown; hide TagByte;
    assert Record(TagByte(i, sc[i]), e) == [TagByte(i, sc[i])] + (Encode(|e|) + e);
    DecodeOne(sc, m, i, Encode(|e|) + e, Known(x, |Encode(|e|) + e|));
  }

  lemma KnownBytes(v: Value, s: bytes)
    requires |s| < I63
    ensures DecodeKnown(BytesK, v, Encode(|s|) + s) == Some(Known(BytesV(s), |Encode(|s|) + s|))
  {
    hide Encode; hide ExtentOf; hide Payload; hide PayloadEnd;
    DecodePayloadExact(s);
  }

  lemma KnownSub(of: Schema, v: Value, e: bytes, sub: Msg)
    requires |e| < I63 && Decode(of, Held(v, of), e) == Some(sub)
    ensures DecodeKnown(MessageK(of), v, Encode(|e|) + e) == Some(Known(MessageV(Some(sub)), |Encode(|e|) + e|))
  {
    hide Encode; hide Decode; hide ExtentOf; hide Payload; hide PayloadEnd; hide Held;
    DecodePayloadExact(e);
  }

  lemma KnownItem(of: Schema, v: Value, e: bytes, item: Msg)
    requires |e| < I63 && Decode(of, Fresh(of), e) == Some(item)
    ensures DecodeKnown(RepeatedK(of), v, Encode(|e|) + e)
            == Some(Known(RepeatedV(ListOf(v) + [item]), |Encode(|e|) + e|))
  {
    hide Encode; hide Decode; hide ExtentOf; hide Payload; hide PayloadEnd; hide Fresh;
    DecodePayloadExact(e);
  }

  lemma DecodeBytesRecord(sc: Schema, m: Msg, i: nat, s: bytes)
    requires |m.fields| == |sc| <= 15 && i < |sc| && sc[i].BytesK? && |s| < I63
    ensures Decode(sc, m, Record(TagByte(i, sc[i]), s)) == Some(m.(fields := m.fields[i := BytesV(s)]))
  {
    hide *;
    KnownBytes(m.fields[i], s);
    DecodeRecord(sc, m, i, s, BytesV(s));
  }

  lemma DecodeSubRecord(sc: Schema, m: Msg, i: nat, e: bytes, sub: Msg)
    requires |m.fields| == |sc| <= 15 && i < |sc| && |e| < I63
    requires sc[i].MessageK? && Decode(sc[i].of, Held(m.fields[i], sc[i].of), e) == Some(sub)
    ensures Decode(sc, m, Record(TagByte(i, sc[i]), e))
            == Some(m.(fields := m.fields[i := MessageV(Some(sub))]))
  {
    hide *;
    KnownSub(sc[i].of, m.fields[i], e, sub);
    DecodeRecord(sc, m, i, e, MessageV(Some(sub)));
  }

  lemma DecodeListRecord(sc: Schema, m: Msg, i: nat, e: bytes, item: Msg)
    requires |m.fields| == |sc| <= 15 && i < |sc| && |e| < I63
    requires sc[i].RepeatedK? && Decode(sc[i].of, Fresh(sc[i].of), e) == Some(item)
    ensures Decode(sc, m, Record(TagByte(i, sc[i]), e))
            == Some(m.(fields := m.fields[i := RepeatedV(ListOf(m.fields[i]) + [item])]))
  {
    hide *;
    KnownItem(sc[i].of, m.fields[i], e, item);
    DecodeRecord(sc, m, i, e, RepeatedV(ListOf(m.fields[i]) + [item]));
  }

  /** The inner loop reads back the key and the value of an entry the encoder wrote. */
  lemma ReadEntryBytes(key: bytes, value: bytes)
    requires |EntryBytes(key, value)| < I63
    ensures ReadEntry(EntryBytes(key, value), |EntryBytes(key, value)|, Entry([], [])) == Some(Entry(key, value))
  {
    hide Encode; hide ExtentOf; hide Payload; hide PayloadEnd; hide Skip;
    var r := EntryBytes(key, value);
    var second := Record(0x12, value);
    assert Parse(r) == Read(0x0a, 1) && FieldNum(0x0a) == 1;
    assert r[1..] == Encode(|key|) + key + second;
    DecodePayload(key, second);
    var n := 1 + |Encode(|key|)| + |key|;
    assert r[n..] == second;
    assert Parse(second) == Read(0x12, 1) && FieldNum(0x12) == 2;
    assert second[1..] == Encode(|value|) + value;
    DecodePayloadExact(value);
    assert ReadEntry(r, |r|, Entry([], [])) == ReadEntry(second, |r| - n, Entry(key, []));
    assert second[|second|..] == [];
    assert ReadEntry(second, |second|, Entry(key, [])) == ReadEntry([], 0, Entry(key, value));
  }

  lemma PayloadShorter(tag: byte, s: bytes)
    ensures |s| < |Record(tag, s)|
  {
  }

  lemma KnownEntry(v: Value, key: bytes, value: bytes)
    requires |EntryBytes(key, value)| < I63
    ensures var e := EntryBytes(key, value);
            DecodeKnown(MapK, v, Encode(|e|) + e) == Some(Known(MapV(MapOf(v)[key := value]), |Encode(|e|) + e|))
  {
    hide Encode; hide Decode; hide ExtentOf; hide Payload; hide PayloadEnd; hide ReadEntry; hide EntryBytes;
    var e := EntryBytes(key, value);
    DecodePayloadExact(e);
    ReadEntryBytes(key, value);
    assert (Encode(|e|) + e)[|Encode(|e|)|..] == e;
  }

  lemma DecodeEntryRecord(sc: Schema, m: Msg, i: nat, key: bytes, value: bytes)
    requires |m.fields| == |sc| <= 15 && i < |sc| && sc[i].MapK?
    requires |EntryRecord(TagByte(i, sc[i]), key, value)| < I63
    ensures Decode(sc, m, EntryRecord(TagByte(i, sc[i]), key, value))
            == Some(m.(fields := m.fields[i := MapV(MapOf(m.fields[i])[key := value])]))
  {
    hide EntryBytes; hide Record; hide Encode; hide Decode; hide DecodeKnown; hide TagByte;
    PayloadShorter(TagByte(i, sc[i]), EntryBytes(key, value));
    KnownEntry(m.fields[i], key, value);
    DecodeRecord(sc, m, i, EntryBytes(key, value), MapV(MapOf(m.fields[i])[key := value]));
  }

  // ----- every encoding of a field, a message

  lemma DecodeNothing(sc: Schema, m: Msg)
    requires |m.fields| == |sc|
    ensures Decode(sc, m, []) == Some(m)
  {
  }

  lemma TakeDrop(b: bytes, n: nat)
    requires n <= |b|
    ensures b[..n] + b[n..] == b
  {
  }

  /** Decoding head ++ tail, when the head is one record that sets field i to v. */
  lemma DecodeThen(sc: Schema, m: Msg, i: nat, v: Value, b: bytes, n: nat)
    requires |m.fields| == |sc| && i < |sc| && n <= |b|
    requires Decode(sc, m, b[..n]) == Some(m.(fields := m.fields[i := v]))
    ensures Decode(sc, m, b) == Decode(sc, m.(fields := m.fields[i := v]), b[n..])
  {
    hide *;
    DecodeConcat(sc, m, b[..n], b[n..]);
    TakeDrop(b, n);
  }

  lemma OverrideOne(a: map<bytes, bytes>, b: map<bytes, bytes>, key: bytes)
    requires key in b
    ensures a[key := b[key]] + (b - {key}) == a + b
  {
  }

  lemma {:induction false} DecodeMapRecords(sc: Schema, m: Msg, i: nat, entries: map<bytes, bytes>, b: bytes)
    requires |m.fields| == |sc| <= 15 && i < |sc| && sc[i].MapK? && m.fields[i].MapV? && |b| < I63
    requires EncodesMap(TagByte(i, sc[i]), entries, b)
    ensures Decode(sc, m, b) == Some(m.(fields := m.fields[i := MapV(MapOf(m.fields[i]) + entries)]))
    decreases |entries|
  {
    hide Decode; hide EntryRecord;
    if entries == map[] {
      DecodeNothing(sc, m);
      assert MapOf(m.fields[i]) + entries == MapOf(m.fields[i]);
      assert m.fields[i := MapV(MapOf(m.fields[i]))] == m.fields;
    } else {
      var key, n := FirstEntry(TagByte(i, sc[i]), entries, b);
      var m' := m.(fields := m.fields[i := MapV(MapOf(m.fields[i])[key := entries[key]])]);
      DecodeEntryRecord(sc, m, i, key, entries[key]);
      DecodeThen(sc, m, i, MapV(MapOf(m.fields[i])[key := entries[key]]), b, n);
      DecodeMapRecords(sc, m', i, entries - {key}, b[n..]);
      OverrideOne(MapOf(m.fields[i]), entries, key);
      assert m'.fields[i := MapV(MapOf(m.fields[i]) + entries)] == m.fields[i := MapV(MapOf(m.fields[i]) + entries)];
    }
  }

  lemma FirstEntry(tag: byte, entries: map<bytes, bytes>, b: bytes) returns (key: bytes, n: nat)
    requires EncodesMap(tag, entries, b) && entries != map[]
    ensures key in entries && n <= |b| && b[..n] == EntryRecord(tag, key, entries[key])
    ensures EncodesMap(tag, entries - {key}, b[n..]) && |entries - {key}| < |entries|
  {
    key :| key in entries && EntryRecord(tag, key, entries[key]) <= b
           && EncodesMap(tag, entries - {key}, b[|EntryRecord(tag, key, entries[key])|..]);
    n := |EntryRecord(tag, key, entries[key])|;
    assert (entries - {key}).Keys == entries.Keys - {key};
  }

  lemma {:induction false} DecodeListRecords(sc: Schema, m: Msg, i: nat, ms: seq<Msg>, b: bytes)
    requires ValidSchema(sc) && |m.fields| == |sc| && i < |sc| && sc[i].RepeatedK? && m.fields[i].RepeatedV?
    requires |b| < I63 && EncodesList(sc[i].of, TagByte(i, sc[i]), ms, b)
    requires forall j :: 0 <= j < |ms| ==> Wf(sc[i].of, ms[j])
    ensures Decode(sc, m, b) == Some(m.(fields := m.fields[i := RepeatedV(ListOf(m.fields[i]) + ms)]))
    decreases ms
  {
    hide Decode; hide Record; hide Encodes; hide Wf; hide Merge; hide TagByte;
    var of, tag := sc[i].of, TagByte(i, sc[i]);
    if ms == [] {
      DecodeNothing(sc, m);
      assert ListOf(m.fields[i]) + ms == ListOf(m.fields[i]);
      assert m.fields[i := RepeatedV(ListOf(m.fields[i]) + ms)] == m.fields;
    } else {
      var e, n := FirstItem(of, tag, ms, b);
      var now := ListOf(m.fields[i]) + [ms[0]];
      FreshIsTyped(of);
      DecodeEncoded(of, Fresh(of), ms[0], e);
      MergeFresh(of, ms[0]);
      DecodeListRecord(sc, m, i, e, ms[0]);
      DecodeThen(sc, m, i, RepeatedV(now), b, n);
      var m' := m.(fields := m.fields[i := RepeatedV(now)]);
      DecodeListRecords(sc, m', i, ms[1..], b[n..]);
      assert now + ms[1..] == ListOf(m.fields[i]) + ms;
      assert m'.fields[i := RepeatedV(now + ms[1..])] == m.fields[i := RepeatedV(now + ms[1..])];
    }
  }

  lemma FirstItem(of: Schema, tag: byte, ms: seq<Msg>, b: bytes) returns (e: bytes, n: nat)
    requires EncodesList(of, tag, ms, b) && ms != []
    ensures Encodes(of, ms[0], e) && |e| < n <= |b| && b[..n] == Record(tag, e) && EncodesList(of, tag, ms[1..], b[n..])
  {
    hide Encodes;
    e :| Encodes(of, ms[0], e) && Record(tag, e) <= b && EncodesList(of, tag, ms[1..], b[|Record(tag, e)|..]);
    n := |Record(tag, e)|;
  }

  lemma {:induction false} DecodeEncodedField(sc: Schema, m: Msg, i: nat, y: Value, b: bytes)
    requires ValidSchema(sc) && |m.fields| == |sc| && i < |sc| && |b| < I63
    requires TypedValue(sc[i], m.fields[i]) && WfValue(sc[i], y)
    requires EncodesField(sc[i], TagByte(i, sc[i]), y, b)
    ensures Decode(sc, m, b) == Some(m.(fields := m.fields[i := MergeValue(sc[i], m.fields[i], y)]))
    decreases y
  {
    hide Encode;
    assert m.fields[i := m.fields[i]] == m.fields;
    match y
    case IntV(x) =>
      if x != 0 {
        Signed64Inverse(x);
        if sc[i].Int32K? { Signed32Inverse(x); }
        DecodeScalar(sc, m, i, Unsigned64(x));
      }
    case BoolV(x) => if x { DecodeScalar(sc, m, i, 1); }
    case BytesV(s) => if s != [] { DecodeBytesRecord(sc, m, i, s); }
    case MapV(entries) => DecodeMapRecords(sc, m, i, entries, b);
    case MessageV(sub) =>
      if sub.Some? {
        var of := sc[i].of;
        var e :| Encodes(of, sub.value, e) && b == Record(TagByte(i, sc[i]), e);
        FreshIsTyped(of);
        DecodeEncoded(of, Held(m.fields[i], of), sub.value, e);
        DecodeSubRecord(sc, m, i, e, Merge(of, Held(m.fields[i], of), sub.value));
      }
    case RepeatedV(lists) => DecodeListRecords(sc, m, i, lists, b);
  }

  /** The message in the middle of decoding: fields below i merged, nothing unknown appended yet. */
  function MergedBelow(sc: Schema, x: Msg, y: Msg, i: nat): (m: Msg)
    requires |x.fields| == |sc| == |y.fields| && i <= |sc|
    ensures |m.fields| == |sc|
  {
    Msg(Merge(sc, x, y).fields[..i] + x.fields[i..], x.unknown)
  }

  /** Decoding any encoding of y into any message x yields their merge. */
  lemma DecodeEncoded(sc: Schema, x: Msg, y: Msg, b: bytes)
    requires ValidSchema(sc) && Typed(sc, x) && Wf(sc, y) && Encodes(sc, y, b) && |b| < I63
    ensures Decode(sc, x, b) == Some(Merge(sc, x, y))
    decreases y, |sc| + 1
  {
    hide Decode;
    assert MergedBelow(sc, x, y, 0) == x;
    DecodeEncodedFrom(sc, x, y, 0, b);
  }

  lemma {:induction false} DecodeEncodedFrom(sc: Schema, x: Msg, y: Msg, i: nat, b: bytes)
    requires ValidSchema(sc) && Typed(sc, x) && Wf(sc, y) && i <= |sc| && |b| < I63
    requires EncodesFrom(sc, y, i, b)
    ensures Decode(sc, MergedBelow(sc, x, y, i), b) == Some(Merge(sc, x, y))
    decreases y, |sc| - i
  {
    hide Decode; hide MergeValue; hide UnknownOnly; hide EncodesField; hide WfValue; hide TypedValue;
    var m := MergedBelow(sc, x, y, i);
    if i == |sc| {
      DecodeUnknown(sc, m, y.unknown);
      assert m.fields == Merge(sc, x, y).fields;
    } else {
      var c :| 0 <= c <= |b| && EncodesField(sc[i], TagByte(i, sc[i]), y.fields[i], b[..c])
               && EncodesFrom(sc, y, i + 1, b[c..]);
      DecodeEncodedField(sc, m, i, y.fields[i], b[..c]);
      var v := MergeValue(sc[i], x.fields[i], y.fields[i]);
      DecodeThen(sc, m, i, v, b, c);
      assert m.(fields := m.fields[i := v]) == MergedBelow(sc, x, y, i + 1);
      DecodeEncodedFrom(sc, x, y, i + 1, b[c..]);
    }
  }

  lemma {:induction false} DecodeUnknown(sc: Schema, m: Msg, u: bytes)
    requires |m.fields| == |sc| && UnknownOnly(sc, u)
    ensures Decode(sc, m, u) == Some(m.(unknown := m.unknown + u))
    decreases |u|
  {
    hide Parse; hide SkipLoop; hide FieldNum;
    if u == [] {
      assert m.unknown + u == m.unknown;
    } else {
      var n := Skip(u).value;
      var m' := m.(unknown := m.unknown + u[..n]);
      assert DecodeField(sc, m, u) == Some(Stepped(m', n));
      DecodeUnknown(sc, m', u[n..]);
      assert m.unknown + u[..n] + u[n..] == m.unknown + u;
    }
  }

  lemma {:induction false} MergeFresh(sc: Schema, m: Msg)
    requires Wf(sc, m)
    ensures Merge(sc, Fresh(sc), m) == m
    decreases m
  {
    var z := Fresh(sc);
    forall i | 0 <= i < |sc| ensures MergeValue(sc[i], z.fields[i], m.fields[i]) == m.fields[i] {
      assert WfValue(sc[i], m.fields[i]);
      match m.fields[i] {
        case MapV(entries) => assert map[] + entries == entries;
        case MessageV(sub) => if sub.Some? { MergeFresh(sc[i].of, sub.value); }
        case RepeatedV(lists) => assert [] + lists == lists;
        case _ =>
      }
    }
    assert Merge(sc, z, m).fields == m.fields;
    assert z.unknown + m.unknown == m.unknown;
  }

  // ----- what decoding leaves behind is well formed

  lemma {:induction false} UnknownOnlyAppend(sc: Schema, u: bytes, f: bytes)
    requires UnknownOnly(sc, u) && UnknownTag(sc, f) && Skip(f) == Some(|f|)
    ensures UnknownOnly(sc, u + f)
    decreases |u|
  {
    hide Parse; hide SkipLoop; hide FieldNum;
    if u == [] {
      assert u + f == f;
      assert f[|f|..] == [];
    } else {
      var n := Skip(u).value;
      SkipExtends(u, f);
      ParseExtends(u, f);
      assert (u + f)[n..] == u[n..] + f;
      UnknownOnlyAppend(sc, u[n..], f);
    }
  }

  lemma SkippedField(s: bytes)
    requires |s| < I63 && Skip(s).Some? && Skip(s).value <= |s|
    ensures Skip(s[..Skip(s).value]) == Skip(s)
    ensures Parse(s[..Skip(s).value]) == Parse(s)
  {
    hide HeadOf; hide Parse;
    var n := Skip(s).value;
    SkipAgreesWithGrammar(s, n);
    assert s[..n][..n] == s[..n];
    SkipAgreesWithGrammar(s[..n], n);
    HeadOfField(s[..n], s[n..]);
    assert s[..n] + s[n..] == s;
  }

  lemma {:induction false} DecodeWf(sc: Schema, m: Msg, s: bytes)
    requires Wf(sc, m) && |s| < I63 && Decode(sc, m, s).Some?
    ensures Wf(sc, Decode(sc, m, s).value)
    decreases |s|, 1
  {
    hide DecodeField; hide WfValue; hide UnknownOnly;
    if s != [] {
      DecodeFieldWf(sc, m, s);
      var x := DecodeField(sc, m, s).value;
      DecodeWf(sc, x.msg, s[x.len..]);
    }
  }

  lemma {:induction false} DecodeFieldWf(sc: Schema, m: Msg, s: bytes)
    requires Wf(sc, m) && |s| < I63 && DecodeField(sc, m, s).Some?
    ensures Wf(sc, DecodeField(sc, m, s).value.msg)
    decreases |s|, 0
  {
    hide Parse; hide DecodeKnown; hide SkipLoop; hide FieldNum; hide WfValue;
    var t, num := Parse(s).len, FieldNum(Parse(s).value);
    if num <= |sc| {
      DecodeKnownWf(sc[num - 1], m.fields[num - 1], s[t..]);
    } else {
      SkippedField(s);
      UnknownOnlyAppend(sc, m.unknown, s[..Skip(s).value]);
    }
  }

  lemma {:induction false} DecodeKnownWf(k: Kind, v: Value, r: bytes)
    requires WfValue(k, v) && |r| < I63 && DecodeKnown(k, v, r).Some?
    ensures WfValue(k, DecodeKnown(k, v, r).value.value)
    decreases |r|, 2
  {
    hide Parse; hide Decode; hide ReadEntry; hide Wf; hide Fresh;
    match k
    case MessageK(of) => FreshIsWf(of); DecodeWf(of, Held(v, of), Payload(r));
    case RepeatedK(of) => FreshIsWf(of); DecodeWf(of, Fresh(of), Payload(r));
    case _ =>
  }

  // ----- main results

  /**
   * The round trip, for every map order: decoding an encoding of m into a fresh message gives m back
   * exactly when m's unknown bytes (at every level) are complete fields the schema does not know.
   */
  lemma RoundTrip(sc: Schema, m: Msg, b: bytes)
    requires ValidSchema(sc) && Encodes(sc, m, b) && |b| < I63
    ensures Decode(sc, Fresh(sc), b) == Some(m) <==> Wf(sc, m)
  {
    hide Decode; hide Encodes; hide Wf;
    FreshIsWf(sc);
    if Wf(sc, m) {
      FreshIsTyped(sc);
      DecodeEncoded(sc, Fresh(sc), m, b);
      MergeFresh(sc, m);
    }
    if Decode(sc, Fresh(sc), b) == Some(m) {
      DecodeWf(sc, Fresh(sc), b);
    }
  }

  /** Whatever Unmarshal accepted, Marshal preserves: unknown fields, groups, duplicates and all. */
  lemma Reencoding(sc: Schema, s: bytes, b: bytes)
    requires ValidSchema(sc) && |s| < I63 && |b| < I63
    requires Decode(sc, Fresh(sc), s).Some? && Encodes(sc, Decode(sc, Fresh(sc), s).value, b)
    ensures Decode(sc, Fresh(sc), b) == Decode(sc, Fresh(sc), s)
  {
    hide Decode; hide Encodes; hide Wf;
    FreshIsWf(sc);
    DecodeWf(sc, Fresh(sc), s);
    RoundTrip(sc, Decode(sc, Fresh(sc), s).value, b);
  }

  /** Concatenated encodings decode to the merge of the messages. */
  lemma ConcatenationMerges(sc: Schema, x: Msg, y: Msg, a: bytes, b: bytes)
    requires ValidSchema(sc) && Wf(sc, x) && Wf(sc, y) && Encodes(sc, x, a) && Encodes(sc, y, b)
    requires |a| < I63 && |b| < I63
    ensures Decode(sc, Fresh(sc), a + b) == Some(Merge(sc, x, y))
  {
    hide Decode; hide Encodes; hide Wf; hide Merge;
    RoundTrip(sc, x, a);
    WfIsTyped(sc, x);
    DecodeConcat(sc, Fresh(sc), a, b);
    DecodeEncoded(sc, x, y, b);
  }
}
