/** What a message holds after Unmarshal has failed on it, in the terms of the format and of the Go types. */
module Failures {
  import opened Bytes
  import opened Varints
  import opened Skips
  import opened Schemas
  import opened Decoding
  import opened Merging
  import opened WireMessages
  import opened Readings

  /** Everything before the field that failed has been decoded as usual. */
  lemma {:induction false} RemainsConcat(sc: Schema, m: Msg, a: bytes, b: bytes)
    requires |m.fields| == |sc| && Decode(sc, m, a).Some?
    ensures Remains(sc, m, a + b) == Remains(sc, Decode(sc, m, a).value, b)
    decreases |a|
  {
    hide DecodeField; hide FieldRemains;
    if a == [] {
      assert a + b == b;
    } else {
      DecodeFieldExtends(sc, m, a, b);
      var x := DecodeField(sc, m, a).value;
      assert (a + b)[x.len..] == a[x.len..] + b;
      RemainsConcat(sc, x.msg, a[x.len..], b);
    }
  }

  // ----- a varint that breaks off

  lemma ModInGroups(v: nat, p: nat)
    requires p >= 1
    ensures v % (128 * p) == v % 128 + 128 * (v / 128 % p)
  {
    var q := v / 128;
    var a, b := q / p, q % p;
    assert q == p * a + b && v == 128 * q + v % 128;
    assert 128 * (p * a) == 128 * p * a;
    ModUnique(v, 128 * p, a, 128 * b + v % 128);
  }

  lemma {:induction false} GatheredGroups(v: nat, n: nat, fuel: nat)
    requires n < |Encode(v)| && n <= fuel
    ensures Gathered(Encode(v)[..n], fuel) == v % Pow2(7 * n)
  {
    if n > 0 {
      var s := Encode(v)[..n];
      assert s[1..] == Encode(v / 128)[..n - 1];
      GatheredGroups(v / 128, n - 1, fuel - 1);
      Pow2Seven(7 * (n - 1));
      ModInGroups(v, Pow2(7 * (n - 1)));
    }
  }

  lemma NoVarint(v: nat, n: nat)
    requires v < U64 && n < |Encode(v)|
    ensures !Parse(Encode(v)[..n]).Read?
  {
    EncodeMeans(v);
    var c := Encode(v)[..n];
    if Parse(c).Read? {
      var k := Parse(c).len;
      ParseMeans(c, k);
    }
  }

  /** An integer whose varint breaks off after n bytes is left with its 7n lowest bits. */
  lemma CutScalarLeaves(sc: Schema, m: Msg, i: nat, bits: nat, n: nat) returns (v: Value)
    requires |m.fields| == |sc| <= 15 && i < |sc| && (sc[i].Int64K? || sc[i].Int32K?)
    requires bits < U64 && n < |Encode(bits)|
    ensures var s := Encode(8 * (i + 1)) + Encode(bits)[..n];
            Decode(sc, m, s) == None && Remains(sc, m, s) == m.(fields := m.fields[i := v])
    ensures Holds(sc[i], v, bits % Pow2(7 * n))
  {
    var c := Encode(bits)[..n];
    EncodeMeans(bits);
    NoVarint(bits, n);
    GatheredGroups(bits, n, 10);
    var low := Gathered(c, 10);
    v := IntV(if sc[i].Int64K? then Signed64(low) else Signed32(low));
    BelowU64(bits, n);
    HoldsLow(sc[i], low);
    hide Holds; hide Encode; hide Parse; hide Gathered; hide Signed64; hide Signed32; hide Pow2;
    hide Remains; hide Decode;
    CutKnown(sc[i], m.fields[i], c);
    hide DecodeKnown; hide KnownRemains;
    FieldFails(sc, m, i, c);
  }

  lemma CutKnown(k: Kind, v: Value, c: bytes)
    requires (k.Int64K? || k.Int32K?) && !Parse(c).Read?
    ensures DecodeKnown(k, v, c) == None
    ensures var low := Gathered(c, 10);
            KnownRemains(k, v, c) == IntV(if k.Int64K? then Signed64(low) else Signed32(low))
  {
    hide Parse; hide Gathered; hide Signed64; hide Signed32;
  }

  lemma HoldsLow(k: Kind, low: nat)
    requires (k.Int64K? || k.Int32K?) && low < U64
    ensures Holds(k, IntV(if k.Int64K? then Signed64(low) else Signed32(low)), low)
  {
    LowBits(low);
  }

  lemma BelowU64(bits: nat, n: nat)
    requires bits < U64
    ensures bits % Pow2(7 * n) < U64
  {
    hide Pow2;
  }

  /** The field loop at a known field whose body does not decode. */
  lemma FieldFails(sc: Schema, m: Msg, i: nat, body: bytes)
    requires |m.fields| == |sc| <= 15 && i < |sc| && DecodeKnown(sc[i], m.fields[i], body) == None
    ensures var s := Encode(8 * (i + 1) + WireTypeOf(sc[i])) + body;
            && Decode(sc, m, s) == None
            && Remains(sc, m, s) == m.(fields := m.fields[i := KnownRemains(sc[i], m.fields[i], body)])
  {
    var tag := 8 * (i + 1) + WireTypeOf(sc[i]);
    TagRead(tag, body);
    SmallNumber(i + 1, WireTypeOf(sc[i]));
    EncodeNotEmpty(tag);
    hide Encode; hide Parse; hide DecodeKnown; hide KnownRemains; hide SkipLoop; hide FieldNum; hide WireType;
  }

  // ----- records

  /** A bool, a string or a map is set only once it has been read in full. */
  lemma CutElsewhereLeaves(sc: Schema, m: Msg, i: nat, r: bytes)
    requires |m.fields| == |sc| <= 15 && i < |sc| && (sc[i].BoolK? || sc[i].BytesK? || sc[i].MapK?)
    requires DecodeKnown(sc[i], m.fields[i], r) == None
    ensures Remains(sc, m, Encode(8 * (i + 1) + if sc[i].BoolK? then 0 else 2) + r) == m
  {
    hide DecodeKnown; hide Encode; hide Remains;
    FieldFails(sc, m, i, r);
    assert m.fields[i := m.fields[i]] == m.fields;
  }

  /** A tag that is refused changes nothing, whatever follows it. */
  lemma RefusedTagLeaves(sc: Schema, m: Msg, num: nat, wireType: nat, r: bytes)
    requires |m.fields| == |sc| <= 15 && num < 0x1000_0000 && wireType < 8
    requires 1 <= num <= |sc| ==> !RightWireType(sc[num - 1], wireType)
    requires num <= |sc| || wireType == 4
    ensures Remains(sc, m, Encode(8 * num + wireType) + r) == m
  {
    TagRead(8 * num + wireType, r);
    SmallNumber(num, wireType);
    EncodeNotEmpty(8 * num + wireType);
    hide Encode; hide Parse; hide DecodeKnown; hide KnownRemains; hide SkipLoop; hide FieldNum; hide WireType;
  }

  lemma SubFails(of: Schema, v: Value, p: bytes, rest: bytes)
    requires |p| < I63 && Decode(of, Held(v, of), p) == None
    ensures DecodeKnown(MessageK(of), v, Encode(|p|) + p + rest) == None
    ensures KnownRemains(MessageK(of), v, Encode(|p|) + p + rest) == MessageV(Some(Remains(of, Held(v, of), p)))
  {
    DecodePayload(p, rest);
    hide Encode; hide Decode; hide ExtentOf; hide Payload; hide PayloadEnd; hide Remains; hide Held;
  }

  lemma ItemFails(of: Schema, v: Value, p: bytes, rest: bytes)
    requires |p| < I63 && Decode(of, Fresh(of), p) == None
    ensures DecodeKnown(RepeatedK(of), v, Encode(|p|) + p + rest) == None
    ensures KnownRemains(RepeatedK(of), v, Encode(|p|) + p + rest)
            == RepeatedV(ListOf(v) + [Remains(of, Fresh(of), p)])
  {
    DecodePayload(p, rest);
    hide Encode; hide Decode; hide ExtentOf; hide Payload; hide PayloadEnd; hide Remains; hide Fresh;
  }

  /** A sub-message is decoded in place: an error inside leaves it, new or old, with what was read. */
  lemma BrokenSubLeaves(sc: Schema, m: Msg, i: nat, p: bytes, rest: bytes)
    requires |m.fields| == |sc| <= 15 && i < |sc| && sc[i].MessageK? && |p| < I63
    requires m.fields[i].MessageV? && (m.fields[i].sub.Some? ==> |m.fields[i].sub.value.fields| == |sc[i].of|)
    requires var x := if m.fields[i].sub.Some? then m.fields[i].sub.value else Fresh(sc[i].of);
             Decode(sc[i].of, x, p) == None
    ensures var x := if m.fields[i].sub.Some? then m.fields[i].sub.value else Fresh(sc[i].of);
            Remains(sc, m, RecordField(i + 1, p) + rest)
            == m.(fields := m.fields[i := MessageV(Some(Remains(sc[i].of, x, p)))])
  {
    var body := Encode(|p|) + p + rest;
    hide Encode; hide Decode; hide DecodeKnown; hide KnownRemains; hide Remains; hide Fresh;
    assert RecordField(i + 1, p) + rest == Encode(8 * (i + 1) + 2) + body;
    assert Held(m.fields[i], sc[i].of) == if m.fields[i].sub.Some? then m.fields[i].sub.value else Fresh(sc[i].of);
    SubFails(sc[i].of, m.fields[i], p, rest);
    FieldFails(sc, m, i, body);
  }

  /** A list item is appended before it is decoded, so a broken one stays, with what was read. */
  lemma BrokenItemLeaves(sc: Schema, m: Msg, i: nat, p: bytes, rest: bytes)
    requires |m.fields| == |sc| <= 15 && i < |sc| && sc[i].RepeatedK? && |p| < I63
    requires m.fields[i].RepeatedV? && Decode(sc[i].of, Fresh(sc[i].of), p) == None
    ensures Remains(sc, m, RecordField(i + 1, p) + rest)
            == m.(fields := m.fields[i := RepeatedV(m.fields[i].lists + [Remains(sc[i].of, Fresh(sc[i].of), p)])])
  {
    var body := Encode(|p|) + p + rest;
    hide Encode; hide Decode; hide DecodeKnown; hide KnownRemains; hide Remains; hide Fresh;
    assert RecordField(i + 1, p) + rest == Encode(8 * (i + 1) + 2) + body;
    ItemFails(sc[i].of, m.fields[i], p, rest);
    FieldFails(sc, m, i, body);
  }
}
