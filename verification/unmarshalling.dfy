/**
 * Unmarshal as the generated code runs it: index loops with 64-bit wrap-around on a message object
 * that is updated field by field.
 */
module Unmarshalling {
  import opened Bytes
  import opened Varints
  import opened Skips
  import opened Schemas
  import opened Decoding
  import Shapes = Packets

  /** The length prefix of a payload, and where the payload ends. */
  method ReadExtent(dAtA: bytes, at: nat) returns (iNdEx: nat, postIndex: int, err: Error)
    requires at <= |dAtA| < I63
    ensures match ExtentOf(dAtA[at..])
            case Some(x) => err == NoError && iNdEx == at + x.start && postIndex == iNdEx + x.len <= |dAtA|
            case None => err !in {NoError, Panic}
  {
    hide Parse; hide Add64;
    var bits;
    bits, iNdEx, err := ReadVarint(dAtA, at);
    postIndex := iNdEx;
    if err != NoError {
      return;
    }
    var length := Signed64(bits);
    if length < 0 {
      return iNdEx, postIndex, InvalidLength;
    }
    Add64OfIndices(iNdEx, length);
    postIndex := Add64(iNdEx, length);
    if postIndex < 0 {
      return iNdEx, postIndex, InvalidLength;
    }
    if postIndex > |dAtA| {
      return iNdEx, postIndex, UnexpectedEOF;
    }
  }

  /** Skips an unknown field inside dAtA[..end]. Without the sign test a wrapped sum is used as an index. */
  method SkipAt(dAtA: bytes, at: nat, end: nat, signTest: bool) returns (next: int, err: Error)
    requires at <= end <= |dAtA| < I63
    ensures match Skip(dAtA[at..])
            case None => err !in {NoError, Panic}
            case Some(n) =>
              if at + n >= I63 then err == if signTest then InvalidLength else Panic
              else if at + n > end then err == UnexpectedEOF
              else err == NoError && at < next == at + n
  {
    hide Add64; hide SkipLoop;
    next := at;
    var skippy;
    skippy, err := SkipField(dAtA[at..]);
    if err != NoError {
      return;
    }
    SkipIsFieldLen(dAtA[at..]);
    Add64OfIndices(at, skippy);
    next := Add64(at, skippy);
    if signTest && next < 0 {
      return next, InvalidLength;
    }
    if next > end {
      return next, UnexpectedEOF;
    }
    if next < 0 {
      // the loop goes on, and its next turn reads dAtA[next]
      return next, Panic;
    }
  }

  /** Reading the entry s[i..post] comes to a skip whose length wraps the index around. */
  ghost predicate EntryWraps(s: bytes, i: nat, post: nat)
    requires i <= |s| && post <= |s|
    decreases |s| - i
  {
    i < post &&
    match Parse(s[i..])
    case Read(tag, t) => (
      if FieldNum(tag) == 1 || FieldNum(tag) == 2 then
        ExtentOf(s[i + t..]).Some? && EntryWraps(s, i + t + PayloadEnd(s[i + t..]), post)
      else
        match Skip(s[i..])
        case Some(n) => i + n >= I63 || (i + n <= post && EntryWraps(s, i + n, post))
        case None => false)
    case _ => false
  }

  /** Decoding s into m reaches, from index i on, a map entry whose index wraps around. */
  ghost predicate Wraps(sc: Schema, m: Msg, s: bytes, i: nat)
    requires |m.fields| == |sc| && i <= |s|
    decreases |s|, |s| - i
  {
    i < |s| && (HeadWraps(sc, m, s, i) ||
      match DecodeField(sc, m, s[i..])
      case Some(x) => Wraps(sc, x.msg, s, i + x.len)
      case None => false)
  }

  /** The field at index i is a known one and wraps. */
  ghost predicate HeadWraps(sc: Schema, m: Msg, s: bytes, i: nat)
    requires |m.fields| == |sc| && i < |s|
    decreases |s|, |s| - i, 0
  {
    match Parse(s[i..])
    case Read(tag, t) =>
      var num := FieldNum(tag);
      && 1 <= num <= |sc| && WireType(tag) == WireTypeOf(sc[num - 1])
      && FieldWraps(sc[num - 1], m.fields[num - 1], s, i + t)
    case _ => false
  }

  ghost predicate FieldWraps(k: Kind, v: Value, s: bytes, at: nat)
    requires at <= |s|
    decreases |s|, |s| - at, 1
  {
    WireTypeOf(k) != 0 && ExtentOf(s[at..]).Some? &&
    match k
    case MapK => EntryWraps(s, at + ExtentOf(s[at..]).value.start, at + PayloadEnd(s[at..]))
    case MessageK(of) => Wraps(of, Held(v, of), Payload(s[at..]), 0)
    case RepeatedK(of) => Wraps(of, Fresh(of), Payload(s[at..]), 0)
    case _ => false
  }

  lemma ScanMore(b: byte, rest: bytes, fuel: nat, v: nat, n: nat)
    requires b >= 128 && fuel > 0 && Scan(rest, fuel - 1) == Read(v, n)
    ensures Scan([b] + rest, fuel) == Read(b - 128 + 128 * v, n + 1)
  {
    assert ([b] + rest)[1..] == rest;
  }

  lemma LongLength()
    ensures Parse([0xf5, 0xff, 0xff, 0xff, 0xff, 0xff, 0xff, 0xff, 0x7f]) == Read(I63 - 11, 9)
  {
    var s: bytes := [0x7f];
    assert Scan(s, 2) == Read(0x7f, 1);
    hide Scan;
    ScanMore(0xff, s, 3, 0x7f, 1);
    ScanMore(0xff, [0xff] + s, 4, 0x3fff, 2);
    ScanMore(0xff, [0xff] + ([0xff] + s), 5, 0x1f_ffff, 3);
    ScanMore(0xff, [0xff] + ([0xff] + ([0xff] + s)), 6, 0xfff_ffff, 4);
    s := [0xff] + ([0xff] + ([0xff] + ([0xff] + s)));
    ScanMore(0xff, s, 7, 0x7_ffff_ffff, 5);
    ScanMore(0xff, [0xff] + s, 8, 0x3ff_ffff_ffff, 6);
    ScanMore(0xff, [0xff] + ([0xff] + s), 9, 0x1_ffff_ffff_ffff, 7);
    s := [0xff] + ([0xff] + ([0xff] + s));
    ScanMore(0xf5, s, 10, 0xff_ffff_ffff_ffff, 8);
    assert [0xf5] + s == [0xf5, 0xff, 0xff, 0xff, 0xff, 0xff, 0xff, 0xff, 0x7f];
  }

  /**
   * A Request whose map entry does wrap: the entry holds an unknown field that announces 2^63 - 11
   * bytes, so the sum of index and length passes 2^63.
   */
  lemma EntryCanWrap(m: Msg)
    requires |m.fields| == 4
    ensures Wraps(Shapes.REQUEST_SCHEMA, m, [0x1a, 10, 0x1a, 0xf5, 0xff, 0xff, 0xff, 0xff, 0xff, 0xff, 0xff, 0x7f], 0)
  {
    hide Parse; hide DecodeField; hide EntryWraps; hide SkipLoop;
    var entry: bytes := [0x1a, 0xf5, 0xff, 0xff, 0xff, 0xff, 0xff, 0xff, 0xff, 0x7f];
    var s: bytes := [0x1a, 10] + entry;
    LongEntry();
    assert s[2..] == entry;
    EntryWrapsAt(s);
    assert s[0..] == [0x1a] + ([10] + entry) && s[1..] == [10] + entry;
    ParseByte(0x1a, [10] + entry);
    ParseByte(10, entry);
    assert HeadWraps(Shapes.REQUEST_SCHEMA, m, s, 0);
    assert s == [0x1a, 10, 0x1a, 0xf5, 0xff, 0xff, 0xff, 0xff, 0xff, 0xff, 0xff, 0x7f];
  }

  lemma EntryWrapsAt(s: bytes)
    requires |s| == 12 && Parse(s[2..]) == Read(0x1a, 1) && Skip(s[2..]) == Some(I63 - 1)
    ensures EntryWraps(s, 2, 12)
  {
    hide Parse; hide SkipLoop;
  }

  lemma LongEntry()
    ensures var entry := [0x1a, 0xf5, 0xff, 0xff, 0xff, 0xff, 0xff, 0xff, 0xff, 0x7f];
            Parse(entry) == Read(0x1a, 1) && Skip(entry) == Some(I63 - 1)
  {
    var length: bytes := [0xf5, 0xff, 0xff, 0xff, 0xff, 0xff, 0xff, 0xff, 0x7f];
    var entry: bytes := [0x1a] + length;
    hide Parse;
    LongLength();
    ParseByte(0x1a, length);
    assert entry[1..] == length;
    assert entry == [0x1a, 0xf5, 0xff, 0xff, 0xff, 0xff, 0xff, 0xff, 0xff, 0x7f];
  }

  /** What is known of a map entry from index i on, once its loop has gone on from `at` to i. */
  ghost predicate SameRest(s: bytes, at: nat, post: nat, e: Entry, i: nat, e': Entry)
    requires at <= |s| && i <= |s| && post <= |s|
  {
    && ReadEntry(s[at..], post - at, e) == ReadEntry(s[i..], post - i, e')
    && EntryWraps(s, at, post) == EntryWraps(s, i, post)
  }

  /** The entry read from index `at` on fails, by a wrapped index if `wraps`. */
  ghost predicate FailsAt(s: bytes, at: nat, post: nat, e: Entry, wraps: bool)
    requires at <= |s| && post <= |s|
  {
    ReadEntry(s[at..], post - at, e) == None && EntryWraps(s, at, post) == wraps
  }

  lemma PieceRest(s: bytes, at: nat, post: nat, e: Entry)
    requires at < post <= |s| && Parse(s[at..]).Read? && FieldNum(Parse(s[at..]).value) in {1, 2}
    ensures var r, key := s[at + Parse(s[at..]).len..], FieldNum(Parse(s[at..]).value) == 1;
            if ExtentOf(r).None? then FailsAt(s, at, post, e, false)
            else SameRest(s, at, post, e, at + Parse(s[at..]).len + PayloadEnd(r),
                          if key then e.(key := Payload(r)) else e.(value := Payload(r)))
  {
    hide Parse; hide SkipLoop; hide ExtentOf; hide FieldNum; hide Payload; hide PayloadEnd;
    var t := Parse(s[at..]).len;
    Suffix(s, at, at + t);
    if ExtentOf(s[at + t..]).Some? {
      Suffix(s, at, at + t + PayloadEnd(s[at + t..]));
    }
  }

  lemma SkipRest(s: bytes, at: nat, post: nat, e: Entry)
    requires at < post <= |s| < I63 && Parse(s[at..]).Read? && FieldNum(Parse(s[at..]).value) !in {1, 2}
    ensures match Skip(s[at..])
            case None => FailsAt(s, at, post, e, false)
            case Some(n) =>
              if at + n <= post then SameRest(s, at, post, e, at + n, e)
              else FailsAt(s, at, post, e, at + n >= I63)
  {
    hide Parse; hide SkipLoop; hide FieldNum;
    match Skip(s[at..])
    case None =>
    case Some(n) => if at + n <= post { Suffix(s, at, at + n); }
  }

  lemma NoTag(s: bytes, at: nat, post: nat, e: Entry)
    requires at < post <= |s| && !Parse(s[at..]).Read?
    ensures FailsAt(s, at, post, e, false)
  {
    hide Parse;
  }

  /** One turn of the loop over a map entry. */
  method UnmarshalEntryField(dAtA: bytes, at: nat, postIndex: nat, strict: bool, mapkey: bytes, mapvalue: bytes)
    returns (key: bytes, value: bytes, iNdEx: nat, err: Error)
    requires at < postIndex <= |dAtA| < I63
    ensures if err == NoError
            then
              && at < iNdEx <= |dAtA|
              && SameRest(dAtA, at, postIndex, Entry(mapkey, mapvalue), iNdEx, Entry(key, value))
            else exists wraps ::
              FailsAt(dAtA, at, postIndex, Entry(mapkey, mapvalue), wraps) && (err == Panic <==> !strict && wraps)
  {
    hide Parse; hide Skip; hide ExtentOf; hide FieldNum; hide Payload; hide PayloadEnd; hide SameRest; hide FailsAt;
    ghost var e := Entry(mapkey, mapvalue);
    key, value := mapkey, mapvalue;
    var tag;
    tag, iNdEx, err := ReadVarint(dAtA, at);
    if err != NoError {
      NoTag(dAtA, at, postIndex, e);
      return;
    }
    var fieldNum := FieldNum(tag);
    if fieldNum == 1 || fieldNum == 2 {
      PieceRest(dAtA, at, postIndex, e);
      var from, post;
      from, post, err := ReadExtent(dAtA, iNdEx);
      if err != NoError {
        return;
      }
      PayloadAt(dAtA, iNdEx);
      if fieldNum == 1 {
        key := dAtA[from..post];
      } else {
        value := dAtA[from..post];
      }
      iNdEx := post;
    } else {
      SkipRest(dAtA, at, postIndex, e);
      var next;
      next, err := SkipAt(dAtA, at, postIndex, strict);
      if err == NoError {
        iNdEx := next;
      }
    }
  }

  /**
   * The loop over one map entry. Keys and values may run past postIndex, never past the buffer.
   * Only with `strict` (usernode.pb.go) is the wrapped sum after skipping tested; without it
   * (packet.pb.go) the loop goes on with a negative index, and indexing dAtA with it panics.
   */
  method UnmarshalEntry(dAtA: bytes, start: nat, postIndex: nat, strict: bool)
    returns (mapkey: bytes, mapvalue: bytes, err: Error)
    requires start <= postIndex <= |dAtA| < I63
    ensures err == Panic <==> !strict && EntryWraps(dAtA, start, postIndex)
    ensures match ReadEntry(dAtA[start..], postIndex - start, Entry([], []))
            case Some(e) => err == NoError && e == Entry(mapkey, mapvalue)
            case None => err != NoError
  {
    hide Parse; hide SkipLoop; hide ExtentOf; hide FieldNum; hide Payload; hide PayloadEnd;
    mapkey, mapvalue, err := [], [], NoError;
    var iNdEx := start;
    ghost var goal := ReadEntry(dAtA[start..], postIndex - start, Entry([], []));
    while iNdEx < postIndex
      invariant start <= iNdEx <= |dAtA| && err == NoError
      invariant goal == ReadEntry(dAtA[iNdEx..], postIndex - iNdEx, Entry(mapkey, mapvalue))
      invariant EntryWraps(dAtA, start, postIndex) == EntryWraps(dAtA, iNdEx, postIndex)
      decreases |dAtA| - iNdEx
    {
      mapkey, mapvalue, iNdEx, err := UnmarshalEntryField(dAtA, iNdEx, postIndex, strict, mapkey, mapvalue);
      if err != NoError {
        return;
      }
    }
  }

  lemma Suffix(s: bytes, i: nat, j: nat)
    requires i <= j <= |s|
    ensures s[i..][j - i..] == s[j..]
  {
  }

  lemma PayloadAt(s: bytes, i: nat)
    requires i <= |s| && ExtentOf(s[i..]).Some?
    ensures var x := ExtentOf(s[i..]).value;
            Payload(s[i..]) == s[i + x.start..i + x.start + x.len] && PayloadEnd(s[i..]) == x.start + x.len
  {
  }

  /** A varint field by the width of its accumulator: what is read, and what a failure leaves. */
  lemma ScalarField(k: Kind, v: Value, r: bytes)
    requires WireTypeOf(k) == 0
    ensures var bits := Gathered(r, 10) % if k.Int32K? then U32 else U64;
            match Parse(r)
            case Read(x, n) => DecodeKnown(k, v, r) == Some(Known(Scalar(k, x % if k.Int32K? then U32 else U64), n))
            case _ => DecodeKnown(k, v, r) == None && KnownRemains(k, v, r) == if k.BoolK? then v else Scalar(k, bits)
  {
    hide Parse; hide Gathered; hide Signed64; hide Signed32;
    SameWidth(Gathered(r, 10));
    match Parse(r)
    case Read(x, n) => SameWidth(x);
    case _ =>
  }

  lemma SameWidth(x: nat)
    ensures Signed64(x % U64) == Signed64(x) && Signed32(x % U32) == Signed32(x)
  {
  }

  class Message {
    const schema: Schema
    const strict: bool
    var fields: seq<Value>
    var unrecognized: bytes

    ghost predicate Valid()
      reads this
    {
      |fields| == |schema|
    }

    function Get(): Msg
      reads this
    {
      Msg(fields, unrecognized)
    }

    constructor (schema: Schema, strict: bool, m: Msg)
      requires |m.fields| == |schema|
      ensures Valid() && Get() == m
      ensures this.schema == schema && this.strict == strict
    {
      this.schema, this.strict := schema, strict;
      fields, unrecognized := m.fields, m.unknown;
    }

    /**
     * Decodes dAtA into this message: exactly what Decode computes, or an error exactly when Decode
     * fails. The one way to index out of range is a wrapped map entry, and `strict` excludes it.
     */
    method Unmarshal(dAtA: bytes) returns (err: Error)
      requires Valid() && |dAtA| < I63
      modifies this
      ensures Valid()
      ensures err == Panic <==> !strict && Wraps(schema, old(Get()), dAtA, 0)
      ensures match Decode(schema, old(Get()), dAtA)
              case Some(m) => err == NoError && Get() == m
              case None => err != NoError && Get() == Remains(schema, old(Get()), dAtA)
      decreases |dAtA|, 2
    {
      hide DecodeField; hide HeadWraps; hide FieldRemains;
      var l := |dAtA|;
      var iNdEx := 0;
      ghost var goal := Decode(schema, Get(), dAtA);
      assert dAtA[0..] == dAtA;
      err := NoError;
      while iNdEx < l
        invariant 0 <= iNdEx <= l && Valid() && err == NoError
        invariant goal == Decode(schema, Get(), dAtA[iNdEx..])
        invariant Remains(schema, old(Get()), dAtA) == Remains(schema, Get(), dAtA[iNdEx..])
        invariant !strict ==> Wraps(schema, old(Get()), dAtA, 0) == Wraps(schema, Get(), dAtA, iNdEx)
        decreases l - iNdEx
      {
        ghost var preIndex := iNdEx;
        iNdEx, err := UnmarshalHead(dAtA, iNdEx);
        if err != NoError {
          return;
        }
        Suffix(dAtA, preIndex, iNdEx);
      }
      if iNdEx > l {
        assert false;
      }
    }

    /** One turn of the field loop: the tag, and then the switch. */
    method UnmarshalHead(dAtA: bytes, at: nat) returns (iNdEx: nat, err: Error)
      requires Valid() && at < |dAtA| < I63
      modifies this
      ensures Valid()
      ensures err == Panic <==> !strict && HeadWraps(schema, old(Get()), dAtA, at)
      ensures match DecodeField(schema, old(Get()), dAtA[at..])
              case Some(x) => err == NoError && iNdEx == at + x.len && Get() == x.msg
              case None => err != NoError && Get() == FieldRemains(schema, old(Get()), dAtA[at..])
      decreases |dAtA| - at, 1
    {
      hide Parse; hide SkipLoop; hide FieldNum; hide DecodeKnown; hide FieldWraps; hide KnownRemains;
      var preIndex := at;
      var tag;
      tag, iNdEx, err := ReadVarint(dAtA, at);
      if err != NoError {
        return;
      }
      var fieldNum, wireType := FieldNum(tag), WireType(tag);
      if wireType == 4 {
        return iNdEx, UnexpectedEndOfGroup;
      }
      if fieldNum <= 0 {
        return iNdEx, IllegalTag;
      }
      Suffix(dAtA, preIndex, iNdEx);
      if fieldNum <= |schema| {
        if wireType != WireTypeOf(schema[fieldNum - 1]) {
          return iNdEx, WrongWireType;
        }
        iNdEx, err := UnmarshalField(fieldNum - 1, dAtA, iNdEx);
      } else {
        var next;
        next, err := SkipAt(dAtA, preIndex, |dAtA|, true);
        if err == NoError {
          assert dAtA[preIndex..][..next - preIndex] == dAtA[preIndex..next];
          unrecognized := unrecognized + dAtA[preIndex..next];
          iNdEx := next;
        }
      }
    }

    /** The case for field i + 1 of the switch. */
    method UnmarshalField(i: nat, dAtA: bytes, at: nat) returns (iNdEx: nat, err: Error)
      requires Valid() && i < |schema| && at <= |dAtA| < I63
      modifies this
      ensures Valid() && unrecognized == old(unrecognized)
      ensures err == Panic <==> !strict && FieldWraps(schema[i], old(fields[i]), dAtA, at)
      ensures match DecodeKnown(schema[i], old(fields[i]), dAtA[at..])
              case Some(x) => err == NoError && iNdEx == at + x.len && fields == old(fields)[i := x.value]
              case None =>
                err != NoError && fields == old(fields)[i := KnownRemains(schema[i], old(fields[i]), dAtA[at..])]
      decreases |dAtA| - at, 0
    {
      hide Parse; hide ReadEntry; hide ExtentOf; hide Payload; hide PayloadEnd; hide Decode;
      hide EntryWraps; hide Wraps; hide Remains; hide Gathered; hide Scalar;
      var k := schema[i];
      if WireTypeOf(k) == 0 {
        iNdEx, err := UnmarshalScalar(i, dAtA, at);
        return;
      }
      var postIndex;
      iNdEx, postIndex, err := ReadExtent(dAtA, at);
      if err != NoError {
        assert fields[i := fields[i]] == fields;
        return;
      }
      PayloadAt(dAtA, at);
      Suffix(dAtA, at, iNdEx);
      if k.MapK? {
        var mapkey, mapvalue;
        mapkey, mapvalue, err := UnmarshalEntry(dAtA, iNdEx, postIndex, strict);
        if err == NoError {
          fields := fields[i := MapV(MapOf(fields[i])[mapkey := mapvalue])];
        } else {
          assert fields[i := fields[i]] == fields;
        }
      } else if k.BytesK? {
        fields := fields[i := BytesV(dAtA[iNdEx..postIndex])];
      } else {
        err := UnmarshalSub(i, dAtA[iNdEx..postIndex]);
      }
      iNdEx := postIndex;
    }

    /** A varint field. An int starts from zero and collects groups in place, a bool is set at the end. */
    method UnmarshalScalar(i: nat, dAtA: bytes, at: nat) returns (iNdEx: nat, err: Error)
      requires Valid() && i < |schema| && at <= |dAtA| < I63 && WireTypeOf(schema[i]) == 0
      modifies this
      ensures unrecognized == old(unrecognized) && err != Panic
      ensures match DecodeKnown(schema[i], old(fields[i]), dAtA[at..])
              case Some(x) => err == NoError && iNdEx == at + x.len && fields == old(fields)[i := x.value]
              case None =>
                err != NoError && fields == old(fields)[i := KnownRemains(schema[i], old(fields[i]), dAtA[at..])]
    {
      hide Parse; hide Gathered; hide DecodeKnown; hide KnownRemains; hide Scalar;
      var k := schema[i];
      ScalarField(k, fields[i], dAtA[at..]);
      var bits;
      bits, iNdEx, err := ReadVarint(dAtA, at, if k.Int32K? then U32 else U64);
      if err == NoError || !k.BoolK? {
        fields := fields[i := Scalar(k, bits)];
      } else {
        assert fields[i := fields[i]] == fields;
      }
    }

    /** A message field: the present sub-message, or a new list item, decodes the payload itself. */
    method UnmarshalSub(i: nat, payload: bytes) returns (err: Error)
      requires Valid() && i < |schema| && |payload| < I63 && (schema[i].MessageK? || schema[i].RepeatedK?)
      modifies this
      ensures unrecognized == old(unrecognized)
      ensures var k, v := schema[i], old(fields[i]);
              var m := if k.MessageK? then Held(v, k.of) else Fresh(k.of);
              var r := Remains(k.of, m, payload);
              && (err == Panic <==> !strict && Wraps(k.of, m, payload, 0))
              && (err == NoError <==> Decode(k.of, m, payload).Some?)
              && fields == old(fields)[i := if k.MessageK? then MessageV(Some(r)) else RepeatedV(ListOf(v) + [r])]
      decreases |payload|, 3
    {
      hide Decode; hide Wraps;
      var k := schema[i];
      if k.MessageK? {
        var sub := new Message(k.of, strict, Held(fields[i], k.of));
        err := sub.Unmarshal(payload);
        fields := fields[i := MessageV(Some(sub.Get()))];
      } else {
        var item := new Message(k.of, strict, Fresh(k.of));
        err := item.Unmarshal(payload);
        fields := fields[i := RepeatedV(ListOf(fields[i]) + [item.Get()])];
      }
    }
  }
}
