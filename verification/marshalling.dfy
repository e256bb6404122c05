/** Size, Marshal and MarshalToSizedBuffer: the encoders, writing backwards into a byte array. */
module Marshalling {
  import opened Bytes
  import opened Varints
  import opened Schemas
  import opened Encoding

  // ----- Size

  method Size(sc: Schema, m: Msg) returns (n: nat)
    requires Typed(sc, m)
    ensures n == SizeOf(sc, m)
    decreases m, 1
  {
    n := 0;
    for i := 0 to |sc|
      invariant n + SizeFrom(sc, m, i) == SizeOf(sc, m)
    {
      var l := SizeField(sc[i], m.fields[i]);
      n := n + l;
    }
    n := n + |m.unknown|;
  }

  method SizeField(k: Kind, v: Value) returns (n: nat)
    requires TypedValue(k, v)
    ensures n == FieldSize(k, v)
    decreases v
  {
    hide Sov; hide MapSize; hide ListSize; hide SizeOf;
    n := 0;
    match v {
      case IntV(i) => if i != 0 { n := 1 + Sov(Unsigned64(i)); }
      case BoolV(b) => if b { n := 2; }
      case BytesV(s) => if |s| > 0 { n := 1 + |s| + Sov(|s|); }
      case MapV(entries) => n := SizeMap(entries);
      case MessageV(sub) =>
        if sub.Some? {
          var l := Size(k.of, sub.value);
          n := 1 + l + Sov(l);
        }
      case RepeatedV(lists) => n := SizeList(k.of, lists);
    }
  }

  method SizeMap(entries: map<bytes, bytes>) returns (n: nat)
    ensures n == MapSize(entries)
  {
    hide Sov; hide MapSize;
    MapSizeEmpty();
    n := 0;
    var left := entries;
    while left != map[]
      invariant n + MapSize(left) == MapSize(entries)
      decreases |left|
    {
      var key := PickKey(left);
      var value := left[key];
      MapSizeAnyOrder(left, key);
      var mapEntrySize := 1 + |key| + Sov(|key|) + 1 + |value| + Sov(|value|);
      n := n + mapEntrySize + 1 + Sov(mapEntrySize);
      RemoveKey(left, key);
      left := left - {key};
    }
  }

  method SizeList(of: Schema, lists: seq<Msg>) returns (n: nat)
    requires forall j :: 0 <= j < |lists| ==> Typed(of, lists[j])
    ensures n == ListSize(of, lists)
    decreases lists
  {
    hide Sov; hide SizeOf;
    n := 0;
    for j := 0 to |lists|
      invariant n + ListSize(of, lists[j..]) == ListSize(of, lists)
    {
      var l := Size(of, lists[j]);
      n := n + 1 + l + Sov(l);
      assert lists[j..][1..] == lists[j + 1..];
    }
  }

  /** The next key of Go's `range` over a map: any key not visited yet. */
  method PickKey(m: map<bytes, bytes>) returns (key: bytes)
    requires m != map[]
    ensures key in m
  {
    assert m.Keys != {};
    key :| key in m;
  }

  lemma RemoveKey(m: map<bytes, bytes>, key: bytes)
    requires key in m
    ensures |m - {key}| < |m|
  {
    assert (m - {key}).Keys == m.Keys - {key};
  }

  // ----- pieces of the backward writer

  /** `after` is `before` with the bytes from i up to hi replaced by x. */
  ghost predicate Spliced(before: bytes, after: bytes, i: int, hi: nat, x: bytes) {
    0 <= i && i + |x| == hi <= |before| && after == before[..i] + x + before[hi..]
  }

  /** Writing x below hi and then y below that leaves y + x below hi. */
  lemma SpliceMore(a: bytes, b: bytes, c: bytes, i: int, j: nat, hi: nat, x: bytes, y: bytes)
    requires Spliced(a, b, j, hi, x) && Spliced(b, c, i, j, y)
    ensures Spliced(a, c, i, hi, y + x)
  {
    assert b[..i] == a[..i];
    assert b[j..] == x + a[hi..];
  }

  lemma SpliceReads(a: bytes, b: bytes, i: int, hi: nat, x: bytes)
    requires Spliced(a, b, i, hi, x)
    ensures 0 <= i == hi - |x| && hi <= |a| == |b|
    ensures b[i..hi] == x && b[..i] == a[..i] && b[hi..] == a[hi..]
  {
  }

  lemma SpliceNothing(a: bytes, hi: nat)
    requires hi <= |a|
    ensures Spliced(a, a, hi, hi, [])
  {
    assert a == a[..hi] + [] + a[hi..];
  }

  method PutBytes(dAtA: array<byte>, i: nat, s: bytes) returns (at: nat)
    requires |s| <= i <= dAtA.Length
    modifies dAtA
    ensures Spliced(old(dAtA[..]), dAtA[..], at, i, s)
  {
    at := i - |s|;
    forall j | 0 <= j < |s| {
      dAtA[at + j] := s[j];
    }
  }

  method PutTag(dAtA: array<byte>, i: nat, tag: byte) returns (at: nat)
    requires 1 <= i <= dAtA.Length
    modifies dAtA
    ensures Spliced(old(dAtA[..]), dAtA[..], at, i, [tag])
  {
    at := i - 1;
    dAtA[at] := tag;
  }

  method PutVarint(dAtA: array<byte>, i: nat, v: nat) returns (at: nat)
    requires v < U64 && Sov(v) <= i <= dAtA.Length
    modifies dAtA
    ensures Spliced(old(dAtA[..]), dAtA[..], at, i, Encode(v))
  {
    hide Encode; hide Sov;
    SovIsLength(v);
    at := EncodeVarint(dAtA, i, v);
    assert dAtA[..] == dAtA[..at] + dAtA[at..];
    assert old(dAtA[..])[..at] == old(dAtA[..at]) && old(dAtA[..])[i..] == old(dAtA[i..]);
  }

  /** The payload s already stands in dAtA[i..hi]; puts its length and its tag in front. */
  method FinishRecord(dAtA: array<byte>, i: nat, hi: nat, tag: byte, ghost s: bytes, ghost before: bytes)
    returns (at: nat)
    requires dAtA.Length < I63 && Spliced(before, dAtA[..], i, hi, s) && RecordSize(|s|) <= hi
    modifies dAtA
    ensures Spliced(before, dAtA[..], at, hi, Record(tag, s))
  {
    SpliceReads(before, dAtA[..], i, hi, s);
    hide Encode; hide Sov; hide Spliced;
    ghost var d0 := dAtA[..];
    at := PutVarint(dAtA, i, hi - i);
    ghost var d1 := dAtA[..];
    SpliceMore(before, d0, d1, at, i, hi, s, Encode(|s|));
    SovIsLength(|s|);
    SpliceReads(d0, d1, at, i, Encode(|s|));
    ghost var j := at;
    at := PutTag(dAtA, at, tag);
    SpliceMore(before, d1, dAtA[..], at, j, hi, Encode(|s|) + s, [tag]);
    assert [tag] + (Encode(|s|) + s) == Record(tag, s);
  }

  /** Payload, length, tag: written in that order, read in the opposite one. */
  method PutRecord(dAtA: array<byte>, i: nat, tag: byte, s: bytes) returns (at: nat)
    requires RecordSize(|s|) <= i <= dAtA.Length < I63
    modifies dAtA
    ensures Spliced(old(dAtA[..]), dAtA[..], at, i, Record(tag, s))
  {
    hide Encode; hide Sov; hide Spliced;
    at := PutBytes(dAtA, i, s);
    at := FinishRecord(dAtA, at, i, tag, s, old(dAtA[..]));
  }

  method PutScalar(dAtA: array<byte>, i: nat, tag: byte, bits: nat) returns (at: nat)
    requires bits < U64 && ScalarSize(bits) <= i <= dAtA.Length
    modifies dAtA
    ensures Spliced(old(dAtA[..]), dAtA[..], at, i, ScalarBytes(tag, bits))
  {
    hide Encode; hide Sov;
    at := i;
    if bits == 0 {
      SpliceNothing(dAtA[..], i);
    } else {
      SovIsLength(bits);
      at := PutVarint(dAtA, at, bits);
      ghost var d, j := dAtA[..], at;
      at := PutTag(dAtA, at, tag);
      SpliceMore(old(dAtA[..]), d, dAtA[..], at, j, i, Encode(bits), [tag]);
    }
  }

  method PutEntry(dAtA: array<byte>, i: nat, tag: byte, key: bytes, value: bytes) returns (at: nat)
    requires EntrySize(key, value) <= i <= dAtA.Length < I63
    modifies dAtA
    ensures Spliced(old(dAtA[..]), dAtA[..], at, i, EntryRecord(tag, key, value))
  {
    hide Sov; hide Record; hide Spliced;
    ghost var d0 := dAtA[..];
    RecordLength(0x12, value);
    RecordLength(0x0a, key);
    at := PutRecord(dAtA, i, 0x12, value);
    ghost var d1, j := dAtA[..], at;
    SpliceReads(d0, d1, j, i, Record(0x12, value));
    at := PutRecord(dAtA, at, 0x0a, key);
    SpliceMore(d0, d1, dAtA[..], at, j, i, Record(0x12, value), Record(0x0a, key));
    SpliceReads(d1, dAtA[..], at, j, Record(0x0a, key));
    at := FinishRecord(dAtA, at, i, tag, EntryBytes(key, value), d0);
  }

  // ----- MarshalToSizedBuffer

  lemma {:induction false} SizeFromBelow(sc: Schema, m: Msg, j: nat, i: nat)
    requires |m.fields| == |sc| && j <= i <= |sc|
    ensures SizeFrom(sc, m, i) <= SizeFrom(sc, m, j)
    decreases i - j
  {
    if j < i { SizeFromBelow(sc, m, j + 1, i); }
  }

  lemma {:induction false} ListSizeBelow(of: Schema, lists: seq<Msg>, n: nat)
    requires n <= |lists|
    ensures ListSize(of, lists[n..]) <= ListSize(of, lists)
    decreases n
  {
    if n == 0 {
      assert lists[0..] == lists;
    } else {
      assert lists[1..][n - 1..] == lists[n..];
      ListSizeBelow(of, lists[1..], n - 1);
    }
  }

  /**
   * Puts an encoding b of m in the last SizeOf(sc, m) bytes of dAtA[..hi] and returns that size: the
   * index never drops below zero, and nothing outside those bytes changes.
   */
  method MarshalToSizedBuffer(sc: Schema, m: Msg, dAtA: array<byte>, hi: nat) returns (size: nat, ghost b: bytes)
    requires ValidSchema(sc) && Typed(sc, m)
    requires SizeOf(sc, m) <= hi <= dAtA.Length < I63
    modifies dAtA
    ensures size == SizeOf(sc, m) && Encodes(sc, m, b)
    ensures Spliced(old(dAtA[..]), dAtA[..], hi - size, hi, b)
    decreases m, 1
  {
    hide FieldSize; hide EncodesField; hide TypedValue; hide ValidKind; hide TagByte;
    ghost var d0 := dAtA[..];
    SizeFromBelow(sc, m, 0, |sc|);
    var i := PutBytes(dAtA, hi, m.unknown);
    b := m.unknown;
    for f := |sc| downto 0
      invariant i == hi - SizeFrom(sc, m, f)
      invariant EncodesFrom(sc, m, f, b)
      invariant Spliced(d0, dAtA[..], i, hi, b)
    {
      ghost var d, j, behind := dAtA[..], i, b;
      SizeFromBelow(sc, m, 0, f);
      ghost var x;
      i, x := MarshalField(sc[f], TagByte(f, sc[f]), m.fields[f], dAtA, i);
      b := x + behind;
      SpliceMore(d0, d, dAtA[..], i, j, hi, behind, x);
      assert b[..|x|] == x && b[|x|..] == behind;
    }
    size := hi - i;
  }

  method MarshalField(k: Kind, tag: byte, v: Value, dAtA: array<byte>, hi: nat) returns (i: nat, ghost b: bytes)
    requires ValidKind(k) && TypedValue(k, v)
    requires FieldSize(k, v) <= hi <= dAtA.Length < I63
    modifies dAtA
    ensures i == hi - FieldSize(k, v) && EncodesField(k, tag, v, b)
    ensures Spliced(old(dAtA[..]), dAtA[..], i, hi, b)
    decreases v
  {
    hide Sov; hide Encode; hide Spliced; hide ValidSchema; hide Encodes; hide SizeOf; hide MapSize; hide ListSize;
    ghost var d0 := dAtA[..];
    match v {
      case IntV(x) =>
        b := ScalarBytes(tag, Unsigned64(x));
        i := PutScalar(dAtA, hi, tag, Unsigned64(x));
        ScalarLength(tag, Unsigned64(x));
      case BoolV(x) =>
        b := ScalarBytes(tag, if x then 1 else 0);
        SovIsOne();
        i := PutScalar(dAtA, hi, tag, if x then 1 else 0);
        ScalarLength(tag, if x then 1 else 0);
      case BytesV(s) =>
        if |s| > 0 {
          b := Record(tag, s);
          i := PutRecord(dAtA, hi, tag, s);
          RecordLength(tag, s);
        } else {
          i, b := hi, [];
          SpliceNothing(d0, hi);
        }
      case MapV(entries) =>
        i, b := MarshalMap(tag, entries, dAtA, hi);
      case MessageV(sub) =>
        if sub.Some? {
          var size;
          ghost var e;
          size, e := MarshalToSizedBuffer(k.of, sub.value, dAtA, hi);
          SpliceReads(d0, dAtA[..], hi - size, hi, e);
          b := Record(tag, e);
          i := FinishRecord(dAtA, hi - size, hi, tag, e, d0);
          RecordLength(tag, e);
        } else {
          i, b := hi, [];
          SpliceNothing(d0, hi);
        }
      case RepeatedV(lists) =>
        i, b := MarshalList(k.of, tag, lists, dAtA, hi);
    }
    SpliceReads(d0, dAtA[..], i, hi, b);
  }

  lemma SovIsOne()
    ensures Sov(1) == 1
  {
  }

  method MarshalMap(tag: byte, entries: map<bytes, bytes>, dAtA: array<byte>, hi: nat) returns (i: nat, ghost b: bytes)
    requires MapSize(entries) <= hi <= dAtA.Length < I63
    modifies dAtA
    ensures i == hi - MapSize(entries) && EncodesMap(tag, entries, b)
    ensures Spliced(old(dAtA[..]), dAtA[..], i, hi, b)
  {
    hide EntryRecord; hide EntrySize; hide Spliced; hide MapSize; hide EncodesMap;
    MapSizeEmpty();
    EncodesNothing(tag);
    ghost var d0 := dAtA[..];
    SpliceNothing(d0, hi);
    i, b := hi, [];
    var left := entries;
    ghost var written: map<bytes, bytes> := map[];
    while left != map[]
      invariant written.Keys !! left.Keys && written + left == entries
      invariant i == hi - (MapSize(entries) - MapSize(left)) && MapSize(left) <= MapSize(entries)
      invariant EncodesMap(tag, written, b)
      invariant Spliced(d0, dAtA[..], i, hi, b)
      decreases |left|
    {
      ghost var d, j := dAtA[..], i;
      var key := PickKey(left);
      MapSizeAnyOrder(left, key);
      i := PutEntry(dAtA, i, tag, key, left[key]);
      ghost var record := EntryRecord(tag, key, left[key]);
      EntryRecordLength(tag, key, left[key]);
      SpliceReads(d, dAtA[..], i, j, record);
      SpliceMore(d0, d, dAtA[..], i, j, hi, b, record);
      OneMore(tag, written, key, left[key], b);
      RemoveKey(left, key);
      MoveKey(written, left, key);
      b := record + b;
      written := written[key := left[key]];
      left := left - {key};
    }
    assert written == entries;
  }

  lemma MoveKey(written: map<bytes, bytes>, left: map<bytes, bytes>, key: bytes)
    requires key in left && written.Keys !! left.Keys
    ensures written[key := left[key]] + (left - {key}) == written + left
    ensures written[key := left[key]].Keys !! (left - {key}).Keys
  {
  }

  method MarshalList(of: Schema, tag: byte, lists: seq<Msg>, dAtA: array<byte>, hi: nat)
    returns (i: nat, ghost b: bytes)
    requires ValidSchema(of) && forall j :: 0 <= j < |lists| ==> Typed(of, lists[j])
    requires ListSize(of, lists) <= hi <= dAtA.Length < I63
    modifies dAtA
    ensures i == hi - ListSize(of, lists) && EncodesList(of, tag, lists, b)
    ensures Spliced(old(dAtA[..]), dAtA[..], i, hi, b)
    decreases lists
  {
    hide Record; hide Encodes; hide Sov; hide Spliced; hide SizeOf; hide ValidSchema;
    ghost var d0 := dAtA[..];
    SpliceNothing(d0, hi);
    i, b := hi, [];
    for n := |lists| downto 0
      invariant i == hi - ListSize(of, lists[n..]) && ListSize(of, lists[n..]) <= ListSize(of, lists)
      invariant EncodesList(of, tag, lists[n..], b)
      invariant Spliced(d0, dAtA[..], i, hi, b)
    {
      ghost var d, behind := dAtA[..], b;
      var j := i;
      ListSizeBelow(of, lists, n);
      assert lists[n..][1..] == lists[n + 1..];
      var size;
      ghost var e;
      size, e := MarshalToSizedBuffer(of, lists[n], dAtA, i);
      SpliceReads(d, dAtA[..], i - size, i, e);
      i := FinishRecord(dAtA, i - size, i, tag, e, d);
      RecordLength(tag, e);
      SpliceReads(d, dAtA[..], i, j, Record(tag, e));
      SpliceMore(d0, d, dAtA[..], i, j, hi, behind, Record(tag, e));
      b := Record(tag, e) + behind;
      assert Record(tag, e) <= b && b[|Record(tag, e)|..] == behind;
    }
    assert lists[0..] == lists;
  }

  /** Marshal: a buffer of exactly Size() bytes is filled completely. */
  method Marshal(sc: Schema, m: Msg) returns (b: bytes)
    requires ValidSchema(sc) && Typed(sc, m) && SizeOf(sc, m) < I63
    ensures Encodes(sc, m, b) && |b| == SizeOf(sc, m)
  {
    var size := Size(sc, m);
    var dAtA := new byte[size];
    ghost var d0 := dAtA[..];
    var n;
    ghost var e;
    n, e := MarshalToSizedBuffer(sc, m, dAtA, size);
    SpliceReads(d0, dAtA[..], size - n, size, e);
    b := dAtA[..n];
    assert b == dAtA[..][0..n];
  }
}
