/** What Marshal may write for a message. Maps are written in any order, so this is a relation. */
module Encoding {
  import opened Bytes
  import opened Varints
  import opened Schemas

  /** A length-delimited record: tag, length, payload. */
  function Record(tag: byte, s: bytes): (r: bytes)
    ensures |r| > |s|
  {
    [tag] + Encode(|s|) + s
  }

  function EntryBytes(key: bytes, value: bytes): bytes {
    Record(0x0a, key) + Record(0x12, value)
  }

  function ScalarBytes(tag: byte, bits: nat): bytes {
    if bits == 0 then [] else [tag] + Encode(bits)
  }

  ghost predicate Encodes(sc: Schema, m: Msg, b: bytes)
    decreases m, |sc| + 1
  {
    |m.fields| == |sc| <= 15 && EncodesFrom(sc, m, 0, b)
  }

  /** b holds the fields numbered i + 1 and up, then the unknown bytes. */
  ghost predicate EncodesFrom(sc: Schema, m: Msg, i: nat, b: bytes)
    requires |m.fields| == |sc| <= 15 && i <= |sc|
    decreases m, |sc| - i
  {
    if i == |sc| then b == m.unknown
    else exists c ::
        && 0 <= c <= |b|
        && EncodesField(sc[i], TagByte(i, sc[i]), m.fields[i], b[..c])
        && EncodesFrom(sc, m, i + 1, b[c..])
  }

  ghost predicate EncodesField(k: Kind, tag: byte, v: Value, b: bytes)
    decreases v
  {
    match k
    case Int64K => v.IntV? && IsInt64(v.i) && b == ScalarBytes(tag, Unsigned64(v.i))
    case Int32K => v.IntV? && IsInt32(v.i) && b == ScalarBytes(tag, Unsigned64(v.i))
    case BoolK => v.BoolV? && b == ScalarBytes(tag, if v.b then 1 else 0)
    case BytesK => v.BytesV? && b == if v.s == [] then [] else Record(tag, v.s)
    case MapK => v.MapV? && EncodesMap(tag, v.entries, b)
    case MessageK(of) =>
      v.MessageV? &&
      (match v.sub
       case None => b == []
       case Some(x) => exists e :: Encodes(of, x, e) && b == Record(tag, e))
    case RepeatedK(of) => v.RepeatedV? && EncodesList(of, tag, v.lists, b)
  }

  /** The entries of m, one record each, in some order. */
  ghost predicate EncodesMap(tag: byte, m: map<bytes, bytes>, b: bytes)
    decreases |m|
  {
    if m == map[] then b == []
    else exists key ::
        && key in m
        && EntryRecord(tag, key, m[key]) <= b
        && EncodesMap(tag, m - {key}, b[|EntryRecord(tag, key, m[key])|..])
  }

  function EntryRecord(tag: byte, key: bytes, value: bytes): bytes {
    Record(tag, EntryBytes(key, value))
  }

  ghost predicate EncodesList(of: Schema, tag: byte, ms: seq<Msg>, b: bytes)
    decreases ms
  {
    if ms == [] then b == []
    else exists e ::
        && Encodes(of, ms[0], e)
        && Record(tag, e) <= b
        && EncodesList(of, tag, ms[1..], b[|Record(tag, e)|..])
  }

  // ----- Size

  function RecordSize(n: nat): nat { 1 + n + Sov(n) }

  lemma RecordLength(tag: byte, s: bytes)
    ensures |Record(tag, s)| == RecordSize(|s|)
  {
    SovIsLength(|s|);
  }

  function EntrySize(key: bytes, value: bytes): nat {
    RecordSize(RecordSize(|key|) + RecordSize(|value|))
  }

  lemma EntryRecordLength(tag: byte, key: bytes, value: bytes)
    ensures |EntryRecord(tag, key, value)| == EntrySize(key, value)
  {
    RecordLength(0x0a, key);
    RecordLength(0x12, value);
    RecordLength(tag, EntryBytes(key, value));
  }

  ghost function MapSize(m: map<bytes, bytes>): nat
    decreases |m|
  {
    if m == map[] then 0
    else
      var key :| key in m;
      EntrySize(key, m[key]) + MapSize(m - {key})
  }

  lemma MapSizeEmpty()
    ensures MapSize(map[]) == 0
  {
  }

  /** The sum does not depend on the order in which Go visits the map. */
  lemma {:induction false} MapSizeAnyOrder(m: map<bytes, bytes>, key: bytes)
    requires key in m
    ensures MapSize(m) == EntrySize(key, m[key]) + MapSize(m - {key})
    decreases |m|
  {
    var first :| first in m && MapSize(m) == EntrySize(first, m[first]) + MapSize(m - {first});
    if first != key {
      MapSizeAnyOrder(m - {first}, key);
      MapSizeAnyOrder(m - {key}, first);
      assert m - {first} - {key} == m - {key} - {first};
    }
  }

  ghost function SizeOf(sc: Schema, m: Msg): nat
    requires |m.fields| == |sc|
    decreases m, |sc| + 1
  {
    SizeFrom(sc, m, 0)
  }

  ghost function SizeFrom(sc: Schema, m: Msg, i: nat): nat
    requires |m.fields| == |sc| && i <= |sc|
    decreases m, |sc| - i
  {
    if i == |sc| then |m.unknown| else FieldSize(sc[i], m.fields[i]) + SizeFrom(sc, m, i + 1)
  }

  function ScalarSize(bits: nat): nat { if bits == 0 then 0 else 1 + Sov(bits) }

  ghost function FieldSize(k: Kind, v: Value): nat
    decreases v
  {
    match v
    case IntV(i) => ScalarSize(Unsigned64(i))
    case BoolV(b) => if b then 2 else 0
    case BytesV(s) => if s == [] then 0 else RecordSize(|s|)
    case MapV(entries) => MapSize(entries)
    case MessageV(sub) =>
      if k.MessageK? && sub.Some? && |sub.value.fields| == |k.of| then RecordSize(SizeOf(k.of, sub.value)) else 0
    case RepeatedV(lists) => if k.RepeatedK? then ListSize(k.of, lists) else 0
  }

  ghost function ListSize(of: Schema, ms: seq<Msg>): nat
    decreases ms
  {
    if ms == [] then 0
    else (if |ms[0].fields| == |of| then RecordSize(SizeOf(of, ms[0])) else 0) + ListSize(of, ms[1..])
  }

  lemma ScalarLength(tag: byte, bits: nat)
    ensures |ScalarBytes(tag, bits)| == ScalarSize(bits)
  {
    SovIsLength(bits);
  }

  /** Size() predicts the length of whatever Marshal writes, for every map order. */
  lemma EncodesSize(sc: Schema, m: Msg, b: bytes)
    requires Encodes(sc, m, b)
    ensures |b| == SizeOf(sc, m)
    decreases m, |sc| + 1
  {
    EncodesFromSize(sc, m, 0, b);
  }

  lemma {:induction false} EncodesFromSize(sc: Schema, m: Msg, i: nat, b: bytes)
    requires |m.fields| == |sc| <= 15 && i <= |sc| && EncodesFrom(sc, m, i, b)
    ensures |b| == SizeFrom(sc, m, i)
    decreases m, |sc| - i
  {
    if i < |sc| {
      var c :| 0 <= c <= |b| && EncodesField(sc[i], TagByte(i, sc[i]), m.fields[i], b[..c])
               && EncodesFrom(sc, m, i + 1, b[c..]);
      EncodesFieldSize(sc[i], TagByte(i, sc[i]), m.fields[i], b[..c]);
      EncodesFromSize(sc, m, i + 1, b[c..]);
    }
  }

  lemma {:induction false} EncodesFieldSize(k: Kind, tag: byte, v: Value, b: bytes)
    requires EncodesField(k, tag, v, b)
    ensures |b| == FieldSize(k, v)
    decreases v
  {
    match v
    case IntV(i) => ScalarLength(tag, Unsigned64(i));
    case BoolV(x) => ScalarLength(tag, 1);
    case BytesV(s) => RecordLength(tag, s);
    case MapV(entries) => EncodesMapSize(tag, entries, b);
    case MessageV(sub) =>
      if sub.Some? {
        var e :| Encodes(k.of, sub.value, e) && b == Record(tag, e);
        EncodesSize(k.of, sub.value, e);
        RecordLength(tag, e);
      }
    case RepeatedV(lists) => EncodesListSize(k.of, tag, lists, b);
  }

  lemma {:induction false} EncodesMapSize(tag: byte, m: map<bytes, bytes>, b: bytes)
    requires EncodesMap(tag, m, b)
    ensures |b| == MapSize(m)
    decreases |m|
  {
    if m != map[] {
      var key :| key in m && EntryRecord(tag, key, m[key]) <= b
                 && EncodesMap(tag, m - {key}, b[|EntryRecord(tag, key, m[key])|..]);
      EncodesMapSize(tag, m - {key}, b[|EntryRecord(tag, key, m[key])|..]);
      EntryRecordLength(tag, key, m[key]);
      MapSizeAnyOrder(m, key);
    }
  }

  lemma {:induction false} EncodesListSize(of: Schema, tag: byte, ms: seq<Msg>, b: bytes)
    requires EncodesList(of, tag, ms, b)
    ensures |b| == ListSize(of, ms)
    decreases ms
  {
    if ms != [] {
      var e :| Encodes(of, ms[0], e) && Record(tag, e) <= b
               && EncodesList(of, tag, ms[1..], b[|Record(tag, e)|..]);
      EncodesSize(of, ms[0], e);
      RecordLength(tag, e);
      EncodesListSize(of, tag, ms[1..], b[|Record(tag, e)|..]);
    }
  }

  // ----- every message has an encoding

  lemma EncodesNothing(tag: byte)
    ensures EncodesMap(tag, map[], [])
  {
  }

  lemma OneMore(tag: byte, written: map<bytes, bytes>, key: bytes, value: bytes, b: bytes)
    requires EncodesMap(tag, written, b) && key !in written
    ensures EncodesMap(tag, written[key := value], EntryRecord(tag, key, value) + b)
  {
    var more, record := written[key := value], EntryRecord(tag, key, value);
    assert more - {key} == written;
    assert record <= record + b && (record + b)[|record|..] == b;
  }

  /** Marshal always has something it may write. */
  lemma SomeEncoding(sc: Schema, m: Msg) returns (b: bytes)
    requires ValidSchema(sc) && Typed(sc, m)
    ensures Encodes(sc, m, b)
    decreases m, |sc| + 1
  {
    b := SomeFrom(sc, m, 0);
  }

  lemma SomeFrom(sc: Schema, m: Msg, i: nat) returns (b: bytes)
    requires ValidSchema(sc) && Typed(sc, m) && i <= |sc|
    ensures EncodesFrom(sc, m, i, b)
    decreases m, |sc| - i
  {
    hide EncodesField; hide TypedValue; hide ValidKind;
    if i == |sc| {
      b := m.unknown;
    } else {
      var x := SomeField(sc[i], TagByte(i, sc[i]), m.fields[i]);
      var rest := SomeFrom(sc, m, i + 1);
      b := x + rest;
      assert b[..|x|] == x && b[|x|..] == rest;
    }
  }

  lemma SomeField(k: Kind, tag: byte, v: Value) returns (b: bytes)
    requires ValidKind(k) && TypedValue(k, v)
    ensures EncodesField(k, tag, v, b)
    decreases v
  {
    hide Encodes; hide Record; hide Encode;
    match v
    case IntV(i) => b := ScalarBytes(tag, Unsigned64(i));
    case BoolV(x) => b := ScalarBytes(tag, if x then 1 else 0);
    case BytesV(s) => b := if s == [] then [] else Record(tag, s);
    case MapV(entries) => b := SomeMap(tag, entries);
    case MessageV(sub) =>
      b := [];
      if sub.Some? {
        var e := SomeEncoding(k.of, sub.value);
        b := Record(tag, e);
      }
    case RepeatedV(lists) => b := SomeList(k.of, tag, lists);
  }

  lemma SomeMap(tag: byte, m: map<bytes, bytes>) returns (b: bytes)
    ensures EncodesMap(tag, m, b)
    decreases |m|
  {
    hide EncodesMap; hide EntryRecord;
    EncodesNothing(tag);
    b := [];
    if m != map[] {
      var key :| key in m;
      var rest := m - {key};
      assert rest.Keys == m.Keys - {key};
      var x := SomeMap(tag, rest);
      OneMore(tag, rest, key, m[key], x);
      assert rest[key := m[key]] == m;
      b := EntryRecord(tag, key, m[key]) + x;
    }
  }

  lemma SomeList(of: Schema, tag: byte, ms: seq<Msg>) returns (b: bytes)
    requires ValidSchema(of) && forall j :: 0 <= j < |ms| ==> Typed(of, ms[j])
    ensures EncodesList(of, tag, ms, b)
    decreases ms
  {
    hide Encodes; hide Record; hide ValidSchema; hide Typed;
    b := [];
    if ms != [] {
      var e := SomeEncoding(of, ms[0]);
      var rest := SomeList(of, tag, ms[1..]);
      b := Record(tag, e) + rest;
      assert Record(tag, e) <= b && b[|Record(tag, e)|..] == rest;
    }
  }
}
