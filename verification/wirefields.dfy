/**
 * What is on the wire, in the terms of the Protocol Buffers encoding guide: fields by their numbers
 * and wire types. Nothing here refers to how the generated code reads or writes them.
 */
module WireFields {
  import opened Bytes
  import opened Varints
  import opened Skips

  // ----- what a field is

  /** Whether a tag and some bytes are a field depends on the wire type and those bytes alone. */
  lemma TagThenBody(tag: nat, r: bytes)
    requires tag < U64
    ensures IsField(Encode(tag) + r) <==> IsBody(tag % 8, r)
  {
    var t, b := |Encode(tag)|, Encode(tag) + r;
    hide Encode; hide IsBody;
    EncodeMeans(tag);
    assert b[..t] == Encode(tag) && b[t..] == r;
    ParseMeans(b, t);
    if IsField(b) {
      var u := TagLength(b);
      ParseMeans(b, u);
    }
    if IsBody(tag % 8, r) {
      hide IsVarint; hide ValueOf;
      assert TagAndBody(b, t);
    }
  }

  lemma TagParts(num: nat, wireType: nat)
    requires wireType < 8
    ensures (8 * num + wireType) % 8 == wireType
  {
  }

  /** Wire type 0: any varint. */
  lemma VarintIsField(num: nat, x: bytes)
    requires 8 * num < U64
    ensures IsField(Encode(8 * num) + x) <==> IsVarint(x)
  {
    TagThenBody(8 * num, x);
    TagParts(num, 0);
  }

  /** Wire type 1: eight bytes, and no other number of them. */
  lemma Fixed64IsField(num: nat, x: bytes)
    requires 8 * num + 1 < U64
    ensures IsField(Encode(8 * num + 1) + x) <==> |x| == 8
  {
    TagThenBody(8 * num + 1, x);
    TagParts(num, 1);
  }

  /** Wire type 2: a length and as many bytes as it says. */
  lemma RecordIsField(num: nat, n: nat, s: bytes)
    requires 8 * num + 2 < U64 && n < I63
    ensures IsField(Encode(8 * num + 2) + (Encode(n) + s)) <==> n == |s|
  {
    TagThenBody(8 * num + 2, Encode(n) + s);
    TagParts(num, 2);
    LengthIsPayload(n, s);
  }

  lemma LengthIsPayload(n: nat, s: bytes)
    requires n < I63
    ensures IsBody(2, Encode(n) + s) <==> n == |s|
  {
    var r := Encode(n) + s;
    hide Encode; hide LengthAndPayload;
    if IsBody(2, r) {
      var u: nat :| LengthAndPayload(r, u);
      OneLength(n, s, u);
    }
    if n == |s| { OneLength(n, s, |Encode(n)|); }
  }

  lemma OneLength(n: nat, s: bytes, u: nat)
    requires n < I63
    ensures LengthAndPayload(Encode(n) + s, u) <==> u == |Encode(n)| && n == |s|
  {
    var r, t := Encode(n) + s, |Encode(n)|;
    EncodeMeans(n);
    hide Encode; hide ValueOf; hide IsVarint;
    assert r[..t] == Encode(n);
    if 0 < u <= |r| && IsVarint(r[..u]) { OneVarint(r, t, u); }
  }

  lemma OneVarint(r: bytes, t: nat, u: nat)
    requires t <= |r| && u <= |r| && IsVarint(r[..t]) && IsVarint(r[..u])
    ensures t == u
  {
    ParseMeans(r, t);
    ParseMeans(r, u);
  }

  /** Wire type 5: four bytes, and no other number of them. */
  lemma Fixed32IsField(num: nat, x: bytes)
    requires 8 * num + 5 < U64
    ensures IsField(Encode(8 * num + 5) + x) <==> |x| == 4
  {
    TagThenBody(8 * num + 5, x);
    TagParts(num, 5);
  }

  /** An end-group tag starts no field, nor do wire types 6 and 7. */
  lemma NoSuchField(num: nat, wireType: nat, x: bytes)
    requires wireType in {4, 6, 7} && 8 * num + wireType < U64
    ensures !IsField(Encode(8 * num + wireType) + x)
  {
    TagThenBody(8 * num + wireType, x);
    TagParts(num, wireType);
  }

  function Flatten(parts: seq<bytes>): bytes {
    if parts == [] then [] else parts[0] + Flatten(parts[1..])
  }

  /** Wire type 3: fields, then an end-group tag; the loop does not compare the two numbers. */
  lemma GroupIsField(num: nat, parts: seq<bytes>, end: nat)
    requires 8 * num + 3 < U64 && 8 * end + 4 < U64 && forall f :: f in parts ==> IsField(f)
    ensures IsField(Encode(8 * num + 3) + (Flatten(parts) + Encode(8 * end + 4)))
  {
    TagThenBody(8 * num + 3, Flatten(parts) + Encode(8 * end + 4));
    TagParts(num, 3);
    hide IsField; hide Encode;
    PartsThenEnd(parts, end);
  }

  lemma {:induction false} PartsThenEnd(parts: seq<bytes>, end: nat)
    requires 8 * end + 4 < U64 && forall f :: f in parts ==> IsField(f)
    ensures IsGroupBody(Flatten(parts) + Encode(8 * end + 4))
  {
    hide IsField; hide IsGroupBody; hide Encode;
    var close := Encode(8 * end + 4);
    if parts == [] {
      EndOfGroup(end);
      assert Flatten(parts) + close == close;
    } else {
      PartsThenEnd(parts[1..], end);
      FieldThenMore(parts[0], Flatten(parts[1..]) + close);
      assert Flatten(parts) + close == parts[0] + (Flatten(parts[1..]) + close);
    }
  }

  lemma EndOfGroup(end: nat)
    requires 8 * end + 4 < U64
    ensures IsGroupBody(Encode(8 * end + 4))
  {
    EncodeMeans(8 * end + 4);
    TagParts(end, 4);
  }

  lemma FieldThenMore(f: bytes, rest: bytes)
    requires IsField(f) && IsGroupBody(rest)
    ensures IsGroupBody(f + rest)
  {
    var k, b := |f|, f + rest;
    FieldNotEmpty(f);
    GroupBodyNotEmpty(rest);
    hide IsField; hide IsTag;
    assert b[..k] == f && b[k..] == rest;
  }

  lemma GroupBodyNotEmpty(b: bytes)
    requires IsGroupBody(b)
    ensures |b| >= 1
  {
  }

  lemma FieldNotEmpty(f: bytes)
    requires IsField(f)
    ensures |f| >= 1
  {
    var t := TagLength(f);
  }

  /** skipPacket takes exactly the field at the head of the buffer, whatever follows it. */
  lemma SkipsOneField(f: bytes, rest: bytes)
    requires IsField(f) && |f + rest| < I63
    ensures Skip(f + rest) == Some(|f|)
  {
    hide IsField;
    SkipAgreesWithGrammar(f + rest, |f|);
    assert (f + rest)[..|f|] == f;
  }
}
