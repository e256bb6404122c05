/**
 * The message shapes of the generated files. Every generated message numbers its fields
 * 1, 2, ..., n, so a schema is the list of its field kinds; field i has kind schema[i - 1].
 */
module Schemas {
  import opened Bytes
  import opened Varints
  import opened Skips

  datatype Kind =
    | Int64K
    | Int32K
    | BoolK
    | BytesK
    | MapK
    | MessageK(of: Schema)
    | RepeatedK(of: Schema)

  type Schema = seq<Kind>

  /** A nil and an empty byte string (or map) are the same value here. */
  datatype Value =
    | IntV(i: int)
    | BoolV(b: bool)
    | BytesV(s: bytes)
    | MapV(entries: map<bytes, bytes>)
    | MessageV(sub: Option<Msg>)
    | RepeatedV(lists: seq<Msg>)

  /** A message object: its fields and XXX_unrecognized. */
  datatype Msg = Msg(fields: seq<Value>, unknown: bytes)

  function WireTypeOf(k: Kind): nat {
    if k.Int64K? || k.Int32K? || k.BoolK? then 0 else 2
  }

  /** Field numbers stay below 16, so every tag of a known field is one byte. */
  predicate ValidSchema(sc: Schema)
    decreases sc
  {
    |sc| <= 15 && forall i :: 0 <= i < |sc| ==> ValidKind(sc[i])
  }

  predicate ValidKind(k: Kind)
    decreases k
  {
    match k
    case MessageK(of) => ValidSchema(of)
    case RepeatedK(of) => ValidSchema(of)
    case _ => true
  }

  function TagByte(i: nat, k: Kind): byte
    requires i < 15
  {
    (i + 1) * 8 + WireTypeOf(k)
  }

  function Zero(k: Kind): Value {
    match k
    case Int64K => IntV(0)
    case Int32K => IntV(0)
    case BoolK => BoolV(false)
    case BytesK => BytesV([])
    case MapK => MapV(map[])
    case MessageK(_) => MessageV(None)
    case RepeatedK(_) => RepeatedV([])
  }

  function Fresh(sc: Schema): (m: Msg)
    ensures |m.fields| == |sc|
  {
    Msg(seq(|sc|, i requires 0 <= i < |sc| => Zero(sc[i])), [])
  }

  /** The message values the Go types can hold; the unknown bytes are arbitrary. */
  predicate Typed(sc: Schema, m: Msg)
    decreases m
  {
    |m.fields| == |sc| && forall i :: 0 <= i < |sc| ==> TypedValue(sc[i], m.fields[i])
  }

  predicate TypedValue(k: Kind, v: Value)
    decreases v
  {
    match k
    case Int64K => v.IntV? && IsInt64(v.i)
    case Int32K => v.IntV? && IsInt32(v.i)
    case BoolK => v.BoolV?
    case BytesK => v.BytesV?
    case MapK => v.MapV?
    case MessageK(of) => v.MessageV? && (v.sub.Some? ==> Typed(of, v.sub.value))
    case RepeatedK(of) => v.RepeatedV? && forall j :: 0 <= j < |v.lists| ==> Typed(of, v.lists[j])
  }

  /** Typed, and the unknown bytes at every level are as decoding leaves them. */
  predicate Wf(sc: Schema, m: Msg)
    decreases m
  {
    && |m.fields| == |sc|
    && (forall i :: 0 <= i < |sc| ==> WfValue(sc[i], m.fields[i]))
    && UnknownOnly(sc, m.unknown)
  }

  predicate WfValue(k: Kind, v: Value)
    decreases v
  {
    match k
    case Int64K => v.IntV? && IsInt64(v.i)
    case Int32K => v.IntV? && IsInt32(v.i)
    case BoolK => v.BoolV?
    case BytesK => v.BytesV?
    case MapK => v.MapV?
    case MessageK(of) => v.MessageV? && (v.sub.Some? ==> Wf(of, v.sub.value))
    case RepeatedK(of) => v.RepeatedV? && forall j :: 0 <= j < |v.lists| ==> Wf(of, v.lists[j])
  }

  /** The head of u is a tag that the decoder of `sc` hands to skipPacket. */
  predicate UnknownTag(sc: Schema, u: bytes) {
    match Parse(u)
    case Read(tag, _) => FieldNum(tag) > |sc| && WireType(tag) != 4
    case _ => false
  }

  /** u is a run of complete fields, none of which `sc` knows. */
  predicate UnknownOnly(sc: Schema, u: bytes)
    decreases |u|
  {
    u == [] ||
    (UnknownTag(sc, u) && Skip(u).Some? && Skip(u).value <= |u| && UnknownOnly(sc, u[Skip(u).value..]))
  }

  lemma {:induction false} WfIsTyped(sc: Schema, m: Msg)
    requires Wf(sc, m)
    ensures Typed(sc, m)
    decreases m
  {
    forall i | 0 <= i < |sc| ensures TypedValue(sc[i], m.fields[i]) {
      assert WfValue(sc[i], m.fields[i]);
      match m.fields[i] {
        case MessageV(sub) => if sub.Some? { WfIsTyped(sc[i].of, sub.value); }
        case RepeatedV(lists) =>
          forall j | 0 <= j < |lists| ensures Typed(sc[i].of, lists[j]) { WfIsTyped(sc[i].of, lists[j]); }
        case _ =>
      }
    }
  }

  lemma FreshIsTyped(sc: Schema)
    ensures Typed(sc, Fresh(sc))
  {
  }

  lemma FreshIsWf(sc: Schema)
    ensures Wf(sc, Fresh(sc))
  {
  }
}
