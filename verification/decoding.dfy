/** What Unmarshal computes: decoding a byte string into a message that may already hold data. */
module Decoding {
  import opened Bytes
  import opened Varints
  import opened Skips
  import opened Schemas

  /** A length-delimited payload: its length prefix takes `start` bytes, then `len` bytes follow. */
  datatype Extent = Extent(start: nat, len: nat)

  function ExtentOf(r: bytes): (x: Option<Extent>)
    ensures x.Some? ==> x.value.start >= 1 && x.value.start + x.value.len <= |r|
  {
    match Parse(r)
    case Read(bits, n) =>
      var length := Signed64(bits);
      if length < 0 || n + length > |r| then None else Some(Extent(n, length))
    case _ => None
  }

  function Payload(r: bytes): bytes
    requires ExtentOf(r).Some?
  {
    var x := ExtentOf(r).value;
    r[x.start..x.start + x.len]
  }

  function PayloadEnd(r: bytes): (n: nat)
    requires ExtentOf(r).Some?
    ensures 1 <= n <= |r|
  {
    ExtentOf(r).value.start + ExtentOf(r).value.len
  }

  datatype Entry = Entry(key: bytes, value: bytes)

  /**
   * The inner loop over one map entry. `left` is postIndex - iNdEx: keys and values are bounded by
   * the whole buffer r only, so they may run past the entry; the caller moves back to postIndex.
   */
  function ReadEntry(r: bytes, left: int, e: Entry): Option<Entry>
    requires left <= |r|
    decreases |r|
  {
    if left <= 0 then Some(e)
    else
      match Parse(r)
      case Read(tag, t) => (
        if FieldNum(tag) == 1 || FieldNum(tag) == 2 then
          if ExtentOf(r[t..]).None? then None
          else
            var piece := Payload(r[t..]);
            var n := t + PayloadEnd(r[t..]);
            ReadEntry(r[n..], left - n, if FieldNum(tag) == 1 then e.(key := piece) else e.(value := piece))
        else
          match Skip(r)
          case Some(n) => if n > left then None else ReadEntry(r[n..], left - n, e)
          case None => None)
      case _ => None
  }

  datatype Known = Known(value: Value, len: nat)

  function Held(v: Value, of: Schema): (m: Msg)
    ensures |m.fields| == |of|
  {
    if v.MessageV? && v.sub.Some? && |v.sub.value.fields| == |of| then v.sub.value else Fresh(of)
  }

  /** Decoding the body r of a field of kind k whose present value is v. */
  function DecodeKnown(k: Kind, v: Value, r: bytes): (x: Option<Known>)
    ensures x.Some? ==> 1 <= x.value.len <= |r|
    decreases |r|, 2
  {
    if WireTypeOf(k) == 0 then
      match Parse(r)
      case Read(bits, n) => Some(Known(Scalar(k, bits), n))
      case _ => None
    else if ExtentOf(r).None? then None
    else
      var n := PayloadEnd(r);
      if k.MapK? then
        var x := ExtentOf(r).value;
        match ReadEntry(r[x.start..], x.len, Entry([], []))
        case Some(e) => Some(Known(MapV(MapOf(v)[e.key := e.value]), n))
        case None => None
      else if k.MessageK? then
        match Decode(k.of, Held(v, k.of), Payload(r))
        case Some(m) => Some(Known(MessageV(Some(m)), n))
        case None => None
      else if k.RepeatedK? then
        match Decode(k.of, Fresh(k.of), Payload(r))
        case Some(m) => Some(Known(RepeatedV(ListOf(v) + [m]), n))
        case None => None
      else Some(Known(BytesV(Payload(r)), n))
  }

  function Scalar(k: Kind, bits: nat): Value {
    match k
    case Int64K => IntV(Signed64(bits))
    case Int32K => IntV(Signed32(bits))
    case _ => BoolV(bits != 0)
  }

  function MapOf(v: Value): map<bytes, bytes> { if v.MapV? then v.entries else map[] }

  function ListOf(v: Value): seq<Msg> { if v.RepeatedV? then v.lists else [] }

  datatype Stepped = Stepped(msg: Msg, len: nat)

  /** One turn of the field loop on the bytes still ahead. */
  function DecodeField(sc: Schema, m: Msg, s: bytes): (x: Option<Stepped>)
    requires |m.fields| == |sc|
    ensures x.Some? ==> 1 <= x.value.len <= |s| && |x.value.msg.fields| == |sc|
    decreases |s|, 0
  {
    match Parse(s)
    case Read(tag, t) => (
      var num := FieldNum(tag);
      if WireType(tag) == 4 || num <= 0 then None
      else if num <= |sc| then
        if WireType(tag) != WireTypeOf(sc[num - 1]) then None
        else
          match DecodeKnown(sc[num - 1], m.fields[num - 1], s[t..])
          case Some(x) => Some(Stepped(m.(fields := m.fields[num - 1 := x.value]), t + x.len))
          case None => None
      else
        match Skip(s)
        case Some(n) => if n > |s| then None else Some(Stepped(m.(unknown := m.unknown + s[..n]), n))
        case None => None)
    case _ => None
  }

  /** Unmarshal: decodes all of s into m, or fails. */
  function Decode(sc: Schema, m: Msg, s: bytes): (r: Option<Msg>)
    requires |m.fields| == |sc|
    ensures r.Some? ==> |r.value.fields| == |sc|
    decreases |s|, 1
  {
    if s == [] then Some(m)
    else
      match DecodeField(sc, m, s)
      case Some(x) => Decode(sc, x.msg, s[x.len..])
      case None => None
  }

  // ----- what a failed Unmarshal leaves in the object

  /** The object once Unmarshal has returned, with or without an error. */
  function Remains(sc: Schema, m: Msg, s: bytes): (r: Msg)
    requires |m.fields| == |sc|
    ensures |r.fields| == |sc|
    ensures Decode(sc, m, s).Some? ==> r == Decode(sc, m, s).value
    decreases |s|, 1
  {
    if s == [] then m
    else
      match DecodeField(sc, m, s)
      case Some(x) => Remains(sc, x.msg, s[x.len..])
      case None => FieldRemains(sc, m, s)
  }

  /** The object after a turn of the field loop that failed: at most the field it was at has changed. */
  function FieldRemains(sc: Schema, m: Msg, s: bytes): (r: Msg)
    requires |m.fields| == |sc|
    ensures |r.fields| == |sc|
    decreases |s|, 0
  {
    match Parse(s)
    case Read(tag, t) =>
      var num := FieldNum(tag);
      if 1 <= num <= |sc| && WireType(tag) == WireTypeOf(sc[num - 1])
      then m.(fields := m.fields[num - 1 := KnownRemains(sc[num - 1], m.fields[num - 1], s[t..])])
      else m
    case _ => m
  }

  /** Integers collect the groups that were there; sub-messages and list items stay half decoded. */
  function KnownRemains(k: Kind, v: Value, r: bytes): Value
    decreases |r|, 2
  {
    match k
    case Int64K => IntV(Signed64(Gathered(r, 10)))
    case Int32K => IntV(Signed32(Gathered(r, 10)))
    case MessageK(of) => if ExtentOf(r).Some? then MessageV(Some(Remains(of, Held(v, of), Payload(r)))) else v
    case RepeatedK(of) => if ExtentOf(r).Some? then RepeatedV(ListOf(v) + [Remains(of, Fresh(of), Payload(r))]) else v
    case _ => v
  }

  // ----- appended bytes never change a field that was read

  lemma SkipExtends(s: bytes, x: bytes)
    requires Skip(s).Some? && Skip(s).value <= |s|
    ensures Skip(s + x) == Skip(s)
  {
    SkipLoopExtends(s, x, 0);
  }

  lemma {:induction false} SkipLoopExtends(s: bytes, x: bytes, depth: nat)
    requires SkipLoop(s, depth).Some? && SkipLoop(s, depth).value <= |s|
    ensures SkipLoop(s + x, depth) == SkipLoop(s, depth)
    decreases |s|
  {
    hide HeadOf;
    HeadExtends(s, x);
    var n := HeadOf(s).len;
    assert n <= |s| ==> (s + x)[n..] == s[n..] + x;
    match HeadOf(s)
    case Opens(_) => SkipLoopExtends(s[n..], x, depth + 1);
    case Closes(_) => if depth > 1 { SkipLoopExtends(s[n..], x, depth - 1); }
    case Spans(_) => if depth > 0 { SkipLoopExtends(s[n..], x, depth); }
    case Bad =>
  }

  lemma ExtentExtends(r: bytes, x: bytes)
    requires ExtentOf(r).Some?
    ensures ExtentOf(r + x) == ExtentOf(r)
    ensures Payload(r + x) == Payload(r) && PayloadEnd(r + x) == PayloadEnd(r)
  {
    ParseExtends(r, x);
  }

  /** One turn of the entry loop at a key or a value. */
  lemma StringTurn(r: bytes, left: nat, e: Entry, t: nat, s: bytes)
    requires 0 < left <= |r| && Parse(r).Read? && Parse(r).len == t && FieldNum(Parse(r).value) in {1, 2}
    requires ExtentOf(r[t..]).Some? && Payload(r[t..]) == s
    ensures var n := t + PayloadEnd(r[t..]);
            ReadEntry(r, left, e)
            == ReadEntry(r[n..], left - n, if FieldNum(Parse(r).value) == 1 then e.(key := s) else e.(value := s))
  {
    hide Parse; hide ExtentOf; hide Payload; hide PayloadEnd; hide SkipLoop; hide FieldNum;
  }

  /** And at any other field. */
  lemma OtherTurn(r: bytes, left: nat, e: Entry, n: nat)
    requires 0 < left <= |r| && Parse(r).Read? && FieldNum(Parse(r).value) !in {1, 2}
    requires Skip(r) == Some(n) && n <= left
    ensures ReadEntry(r, left, e) == ReadEntry(r[n..], left - n, e)
  {
    hide Parse; hide ExtentOf; hide SkipLoop; hide FieldNum;
  }

  lemma {:induction false} ReadEntryExtends(r: bytes, x: bytes, left: int, e: Entry)
    requires left <= |r| && ReadEntry(r, left, e).Some?
    ensures ReadEntry(r + x, left, e) == ReadEntry(r, left, e)
    decreases |r|
  {
    hide Parse; hide SkipLoop; hide ExtentOf; hide FieldNum; hide Payload; hide PayloadEnd; hide ReadEntry;
    if left <= 0 {
      NothingLeft(r, left, e);
      NothingLeft(r + x, left, e);
    } else {
      EntryReads(r, left, e);
      ParseExtends(r, x);
      var tag, t := Parse(r).value, Parse(r).len;
      assert (r + x)[t..] == r[t..] + x;
      if FieldNum(tag) in {1, 2} {
        ExtentExtends(r[t..], x);
        var n, piece := t + PayloadEnd(r[t..]), Payload(r[t..]);
        assert (r + x)[n..] == r[n..] + x;
        StringTurn(r, left, e, t, piece);
        StringTurn(r + x, left, e, t, piece);
        ReadEntryExtends(r[n..], x, left - n, if FieldNum(tag) == 1 then e.(key := piece) else e.(value := piece));
      } else {
        SkipExtends(r, x);
        var n := Skip(r).value;
        assert (r + x)[n..] == r[n..] + x;
        OtherTurn(r, left, e, n);
        OtherTurn(r + x, left, e, n);
        ReadEntryExtends(r[n..], x, left - n, e);
      }
    }
  }

  lemma NothingLeft(r: bytes, left: int, e: Entry)
    requires left <= 0
    ensures ReadEntry(r, left, e) == Some(e)
  {
  }

  /** What one turn of a reading that succeeds has found. */
  lemma EntryReads(r: bytes, left: nat, e: Entry)
    requires 0 < left <= |r| && ReadEntry(r, left, e).Some?
    ensures Parse(r).Read?
    ensures FieldNum(Parse(r).value) in {1, 2} ==> ExtentOf(r[Parse(r).len..]).Some?
    ensures FieldNum(Parse(r).value) !in {1, 2} ==> Skip(r).Some? && Skip(r).value <= left
  {
    hide Parse; hide ExtentOf; hide SkipLoop; hide FieldNum; hide Payload; hide PayloadEnd;
  }

  lemma DecodeKnownExtends(k: Kind, v: Value, r: bytes, x: bytes)
    requires DecodeKnown(k, v, r).Some?
    ensures DecodeKnown(k, v, r + x) == DecodeKnown(k, v, r)
  {
    hide Parse; hide ReadEntry; hide Decode; hide ExtentOf;
    if WireTypeOf(k) == 0 {
      ParseExtends(r, x);
    } else {
      ExtentExtends(r, x);
      if k.MapK? {
        var e := ExtentOf(r).value;
        assert (r + x)[e.start..] == r[e.start..] + x;
        ReadEntryExtends(r[e.start..], x, e.len, Entry([], []));
      }
    }
  }

  lemma DecodeFieldExtends(sc: Schema, m: Msg, s: bytes, x: bytes)
    requires |m.fields| == |sc| && DecodeField(sc, m, s).Some?
    ensures DecodeField(sc, m, s + x) == DecodeField(sc, m, s)
  {
    hide Parse; hide DecodeKnown; hide FieldNum; hide SkipLoop;
    ParseExtends(s, x);
    var tag, t := Parse(s).value, Parse(s).len;
    assert (s + x)[t..] == s[t..] + x;
    if FieldNum(tag) <= |sc| {
      DecodeKnownExtends(sc[FieldNum(tag) - 1], m.fields[FieldNum(tag) - 1], s[t..], x);
    } else {
      SkipExtends(s, x);
      assert (s + x)[..Skip(s).value] == s[..Skip(s).value];
    }
  }

  /**
   * Concatenation is merging: once a has been decoded into m, decoding a + b into m is decoding b
   * into the message a produced, in success and in failure.
   */
  lemma {:induction false} DecodeConcat(sc: Schema, m: Msg, a: bytes, b: bytes)
    requires |m.fields| == |sc| && Decode(sc, m, a).Some?
    ensures Decode(sc, m, a + b) == Decode(sc, Decode(sc, m, a).value, b)
    decreases |a|
  {
    hide DecodeField;
    if a == [] {
      assert a + b == b;
    } else {
      DecodeFieldExtends(sc, m, a, b);
      var x := DecodeField(sc, m, a).value;
      assert (a + b)[x.len..] == a[x.len..] + b;
      DecodeConcat(sc, x.msg, a[x.len..], b);
    }
  }

  // ----- what is accepted does not depend on the target

  /** Whether Unmarshal accepts s is a matter of s alone, not of what the message already holds. */
  lemma {:induction false} AcceptsAnyTarget(sc: Schema, x: Msg, y: Msg, s: bytes)
    requires |x.fields| == |sc| == |y.fields|
    ensures Decode(sc, x, s).Some? <==> Decode(sc, y, s).Some?
    decreases |s|, 1
  {
    hide DecodeField;
    if s != [] {
      FieldAcceptsAnyTarget(sc, x, y, s);
      if DecodeField(sc, x, s).Some? {
        var a, b := DecodeField(sc, x, s).value, DecodeField(sc, y, s).value;
        AcceptsAnyTarget(sc, a.msg, b.msg, s[a.len..]);
      }
    }
  }

  lemma {:induction false} FieldAcceptsAnyTarget(sc: Schema, x: Msg, y: Msg, s: bytes)
    requires |x.fields| == |sc| == |y.fields|
    ensures DecodeField(sc, x, s).Some? <==> DecodeField(sc, y, s).Some?
    ensures DecodeField(sc, x, s).Some? ==> DecodeField(sc, x, s).value.len == DecodeField(sc, y, s).value.len
    decreases |s|, 0
  {
    hide Parse; hide DecodeKnown; hide FieldNum; hide SkipLoop;
    if Parse(s).Read? {
      var num, t := FieldNum(Parse(s).value), Parse(s).len;
      if 1 <= num <= |sc| {
        KnownAcceptsAnyTarget(sc[num - 1], x.fields[num - 1], y.fields[num - 1], s[t..]);
      }
    }
  }

  lemma {:induction false} KnownAcceptsAnyTarget(k: Kind, v: Value, w: Value, r: bytes)
    ensures DecodeKnown(k, v, r).Some? <==> DecodeKnown(k, w, r).Some?
    ensures DecodeKnown(k, v, r).Some? ==> DecodeKnown(k, v, r).value.len == DecodeKnown(k, w, r).value.len
    decreases |r|, 2
  {
    hide Parse; hide ReadEntry; hide Decode; hide ExtentOf; hide Payload; hide PayloadEnd; hide Scalar;
    if k.MessageK? && ExtentOf(r).Some? {
      PayloadShorterThan(r);
      AcceptsAnyTarget(k.of, Held(v, k.of), Held(w, k.of), Payload(r));
    }
  }

  lemma PayloadShorterThan(r: bytes)
    requires ExtentOf(r).Some?
    ensures |Payload(r)| < |r|
  {
  }
}
