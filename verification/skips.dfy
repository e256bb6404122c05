/** Skipping one unknown field: the depth-counter loop and the grammar it recognises. */
module Skips {
  import opened Bytes
  import opened Varints

  function WireType(tag: nat): nat { tag % 8 }

  /** fieldNum := int32(wire >> 3) */
  function FieldNum(tag: nat): int { Signed32(tag / 8) }

  /** What stands at the head of a buffer: a group tag, or a plain field with the bytes it claims. */
  datatype Head = Bad | Opens(len: nat) | Closes(len: nat) | Spans(len: nat)

  function HeadOf(s: bytes): (h: Head)
    ensures !h.Bad? ==> s != [] && h.len >= 1
    ensures h.Opens? || h.Closes? ==> h.len <= |s|
  {
    match Parse(s)
    case Read(tag, t) => (
      match WireType(tag)
      case 0 => (match Parse(s[t..]) case Read(_, n) => Spans(t + n) case _ => Bad)
      case 1 => Spans(t + 8)
      case 2 =>
        (match Parse(s[t..])
         case Read(length, n) =>
           if Signed64(length) < 0 then Bad else Spans(t + n + Signed64(length))
         case _ => Bad)
      case 3 => Opens(t)
      case 4 => Closes(t)
      case 5 => Spans(t + 4)
      case _ => Bad)
    case _ => Bad
  }

  /** skipPacket's loop on the bytes still ahead, inside `depth` open groups. */
  function SkipLoop(s: bytes, depth: nat): (r: Option<nat>)
    ensures r.Some? ==> r.value >= 1
    decreases |s|
  {
    match HeadOf(s)
    case Bad => None
    case Opens(t) => Shift(t, SkipLoop(s[t..], depth + 1))
    case Closes(t) =>
      if depth == 0 then None
      else if depth == 1 then Some(t)
      else Shift(t, SkipLoop(s[t..], depth - 1))
    case Spans(n) =>
      if depth == 0 then (if n < I63 then Some(n) else None)
      else if n > |s| then None
      else Shift(n, SkipLoop(s[n..], depth))
  }

  function Shift(offset: nat, r: Option<nat>): Option<nat> {
    match r
    case Some(n) => Some(offset + n)
    case None => None
  }

  function Skip(s: bytes): Option<nat> { SkipLoop(s, 0) }

  // ----- the format: "Message Structure" and "Groups" of the Protocol Buffers encoding guide

  /** The bytes of a tag with this wire type. */
  predicate IsTag(b: bytes, wireType: nat) { IsVarint(b) && ValueOf(b) % 8 == wireType }

  /** b is exactly one well-formed field: a tag, and the body its wire type asks for. */
  ghost predicate IsField(b: bytes)
    decreases |b|, 1
  {
    exists t: nat :: TagAndBody(b, t)
  }

  ghost predicate TagAndBody(b: bytes, t: nat)
    decreases |b|, 0
  {
    0 < t <= |b| && IsVarint(b[..t]) && IsBody(ValueOf(b[..t]) % 8, b[t..])
  }

  /** Varint, 64 bits, length-delimited, group, 32 bits; groups nest to any depth. */
  ghost predicate IsBody(wireType: nat, r: bytes)
    decreases |r|, 3
  {
    match wireType
    case 0 => IsVarint(r)
    case 1 => |r| == 8
    case 2 => exists n: nat :: LengthAndPayload(r, n)
    case 3 => IsGroupBody(r)
    case 5 => |r| == 4
    case _ => false
  }

  predicate LengthAndPayload(r: bytes, n: nat) {
    0 < n <= |r| && IsVarint(r[..n]) && Signed64(ValueOf(r[..n])) == |r| - n
  }

  /** b is any number of fields and then an end-group tag, of whatever number. */
  ghost predicate IsGroupBody(b: bytes)
    decreases |b|, 2
  {
    IsTag(b, 4) || exists k :: 0 < k < |b| && IsField(b[..k]) && IsGroupBody(b[k..])
  }

  lemma ModEight(v: nat)
    ensures v % U64 % 8 == v % 8
  {
  }

  lemma SignedOfRest(v: nat)
    ensures Signed64(v % U64) == Signed64(v)
  {
  }

  lemma TagByHead(b: bytes)
    ensures IsTag(b, 4) <==> HeadOf(b) == Closes(|b|)
  {
    ParseMeans(b, |b|);
    assert b[..|b|] == b;
    ModEight(ValueOf(b));
    hide Parse; hide IsVarint; hide ValueOf;
    if HeadOf(b) == Closes(|b|) {
      assert Parse(b).Read? && Parse(b).len == |b|;
    }
  }

  /** The reading loop sees at the head of b a field that ends where b does. */
  ghost predicate HeadsField(b: bytes) {
    match HeadOf(b)
    case Bad => false
    case Opens(t) => IsGroupBody(b[t..])
    case Closes(_) => false
    case Spans(n) => n == |b|
  }

  lemma TagLength(b: bytes) returns (t: nat)
    requires IsField(b)
    ensures TagAndBody(b, t)
  {
    t :| TagAndBody(b, t);
  }

  /** What the reading loop sees is what the format says. */
  lemma FieldByHead(b: bytes)
    ensures IsField(b) <==> HeadsField(b)
  {
    hide IsBody; hide HeadOf; hide IsGroupBody;
    if IsField(b) {
      var u := TagLength(b);
      ParseMeans(b, u);
    }
    if Parse(b).Read? {
      var t := Parse(b).len;
      ParseMeans(b, t);
      BodyByHead(b, t);
      assert TagAndBody(b, t) <==> IsBody(ValueOf(b[..t]) % 8, b[t..]);
    } else {
      NoHead(b);
    }
  }

  lemma NoHead(b: bytes)
    requires !Parse(b).Read?
    ensures HeadOf(b) == Bad
  {
  }

  lemma BodyByHead(b: bytes, t: nat)
    requires t <= |b| && IsVarint(b[..t]) && Parse(b) == Read(ValueOf(b[..t]) % U64, t)
    ensures IsBody(ValueOf(b[..t]) % 8, b[t..]) <==> HeadsField(b)
  {
    ModEight(ValueOf(b[..t]));
    var r := b[t..];
    if Parse(r).Read? { ParseMeans(r, Parse(r).len); SignedOfRest(ValueOf(r[..Parse(r).len])); }
    hide Parse; hide IsVarint; hide ValueOf; hide Signed64; hide IsGroupBody;
    var wireType := ValueOf(b[..t]) % 8;
    if wireType == 0 {
      ParseMeans(r, |r|);
      assert r[..|r|] == r;
    } else if wireType == 2 {
      if IsBody(2, r) {
        var n: nat :| LengthAndPayload(r, n);
        ParseMeans(r, n);
      }
      if Parse(r).Read? {
        var n := Parse(r).len;
        assert LengthAndPayload(r, n) <==> Signed64(Parse(r).value) == |r| - n;
      }
    }
  }

  /** The tag of a field is read the same whatever follows the field. */
  lemma HeadOfField(f: bytes, x: bytes)
    requires IsField(f)
    ensures Parse(f + x) == Parse(f)
  {
    FieldByHead(f);
    ParseExtends(f, x);
  }

  // ----- recursive descent, the bridge between the two

  function FieldLen(s: bytes): (r: Option<nat>)
    ensures r.Some? ==> 1 <= r.value <= |s|
    decreases |s|, 0
  {
    match HeadOf(s)
    case Bad => None
    case Opens(t) => Shift(t, GroupLen(s[t..]))
    case Closes(_) => None
    case Spans(n) => if n <= |s| then Some(n) else None
  }

  function GroupLen(s: bytes): (r: Option<nat>)
    ensures r.Some? ==> 1 <= r.value <= |s|
    decreases |s|, 1
  {
    if HeadOf(s).Closes? then Some(HeadOf(s).len)
    else
      match FieldLen(s)
      case Some(n) => Shift(n, GroupLen(s[n..]))
      case None => None
  }

  lemma HeadExtends(s: bytes, x: bytes)
    requires !HeadOf(s).Bad?
    ensures HeadOf(s + x) == HeadOf(s)
  {
    ParseExtends(s, x);
    var t := Parse(s).len;
    assert (s + x)[t..] == s[t..] + x;
    if Parse(s[t..]).Read? { ParseExtends(s[t..], x); }
  }

  lemma HeadPrefix(s: bytes, n: nat)
    requires !HeadOf(s).Bad? && HeadOf(s).len <= n <= |s|
    ensures HeadOf(s[..n]) == HeadOf(s)
  {
    var t := Parse(s).len;
    ParsePrefix(s, n);
    assert s[..n][t..] == s[t..][..n - t];
    if WireType(Parse(s).value) == 0 || WireType(Parse(s).value) == 2 {
      ParsePrefix(s[t..], n - t);
    }
  }

  lemma {:induction false} FieldLenExtends(s: bytes, x: bytes)
    requires FieldLen(s).Some?
    ensures FieldLen(s + x) == FieldLen(s)
    decreases |s|, 0
  {
    HeadExtends(s, x);
    if HeadOf(s).Opens? {
      var t := HeadOf(s).len;
      assert (s + x)[t..] == s[t..] + x;
      GroupLenExtends(s[t..], x);
    }
  }

  lemma {:induction false} GroupLenExtends(s: bytes, x: bytes)
    requires GroupLen(s).Some?
    ensures GroupLen(s + x) == GroupLen(s)
    decreases |s|, 1
  {
    HeadExtends(s, x);
    if !HeadOf(s).Closes? {
      FieldLenExtends(s, x);
      var n := FieldLen(s).value;
      assert (s + x)[n..] == s[n..] + x;
      GroupLenExtends(s[n..], x);
    }
  }

  lemma {:induction false} FieldLenPrefix(s: bytes)
    requires FieldLen(s).Some?
    ensures IsField(s[..FieldLen(s).value])
    decreases |s|, 0
  {
    var n := FieldLen(s).value;
    var t := HeadOf(s).len;
    HeadPrefix(s, n);
    FieldByHead(s[..n]);
    hide IsField;
    if HeadOf(s).Opens? {
      assert s[..n][t..] == s[t..][..n - t];
      GroupLenPrefix(s[t..]);
    }
  }

  lemma {:induction false} GroupLenPrefix(s: bytes)
    requires GroupLen(s).Some?
    ensures IsGroupBody(s[..GroupLen(s).value])
    decreases |s|, 1
  {
    var n := GroupLen(s).value;
    if HeadOf(s).Closes? {
      HeadPrefix(s, n);
      TagByHead(s[..n]);
    } else {
      hide HeadOf;
      var k := FieldLen(s).value;
      FieldLenPrefix(s);
      GroupLenPrefix(s[k..]);
      assert s[..n][..k] == s[..k];
      assert s[..n][k..] == s[k..][..n - k];
      assert IsField(s[..n][..k]) && IsGroupBody(s[..n][k..]);
    }
  }

  lemma {:induction false} IsFieldLen(b: bytes)
    requires IsField(b)
    ensures FieldLen(b) == Some(|b|)
    decreases |b|, 0
  {
    FieldByHead(b);
    hide IsField;
    if HeadOf(b).Opens? {
      IsGroupBodyLen(b[HeadOf(b).len..]);
    }
  }

  lemma {:induction false} IsGroupBodyLen(b: bytes)
    requires IsGroupBody(b)
    ensures GroupLen(b) == Some(|b|)
    decreases |b|, 1
  {
    TagByHead(b);
    hide HeadOf; hide IsTag;
    if HeadOf(b) != Closes(|b|) {
      var k :| 0 < k < |b| && IsField(b[..k]) && IsGroupBody(b[k..]);
      IsFieldLen(b[..k]);
      IsGroupBodyLen(b[k..]);
      FieldLenExtends(b[..k], b[k..]);
      HeadExtends(b[..k], b[k..]);
      assert b[..k] + b[k..] == b;
    }
  }

  /** Inside d + 1 groups the loop first closes one of them, then goes on inside d. */
  ghost function CloseOne(s: bytes, d: nat): Option<nat> {
    match GroupLen(s)
    case Some(n) => if d == 0 then Some(n) else Shift(n, SkipLoop(s[n..], d))
    case None => None
  }

  lemma {:induction false} SkipLoopCloses(s: bytes, d: nat)
    ensures SkipLoop(s, d + 1) == CloseOne(s, d)
    decreases |s|
  {
    hide HeadOf; hide FieldLen; hide GroupLen; hide CloseOne; hide SkipLoop;
    if |s| == 0 { SkipLoopNothing(d + 1); GroupLenNothing(d); return; }
    assert s[0..] == s;
    SkipTurn(s, 0, d + 1);
    CloseOneCases(s, d);
    match HeadOf(s)
    case Opens(t) =>
      SkipLoopCloses(s[t..], d + 1);
      CloseTwo(s, t, d);
      if GroupLen(s[t..]).Some? {
        SkipLoopCloses(s[t + GroupLen(s[t..]).value..], d);
      }
    case Spans(n) => if n <= |s| { SkipLoopCloses(s[n..], d); }
    case _ =>
  }

  lemma GroupLenNothing(d: nat)
    ensures CloseOne([], d) == None
  {
  }

  lemma CloseOneCases(s: bytes, d: nat)
    requires s != []
    ensures HeadOf(s).Bad? ==> CloseOne(s, d) == None
    ensures HeadOf(s).Closes? ==>
              CloseOne(s, d)
              == if d == 0 then Some(HeadOf(s).len) else Shift(HeadOf(s).len, SkipLoop(s[HeadOf(s).len..], d))
    ensures HeadOf(s).Spans? ==>
              CloseOne(s, d)
              == if HeadOf(s).len > |s| then None else Shift(HeadOf(s).len, CloseOne(s[HeadOf(s).len..], d))
  {
    hide HeadOf; hide SkipLoop; hide CloseOne;
    match HeadOf(s)
    case Bad => NoField(s, d);
    case Closes(_) => ClosesNow(s, d);
    case Spans(n) => if n <= |s| { CloseOneShifts(s, n, d); } else { NoField(s, d); }
    case Opens(_) =>
  }

  lemma NoField(s: bytes, d: nat)
    requires FieldLen(s) == None && !HeadOf(s).Closes?
    ensures CloseOne(s, d) == None
  {
    hide HeadOf; hide SkipLoop; hide FieldLen;
  }

  lemma ClosesNow(s: bytes, d: nat)
    requires HeadOf(s).Closes?
    ensures var t := HeadOf(s).len;
            CloseOne(s, d) == if d == 0 then Some(t) else Shift(t, SkipLoop(s[t..], d))
  {
    hide HeadOf; hide SkipLoop; hide FieldLen;
  }

  /** A group opened at the head is closed first, then the one around it. */
  lemma CloseTwo(s: bytes, t: nat, d: nat)
    requires s != [] && HeadOf(s) == Opens(t) && t <= |s|
    ensures GroupLen(s[t..]).None? ==> CloseOne(s[t..], d + 1) == None && CloseOne(s, d) == None
    ensures GroupLen(s[t..]).Some? ==>
              var n := GroupLen(s[t..]).value;
              && t + n <= |s| && n >= 1
              && CloseOne(s[t..], d + 1) == Shift(n, SkipLoop(s[t + n..], d + 1))
              && CloseOne(s, d) == Shift(t + n, CloseOne(s[t + n..], d))
  {
    hide HeadOf; hide SkipLoop;
    assert FieldLen(s) == Shift(t, GroupLen(s[t..]));
    if GroupLen(s[t..]).Some? {
      var n := GroupLen(s[t..]).value;
      assert s[t..][n..] == s[t + n..];
      CloseOneShifts(s, t + n, d);
    }
  }

  lemma CloseOneShifts(s: bytes, n: nat, d: nat)
    requires FieldLen(s) == Some(n) && !HeadOf(s).Closes?
    ensures CloseOne(s, d) == Shift(n, CloseOne(s[n..], d))
  {
    hide HeadOf; hide SkipLoop;
    if GroupLen(s[n..]).Some? {
      var k := GroupLen(s[n..]).value;
      assert s[n..][k..] == s[n + k..];
    }
  }

  /** The loop answers within the buffer exactly when the descent does, and then they agree. */
  lemma SkipIsFieldLen(s: bytes)
    requires |s| < I63
    ensures FieldLen(s).Some? ==> Skip(s) == FieldLen(s)
    ensures FieldLen(s).None? && Skip(s).Some? ==> Skip(s).value > |s|
    ensures Skip(s).Some? ==> 1 <= Skip(s).value < I63
  {
    hide HeadOf;
    if HeadOf(s).Opens? {
      SkipLoopCloses(s[HeadOf(s).len..], 0);
    }
  }

  /** skipPacket stops after n bytes of the buffer exactly when they are one well-formed field. */
  lemma SkipAgreesWithGrammar(b: bytes, n: nat)
    requires n <= |b| < I63
    ensures Skip(b) == Some(n) <==> IsField(b[..n])
    ensures Skip(b) == Some(n) ==> n >= 1
  {
    SkipIsFieldLen(b);
    if Skip(b) == Some(n) {
      FieldLenPrefix(b);
    }
    if IsField(b[..n]) {
      IsFieldLen(b[..n]);
      FieldLenExtends(b[..n], b[n..]);
      assert b[..n] + b[n..] == b;
    }
  }

  // ----- the code

  /** Moves past a length and the bytes it announces, wrapping around if they are too many. */
  method SkipRecord(dAtA: bytes, at: nat) returns (iNdEx: int, err: Error)
    requires at <= |dAtA| < I63
    ensures match Parse(dAtA[at..])
            case Read(bits, n) =>
              if Signed64(bits) < 0 then err == InvalidLength
              else
                && err == NoError
                && if at + n + Signed64(bits) < I63 then iNdEx == at + n + Signed64(bits) else iNdEx < 0
            case _ => err !in {NoError, Panic}
  {
    hide Parse; hide Add64; hide Gathered;
    var bits;
    bits, iNdEx, err := ReadVarint(dAtA, at);
    if err == NoError {
      var length := Signed64(bits);
      if length < 0 {
        err := InvalidLength;
      } else {
        Add64OfIndices(iNdEx, length);
        iNdEx := Add64(iNdEx, length);
      }
    }
  }

  /** The part of skipPacket's loop that reads a tag and moves the index past a plain body. */
  method ReadHead(dAtA: bytes, start: nat) returns (wireType: nat, iNdEx: int, err: Error)
    requires start <= |dAtA| < I63
    ensures err == NoError && iNdEx >= 0 ==> iNdEx > start
    ensures err == NoError && wireType in {3, 4} ==> start < iNdEx <= |dAtA|
    ensures match HeadOf(dAtA[start..])
            case Bad => err !in {NoError, Panic}
            case Opens(t) => err == NoError && wireType == 3 && iNdEx == start + t
            case Closes(t) => err == NoError && wireType == 4 && iNdEx == start + t
            case Spans(n) => err == NoError && wireType !in {3, 4}
                             && if start + n < I63 then iNdEx == start + n else iNdEx < 0
  {
    hide Parse; hide Add64; hide Gathered;
    ghost var ahead := dAtA[start..];
    var tag;
    tag, iNdEx, err := ReadVarint(dAtA, start);
    wireType := WireType(tag);
    if err != NoError {
      return;
    }
    assert ahead[iNdEx - start..] == dAtA[iNdEx..];
    match wireType {
      case 0 =>
        var ignored;
        ignored, iNdEx, err := ReadVarint(dAtA, iNdEx);
      case 1 =>
        Add64OfIndices(iNdEx, 8);
        iNdEx := Add64(iNdEx, 8);
      case 2 =>
        iNdEx, err := SkipRecord(dAtA, iNdEx);
      case 3 =>
      case 4 =>
      case 5 =>
        Add64OfIndices(iNdEx, 4);
        iNdEx := Add64(iNdEx, 4);
      case _ =>
        err := IllegalWireType;
    }
  }

  /** One turn of the loop, by what stands at index i. */
  lemma SkipTurn(s: bytes, i: nat, depth: nat)
    requires i < |s|
    ensures match HeadOf(s[i..])
            case Bad => SkipLoop(s[i..], depth) == None
            case Opens(t) => SkipLoop(s[i..], depth) == Shift(t, SkipLoop(s[i + t..], depth + 1))
            case Closes(t) =>
              SkipLoop(s[i..], depth)
              == if depth == 0 then None else if depth == 1 then Some(t) else Shift(t, SkipLoop(s[i + t..], depth - 1))
            case Spans(n) =>
              SkipLoop(s[i..], depth)
              == if depth == 0 then (if n < I63 then Some(n) else None)
                 else if i + n > |s| then None else Shift(n, SkipLoop(s[i + n..], depth))
  {
    var h := HeadOf(s[i..]);
    if !h.Bad? && i + h.len <= |s| { assert s[i..][h.len..] == s[i + h.len..]; }
    hide HeadOf;
  }

  lemma SkipLoopNothing(depth: nat)
    ensures SkipLoop([], depth) == None
  {
  }

  /** skipPacket: the index just past the field, possibly past the end of the buffer. */
  method SkipField(dAtA: bytes) returns (n: int, err: Error)
    requires |dAtA| < I63
    ensures match Skip(dAtA)
            case Some(k) => err == NoError && n == k
            case None => err !in {NoError, Panic} && n == 0
  {
    hide HeadOf; hide SkipLoop;
    assert dAtA[0..] == dAtA;
    var l := |dAtA|;
    var iNdEx, depth := 0, 0;
    while iNdEx < l
      invariant 0 <= iNdEx && depth >= 0
      invariant iNdEx == 0 <==> depth == 0
      invariant iNdEx <= l ==> Skip(dAtA) == Shift(iNdEx, SkipLoop(dAtA[iNdEx..], depth))
      invariant iNdEx > l ==> Skip(dAtA) == None
      decreases l - iNdEx
    {
      SkipTurn(dAtA, iNdEx, depth);
      var wireType, err';
      wireType, iNdEx, err' := ReadHead(dAtA, iNdEx);
      if err' != NoError {
        return 0, err';
      }
      if wireType == 3 {
        depth := depth + 1;
      } else if wireType == 4 {
        if depth == 0 {
          return 0, UnexpectedEndOfGroup;
        }
        depth := depth - 1;
      }
      if iNdEx < 0 {
        return 0, InvalidLength;
      }
      if depth == 0 {
        return iNdEx, NoError;
      }
    }
    if iNdEx == l {
      assert dAtA[iNdEx..] == [];
      SkipLoopNothing(depth);
    }
    return 0, UnexpectedEOF;
  }
}
