/** The full stack: messages through Marshal, Write, any read chunking, and Unmarshal. */
module Transport {
  import opened Bytes
  import opened Schemas
  import opened Decoding
  import opened Encoding
  import opened Merging
  import opened Marshalling
  import opened Unmarshalling
  import opened FrameHeaders
  import opened Frames
  import opened Varints

  /** encs[i] is an encoding of msgs[i], in a size a frame can carry. */
  ghost predicate Encoded(sc: Schema, msgs: seq<Msg>, encs: seq<bytes>) {
    && |msgs| == |encs|
    && forall i :: 0 <= i < |msgs| ==>
         Wf(sc, msgs[i]) && Encodes(sc, msgs[i], encs[i]) && 1 <= |encs[i]| <= 0x10_0000
  }

  /** What a write that failed may leave behind whole frames: nothing, or a frame that has only begun. */
  ghost predicate Cut(tail: bytes) {
    tail == [] || exists packet: bytes :: 1 <= |packet| < SIZE_LIMIT && Begun(tail, packet)
  }

  lemma CutIsSilent(tail: bytes)
    requires Cut(tail)
    ensures Packets(tail, MAX_MESSAGE_SIZE) == []
  {
    hide Begun;
    if tail != [] {
      var packet :| 1 <= |packet| < SIZE_LIMIT && Begun(tail, packet);
      PacketsOfBegun(tail, packet, MAX_MESSAGE_SIZE);
    }
  }

  /** Written one after the other, messages arrive unchanged and in order, whatever a cut write left. */
  lemma FullStack(sc: Schema, msgs: seq<Msg>, encs: seq<bytes>, tail: bytes)
    requires ValidSchema(sc) && Encoded(sc, msgs, encs) && Cut(tail)
    ensures Packets(Concat(encs) + tail, MAX_MESSAGE_SIZE) == encs
    ensures forall i :: 0 <= i < |msgs| ==> Decode(sc, Fresh(sc), encs[i]) == Some(msgs[i])
  {
    hide Frame; hide Concat; hide Encodes; hide Wf; hide Decode; hide Packets; hide Cut;
    CutIsSilent(tail);
    PacketsOfConcat(encs, tail, MAX_MESSAGE_SIZE);
    forall i | 0 <= i < |msgs| ensures Decode(sc, Fresh(sc), encs[i]) == Some(msgs[i]) {
      RoundTrip(sc, msgs[i], encs[i]);
    }
  }

  /** One message: Marshal and Response.Write. A write may fail after the last byte has gone out. */
  method SendOne(sc: Schema, m: Msg, conn: Outbound)
    returns (ok: bool, ghost enc: bytes, ghost whole: bool, ghost tail: bytes)
    requires ValidSchema(sc) && Wf(sc, m) && 1 <= SizeOf(sc, m) <= 0x10_0000 && !conn.broken
    modifies conn
    ensures Encodes(sc, m, enc) && 1 <= |enc| <= 0x10_0000 && Cut(tail)
    ensures conn.sent == old(conn.sent) + if whole then Frame(enc) else tail
    ensures (ok <==> !conn.broken) && (ok ==> whole)
  {
    hide Frame; hide Encodes; hide Wf; hide SizeOf; hide Cut; hide Typed;
    WfIsTyped(sc, m);
    var packet := Marshal(sc, m);
    enc := packet;
    var outcome;
    outcome, tail := WriteResponse(conn, packet);
    ok, whole := outcome == Wrote, tail == Frame(enc);
    if whole {
      tail := [];
    }
    NothingIsCut();
    if !whole { Unfinished(enc, tail); }
  }

  lemma NothingIsCut()
    ensures Cut([])
  {
  }

  /**
   * The sender's half, stopping at the first failure. The connection then holds the frames of the
   * first messages, and perhaps the beginning of one more.
   */
  method Send(sc: Schema, msgs: seq<Msg>, conn: Outbound) returns (ok: bool, ghost encs: seq<bytes>, ghost tail: bytes)
    requires ValidSchema(sc) && conn.sent == [] && !conn.broken
    requires forall i :: 0 <= i < |msgs| ==> Wf(sc, msgs[i]) && 1 <= SizeOf(sc, msgs[i]) <= 0x10_0000
    modifies conn
    ensures |encs| <= |msgs| && Encoded(sc, msgs[..|encs|], encs) && Cut(tail) && conn.sent == Concat(encs) + tail
    ensures (ok <==> !conn.broken) && (ok ==> |encs| == |msgs| && tail == [])
  {
    hide Frame; hide Encodes; hide Wf; hide SizeOf; hide Cut;
    encs, tail := [], [];
    NothingIsCut();
    for i := 0 to |msgs|
      invariant |encs| == i && Encoded(sc, msgs[..i], encs)
      invariant conn.sent == Concat(encs) && tail == [] && !conn.broken
    {
      ghost var enc, whole;
      ok, enc, whole, tail := SendOne(sc, msgs[i], conn);
      ConcatAppend(encs, enc);
      assert msgs[..i + 1] == msgs[..i] + [msgs[i]];
      if whole {
        encs, tail := encs + [enc], [];
      }
      if !ok {
        return;
      }
    }
    ok := true;
  }

  lemma Unfinished(packet: bytes, x: bytes)
    requires 1 <= |packet| < SIZE_LIMIT && x <= Frame(packet) && x != Frame(packet)
    ensures Cut(x)
  {
    assert Begun(x, packet);
  }

  /** The receiver's half: onRecv with any read sizes, Unmarshal in the callback. */
  method Receive(sc: Schema, conn: Inbound, ghost msgs: seq<Msg>, ghost encs: seq<bytes>, ghost tail: bytes)
    returns (received: seq<Msg>)
    requires ValidSchema(sc) && Encoded(sc, msgs, encs) && Cut(tail) && conn.input == Concat(encs) + tail
    modifies conn
    ensures received == msgs
  {
    hide Frame; hide Concat; hide Encodes; hide Wf; hide Decode; hide Packets; hide Cut;
    FullStack(sc, msgs, encs, tail);
    var packets := OnRecv(conn, MAX_MESSAGE_SIZE);
    received := [];
    for i := 0 to |packets|
      invariant received == msgs[..i]
    {
      var msg := new Message(sc, false, Fresh(sc));
      var err := msg.Unmarshal(packets[i]);
      assert err == NoError;
      received := received + [msg.Get()];
    }
  }

  /**
   * Both halves over one connection, closed when the sender is done: whatever the sizes of writes and
   * reads and wherever a write fails, the receiver gets the first messages in order, all of them if
   * no write failed.
   */
  method Transfer(sc: Schema, msgs: seq<Msg>) returns (ok: bool, received: seq<Msg>, ghost writeFailed: bool)
    requires ValidSchema(sc)
    requires forall i :: 0 <= i < |msgs| ==> Wf(sc, msgs[i]) && 1 <= SizeOf(sc, msgs[i]) <= 0x10_0000
    ensures (ok <==> !writeFailed) && received <= msgs && (ok ==> received == msgs)
  {
    hide Concat; hide Encoded; hide Wf; hide SizeOf; hide Cut;
    var conn := new Outbound();
    ghost var encs, tail;
    ok, encs, tail := Send(sc, msgs, conn);
    writeFailed := conn.broken;
    var wire := new Inbound(conn.sent);
    received := Receive(sc, wire, msgs[..|encs|], encs, tail);
  }
}
