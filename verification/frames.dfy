/** Frames on a byte stream: the whole-stream reading of it, the read loop and the write loop. */
module Frames {
  import opened Bytes
  import opened FrameHeaders

  function Frame(packet: bytes): (f: bytes)
    requires |packet| < SIZE_LIMIT
    ensures |f| == HEADER_SIZE + |packet|
  {
    HeaderBytes(|packet|) + packet
  }

  /**
   * The packets in a whole stream: complete frames of positive size up to the first header that is
   * refused, too large or incomplete, or the first incomplete body. Other sizes are skipped.
   */
  function Packets(s: bytes, max: nat): seq<bytes>
    decreases |s|
  {
    if |s| < HEADER_SIZE then []
    else
      match AcceptHeader(s[..HEADER_SIZE])
      case None => []
      case Some(size) =>
        var rest := s[HEADER_SIZE..];
        if size <= 0 then Packets(rest, max)
        else if size > max || size > |rest| then []
        else [rest[..size]] + Packets(rest[size..], max)
  }

  function Concat(packets: seq<bytes>): bytes
    requires forall p :: p in packets ==> |p| < SIZE_LIMIT
  {
    if packets == [] then [] else Frame(packets[0]) + Concat(packets[1..])
  }

  /** A frame that has only begun to arrive: a proper prefix. */
  predicate Begun(tail: bytes, packet: bytes)
    requires |packet| < SIZE_LIMIT
  {
    |tail| < |Frame(packet)| && tail == Frame(packet)[..|tail|]
  }

  lemma PacketsOfFrame(packet: bytes, rest: bytes, max: nat)
    requires 1 <= |packet| <= max < SIZE_LIMIT
    ensures Packets(Frame(packet) + rest, max) == [packet] + Packets(rest, max)
  {
    hide HeaderBytes; hide AcceptHeader;
    var s := Frame(packet) + rest;
    HeaderRoundTrip(|packet|);
    assert s[..HEADER_SIZE] == HeaderBytes(|packet|);
    assert s[HEADER_SIZE..] == packet + rest;
    assert (packet + rest)[..|packet|] == packet && (packet + rest)[|packet|..] == rest;
  }

  lemma PacketsOfBegun(tail: bytes, packet: bytes, max: nat)
    requires 1 <= |packet| < SIZE_LIMIT && Begun(tail, packet)
    ensures Packets(tail, max) == []
  {
    hide HeaderBytes; hide AcceptHeader;
    if |tail| >= HEADER_SIZE {
      HeaderRoundTrip(|packet|);
      assert tail[..HEADER_SIZE] == HeaderBytes(|packet|);
    }
  }

  /** Written packets are read back in order, and a frame still under way adds nothing. */
  lemma {:induction false} PacketsOfConcat(packets: seq<bytes>, tail: bytes, max: nat)
    requires max < SIZE_LIMIT && forall p :: p in packets ==> 1 <= |p| <= max
    ensures Packets(Concat(packets) + tail, max) == packets + Packets(tail, max)
  {
    hide Frame; hide Packets;
    if packets == [] {
      assert Concat(packets) + tail == tail;
    } else {
      var rest := Concat(packets[1..]) + tail;
      assert Concat(packets) + tail == Frame(packets[0]) + rest;
      PacketsOfFrame(packets[0], rest, max);
      PacketsOfConcat(packets[1..], tail, max);
      assert packets == [packets[0]] + packets[1..];
    }
  }

  lemma {:induction false} ConcatAppend(packets: seq<bytes>, packet: bytes)
    requires (forall p :: p in packets ==> |p| < SIZE_LIMIT) && |packet| < SIZE_LIMIT
    ensures Concat(packets + [packet]) == Concat(packets) + Frame(packet)
  {
    if packets == [] {
      assert packets + [packet] == [packet];
      assert [packet][1..] == [];
    } else {
      assert (packets + [packet])[1..] == packets[1..] + [packet];
      ConcatAppend(packets[1..], packet);
    }
  }

  /** A frame of zero or negative size is passed over. */
  lemma EmptyFrameSkipped(size: int, rest: bytes, max: nat)
    requires -SIZE_LIMIT <= size <= 0
    ensures Packets(HeaderBytes(size) + rest, max) == Packets(rest, max)
  {
    hide HeaderBytes; hide AcceptHeader;
    HeaderRoundTrip(size);
    var s := HeaderBytes(size) + rest;
    assert s[..HEADER_SIZE] == HeaderBytes(size) && s[HEADER_SIZE..] == rest;
  }

  /** One that is too large ends the reading, whether or not its body is there. */
  lemma OversizeFrameStops(size: int, rest: bytes, max: nat)
    requires max < size < SIZE_LIMIT
    ensures Packets(HeaderBytes(size) + rest, max) == []
  {
    hide HeaderBytes; hide AcceptHeader;
    HeaderRoundTrip(size);
    var s := HeaderBytes(size) + rest;
    assert s[..HEADER_SIZE] == HeaderBytes(size);
  }

  /** So does a header with the signature of another size. */
  lemma WrongSignatureStops(a: int, b: int, rest: bytes, max: nat)
    requires -SIZE_LIMIT <= a < SIZE_LIMIT && -SIZE_LIMIT <= b < SIZE_LIMIT && a != b
    ensures Packets(Sign(SizeBytes(a)) + SizeBytes(b) + rest, max) == []
  {
    hide SizeBytes; hide AcceptHeader;
    WrongSignatureRefused(a, b);
    var s := Sign(SizeBytes(a)) + SizeBytes(b) + rest;
    assert s[..HEADER_SIZE] == Sign(SizeBytes(a)) + SizeBytes(b);
  }

  // ----- the read loop

  /** The receiving end of a TCP connection: the bytes still to come, then end of file. */
  class Inbound {
    var input: bytes

    constructor (input: bytes)
      ensures this.input == input
    {
      this.input := input;
    }

    /** A read fills buf from lo with any non-zero number of bytes, at most up to hi. */
    method Read(buf: array<byte>, lo: nat, hi: nat) returns (n: nat, eof: bool)
      requires lo < hi <= buf.Length
      modifies this, buf
      ensures eof <==> old(input) == []
      ensures eof ==> n == 0 && input == old(input)
      ensures !eof ==> 1 <= n <= hi - lo && n <= |old(input)|
      ensures input == old(input)[n..]
      ensures buf[..lo + n] == old(buf[..lo]) + old(input)[..n]
      ensures buf[lo + n..] == old(buf[lo + n..])
    {
      n, eof := 0, input == [];
      if !eof {
        n :| 1 <= n <= hi - lo && n <= |input|;
        forall j | 0 <= j < n {
          buf[lo + j] := input[j];
        }
        input := input[n..];
      }
    }
  }

  /**
   * Socket.onRecv: whatever sizes the reads have, the packets handed to the callback are those of the
   * whole stream. An oversize frame makes the slice expression panic, which ends the loop.
   */
  method OnRecv(conn: Inbound, maxMessageSize: nat) returns (delivered: seq<bytes>)
    modifies conn
    ensures delivered == Packets(old(conn.input), maxMessageSize)
  {
    hide AcceptHeader;
    var headerBuffer := new byte[HEADER_SIZE](_ => 0);
    var dataBuffer := new byte[maxMessageSize](_ => 0);
    delivered := [];
    while true
      invariant fresh(headerBuffer) && fresh(dataBuffer) && headerBuffer != dataBuffer
      invariant Packets(old(conn.input), maxMessageSize) == delivered + Packets(conn.input, maxMessageSize)
      decreases |conn.input|
    {
      ghost var s := conn.input;
      var eof := ReadFull(conn, headerBuffer, HEADER_SIZE);
      if eof {
        return;
      }
      assert headerBuffer[..] == s[..HEADER_SIZE] && s[HEADER_SIZE..] == conn.input;
      var accepted, iMsgLength := ReadHeader(headerBuffer);
      if !accepted {
        return;
      }
      if iMsgLength > 0 {
        if iMsgLength > maxMessageSize {
          return;
        }
        eof := ReadFull(conn, dataBuffer, iMsgLength);
        if eof {
          return;
        }
        var packet := dataBuffer[..iMsgLength];
        delivered := delivered + [packet];
      }
    }
  }

  /** Both inner loops of onRecv: reads until size bytes are in, or the stream ends. */
  method ReadFull(conn: Inbound, buf: array<byte>, size: nat) returns (eof: bool)
    requires size <= buf.Length
    modifies conn, buf
    ensures eof <==> |old(conn.input)| < size
    ensures !eof ==> buf[..size] == old(conn.input)[..size] && conn.input == old(conn.input)[size..]
  {
    var total := 0;
    eof := false;
    while total < size
      invariant total <= size && total <= |old(conn.input)| && !eof
      invariant buf[..total] == old(conn.input)[..total] && conn.input == old(conn.input)[total..]
    {
      var bytesRead;
      bytesRead, eof := conn.Read(buf, total, size);
      if eof {
        return;
      }
      total := total + bytesRead;
    }
  }

  /** Decoder and Check on the header just read. */
  method ReadHeader(headerBuffer: array<byte>) returns (ok: bool, size: int)
    requires headerBuffer.Length == HEADER_SIZE
    ensures match AcceptHeader(headerBuffer[..])
            case Some(n) => ok && size == n
            case None => !ok
  {
    hide ReadSize; hide SignedSize;
    var h := headerBuffer[..];
    var header := new Header();
    ok := header.Decoder(h);
    size := header.size;
    assert h[4..8] == h[4..];
    if ok {
      ok := header.Check();
    }
  }

  // ----- the write loop

  datatype WriteOutcome = Wrote | Skipped | Failed | Panicked

  /** The sending end of a TCP connection: every byte accepted so far. */
  class Outbound {
    var sent: bytes

    /** Some write has failed. */
    ghost var broken: bool

    constructor ()
      ensures sent == [] && !broken
    {
      sent, broken := [], false;
    }

    /** Accepts a non-empty prefix of p, or accepts some prefix and fails. */
    method Write(p: bytes) returns (n: nat, failed: bool)
      requires p != []
      modifies this
      ensures n <= |p| && sent == old(sent) + p[..n]
      ensures !failed ==> n >= 1
      ensures broken <==> old(broken) || failed
    {
      n, failed :| n <= |p| && (!failed ==> n >= 1);
      sent := sent + p[..n];
      broken := broken || failed;
    }
  }

  /** What a write of `packet` may have added to the connection when it returns. */
  ghost predicate Added(packet: bytes, x: bytes, outcome: WriteOutcome) {
    match outcome
    case Wrote => 1 <= |packet| < SIZE_LIMIT && x == Frame(packet)
    case Skipped => packet == [] && x == []
    case Failed => 1 <= |packet| < SIZE_LIMIT && x <= Frame(packet)
    case Panicked => |packet| >= SIZE_LIMIT && x == []
  }

  /** Response.Write: the whole frame through any number of short writes, up to one that fails. */
  method WriteResponse(conn: Outbound, packet: bytes) returns (outcome: WriteOutcome, ghost x: bytes)
    modifies conn
    ensures conn.sent == old(conn.sent) + x && Added(packet, x, outcome)
    ensures outcome.Skipped? || outcome.Panicked? ==> conn.broken == old(conn.broken)
    ensures !old(conn.broken) && 1 <= |packet| < SIZE_LIMIT ==> outcome == if conn.broken then Failed else Wrote
  {
    x := [];
    if |packet| == 0 {
      return Skipped, x;
    }
    var header := new Header();
    header.size := |packet|;
    var msgHeader, panics := header.Encoder();
    if panics {
      return Panicked, x;
    }
    var toWrite := msgHeader + packet;
    var n := 0;
    while n < |toWrite|
      invariant n <= |toWrite| && x == toWrite[..n] && conn.broken == old(conn.broken)
      invariant conn.sent == old(conn.sent) + x
    {
      var bytesWritten, failed := conn.Write(toWrite[n..]);
      assert toWrite[..n] + toWrite[n..][..bytesWritten] == toWrite[..n + bytesWritten];
      n := n + bytesWritten;
      x := toWrite[..n];
      if failed {
        return Failed, x;
      }
    }
    assert toWrite[..n] == Frame(packet);
    return Wrote, x;
  }
}
