/** The messages of packet.proto and usernode.proto as schemas, and the two RPC envelopes as records. */
module Packets {
  import opened Bytes
  import opened Varints
  import opened Schemas
  import opened Decoding
  import opened Encoding
  import opened Merging
  import opened FrameHeaders

  const REQUEST_SCHEMA: Schema := [Int64K, Int64K, MapK, BytesK]
  const RESPONSE_SCHEMA: Schema := [Int64K, MapK, Int32K, BytesK]
  const COUNTER_SCHEMA: Schema := [BytesK, BytesK, MapK]
  const GAUGE_SCHEMA: Schema := [BytesK, BytesK, Int64K, BoolK, MapK]
  const SUMMARY_SCHEMA: Schema := [BytesK, MapK]
  const METRIC_SCHEMA: Schema :=
    [Int32K, MessageK(COUNTER_SCHEMA), MessageK(GAUGE_SCHEMA), MessageK(SUMMARY_SCHEMA), BytesK, Int64K, BytesK, MapK]
  const METRICS_SCHEMA: Schema := [RepeatedK(METRIC_SCHEMA)]

  const AUTHORIZE_SCHEMA: Schema := [BytesK, BytesK, MapK]
  const CREATE_USER_REQ_SCHEMA: Schema := [MessageK(AUTHORIZE_SCHEMA), BytesK, BytesK, BytesK]
  const CREATE_USER_RESP_SCHEMA: Schema := [Int32K, BytesK, MapK]
  const USER_INFO_REQ_SCHEMA: Schema := [MessageK(AUTHORIZE_SCHEMA), BytesK]
  const USER_INFO_RESP_SCHEMA: Schema := [Int32K, BytesK, MapK]

  /** The general theorems apply to every generated message. */
  lemma GeneratedSchemas(sc: Schema)
    requires sc in {REQUEST_SCHEMA, RESPONSE_SCHEMA, COUNTER_SCHEMA, GAUGE_SCHEMA, SUMMARY_SCHEMA, METRIC_SCHEMA,
                    METRICS_SCHEMA, AUTHORIZE_SCHEMA, CREATE_USER_REQ_SCHEMA, CREATE_USER_RESP_SCHEMA,
                    USER_INFO_REQ_SCHEMA, USER_INFO_RESP_SCHEMA}
    ensures ValidSchema(sc)
  {
    assert ValidSchema(COUNTER_SCHEMA) && ValidSchema(GAUGE_SCHEMA) && ValidSchema(SUMMARY_SCHEMA);
    assert ValidSchema(METRIC_SCHEMA);
  }

  type Headers = map<bytes, bytes>

  datatype Request = Request(sid: int, rpcId: int, headers: Headers, packet: bytes, unknown: bytes)

  datatype Response = Response(sid: int, headers: Headers, code: int, packet: bytes, unknown: bytes)

  function RequestMsg(r: Request): Msg {
    Msg([IntV(r.sid), IntV(r.rpcId), MapV(r.headers), BytesV(r.packet)], r.unknown)
  }

  function ResponseMsg(r: Response): Msg {
    Msg([IntV(r.sid), MapV(r.headers), IntV(r.code), BytesV(r.packet)], r.unknown)
  }

  function RequestOf(m: Msg): Option<Request> {
    var f := m.fields;
    if |f| == 4 && f[0].IntV? && f[1].IntV? && f[2].MapV? && f[3].BytesV?
    then Some(Request(f[0].i, f[1].i, f[2].entries, f[3].s, m.unknown))
    else None
  }

  function ResponseOf(m: Msg): Option<Response> {
    var f := m.fields;
    if |f| == 4 && f[0].IntV? && f[1].MapV? && f[2].IntV? && f[3].BytesV?
    then Some(Response(f[0].i, f[1].entries, f[2].i, f[3].s, m.unknown))
    else None
  }

  /** What a Go Request can hold when its unknown bytes come from a decoder (or are absent). */
  predicate ValidRequest(r: Request) {
    IsInt64(r.sid) && IsInt64(r.rpcId) && UnknownOnly(REQUEST_SCHEMA, r.unknown)
  }

  predicate ValidResponse(r: Response) {
    IsInt64(r.sid) && IsInt32(r.code) && UnknownOnly(RESPONSE_SCHEMA, r.unknown)
  }

  ghost predicate EncodesRequest(r: Request, b: bytes) {
    Encodes(REQUEST_SCHEMA, RequestMsg(r), b) && |b| < I63
  }

  ghost predicate EncodesResponse(r: Response, b: bytes) {
    Encodes(RESPONSE_SCHEMA, ResponseMsg(r), b) && |b| < I63
  }

  /** Response.Write can put it on the wire: Encoder panics for a packet of 2^27 bytes or more. */
  ghost predicate FitsFrame(r: Response) {
    SizeOf(RESPONSE_SCHEMA, ResponseMsg(r)) < SIZE_LIMIT
  }

  lemma EncodedFits(r: Response, b: bytes)
    requires EncodesResponse(r, b)
    ensures FitsFrame(r) <==> |b| < SIZE_LIMIT
  {
    hide Encodes; hide SizeOf;
    EncodesSize(RESPONSE_SCHEMA, ResponseMsg(r), b);
  }

  function DecodeRequest(b: bytes): Option<Request> {
    match Decode(REQUEST_SCHEMA, Fresh(REQUEST_SCHEMA), b)
    case Some(m) => RequestOf(m)
    case None => None
  }

  function DecodeResponse(b: bytes): Option<Response> {
    match Decode(RESPONSE_SCHEMA, Fresh(RESPONSE_SCHEMA), b)
    case Some(m) => ResponseOf(m)
    case None => None
  }

  /** A request comes back from the wire exactly when its unknown bytes are such as a decoder keeps. */
  lemma RequestRoundTrip(r: Request, b: bytes)
    requires EncodesRequest(r, b)
    ensures DecodeRequest(b) == Some(r) <==> ValidRequest(r)
  {
    hide Decode; hide Encodes; hide UnknownOnly;
    GeneratedSchemas(REQUEST_SCHEMA);
    RoundTrip(REQUEST_SCHEMA, RequestMsg(r), b);
    RequestWf(r);
    DecodedAs(b, RequestMsg(r));
  }

  lemma RequestWf(r: Request)
    ensures Wf(REQUEST_SCHEMA, RequestMsg(r)) <==> ValidRequest(r)
  {
    hide UnknownOnly;
    var m := RequestMsg(r);
    if ValidRequest(r) {
      forall i | 0 <= i < 4 ensures WfValue(REQUEST_SCHEMA[i], m.fields[i]) {}
    }
    if Wf(REQUEST_SCHEMA, m) {
      assert WfValue(REQUEST_SCHEMA[0], m.fields[0]) && WfValue(REQUEST_SCHEMA[1], m.fields[1]);
    }
  }

  lemma DecodedAs(b: bytes, m: Msg)
    requires RequestOf(m).Some?
    ensures DecodeRequest(b) == RequestOf(m) <==> Decode(REQUEST_SCHEMA, Fresh(REQUEST_SCHEMA), b) == Some(m)
  {
    hide Decode;
    match Decode(REQUEST_SCHEMA, Fresh(REQUEST_SCHEMA), b)
    case Some(x) =>
      if RequestOf(x) == RequestOf(m) {
        assert x.fields == m.fields;
      }
    case None =>
  }

  /** A Go request whose unknown bytes spell a field it knows does not come back as it was. */
  lemma UnknownBytesMatter() returns (r: Request, b: bytes)
    ensures Typed(REQUEST_SCHEMA, RequestMsg(r)) && EncodesRequest(r, b) && DecodeRequest(b) != Some(r)
  {
    hide Encodes;
    r := Request(0, 0, map[], [], [0x08, 1]);
    GeneratedSchemas(REQUEST_SCHEMA);
    RequestIsTyped(r);
    b := SomeEncoding(REQUEST_SCHEMA, RequestMsg(r));
    EncodesSize(REQUEST_SCHEMA, RequestMsg(r), b);
    RequestSize(r);
    MapSizeEmpty();
    ParseByte(0x08, [1]);
    assert r.unknown == [0x08] + [1];
    RequestRoundTrip(r, b);
  }

  lemma RequestIsTyped(r: Request)
    requires IsInt64(r.sid) && IsInt64(r.rpcId)
    ensures Typed(REQUEST_SCHEMA, RequestMsg(r))
  {
    forall i | 0 <= i < 4 ensures TypedValue(REQUEST_SCHEMA[i], RequestMsg(r).fields[i]) {}
  }

  lemma RequestSize(r: Request)
    ensures SizeOf(REQUEST_SCHEMA, RequestMsg(r))
            == ScalarSize(Unsigned64(r.sid)) + ScalarSize(Unsigned64(r.rpcId)) + MapSize(r.headers)
               + (if r.packet == [] then 0 else RecordSize(|r.packet|)) + |r.unknown|
  {
    hide MapSize; hide ScalarSize; hide RecordSize;
    var sc, m := REQUEST_SCHEMA, RequestMsg(r);
    assert SizeFrom(sc, m, 4) == |r.unknown|;
    assert SizeFrom(sc, m, 3) == FieldSize(sc[3], m.fields[3]) + SizeFrom(sc, m, 4);
    assert SizeFrom(sc, m, 2) == FieldSize(sc[2], m.fields[2]) + SizeFrom(sc, m, 3);
    assert SizeFrom(sc, m, 1) == FieldSize(sc[1], m.fields[1]) + SizeFrom(sc, m, 2);
    assert SizeFrom(sc, m, 0) == FieldSize(sc[0], m.fields[0]) + SizeFrom(sc, m, 1);
  }

  lemma ResponseIsTyped(r: Response)
    requires IsInt64(r.sid) && IsInt32(r.code)
    ensures Typed(RESPONSE_SCHEMA, ResponseMsg(r))
  {
    forall i | 0 <= i < 4 ensures TypedValue(RESPONSE_SCHEMA[i], ResponseMsg(r).fields[i]) {}
  }

  lemma ResponseSize(r: Response)
    ensures SizeOf(RESPONSE_SCHEMA, ResponseMsg(r))
            == ScalarSize(Unsigned64(r.sid)) + MapSize(r.headers) + ScalarSize(Unsigned64(r.code))
               + (if r.packet == [] then 0 else RecordSize(|r.packet|)) + |r.unknown|
  {
    hide MapSize; hide ScalarSize; hide RecordSize;
    var sc, m := RESPONSE_SCHEMA, ResponseMsg(r);
    assert SizeFrom(sc, m, 4) == |r.unknown|;
    assert SizeFrom(sc, m, 3) == FieldSize(sc[3], m.fields[3]) + SizeFrom(sc, m, 4);
    assert SizeFrom(sc, m, 2) == FieldSize(sc[2], m.fields[2]) + SizeFrom(sc, m, 3);
    assert SizeFrom(sc, m, 1) == FieldSize(sc[1], m.fields[1]) + SizeFrom(sc, m, 2);
    assert SizeFrom(sc, m, 0) == FieldSize(sc[0], m.fields[0]) + SizeFrom(sc, m, 1);
  }

  /** The same for responses. */
  lemma ResponseRoundTrip(r: Response, b: bytes)
    requires EncodesResponse(r, b)
    ensures DecodeResponse(b) == Some(r) <==> ValidResponse(r)
  {
    hide Decode; hide Encodes; hide UnknownOnly;
    GeneratedSchemas(RESPONSE_SCHEMA);
    RoundTrip(RESPONSE_SCHEMA, ResponseMsg(r), b);
    ResponseWf(r);
    DecodedAsResponse(b, ResponseMsg(r));
  }

  lemma ResponseWf(r: Response)
    ensures Wf(RESPONSE_SCHEMA, ResponseMsg(r)) <==> ValidResponse(r)
  {
    hide UnknownOnly;
    var m := ResponseMsg(r);
    if ValidResponse(r) {
      forall i | 0 <= i < 4 ensures WfValue(RESPONSE_SCHEMA[i], m.fields[i]) {}
    }
    if Wf(RESPONSE_SCHEMA, m) {
      assert WfValue(RESPONSE_SCHEMA[0], m.fields[0]) && WfValue(RESPONSE_SCHEMA[2], m.fields[2]);
    }
  }

  lemma DecodedAsResponse(b: bytes, m: Msg)
    requires ResponseOf(m).Some?
    ensures DecodeResponse(b) == ResponseOf(m) <==> Decode(RESPONSE_SCHEMA, Fresh(RESPONSE_SCHEMA), b) == Some(m)
  {
    hide Decode;
    match Decode(RESPONSE_SCHEMA, Fresh(RESPONSE_SCHEMA), b)
    case Some(x) =>
      if ResponseOf(x) == ResponseOf(m) {
        assert x.fields == m.fields;
      }
    case None =>
  }

  /** Requests that came off the wire are valid again, so a relay can re-encode them. */
  lemma DecodedRequestIsValid(b: bytes)
    requires |b| < I63 && DecodeRequest(b).Some?
    ensures ValidRequest(DecodeRequest(b).value)
  {
    hide Decode; hide UnknownOnly;
    FreshIsWf(REQUEST_SCHEMA);
    DecodeWf(REQUEST_SCHEMA, Fresh(REQUEST_SCHEMA), b);
    var m := Decode(REQUEST_SCHEMA, Fresh(REQUEST_SCHEMA), b).value;
    assert WfValue(REQUEST_SCHEMA[0], m.fields[0]) && WfValue(REQUEST_SCHEMA[1], m.fields[1]);
  }

  lemma EncodedSidIsNotEmpty(r: Request, b: bytes)
    requires IsInt64(r.sid) && r.sid != 0 && EncodesRequest(r, b)
    ensures |b| >= 1
  {
    EncodesSize(REQUEST_SCHEMA, RequestMsg(r), b);
    assert FieldSize(REQUEST_SCHEMA[0], RequestMsg(r).fields[0]) >= 1;
  }
}
