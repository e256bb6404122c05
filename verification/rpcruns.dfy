/** The steps of one call, as they are put together into runs that show what can happen. */
module RpcRuns {
  import opened Bytes
  import opened Varints
  import opened Encoding
  import opened Packets
  import opened FrameHeaders
  import opened Rpc
  import opened RpcAdmission

  const POOL: Pool := Pool(0, 0)
  const CONN: Conn := Dialled(POOL, 0)
  const KEY: Key := Key(POOL, 1)

  function CallTo(rpc: bytes): Call { Call(rpc, [], false, [], CONN, Prepared, 0, None, None) }

  function RequestTo(cfg: Config, rpc: bytes): Request { RequestFor(cfg, KEY, CallTo(rpc)) }

  // ----- the caller

  predicate NobodyYet(s: State) {
    NoClients(s) && s.recv == map[] && |s.frames| == |s.stages|
  }

  predicate SameQueue(s: State, s': State) {
    s'.reqCh == s.reqCh && s'.workers == s.workers && s'.execs == s.execs && s'.reqs == s.reqs
  }

  /** The call waits at its select, and nothing has come back. */
  predicate CallerWaits(s: State) {
    && s.handlers == map[CONN := Waiting]
    && At(s, KEY, Selecting) && s.calls[KEY].closes == 0 && KEY in s.callItem
    && s.replies == [] && s.deliveries == []
  }

  /** Its frame f, the last one so far, is on the wire. */
  predicate FrameWaits(s: State, f: nat, payload: bytes) {
    && CONN in s.recv && s.recv[CONN] == Reading
    && f + 1 == |s.frames| == |s.stages| && s.stages[f] == OnWire && s.frames[f] == Frame(CONN, payload, Some(KEY))
  }

  lemma CallOnce(cfg: Config, rpc: bytes, s: State, payload: bytes) returns (s': State)
    requires cfg.maxConns >= 1 && Reachable(cfg, s) && NobodyYet(s)
    requires EncodesRequest(RequestTo(cfg, rpc), payload) && |payload| < SIZE_LIMIT
    ensures Reachable(cfg, s') && CallerWaits(s') && FrameWaits(s', |s.frames|, payload) && SameQueue(s, s')
  {
    hide Reachable; hide EncodesRequest; hide RequestFor;
    var s1 := s.(recv := s.recv[CONN := Reading], conns := s.conns + 1, handlers := s.handlers[CONN := Waiting]);
    assert HandlerStep(cfg, s, s1, AOpen(CONN));
    ReachHandlerStep(cfg, s, s1, AOpen(CONN));
    var s2 := s1.(calls := s1.calls[KEY := CallTo(rpc)], counters := s1.counters[KEY.pool.process := KEY.sid]);
    assert CallerStep(cfg, s1, s2, ANewCall(KEY, CallTo(rpc)));
    ReachCallerStep(cfg, s1, s2, ANewCall(KEY, CallTo(rpc)));
    s' := WriteAndWait(cfg, rpc, s2, payload);
  }

  lemma WriteAndWait(cfg: Config, rpc: bytes, s: State, payload: bytes) returns (s': State)
    requires Reachable(cfg, s) && KEY in s.calls && s.calls[KEY] == CallTo(rpc) && s.handlers == map[CONN := Waiting]
    requires CONN in s.recv && s.recv[CONN] == Reading && s.replies == [] && s.deliveries == []
    requires |s.frames| == |s.stages|
    requires EncodesRequest(RequestTo(cfg, rpc), payload) && |payload| < SIZE_LIMIT
    ensures Reachable(cfg, s') && CallerWaits(s') && FrameWaits(s', |s.frames|, payload) && SameQueue(s, s')
  {
    hide Reachable; hide EncodesRequest;
    var s1 := SetPc(s, KEY, Registered).(callItem := s.callItem[KEY := Rpc.Entry(0, [])]);
    assert CallerStep(cfg, s, s1, ARegister(KEY));
    ReachCallerStep(cfg, s, s1, ARegister(KEY));
    var s2 := s1.(calls := s1.calls[KEY := s1.calls[KEY].(pc := Sent, frame := Some(|s1.frames|))],
                  frames := s1.frames + [Frame(CONN, payload, Some(KEY))], stages := s1.stages + [OnWire]);
    assert RequestFor(cfg, KEY, s1.calls[KEY]) == RequestTo(cfg, rpc);
    assert CallerStep(cfg, s1, s2, AWrite(KEY, payload));
    ReachCallerStep(cfg, s1, s2, AWrite(KEY, payload));
    s' := SetPc(s2, KEY, Selecting);
    assert CallerStep(cfg, s2, s', AReachSelect(KEY));
    ReachCallerStep(cfg, s2, s', AReachSelect(KEY));
  }

  // ----- from one state to another

  /** A continuation of s ends in s'. */
  ghost predicate Leads(cfg: Config, s: State, s': State) {
    exists run :: Continues(cfg, run, s, s')
  }

  ghost predicate Continues(cfg: Config, run: seq<State>, s: State, s': State) {
    && |run| > 0 && run[0] == s && run[|run| - 1] == s'
    && forall i :: 0 <= i < |run| - 1 ==> Next(cfg, run[i], run[i + 1])
  }

  lemma LeadsHere(cfg: Config, s: State)
    ensures Leads(cfg, s, s)
  {
    hide Next;
    assert Continues(cfg, [s], s, s);
  }

  lemma LeadsNext(cfg: Config, s: State, s': State, s'': State)
    requires Leads(cfg, s, s') && Next(cfg, s', s'')
    ensures Leads(cfg, s, s'')
  {
    hide Next;
    var run :| Continues(cfg, run, s, s');
    assert Continues(cfg, run + [s''], s, s'');
  }

  lemma LeadsByCaller(cfg: Config, s: State, s': State, s'': State, a: CallerAction)
    requires Leads(cfg, s, s') && CallerStep(cfg, s', s'', a)
    ensures Leads(cfg, s, s'')
  {
    hide CallerStep; hide Leads;
    assert Step(cfg, s', s'', ByCaller(a));
    LeadsNext(cfg, s, s', s'');
  }

  lemma LeadsByHandler(cfg: Config, s: State, s': State, s'': State, a: HandlerAction)
    requires Leads(cfg, s, s') && HandlerStep(cfg, s', s'', a)
    ensures Leads(cfg, s, s'')
  {
    hide HandlerStep; hide Leads;
    assert Step(cfg, s', s'', ByHandler(a));
    LeadsNext(cfg, s, s', s'');
  }

  lemma LeadsOn(cfg: Config, s: State, s': State, s'': State)
    requires Leads(cfg, s, s') && Leads(cfg, s', s'')
    ensures Leads(cfg, s, s'')
  {
    hide Next;
    var one :| Continues(cfg, one, s, s');
    var two :| Continues(cfg, two, s', s'');
    var all := one + two[1..];
    forall i | 0 <= i < |all| - 1 ensures Next(cfg, all[i], all[i + 1]) {
      if i >= |one| - 1 { assert all[i] == two[i - |one| + 1] && all[i + 1] == two[i - |one| + 2]; }
    }
    assert Continues(cfg, all, s, s'');
  }

  lemma ReachableOn(cfg: Config, s: State, s': State)
    requires Reachable(cfg, s) && Leads(cfg, s, s')
    ensures Reachable(cfg, s')
  {
    hide Next; hide Init;
    var run :| Run(cfg, run) && run[|run| - 1] == s;
    var more :| Continues(cfg, more, s, s');
    var all := run + more[1..];
    forall i | 0 <= i < |all| - 1 ensures Next(cfg, all[i], all[i + 1]) {
      if i >= |run| - 1 { assert all[i] == more[i - |run| + 1] && all[i + 1] == more[i - |run| + 2]; }
    }
    assert Run(cfg, all) && all[|all| - 1] == s';
  }

  // ----- the handler

  /** No other handler of the pool is busy. */
  predicate OthersRest(s: State, c: Conn)
    requires c.Dialled?
  {
    forall d :: d in s.handlers && d.Dialled? && d.pool == c.pool && d != c ==> s.handlers[d] == Waiting
  }

  /** Call k is at its select, and nobody has closed its channel. */
  predicate Expects(s: State, k: Key) { At(s, k, Selecting) && s.calls[k].closes == 0 && k in s.callItem }

  /** Reply i is on its way to the waiting call k over connection c. */
  predicate ReplyWaits(s: State, k: Key, c: Conn, i: nat, resp: Response) {
    && c.Dialled? && c.pool == k.pool && c in s.handlers && s.handlers[c] == Waiting && OthersRest(s, c)
    && Expects(s, k)
    && i < |s.replies| == |s.deliveries| && s.replies[i].conn == c && s.deliveries[i] == InFlight
    && 1 <= |s.replies[i].payload| <= 0x10_0000 && DecodeResponse(s.replies[i].payload) == Some(resp)
    && resp.sid == k.sid != 0 && ONLY_CALL_HEADER !in resp.headers
  }

  /** The handler has stored it and is about to send to the call. */
  predicate HandlerSends(s: State, k: Key, c: Conn, i: nat, resp: Response) {
    && c.Dialled? && c.pool == k.pool && c in s.handlers && s.handlers[c] == Sending(i, resp) && OthersRest(s, c)
    && resp.sid == k.sid && Expects(s, k) && s.callItem[k] == Rpc.Entry(resp.code, resp.packet) && i < |s.deliveries|
  }

  lemma HandleOnce(cfg: Config, s: State, k: Key, c: Conn, i: nat, resp: Response) returns (s': State)
    requires ReplyWaits(s, k, c, i, resp)
    ensures Leads(cfg, s, s') && HandlerSends(s', k, c, i, resp)
  {
    hide Leads; hide DecodeResponse;
    LeadsHere(cfg, s);
    var s1 := s.(handlers := s.handlers[c := Decoded(i, resp)], deliveries := s.deliveries[i := AtHandler]);
    assert HandlerStep(cfg, s, s1, ADeliver(c, i));
    LeadsByHandler(cfg, s, s, s1, ADeliver(c, i));
    var s2 := s1.(handlers := s1.handlers[c := Locked(i, resp)]);
    assert HandlerStep(cfg, s1, s2, AReadLock(c));
    LeadsByHandler(cfg, s, s1, s2, AReadLock(c));
    s' := LookAndSend(cfg, s, s2, k, c, i, resp);
  }

  lemma LookAndSend(cfg: Config, s0: State, s: State, k: Key, c: Conn, i: nat, resp: Response) returns (s': State)
    requires Leads(cfg, s0, s) && c.Dialled? && c.pool == k.pool && OthersRest(s, c) && Expects(s, k)
    requires c in s.handlers && s.handlers[c] == Locked(i, resp) && resp.sid == k.sid && i < |s.deliveries|
    ensures Leads(cfg, s0, s') && HandlerSends(s', k, c, i, resp)
  {
    hide Leads;
    var s1 := s.(handlers := s.handlers[c := Stored(i, resp)],
                 callItem := s.callItem[k := Rpc.Entry(resp.code, resp.packet)]);
    assert Target(c, resp) == k;
    assert HandlerStep(cfg, s, s1, ALookup(c));
    LeadsByHandler(cfg, s0, s, s1, ALookup(c));
    s' := s1.(handlers := s1.handlers[c := Sending(i, resp)]);
    assert s1.(faults := s1.faults || k !in s1.callItem) == s1;
    NobodySends(s1, k, c);
    assert TestChannel(s1, s', c, None);
    assert HandlerStep(cfg, s1, s', ATestChannel(c, None));
    LeadsByHandler(cfg, s0, s1, s', ATestChannel(c, None));
  }

  lemma NobodySends(s: State, k: Key, c: Conn)
    requires c.Dialled? && c.pool == k.pool && OthersRest(s, c) && c in s.handlers && !s.handlers[c].Sending?
    ensures forall x :: !SendingTo(s, x, k)
  {
  }

  /** The value is handed over, the handler lets go of the lock, and the call takes its entry. */
  lemma ReturnOnce(cfg: Config, s: State, k: Key, c: Conn, i: nat, resp: Response) returns (s': State)
    requires HandlerSends(s, k, c, i, resp)
    ensures Leads(cfg, s, s')
    ensures At(s', k, Returned(if resp.code == 0 then Reply(resp.packet) else ErrorCode(resp.code)))
  {
    hide Leads;
    var s1 := MeetOnce(cfg, s, k, c, i, resp);
    var s2 := s1.(handlers := s1.handlers[c := Waiting]);
    assert HandlerStep(cfg, s1, s2, AReadUnlock(c));
    LeadsByHandler(cfg, s, s1, s2, AReadUnlock(c));
    s' := TakeEntry(cfg, s, s2, k, c, Rpc.Entry(resp.code, resp.packet));
  }

  lemma MeetOnce(cfg: Config, s: State, k: Key, c: Conn, i: nat, resp: Response) returns (s': State)
    requires HandlerSends(s, k, c, i, resp)
    ensures Leads(cfg, s, s') && s'.callItem == s.callItem && c in s'.handlers && s'.handlers[c] == Unlocking
    ensures OthersRest(s', c) && At(s', k, Received) && s'.calls[k].closes == 0
  {
    hide Leads;
    LeadsHere(cfg, s);
    s' := s.(calls := s.calls[k := s.calls[k].(pc := Received, got := Some(i))],
             handlers := s.handlers[c := Unlocking], deliveries := s.deliveries[i := Spent]);
    assert SendingTo(s, c, k);
    assert CallerStep(cfg, s, s', ARendezvous(k, c));
    LeadsByCaller(cfg, s, s, s', ARendezvous(k, c));
  }

  lemma TakeEntry(cfg: Config, s0: State, s: State, k: Key, c: Conn, x: Rpc.Entry) returns (s': State)
    requires Leads(cfg, s0, s) && At(s, k, Received) && s.calls[k].closes == 0 && c.Dialled? && c.pool == k.pool
    requires c in s.handlers && s.handlers[c] == Waiting && OthersRest(s, c) && k in s.callItem && s.callItem[k] == x
    ensures Leads(cfg, s0, s') && At(s', k, Returned(if x.code == 0 then Reply(x.packet) else ErrorCode(x.code)))
  {
    hide Leads;
    var result := if x.code == 0 then Reply(x.packet) else ErrorCode(x.code);
    var s1 := CloseAndDelete(s, k, result);
    assert NoReaders(s, k.pool);
    assert CallerStep(cfg, s, s1, ALockReply(k));
    LeadsByCaller(cfg, s0, s, s1, ALockReply(k));
    s' := s1.(calls := s1.calls[k := s1.calls[k].(pc := Returned(result))]);
    assert CallerStep(cfg, s1, s', ADeferred(k, None));
    LeadsByCaller(cfg, s0, s1, s', ADeferred(k, None));
  }

  /**
   * A reply that is on its way to a call at its select can always reach it: the run can go on, while
   * the other handlers of the pool rest, until the call has returned what the reply says.
   */
  lemma ReplyCanReturn(cfg: Config, s: State, k: Key, c: Conn, i: nat, resp: Response) returns (s': State)
    requires ReplyWaits(s, k, c, i, resp)
    ensures Leads(cfg, s, s')
    ensures At(s', k, Returned(if resp.code == 0 then Reply(resp.packet) else ErrorCode(resp.code)))
  {
    hide Leads; hide ReplyWaits; hide HandlerSends;
    var s1 := HandleOnce(cfg, s, k, c, i, resp);
    s' := ReturnOnce(cfg, s1, k, c, i, resp);
    LeadsOn(cfg, s, s1, s');
  }

  // ----- the messages

  lemma OwnHeaders(cfg: Config, rpc: bytes)
    ensures RequestTo(cfg, rpc).sid == 1 && RequestTo(cfg, rpc).headers == map[TRACE_ID_HEADER := []]
    ensures ONLY_CALL_HEADER !in RequestTo(cfg, rpc).headers && IsInt64(RequestTo(cfg, rpc).rpcId)
    ensures ValidRequest(RequestTo(cfg, rpc)) && !WantsNoReply(RequestTo(cfg, rpc))
  {
  }

  lemma SmallRequest(cfg: Config, rpc: bytes) returns (payload: bytes)
    ensures EncodesRequest(RequestTo(cfg, rpc), payload) && 1 <= |payload| <= MAX_MESSAGE_SIZE
    ensures DecodeRequest(payload) == Some(RequestTo(cfg, rpc))
  {
    hide Encodes; hide DecodeRequest; hide SizeOf; hide MapSize; hide ScalarSize; hide RequestTo; hide WantsNoReply;
    var msg := RequestTo(cfg, rpc);
    GeneratedSchemas(REQUEST_SCHEMA);
    OwnHeaders(cfg, rpc);
    RequestIsTyped(msg);
    RequestParts(cfg, rpc);
    payload := SomeEncoding(REQUEST_SCHEMA, RequestMsg(msg));
    EncodesSize(REQUEST_SCHEMA, RequestMsg(msg), payload);
    RequestSize(msg);
    OneHeader();
    SmallScalar(msg.sid); SmallScalar(msg.rpcId);
    RequestRoundTrip(msg, payload);
  }

  lemma RequestParts(cfg: Config, rpc: bytes)
    ensures RequestTo(cfg, rpc).packet == [] && RequestTo(cfg, rpc).unknown == []
  {
  }

  /** The reply to it with a packet of up to about a megabyte arrives. */
  lemma SmallReply(cfg: Config, rpc: bytes, code: int, packet: bytes) returns (reply: bytes)
    requires IsInt32(code) && |packet| + 1100 <= MAX_MESSAGE_SIZE
    ensures var resp := Respond(RequestTo(cfg, rpc), code, packet);
            && EncodesResponse(resp, reply) && 1 <= |reply| <= MAX_MESSAGE_SIZE
            && DecodeResponse(reply) == Some(resp) && FitsFrame(resp)
  {
    hide Encodes; hide DecodeResponse; hide SizeOf; hide MapSize; hide ScalarSize; hide RequestTo; hide WantsNoReply;
    var resp := Respond(RequestTo(cfg, rpc), code, packet);
    GeneratedSchemas(RESPONSE_SCHEMA);
    OwnHeaders(cfg, rpc);
    ResponseIsTyped(resp);
    reply := SomeEncoding(RESPONSE_SCHEMA, ResponseMsg(resp));
    EncodesSize(RESPONSE_SCHEMA, ResponseMsg(resp), reply);
    ResponseSize(resp);
    OneHeader();
    SmallScalar(resp.sid); SmallScalar(code);
    SmallRecord(|packet|);
    ResponseRoundTrip(resp, reply);
  }

  lemma OneHeader()
    ensures 1 <= MapSize(map[TRACE_ID_HEADER := []]) <= 1000
  {
    var m: map<bytes, bytes> := map[TRACE_ID_HEADER := []];
    MapSizeAnyOrder(m, TRACE_ID_HEADER);
    assert m - {TRACE_ID_HEADER} == map[];
    MapSizeEmpty();
    hide Sov;
    SovIsLength(7); SovIsLength(0);
    assert RecordSize(7) == 9 && RecordSize(0) == 2;
    SovIsLength(11);
  }

  lemma SmallScalar(x: int)
    ensures ScalarSize(Unsigned64(x)) <= 11
  {
    hide Sov;
    SovIsLength(Unsigned64(x));
    EncodeAtMostTen(Unsigned64(x));
  }

  lemma SmallRecord(n: nat)
    requires n < U64
    ensures RecordSize(n) <= n + 11
  {
    hide Sov;
    SovIsLength(n);
    EncodeAtMostTen(n);
  }
}
