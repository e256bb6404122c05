/** Runs in which a call is served: one that succeeds, and one whose answer is too large to be sent. */
module RpcOutcomes {
  import opened Bytes
  import opened Encoding
  import opened Packets
  import opened FrameHeaders
  import opened Rpc
  import opened RpcInvariants
  import opened RpcTheorems
  import opened RpcAdmission
  import opened RpcRuns

  /** The server has a handler for the method, room for requests, and takes connections. */
  predicate Serves(cfg: Config, rpc: bytes) {
    cfg.maxConns >= 1 && cfg.capacity >= 10 && RpcId(RequestTo(cfg, rpc)) in cfg.table
  }

  lemma OneIdleWorker(cfg: Config) returns (s: State)
    ensures Reachable(cfg, s) && NobodyYet(s) && s.frames == []
    ensures s.reqCh == [] && s.execs == [] && s.workers == map[0 := Idle]
  {
    s := State(map[], map[], map[], map[], [], [], map[], 0, [], map[0 := Idle], 0, [], [], [], map[], false);
    hide Next;
    assert Run(cfg, [s]) && [s][|[s]| - 1] == s;
  }

  /** Worker 0 has run item.Call for frame 0 and is about to answer. */
  predicate AboutToAnswer(s: State, msg: Request, ret: bytes) {
    && CallerWaits(s)
    && |s.frames| == |s.stages| == 1 && s.frames[0].conn == CONN && s.stages[0] == AtWorker(0)
    && s.workers == map[0 := Answering(0, msg, Respond(msg, 0, ret), Succeeded(0, ret))]
  }

  /** The frame of the call reaches the worker. */
  lemma TakeOnce(cfg: Config, s: State, payload: bytes) returns (s': State)
    requires Reachable(cfg, s) && CallerWaits(s) && FrameWaits(s, 0, payload)
    requires s.reqCh == [] && s.workers == map[0 := Idle] && cfg.capacity >= 10
    requires 1 <= |payload| <= MAX_MESSAGE_SIZE
    ensures Reachable(cfg, s') && CallerWaits(s') && s'.workers == map[0 := Taken(0)] && s'.execs == s.execs
    ensures s'.frames == s.frames && |s'.stages| == 1 && s'.stages[0] == AtWorker(0)
  {
    hide Reachable;
    var s1 := s.(recv := s.recv[CONN := Passed(0)], stages := s.stages[0 := AtRecv]);
    assert ServerStep(cfg, s, s1, AReceive(0));
    ReachStep(cfg, s, s1, AReceive(0));
    var s2 := s1.(recv := s1.recv[CONN := Reading], reqCh := s1.reqCh + [0], stages := s1.stages[0 := Queued]);
    assert ServerStep(cfg, s1, s2, APush(CONN));
    ReachStep(cfg, s1, s2, APush(CONN));
    s' := s2.(reqCh := s2.reqCh[1..], workers := s2.workers[0 := Taken(0)], stages := s2.stages[0 := AtWorker(0)]);
    assert ServerStep(cfg, s2, s', ATake(0));
    ReachStep(cfg, s2, s', ATake(0));
  }

  /** handle, up to the answer. */
  lemma RunOnce(cfg: Config, s: State, msg: Request, ret: bytes) returns (s': State)
    requires Reachable(cfg, s) && CallerWaits(s) && s.workers == map[0 := Taken(0)] && s.execs == []
    requires |s.frames| == |s.stages| == 1 && s.stages[0] == AtWorker(0) && s.frames[0].conn == CONN
    requires DecodeRequest(s.frames[0].payload) == Some(msg) && RpcId(msg) in cfg.table && !WantsNoReply(msg)
    ensures Reachable(cfg, s') && AboutToAnswer(s', msg, ret) && s'.frames == s.frames
  {
    hide Reachable; hide DecodeRequest; hide RpcId; hide WantsNoReply; hide Respond;
    var s1 := s.(workers := s.workers[0 := Looked(0, msg)]);
    assert ServerStep(cfg, s, s1, ALookUpHandler(0));
    ReachStep(cfg, s, s1, ALookUpHandler(0));
    var s2 := s1.(workers := s1.workers[0 := Counted(0, msg)], reqs := s1.reqs + 1);
    assert ServerStep(cfg, s1, s2, AIncReq(0));
    ReachStep(cfg, s1, s2, AIncReq(0));
    s' := InvokeOnce(cfg, s2, msg, ret);
  }

  lemma InvokeOnce(cfg: Config, s: State, msg: Request, ret: bytes) returns (s': State)
    requires Reachable(cfg, s) && CallerWaits(s) && s.workers == map[0 := Counted(0, msg)] && s.execs == []
    requires |s.frames| == |s.stages| == 1 && s.stages[0] == AtWorker(0) && s.frames[0].conn == CONN
    requires RpcId(msg) in cfg.table && !WantsNoReply(msg)
    ensures Reachable(cfg, s') && AboutToAnswer(s', msg, ret) && s'.frames == s.frames
  {
    hide Reachable; hide RpcId; hide WantsNoReply; hide Respond;
    var result := CallResult.Ok(ret);
    s' := s.(execs := s.execs + [Exec(0, cfg.table[RpcId(msg)], msg.packet, result)],
             workers := s.workers[0 := AfterCall(0, msg, 0, result)]);
    assert ServerStep(cfg, s, s', AInvoke(0, result));
    ReachStep(cfg, s, s', AInvoke(0, result));
  }

  lemma ServeOnce(cfg: Config, rpc: bytes, ret: bytes) returns (s: State, payload: bytes)
    requires Serves(cfg, rpc)
    ensures Reachable(cfg, s) && AboutToAnswer(s, RequestTo(cfg, rpc), ret)
    ensures s.frames[0].payload == payload && DecodeRequest(payload) == Some(RequestTo(cfg, rpc))
  {
    hide Reachable; hide RequestTo; hide CallerWaits; hide NobodyYet; hide EncodesRequest; hide DecodeRequest;
    hide RpcId; hide WantsNoReply;
    payload := SmallRequest(cfg, rpc);
    OwnHeaders(cfg, rpc);
    var s0 := OneIdleWorker(cfg);
    var s1 := CallOnce(cfg, rpc, s0, payload);
    var s2 := TakeOnce(cfg, s1, payload);
    s := RunOnce(cfg, s2, RequestTo(cfg, rpc), ret);
  }

  // ----- an answer that is due but not sent

  lemma DropAnswer(cfg: Config, s: State, msg: Request, ret: bytes) returns (s': State)
    requires Reachable(cfg, s) && AboutToAnswer(s, msg, ret) && !FitsFrame(Respond(msg, 0, ret))
    ensures Reachable(cfg, s') && s'.frames == s.frames && s'.replies == []
    ensures |s'.frames| == |s'.stages| == 1 && s'.stages[0] == Done(Succeeded(0, ret))
  {
    hide Reachable; hide FitsFrame; hide Respond;
    var s1 := s.(workers := s.workers[0 := Leaving(0, msg, Succeeded(0, ret))]);
    assert ServerStep(cfg, s, s1, AAnswerPanics(0));
    ReachStep(cfg, s, s1, AAnswerPanics(0));
    s' := Drop(s1, 0, 0, Succeeded(0, ret)).(reqs := s1.reqs - 1);
    assert ServerStep(cfg, s1, s', ADecReq(0));
    ReachStep(cfg, s1, s', ADecReq(0));
  }

  lemma TooLarge(msg: Request, ret: bytes)
    requires |ret| >= SIZE_LIMIT
    ensures !FitsFrame(Respond(msg, 0, ret))
  {
    hide SizeOf; hide MapSize; hide ScalarSize;
    ResponseSize(Respond(msg, 0, ret));
  }

  /**
   * For every method that is served and every result of 2^27 bytes or more: a run in which item.Call
   * returns it and the caller, who wants the reply, never gets one.
   */
  lemma ReplyNeverSent(cfg: Config, rpc: bytes, ret: bytes) returns (s: State)
    requires Serves(cfg, rpc) && |ret| >= SIZE_LIMIT
    ensures Reachable(cfg, s) && |s.frames| == |s.stages| == 1 && s.stages[0] == Done(Succeeded(0, ret))
    ensures DecodeRequest(s.frames[0].payload) == Some(RequestTo(cfg, rpc))
    ensures ReplyDue(RequestTo(cfg, rpc), Succeeded(0, ret)).Some? && !Answered(s, 0)
  {
    hide Reachable; hide RequestTo; hide AboutToAnswer; hide DecodeRequest; hide FitsFrame; hide RpcId;
    var payload;
    s, payload := ServeOnce(cfg, rpc, ret);
    OwnHeaders(cfg, rpc);
    TooLarge(RequestTo(cfg, rpc), ret);
    s := DropAnswer(cfg, s, RequestTo(cfg, rpc), ret);
  }

  // ----- a call that succeeds

  lemma AnswerOnce(cfg: Config, s: State, msg: Request, ret: bytes, reply: bytes) returns (s': State)
    requires Reachable(cfg, s) && AboutToAnswer(s, msg, ret)
    requires EncodesResponse(Respond(msg, 0, ret), reply) && FitsFrame(Respond(msg, 0, ret))
    requires DecodeResponse(reply) == Some(Respond(msg, 0, ret)) && 1 <= |reply| <= MAX_MESSAGE_SIZE
    requires msg.sid == 1 && ONLY_CALL_HEADER !in msg.headers
    ensures Reachable(cfg, s') && ReplyWaits(s', KEY, CONN, 0, Respond(msg, 0, ret))
  {
    SuccessParts(msg, ret);
    hide Reachable; hide FitsFrame; hide Respond; hide EncodesResponse; hide DecodeResponse;
    s' := Replied(s, 0, reply).(workers := s.workers[0 := Leaving(0, msg, Succeeded(0, ret))]);
    assert ServerStep(cfg, s, s', AAnswer(0, reply));
    ReachStep(cfg, s, s', AAnswer(0, reply));
  }

  lemma SuccessParts(msg: Request, ret: bytes)
    ensures var resp := Respond(msg, 0, ret);
            resp.sid == msg.sid && resp.headers == msg.headers && resp.code == 0 && resp.packet == ret
  {
  }

  /** For every method that is served and every result that fits a message: a call that returns it. */
  lemma CallSucceeds(cfg: Config, rpc: bytes, ret: bytes) returns (s: State)
    requires Serves(cfg, rpc) && |ret| + 1100 <= 0x10_0000
    ensures Reachable(cfg, s) && At(s, KEY, Returned(Reply(ret)))
  {
    hide Reachable; hide RequestTo; hide AboutToAnswer; hide DecodeRequest; hide DecodeResponse; hide FitsFrame;
    hide EncodesResponse; hide Leads; hide ReplyWaits; hide Respond; hide RpcId; hide WantsNoReply;
    var msg, payload := RequestTo(cfg, rpc), [];
    OwnHeaders(cfg, rpc);
    var reply := SmallReply(cfg, rpc, 0, ret);
    s, payload := ServeOnce(cfg, rpc, ret);
    s := AnswerOnce(cfg, s, msg, ret, reply);
    SuccessParts(msg, ret);
    var s1 := ReplyCanReturn(cfg, s, KEY, CONN, 0, Respond(msg, 0, ret));
    ReachableOn(cfg, s, s1);
    s := s1;
  }
}
