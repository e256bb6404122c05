/** The deadlock of the client happens: a run into it, for every server that accepts a connection. */
module RpcDeadlock {
  import opened Bytes
  import opened Packets
  import opened FrameHeaders
  import opened Rpc
  import opened RpcTheorems
  import opened RpcAdmission
  import opened RpcRuns

  // ----- a server that refuses

  predicate Refuses(cfg: Config, s: State) {
    NobodyYet(s) && cfg.capacity - 10 < |s.reqCh|
  }

  /** Another peer fills the channel up to the limit of the admission check, and leaves. */
  lemma NearlyFull(cfg: Config) returns (s: State)
    requires cfg.maxConns >= 1
    ensures Reachable(cfg, s) && Refuses(cfg, s)
  {
    hide Reachable; hide Waits;
    s := ReachInit(cfg);
    if cfg.capacity < 10 {
      EmptyRefuses(cfg, s);
    } else {
      s := OpenOne(cfg, s, 0);
      for q := 0 to cfg.capacity - 9
        invariant Reachable(cfg, s) && Waits(s, 1, 0, 0, q)
      {
        s := PassOne(cfg, s, 1, 0, 0, q);
        s := PushOne(cfg, s, 1, 0, 1, q);
        NonePassed(s, 1, q + 1);
      }
      s := CloseLast(cfg, s, cfg.capacity - 9);
    }
  }

  lemma EmptyRefuses(cfg: Config, s: State)
    requires Waits(s, 0, 0, 0, 0) && cfg.capacity < 10
    ensures Refuses(cfg, s)
  {
    assert s.recv == map[];
  }

  lemma CloseLast(cfg: Config, s: State, q: nat) returns (s': State)
    requires Reachable(cfg, s) && Waits(s, 1, 0, 0, q) && cfg.capacity - 10 < q
    ensures Reachable(cfg, s') && Refuses(cfg, s')
  {
    hide Reachable;
    var c := Outside(0);
    s' := s.(recv := s.recv - {c}, conns := s.conns - 1);
    assert HandlerStep(cfg, s, s', AClose(c));
    ReachHandlerStep(cfg, s, s', AClose(c));
    assert s'.recv == map[] by {
      assert s.recv.Keys == {c} by { OneKey(s.recv.Keys, c); }
      assert (s.recv - {c}).Keys == s.recv.Keys - {c};
    }
  }

  lemma OneKey(keys: set<Conn>, c: Conn)
    requires |keys| == 1 && c in keys
    ensures keys == {c}
  {
    assert |keys - {c}| == 0;
  }

  // ----- the refusal

  lemma RefuseOnce(cfg: Config, s: State, f: nat, msg: Request, payload: bytes, reply: bytes) returns (s': State)
    requires Reachable(cfg, s) && CallerWaits(s) && FrameWaits(s, f, payload) && cfg.capacity - 10 < |s.reqCh|
    requires 1 <= |payload| <= MAX_MESSAGE_SIZE
    requires DecodeRequest(payload) == Some(msg) && EncodesResponse(Respond(msg, 500, []), reply)
    requires FitsFrame(Respond(msg, 500, [])) && DecodeResponse(reply) == Some(Respond(msg, 500, []))
    requires 1 <= |reply| <= MAX_MESSAGE_SIZE && msg.sid == 1 && ONLY_CALL_HEADER !in msg.headers
    ensures Reachable(cfg, s') && ReplyWaits(s', KEY, CONN, 0, Respond(msg, 500, []))
  {
    RespondParts(msg);
    hide Reachable; hide EncodesResponse; hide DecodeRequest; hide DecodeResponse; hide FitsFrame; hide Respond;
    var s1 := s.(recv := s.recv[CONN := Refusing(f)], stages := s.stages[f := AtRecv]);
    assert ServerStep(cfg, s, s1, AReceive(f));
    ReachStep(cfg, s, s1, AReceive(f));
    s' := Replied(s1.(recv := s1.recv[CONN := Reading]), f, reply).(stages := s1.stages[f := Done(Fate.Refused)]);
    assert Refuse(s1, s', CONN, reply);
    assert ServerStep(cfg, s1, s', ARefuse(CONN, reply));
    ReachStep(cfg, s1, s', ARefuse(CONN, reply));
  }

  lemma RespondParts(msg: Request)
    ensures var resp := Respond(msg, 500, []); resp.sid == msg.sid && resp.headers == msg.headers
  {
  }

  lemma TimeOutOnce(cfg: Config, s: State, resp: Response) returns (s': State)
    requires Reachable(cfg, s) && HandlerSends(s, KEY, CONN, 0, resp)
    ensures Reachable(cfg, s') && Stuck(s', CONN, Sending(0, resp))
  {
    hide Reachable;
    s' := SetPc(s, KEY, TimedOut);
    assert CallerStep(cfg, s, s', APickTimeout(KEY));
    ReachCallerStep(cfg, s, s', APickTimeout(KEY));
  }

  /** Wherever a connection can be opened at all, some run ends with a handler blocked for good. */
  lemma DeadlockHappens(cfg: Config, rpc: bytes) returns (s: State, h: HandlerPc)
    requires cfg.maxConns >= 1
    ensures Reachable(cfg, s) && Stuck(s, CONN, h)
  {
    hide Reachable; hide RequestTo; hide Leads; hide Stuck; hide NobodyYet; hide CallerWaits; hide FrameWaits;
    hide ReplyWaits; hide EncodesRequest; hide EncodesResponse; hide DecodeRequest; hide DecodeResponse; hide FitsFrame;
    hide HandlerSends; hide WantsNoReply;
    var payload := SmallRequest(cfg, rpc);
    var reply := SmallReply(cfg, rpc, 500, []);
    var msg := RequestTo(cfg, rpc);
    s := NearlyFull(cfg);
    var f := |s.frames|;
    s := CallOnce(cfg, rpc, s, payload);
    OwnHeaders(cfg, rpc);
    s := RefuseOnce(cfg, s, f, msg, payload, reply);
    var s1 := HandleOnce(cfg, s, KEY, CONN, 0, Respond(msg, 500, []));
    ReachableOn(cfg, s, s1);
    s := TimeOutOnce(cfg, s1, Respond(msg, 500, []));
    h := Sending(0, Respond(msg, 500, []));
  }
}
