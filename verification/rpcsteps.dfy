/** Every action of the call protocol keeps the invariant. */
module RpcSteps {
  import opened Bytes
  import opened Packets
  import opened Rpc
  import opened RpcInvariants
  import opened RpcParts

  // ----- callers

  lemma NewSid(cfg: Config, s: State, k: Key)
    requires Inv(cfg, s) && k.sid == Counter(s.counters, k.pool.process) + 1
    ensures k !in s.calls && k !in s.callItem && k.sid >= 1
  {
    hide CallOk; hide DecodeRequest; hide DecodeResponse;
    hide LedgerInv; hide WorkersInv; hide HandlersInv; hide GotInv;
  }

  lemma CounterUp(cfg: Config, counters: map<nat, int>, calls: map<Key, Call>, frames: seq<Frame>, k: Key)
    requires CallsInv(cfg, counters, calls, frames) && k.sid == Counter(counters, k.pool.process) + 1
    ensures CallsInv(cfg, counters[k.pool.process := k.sid], calls, frames)
  {
    hide CallOk;
  }

  lemma NewCallKeeps(cfg: Config, s: State, s': State, k: Key, c: Call)
    requires Inv(cfg, s) && NewCall(s, s', k, c)
    ensures Inv(cfg, s')
  {
    hide CallsInv; hide ItemInv; hide FramesInv; hide RecvInv; hide QueueInv; hide WorkersInv;
    hide LedgerInv; hide HandlersInv; hide GotInv; hide CountInv; hide ReqsInv; hide DecodeRequest;
    hide DecodeResponse; hide EncodesRequest; hide EncodesResponse;
    NewSid(cfg, s, k);
    CounterUp(cfg, s.counters, s.calls, s.frames, k);
    CallsSet(cfg, s'.counters, s.calls, s.frames, k, c);
    ItemSet(s.calls, s.callItem, s.callItem, k, c);
    FramesSet(s.calls, s.frames, k, c);
    HandlersSetCall(s.handlers, s.calls, s.callItem, s.callItem, s.replies, s.deliveries, k, c);
    GotSet(s.calls, s.callItem, s.callItem, s.replies, s.deliveries, k, c);
  }

  lemma RegisterKeeps(cfg: Config, s: State, s': State, k: Key)
    requires Inv(cfg, s) && Register(s, s', k)
    ensures Inv(cfg, s')
  {
    hide CallsInv; hide ItemInv; hide FramesInv; hide RecvInv; hide QueueInv; hide WorkersInv;
    hide LedgerInv; hide HandlersInv; hide GotInv; hide CountInv; hide ReqsInv; hide DecodeRequest;
    hide DecodeResponse; hide EncodesRequest; hide EncodesResponse;
    CallAt(cfg, s, k);
    CallerMoves(cfg, s, k, s.calls[k].(pc := Registered), s.callItem[k := Entry(0, [])]);
  }

  lemma RequestIsValid(cfg: Config, k: Key, c: Call)
    requires IsInt64(k.sid)
    ensures ValidRequest(RequestFor(cfg, k, c))
  {
  }

  lemma CallsNewFrame(cfg: Config, counters: map<nat, int>, calls: map<Key, Call>, frames: seq<Frame>, x: Frame)
    requires CallsInv(cfg, counters, calls, frames)
    ensures CallsInv(cfg, counters, calls, frames + [x])
  {
    hide DecodeRequest; hide RequestFor;
    forall k | k in calls ensures CallOk(cfg, k, calls[k], frames + [x]) {
      assert CallOk(cfg, k, calls[k], frames);
    }
  }

  lemma FramesNewFrame(calls: map<Key, Call>, frames: seq<Frame>, k: Key, payload: bytes)
    requires FramesInv(calls, frames) && k in calls && calls[k].frame == None && |payload| < 0x800_0000
    ensures FramesInv(calls[k := calls[k].(pc := Sent, frame := Some(|frames|))],
                      frames + [Frame(calls[k].conn, payload, Some(k))])
  {
  }

  lemma WriteKeeps(cfg: Config, s: State, s': State, k: Key, payload: bytes)
    requires Inv(cfg, s) && Write(cfg, s, s', k, payload)
    ensures Inv(cfg, s')
  {
    hide CallsInv; hide ItemInv; hide FramesInv; hide RecvInv; hide QueueInv; hide WorkersInv;
    hide LedgerInv; hide HandlersInv; hide GotInv; hide CountInv; hide ReqsInv; hide DecodeRequest;
    hide DecodeResponse; hide EncodesRequest; hide EncodesResponse;
    var c := s'.calls[k];
    var x := Frame(c.conn, payload, Some(k));
    CallAt(cfg, s, k);
    RequestIsValid(cfg, k, s.calls[k]);
    RequestRoundTrip(RequestFor(cfg, k, s.calls[k]), payload);
    CallsNewFrame(cfg, s.counters, s.calls, s.frames, x);
    CallsSet(cfg, s.counters, s.calls, s'.frames, k, c);
    ItemSet(s.calls, s.callItem, s.callItem, k, c);
    FramesNewFrame(s.calls, s.frames, k, payload);
    ServerNewFrame(cfg, s, x);
    HandlersSetCall(s.handlers, s.calls, s.callItem, s.callItem, s.replies, s.deliveries, k, c);
    GotSet(s.calls, s.callItem, s.callItem, s.replies, s.deliveries, k, c);
  }

  lemma WriteFailsKeeps(cfg: Config, s: State, s': State, k: Key)
    requires Inv(cfg, s) && WriteFails(s, s', k)
    ensures Inv(cfg, s')
  {
    hide CallsInv; hide ItemInv; hide FramesInv; hide RecvInv; hide QueueInv; hide WorkersInv;
    hide LedgerInv; hide HandlersInv; hide GotInv; hide CountInv; hide ReqsInv; hide DecodeRequest;
    hide DecodeResponse; hide EncodesRequest; hide EncodesResponse;
    CallAt(cfg, s, k);
    CallerMoves(cfg, s, k, s.calls[k].(pc := Returning(WriteFailed)), s.callItem);
  }

  lemma ReachSelectKeeps(cfg: Config, s: State, s': State, k: Key)
    requires Inv(cfg, s) && ReachSelect(s, s', k)
    ensures Inv(cfg, s')
  {
    hide CallsInv; hide ItemInv; hide FramesInv; hide RecvInv; hide QueueInv; hide WorkersInv;
    hide LedgerInv; hide HandlersInv; hide GotInv; hide CountInv; hide ReqsInv; hide DecodeRequest;
    hide DecodeResponse; hide EncodesRequest; hide EncodesResponse;
    CallAt(cfg, s, k);
    CallerMoves(cfg, s, k, s'.calls[k], s.callItem);
  }

  lemma PickTimeoutKeeps(cfg: Config, s: State, s': State, k: Key)
    requires Inv(cfg, s) && PickTimeout(s, s', k)
    ensures Inv(cfg, s')
  {
    hide CallsInv; hide ItemInv; hide FramesInv; hide RecvInv; hide QueueInv; hide WorkersInv;
    hide LedgerInv; hide HandlersInv; hide GotInv; hide CountInv; hide ReqsInv; hide DecodeRequest;
    hide DecodeResponse; hide EncodesRequest; hide EncodesResponse;
    CallAt(cfg, s, k);
    CallerMoves(cfg, s, k, s.calls[k].(pc := TimedOut), s.callItem);
  }

  /** A call at its select has not closed its channel. */
  lemma PickClosedNever(cfg: Config, s: State, s': State, k: Key)
    requires Inv(cfg, s)
    ensures !PickClosed(s, s', k)
  {
    hide Inv;
    if At(s, k, Selecting) { CallAt(cfg, s, k); }
  }

  lemma LockTimeoutKeeps(cfg: Config, s: State, s': State, k: Key)
    requires Inv(cfg, s) && LockTimeout(s, s', k)
    ensures Inv(cfg, s')
  {
    hide CallsInv; hide ItemInv; hide FramesInv; hide RecvInv; hide QueueInv; hide WorkersInv;
    hide LedgerInv; hide HandlersInv; hide GotInv; hide CountInv; hide ReqsInv; hide DecodeRequest;
    hide DecodeResponse; hide EncodesRequest; hide EncodesResponse;
    CallAt(cfg, s, k);
    CallerMoves(cfg, s, k, s'.calls[k], s.callItem - {k});
  }

  lemma LockReplyKeeps(cfg: Config, s: State, s': State, k: Key)
    requires Inv(cfg, s) && LockReply(s, s', k)
    ensures Inv(cfg, s')
  {
    hide CallsInv; hide ItemInv; hide FramesInv; hide RecvInv; hide QueueInv; hide WorkersInv;
    hide LedgerInv; hide HandlersInv; hide GotInv; hide CountInv; hide ReqsInv; hide DecodeRequest;
    hide DecodeResponse; hide EncodesRequest; hide EncodesResponse;
    CallAt(cfg, s, k);
    CallerMoves(cfg, s, k, s'.calls[k], s.callItem - {k});
  }

  lemma SoleHolder(s: State, c: Conn)
    requires HandlersInv(s.handlers, s.calls, s.callItem, s.replies, s.deliveries)
    requires c in s.handlers && HasReply(s.handlers[c])
    ensures forall d :: d in s.handlers && d != c && HasReply(s.handlers[d]) ==> s.handlers[d].i != s.handlers[c].i
  {
    hide DecodeResponse;
    assert HandlerOk(c, s.handlers[c], s.calls, s.callItem, s.replies, s.deliveries);
  }

  lemma HandlerAt(s: State, c: Conn)
    requires HandlersInv(s.handlers, s.calls, s.callItem, s.replies, s.deliveries) && c in s.handlers
    ensures HandlerOk(c, s.handlers[c], s.calls, s.callItem, s.replies, s.deliveries)
  {
    hide HandlerOk;
  }

  lemma RendezvousKeeps(cfg: Config, s: State, s': State, k: Key, c: Conn)
    requires Inv(cfg, s) && Rendezvous(s, s', k, c)
    ensures Inv(cfg, s')
  {
    hide CallsInv; hide ItemInv; hide FramesInv; hide RecvInv; hide QueueInv; hide WorkersInv;
    hide LedgerInv; hide HandlersInv; hide GotInv; hide CountInv; hide ReqsInv; hide DecodeRequest;
    hide DecodeResponse; hide EncodesRequest; hide EncodesResponse;
    var call, i := s'.calls[k], s.handlers[c].i;
    CallAt(cfg, s, k);
    TargetOwner(cfg, s, c);
    HandlerAt(s, c);
    SoleHolder(s, c);
    CallsSet(cfg, s.counters, s.calls, s.frames, k, call);
    ItemSet(s.calls, s.callItem, s.callItem, k, call);
    FramesSet(s.calls, s.frames, k, call);
    HandlerSet(s.handlers, s.calls, s.callItem, s.replies, s.deliveries, c, Unlocking);
    HandlersDelivery(s'.handlers, s.calls, s.callItem, s.replies, s.deliveries, i, Spent);
    HandlersSetCall(s'.handlers, s.calls, s.callItem, s.callItem, s.replies, s'.deliveries, k, call);
    GotDelivery(s.calls, s.callItem, s.replies, s.deliveries, i, Spent);
    GotSet(s.calls, s.callItem, s.callItem, s.replies, s'.deliveries, k, call);
  }

  /** Nobody sends to a call that returns without having waited. */
  lemma NoSender(cfg: Config, s: State, k: Key, c: Conn)
    requires Inv(cfg, s) && k in s.calls && s.calls[k].pc.Returning? && s.calls[k].closes == 0
    ensures !SendingTo(s, c, k)
  {
    hide CallsInv; hide ItemInv; hide FramesInv; hide RecvInv; hide QueueInv; hide WorkersInv;
    hide LedgerInv; hide HandlersInv; hide GotInv; hide CountInv; hide ReqsInv; hide DecodeRequest;
    hide DecodeResponse; hide EncodesRequest; hide EncodesResponse;
    CallAt(cfg, s, k);
    if SendingTo(s, c, k) {
      ChannelOpen(cfg, s, c);
    }
  }

  lemma DeferredKeeps(cfg: Config, s: State, s': State, k: Key, sender: Option<Conn>)
    requires Inv(cfg, s) && Deferred(s, s', k, sender)
    ensures Inv(cfg, s')
  {
    hide Inv; hide CallOk; hide GotOk; hide Listed; hide OnlyAt; hide SameIdentity; hide SendingTo;
    var c := s.calls[k];
    CallAt(cfg, s, k);
    if c.closes == 0 && sender.Some? { NoSender(cfg, s, k, sender.value); }
    var done := c.(pc := Returned(c.pc.result), closes := 1);
    ReturnedOk(cfg, k, c, s.frames, s.callItem, s.replies, s.deliveries);
    NothingSet(k, s.callItem);
    assert s' == s.(calls := s.calls[k := done], callItem := s.callItem);
    CallerMoves(cfg, s, k, done, s.callItem);
  }

  lemma ReturnedOk(cfg: Config, k: Key, c: Call, frames: seq<Frame>, item: map<Key, Entry>,
                   replies: seq<ReplyFrame>, deliveries: seq<Delivery>)
    requires c.pc.Returning? && CallOk(cfg, k, c, frames) && GotOk(k, c, item, replies, deliveries)
    ensures var done := c.(pc := Returned(c.pc.result), closes := 1);
            && CallOk(cfg, k, done, frames) && GotOk(k, done, item, replies, deliveries)
            && SameIdentity(c, done) && (Listed(done) <==> Listed(c)) && c.closes <= 1
  {
    hide DecodeRequest; hide DecodeResponse;
    assert RequestFor(cfg, k, c.(pc := Returned(c.pc.result), closes := 1)) == RequestFor(cfg, k, c);
  }

  lemma NothingSet(k: Key, item: map<Key, Entry>)
    ensures OnlyAt(k, item, item)
  {
  }

  // ----- reply handlers

  lemma NobodyHolds(s: State, i: nat)
    requires HandlersInv(s.handlers, s.calls, s.callItem, s.replies, s.deliveries)
    requires i < |s.deliveries| && s.deliveries[i] != AtHandler
    ensures forall d :: d in s.handlers && HasReply(s.handlers[d]) ==> s.handlers[d].i != i
  {
    hide DecodeResponse;
  }

  lemma DeliverDecoded(cfg: Config, s: State, c: Conn, i: nat, resp: Response)
    requires Inv(cfg, s) && c in s.handlers && c.Dialled? && s.handlers[c] == Waiting
    requires i < |s.replies| == |s.deliveries| && s.replies[i].conn == c && s.deliveries[i] == InFlight
    requires DecodeResponse(s.replies[i].payload) == Some(resp)
    requires ONLY_CALL_HEADER !in resp.headers && resp.sid != 0
    ensures Inv(cfg, s.(handlers := s.handlers[c := Decoded(i, resp)], deliveries := s.deliveries[i := AtHandler]))
  {
    hide CallsInv; hide ItemInv; hide FramesInv; hide RecvInv; hide QueueInv; hide WorkersInv;
    hide LedgerInv; hide HandlersInv; hide GotInv; hide CountInv; hide ReqsInv; hide DecodeRequest;
    hide DecodeResponse; hide EncodesRequest; hide EncodesResponse;
    NobodyHolds(s, i);
    GotDelivery(s.calls, s.callItem, s.replies, s.deliveries, i, AtHandler);
    HandlersDelivery(s.handlers, s.calls, s.callItem, s.replies, s.deliveries, i, AtHandler);
    HandlerSet(s.handlers, s.calls, s.callItem, s.replies, s.deliveries[i := AtHandler], c, Decoded(i, resp));
  }

  lemma LoseReplyKeeps(cfg: Config, s: State, s': State, i: nat)
    requires Inv(cfg, s) && LoseReply(s, s', i)
    ensures Inv(cfg, s')
  {
    hide CallsInv; hide ItemInv; hide FramesInv; hide RecvInv; hide QueueInv; hide WorkersInv;
    hide LedgerInv; hide HandlersInv; hide GotInv; hide CountInv; hide ReqsInv; hide DecodeRequest;
    hide DecodeResponse; hide EncodesRequest; hide EncodesResponse;
    NobodyHolds(s, i);
    GotDelivery(s.calls, s.callItem, s.replies, s.deliveries, i, Spent);
    HandlersDelivery(s.handlers, s.calls, s.callItem, s.replies, s.deliveries, i, Spent);
  }

  lemma DeliverKeeps(cfg: Config, s: State, s': State, c: Conn, i: nat)
    requires Inv(cfg, s) && Deliver(s, s', c, i)
    ensures Inv(cfg, s')
  {
    hide Inv; hide DecodeResponse;
    if s'.handlers == s.handlers {
      LoseReplyKeeps(cfg, s, s', i);
    } else {
      DeliverDecoded(cfg, s, c, i, DecodeResponse(s.replies[i].payload).value);
    }
  }

  lemma ReadLockKeeps(cfg: Config, s: State, s': State, c: Conn)
    requires Inv(cfg, s) && ReadLock(s, s', c)
    ensures Inv(cfg, s')
  {
    hide CallsInv; hide ItemInv; hide FramesInv; hide RecvInv; hide QueueInv; hide WorkersInv;
    hide LedgerInv; hide HandlersInv; hide GotInv; hide CountInv; hide ReqsInv; hide DecodeRequest;
    hide DecodeResponse; hide EncodesRequest; hide EncodesResponse;
    HandlerAt(s, c);
    HandlerSet(s.handlers, s.calls, s.callItem, s.replies, s.deliveries, c, s'.handlers[c]);
  }

  /** Storing packet and code under the read lock: the entry found belongs to this handler's reply alone. */
  lemma StoreKeeps(cfg: Config, s: State, c: Conn)
    requires Inv(cfg, s) && Holds(s, c) && s.handlers[c].Locked? && Target(c, s.handlers[c].resp) in s.callItem
    ensures var h := s.handlers[c];
            var item := s.callItem[Target(c, h.resp) := Entry(h.resp.code, h.resp.packet)];
            && HandlersInv(s.handlers[c := Stored(h.i, h.resp)], s.calls, item, s.replies, s.deliveries)
            && ItemInv(s.calls, item) && GotInv(s.calls, item, s.replies, s.deliveries)
  {
    hide CallsInv; hide ItemInv; hide FramesInv; hide RecvInv; hide QueueInv; hide WorkersInv;
    hide LedgerInv; hide HandlersInv; hide GotInv; hide CountInv; hide ReqsInv; hide DecodeRequest;
    hide DecodeResponse; hide EncodesRequest; hide EncodesResponse;
    var h, k := s.handlers[c], Target(c, s.handlers[c].resp);
    var dropped, item := s.handlers[c := Unlocking], s.callItem[k := Entry(h.resp.code, h.resp.packet)];
    HandlerAt(s, c);
    NothingGot(cfg, s, c);
    CallAt(cfg, s, k);
    HandlerSet(s.handlers, s.calls, s.callItem, s.replies, s.deliveries, c, Unlocking);
    forall x | x in dropped && x.Dialled? && (dropped[x].Stored? || dropped[x].Sending?)
      ensures Target(x, dropped[x].resp) != k
    {
      if Target(x, dropped[x].resp) == k { OneHandler(cfg, s, c, x); }
    }
    assert s.calls[k := s.calls[k]] == s.calls;
    ItemSet(s.calls, s.callItem, item, k, s.calls[k]);
    GotSet(s.calls, s.callItem, item, s.replies, s.deliveries, k, s.calls[k]);
    HandlersSetCall(dropped, s.calls, s.callItem, item, s.replies, s.deliveries, k, s.calls[k]);
    HandlerSet(dropped, s.calls, item, s.replies, s.deliveries, c, Stored(h.i, h.resp));
    assert dropped[c := Stored(h.i, h.resp)] == s.handlers[c := Stored(h.i, h.resp)];
  }

  lemma LookupKeeps(cfg: Config, s: State, s': State, c: Conn)
    requires Inv(cfg, s) && Lookup(s, s', c)
    ensures Inv(cfg, s')
  {
    hide CallsInv; hide ItemInv; hide FramesInv; hide RecvInv; hide QueueInv; hide WorkersInv;
    hide LedgerInv; hide HandlersInv; hide GotInv; hide CountInv; hide ReqsInv; hide DecodeRequest;
    hide DecodeResponse; hide EncodesRequest; hide EncodesResponse;
    if Target(c, s.handlers[c].resp) in s.callItem {
      StoreKeeps(cfg, s, c);
    } else {
      LookupMissing(cfg, s, c);
    }
  }

  lemma LookupMissing(cfg: Config, s: State, c: Conn)
    requires Inv(cfg, s) && c in s.handlers
    ensures Inv(cfg, s.(handlers := s.handlers[c := Unlocking]))
  {
    hide CallsInv; hide ItemInv; hide FramesInv; hide RecvInv; hide QueueInv; hide WorkersInv;
    hide LedgerInv; hide HandlersInv; hide GotInv; hide CountInv; hide ReqsInv;
    HandlerAt(s, c);
    HandlerSet(s.handlers, s.calls, s.callItem, s.replies, s.deliveries, c, Unlocking);
  }

  /** A handler that has found the entry finds the channel open and no other sender on it. */
  lemma ChannelOpen(cfg: Config, s: State, c: Conn)
    requires Inv(cfg, s) && c in s.handlers && (s.handlers[c].Stored? || s.handlers[c].Sending?)
    ensures c.Dialled?
    ensures var k := Target(c, s.handlers[c].resp);
            && k in s.callItem && k in s.calls && s.calls[k].closes == 0 && !s.calls[k].onlyCall
            && s.calls[k].got == None && HasFrame(s.calls[k].pc)
            && forall d :: d != c ==> !SendingTo(s, d, k)
  {
    hide CallsInv; hide ItemInv; hide FramesInv; hide RecvInv; hide QueueInv; hide WorkersInv;
    hide LedgerInv; hide HandlersInv; hide GotInv; hide DecodeRequest; hide DecodeResponse;
    HandlerAt(s, c);
    TargetOwner(cfg, s, c);
    NothingGot(cfg, s, c);
    var k := Target(c, s.handlers[c].resp);
    CallAt(cfg, s, k);
    forall d | d != c ensures !SendingTo(s, d, k) {
      if SendingTo(s, d, k) { OneHandler(cfg, s, c, d); }
    }
  }

  lemma TestChannelKeeps(cfg: Config, s: State, s': State, c: Conn, sender: Option<Conn>)
    requires Inv(cfg, s) && TestChannel(s, s', c, sender)
    ensures Inv(cfg, s')
  {
    hide CallsInv; hide ItemInv; hide FramesInv; hide RecvInv; hide QueueInv; hide WorkersInv;
    hide LedgerInv; hide HandlersInv; hide GotInv; hide CountInv; hide ReqsInv; hide DecodeRequest;
    hide DecodeResponse; hide EncodesRequest; hide EncodesResponse;
    ChannelOpen(cfg, s, c);
    HandlerAt(s, c);
    var h := Sending(s.handlers[c].i, s.handlers[c].resp);
    HandlerSet(s.handlers, s.calls, s.callItem, s.replies, s.deliveries, c, h);
  }

  /** The channel a handler sends on is open. */
  lemma SendOnClosedNever(cfg: Config, s: State, s': State, c: Conn)
    requires Inv(cfg, s)
    ensures !SendOnClosed(s, s', c)
  {
    hide Inv;
    if Holds(s, c) && s.handlers[c].Sending? { ChannelOpen(cfg, s, c); }
  }

  lemma ReadUnlockKeeps(cfg: Config, s: State, s': State, c: Conn)
    requires Inv(cfg, s) && ReadUnlock(s, s', c)
    ensures Inv(cfg, s')
  {
    hide CallsInv; hide ItemInv; hide FramesInv; hide RecvInv; hide QueueInv; hide WorkersInv;
    hide LedgerInv; hide HandlersInv; hide GotInv; hide CountInv; hide ReqsInv; hide DecodeRequest;
    hide DecodeResponse; hide EncodesRequest; hide EncodesResponse;
    HandlerAt(s, c);
    HandlerSet(s.handlers, s.calls, s.callItem, s.replies, s.deliveries, c, Waiting);
  }

  // ----- connections and admission

  lemma PassedBound(recv: map<Conn, RecvPc>)
    ensures |PassedConns(recv)| <= |recv|
  {
    assert PassedConns(recv) <= recv.Keys;
    SubsetSize(PassedConns(recv), recv.Keys);
  }

  lemma {:induction false} SubsetSize<T>(a: set<T>, b: set<T>)
    requires a <= b
    ensures |a| <= |b|
    decreases a
  {
    if a != {} {
      var x :| x in a;
      SubsetSize(a - {x}, b - {x});
    }
  }

  lemma PassedSet(recv: map<Conn, RecvPc>, c: Conn, p: RecvPc)
    ensures PassedConns(recv[c := p]) == if p.Passed? then PassedConns(recv) + {c} else PassedConns(recv) - {c}
  {
  }

  lemma OneMoreConn(cfg: Config, recv: map<Conn, RecvPc>, conns: int, reqCh: seq<nat>, c: Conn)
    requires CountInv(cfg, recv, conns, reqCh) && c !in recv && |recv| < cfg.maxConns
    ensures CountInv(cfg, recv[c := Reading], conns + 1, reqCh)
  {
    hide PassedConns;
    PassedSet(recv, c, Reading);
    NotPassed(recv, c);
    KeysSet(recv, c, Reading);
  }

  lemma KeysSet(recv: map<Conn, RecvPc>, c: Conn, p: RecvPc)
    ensures |recv[c := p]| == |recv| + if c in recv then 0 else 1
  {
    assert recv[c := p].Keys == recv.Keys + {c};
  }

  lemma HandlerOpens(s: State, c: Conn)
    requires HandlersInv(s.handlers, s.calls, s.callItem, s.replies, s.deliveries)
    ensures HandlersInv(if c.Dialled? then s.handlers[c := Waiting] else s.handlers,
                        s.calls, s.callItem, s.replies, s.deliveries)
  {
    hide HandlersInv;
    if c.Dialled? {
      HandlerSet(s.handlers, s.calls, s.callItem, s.replies, s.deliveries, c, Waiting);
    }
  }

  lemma OpenKeeps(cfg: Config, s: State, s': State, c: Conn)
    requires Inv(cfg, s) && Open(cfg, s, s', c)
    ensures Inv(cfg, s')
  {
    hide CallsInv; hide ItemInv; hide FramesInv; hide RecvInv; hide QueueInv; hide WorkersInv;
    hide LedgerInv; hide HandlersInv; hide GotInv; hide CountInv; hide ReqsInv; hide DecodeRequest;
    hide DecodeResponse; hide EncodesRequest; hide EncodesResponse;
    RecvSet(s.frames, s.stages, s.recv, c, Reading);
    OneMoreConn(cfg, s.recv, s.conns, s.reqCh, c);
    HandlerOpens(s, c);
  }

  lemma NotPassed(recv: map<Conn, RecvPc>, c: Conn)
    requires c in recv ==> !recv[c].Passed?
    ensures PassedConns(recv) - {c} == PassedConns(recv)
  {
  }

  lemma RecvRemove(frames: seq<Frame>, stages: seq<Stage>, recv: map<Conn, RecvPc>, c: Conn)
    requires RecvInv(frames, stages, recv)
    ensures RecvInv(frames, stages, recv - {c})
  {
  }

  lemma CloseKeeps(cfg: Config, s: State, s': State, c: Conn)
    requires Inv(cfg, s) && Close(s, s', c)
    ensures Inv(cfg, s')
  {
    hide CallsInv; hide ItemInv; hide FramesInv; hide RecvInv; hide QueueInv; hide WorkersInv;
    hide LedgerInv; hide HandlersInv; hide GotInv; hide ReqsInv; hide DecodeRequest; hide DecodeResponse;
    hide EncodesRequest; hide EncodesResponse;
    RecvRemove(s.frames, s.stages, s.recv, c);
    NotPassed(s.recv, c);
    assert PassedConns(s'.recv) == PassedConns(s.recv) - {c};
    assert s'.recv.Keys == s.recv.Keys - {c};
  }

  lemma ForeignFrameKeeps(cfg: Config, s: State, s': State, c: Conn, payload: bytes)
    requires Inv(cfg, s) && ForeignFrame(s, s', c, payload)
    ensures Inv(cfg, s')
  {
    hide CallsInv; hide ItemInv; hide FramesInv; hide RecvInv; hide QueueInv; hide WorkersInv;
    hide LedgerInv; hide HandlersInv; hide GotInv; hide CountInv; hide ReqsInv; hide DecodeRequest;
    hide DecodeResponse; hide EncodesRequest; hide EncodesResponse;
    var x := Frame(c, payload, None);
    CallsNewFrame(cfg, s.counters, s.calls, s.frames, x);
    FramesForeign(s.calls, s.frames, x);
    ServerNewFrame(cfg, s, x);
  }

  lemma FramesForeign(calls: map<Key, Call>, frames: seq<Frame>, x: Frame)
    requires FramesInv(calls, frames) && x.owner == None && x.conn.Outside? && |x.payload| < I63
    ensures FramesInv(calls, frames + [x])
  {
  }

  // ----- server

  lemma ReceiveKeeps(cfg: Config, s: State, s': State, f: nat)
    requires Inv(cfg, s) && Receive(cfg, s, s', f)
    ensures Inv(cfg, s')
  {
    hide CallsInv; hide ItemInv; hide FramesInv; hide RecvInv; hide QueueInv; hide WorkersInv;
    hide LedgerInv; hide HandlersInv; hide GotInv; hide ReqsInv; hide DecodeRequest; hide DecodeResponse;
    hide EncodesRequest; hide EncodesResponse; hide CountInv; hide Settled;
    var c := s.frames[f].conn;
    FreeFrame(cfg, s, f);
    RecvStage(s.frames, s.stages, s.recv, f, AtRecv);
    RecvSet(s.frames, s'.stages, s.recv, c, s'.recv[c]);
    QueueStage(s.stages, s.reqCh, f, AtRecv);
    WorkersStage(cfg, s.frames, s.stages, s.workers, s.execs, f, AtRecv);
    StageUnsettled(s, f, AtRecv);
    LedgerSame(cfg, s.frames, s.stages, s.workers, s'.stages, s.workers, s.execs, s.replies, s.replyOf);
    Admitted(cfg, s.recv, s.conns, s.reqCh, c, s'.recv[c]);
  }

  /** A connection gets past the check only while the channel has ten places left. */
  lemma Admitted(cfg: Config, recv: map<Conn, RecvPc>, conns: int, reqCh: seq<nat>, c: Conn, p: RecvPc)
    requires CountInv(cfg, recv, conns, reqCh) && c in recv && !recv[c].Passed?
    requires p.Passed? ==> |reqCh| <= cfg.capacity - 10
    ensures CountInv(cfg, recv[c := p], conns, reqCh)
  {
    hide PassedConns;
    PassedSet(recv, c, p);
    NotPassed(recv, c);
    PassedBound(recv[c := p]);
    KeysSet(recv, c, p);
  }

  /** A frame that moves among stages nobody can have settled it at stays unsettled. */
  lemma StageUnsettled(s: State, f: nat, x: Stage)
    requires f < |s.stages| && !x.Done? && !x.AtWorker?
    requires s.stages[f].OnWire? || s.stages[f].AtRecv?
    ensures forall y :: 0 <= y < |s.stages| ==>
              Settled(s.stages[f := x], s.workers, y) == Settled(s.stages, s.workers, y)
  {
  }

  /** The frame in the hands of a connection's onRecv is in nobody else's. */
  lemma RecvFrame(cfg: Config, s: State, c: Conn)
    requires Inv(cfg, s) && c in s.recv && !s.recv[c].Reading?
    ensures s.recv[c].f < |s.frames| == |s.stages| && s.stages[s.recv[c].f] == AtRecv
    ensures |s.frames[s.recv[c].f].payload| < I63
    ensures s.recv[c].f !in s.reqCh
    ensures forall d :: d in s.recv && d != c && !s.recv[d].Reading? ==> s.recv[d].f != s.recv[c].f
    ensures forall w :: w in s.workers && !s.workers[w].Idle? ==> s.workers[w].f != s.recv[c].f
  {
    hide WorkerOk; hide LedgerInv; hide CallsInv; hide HandlersInv; hide GotInv; hide ItemInv;
  }

  lemma PushKeeps(cfg: Config, s: State, s': State, c: Conn)
    requires Inv(cfg, s) && Push(cfg, s, s', c)
    ensures Inv(cfg, s')
  {
    hide CallsInv; hide ItemInv; hide FramesInv; hide RecvInv; hide QueueInv; hide WorkersInv;
    hide LedgerInv; hide HandlersInv; hide GotInv; hide ReqsInv; hide DecodeRequest; hide DecodeResponse;
    hide EncodesRequest; hide EncodesResponse;
    var f := s.recv[c].f;
    RecvFrame(cfg, s, c);
    RecvSet(s.frames, s.stages, s.recv, c, Reading);
    RecvStage(s.frames, s.stages, s'.recv, f, Queued);
    QueuePush(s.stages, s.reqCh, f);
    WorkersStage(cfg, s.frames, s.stages, s.workers, s.execs, f, Queued);
    LedgerSame(cfg, s.frames, s.stages, s.workers, s'.stages, s.workers, s.execs, s.replies, s.replyOf);
    PassedSet(s.recv, c, Reading);
    assert c in PassedConns(s.recv);
    assert s'.recv.Keys == s.recv.Keys;
  }

  lemma QueuePush(stages: seq<Stage>, reqCh: seq<nat>, f: nat)
    requires QueueInv(stages, reqCh) && f < |stages| && f !in reqCh
    ensures QueueInv(stages[f := Queued], reqCh + [f])
  {
  }

  lemma QueuePop(stages: seq<Stage>, reqCh: seq<nat>, x: Stage)
    requires QueueInv(stages, reqCh) && reqCh != []
    ensures QueueInv(stages[reqCh[0] := x], reqCh[1..])
  {
  }

  /** Marshalling an answer to a decoded request and decoding it again gives the answer back. */
  lemma ResponseArrives(request: bytes, msg: Request, code: int, packet: bytes, payload: bytes)
    requires |request| < I63 && DecodeRequest(request) == Some(msg) && IsInt32(code)
    requires EncodesResponse(Respond(msg, code, packet), payload)
    ensures DecodeResponse(payload) == Some(Respond(msg, code, packet))
  {
    hide DecodeResponse; hide EncodesResponse; hide DecodeRequest;
    DecodedRequestIsValid(request);
    ResponseRoundTrip(Respond(msg, code, packet), payload);
  }

  /** A connection's onRecv lets go of its frame, which ends at x. */
  lemma LetGo(cfg: Config, s: State, c: Conn, x: Stage)
    requires Inv(cfg, s) && c in s.recv && s.recv[c].Refusing?
    ensures var f := s.recv[c].f;
            && f < |s.stages|
            && RecvInv(s.frames, s.stages[f := x], s.recv[c := Reading])
            && QueueInv(s.stages[f := x], s.reqCh)
            && WorkersInv(cfg, s.frames, s.stages[f := x], s.workers, s.execs)
            && CountInv(cfg, s.recv[c := Reading], s.conns, s.reqCh)
  {
    hide CallsInv; hide ItemInv; hide FramesInv; hide RecvInv; hide QueueInv; hide WorkersInv;
    hide LedgerInv; hide HandlersInv; hide GotInv; hide ReqsInv; hide DecodeRequest; hide DecodeResponse;
    hide EncodesRequest; hide EncodesResponse;
    var f := s.recv[c].f;
    RecvFrame(cfg, s, c);
    RecvSet(s.frames, s.stages, s.recv, c, Reading);
    RecvStage(s.frames, s.stages, s.recv[c := Reading], f, x);
    QueueStage(s.stages, s.reqCh, f, x);
    WorkersStage(cfg, s.frames, s.stages, s.workers, s.execs, f, x);
    PassedSet(s.recv, c, Reading);
    NotPassed(s.recv, c);
    assert s.recv[c := Reading].Keys == s.recv.Keys;
  }

  /** Nothing is sent for the frame onRecv has in hand. */
  lemma LetGoSilently(cfg: Config, s: State, c: Conn, fate: Fate)
    requires Inv(cfg, s) && c in s.recv && s.recv[c].Refusing? && s.recv[c].f < |s.frames| == |s.stages|
    requires !Owed(s.frames[s.recv[c].f].payload, fate)
    requires FateSound(cfg, s.recv[c].f, s.frames[s.recv[c].f].payload, fate, s.execs)
    ensures Inv(cfg, s.(recv := s.recv[c := Reading], stages := s.stages[s.recv[c].f := Done(fate)]))
  {
    hide CallsInv; hide ItemInv; hide FramesInv; hide RecvInv; hide QueueInv; hide WorkersInv;
    hide LedgerInv; hide HandlersInv; hide GotInv; hide CountInv; hide ReqsInv; hide Owed; hide FateSound;
    var f := s.recv[c].f;
    RecvFrame(cfg, s, c);
    LetGo(cfg, s, c, Done(fate));
    LedgerSettle(cfg, s.frames, s.stages, s.workers, s.stages[f := Done(fate)], s.workers,
                 s.execs, s.replies, s.replyOf, f);
  }

  lemma RefusePanicsKeeps(cfg: Config, s: State, s': State, c: Conn)
    requires Inv(cfg, s) && RefusePanics(s, s', c)
    ensures Inv(cfg, s')
  {
    hide Inv; hide DecodeRequest; hide FitsFrame; hide Respond; hide RpcId;
    var s1 := s.(recv := s.recv[c := Reading], stages := s.stages[s.recv[c].f := Done(Fate.Refused)]);
    LetGoSilently(cfg, s, c, Fate.Refused);
    assert s1.recv - {c} == s.recv - {c};
    CloseKeeps(cfg, s1, s', c);
  }

  lemma RefuseReplied(cfg: Config, s: State, c: Conn, msg: Request, payload: bytes)
    requires Inv(cfg, s) && c in s.recv && s.recv[c].Refusing? && s.recv[c].f < |s.frames| == |s.stages|
    requires DecodeRequest(s.frames[s.recv[c].f].payload) == Some(msg)
    requires EncodesResponse(Respond(msg, 500, []), payload) && FitsFrame(Respond(msg, 500, []))
    ensures Inv(cfg, Replied(s.(recv := s.recv[c := Reading]), s.recv[c].f, payload)
                     .(stages := s.stages[s.recv[c].f := Done(Fate.Refused)]))
  {
    hide CallsInv; hide ItemInv; hide FramesInv; hide RecvInv; hide QueueInv; hide WorkersInv;
    hide LedgerInv; hide HandlersInv; hide GotInv; hide CountInv; hide ReqsInv; hide DecodeRequest;
    hide DecodeResponse; hide EncodesRequest; hide EncodesResponse;
    var f := s.recv[c].f;
    var r := ReplyFrame(f, s.frames[f].conn, payload);
    RecvFrame(cfg, s, c);
    LetGo(cfg, s, c, Done(Fate.Refused));
    ResponseArrives(s.frames[f].payload, msg, 500, [], payload);
    LedgerAnswer(cfg, s.frames, s.stages, s.workers, s.stages[f := Done(Fate.Refused)], s.workers,
                 s.execs, s.replies, s.replyOf, r);
    SameLength(s);
    HandlersReply(s.handlers, s.calls, s.callItem, s.replies, s.deliveries, r);
    GotReply(s.calls, s.callItem, s.replies, s.deliveries, r);
  }

  lemma RefuseKeeps(cfg: Config, s: State, s': State, c: Conn, payload: bytes)
    requires Inv(cfg, s) && Refuse(s, s', c, payload)
    ensures Inv(cfg, s')
  {
    hide Inv; hide DecodeRequest; hide EncodesResponse;
    match DecodeRequest(s.frames[s.recv[c].f].payload)
    case None => LetGoSilently(cfg, s, c, Undecodable);
    case Some(msg) => RefuseReplied(cfg, s, c, msg, payload);
  }

  lemma SameLength(s: State)
    requires HandlersInv(s.handlers, s.calls, s.callItem, s.replies, s.deliveries)
    ensures |s.replies| == |s.deliveries|
  {
  }

  lemma BusySet(workers: map<nat, WorkerPc>, w: nat, p: WorkerPc)
    requires w in workers
    ensures |BusyWorkers(workers[w := p])|
            == |BusyWorkers(workers)| + (if InProgress(p) then 1 else 0) - (if InProgress(workers[w]) then 1 else 0)
  {
    var old', new' := BusyWorkers(workers), BusyWorkers(workers[w := p]);
    assert new' == if InProgress(p) then old' + {w} else old' - {w};
    assert w in old' <==> InProgress(workers[w]);
  }

  /** The frame in a worker's hands is in nobody else's, and what the worker knows of it is true. */
  lemma WorkerFrame(cfg: Config, s: State, w: nat)
    requires Inv(cfg, s) && w in s.workers && !s.workers[w].Idle?
    ensures s.workers[w].f < |s.frames| == |s.stages| && s.stages[s.workers[w].f] == AtWorker(w)
    ensures |s.frames[s.workers[w].f].payload| < I63
    ensures WorkerOk(cfg, s.frames, s.execs, s.workers[w])
    ensures s.workers[w].f !in s.reqCh
    ensures forall c :: c in s.recv && !s.recv[c].Reading? ==> s.recv[c].f != s.workers[w].f
    ensures forall v :: v in s.workers && v != w && !s.workers[v].Idle? ==> s.workers[v].f != s.workers[w].f
  {
    hide WorkerOk; hide LedgerInv; hide CallsInv; hide HandlersInv; hide GotInv; hide ItemInv;
  }

  lemma TakeKeeps(cfg: Config, s: State, s': State, w: nat)
    requires Inv(cfg, s) && Take(s, s', w)
    ensures Inv(cfg, s')
  {
    hide CallsInv; hide ItemInv; hide FramesInv; hide RecvInv; hide QueueInv; hide WorkersInv;
    hide LedgerInv; hide HandlersInv; hide GotInv; hide DecodeRequest; hide DecodeResponse; hide EncodesRequest;
    hide EncodesResponse;
    var f := s.reqCh[0];
    HeadOfQueue(s);
    FreeFrame(cfg, s, f);
    RecvStage(s.frames, s.stages, s.recv, f, AtWorker(w));
    QueuePop(s.stages, s.reqCh, AtWorker(w));
    WorkersStage(cfg, s.frames, s.stages, s.workers, s.execs, f, AtWorker(w));
    WorkerSet(cfg, s.frames, s'.stages, s.workers, s.execs, w, Taken(f));
    LedgerSame(cfg, s.frames, s.stages, s.workers, s'.stages, s'.workers, s.execs, s.replies, s.replyOf);
    BusySet(s.workers, w, Taken(f));
  }

  lemma HeadOfQueue(s: State)
    requires QueueInv(s.stages, s.reqCh) && s.reqCh != []
    ensures s.reqCh[0] < |s.stages| && s.stages[s.reqCh[0]] == Queued
  {
  }

  /** A worker finishes with its frame. */
  lemma Dropped(cfg: Config, s: State, w: nat, fate: Fate)
    requires Inv(cfg, s) && w in s.workers && !s.workers[w].Idle?
    ensures var f := s.workers[w].f;
            && f < |s.stages|
            && RecvInv(s.frames, s.stages[f := Done(fate)], s.recv)
            && QueueInv(s.stages[f := Done(fate)], s.reqCh)
            && WorkersInv(cfg, s.frames, s.stages[f := Done(fate)], s.workers[w := Idle], s.execs)
  {
    hide LedgerInv; hide CallsInv; hide HandlersInv; hide GotInv; hide ItemInv; hide FramesInv;
    hide RecvInv; hide QueueInv; hide WorkersInv;
    WorkerFrame(cfg, s, w);
    var f := s.workers[w].f;
    RecvStage(s.frames, s.stages, s.recv, f, Done(fate));
    QueueStage(s.stages, s.reqCh, f, Done(fate));
    WorkerSet(cfg, s.frames, s.stages, s.workers, s.execs, w, Idle);
    WorkersStage(cfg, s.frames, s.stages, s.workers[w := Idle], s.execs, f, Done(fate));
  }

  lemma SettledByDrop(s: State, w: nat, fate: Fate)
    requires w in s.workers && s.workers[w].Taken? && s.workers[w].f < |s.stages|
    requires s.stages[s.workers[w].f] == AtWorker(w)
    requires forall v :: v in s.workers && v != w && !s.workers[v].Idle? ==> s.workers[v].f != s.workers[w].f
    ensures var f, s' := s.workers[w].f, Drop(s, w, s.workers[w].f, fate);
            && Settled(s.stages, s.workers, f).None? && Settled(s'.stages, s'.workers, f) == Some(fate)
            && forall x :: 0 <= x < |s.stages| && x != f ==>
                 Settled(s'.stages, s'.workers, x) == Settled(s.stages, s.workers, x)
  {
  }

  lemma DropKeeps(cfg: Config, s: State, w: nat, fate: Fate)
    requires Inv(cfg, s) && w in s.workers && s.workers[w].Taken? && s.workers[w].f < |s.frames| == |s.stages|
    requires fate.Undecodable? || fate.Unregistered?
    requires FateSound(cfg, s.workers[w].f, s.frames[s.workers[w].f].payload, fate, s.execs)
    ensures Inv(cfg, Drop(s, w, s.workers[w].f, fate))
  {
    hide CallsInv; hide ItemInv; hide FramesInv; hide RecvInv; hide QueueInv; hide WorkersInv;
    hide LedgerInv; hide HandlersInv; hide GotInv; hide CountInv; hide DecodeRequest; hide DecodeResponse;
    hide EncodesRequest; hide EncodesResponse;
    hide FateSound; hide WorkerOk; hide Settled;
    var f := s.workers[w].f;
    WorkerFrame(cfg, s, w);
    BusySet(s.workers, w, Idle);
    Dropped(cfg, s, w, fate);
    SettledByDrop(s, w, fate);
    LedgerSettle(cfg, s.frames, s.stages, s.workers, s.stages[f := Done(fate)], s.workers[w := Idle],
                 s.execs, s.replies, s.replyOf, f);
  }

  /** The worker moves on without settling its frame. */
  lemma WorkerMoves(cfg: Config, s: State, w: nat, p: WorkerPc)
    requires Inv(cfg, s) && w in s.workers && !s.workers[w].Idle? && !s.workers[w].Leaving?
    requires !p.Idle? && !p.Leaving? && p.f == s.workers[w].f && WorkerOk(cfg, s.frames, s.execs, p)
    ensures Inv(cfg, s.(workers := s.workers[w := p],
                        reqs := s.reqs + (if InProgress(p) then 1 else 0)
                                       - (if InProgress(s.workers[w]) then 1 else 0)))
  {
    hide CallsInv; hide ItemInv; hide FramesInv; hide RecvInv; hide QueueInv; hide WorkersInv;
    hide LedgerInv; hide HandlersInv; hide GotInv; hide CountInv; hide DecodeRequest; hide DecodeResponse;
    hide EncodesRequest; hide EncodesResponse;
    hide WorkerOk;
    WorkerFrame(cfg, s, w);
    BusySet(s.workers, w, p);
    WorkerSet(cfg, s.frames, s.stages, s.workers, s.execs, w, p);
    LedgerSame(cfg, s.frames, s.stages, s.workers, s.stages, s.workers[w := p], s.execs, s.replies, s.replyOf);
  }

  lemma LookUpHandlerKeeps(cfg: Config, s: State, s': State, w: nat)
    requires Inv(cfg, s) && LookUpHandler(cfg, s, s', w)
    ensures Inv(cfg, s')
  {
    hide Inv; hide DecodeRequest;
    match DecodeRequest(s.frames[s.workers[w].f].payload)
    case None => DropKeeps(cfg, s, w, Undecodable);
    case Some(msg) =>
      if RpcId(msg) in cfg.table {
        WorkerMoves(cfg, s, w, Looked(s.workers[w].f, msg));
      } else {
        DropKeeps(cfg, s, w, Unregistered);
      }
  }

  lemma IncReqKeeps(cfg: Config, s: State, s': State, w: nat)
    requires Inv(cfg, s) && IncReq(s, s', w)
    ensures Inv(cfg, s')
  {
    hide Inv; hide DecodeRequest;
    WorkerFrame(cfg, s, w);
    WorkerMoves(cfg, s, w, s'.workers[w]);
  }

  lemma LimitKeeps(cfg: Config, s: State, s': State, w: nat)
    requires Inv(cfg, s) && Limit(s, s', w)
    ensures Inv(cfg, s')
  {
    hide Inv; hide DecodeRequest;
    WorkerFrame(cfg, s, w);
    WorkerMoves(cfg, s, w, s'.workers[w]);
  }

  lemma ExecRecorded(cfg: Config, s: State, e: Exec)
    requires Inv(cfg, s)
    ensures Inv(cfg, s.(execs := s.execs + [e]))
  {
    hide CallsInv; hide ItemInv; hide FramesInv; hide RecvInv; hide QueueInv; hide WorkersInv;
    hide LedgerInv; hide HandlersInv; hide GotInv; hide CountInv; hide ReqsInv; hide DecodeRequest;
    hide DecodeResponse; hide EncodesRequest; hide EncodesResponse;
    WorkersExec(cfg, s.frames, s.stages, s.workers, s.execs, e);
    LedgerExec(cfg, s.frames, s.stages, s.workers, s.execs, e, s.replies, s.replyOf);
  }

  /** The worker goes to its deferred decReq without having sent anything. */
  lemma WorkerLeaves(cfg: Config, s: State, w: nat, fate: Fate)
    requires Inv(cfg, s) && w in s.workers && (s.workers[w].Counted? || s.workers[w].Answering?)
    requires WorkerOk(cfg, s.frames, s.execs, Leaving(s.workers[w].f, s.workers[w].msg, fate))
    requires s.workers[w].f < |s.frames| && !Owed(s.frames[s.workers[w].f].payload, fate)
    ensures Inv(cfg, s.(workers := s.workers[w := Leaving(s.workers[w].f, s.workers[w].msg, fate)]))
  {
    hide CallsInv; hide ItemInv; hide FramesInv; hide RecvInv; hide QueueInv; hide WorkersInv;
    hide LedgerInv; hide HandlersInv; hide GotInv; hide CountInv; hide DecodeRequest; hide DecodeResponse;
    hide EncodesRequest; hide EncodesResponse; hide Owed; hide RpcId; hide FateOk; hide Settled;
    var f, p := s.workers[w].f, Leaving(s.workers[w].f, s.workers[w].msg, fate);
    WorkerFrame(cfg, s, w);
    BusySet(s.workers, w, p);
    WorkerSet(cfg, s.frames, s.stages, s.workers, s.execs, w, p);
    SettledByLeaving(s, w, p);
    LedgerSettle(cfg, s.frames, s.stages, s.workers, s.stages, s.workers[w := p], s.execs, s.replies, s.replyOf, f);
  }

  lemma SettledByLeaving(s: State, w: nat, p: WorkerPc)
    requires w in s.workers && (s.workers[w].Counted? || s.workers[w].Answering?) && p.Leaving?
    requires p.f == s.workers[w].f < |s.stages| && s.stages[p.f] == AtWorker(w)
    ensures Settled(s.stages, s.workers, p.f).None? && Settled(s.stages, s.workers[w := p], p.f) == Some(p.fate)
    ensures forall x :: 0 <= x < |s.stages| && x != p.f ==>
              Settled(s.stages, s.workers[w := p], x) == Settled(s.stages, s.workers, x)
  {
  }

  lemma LimiterPanicsKeeps(cfg: Config, s: State, s': State, w: nat)
    requires Inv(cfg, s) && LimiterPanics(s, s', w)
    ensures Inv(cfg, s')
  {
    hide Inv; hide DecodeRequest; hide RpcId;
    WorkerFrame(cfg, s, w);
    WorkerLeaves(cfg, s, w, LimiterPanicked);
  }

  lemma AnswerPanicsKeeps(cfg: Config, s: State, s': State, w: nat)
    requires Inv(cfg, s) && AnswerPanics(s, s', w)
    ensures Inv(cfg, s')
  {
    hide Inv; hide DecodeRequest; hide RpcId; hide FitsFrame; hide Respond;
    WorkerFrame(cfg, s, w);
    WorkerLeaves(cfg, s, w, s.workers[w].fate);
  }

  lemma Invoked(cfg: Config, s: State, w: nat, result: CallResult)
    requires Inv(cfg, s) && w in s.workers && s.workers[w].Counted? && RpcId(s.workers[w].msg) in cfg.table
    ensures var p := s.workers[w];
            var execs := s.execs + [Exec(p.f, cfg.table[RpcId(p.msg)], p.msg.packet, result)];
            Inv(cfg, s.(execs := execs)) &&
            var p' := AfterCall(p.f, p.msg, |s.execs|, result);
            && WorkerOk(cfg, s.frames, execs, p')
            && p.f < |s.frames| && (p'.Leaving? ==> !Owed(s.frames[p.f].payload, p'.fate))
  {
    hide Inv; hide DecodeRequest; hide WantsNoReply; hide Respond; hide RpcId;
    var p := s.workers[w];
    var e := Exec(p.f, cfg.table[RpcId(p.msg)], p.msg.packet, result);
    ExecRecorded(cfg, s, e);
    WorkerFrame(cfg, s.(execs := s.execs + [e]), w);
    assert (s.execs + [e])[|s.execs|] == e;
  }

  lemma InvokeKeeps(cfg: Config, s: State, s': State, w: nat, result: CallResult)
    requires Inv(cfg, s) && Invoke(cfg, s, s', w, result)
    ensures Inv(cfg, s')
  {
    hide Inv; hide WorkerOk; hide Respond; hide RpcId; hide WantsNoReply; hide Owed;
    var p := s.workers[w];
    var p' := AfterCall(p.f, p.msg, |s.execs|, result);
    Invoked(cfg, s, w, result);
    if p'.Leaving? {
      WorkerLeaves(cfg, s.(execs := s'.execs), w, p'.fate);
    } else {
      WorkerMoves(cfg, s.(execs := s'.execs), w, p');
    }
  }

  lemma AnswerKeeps(cfg: Config, s: State, s': State, w: nat, payload: bytes)
    requires Inv(cfg, s) && Answer(s, s', w, payload)
    ensures Inv(cfg, s')
  {
    hide CallsInv; hide ItemInv; hide FramesInv; hide RecvInv; hide QueueInv; hide WorkersInv;
    hide LedgerInv; hide HandlersInv; hide GotInv; hide CountInv; hide DecodeRequest; hide DecodeResponse;
    hide EncodesRequest; hide EncodesResponse;
    var h := s.workers[w];
    WorkerFrame(cfg, s, w);
    BusySet(s.workers, w, s'.workers[w]);
    ResponseArrives(s.frames[h.f].payload, h.msg, h.resp.code, h.resp.packet, payload);
    var r := ReplyFrame(h.f, s.frames[h.f].conn, payload);
    WorkerSet(cfg, s.frames, s.stages, s.workers, s.execs, w, s'.workers[w]);
    LedgerAnswer(cfg, s.frames, s.stages, s.workers, s.stages, s'.workers, s.execs, s.replies, s.replyOf, r);
    SameLength(s);
    HandlersReply(s.handlers, s.calls, s.callItem, s.replies, s.deliveries, r);
    GotReply(s.calls, s.callItem, s.replies, s.deliveries, r);
  }

  lemma DecReqKeeps(cfg: Config, s: State, s': State, w: nat)
    requires Inv(cfg, s) && DecReq(s, s', w)
    ensures Inv(cfg, s')
  {
    hide CallsInv; hide ItemInv; hide FramesInv; hide RecvInv; hide QueueInv; hide WorkersInv;
    hide LedgerInv; hide HandlersInv; hide GotInv; hide CountInv; hide DecodeRequest; hide DecodeResponse;
    hide EncodesRequest; hide EncodesResponse;
    WorkerFrame(cfg, s, w);
    BusySet(s.workers, w, Idle);
    Dropped(cfg, s, w, s.workers[w].fate);
    LedgerSame(cfg, s.frames, s.stages, s.workers, s'.stages, s'.workers, s.execs, s.replies, s.replyOf);
  }

  // ----- all of them

  lemma CallerStepKeeps(cfg: Config, s: State, s': State, a: CallerAction)
    requires Inv(cfg, s) && CallerStep(cfg, s, s', a)
    ensures Inv(cfg, s')
  {
    hide Inv;
    hide NewCall; hide Register; hide Write; hide WriteFails; hide ReachSelect; hide PickTimeout;
    hide PickClosed; hide LockTimeout; hide LockReply; hide Rendezvous; hide Deferred;
    match a
    case ANewCall(k, call) => NewCallKeeps(cfg, s, s', k, call);
    case ARegister(k) => RegisterKeeps(cfg, s, s', k);
    case AWrite(k, payload) => WriteKeeps(cfg, s, s', k, payload);
    case AWriteFails(k) => WriteFailsKeeps(cfg, s, s', k);
    case AReachSelect(k) => ReachSelectKeeps(cfg, s, s', k);
    case APickTimeout(k) => PickTimeoutKeeps(cfg, s, s', k);
    case APickClosed(k) => PickClosedNever(cfg, s, s', k);
    case ALockTimeout(k) => LockTimeoutKeeps(cfg, s, s', k);
    case ALockReply(k) => LockReplyKeeps(cfg, s, s', k);
    case ARendezvous(k, c) => RendezvousKeeps(cfg, s, s', k, c);
    case ADeferred(k, sender) => DeferredKeeps(cfg, s, s', k, sender);
  }

  lemma HandlerStepKeeps(cfg: Config, s: State, s': State, a: HandlerAction)
    requires Inv(cfg, s) && HandlerStep(cfg, s, s', a)
    ensures Inv(cfg, s')
  {
    hide Inv;
    hide Deliver; hide ReadLock; hide Lookup; hide TestChannel; hide SendOnClosed; hide ReadUnlock;
    hide Open; hide Close; hide ForeignFrame; hide LoseReply;
    match a
    case ADeliver(c, i) => DeliverKeeps(cfg, s, s', c, i);
    case AReadLock(c) => ReadLockKeeps(cfg, s, s', c);
    case ALookup(c) => LookupKeeps(cfg, s, s', c);
    case ATestChannel(c, sender) => TestChannelKeeps(cfg, s, s', c, sender);
    case ASendOnClosed(c) => SendOnClosedNever(cfg, s, s', c);
    case AReadUnlock(c) => ReadUnlockKeeps(cfg, s, s', c);
    case AOpen(c) => OpenKeeps(cfg, s, s', c);
    case AClose(c) => CloseKeeps(cfg, s, s', c);
    case AForeignFrame(c, payload) => ForeignFrameKeeps(cfg, s, s', c, payload);
    case ALoseReply(i) => LoseReplyKeeps(cfg, s, s', i);
  }

  lemma ServerStepKeeps(cfg: Config, s: State, s': State, a: ServerAction)
    requires Inv(cfg, s) && ServerStep(cfg, s, s', a)
    ensures Inv(cfg, s')
  {
    hide Inv;
    hide Receive; hide Push; hide Refuse; hide RefusePanics; hide Take; hide LookUpHandler; hide IncReq;
    hide Limit; hide LimiterPanics; hide Invoke; hide Answer; hide AnswerPanics; hide DecReq;
    match a
    case AReceive(f) => ReceiveKeeps(cfg, s, s', f);
    case APush(c) => PushKeeps(cfg, s, s', c);
    case ARefuse(c, payload) => RefuseKeeps(cfg, s, s', c, payload);
    case ARefusePanics(c) => RefusePanicsKeeps(cfg, s, s', c);
    case ATake(w) => TakeKeeps(cfg, s, s', w);
    case ALookUpHandler(w) => LookUpHandlerKeeps(cfg, s, s', w);
    case AIncReq(w) => IncReqKeeps(cfg, s, s', w);
    case ALimit(w) => LimitKeeps(cfg, s, s', w);
    case ALimiterPanics(w) => LimiterPanicsKeeps(cfg, s, s', w);
    case AInvoke(w, result) => InvokeKeeps(cfg, s, s', w, result);
    case AAnswer(w, payload) => AnswerKeeps(cfg, s, s', w, payload);
    case AAnswerPanics(w) => AnswerPanicsKeeps(cfg, s, s', w);
    case ADecReq(w) => DecReqKeeps(cfg, s, s', w);
  }

  lemma StepKeepsInv(cfg: Config, s: State, s': State, a: Action)
    requires Inv(cfg, s) && Step(cfg, s, s', a)
    ensures Inv(cfg, s')
  {
    hide Inv; hide CallerStep; hide HandlerStep; hide ServerStep;
    match a
    case ByCaller(x) => CallerStepKeeps(cfg, s, s', x);
    case ByHandler(x) => HandlerStepKeeps(cfg, s, s', x);
    case ByServer(x) => ServerStepKeeps(cfg, s, s', x);
  }

  lemma {:induction false} RunKeepsInv(cfg: Config, run: seq<State>, i: nat)
    requires Run(cfg, run) && i < |run|
    ensures Inv(cfg, run[i])
  {
    hide Inv; hide Init; hide Step;
    if i == 0 {
      InitInv(cfg, run[0]);
    } else {
      RunKeepsInv(cfg, run, i - 1);
      assert Next(cfg, run[i - 1], run[i]);
      var a :| Step(cfg, run[i - 1], run[i], a);
      StepKeepsInv(cfg, run[i - 1], run[i], a);
    }
  }
}
