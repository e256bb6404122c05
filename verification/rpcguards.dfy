/** What the read lock and the size limits guard, in every run. */
module RpcGuards {
  import opened Bytes
  import opened Packets
  import opened Rpc
  import opened RpcInvariants
  import opened RpcSteps
  import opened RpcExecutions
  import opened RpcTheorems
  import opened RpcOrder

  // ----- requests

  /** The server begins no frame without a body, nor one over the limit. */
  lemma {:induction false} OnlySizedFramesStart(cfg: Config, run: seq<State>, i: nat, f: nat)
    requires Run(cfg, run) && i < |run| && f < |run[i].stages| && !run[i].stages[f].OnWire?
    ensures f < |run[i].frames| && 1 <= |run[i].frames[f].payload| <= 0x10_0000
  {
    hide Inv; hide Step;
    if i > 0 {
      RunKeepsInv(cfg, run, i - 1);
      assert Next(cfg, run[i - 1], run[i]);
      var a :| Step(cfg, run[i - 1], run[i], a);
      StepMovesChannel(cfg, run[i - 1], run[i], a);
      assert Started(run[i], f);
      if Started(run[i - 1], f) {
        OnlySizedFramesStart(cfg, run, i - 1, f);
      }
    }
  }

  /** The channel never holds more than it has room for, however many connections push. */
  lemma {:induction false} ChannelHasRoom(cfg: Config, run: seq<State>, i: nat)
    requires Run(cfg, run) && i < |run|
    ensures |run[i].reqCh| <= cfg.capacity
  {
    hide Inv; hide Step;
    if i > 0 {
      ChannelHasRoom(cfg, run, i - 1);
      RunKeepsInv(cfg, run, i - 1);
      assert Next(cfg, run[i - 1], run[i]);
      var a :| Step(cfg, run[i - 1], run[i], a);
      StepMovesChannel(cfg, run[i - 1], run[i], a);
    }
  }

  // ----- replies and the table

  /** The replies that handlers hold have a size that may be received. */
  predicate HandlersSized(handlers: map<Conn, HandlerPc>, replies: seq<ReplyFrame>) {
    forall c :: c in handlers && HasReply(handlers[c]) ==>
      handlers[c].i < |replies| && Sized(replies[handlers[c].i].payload)
  }

  /** What a step keeps: sizes, and the keys that a reply handler holding the read lock may rely on. */
  ghost predicate Guarded(s: State, s': State) {
    && (HandlersSized(s.handlers, s.replies) ==> HandlersSized(s'.handlers, s'.replies))
    && forall k: Key :: !NoReaders(s, k.pool) ==> (k in s'.callItem <==> k in s.callItem)
  }

  lemma OneHandlerSized(handlers: map<Conn, HandlerPc>, replies: seq<ReplyFrame>, c: Conn, h: HandlerPc)
    requires HandlersSized(handlers, replies)
    requires HasReply(h) ==> h.i < |replies| && Sized(replies[h.i].payload)
    ensures HandlersSized(handlers[c := h], replies)
  {
  }

  lemma MoreReplies(handlers: map<Conn, HandlerPc>, replies: seq<ReplyFrame>, more: seq<ReplyFrame>)
    requires HandlersSized(handlers, replies) && replies <= more
    ensures HandlersSized(handlers, more)
  {
    forall c | c in handlers && HasReply(handlers[c]) ensures Sized(more[handlers[c].i].payload) {
      assert more[handlers[c].i] == replies[handlers[c].i];
    }
  }

  lemma CallerGuarded(cfg: Config, s: State, s': State, a: CallerAction)
    requires CallerStep(cfg, s, s', a)
    ensures Guarded(s, s')
  {
    hide Deferred; hide Rendezvous; hide LockTimeout; hide LockReply; hide Write; hide NoReaders;
    match a
    case AWrite(k, payload) => WriteGuarded(cfg, s, s', k, payload);
    case ALockTimeout(k) => LockTimeoutGuarded(s, s', k);
    case ALockReply(k) => LockReplyGuarded(s, s', k);
    case ARendezvous(k, c) => RendezvousGuarded(s, s', k, c);
    case ADeferred(k, sender) => DeferredGuarded(s, s', k, sender);
    case _ =>
  }

  lemma WriteGuarded(cfg: Config, s: State, s': State, k: Key, payload: bytes)
    requires Write(cfg, s, s', k, payload)
    ensures Guarded(s, s')
  {
    hide EncodesRequest; hide RequestFor; hide NoReaders; hide HandlersSized;
  }

  lemma LockTimeoutGuarded(s: State, s': State, k: Key)
    requires LockTimeout(s, s', k)
    ensures Guarded(s, s')
  {
    hide NoReaders; hide HandlersSized;
  }

  lemma LockReplyGuarded(s: State, s': State, k: Key)
    requires LockReply(s, s', k)
    ensures Guarded(s, s')
  {
    hide NoReaders; hide HandlersSized;
  }

  lemma RendezvousGuarded(s: State, s': State, k: Key, c: Conn)
    requires Rendezvous(s, s', k, c)
    ensures Guarded(s, s')
  {
    hide NoReaders; hide HandlersSized; hide SendingTo;
    if HandlersSized(s.handlers, s.replies) { OneHandlerSized(s.handlers, s.replies, c, Unlocking); }
  }

  lemma DeferredGuarded(s: State, s': State, k: Key, sender: Option<Conn>)
    requires Deferred(s, s', k, sender)
    ensures Guarded(s, s')
  {
    DeferredChanges(s, s', k, sender);
    hide NoReaders; hide HandlersSized; hide Deferred;
    if HandlersSized(s.handlers, s.replies) && sender.Some? {
      OneHandlerSized(s.handlers, s.replies, sender.value, Unlocking);
    }
  }

  lemma DeferredChanges(s: State, s': State, k: Key, sender: Option<Conn>)
    requires Deferred(s, s', k, sender)
    ensures s'.replies == s.replies && s'.callItem == s.callItem
    ensures s'.handlers == s.handlers || (sender.Some? && s'.handlers == s.handlers[sender.value := Unlocking])
  {
    hide SendingTo;
  }

  lemma HandlerGuarded(cfg: Config, s: State, s': State, a: HandlerAction)
    requires HandlerStep(cfg, s, s', a)
    ensures Guarded(s, s')
  {
    hide Deliver; hide Lookup; hide TestChannel; hide Open; hide NoReaders; hide HandlersSized;
    if HandlersSized(s.handlers, s.replies) {
      match a
      case AReadLock(c) => HeldSized(s, c); OneHandlerSized(s.handlers, s.replies, c, s'.handlers[c]);
      case AReadUnlock(c) => OneHandlerSized(s.handlers, s.replies, c, Waiting);
      case _ =>
    }
    match a
    case ADeliver(c, i) => DeliverGuarded(s, s', c, i);
    case ALookup(c) => LookupGuarded(s, s', c);
    case ATestChannel(c, sender) => TestGuarded(s, s', c, sender);
    case AOpen(c) => OpenGuarded(cfg, s, s', c);
    case _ =>
  }

  lemma HeldSized(s: State, c: Conn)
    requires HandlersSized(s.handlers, s.replies) && Holds(s, c)
    ensures s.handlers[c].i < |s.replies| && Sized(s.replies[s.handlers[c].i].payload)
  {
  }

  lemma DeliverGuarded(s: State, s': State, c: Conn, i: nat)
    requires Deliver(s, s', c, i)
    ensures Guarded(s, s')
  {
    hide NoReaders; hide HandlersSized; hide DecodeResponse;
    match DecodeResponse(s.replies[i].payload)
    case None =>
    case Some(resp) =>
      if HandlersSized(s.handlers, s.replies) { OneHandlerSized(s.handlers, s.replies, c, Decoded(i, resp)); }
  }

  lemma LookupGuarded(s: State, s': State, c: Conn)
    requires Lookup(s, s', c)
    ensures Guarded(s, s')
  {
    hide NoReaders; hide HandlersSized; hide Guarded;
    var h := s.handlers[c];
    if HandlersSized(s.handlers, s.replies) {
      HeldSized(s, c);
      OneHandlerSized(s.handlers, s.replies, c, Stored(h.i, h.resp));
      OneHandlerSized(s.handlers, s.replies, c, Unlocking);
    }
    SameKeys(s, s.handlers[c := Unlocking], s.callItem);
    var k := Target(c, h.resp);
    if k in s.callItem {
      SameKeys(s, s.handlers[c := Stored(h.i, h.resp)], s.callItem[k := Entry(h.resp.code, h.resp.packet)]);
    }
  }

  lemma SameKeys(s: State, handlers: map<Conn, HandlerPc>, item: map<Key, Entry>)
    requires HandlersSized(s.handlers, s.replies) ==> HandlersSized(handlers, s.replies)
    requires forall k :: k in item <==> k in s.callItem
    ensures item == s.callItem ==> Guarded(s, s.(handlers := handlers))
    ensures Guarded(s, s.(handlers := handlers, callItem := item))
  {
    hide NoReaders; hide HandlersSized;
  }

  lemma TestGuarded(s: State, s': State, c: Conn, sender: Option<Conn>)
    requires TestChannel(s, s', c, sender)
    ensures Guarded(s, s')
  {
    hide NoReaders; hide HandlersSized; hide SendingTo;
    if HandlersSized(s.handlers, s.replies) {
      HeldSized(s, c);
      if sender.Some? { OneHandlerSized(s.handlers, s.replies, sender.value, Unlocking); }
      OneHandlerSized(s.handlers, s.replies, c, Unlocking);
      OneHandlerSized(Woken(s, sender), s.replies, c, Sending(s.handlers[c].i, s.handlers[c].resp));
    }
  }

  lemma OpenGuarded(cfg: Config, s: State, s': State, c: Conn)
    requires Open(cfg, s, s', c)
    ensures Guarded(s, s')
  {
    hide NoReaders; hide HandlersSized;
    if HandlersSized(s.handlers, s.replies) { OneHandlerSized(s.handlers, s.replies, c, Waiting); }
  }

  lemma StepGuarded(cfg: Config, s: State, s': State, a: Action)
    requires Step(cfg, s, s', a)
    ensures Guarded(s, s')
  {
    hide CallerStep; hide HandlerStep; hide ServerStep; hide HandlersSized; hide NoReaders;
    match a
    case ByCaller(x) => CallerGuarded(cfg, s, s', x);
    case ByHandler(x) => HandlerGuarded(cfg, s, s', x);
    case ByServer(x) =>
      ServerLeavesClients(cfg, s, s', x);
      if HandlersSized(s.handlers, s.replies) { MoreReplies(s.handlers, s.replies, s'.replies); }
  }

  /** No reply handler works on an empty reply, nor on one over the limit. */
  lemma {:induction false} OnlySizedRepliesHandled(cfg: Config, run: seq<State>, i: nat)
    requires Run(cfg, run) && i < |run|
    ensures HandlersSized(run[i].handlers, run[i].replies)
  {
    hide Step; hide HandlersSized;
    if i == 0 {
      NobodyHandles(run[0]);
    } else {
      OnlySizedRepliesHandled(cfg, run, i - 1);
      assert Next(cfg, run[i - 1], run[i]);
      var a :| Step(cfg, run[i - 1], run[i], a);
      StepGuarded(cfg, run[i - 1], run[i], a);
    }
  }

  lemma NobodyHandles(s: State)
    requires Init(s)
    ensures HandlersSized(s.handlers, s.replies)
  {
  }

  /** While a reply handler holds the read lock, no entry of its pool comes or goes. */
  lemma ReadersHoldTheTable(cfg: Config, run: seq<State>, i: nat, c: Conn, k: Key)
    requires Run(cfg, run) && i + 1 < |run| && c in run[i].handlers && c.Dialled? && HoldsLock(run[i].handlers[c])
    requires k.pool == c.pool
    ensures k in run[i + 1].callItem <==> k in run[i].callItem
  {
    hide Step; hide HandlersSized;
    assert Next(cfg, run[i], run[i + 1]);
    var a :| Step(cfg, run[i], run[i + 1], a);
    StepGuarded(cfg, run[i], run[i + 1], a);
    assert HoldsLock(run[i].handlers[c]);
  }
}
