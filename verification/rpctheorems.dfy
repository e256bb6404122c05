/** What the invariant means for the users of the framework, over every run. */
module RpcTheorems {
  import opened Bytes
  import opened Packets
  import opened Rpc
  import opened RpcInvariants
  import opened RpcParts
  import opened RpcSteps
  import opened RpcExecutions

  /** GenRid yields a uint64. */
  ghost predicate RidsFit(cfg: Config) {
    forall rpc :: cfg.rid(rpc) < U64
  }

  lemma RpcIdOfRequest(cfg: Config, k: Key, c: Call)
    requires RidsFit(cfg)
    ensures RpcId(RequestFor(cfg, k, c)) == cfg.rid(c.rpc)
  {
    assert cfg.rid(c.rpc) < U64;
  }

  /** Execution e ran the handler registered under the call's RpcId on the call's packet and frame. */
  predicate OwnExecution(cfg: Config, s: State, k: Key, e: nat, p: bytes)
    requires k in s.calls
  {
    var c := s.calls[k];
    && ExecutedFor(s, k, e)
    && DecodeRequest(s.frames[s.execs[e].frame].payload) == Some(RequestFor(cfg, k, c))
    && cfg.rid(c.rpc) in cfg.table && s.execs[e].item == cfg.table[cfg.rid(c.rpc)]
    && s.execs[e].packet == c.packet && s.execs[e].result == Ok(p)
  }

  /** GenRid tells the registered names apart from each other and from this one. */
  predicate NoCollision(cfg: Config, rpc: bytes) {
    forall r :: r in cfg.table ==> cfg.rid(cfg.table[r]) == r && (r == cfg.rid(rpc) ==> cfg.table[r] == rpc)
  }

  /**
   * A call that returns (p, nil) returns the result of the one execution of its own request: same
   * packet, same Sid, the handler registered under its RpcId, which is its method's own unless ids
   * collide; never another call's, in any interleaving.
   */
  lemma CallReturnsOwnResult(cfg: Config, run: seq<State>, i: nat, k: Key, p: bytes) returns (e: nat)
    requires RidsFit(cfg) && Run(cfg, run) && i < |run|
    requires At(run[i], k, Returned(Reply(p)))
    ensures OwnExecution(cfg, run[i], k, e, p)
    ensures forall x: nat :: ExecutedFor(run[i], k, x) ==> x == e
    ensures NoCollision(cfg, run[i].calls[k].rpc) ==> run[i].execs[e].item == run[i].calls[k].rpc
  {
    hide DecodeRequest; hide DecodeResponse; hide Run;
    RunKeepsInv(cfg, run, i);
    e := OwnResult(cfg, run[i], k, p);
    forall x: nat | ExecutedFor(run[i], k, x) ensures x == e {
      OneExecutionPerCall(cfg, run, i, k, x, e);
    }
  }

  lemma OwnResult(cfg: Config, s: State, k: Key, p: bytes) returns (e: nat)
    requires RidsFit(cfg) && Inv(cfg, s) && At(s, k, Returned(Reply(p)))
    ensures OwnExecution(cfg, s, k, e, p)
  {
    hide DecodeRequest; hide DecodeResponse; hide Signed64; hide RpcId; hide RidsFit; hide CallHeaders;
    hide CallsInv; hide ItemInv; hide RecvInv; hide QueueInv; hide WorkersInv; hide HandlersInv; hide GotInv;
    CallAt(cfg, s, k);
    RpcIdOfRequest(cfg, k, s.calls[k]);
    var r := s.replies[s.calls[k].got.value];
    var fate := Settled(s.stages, s.workers, r.frame).value;
    assert ReplyOk(cfg, s.frames, fate, s.execs, r);
    assert fate.Succeeded?;
    e := fate.e;
  }

  /**
   * Channel safety: nothing closes a closed channel, sends on one or misses its callItem entry; every
   * finished call has closed its channel exactly once.
   */
  lemma ChannelSafety(cfg: Config, run: seq<State>, i: nat, k: Key)
    requires Run(cfg, run) && i < |run| && k in run[i].calls
    ensures !run[i].faults && run[i].calls[k].closes <= 1
    ensures run[i].calls[k].pc.Returned? ==> run[i].calls[k].closes == 1
    ensures run[i].calls[k].pc.TimedOut? || run[i].calls[k].pc.Received? ==>
              k in run[i].callItem && run[i].calls[k].closes == 0
  {
    hide Run; hide DecodeRequest; hide DecodeResponse;
    RunKeepsInv(cfg, run, i);
    CallAt(cfg, run[i], k);
  }

  /** callItem holds the calls between their insert and their delete, and those whose write failed. */
  lemma PendingTable(cfg: Config, run: seq<State>, i: nat, k: Key)
    requires Run(cfg, run) && i < |run|
    ensures k in run[i].callItem <==>
              && k in run[i].calls && !run[i].calls[k].onlyCall
              && match run[i].calls[k].pc
                 case Prepared => false
                 case Returning(result) => result == WriteFailed
                 case Returned(result) => result == WriteFailed
                 case _ => true
  {
    hide Run; hide CallsInv; hide GotInv; hide HandlersInv; hide LedgerInv; hide WorkersInv; hide FramesInv;
    RunKeepsInv(cfg, run, i);
  }

  // ----- blocked handlers

  /**
   * A handler that is about to send has the only reply for its target; the target has received
   * nothing and is still reaching its select, at it, or has picked the timeout. No third case.
   */
  lemma BlockedSender(cfg: Config, run: seq<State>, i: nat, c: Conn)
    requires Run(cfg, run) && i < |run| && c in run[i].handlers && run[i].handlers[c].Sending?
    ensures c.Dialled?
    ensures var k := Target(c, run[i].handlers[c].resp);
            && k in run[i].calls && run[i].calls[k].got == None && run[i].calls[k].closes == 0
            && run[i].calls[k].pc in {Sent, Selecting, TimedOut}
            && (forall d :: d != c ==> !SendingTo(run[i], d, k))
  {
    hide Run; hide Inv;
    RunKeepsInv(cfg, run, i);
    SenderCases(cfg, run[i], c);
  }

  lemma SenderCases(cfg: Config, s: State, c: Conn)
    requires Inv(cfg, s) && c in s.handlers && s.handlers[c].Sending?
    ensures c.Dialled?
    ensures var k := Target(c, s.handlers[c].resp);
            && k in s.calls && s.calls[k].got == None && s.calls[k].closes == 0 && !s.calls[k].onlyCall
            && s.calls[k].pc in {Sent, Selecting, TimedOut}
            && (forall d :: d != c ==> !SendingTo(s, d, k))
  {
    hide Inv; hide DecodeRequest; hide DecodeResponse; hide SendingTo;
    ChannelOpen(cfg, s, c);
    CallAt(cfg, s, Target(c, s.handlers[c].resp));
  }

  predicate Stuck(s: State, c: Conn, h: HandlerPc) {
    && c in s.handlers && c.Dialled? && s.handlers[c] == h && h.Sending?
    && At(s, Target(c, h.resp), TimedOut)
  }

  lemma StuckAfterStep(cfg: Config, s: State, s': State, a: Action, c: Conn, h: HandlerPc)
    requires Inv(cfg, s) && Step(cfg, s, s', a) && Stuck(s, c, h)
    ensures Stuck(s', c, h)
  {
    hide Inv; hide CallerStep; hide HandlerStep; hide ServerStep;
    match a
    case ByCaller(x) => StuckAfterCaller(cfg, s, s', x, c, h);
    case ByHandler(x) => StuckAfterHandler(cfg, s, s', x, c, h);
    case ByServer(x) => StuckAfterServer(cfg, s, s', x, c, h);
  }

  lemma StuckAfterCaller(cfg: Config, s: State, s': State, a: CallerAction, c: Conn, h: HandlerPc)
    requires Inv(cfg, s) && CallerStep(cfg, s, s', a) && Stuck(s, c, h)
    ensures Stuck(s', c, h)
  {
    hide Inv; hide EncodesRequest; hide RequestFor; hide SendingTo;
    if a.ANewCall? {
      NewSid(cfg, s, a.k);
    } else if a.ARendezvous? {
      RendezvousElsewhere(s, s', a.k, a.c, c, h);
    } else if a.ADeferred? {
      if a.sender.Some? && s.calls[a.k].closes == 0 { NoSender(cfg, s, a.k, a.sender.value); }
    } else {
      LockedOut(s, c, h);
      OneCallMoves(cfg, s, s', a);
    }
  }

  lemma RendezvousElsewhere(s: State, s': State, k: Key, d: Conn, c: Conn, h: HandlerPc)
    requires Rendezvous(s, s', k, d) && Stuck(s, c, h)
    ensures Stuck(s', c, h)
  {
  }

  lemma LockedOut(s: State, c: Conn, h: HandlerPc)
    requires Stuck(s, c, h)
    ensures !NoReaders(s, c.pool)
  {
    assert HoldsLock(s.handlers[c]);
  }

  /** The remaining steps of a caller move that caller alone, and from TimedOut only with the lock. */
  lemma OneCallMoves(cfg: Config, s: State, s': State, a: CallerAction)
    requires CallerStep(cfg, s, s', a) && !a.ANewCall? && !a.ARendezvous? && !a.ADeferred?
    ensures s'.handlers == s.handlers
    ensures forall k :: k in s.calls && s.calls[k].pc == TimedOut && !NoReaders(s, k.pool) ==>
              k in s'.calls && s'.calls[k] == s.calls[k]
  {
    hide EncodesRequest; hide RequestFor; hide NoReaders; hide SendingTo;
  }

  lemma StuckAfterHandler(cfg: Config, s: State, s': State, a: HandlerAction, c: Conn, h: HandlerPc)
    requires Inv(cfg, s) && HandlerStep(cfg, s, s', a) && Stuck(s, c, h)
    ensures Stuck(s', c, h)
  {
    hide Inv; hide SendingTo;
    if a.ATestChannel? {
      ChannelOpen(cfg, s, a.c);
    } else {
      OneHandlerMoves(cfg, s, s', a);
    }
  }

  predicate SendersStay(s: State, s': State) {
    && s'.calls == s.calls
    && forall c :: c in s.handlers && s.handlers[c].Sending? ==> c in s'.handlers && s'.handlers[c] == s.handlers[c]
  }

  lemma OneHandlerMoves(cfg: Config, s: State, s': State, a: HandlerAction)
    requires HandlerStep(cfg, s, s', a) && !a.ATestChannel?
    ensures SendersStay(s, s')
  {
    hide Deliver; hide Lookup; hide Open;
    match a
    case ADeliver(c, i) => DeliverMoves(s, s', c, i);
    case ALookup(c) => LookupMoves(s, s', c);
    case AOpen(c) => OpenMoves(cfg, s, s', c);
    case _ =>
  }

  lemma DeliverMoves(s: State, s': State, c: Conn, i: nat)
    requires Deliver(s, s', c, i)
    ensures SendersStay(s, s')
  {
    hide DecodeResponse;
  }

  lemma LookupMoves(s: State, s': State, c: Conn)
    requires Lookup(s, s', c)
    ensures SendersStay(s, s')
  {
  }

  lemma OpenMoves(cfg: Config, s: State, s': State, c: Conn)
    requires Open(cfg, s, s', c)
    ensures SendersStay(s, s')
  {
  }

  lemma StuckAfterServer(cfg: Config, s: State, s': State, a: ServerAction, c: Conn, h: HandlerPc)
    requires ServerStep(cfg, s, s', a) && Stuck(s, c, h)
    ensures Stuck(s', c, h)
  {
    hide ServerStep;
    ServerLeavesClients(cfg, s, s', a);
  }

  predicate SameClients(s: State, s': State) {
    && s'.counters == s.counters && s'.calls == s.calls && s'.callItem == s.callItem && s'.handlers == s.handlers
    && s.replies <= s'.replies
  }

  lemma ServerLeavesClients(cfg: Config, s: State, s': State, a: ServerAction)
    requires ServerStep(cfg, s, s', a)
    ensures SameClients(s, s')
  {
    hide Refuse; hide RefusePanics; hide LookUpHandler; hide Invoke; hide Answer; hide FitsFrame;
    match a
    case ARefuse(c, payload) => RefuseLeaves(s, s', c, payload);
    case ARefusePanics(c) => RefusePanicsLeaves(s, s', c);
    case ALookUpHandler(w) => LookUpLeaves(cfg, s, s', w);
    case AInvoke(w, result) => InvokeLeaves(cfg, s, s', w, result);
    case AAnswer(w, payload) => AnswerLeaves(s, s', w, payload);
    case _ =>
  }

  lemma RefuseLeaves(s: State, s': State, c: Conn, payload: bytes)
    requires Refuse(s, s', c, payload)
    ensures SameClients(s, s')
  {
    hide DecodeRequest; hide EncodesResponse; hide Respond; hide Replied; hide SameClients;
    var f := s.recv[c].f;
    match DecodeRequest(s.frames[f].payload)
    case None => RecvLeaves(s, c, f, Undecodable);
    case Some(msg) => RepliedLeaves(s, c, f, payload);
  }

  lemma RefusePanicsLeaves(s: State, s': State, c: Conn)
    requires RefusePanics(s, s', c)
    ensures SameClients(s, s')
  {
    hide DecodeRequest; hide FitsFrame; hide Respond;
  }

  lemma RecvLeaves(s: State, c: Conn, f: nat, fate: Fate)
    requires f < |s.stages|
    ensures SameClients(s, s.(recv := s.recv[c := Reading]).(stages := s.stages[f := Done(fate)]))
  {
  }

  lemma RepliedLeaves(s: State, c: Conn, f: nat, payload: bytes)
    requires f < |s.frames| == |s.stages|
    ensures var s1 := Replied(s.(recv := s.recv[c := Reading]), f, payload);
            SameClients(s, s1.(stages := s.stages[f := Done(Fate.Refused)]))
  {
  }

  lemma LookUpLeaves(cfg: Config, s: State, s': State, w: nat)
    requires LookUpHandler(cfg, s, s', w)
    ensures SameClients(s, s')
  {
    hide DecodeRequest; hide RpcId; hide SameClients; hide Drop;
    var f := s.workers[w].f;
    match DecodeRequest(s.frames[f].payload)
    case None => DropLeaves(s, w, f, Undecodable);
    case Some(msg) =>
      if RpcId(msg) in cfg.table {
        WorkerLeavesClients(s, w, Looked(f, msg));
      } else {
        DropLeaves(s, w, f, Unregistered);
      }
  }

  lemma DropLeaves(s: State, w: nat, f: nat, fate: Fate)
    requires f < |s.stages|
    ensures SameClients(s, Drop(s, w, f, fate))
  {
  }

  lemma WorkerLeavesClients(s: State, w: nat, p: WorkerPc)
    ensures SameClients(s, s.(workers := s.workers[w := p]))
  {
  }

  lemma InvokeLeaves(cfg: Config, s: State, s': State, w: nat, result: CallResult)
    requires Invoke(cfg, s, s', w, result)
    ensures SameClients(s, s')
  {
    hide AfterCall;
  }

  lemma AnswerLeaves(s: State, s': State, w: nat, payload: bytes)
    requires Answer(s, s', w, payload)
    ensures SameClients(s, s')
  {
    hide EncodesResponse;
  }

  /**
   * A handler whose target has picked the timeout stays blocked for the rest of the run, and so do all
   * the lock's writers in that pool: no further call can register, time out or take its reply.
   */
  lemma {:induction false} TimedOutTargetBlocksForever(cfg: Config, run: seq<State>, i: nat, j: nat, c: Conn,
                                                       h: HandlerPc)
    requires Run(cfg, run) && i <= j < |run| && Stuck(run[i], c, h)
    ensures Stuck(run[j], c, h) && !NoReaders(run[j], c.pool)
    decreases j - i
  {
    hide Inv; hide Step;
    if i < j {
      TimedOutTargetBlocksForever(cfg, run, i, j - 1, c, h);
      RunKeepsInv(cfg, run, j - 1);
      assert Next(cfg, run[j - 1], run[j]);
      var a :| Step(cfg, run[j - 1], run[j], a);
      StuckAfterStep(cfg, run[j - 1], run[j], a, c, h);
    }
  }

  /** Otherwise the target can take the value after at most one step of its own, and the handler is free. */
  lemma OtherTargetsRelease(cfg: Config, s: State, c: Conn) returns (s1: State, s2: State)
    requires Inv(cfg, s) && c in s.handlers && s.handlers[c].Sending?
    requires c.Dialled? && !Stuck(s, c, s.handlers[c])
    ensures s1 == s || Next(cfg, s, s1)
    ensures Next(cfg, s1, s2) && c in s2.handlers && s2.handlers[c] == Unlocking
  {
    hide Inv; hide DecodeRequest; hide DecodeResponse; hide Next;
    SenderCases(cfg, s, c);
    TargetOwner(cfg, s, c);
    var k := Target(c, s.handlers[c].resp);
    s1 := if s.calls[k].pc.Sent? then SetPc(s, k, Selecting) else s;
    if s.calls[k].pc.Sent? {
      CanReachSelect(cfg, s, k);
    }
    s2 := CanMeet(cfg, s1, k, c);
  }

  lemma CanReachSelect(cfg: Config, s: State, k: Key)
    requires At(s, k, Sent) && !s.calls[k].onlyCall
    ensures Next(cfg, s, SetPc(s, k, Selecting))
  {
    hide SetPc;
    var s1 := SetPc(s, k, Selecting);
    assert CallerStep(cfg, s, s1, AReachSelect(k));
    assert Step(cfg, s, s1, ByCaller(AReachSelect(k)));
  }

  lemma CanMeet(cfg: Config, s: State, k: Key, c: Conn) returns (s': State)
    requires At(s, k, Selecting) && SendingTo(s, c, k) && s.handlers[c].i < |s.deliveries|
    ensures Next(cfg, s, s') && c in s'.handlers && s'.handlers[c] == Unlocking
  {
    s' := s.(calls := s.calls[k := s.calls[k].(pc := Received, got := Some(s.handlers[c].i))],
             handlers := s.handlers[c := Unlocking],
             deliveries := s.deliveries[s.handlers[c].i := Spent]);
    assert CallerStep(cfg, s, s', ARendezvous(k, c));
    assert Step(cfg, s, s', ByCaller(ARendezvous(k, c)));
  }

  /** In every continuation of the run, handler c stays where it is now. */
  ghost predicate BlockedForGood(cfg: Config, run: seq<State>, c: Conn, h: HandlerPc) {
    forall more: seq<State>, j: nat :: Run(cfg, run + more) && |run| - 1 <= j < |run + more| ==>
      c in (run + more)[j].handlers && (run + more)[j].handlers[c] == h
  }

  /**
   * The client's deadlock, exactly: a handler blocked in its send, holding the read lock, never gets
   * any further if and only if the call it sends to has already picked its timeout.
   */
  lemma DeadlockExactly(cfg: Config, run: seq<State>, c: Conn)
    requires Run(cfg, run)
    requires var s := run[|run| - 1]; c in s.handlers && c.Dialled? && s.handlers[c].Sending?
    ensures var s := run[|run| - 1];
            BlockedForGood(cfg, run, c, s.handlers[c]) <==> At(s, Target(c, s.handlers[c].resp), TimedOut)
  {
    var s := run[|run| - 1];
    hide Run; hide BlockedForGood;
    if At(s, Target(c, s.handlers[c].resp), TimedOut) {
      StaysBlocked(cfg, run, c, s.handlers[c]);
    } else {
      GetsFree(cfg, run, c, s.handlers[c]);
    }
  }

  lemma StaysBlocked(cfg: Config, run: seq<State>, c: Conn, h: HandlerPc)
    requires |run| > 0 && Stuck(run[|run| - 1], c, h)
    ensures BlockedForGood(cfg, run, c, h)
  {
    var last := |run| - 1;
    hide Run;
    forall more: seq<State>, j: nat | Run(cfg, run + more) && last <= j < |run + more|
      ensures c in (run + more)[j].handlers && (run + more)[j].handlers[c] == h
    {
      TimedOutTargetBlocksForever(cfg, run + more, last, j, c, h);
    }
  }

  lemma GetsFree(cfg: Config, run: seq<State>, c: Conn, h: HandlerPc)
    requires Run(cfg, run) && |run| > 0
    requires var s := run[|run| - 1];
             c in s.handlers && s.handlers[c] == h && c.Dialled? && h.Sending? && !Stuck(s, c, h)
    ensures !BlockedForGood(cfg, run, c, h)
  {
    hide Run; hide Inv; hide Next; hide Stuck;
    var more := GoesOn(cfg, run, c);
    assert (run + more)[|run + more| - 1].handlers[c] == Unlocking;
  }

  lemma GoesOn(cfg: Config, run: seq<State>, c: Conn) returns (more: seq<State>)
    requires Run(cfg, run) && |run| > 0
    requires var s := run[|run| - 1];
             c in s.handlers && c.Dialled? && s.handlers[c].Sending? && !Stuck(s, c, s.handlers[c])
    ensures var all := run + more;
            Run(cfg, all) && c in all[|all| - 1].handlers && all[|all| - 1].handlers[c] == Unlocking
  {
    hide *;
    RunKeepsInv(cfg, run, |run| - 1);
    var s1, s2 := OtherTargetsRelease(cfg, run[|run| - 1], c);
    more := if s1 == run[|run| - 1] then [s2] else [s1, s2];
    RunGoesOn(cfg, run, s1, s2);
  }

  lemma RunGoesOn(cfg: Config, run: seq<State>, s1: State, s2: State)
    requires Run(cfg, run) && (s1 == run[|run| - 1] || Next(cfg, run[|run| - 1], s1)) && Next(cfg, s1, s2)
    ensures Run(cfg, run + if s1 == run[|run| - 1] then [s2] else [s1, s2])
  {
    hide Next; hide Init;
  }

  // ----- the reply ledger

  /** No frame is answered twice. */
  lemma AtMostOneReply(cfg: Config, run: seq<State>, t: nat, i: nat, j: nat)
    requires Run(cfg, run) && t < |run| && i < |run[t].replies| && j < |run[t].replies|
    requires run[t].replies[i].frame == run[t].replies[j].frame
    ensures i == j
  {
    hide Run; hide DecodeRequest; hide DecodeResponse;
    hide CallsInv; hide ItemInv; hide WorkersInv; hide HandlersInv; hide GotInv;
    hide ReplyOk; hide Owed; hide FateSound;
    RunKeepsInv(cfg, run, t);
  }

  /** Every reply goes to its frame's own connection with the request's own Sid and headers. */
  lemma ReplyMatchesRequest(cfg: Config, run: seq<State>, t: nat, i: nat)
    requires Run(cfg, run) && t < |run| && i < |run[t].replies|
    ensures var r := run[t].replies[i];
            && r.frame < |run[t].frames| && r.conn == run[t].frames[r.frame].conn
            && match (DecodeRequest(run[t].frames[r.frame].payload), DecodeResponse(r.payload))
               case (Some(msg), Some(resp)) => resp.sid == msg.sid && resp.headers == msg.headers && resp.unknown == []
               case _ => false
  {
    hide Run; hide DecodeRequest; hide DecodeResponse;
    hide CallsInv; hide ItemInv; hide WorkersInv; hide HandlersInv; hide GotInv;
    RunKeepsInv(cfg, run, t);
    var s := run[t];
    assert ReplyOk(cfg, s.frames, Settled(s.stages, s.workers, s.replies[i].frame).value, s.execs, s.replies[i]);
  }

  predicate Answered(s: State, f: nat) {
    exists i :: 0 <= i < |s.replies| && s.replies[i].frame == f
  }

  predicate NotExecuted(s: State, f: nat) {
    forall e :: 0 <= e < |s.execs| ==> s.execs[e].frame != f
  }

  /** Execution e, and no other, ran frame f, with this result. */
  predicate OnlyExecution(s: State, f: nat, e: nat, result: CallResult) {
    && e < |s.execs| && s.execs[e].frame == f && s.execs[e].result == result
    && forall x :: 0 <= x < |s.execs| && s.execs[x].frame == f ==> x == e
  }

  /** What has happened to a frame with this fate. */
  predicate Happened(cfg: Config, s: State, f: nat, payload: bytes, fate: Fate) {
    match DecodeRequest(payload)
    case None => fate.Undecodable? && NotExecuted(s, f)
    case Some(msg) =>
      match fate
      case Undecodable => false
      case Refused => NotExecuted(s, f)
      case Unregistered => RpcId(msg) !in cfg.table && NotExecuted(s, f)
      case Limited => RpcId(msg) in cfg.table && NotExecuted(s, f)
      case LimiterPanicked => RpcId(msg) in cfg.table && NotExecuted(s, f)
      case CallFailed(e) => RpcId(msg) in cfg.table && OnlyExecution(s, f, e, CallResult.Error)
      case CallPanicked(e) => RpcId(msg) in cfg.table && OnlyExecution(s, f, e, CallResult.Panic)
      case Succeeded(e, ret) => RpcId(msg) in cfg.table && OnlyExecution(s, f, e, CallResult.Ok(ret))
  }

  /** The answer to f, if there is one, is due; and there is one if it is due and fits a frame. */
  ghost predicate AnsweredBy(s: State, f: nat, due: Option<Response>) {
    && (Answered(s, f) <==> due.Some? && FitsFrame(due.value))
    && forall i :: 0 <= i < |s.replies| && s.replies[i].frame == f ==> DecodeResponse(s.replies[i].payload) == due
  }

  /**
   * The fate of a frame the server is done with tells what happened: it ran exactly once, or it was
   * refused, undecodable, unregistered, limited, or met a limiter that panicked, and never ran. It has
   * been answered exactly when its fate makes a reply due and that reply fits a frame.
   */
  lemma ReplyLedger(cfg: Config, run: seq<State>, t: nat, f: nat, fate: Fate)
    requires Run(cfg, run) && t < |run| && f < |run[t].frames| == |run[t].stages| && run[t].stages[f] == Done(fate)
    ensures Happened(cfg, run[t], f, run[t].frames[f].payload, fate)
    ensures match DecodeRequest(run[t].frames[f].payload)
            case None => !Answered(run[t], f)
            case Some(msg) => AnsweredBy(run[t], f, ReplyDue(msg, fate))
  {
    hide Run; hide Inv; hide Happened; hide AnsweredBy; hide Answered; hide DecodeRequest; hide ReplyDue;
    RunKeepsInv(cfg, run, t);
    RunKeepsExecs(cfg, run, t);
    FateTellsAll(cfg, run[t], f, fate);
    LedgerTellsAll(cfg, run[t], f, fate);
  }

  lemma LedgerTellsAll(cfg: Config, s: State, f: nat, fate: Fate)
    requires Inv(cfg, s) && f < |s.frames| == |s.stages| && s.stages[f] == Done(fate)
    ensures match DecodeRequest(s.frames[f].payload)
            case None => !Answered(s, f)
            case Some(msg) => AnsweredBy(s, f, ReplyDue(msg, fate))
  {
    hide DecodeRequest; hide DecodeResponse; hide RpcId; hide ReplyDue; hide FitsFrame; hide FateSound; hide FateOk;
    hide CallsInv; hide ItemInv; hide WorkersInv; hide HandlersInv; hide GotInv; hide RecvInv; hide QueueInv;
    assert Settled(s.stages, s.workers, f) == Some(fate);
    if f in s.replyOf {
      var i := s.replyOf[f];
      assert s.replies[i].frame == f;
      assert ReplyOk(cfg, s.frames, fate, s.execs, s.replies[i]);
    } else {
      assert forall i :: 0 <= i < |s.replies| ==> s.replies[i].frame != f;
    }
    forall i | 0 <= i < |s.replies| && s.replies[i].frame == f
      ensures ReplyOk(cfg, s.frames, fate, s.execs, s.replies[i])
    {
    }
  }

  lemma FateTellsAll(cfg: Config, s: State, f: nat, fate: Fate)
    requires Inv(cfg, s) && ExecsInv(s) && f < |s.frames| == |s.stages| && s.stages[f] == Done(fate)
    ensures Happened(cfg, s, f, s.frames[f].payload, fate)
  {
    hide DecodeRequest; hide RpcId; hide Inv; hide FateSound;
    FateIsSound(cfg, s, f, fate);
    ExecutionsOf(s, f, fate);
    hide ExecsInv;
    SoundFateTellsAll(cfg, s, f, fate);
  }

  lemma ExecutionsOf(s: State, f: nat, fate: Fate)
    requires ExecsInv(s) && f < |s.stages| && s.stages[f] == Done(fate)
    ensures forall e :: 0 <= e < |s.execs| && s.execs[e].frame == f ==> fate == FateOf(e, s.execs[e].result)
  {
    assert FateNow(s, f) == Some(fate);
  }

  lemma SoundFateTellsAll(cfg: Config, s: State, f: nat, fate: Fate)
    requires f < |s.frames| && FateSound(cfg, f, s.frames[f].payload, fate, s.execs)
    requires forall e :: 0 <= e < |s.execs| && s.execs[e].frame == f ==> fate == FateOf(e, s.execs[e].result)
    ensures Happened(cfg, s, f, s.frames[f].payload, fate)
  {
    hide DecodeRequest; hide RpcId;
  }

  lemma FateIsSound(cfg: Config, s: State, f: nat, fate: Fate)
    requires Inv(cfg, s) && f < |s.frames| == |s.stages| && s.stages[f] == Done(fate)
    ensures FateSound(cfg, f, s.frames[f].payload, fate, s.execs)
  {
    hide FateSound; hide ReplyOk; hide Owed;
    hide CallsInv; hide ItemInv; hide WorkersInv; hide HandlersInv; hide GotInv; hide RecvInv; hide QueueInv;
    assert Settled(s.stages, s.workers, f) == Some(fate);
  }

  /** The answer a result of item.Call makes due. */
  function DueAfter(msg: Request, result: CallResult): Option<Response> {
    match result
    case Ok(ret) => if WantsNoReply(msg) then None else Some(Respond(msg, 0, ret))
    case Error => Some(Respond(msg, 505, []))
    case Panic => None
  }

  /**
   * Once the server is done with a frame whose item.Call ran, the frame has its answer: the result,
   * unless the caller wants no reply, or code 505 after an error, and in either case unless the answer
   * does not fit a frame. Only a panic of item.Call, or of Write on such an answer, leaves it without.
   */
  lemma ExecutedIsAnswered(cfg: Config, run: seq<State>, t: nat, e: nat)
    requires Run(cfg, run) && t < |run| && e < |run[t].execs|
    requires var f := run[t].execs[e].frame; f < |run[t].stages| && run[t].stages[f].Done?
    ensures var s, f := run[t], run[t].execs[e].frame;
            && f < |s.frames|
            && match DecodeRequest(s.frames[f].payload)
               case None => false
               case Some(msg) =>
                 && RpcId(msg) in cfg.table && s.execs[e].item == cfg.table[RpcId(msg)]
                 && s.execs[e].packet == msg.packet
                 && AnsweredBy(s, f, DueAfter(msg, s.execs[e].result))
  {
    hide Run; hide Inv; hide AnsweredBy; hide Answered; hide DecodeRequest; hide RpcId; hide Respond; hide WantsNoReply;
    RunKeepsInv(cfg, run, t);
    RunKeepsExecs(cfg, run, t);
    var s, f := run[t], run[t].execs[e].frame;
    SameCount(cfg, s);
    var fate := s.stages[f].fate;
    assert FateNow(s, f) == Some(FateOf(e, s.execs[e].result));
    FateIsSound(cfg, s, f, fate);
    LedgerTellsAll(cfg, s, f, fate);
  }

  lemma SameCount(cfg: Config, s: State)
    requires Inv(cfg, s)
    ensures |s.frames| == |s.stages|
  {
    hide CallsInv; hide ItemInv; hide WorkersInv; hide HandlersInv; hide GotInv; hide LedgerInv; hide QueueInv;
  }

  // ----- admission and counters

  /**
   * The requests past the check but not yet pushed always find room beside those in the channel, if
   * at most ten connections are open; with a channel smaller than ten nothing gets past the check.
   */
  lemma AdmittedFit(cfg: Config, run: seq<State>, i: nat, c: Conn)
    requires Run(cfg, run) && i < |run| && (cfg.capacity < 10 || cfg.maxConns <= 10)
    requires c in run[i].recv && run[i].recv[c].Passed?
    ensures CanPush(cfg, run[i])
    ensures |run[i].reqCh| + |PassedConns(run[i].recv)| <= cfg.capacity
  {
    hide Run; hide CallsInv; hide WorkersInv; hide HandlersInv; hide GotInv; hide LedgerInv; hide FramesInv;
    hide ItemInv;
    RunKeepsInv(cfg, run, i);
    var passed := PassedConns(run[i].recv);
    assert c in passed;
    assert |passed| >= 1;
  }

  /** reqs is the number of workers between incReq and decReq; conns the number of open connections. */
  lemma CountersExact(cfg: Config, run: seq<State>, i: nat)
    requires Run(cfg, run) && i < |run|
    ensures run[i].reqs == |BusyWorkers(run[i].workers)| && 0 <= run[i].reqs <= |run[i].workers|
    ensures run[i].conns == |run[i].recv|
  {
    hide Run; hide CallsInv; hide WorkersInv; hide HandlersInv; hide GotInv; hide LedgerInv; hide FramesInv;
    hide ItemInv;
    RunKeepsInv(cfg, run, i);
    assert BusyWorkers(run[i].workers) <= run[i].workers.Keys;
    SubsetSize(BusyWorkers(run[i].workers), run[i].workers.Keys);
  }
}
