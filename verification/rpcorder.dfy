/** Two orders the protocol keeps: Sids are counted without gaps, and the request channel is first in, first out. */
module RpcOrder {
  import opened Bytes
  import opened Packets
  import opened Rpc
  import opened RpcInvariants
  import opened RpcSteps
  import opened RpcExecutions
  import opened RpcTheorems

  // ----- Sids

  ghost predicate HasCall(calls: map<Key, Call>, process: nat, sid: int) {
    exists k :: k in calls && k.pool.process == process && k.sid == sid
  }

  /** The calls of a process, whatever their pools, have the Sids 1 to its counter, each once. */
  ghost predicate SidsInv(counters: map<nat, int>, calls: map<Key, Call>) {
    && (forall p: nat, sid :: 1 <= sid <= Counter(counters, p) ==> HasCall(calls, p, sid))
    && (forall k :: k in calls ==> 1 <= k.sid <= Counter(counters, k.pool.process))
    && forall k, l :: k in calls && l in calls && k.pool.process == l.pool.process && k.sid == l.sid ==> k == l
  }

  predicate SameCallers(s: State, s': State) {
    s'.counters == s.counters && s'.calls.Keys == s.calls.Keys
  }

  lemma SameCallersKeepSids(s: State, s': State)
    requires SidsInv(s.counters, s.calls) && SameCallers(s, s')
    ensures SidsInv(s'.counters, s'.calls)
  {
    assert forall k :: k in s'.calls <==> k in s.calls;
    forall p: nat, sid | 1 <= sid <= Counter(s'.counters, p) ensures HasCall(s'.calls, p, sid) {
      assert HasCall(s.calls, p, sid);
      var k :| k in s.calls && k.pool.process == p && k.sid == sid;
      assert k in s'.calls;
    }
  }

  lemma NewCallKeepsSids(s: State, s': State, k: Key, c: Call)
    requires SidsInv(s.counters, s.calls) && NewCall(s, s', k, c) && Counter(s.counters, k.pool.process) >= 0
    ensures SidsInv(s'.counters, s'.calls)
  {
    assert k !in s.calls;
    forall p: nat, sid | 1 <= sid <= Counter(s'.counters, p) ensures HasCall(s'.calls, p, sid) {
      if p == k.pool.process && sid == k.sid {
        assert k in s'.calls;
      } else {
        assert HasCall(s.calls, p, sid);
        var l :| l in s.calls && l.pool.process == p && l.sid == sid;
        assert l in s'.calls;
      }
    }
  }

  lemma CallerKeepsCallers(cfg: Config, s: State, s': State, a: CallerAction)
    requires CallerStep(cfg, s, s', a) && !a.ANewCall?
    ensures SameCallers(s, s')
  {
    hide Deferred; hide Rendezvous; hide LockTimeout; hide LockReply; hide Write;
    match a
    case AWrite(k, payload) => WriteKeepsCallers(cfg, s, s', k, payload);
    case ALockTimeout(k) => LockTimeoutKeepsCallers(s, s', k);
    case ALockReply(k) => LockReplyKeepsCallers(s, s', k);
    case ARendezvous(k, c) => RendezvousKeepsCallers(s, s', k, c);
    case ADeferred(k, sender) => DeferredKeepsCallers(s, s', k, sender);
    case _ =>
  }

  lemma WriteKeepsCallers(cfg: Config, s: State, s': State, k: Key, payload: bytes)
    requires Write(cfg, s, s', k, payload)
    ensures SameCallers(s, s')
  {
    hide EncodesRequest; hide RequestFor;
  }

  lemma LockTimeoutKeepsCallers(s: State, s': State, k: Key)
    requires LockTimeout(s, s', k)
    ensures SameCallers(s, s')
  {
    hide NoReaders;
  }

  lemma LockReplyKeepsCallers(s: State, s': State, k: Key)
    requires LockReply(s, s', k)
    ensures SameCallers(s, s')
  {
    hide NoReaders;
  }

  lemma RendezvousKeepsCallers(s: State, s': State, k: Key, c: Conn)
    requires Rendezvous(s, s', k, c)
    ensures SameCallers(s, s')
  {
    hide SendingTo;
  }

  lemma DeferredKeepsCallers(s: State, s': State, k: Key, sender: Option<Conn>)
    requires Deferred(s, s', k, sender)
    ensures SameCallers(s, s')
  {
    hide SendingTo;
  }

  lemma HandlerKeepsCallers(cfg: Config, s: State, s': State, a: HandlerAction)
    requires HandlerStep(cfg, s, s', a)
    ensures SameCallers(s, s')
  {
    hide Deliver; hide Lookup; hide TestChannel; hide Open;
    match a
    case ADeliver(c, i) => DeliverKeepsCallers(s, s', c, i);
    case ALookup(c) => LookupKeepsCallers(s, s', c);
    case ATestChannel(c, sender) => TestKeepsCallers(s, s', c, sender);
    case AOpen(c) => OpenKeepsCallers(cfg, s, s', c);
    case _ =>
  }

  lemma DeliverKeepsCallers(s: State, s': State, c: Conn, i: nat)
    requires Deliver(s, s', c, i)
    ensures SameCallers(s, s')
  {
    hide DecodeResponse;
  }

  lemma LookupKeepsCallers(s: State, s': State, c: Conn)
    requires Lookup(s, s', c)
    ensures SameCallers(s, s')
  {
  }

  lemma TestKeepsCallers(s: State, s': State, c: Conn, sender: Option<Conn>)
    requires TestChannel(s, s', c, sender)
    ensures SameCallers(s, s')
  {
    hide SendingTo; hide Woken;
  }

  lemma OpenKeepsCallers(cfg: Config, s: State, s': State, c: Conn)
    requires Open(cfg, s, s', c)
    ensures SameCallers(s, s')
  {
  }

  lemma SameClientsSameCallers(s: State, s': State)
    requires SameClients(s, s')
    ensures SameCallers(s, s')
  {
  }

  lemma StepKeepsSids(cfg: Config, s: State, s': State, a: Action)
    requires Inv(cfg, s) && SidsInv(s.counters, s.calls) && Step(cfg, s, s', a)
    ensures SidsInv(s'.counters, s'.calls)
  {
    if a.ByCaller? && a.c.ANewCall? {
      CounterAtLeastZero(cfg, s, a.c.k.pool.process);
      hide Inv; hide SidsInv; hide NewCall;
      NewCallKeepsSids(s, s', a.c.k, a.c.call);
    } else {
      hide Inv; hide SidsInv; hide CallerStep; hide HandlerStep; hide ServerStep;
      hide SameCallers; hide SameClients;
      match a {
        case ByCaller(x) => CallerKeepsCallers(cfg, s, s', x);
        case ByHandler(x) => HandlerKeepsCallers(cfg, s, s', x);
        case ByServer(x) => ServerLeavesClients(cfg, s, s', x); SameClientsSameCallers(s, s');
      }
      SameCallersKeepSids(s, s');
    }
  }

  lemma CounterAtLeastZero(cfg: Config, s: State, process: nat)
    requires Inv(cfg, s)
    ensures Counter(s.counters, process) >= 0
  {
    hide ItemInv; hide FramesInv; hide RecvInv; hide QueueInv; hide WorkersInv; hide LedgerInv; hide HandlersInv;
    hide GotInv; hide CountInv; hide ReqsInv; hide CallOk;
  }

  /**
   * The calls a process has begun, through any of its pools, have Sids 1, 2, 3 and so on up to its
   * counter; no two have the same.
   */
  lemma {:induction false} SidsAreCounted(cfg: Config, run: seq<State>, i: nat)
    requires Run(cfg, run) && i < |run|
    ensures SidsInv(run[i].counters, run[i].calls)
  {
    hide SidsInv; hide Inv; hide Step;
    if i == 0 {
      NoSidsYet(run[0]);
    } else {
      SidsAreCounted(cfg, run, i - 1);
      RunKeepsInv(cfg, run, i - 1);
      assert Next(cfg, run[i - 1], run[i]);
      var a :| Step(cfg, run[i - 1], run[i], a);
      StepKeepsSids(cfg, run[i - 1], run[i], a);
    }
  }

  lemma NoSidsYet(s: State)
    requires Init(s)
    ensures SidsInv(s.counters, s.calls)
  {
  }

  // ----- the request channel

  predicate Before(q: seq<nat>, f: nat, g: nat) {
    exists i, j :: 0 <= i < j < |q| && q[i] == f && q[j] == g
  }

  /** Frame f has been taken out of the channel. */
  predicate Left(s: State, f: nat) {
    f < |s.stages| && (s.stages[f].AtWorker? || s.stages[f].Done?)
  }

  /** Frame f has been received. */
  predicate Started(s: State, f: nat) { f < |s.stages| && !s.stages[f].OnWire? }

  predicate Sized(payload: bytes) { 1 <= |payload| <= 0x10_0000 }

  /**
   * What one step may do to the channel: nothing, one more at the end, or the first one taken. And the
   * frames it receives have a size that may be received.
   */
  ghost predicate ChannelMoves(cfg: Config, s: State, s': State) {
    && s.frames <= s'.frames
    && (forall f: nat :: Started(s', f) ==> Started(s, f) || (f < |s.frames| && Sized(s.frames[f].payload)))
    && (forall f: nat :: Left(s, f) ==> Left(s', f))
    && (|| s'.reqCh == s.reqCh
        || (|s.reqCh| < cfg.capacity && exists f :: s'.reqCh == s.reqCh + [f])
        || (s.reqCh != [] && s'.reqCh == s.reqCh[1..] && Left(s', s.reqCh[0])))
  }

  lemma SameServerMovesNothing(cfg: Config, s: State, s': State)
    requires SameServer(s, s')
    ensures ChannelMoves(cfg, s, s')
  {
    forall f: nat | Left(s, f) ensures Left(s', f) {
      assert s'.stages[f] == s.stages[f];
    }
    forall f: nat | Started(s', f) ensures Started(s, f) {
      if f < |s.stages| { assert s'.stages[f] == s.stages[f]; }
    }
  }

  lemma ServerMovesChannel(cfg: Config, s: State, s': State, a: ServerAction)
    requires Inv(cfg, s) && ServerStep(cfg, s, s', a)
    ensures ChannelMoves(cfg, s, s')
  {
    hide Inv; hide ChannelMoves; hide Left;
    hide Refuse; hide RefusePanics; hide LookUpHandler; hide Answer; hide AnswerPanics; hide Invoke; hide Push;
    hide Take;
    match a
    case AReceive(f) => StageChanges(cfg, s, s', f);
    case APush(c) => PushMoves(cfg, s, s', c);
    case ARefuse(c, payload) => RefuseMoves(cfg, s, s', c, payload);
    case ARefusePanics(c) => RefusePanicsMoves(cfg, s, s', c);
    case ATake(w) => TakeMoves(cfg, s, s', w);
    case ALookUpHandler(w) => LookUpMoves(cfg, s, s', w);
    case AIncReq(w) => StageStays(cfg, s, s');
    case ALimit(w) => StageStays(cfg, s, s');
    case ALimiterPanics(w) => StageStays(cfg, s, s');
    case AInvoke(w, result) => InvokeMoves(cfg, s, s', w, result);
    case AAnswer(w, payload) => AnswerMoves(cfg, s, s', w, payload);
    case AAnswerPanics(w) => AnswerPanicsMoves(cfg, s, s', w);
    case ADecReq(w) => WorkerFrame(cfg, s, w); StageChanges(cfg, s, s', s.workers[w].f);
  }

  lemma StageStays(cfg: Config, s: State, s': State)
    requires s'.frames == s.frames && s'.stages == s.stages && s'.reqCh == s.reqCh
    ensures ChannelMoves(cfg, s, s')
  {
  }

  lemma StageChanges(cfg: Config, s: State, s': State, f: nat)
    requires s'.frames == s.frames && s'.reqCh == s.reqCh
    requires f < |s.stages| == |s'.stages| && s'.stages == s.stages[f := s'.stages[f]]
    requires if s.stages[f].OnWire? then f < |s.frames| && Sized(s.frames[f].payload) else s'.stages[f].Done?
    ensures ChannelMoves(cfg, s, s')
  {
  }

  lemma PushMoves(cfg: Config, s: State, s': State, c: Conn)
    requires Inv(cfg, s) && Push(cfg, s, s', c)
    ensures ChannelMoves(cfg, s, s')
  {
    hide Inv;
    RecvFrame(cfg, s, c);
    assert s'.reqCh == s.reqCh + [s.recv[c].f];
  }

  lemma TakeMoves(cfg: Config, s: State, s': State, w: nat)
    requires Inv(cfg, s) && Take(s, s', w)
    ensures ChannelMoves(cfg, s, s')
  {
    QueuedStarted(cfg, s, 0);
    hide Inv;
  }

  lemma QueuedStarted(cfg: Config, s: State, i: nat)
    requires Inv(cfg, s) && i < |s.reqCh|
    ensures Started(s, s.reqCh[i])
  {
    hide CallsInv; hide ItemInv; hide FramesInv; hide RecvInv; hide WorkersInv; hide LedgerInv; hide HandlersInv;
    hide GotInv; hide CountInv; hide ReqsInv;
  }

  lemma RefuseMoves(cfg: Config, s: State, s': State, c: Conn, payload: bytes)
    requires Inv(cfg, s) && Refuse(s, s', c, payload)
    ensures ChannelMoves(cfg, s, s')
  {
    hide Inv; hide DecodeRequest; hide EncodesResponse; hide FitsFrame; hide Respond; hide ChannelMoves; hide Started;
    hide Replied;
    var f := s.recv[c].f;
    assert Started(s, f) by { ReceivedStarted(cfg, s, c); }
    match DecodeRequest(s.frames[f].payload)
    case None => RefusedMoves(cfg, s, c, f, Undecodable, payload);
    case Some(msg) => RefusedMoves(cfg, s, c, f, Fate.Refused, payload);
  }

  lemma RefusedMoves(cfg: Config, s: State, c: Conn, f: nat, fate: Fate, payload: bytes)
    requires Started(s, f) && f < |s.frames|
    ensures var s1 := s.(recv := s.recv[c := Reading]);
            && ChannelMoves(cfg, s, s1.(stages := s.stages[f := Done(fate)]))
            && ChannelMoves(cfg, s, Replied(s1, f, payload).(stages := s.stages[f := Done(fate)]))
  {
    hide ChannelMoves;
    var s1 := s.(recv := s.recv[c := Reading]);
    StageChanges(cfg, s, s1.(stages := s.stages[f := Done(fate)]), f);
    StageChanges(cfg, s, Replied(s1, f, payload).(stages := s.stages[f := Done(fate)]), f);
  }

  lemma ReceivedStarted(cfg: Config, s: State, c: Conn)
    requires Inv(cfg, s) && c in s.recv && !s.recv[c].Reading?
    ensures Started(s, s.recv[c].f)
  {
    RecvFrame(cfg, s, c);
    hide Inv;
  }

  lemma WorkerStarted(cfg: Config, s: State, w: nat)
    requires Inv(cfg, s) && w in s.workers && !s.workers[w].Idle?
    ensures Started(s, s.workers[w].f)
  {
    WorkerFrame(cfg, s, w);
    hide Inv;
  }

  lemma RefusePanicsMoves(cfg: Config, s: State, s': State, c: Conn)
    requires Inv(cfg, s) && RefusePanics(s, s', c)
    ensures ChannelMoves(cfg, s, s')
  {
    RecvFrame(cfg, s, c);
    hide Inv; hide DecodeRequest; hide FitsFrame; hide Respond; hide ChannelMoves;
    StageChanges(cfg, s, s', s.recv[c].f);
  }

  lemma LookUpMoves(cfg: Config, s: State, s': State, w: nat)
    requires Inv(cfg, s) && LookUpHandler(cfg, s, s', w)
    ensures ChannelMoves(cfg, s, s')
  {
    hide Inv; hide DecodeRequest; hide RpcId; hide ChannelMoves; hide Drop; hide Started;
    var f := s.workers[w].f;
    WorkerStarted(cfg, s, w);
    match DecodeRequest(s.frames[f].payload)
    case None => DropMoves(cfg, s, w, f, Undecodable);
    case Some(msg) =>
      if RpcId(msg) in cfg.table {
        LookedMoves(cfg, s, w, Looked(f, msg));
      } else {
        DropMoves(cfg, s, w, f, Unregistered);
      }
  }

  lemma LookedMoves(cfg: Config, s: State, w: nat, p: WorkerPc)
    ensures ChannelMoves(cfg, s, s.(workers := s.workers[w := p]))
  {
    hide ChannelMoves;
    StageStays(cfg, s, s.(workers := s.workers[w := p]));
  }

  lemma DropMoves(cfg: Config, s: State, w: nat, f: nat, fate: Fate)
    requires Started(s, f)
    ensures ChannelMoves(cfg, s, Drop(s, w, f, fate))
  {
    hide ChannelMoves;
    StageChanges(cfg, s, Drop(s, w, f, fate), f);
  }

  lemma InvokeMoves(cfg: Config, s: State, s': State, w: nat, result: CallResult)
    requires Invoke(cfg, s, s', w, result)
    ensures ChannelMoves(cfg, s, s')
  {
    hide AfterCall; hide RpcId; hide ChannelMoves;
    StageStays(cfg, s, s');
  }

  lemma AnswerMoves(cfg: Config, s: State, s': State, w: nat, payload: bytes)
    requires Answer(s, s', w, payload)
    ensures ChannelMoves(cfg, s, s')
  {
    hide EncodesResponse; hide FitsFrame; hide ChannelMoves;
    StageStays(cfg, s, s');
  }

  lemma AnswerPanicsMoves(cfg: Config, s: State, s': State, w: nat)
    requires AnswerPanics(s, s', w)
    ensures ChannelMoves(cfg, s, s')
  {
    hide FitsFrame; hide ChannelMoves;
    StageStays(cfg, s, s');
  }

  lemma StepMovesChannel(cfg: Config, s: State, s': State, a: Action)
    requires Inv(cfg, s) && Step(cfg, s, s', a)
    ensures ChannelMoves(cfg, s, s')
  {
    hide Inv; hide CallerStep; hide HandlerStep; hide ServerStep; hide SameServer; hide ChannelMoves;
    match a
    case ByCaller(x) => CallerLeavesServer(cfg, s, s', x); SameServerMovesNothing(cfg, s, s');
    case ByHandler(x) => HandlerLeavesServer(cfg, s, s', x); SameServerMovesNothing(cfg, s, s');
    case ByServer(x) => ServerMovesChannel(cfg, s, s', x);
  }

  /** f is still ahead of g in the channel, or has left it. */
  predicate Ahead(s: State, f: nat, g: nat) { Before(s.reqCh, f, g) || Left(s, f) }

  lemma StaysAhead(cfg: Config, s: State, s': State, f: nat, g: nat)
    requires ChannelMoves(cfg, s, s') && Ahead(s, f, g)
    ensures Ahead(s', f, g)
  {
    hide Left;
    if !Left(s, f) {
      var q, q' := s.reqCh, s'.reqCh;
      var i, j :| 0 <= i < j < |q| && q[i] == f && q[j] == g;
      if q' == q {
      } else if q != [] && q' == q[1..] && Left(s', q[0]) {
        if i > 0 { assert q'[i - 1] == f && q'[j - 1] == g; }
      } else {
        assert q'[i] == f && q'[j] == g;
      }
    }
  }

  lemma {:induction false} AheadForGood(cfg: Config, run: seq<State>, i: nat, j: nat, f: nat, g: nat)
    requires Run(cfg, run) && i <= j < |run| && Ahead(run[i], f, g)
    ensures Ahead(run[j], f, g)
    decreases j - i
  {
    hide Inv; hide Step; hide Ahead;
    if i < j {
      AheadForGood(cfg, run, i, j - 1, f, g);
      RunKeepsInv(cfg, run, j - 1);
      assert Next(cfg, run[j - 1], run[j]);
      var a :| Step(cfg, run[j - 1], run[j], a);
      StepMovesChannel(cfg, run[j - 1], run[j], a);
      StaysAhead(cfg, run[j - 1], run[j], f, g);
    }
  }

  /** A frame that is behind another one in the channel is never taken before it. */
  lemma FirstInFirstOut(cfg: Config, run: seq<State>, i: nat, j: nat, f: nat, g: nat)
    requires Run(cfg, run) && i <= j < |run| && Before(run[i].reqCh, f, g) && Left(run[j], g)
    ensures Left(run[j], f)
  {
    hide Run; hide Inv;
    AheadForGood(cfg, run, i, j, f, g);
    RunKeepsInv(cfg, run, j);
    if !Left(run[j], f) {
      QueuedNotLeft(cfg, run[j], f, g);
    }
  }

  lemma QueuedNotLeft(cfg: Config, s: State, f: nat, g: nat)
    requires Inv(cfg, s) && Before(s.reqCh, f, g)
    ensures !Left(s, g)
  {
    hide CallsInv; hide ItemInv; hide FramesInv; hide RecvInv; hide WorkersInv; hide LedgerInv; hide HandlersInv;
    hide GotInv; hide CountInv; hide ReqsInv;
  }
}
