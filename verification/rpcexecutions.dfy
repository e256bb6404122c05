/** Frames and executions: a second invariant, on top of the first. */
module RpcExecutions {
  import opened Bytes
  import opened Packets
  import opened Rpc
  import opened RpcInvariants
  import opened RpcSteps

  /** The fate of frame f once it is decided, which is when item.Call has run or will not run. */
  function FateNow(s: State, f: nat): Option<Fate>
    requires f < |s.stages|
  {
    match s.stages[f]
    case Done(fate) => Some(fate)
    case AtWorker(w) =>
      if w in s.workers && Decided(s.workers[w]) && s.workers[w].f == f then Some(s.workers[w].fate) else None
    case _ => None
  }

  predicate Decided(p: WorkerPc) { p.Answering? || p.Leaving? }

  /** Each execution has decided the fate of its frame, and no frame has two. */
  predicate ExecsInv(s: State) {
    && (forall e :: 0 <= e < |s.execs| ==>
          && s.execs[e].frame < |s.stages|
          && FateNow(s, s.execs[e].frame) == Some(FateOf(e, s.execs[e].result)))
    && forall e, x :: 0 <= e < x < |s.execs| ==> s.execs[e].frame != s.execs[x].frame
  }

  /** Nothing runs in this step, and what was decided stays so. */
  ghost predicate NothingRuns(s: State, s': State) {
    && s'.execs == s.execs && |s.stages| <= |s'.stages|
    && forall f :: 0 <= f < |s.stages| && FateNow(s, f).Some? ==> FateNow(s', f) == FateNow(s, f)
  }

  /** What callers and reply handlers leave of the server; a new frame is on the wire, a busy connection stays. */
  predicate SameServer(s: State, s': State) {
    && s'.execs == s.execs && s'.workers == s.workers && s'.reqCh == s.reqCh && s'.replies == s.replies
    && s.frames <= s'.frames && s.stages <= s'.stages
    && (forall f :: |s.stages| <= f < |s'.stages| ==> s'.stages[f] == OnWire)
    && forall c :: c in s.recv && !s.recv[c].Reading? ==> c in s'.recv && s'.recv[c] == s.recv[c]
  }

  lemma SameServerRunsNothing(s: State, s': State)
    requires SameServer(s, s')
    ensures NothingRuns(s, s')
  {
    forall f | 0 <= f < |s.stages| ensures FateNow(s', f) == FateNow(s, f) {
      assert s'.stages[f] == s.stages[f];
    }
  }

  lemma CallerLeavesServer(cfg: Config, s: State, s': State, a: CallerAction)
    requires CallerStep(cfg, s, s', a)
    ensures SameServer(s, s')
  {
    hide Deferred; hide Rendezvous; hide LockTimeout; hide LockReply; hide Write;
    match a
    case AWrite(k, payload) => WriteLeavesServer(cfg, s, s', k, payload);
    case ALockTimeout(k) => LockTimeoutLeavesServer(s, s', k);
    case ALockReply(k) => LockReplyLeavesServer(s, s', k);
    case ARendezvous(k, c) => RendezvousLeavesServer(s, s', k, c);
    case ADeferred(k, sender) => DeferredLeavesServer(s, s', k, sender);
    case _ =>
  }

  lemma WriteLeavesServer(cfg: Config, s: State, s': State, k: Key, payload: bytes)
    requires Write(cfg, s, s', k, payload)
    ensures SameServer(s, s')
  {
    hide EncodesRequest; hide RequestFor;
  }

  lemma LockTimeoutLeavesServer(s: State, s': State, k: Key)
    requires LockTimeout(s, s', k)
    ensures SameServer(s, s')
  {
    hide NoReaders;
  }

  lemma LockReplyLeavesServer(s: State, s': State, k: Key)
    requires LockReply(s, s', k)
    ensures SameServer(s, s')
  {
    hide NoReaders;
  }

  lemma RendezvousLeavesServer(s: State, s': State, k: Key, c: Conn)
    requires Rendezvous(s, s', k, c)
    ensures SameServer(s, s')
  {
    hide SendingTo;
  }

  lemma DeferredLeavesServer(s: State, s': State, k: Key, sender: Option<Conn>)
    requires Deferred(s, s', k, sender)
    ensures SameServer(s, s')
  {
    hide SendingTo;
  }

  lemma HandlerLeavesServer(cfg: Config, s: State, s': State, a: HandlerAction)
    requires HandlerStep(cfg, s, s', a)
    ensures SameServer(s, s')
  {
    hide Deliver; hide Lookup; hide TestChannel; hide Open;
    match a
    case ADeliver(c, i) => DeliverLeavesServer(s, s', c, i);
    case ALookup(c) => LookupLeavesServer(s, s', c);
    case ATestChannel(c, sender) => TestLeavesServer(s, s', c, sender);
    case AOpen(c) => OpenLeavesServer(cfg, s, s', c);
    case _ =>
  }

  lemma DeliverLeavesServer(s: State, s': State, c: Conn, i: nat)
    requires Deliver(s, s', c, i)
    ensures SameServer(s, s')
  {
    hide DecodeResponse; hide SameServer;
    match DecodeResponse(s.replies[i].payload)
    case None => ClientsOnly(s, s.handlers, s.deliveries[i := Spent]);
    case Some(resp) =>
      ClientsOnly(s, s.handlers, s.deliveries[i := Spent]);
      ClientsOnly(s, s.handlers[c := Decoded(i, resp)], s.deliveries[i := AtHandler]);
  }

  lemma ClientsOnly(s: State, handlers: map<Conn, HandlerPc>, deliveries: seq<Delivery>)
    ensures SameServer(s, s.(deliveries := deliveries))
    ensures SameServer(s, s.(handlers := handlers, deliveries := deliveries))
  {
  }

  lemma LookupLeavesServer(s: State, s': State, c: Conn)
    requires Lookup(s, s', c)
    ensures SameServer(s, s')
  {
  }

  lemma TestLeavesServer(s: State, s': State, c: Conn, sender: Option<Conn>)
    requires TestChannel(s, s', c, sender)
    ensures SameServer(s, s')
  {
    hide SendingTo; hide Woken;
  }

  lemma OpenLeavesServer(cfg: Config, s: State, s': State, c: Conn)
    requires Open(cfg, s, s', c)
    ensures SameServer(s, s')
  {
  }

  lemma ServerRunsNothing(cfg: Config, s: State, s': State, a: ServerAction)
    requires Inv(cfg, s) && ServerStep(cfg, s, s', a) && !a.AInvoke?
    ensures NothingRuns(s, s')
  {
    hide Inv; hide NothingRuns; hide FateNow;
    hide Refuse; hide RefusePanics; hide LookUpHandler; hide Answer; hide AnswerPanics;
    match a
    case AReceive(f) => StageMoves(s, s', f);
    case APush(c) => RecvFrame(cfg, s, c); StageMoves(s, s', s.recv[c].f);
    case ARefuse(c, payload) => RefuseRunsNothing(cfg, s, s', c, payload);
    case ARefusePanics(c) => RefusePanicsRunsNothing(cfg, s, s', c);
    case ATake(w) => TakeRunsNothing(cfg, s, s', w);
    case ALookUpHandler(w) => LookUpRunsNothing(cfg, s, s', w);
    case AIncReq(w) => WorkerMoved(s, s', w);
    case ALimit(w) => WorkerMoved(s, s', w);
    case ALimiterPanics(w) => WorkerMoved(s, s', w);
    case AAnswer(w, payload) => AnswerRunsNothing(s, s', w, payload);
    case AAnswerPanics(w) => AnswerPanicsRunsNothing(s, s', w);
    case ADecReq(w) => DecReqRunsNothing(cfg, s, s', w);
  }

  lemma StageMoves(s: State, s': State, f: nat)
    requires s'.execs == s.execs && s'.workers == s.workers
    requires f < |s.stages| == |s'.stages| && s'.stages == s.stages[f := s'.stages[f]]
    requires s.stages[f].OnWire? || s.stages[f].AtRecv?
    ensures NothingRuns(s, s')
  {
  }

  lemma WorkerMoved(s: State, s': State, w: nat)
    requires s'.execs == s.execs && s'.stages == s.stages && w in s.workers && w in s'.workers
    requires s'.workers == s.workers[w := s'.workers[w]]
    requires Decided(s.workers[w]) ==>
               Decided(s'.workers[w]) && s'.workers[w].f == s.workers[w].f && s'.workers[w].fate == s.workers[w].fate
    ensures NothingRuns(s, s')
  {
  }

  lemma RefuseRunsNothing(cfg: Config, s: State, s': State, c: Conn, payload: bytes)
    requires Inv(cfg, s) && Refuse(s, s', c, payload)
    ensures NothingRuns(s, s')
  {
    hide Inv; hide DecodeRequest; hide EncodesResponse; hide FitsFrame; hide Respond; hide NothingRuns; hide Replied;
    RecvFrame(cfg, s, c);
    var f := s.recv[c].f;
    var s1 := s.(recv := s.recv[c := Reading]);
    match DecodeRequest(s.frames[f].payload)
    case None => StageMoves(s, s1.(stages := s.stages[f := Done(Undecodable)]), f);
    case Some(msg) =>
      RepliedSameServer(s1, f, payload);
      StageMoves(s, Replied(s1, f, payload).(stages := s.stages[f := Done(Fate.Refused)]), f);
  }

  lemma RepliedSameServer(s: State, f: nat, payload: bytes)
    requires f < |s.frames|
    ensures var s' := Replied(s, f, payload); s'.execs == s.execs && s'.workers == s.workers && s'.stages == s.stages
  {
  }

  lemma RefusePanicsRunsNothing(cfg: Config, s: State, s': State, c: Conn)
    requires Inv(cfg, s) && RefusePanics(s, s', c)
    ensures NothingRuns(s, s')
  {
    hide Inv;
    RecvFrame(cfg, s, c);
    hide DecodeRequest; hide FitsFrame; hide Respond; hide NothingRuns;
    StageMoves(s, s', s.recv[c].f);
  }

  lemma TakeRunsNothing(cfg: Config, s: State, s': State, w: nat)
    requires Inv(cfg, s) && Take(s, s', w)
    ensures NothingRuns(s, s')
  {
    hide Inv; hide NothingRuns;
    QueueHead(cfg, s);
    TakenFromQueue(s, s', w);
  }

  lemma QueueHead(cfg: Config, s: State)
    requires Inv(cfg, s)
    ensures s.reqCh != [] ==> s.reqCh[0] < |s.stages| && s.stages[s.reqCh[0]] == Queued
  {
    hide CallsInv; hide ItemInv; hide FramesInv; hide RecvInv; hide WorkersInv; hide LedgerInv; hide HandlersInv;
    hide GotInv; hide CountInv; hide ReqsInv;
  }

  lemma TakenFromQueue(s: State, s': State, w: nat)
    requires Take(s, s', w) && s.stages[s.reqCh[0]] == Queued
    ensures NothingRuns(s, s')
  {
  }

  lemma LookUpRunsNothing(cfg: Config, s: State, s': State, w: nat)
    requires Inv(cfg, s) && LookUpHandler(cfg, s, s', w)
    ensures NothingRuns(s, s')
  {
    hide Inv;
    WorkerFrame(cfg, s, w);
    hide DecodeRequest; hide RpcId; hide NothingRuns; hide Drop;
    var f := s.workers[w].f;
    match DecodeRequest(s.frames[f].payload)
    case None => DroppedRunsNothing(s, w, f, Undecodable);
    case Some(msg) =>
      if RpcId(msg) in cfg.table {
        WorkerMoved(s, s.(workers := s.workers[w := Looked(f, msg)]), w);
      } else {
        DroppedRunsNothing(s, w, f, Unregistered);
      }
  }

  lemma DroppedRunsNothing(s: State, w: nat, f: nat, fate: Fate)
    requires f < |s.stages| && w in s.workers && !s.workers[w].Idle? && s.workers[w].f == f
    requires s.stages[f] == AtWorker(w) && (Decided(s.workers[w]) ==> s.workers[w].fate == fate)
    ensures NothingRuns(s, Drop(s, w, f, fate))
  {
  }

  lemma AnswerRunsNothing(s: State, s': State, w: nat, payload: bytes)
    requires Answer(s, s', w, payload)
    ensures NothingRuns(s, s')
  {
    hide EncodesResponse; hide FitsFrame; hide NothingRuns;
    WorkerMoved(s, s', w);
  }

  lemma AnswerPanicsRunsNothing(s: State, s': State, w: nat)
    requires AnswerPanics(s, s', w)
    ensures NothingRuns(s, s')
  {
    hide FitsFrame; hide NothingRuns;
    WorkerMoved(s, s', w);
  }

  lemma DecReqRunsNothing(cfg: Config, s: State, s': State, w: nat)
    requires Inv(cfg, s) && DecReq(s, s', w)
    ensures NothingRuns(s, s')
  {
    hide Inv;
    WorkerFrame(cfg, s, w);
    DroppedRunsNothing(s, w, s.workers[w].f, s.workers[w].fate);
  }

  lemma InvokeKeepsExecs(cfg: Config, s: State, s': State, w: nat, result: CallResult)
    requires Inv(cfg, s) && ExecsInv(s) && Invoke(cfg, s, s', w, result)
    ensures ExecsInv(s')
  {
    hide Inv; hide AfterCall; hide RpcId; hide ExecsInv;
    WorkerFrame(cfg, s, w);
    AfterwardsDecided(s.workers[w].f, s.workers[w].msg, |s.execs|, result);
    RunsOne(s, s', w, s'.execs[|s.execs|]);
  }

  lemma RunsOne(s: State, s': State, w: nat, e: Exec)
    requires ExecsInv(s) && w in s.workers && s.workers[w].Counted? && e.frame == s.workers[w].f < |s.stages|
    requires s.stages[e.frame] == AtWorker(w) && s'.stages == s.stages && s'.execs == s.execs + [e]
    requires w in s'.workers && s'.workers == s.workers[w := s'.workers[w]]
    requires Decided(s'.workers[w]) && s'.workers[w].f == e.frame
    requires s'.workers[w].fate == FateOf(|s.execs|, e.result)
    ensures ExecsInv(s')
  {
    hide FateOf;
    assert FateNow(s, e.frame) == None;
    forall f | 0 <= f < |s.stages| && FateNow(s, f).Some? ensures FateNow(s', f) == FateNow(s, f) {}
  }

  lemma AfterwardsDecided(f: nat, msg: Request, e: nat, result: CallResult)
    ensures var p := AfterCall(f, msg, e, result); Decided(p) && p.f == f && p.fate == FateOf(e, result)
  {
    hide WantsNoReply; hide Respond;
  }

  lemma NothingRunsKeepsExecs(s: State, s': State)
    requires ExecsInv(s) && NothingRuns(s, s')
    ensures ExecsInv(s')
  {
    hide FateNow;
  }

  lemma StepKeepsExecs(cfg: Config, s: State, s': State, a: Action)
    requires Inv(cfg, s) && ExecsInv(s) && Step(cfg, s, s', a)
    ensures ExecsInv(s')
  {
    hide Inv; hide ExecsInv; hide CallerStep; hide HandlerStep; hide SameServer; hide NothingRuns; hide Invoke;
    match a
    case ByCaller(x) =>
      CallerLeavesServer(cfg, s, s', x);
      SameServerRunsNothing(s, s');
      NothingRunsKeepsExecs(s, s');
    case ByHandler(x) =>
      HandlerLeavesServer(cfg, s, s', x);
      SameServerRunsNothing(s, s');
      NothingRunsKeepsExecs(s, s');
    case ByServer(x) => ServerKeepsExecs(cfg, s, s', x);
  }

  lemma ServerKeepsExecs(cfg: Config, s: State, s': State, a: ServerAction)
    requires Inv(cfg, s) && ExecsInv(s) && ServerStep(cfg, s, s', a)
    ensures ExecsInv(s')
  {
    if a.AInvoke? {
      hide Inv; hide ExecsInv; hide Invoke;
      InvokeKeepsExecs(cfg, s, s', a.w, a.result);
    } else {
      hide Inv; hide ExecsInv; hide ServerStep; hide NothingRuns;
      ServerRunsNothing(cfg, s, s', a);
      NothingRunsKeepsExecs(s, s');
    }
  }

  lemma {:induction false} RunKeepsExecs(cfg: Config, run: seq<State>, i: nat)
    requires Run(cfg, run) && i < |run|
    ensures ExecsInv(run[i])
  {
    hide ExecsInv; hide Inv; hide Step;
    if i == 0 {
      NoExecsYet(run[0]);
    } else {
      RunKeepsExecs(cfg, run, i - 1);
      RunKeepsInv(cfg, run, i - 1);
      assert Next(cfg, run[i - 1], run[i]);
      var a :| Step(cfg, run[i - 1], run[i], a);
      StepKeepsExecs(cfg, run[i - 1], run[i], a);
    }
  }

  lemma NoExecsYet(s: State)
    requires Init(s)
    ensures ExecsInv(s)
  {
  }

  /** No frame is executed twice. */
  lemma ExecutedOnce(cfg: Config, run: seq<State>, t: nat, i: nat, j: nat)
    requires Run(cfg, run) && t < |run| && i < |run[t].execs| && j < |run[t].execs|
    requires run[t].execs[i].frame == run[t].execs[j].frame
    ensures i == j
  {
    hide Run;
    RunKeepsExecs(cfg, run, t);
  }

  /** A call has at most one frame, so at most one execution in all. */
  lemma OneExecutionPerCall(cfg: Config, run: seq<State>, t: nat, k: Key, i: nat, j: nat)
    requires Run(cfg, run) && t < |run| && ExecutedFor(run[t], k, i) && ExecutedFor(run[t], k, j)
    ensures i == j
  {
    hide Run; hide DecodeRequest; hide DecodeResponse;
    hide CallsInv; hide ItemInv; hide WorkersInv; hide HandlersInv; hide GotInv; hide LedgerInv;
    RunKeepsInv(cfg, run, t);
    ExecutedOnce(cfg, run, t, i, j);
  }

  /** Execution i ran on a frame that call k wrote. */
  predicate ExecutedFor(s: State, k: Key, i: nat) {
    && i < |s.execs| && s.execs[i].frame < |s.frames|
    && s.frames[s.execs[i].frame].owner == Some(k)
  }
}
