/** The inductive invariant of the call protocol, in parts that each name the fields they speak of. */
module RpcInvariants {
  import opened Bytes
  import opened Packets
  import opened Rpc

  // ----- callers

  predicate Finishing(pc: CallPc) { pc.Returning? || pc.Returned? }

  /** The number of times a call at pc has closed its wait channel. */
  function ClosesAt(pc: CallPc): nat {
    if pc.Returned? || (pc.Returning? && !pc.result.OneWay? && !pc.result.WriteFailed?) then 1 else 0
  }

  predicate HasFrame(pc: CallPc) {
    pc.Sent? || pc.Selecting? || pc.TimedOut? || pc.Received? || (Finishing(pc) && !pc.result.WriteFailed?)
  }

  predicate HasGot(pc: CallPc) {
    pc.Received? || (Finishing(pc) && (pc.result.Reply? || pc.result.ErrorCode?))
  }

  /** Between inserting its entry and deleting it; a failed write leaves the entry. */
  predicate Listed(c: Call) {
    !c.onlyCall && !c.pc.Prepared? && (Finishing(c.pc) ==> c.pc.result.WriteFailed?)
  }

  predicate CallOk(cfg: Config, k: Key, c: Call, frames: seq<Frame>) {
    && c.conn.Dialled? && c.conn.pool == k.pool && 1 <= k.sid < I63
    && c.closes == ClosesAt(c.pc)
    && (c.frame.Some? <==> HasFrame(c.pc))
    && (c.got.Some? <==> HasGot(c.pc))
    && (c.onlyCall ==> c.pc.Prepared? || c.pc.Sent?
                       || (Finishing(c.pc) && (c.pc.result.OneWay? || c.pc.result.WriteFailed?)))
    && (!c.onlyCall ==> !(Finishing(c.pc) && c.pc.result.OneWay?))
    && (c.frame.Some? ==>
          && c.frame.value < |frames|
          && frames[c.frame.value].owner == Some(k) && frames[c.frame.value].conn == c.conn
          && DecodeRequest(frames[c.frame.value].payload) == Some(RequestFor(cfg, k, c)))
  }

  predicate CallsInv(cfg: Config, counters: map<nat, int>, calls: map<Key, Call>, frames: seq<Frame>) {
    && (forall p :: p in counters ==> counters[p] >= 0)
    && forall k :: k in calls ==>
         CallOk(cfg, k, calls[k], frames) && k.sid <= Counter(counters, k.pool.process)
  }

  ghost predicate ItemInv(calls: map<Key, Call>, callItem: map<Key, Entry>) {
    forall k :: k in callItem <==> k in calls && Listed(calls[k])
  }

  /** No frame is written twice for one call, and frames of this framework name their caller. */
  predicate FramesInv(calls: map<Key, Call>, frames: seq<Frame>) {
    forall f :: 0 <= f < |frames| ==>
      && |frames[f].payload| < I63
      && match frames[f].owner
         case None => frames[f].conn.Outside?
         case Some(k) =>
           && k in calls && calls[k].frame == Some(f) && calls[k].conn == frames[f].conn
           && |frames[f].payload| < 0x800_0000
  }

  // ----- server

  predicate RecvInv(frames: seq<Frame>, stages: seq<Stage>, recv: map<Conn, RecvPc>) {
    && |stages| == |frames|
    && forall c :: c in recv && !recv[c].Reading? ==>
         recv[c].f < |frames| && frames[recv[c].f].conn == c && stages[recv[c].f] == AtRecv
  }

  predicate QueueInv(stages: seq<Stage>, reqCh: seq<nat>) {
    && (forall i :: 0 <= i < |reqCh| ==> reqCh[i] < |stages| && stages[reqCh[i]] == Queued)
    && forall i, j :: 0 <= i < j < |reqCh| ==> reqCh[i] != reqCh[j]
  }

  /** Execution e ran the registered handler on this very frame, with this result. */
  predicate Ran(cfg: Config, f: nat, msg: Request, e: nat, result: CallResult, execs: seq<Exec>) {
    RpcId(msg) in cfg.table && e < |execs| && execs[e] == Exec(f, cfg.table[RpcId(msg)], msg.packet, result)
  }

  /** A fate that names an execution is the fate that execution leads to. */
  predicate FateOk(cfg: Config, f: nat, msg: Request, fate: Fate, execs: seq<Exec>) {
    match fate
    case Succeeded(e, ret) => Ran(cfg, f, msg, e, CallResult.Ok(ret), execs)
    case CallFailed(e) => Ran(cfg, f, msg, e, CallResult.Error, execs)
    case CallPanicked(e) => Ran(cfg, f, msg, e, CallResult.Panic, execs)
    case _ => true
  }

  /** The answer a request with this fate is owed, if any. */
  function ReplyDue(msg: Request, fate: Fate): Option<Response> {
    match fate
    case Refused => Some(Respond(msg, 500, []))
    case Limited => Some(Respond(msg, 405, []))
    case CallFailed(_) => Some(Respond(msg, 505, []))
    case Succeeded(_, ret) => if WantsNoReply(msg) then None else Some(Respond(msg, 0, ret))
    case _ => None
  }

  predicate AnswerOk(cfg: Config, f: nat, msg: Request, resp: Response, fate: Fate, execs: seq<Exec>) {
    ReplyDue(msg, fate) == Some(resp) && FateOk(cfg, f, msg, fate, execs)
  }

  predicate WorkerOk(cfg: Config, frames: seq<Frame>, execs: seq<Exec>, p: WorkerPc) {
    p.Idle? || p.Taken? ||
    (p.f < |frames| && DecodeRequest(frames[p.f].payload) == Some(p.msg) && RpcId(p.msg) in cfg.table
     && match p
        case Answering(f, msg, resp, fate) => !fate.Refused? && AnswerOk(cfg, f, msg, resp, fate, execs)
        case Leaving(f, msg, fate) =>
          FateOk(cfg, f, msg, fate, execs) && !fate.Refused? && !fate.Undecodable? && !fate.Unregistered?
        case _ => true)
  }

  predicate WorkersInv(cfg: Config, frames: seq<Frame>, stages: seq<Stage>, workers: map<nat, WorkerPc>,
                       execs: seq<Exec>) {
    forall w :: w in workers ==>
      && (!workers[w].Idle? ==> workers[w].f < |stages| && stages[workers[w].f] == AtWorker(w))
      && WorkerOk(cfg, frames, execs, workers[w])
  }

  // ----- the reply ledger

  /** The fate of a frame once no answer can still be given for it. */
  function Settled(stages: seq<Stage>, workers: map<nat, WorkerPc>, f: nat): Option<Fate>
    requires f < |stages|
  {
    match stages[f]
    case Done(fate) => Some(fate)
    case AtWorker(w) => if w in workers && workers[w].Leaving? && workers[w].f == f then Some(workers[w].fate) else None
    case _ => None
  }

  /** A frame with this content and fate is owed a reply, and the reply fits on the wire. */
  ghost predicate Owed(payload: bytes, fate: Fate) {
    match DecodeRequest(payload)
    case None => false
    case Some(msg) => ReplyDue(msg, fate).Some? && FitsFrame(ReplyDue(msg, fate).value)
  }

  /** What each fate says about the frame. */
  predicate FateSound(cfg: Config, f: nat, payload: bytes, fate: Fate, execs: seq<Exec>) {
    match DecodeRequest(payload)
    case None => fate.Undecodable?
    case Some(msg) =>
      match fate
      case Undecodable => false
      case Unregistered => RpcId(msg) !in cfg.table
      case Refused => true
      case _ => RpcId(msg) in cfg.table && FateOk(cfg, f, msg, fate, execs)
  }

  ghost predicate ReplyOk(cfg: Config, frames: seq<Frame>, fate: Fate, execs: seq<Exec>, r: ReplyFrame) {
    && r.frame < |frames| && r.conn == frames[r.frame].conn
    && DecodeRequest(frames[r.frame].payload).Some? && DecodeResponse(r.payload).Some?
    && AnswerOk(cfg, r.frame, DecodeRequest(frames[r.frame].payload).value,
                DecodeResponse(r.payload).value, fate, execs)
    && FitsFrame(DecodeResponse(r.payload).value)
  }

  ghost predicate LedgerInv(cfg: Config, frames: seq<Frame>, stages: seq<Stage>, workers: map<nat, WorkerPc>,
                      execs: seq<Exec>, replies: seq<ReplyFrame>, replyOf: map<nat, nat>) {
    && |stages| == |frames|
    && (forall i :: 0 <= i < |replies| ==>
          && replies[i].frame in replyOf && replyOf[replies[i].frame] == i
          && replies[i].frame < |frames|
          && Settled(stages, workers, replies[i].frame).Some?
          && ReplyOk(cfg, frames, Settled(stages, workers, replies[i].frame).value, execs, replies[i]))
    && (forall f :: f in replyOf ==> f < |frames| && replyOf[f] < |replies| && replies[replyOf[f]].frame == f)
    && (forall f :: 0 <= f < |frames| && f !in replyOf ==>
          match Settled(stages, workers, f)
          case Some(fate) => !Owed(frames[f].payload, fate)
          case None => true)
    && (forall f :: 0 <= f < |frames| && Settled(stages, workers, f).Some? ==>
          FateSound(cfg, f, frames[f].payload, Settled(stages, workers, f).value, execs))
  }

  // ----- reply handlers

  predicate HandlerOk(c: Conn, h: HandlerPc, calls: map<Key, Call>, callItem: map<Key, Entry>,
                      replies: seq<ReplyFrame>, deliveries: seq<Delivery>) {
    && c.Dialled?
    && (HasReply(h) ==>
          && h.i < |replies| == |deliveries| && replies[h.i].conn == c && deliveries[h.i] == AtHandler
          && DecodeResponse(replies[h.i].payload) == Some(h.resp)
          && ONLY_CALL_HEADER !in h.resp.headers && h.resp.sid != 0)
    && (h.Stored? || h.Sending? ==>
          && Target(c, h.resp) in callItem && Target(c, h.resp) in calls
          && callItem[Target(c, h.resp)] == Entry(h.resp.code, h.resp.packet))
  }

  predicate HandlersInv(handlers: map<Conn, HandlerPc>, calls: map<Key, Call>, callItem: map<Key, Entry>,
                        replies: seq<ReplyFrame>, deliveries: seq<Delivery>) {
    && |replies| == |deliveries|
    && forall c :: c in handlers ==> HandlerOk(c, handlers[c], calls, callItem, replies, deliveries)
  }

  /** The reply a call has received: its frame's own, already consumed, and what the call returns. */
  predicate GotOk(k: Key, c: Call, callItem: map<Key, Entry>, replies: seq<ReplyFrame>, deliveries: seq<Delivery>) {
    c.got.Some? ==>
      && c.got.value < |replies| == |deliveries| && deliveries[c.got.value] == Spent
      && c.frame == Some(replies[c.got.value].frame)
      && match DecodeResponse(replies[c.got.value].payload)
         case None => false
         case Some(resp) =>
           if c.pc.Received? then k in callItem && callItem[k] == Entry(resp.code, resp.packet)
           else Finishing(c.pc) ==> c.pc.result == ResultOf(Entry(resp.code, resp.packet))
  }

  predicate GotInv(calls: map<Key, Call>, callItem: map<Key, Entry>, replies: seq<ReplyFrame>,
                   deliveries: seq<Delivery>) {
    forall k :: k in calls ==> GotOk(k, calls[k], callItem, replies, deliveries)
  }

  // ----- counters

  function PassedConns(recv: map<Conn, RecvPc>): set<Conn> {
    set c | c in recv && recv[c].Passed?
  }

  function BusyWorkers(workers: map<nat, WorkerPc>): set<nat> {
    set w | w in workers && InProgress(workers[w])
  }

  predicate CountInv(cfg: Config, recv: map<Conn, RecvPc>, conns: int, reqCh: seq<nat>) {
    && conns == |recv| <= cfg.maxConns
    && (reqCh != [] || PassedConns(recv) != {} ==>
          10 <= cfg.capacity && |reqCh| + |PassedConns(recv)| <= cfg.capacity - 10 + cfg.maxConns)
  }

  predicate ReqsInv(workers: map<nat, WorkerPc>, reqs: int) {
    reqs == |BusyWorkers(workers)|
  }

  ghost predicate Inv(cfg: Config, s: State) {
    && CallsInv(cfg, s.counters, s.calls, s.frames)
    && ItemInv(s.calls, s.callItem)
    && FramesInv(s.calls, s.frames)
    && RecvInv(s.frames, s.stages, s.recv)
    && QueueInv(s.stages, s.reqCh)
    && WorkersInv(cfg, s.frames, s.stages, s.workers, s.execs)
    && LedgerInv(cfg, s.frames, s.stages, s.workers, s.execs, s.replies, s.replyOf)
    && HandlersInv(s.handlers, s.calls, s.callItem, s.replies, s.deliveries)
    && GotInv(s.calls, s.callItem, s.replies, s.deliveries)
    && CountInv(cfg, s.recv, s.conns, s.reqCh)
    && ReqsInv(s.workers, s.reqs)
    && !s.faults
  }

  lemma InitInv(cfg: Config, s: State)
    requires Init(s)
    ensures Inv(cfg, s)
  {
    assert BusyWorkers(s.workers) == {};
  }
}
