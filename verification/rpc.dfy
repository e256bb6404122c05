/**
 * The call protocol as a state machine: any number of client processes, pools, callers and
 * connections, one server with its admission check, request channel and workers. Each action is one
 * atomic step of the Go code; a critical section under a write lock is one action.
 */
module Rpc {
  import opened Bytes
  import opened Packets
  import opened FrameHeaders

  /** A connection pool belongs to a process; Sids are counted per process. */
  datatype Pool = Pool(process: nat, index: nat)

  /** Connections are dialled by a pool of this framework, or come from some other peer. */
  datatype Conn = Dialled(pool: Pool, index: nat) | Outside(index: nat)

  /** An entry of a pool's callItem. */
  datatype Key = Key(pool: Pool, sid: int)

  /** GenRid, the registered handlers by RpcId, cap(reqCh) and a bound on open connections. */
  datatype Config = Config(rid: bytes -> nat, table: map<nat, bytes>, capacity: nat, maxConns: nat)

  const ONLY_CALL_HEADER: bytes := Ascii("onlyCall")
  const TRACE_ID_HEADER: bytes := Ascii("traceId")

  // ----- the client side

  datatype Outcome = Reply(packet: bytes) | OneWay | Timeout | WriteFailed | ErrorCode(code: int)

  /**
   * Where a call stands: Sent is between the frame leaving and the select; TimedOut and Received have
   * picked their branch of the select and want the lock; Returning is in the deferred close.
   */
  datatype CallPc =
    | Prepared
    | Registered
    | Sent
    | Selecting
    | TimedOut
    | Received
    | Returning(result: Outcome)
    | Returned(result: Outcome)

  /**
   * closes counts close(waitCh). frame and got are history: the frame written for this call and the
   * reply whose value it received.
   */
  datatype Call = Call(rpc: bytes, packet: bytes, onlyCall: bool, traceId: bytes, conn: Conn,
                       pc: CallPc, closes: nat, frame: Option<nat>, got: Option<nat>)

  datatype Entry = Entry(code: int, packet: bytes)

  /** The reply handler of one connection, with the reply it is working on. */
  datatype HandlerPc =
    | Waiting
    | Decoded(i: nat, resp: Response)
    | Locked(i: nat, resp: Response)
    | Stored(i: nat, resp: Response)
    | Sending(i: nat, resp: Response)
    | Unlocking

  predicate HoldsLock(h: HandlerPc) { !h.Waiting? && !h.Decoded? }

  predicate HasReply(h: HandlerPc) { !h.Waiting? && !h.Unlocking? }

  // ----- the server side

  /** What became of a frame. If item.Call ran for it, its fate names the execution. */
  datatype Fate =
    | Refused
    | Undecodable
    | Unregistered
    | Limited
    | LimiterPanicked
    | CallFailed(e: nat)
    | CallPanicked(e: nat)
    | Succeeded(e: nat, ret: bytes)

  /** Where a frame is. */
  datatype Stage = OnWire | AtRecv | Queued | AtWorker(w: nat) | Done(fate: Fate)

  datatype RecvPc = Reading | Passed(f: nat) | Refusing(f: nat)

  datatype WorkerPc =
    | Idle
    | Taken(f: nat)
    | Looked(f: nat, msg: Request)
    | Counted(f: nat, msg: Request)
    | Answering(f: nat, msg: Request, resp: Response, fate: Fate)
    | Leaving(f: nat, msg: Request, fate: Fate)

  /** Between incReq and decReq. */
  predicate InProgress(w: WorkerPc) { w.Counted? || w.Answering? || w.Leaving? }

  datatype Frame = Frame(conn: Conn, payload: bytes, owner: Option<Key>)

  datatype ReplyFrame = ReplyFrame(frame: nat, conn: Conn, payload: bytes)

  datatype Delivery = InFlight | AtHandler | Spent

  datatype CallResult = Ok(ret: bytes) | Error | Panic

  /** One run of a registered item.Call. */
  datatype Exec = Exec(frame: nat, item: bytes, packet: bytes, result: CallResult)

  /**
   * frames, replies and execs are ledgers that only grow; stages, deliveries and replyOf say what has
   * become of their entries. faults records a close of a closed channel, a send on one, or the use
   * of a missing callItem entry.
   */
  datatype State = State(
    counters: map<nat, int>,
    calls: map<Key, Call>,
    callItem: map<Key, Entry>,
    handlers: map<Conn, HandlerPc>,
    frames: seq<Frame>,
    stages: seq<Stage>,
    recv: map<Conn, RecvPc>,
    conns: int,
    reqCh: seq<nat>,
    workers: map<nat, WorkerPc>,
    reqs: int,
    execs: seq<Exec>,
    replies: seq<ReplyFrame>,
    deliveries: seq<Delivery>,
    replyOf: map<nat, nat>,
    faults: bool)

  predicate Init(s: State) {
    && s.counters == map[] && s.calls == map[] && s.callItem == map[] && s.handlers == map[]
    && s.frames == [] && s.stages == [] && s.recv == map[] && s.conns == 0 && s.reqCh == []
    && (forall w :: w in s.workers ==> s.workers[w] == Idle)
    && s.reqs == 0 && s.execs == [] && s.replies == [] && s.deliveries == [] && s.replyOf == map[]
    && !s.faults
  }

  function Counter(counters: map<nat, int>, process: nat): int {
    if process in counters then counters[process] else 0
  }

  function CallHeaders(c: Call): Headers {
    if c.onlyCall then map[TRACE_ID_HEADER := c.traceId, ONLY_CALL_HEADER := Ascii("1")]
    else map[TRACE_ID_HEADER := c.traceId]
  }

  /** The request a call marshals. */
  function RequestFor(cfg: Config, k: Key, c: Call): Request {
    Request(k.sid, Signed64(cfg.rid(c.rpc)), CallHeaders(c), c.packet, [])
  }

  function RpcId(msg: Request): nat { Unsigned64(msg.rpcId) }

  /** No reply handler of the pool holds wrw.RLock, so wrw.Lock can be taken. */
  predicate NoReaders(s: State, pool: Pool) {
    forall c :: c in s.handlers && c.Dialled? && c.pool == pool ==> !HoldsLock(s.handlers[c])
  }

  /** The callItem key a handler's reply is for. */
  function Target(c: Conn, resp: Response): Key
    requires c.Dialled?
  {
    Key(c.pool, resp.sid)
  }

  predicate SendingTo(s: State, c: Conn, k: Key) {
    c in s.handlers && c.Dialled? && s.handlers[c].Sending? && Target(c, s.handlers[c].resp) == k
  }

  // ----- caller actions

  predicate NewCall(s: State, s': State, k: Key, c: Call) {
    && c.conn.Dialled? && c.conn in s.handlers && k.pool == c.conn.pool
    && k.sid == Counter(s.counters, k.pool.process) + 1 < I63
    && c.pc == Prepared && c.closes == 0 && c.frame == None && c.got == None
    && s' == s.(calls := s.calls[k := c], counters := s.counters[k.pool.process := k.sid])
  }

  predicate At(s: State, k: Key, pc: CallPc) { k in s.calls && s.calls[k].pc == pc }

  function SetPc(s: State, k: Key, pc: CallPc): State
    requires k in s.calls
  {
    s.(calls := s.calls[k := s.calls[k].(pc := pc)])
  }

  predicate Register(s: State, s': State, k: Key) {
    && At(s, k, Prepared) && !s.calls[k].onlyCall && NoReaders(s, k.pool)
    && s' == SetPc(s, k, Registered).(callItem := s.callItem[k := Entry(0, [])])
  }

  predicate ReadyToWrite(s: State, k: Key) {
    k in s.calls && s.calls[k].pc == if s.calls[k].onlyCall then Prepared else Registered
  }

  /** res.Write puts the whole frame on the wire; what follows is Sent until the select. */
  ghost predicate Write(cfg: Config, s: State, s': State, k: Key, payload: bytes) {
    && ReadyToWrite(s, k)
    && EncodesRequest(RequestFor(cfg, k, s.calls[k]), payload) && |payload| < SIZE_LIMIT
    && s' == s.(calls := s.calls[k := s.calls[k].(pc := Sent, frame := Some(|s.frames|))],
                frames := s.frames + [Frame(s.calls[k].conn, payload, Some(k))],
                stages := s.stages + [OnWire])
  }

  /** A Write that fails, or panics on its size, leaves no whole frame but leaves the callItem entry. */
  predicate WriteFails(s: State, s': State, k: Key) {
    ReadyToWrite(s, k) && s' == SetPc(s, k, Returning(WriteFailed))
  }

  predicate ReachSelect(s: State, s': State, k: Key) {
    && At(s, k, Sent)
    && s' == SetPc(s, k, if s.calls[k].onlyCall then Returning(OneWay) else Selecting)
  }

  predicate PickTimeout(s: State, s': State, k: Key) {
    At(s, k, Selecting) && s' == SetPc(s, k, TimedOut)
  }

  /** A select on a closed channel would fire at once. */
  predicate PickClosed(s: State, s': State, k: Key) {
    At(s, k, Selecting) && s.calls[k].closes > 0 && s' == SetPc(s, k, Received)
  }

  /** close(callItem[Sid].Ch) and delete, under the lock. */
  function CloseAndDelete(s: State, k: Key, result: Outcome): State
    requires k in s.calls
  {
    s.(calls := s.calls[k := s.calls[k].(pc := Returning(result), closes := s.calls[k].closes + 1)],
       callItem := s.callItem - {k},
       faults := s.faults || k !in s.callItem || s.calls[k].closes > 0)
  }

  predicate LockTimeout(s: State, s': State, k: Key) {
    && At(s, k, TimedOut) && NoReaders(s, k.pool)
    && s' == CloseAndDelete(s, k, Timeout)
  }

  function ResultOf(e: Entry): Outcome { if e.code == 0 then Reply(e.packet) else ErrorCode(e.code) }

  predicate LockReply(s: State, s': State, k: Key) {
    && At(s, k, Received) && NoReaders(s, k.pool)
    && s' == CloseAndDelete(s, k, ResultOf(if k in s.callItem then s.callItem[k] else Entry(0, [])))
  }

  /** The unbuffered channel hands the value of a blocked sender to the select. */
  predicate Rendezvous(s: State, s': State, k: Key, c: Conn) {
    && At(s, k, Selecting) && SendingTo(s, c, k) && s.handlers[c].i < |s.deliveries|
    && s' == s.(calls := s.calls[k := s.calls[k].(pc := Received, got := Some(s.handlers[c].i))],
                handlers := s.handlers[c := Unlocking],
                deliveries := s.deliveries[s.handlers[c].i := Spent])
  }

  /** The deferred ClosedChanInt and close; a blocked sender's value would be taken by the test. */
  ghost predicate Deferred(s: State, s': State, k: Key, sender: Option<Conn>) {
    && k in s.calls && s.calls[k].pc.Returning?
    && var c := s.calls[k];
    && var done := c.(pc := Returned(c.pc.result));
    if c.closes > 0 then s' == s.(calls := s.calls[k := done])
    else
      && (if sender.Some? then SendingTo(s, sender.value, k) else forall x :: !SendingTo(s, x, k))
      && s' == s.(calls := s.calls[k := done.(closes := 1)], handlers := Woken(s, sender))
  }

  function Woken(s: State, sender: Option<Conn>): map<Conn, HandlerPc> {
    if sender.Some? then s.handlers[sender.value := Unlocking] else s.handlers
  }

  // ----- reply handler actions

  predicate Holds(s: State, c: Conn) { c in s.handlers && c.Dialled? && HasReply(s.handlers[c]) }

  predicate Deliver(s: State, s': State, c: Conn, i: nat) {
    && c in s.handlers && c.Dialled? && s.handlers[c] == Waiting
    && i < |s.replies| == |s.deliveries| && s.replies[i].conn == c && s.deliveries[i] == InFlight
    && 1 <= |s.replies[i].payload| <= MAX_MESSAGE_SIZE
    && match DecodeResponse(s.replies[i].payload)
       case Some(resp) =>
         if ONLY_CALL_HEADER in resp.headers || resp.sid == 0
         then s' == s.(deliveries := s.deliveries[i := Spent])
         else s' == s.(handlers := s.handlers[c := Decoded(i, resp)], deliveries := s.deliveries[i := AtHandler])
       case None => s' == s.(deliveries := s.deliveries[i := Spent])
  }

  predicate ReadLock(s: State, s': State, c: Conn) {
    && Holds(s, c) && s.handlers[c].Decoded?
    && s' == s.(handlers := s.handlers[c := Locked(s.handlers[c].i, s.handlers[c].resp)])
  }

  /** Looks the Sid up and stores packet and code in the entry it finds. */
  predicate Lookup(s: State, s': State, c: Conn) {
    && Holds(s, c) && s.handlers[c].Locked?
    && var h := s.handlers[c];
    && var k := Target(c, h.resp);
    if k in s.callItem
    then s' == s.(handlers := s.handlers[c := Stored(h.i, h.resp)],
                  callItem := s.callItem[k := Entry(h.resp.code, h.resp.packet)])
    else s' == s.(handlers := s.handlers[c := Unlocking])
  }

  predicate Closed(s: State, k: Key) { k in s.calls && s.calls[k].closes > 0 }

  /** ClosedChanInt on the wait channel; it would take the value of another blocked sender. */
  ghost predicate TestChannel(s: State, s': State, c: Conn, other: Option<Conn>) {
    && Holds(s, c) && s.handlers[c].Stored?
    && var h := s.handlers[c];
    && var k := Target(c, h.resp);
    && var s1 := s.(faults := s.faults || k !in s.callItem);
    if Closed(s, k) then s' == s1.(handlers := s.handlers[c := Unlocking])
    else
      && (if other.Some? then SendingTo(s, other.value, k) else forall x :: !SendingTo(s, x, k))
      && s' == s1.(handlers := Woken(s, other)[c := Sending(h.i, h.resp)])
  }

  predicate SendOnClosed(s: State, s': State, c: Conn) {
    && Holds(s, c) && s.handlers[c].Sending? && Closed(s, Target(c, s.handlers[c].resp))
    && s' == s.(faults := true)
  }

  predicate ReadUnlock(s: State, s': State, c: Conn) {
    && c in s.handlers && s.handlers[c] == Unlocking
    && s' == s.(handlers := s.handlers[c := Waiting])
  }

  // ----- connections

  predicate Open(cfg: Config, s: State, s': State, c: Conn) {
    && c !in s.recv && c !in s.handlers && |s.recv| < cfg.maxConns
    && s' == s.(recv := s.recv[c := Reading], conns := s.conns + 1,
                handlers := if c.Dialled? then s.handlers[c := Waiting] else s.handlers)
  }

  predicate Close(s: State, s': State, c: Conn) {
    && c in s.recv && s.recv[c] == Reading
    && s' == s.(recv := s.recv - {c}, conns := s.conns - 1)
  }

  /** Other peers may send anything. */
  predicate ForeignFrame(s: State, s': State, c: Conn, payload: bytes) {
    && c.Outside? && |payload| < I63
    && s' == s.(frames := s.frames + [Frame(c, payload, None)], stages := s.stages + [OnWire])
  }

  predicate LoseReply(s: State, s': State, i: nat) {
    && i < |s.deliveries| && s.deliveries[i] == InFlight
    && s' == s.(deliveries := s.deliveries[i := Spent])
  }

  // ----- server actions

  /** onRecv gets a frame of its connection and looks at len(reqCh). */
  predicate Receive(cfg: Config, s: State, s': State, f: nat) {
    && f < |s.frames| == |s.stages| && s.stages[f] == OnWire && 1 <= |s.frames[f].payload| <= MAX_MESSAGE_SIZE
    && var c := s.frames[f].conn;
    && c in s.recv && s.recv[c] == Reading
    && s' == s.(recv := s.recv[c := if cfg.capacity - 10 < |s.reqCh| then Refusing(f) else Passed(f)],
                stages := s.stages[f := AtRecv])
  }

  predicate CanPush(cfg: Config, s: State) { |s.reqCh| < cfg.capacity }

  predicate Push(cfg: Config, s: State, s': State, c: Conn) {
    && c in s.recv && s.recv[c].Passed? && s.recv[c].f < |s.stages| && CanPush(cfg, s)
    && s' == s.(recv := s.recv[c := Reading],
                reqCh := s.reqCh + [s.recv[c].f],
                stages := s.stages[s.recv[c].f := Queued])
  }

  function Respond(msg: Request, code: int, packet: bytes): Response {
    Response(msg.sid, msg.headers, code, packet, [])
  }

  /** The state after the reply payload for frame f has been handed to its connection. */
  function Replied(s: State, f: nat, payload: bytes): State
    requires f < |s.frames|
  {
    s.(replies := s.replies + [ReplyFrame(f, s.frames[f].conn, payload)],
       deliveries := s.deliveries + [InFlight],
       replyOf := s.replyOf[f := |s.replies|])
  }

  ghost predicate Refuse(s: State, s': State, c: Conn, payload: bytes) {
    && c in s.recv && s.recv[c].Refusing? && s.recv[c].f < |s.frames| == |s.stages|
    && var f := s.recv[c].f;
    && var s1 := s.(recv := s.recv[c := Reading]);
    match DecodeRequest(s.frames[f].payload)
    case None => s' == s1.(stages := s.stages[f := Done(Undecodable)])
    case Some(msg) =>
      && EncodesResponse(Respond(msg, 500, []), payload) && FitsFrame(Respond(msg, 500, []))
      && s' == Replied(s1, f, payload).(stages := s.stages[f := Done(Fate.Refused)])
  }

  /** A refusal too large for a frame panics; onRecv recovers and closes the connection. */
  ghost predicate RefusePanics(s: State, s': State, c: Conn) {
    && c in s.recv && s.recv[c].Refusing? && s.recv[c].f < |s.frames| == |s.stages|
    && var f := s.recv[c].f;
    match DecodeRequest(s.frames[f].payload)
    case None => false
    case Some(msg) =>
      && !FitsFrame(Respond(msg, 500, []))
      && s' == s.(recv := s.recv - {c}, conns := s.conns - 1, stages := s.stages[f := Done(Fate.Refused)])
  }

  predicate Take(s: State, s': State, w: nat) {
    && w in s.workers && s.workers[w] == Idle && s.reqCh != [] && s.reqCh[0] < |s.stages|
    && s' == s.(reqCh := s.reqCh[1..],
                workers := s.workers[w := Taken(s.reqCh[0])],
                stages := s.stages[s.reqCh[0] := AtWorker(w)])
  }

  /** handle: Unmarshal, then the RpcId lookup. */
  predicate LookUpHandler(cfg: Config, s: State, s': State, w: nat) {
    && w in s.workers && s.workers[w].Taken? && s.workers[w].f < |s.frames| == |s.stages|
    && var f := s.workers[w].f;
    match DecodeRequest(s.frames[f].payload)
    case None => s' == Drop(s, w, f, Undecodable)
    case Some(msg) =>
      if RpcId(msg) in cfg.table
      then s' == s.(workers := s.workers[w := Looked(f, msg)])
      else s' == Drop(s, w, f, Unregistered)
  }

  function Drop(s: State, w: nat, f: nat, fate: Fate): State
    requires f < |s.stages|
  {
    s.(workers := s.workers[w := Idle], stages := s.stages[f := Done(fate)])
  }

  predicate IncReq(s: State, s': State, w: nat) {
    && w in s.workers && s.workers[w].Looked?
    && s' == s.(workers := s.workers[w := Counted(s.workers[w].f, s.workers[w].msg)], reqs := s.reqs + 1)
  }

  predicate Limit(s: State, s': State, w: nat) {
    && w in s.workers && s.workers[w].Counted?
    && var msg := s.workers[w].msg;
    s' == s.(workers := s.workers[w := Answering(s.workers[w].f, msg, Respond(msg, 405, []), Limited)])
  }

  predicate LimiterPanics(s: State, s': State, w: nat) {
    && w in s.workers && s.workers[w].Counted?
    && s' == s.(workers := s.workers[w := Leaving(s.workers[w].f, s.workers[w].msg, LimiterPanicked)])
  }

  predicate WantsNoReply(msg: Request) { ONLY_CALL_HEADER in msg.headers || msg.sid == 0 }

  /** The fate of a frame whose execution e came to this result. */
  function FateOf(e: nat, result: CallResult): Fate {
    match result
    case Ok(ret) => Succeeded(e, ret)
    case Error => CallFailed(e)
    case Panic => CallPanicked(e)
  }

  /** Where item.Call's outcome takes the worker; e is the execution. */
  function AfterCall(f: nat, msg: Request, e: nat, result: CallResult): WorkerPc {
    match result
    case Ok(ret) =>
      if WantsNoReply(msg) then Leaving(f, msg, FateOf(e, result))
      else Answering(f, msg, Respond(msg, 0, ret), FateOf(e, result))
    case Error => Answering(f, msg, Respond(msg, 505, []), FateOf(e, result))
    case Panic => Leaving(f, msg, FateOf(e, result))
  }

  /** item.Call runs on the request's packet; it may return, fail or panic. */
  predicate Invoke(cfg: Config, s: State, s': State, w: nat, result: CallResult) {
    && w in s.workers && s.workers[w].Counted?
    && var f, msg := s.workers[w].f, s.workers[w].msg;
    && RpcId(msg) in cfg.table
    && s' == s.(execs := s.execs + [Exec(f, cfg.table[RpcId(msg)], msg.packet, result)],
                workers := s.workers[w := AfterCall(f, msg, |s.execs|, result)])
  }

  ghost predicate Answer(s: State, s': State, w: nat, payload: bytes) {
    && w in s.workers && s.workers[w].Answering? && s.workers[w].f < |s.frames|
    && var h := s.workers[w];
    && EncodesResponse(h.resp, payload) && FitsFrame(h.resp)
    && s' == Replied(s, h.f, payload).(workers := s.workers[w := Leaving(h.f, h.msg, h.fate)])
  }

  /** An answer too large for a frame panics in Write; handle recovers, and nothing is sent. */
  ghost predicate AnswerPanics(s: State, s': State, w: nat) {
    && w in s.workers && s.workers[w].Answering?
    && var h := s.workers[w];
    && !FitsFrame(h.resp)
    && s' == s.(workers := s.workers[w := Leaving(h.f, h.msg, h.fate)])
  }

  predicate DecReq(s: State, s': State, w: nat) {
    && w in s.workers && s.workers[w].Leaving? && s.workers[w].f < |s.stages|
    && s' == Drop(s, w, s.workers[w].f, s.workers[w].fate).(reqs := s.reqs - 1)
  }

  // ----- runs

  /** Steps of Client.call. */
  datatype CallerAction =
    | ANewCall(k: Key, call: Call)
    | ARegister(k: Key)
    | AWrite(k: Key, payload: bytes)
    | AWriteFails(k: Key)
    | AReachSelect(k: Key)
    | APickTimeout(k: Key)
    | APickClosed(k: Key)
    | ALockTimeout(k: Key)
    | ALockReply(k: Key)
    | ARendezvous(k: Key, c: Conn)
    | ADeferred(k: Key, sender: Option<Conn>)

  ghost predicate CallerStep(cfg: Config, s: State, s': State, a: CallerAction) {
    match a
    case ANewCall(k, call) => NewCall(s, s', k, call)
    case ARegister(k) => Register(s, s', k)
    case AWrite(k, payload) => Write(cfg, s, s', k, payload)
    case AWriteFails(k) => WriteFails(s, s', k)
    case AReachSelect(k) => ReachSelect(s, s', k)
    case APickTimeout(k) => PickTimeout(s, s', k)
    case APickClosed(k) => PickClosed(s, s', k)
    case ALockTimeout(k) => LockTimeout(s, s', k)
    case ALockReply(k) => LockReply(s, s', k)
    case ARendezvous(k, c) => Rendezvous(s, s', k, c)
    case ADeferred(k, sender) => Deferred(s, s', k, sender)
  }

  /** Steps of the reply handlers and of the network. */
  datatype HandlerAction =
    | ADeliver(c: Conn, i: nat)
    | AReadLock(c: Conn)
    | ALookup(c: Conn)
    | ATestChannel(c: Conn, sender: Option<Conn>)
    | ASendOnClosed(c: Conn)
    | AReadUnlock(c: Conn)
    | AOpen(c: Conn)
    | AClose(c: Conn)
    | AForeignFrame(c: Conn, payload: bytes)
    | ALoseReply(i: nat)

  ghost predicate HandlerStep(cfg: Config, s: State, s': State, a: HandlerAction) {
    match a
    case ADeliver(c, i) => Deliver(s, s', c, i)
    case AReadLock(c) => ReadLock(s, s', c)
    case ALookup(c) => Lookup(s, s', c)
    case ATestChannel(c, sender) => TestChannel(s, s', c, sender)
    case ASendOnClosed(c) => SendOnClosed(s, s', c)
    case AReadUnlock(c) => ReadUnlock(s, s', c)
    case AOpen(c) => Open(cfg, s, s', c)
    case AClose(c) => Close(s, s', c)
    case AForeignFrame(c, payload) => ForeignFrame(s, s', c, payload)
    case ALoseReply(i) => LoseReply(s, s', i)
  }

  /** Steps of the server's onRecv and workers. */
  datatype ServerAction =
    | AReceive(f: nat)
    | APush(c: Conn)
    | ARefuse(c: Conn, payload: bytes)
    | ARefusePanics(c: Conn)
    | ATake(w: nat)
    | ALookUpHandler(w: nat)
    | AIncReq(w: nat)
    | ALimit(w: nat)
    | ALimiterPanics(w: nat)
    | AInvoke(w: nat, result: CallResult)
    | AAnswer(w: nat, payload: bytes)
    | AAnswerPanics(w: nat)
    | ADecReq(w: nat)

  ghost predicate ServerStep(cfg: Config, s: State, s': State, a: ServerAction) {
    match a
    case AReceive(f) => Receive(cfg, s, s', f)
    case APush(c) => Push(cfg, s, s', c)
    case ARefuse(c, payload) => Refuse(s, s', c, payload)
    case ARefusePanics(c) => RefusePanics(s, s', c)
    case ATake(w) => Take(s, s', w)
    case ALookUpHandler(w) => LookUpHandler(cfg, s, s', w)
    case AIncReq(w) => IncReq(s, s', w)
    case ALimit(w) => Limit(s, s', w)
    case ALimiterPanics(w) => LimiterPanics(s, s', w)
    case AInvoke(w, result) => Invoke(cfg, s, s', w, result)
    case AAnswer(w, payload) => Answer(s, s', w, payload)
    case AAnswerPanics(w) => AnswerPanics(s, s', w)
    case ADecReq(w) => DecReq(s, s', w)
  }

  datatype Action = ByCaller(c: CallerAction) | ByHandler(h: HandlerAction) | ByServer(v: ServerAction)

  ghost predicate Step(cfg: Config, s: State, s': State, a: Action) {
    match a
    case ByCaller(x) => CallerStep(cfg, s, s', x)
    case ByHandler(x) => HandlerStep(cfg, s, s', x)
    case ByServer(x) => ServerStep(cfg, s, s', x)
  }

  ghost predicate Next(cfg: Config, s: State, s': State) {
    exists a :: Step(cfg, s, s', a)
  }

  ghost predicate Run(cfg: Config, run: seq<State>) {
    && |run| > 0 && Init(run[0])
    && forall i :: 0 <= i < |run| - 1 ==> Next(cfg, run[i], run[i + 1])
  }
}
