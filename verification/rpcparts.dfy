/** How each part of the invariant survives one kind of update. */
module RpcParts {
  import opened Bytes
  import opened Packets
  import opened Rpc
  import opened RpcInvariants

  // ----- what the invariant says of one element

  lemma CallAt(cfg: Config, s: State, k: Key)
    requires Inv(cfg, s) && k in s.calls
    ensures CallOk(cfg, k, s.calls[k], s.frames)
    ensures k.sid <= Counter(s.counters, k.pool.process)
    ensures GotOk(k, s.calls[k], s.callItem, s.replies, s.deliveries)
    ensures k in s.callItem <==> Listed(s.calls[k])
  {
    hide CallOk; hide GotOk; hide Listed;
  }

  /** The reply a handler holds answers the frame of exactly one call, the one it is aimed at. */
  lemma TargetOwner(cfg: Config, s: State, c: Conn)
    requires Inv(cfg, s) && c in s.handlers && HasReply(s.handlers[c])
    ensures c.Dialled? && s.handlers[c].i < |s.replies| == |s.deliveries|
    ensures s.deliveries[s.handlers[c].i] == AtHandler
    ensures var k := Target(c, s.handlers[c].resp);
            k in s.calls && s.calls[k].frame == Some(s.replies[s.handlers[c].i].frame)
    ensures s.replies[s.handlers[c].i].frame in s.replyOf
            && s.replyOf[s.replies[s.handlers[c].i].frame] == s.handlers[c].i
  {
    hide DecodeRequest; hide DecodeResponse; hide WorkersInv; hide QueueInv; hide RecvInv; hide ItemInv; hide GotInv;
    hide Settled; hide Signed64;
    var i := s.handlers[c].i;
    assert HandlerOk(c, s.handlers[c], s.calls, s.callItem, s.replies, s.deliveries);
    var f := s.replies[i].frame;
    assert ReplyOk(cfg, s.frames, Settled(s.stages, s.workers, f).value, s.execs, s.replies[i]);
    var k := s.frames[f].owner.value;
    assert CallOk(cfg, k, s.calls[k], s.frames);
  }

  /** Two handlers never hold replies for the same call. */
  lemma OneHandler(cfg: Config, s: State, c: Conn, d: Conn)
    requires Inv(cfg, s) && c in s.handlers && d in s.handlers
    requires HasReply(s.handlers[c]) && HasReply(s.handlers[d]) && c.Dialled? && d.Dialled?
    requires Target(c, s.handlers[c].resp) == Target(d, s.handlers[d].resp)
    ensures c == d
  {
    TargetOwner(cfg, s, c);
    TargetOwner(cfg, s, d);
    assert HandlerOk(c, s.handlers[c], s.calls, s.callItem, s.replies, s.deliveries);
    assert HandlerOk(d, s.handlers[d], s.calls, s.callItem, s.replies, s.deliveries);
  }

  /** A call some handler holds a reply for has not received anything yet. */
  lemma NothingGot(cfg: Config, s: State, c: Conn)
    requires Inv(cfg, s) && c in s.handlers && HasReply(s.handlers[c])
    ensures c.Dialled? && Target(c, s.handlers[c].resp) in s.calls
    ensures s.calls[Target(c, s.handlers[c].resp)].got == None
  {
    hide DecodeRequest; hide DecodeResponse;
    TargetOwner(cfg, s, c);
    var k := Target(c, s.handlers[c].resp);
    CallAt(cfg, s, k);
  }

  // ----- one call and its entry

  predicate SameIdentity(c: Call, d: Call) {
    && c.rpc == d.rpc && c.packet == d.packet && c.onlyCall == d.onlyCall && c.traceId == d.traceId
    && c.conn == d.conn && c.frame == d.frame
  }

  predicate OnlyAt(k: Key, item: map<Key, Entry>, item': map<Key, Entry>) {
    item' - {k} == item - {k}
  }

  lemma CallsSet(cfg: Config, counters: map<nat, int>, calls: map<Key, Call>, frames: seq<Frame>, k: Key, c: Call)
    requires CallsInv(cfg, counters, calls, frames)
    requires CallOk(cfg, k, c, frames) && k.sid <= Counter(counters, k.pool.process)
    ensures CallsInv(cfg, counters, calls[k := c], frames)
  {
    hide CallOk; hide Counter;
  }

  lemma ItemSet(calls: map<Key, Call>, item: map<Key, Entry>, item': map<Key, Entry>, k: Key, c: Call)
    requires ItemInv(calls, item) && OnlyAt(k, item, item') && (k in item' <==> Listed(c))
    ensures ItemInv(calls[k := c], item')
  {
    hide Listed;
    forall x ensures x in item' <==> x in calls[k := c] && Listed(calls[k := c][x]) {
      assert x != k ==> (x in item' <==> x in item' - {k}) && (x in item <==> x in item - {k});
    }
  }

  lemma FramesSet(calls: map<Key, Call>, frames: seq<Frame>, k: Key, c: Call)
    requires FramesInv(calls, frames)
    requires k in calls ==> c.frame == calls[k].frame && c.conn == calls[k].conn
    ensures FramesInv(calls[k := c], frames)
  {
  }

  lemma HandlersSetCall(handlers: map<Conn, HandlerPc>, calls: map<Key, Call>, item: map<Key, Entry>,
                        item': map<Key, Entry>, replies: seq<ReplyFrame>, deliveries: seq<Delivery>, k: Key, c: Call)
    requires HandlersInv(handlers, calls, item, replies, deliveries) && OnlyAt(k, item, item')
    requires item' == item
             || forall x :: x in handlers && x.Dialled? && (handlers[x].Stored? || handlers[x].Sending?)
                            ==> Target(x, handlers[x].resp) != k
    ensures HandlersInv(handlers, calls[k := c], item', replies, deliveries)
  {
    hide DecodeResponse;
    forall x | x in handlers ensures HandlerOk(x, handlers[x], calls[k := c], item', replies, deliveries) {
      assert HandlerOk(x, handlers[x], calls, item, replies, deliveries);
      OnlyAtElsewhere(k, item, item');
    }
  }

  lemma OnlyAtElsewhere(k: Key, item: map<Key, Entry>, item': map<Key, Entry>)
    requires OnlyAt(k, item, item')
    ensures forall x :: x != k ==> (x in item' <==> x in item) && (x in item ==> item'[x] == item[x])
  {
    forall x | x != k ensures (x in item' <==> x in item) && (x in item ==> item'[x] == item[x]) {
      assert x in item' <==> x in item' - {k};
      assert x in item <==> x in item - {k};
      if x in item { assert (item' - {k})[x] == (item - {k})[x]; }
    }
  }

  lemma GotSet(calls: map<Key, Call>, item: map<Key, Entry>, item': map<Key, Entry>,
               replies: seq<ReplyFrame>, deliveries: seq<Delivery>, k: Key, c: Call)
    requires GotInv(calls, item, replies, deliveries) && OnlyAt(k, item, item')
    requires GotOk(k, c, item', replies, deliveries)
    ensures GotInv(calls[k := c], item', replies, deliveries)
  {
    hide DecodeResponse;
    OnlyAtElsewhere(k, item, item');
  }

  /** A step of caller k that may change its entry, if no handler is looking at it. */
  lemma CallerMoves(cfg: Config, s: State, k: Key, c: Call, item: map<Key, Entry>)
    requires Inv(cfg, s) && k in s.calls && SameIdentity(s.calls[k], c)
    requires CallOk(cfg, k, c, s.frames) && GotOk(k, c, item, s.replies, s.deliveries)
    requires OnlyAt(k, s.callItem, item) && (k in item <==> Listed(c))
    requires item == s.callItem || NoReaders(s, k.pool)
    ensures Inv(cfg, s.(calls := s.calls[k := c], callItem := item))
  {
    hide CallsInv; hide ItemInv; hide FramesInv; hide RecvInv; hide QueueInv; hide WorkersInv; hide LedgerInv;
    hide HandlersInv; hide GotInv; hide CountInv; hide ReqsInv; hide CallOk; hide GotOk; hide OnlyAt; hide Listed;
    CallAt(cfg, s, k);
    CallsSet(cfg, s.counters, s.calls, s.frames, k, c);
    ItemSet(s.calls, s.callItem, item, k, c);
    FramesSet(s.calls, s.frames, k, c);
    HandlersSetCall(s.handlers, s.calls, s.callItem, item, s.replies, s.deliveries, k, c);
    GotSet(s.calls, s.callItem, item, s.replies, s.deliveries, k, c);
  }

  // ----- handlers and deliveries

  lemma HandlerSet(handlers: map<Conn, HandlerPc>, calls: map<Key, Call>, item: map<Key, Entry>,
                   replies: seq<ReplyFrame>, deliveries: seq<Delivery>, c: Conn, h: HandlerPc)
    requires HandlersInv(handlers, calls, item, replies, deliveries)
    requires HandlerOk(c, h, calls, item, replies, deliveries)
    ensures HandlersInv(handlers[c := h], calls, item, replies, deliveries)
  {
    hide HandlerOk;
  }

  /** Reply i changes hands while no handler works on it. */
  lemma HandlersDelivery(handlers: map<Conn, HandlerPc>, calls: map<Key, Call>, item: map<Key, Entry>,
                         replies: seq<ReplyFrame>, deliveries: seq<Delivery>, i: nat, d: Delivery)
    requires HandlersInv(handlers, calls, item, replies, deliveries) && i < |deliveries|
    requires forall c :: c in handlers && HasReply(handlers[c]) ==> handlers[c].i != i
    ensures HandlersInv(handlers, calls, item, replies, deliveries[i := d])
  {
    hide DecodeResponse;
    forall c | c in handlers ensures HandlerOk(c, handlers[c], calls, item, replies, deliveries[i := d]) {
      assert HandlerOk(c, handlers[c], calls, item, replies, deliveries);
    }
  }

  lemma GotDelivery(calls: map<Key, Call>, item: map<Key, Entry>, replies: seq<ReplyFrame>,
                    deliveries: seq<Delivery>, i: nat, d: Delivery)
    requires GotInv(calls, item, replies, deliveries) && i < |deliveries| && (deliveries[i] != Spent || d == Spent)
    ensures GotInv(calls, item, replies, deliveries[i := d])
  {
    hide DecodeResponse;
    forall k | k in calls ensures GotOk(k, calls[k], item, replies, deliveries[i := d]) {
      assert GotOk(k, calls[k], item, replies, deliveries);
    }
  }

  lemma HandlersReply(handlers: map<Conn, HandlerPc>, calls: map<Key, Call>, item: map<Key, Entry>,
                      replies: seq<ReplyFrame>, deliveries: seq<Delivery>, r: ReplyFrame)
    requires HandlersInv(handlers, calls, item, replies, deliveries)
    ensures HandlersInv(handlers, calls, item, replies + [r], deliveries + [InFlight])
  {
    hide DecodeResponse;
    forall c | c in handlers
      ensures HandlerOk(c, handlers[c], calls, item, replies + [r], deliveries + [InFlight])
    {
      assert HandlerOk(c, handlers[c], calls, item, replies, deliveries);
    }
  }

  lemma GotReply(calls: map<Key, Call>, item: map<Key, Entry>, replies: seq<ReplyFrame>,
                 deliveries: seq<Delivery>, r: ReplyFrame)
    requires GotInv(calls, item, replies, deliveries) && |replies| == |deliveries|
    ensures GotInv(calls, item, replies + [r], deliveries + [InFlight])
  {
    hide DecodeResponse;
    forall k | k in calls ensures GotOk(k, calls[k], item, replies + [r], deliveries + [InFlight]) {
      assert GotOk(k, calls[k], item, replies, deliveries);
    }
  }

  // ----- frames, stages and the server's hands

  lemma RecvStage(frames: seq<Frame>, stages: seq<Stage>, recv: map<Conn, RecvPc>, f: nat, x: Stage)
    requires RecvInv(frames, stages, recv) && f < |stages|
    requires forall c :: c in recv && !recv[c].Reading? ==> recv[c].f != f
    ensures RecvInv(frames, stages[f := x], recv)
  {
  }

  lemma RecvSet(frames: seq<Frame>, stages: seq<Stage>, recv: map<Conn, RecvPc>, c: Conn, p: RecvPc)
    requires RecvInv(frames, stages, recv)
    requires !p.Reading? ==> p.f < |frames| && frames[p.f].conn == c && stages[p.f] == AtRecv
    ensures RecvInv(frames, stages, recv[c := p])
  {
  }

  lemma QueueStage(stages: seq<Stage>, reqCh: seq<nat>, f: nat, x: Stage)
    requires QueueInv(stages, reqCh) && f < |stages| && f !in reqCh
    ensures QueueInv(stages[f := x], reqCh)
  {
  }

  lemma WorkersStage(cfg: Config, frames: seq<Frame>, stages: seq<Stage>, workers: map<nat, WorkerPc>,
                     execs: seq<Exec>, f: nat, x: Stage)
    requires WorkersInv(cfg, frames, stages, workers, execs) && f < |stages|
    requires forall w :: w in workers && !workers[w].Idle? ==> workers[w].f != f
    ensures WorkersInv(cfg, frames, stages[f := x], workers, execs)
  {
    hide WorkerOk;
  }

  lemma WorkerSet(cfg: Config, frames: seq<Frame>, stages: seq<Stage>, workers: map<nat, WorkerPc>,
                  execs: seq<Exec>, w: nat, p: WorkerPc)
    requires WorkersInv(cfg, frames, stages, workers, execs) && WorkerOk(cfg, frames, execs, p)
    requires !p.Idle? ==> p.f < |stages| && stages[p.f] == AtWorker(w)
    ensures WorkersInv(cfg, frames, stages, workers[w := p], execs)
  {
    hide WorkerOk;
  }

  lemma WorkersExec(cfg: Config, frames: seq<Frame>, stages: seq<Stage>, workers: map<nat, WorkerPc>,
                    execs: seq<Exec>, e: Exec)
    requires WorkersInv(cfg, frames, stages, workers, execs)
    ensures WorkersInv(cfg, frames, stages, workers, execs + [e])
  {
    hide DecodeRequest; hide ReplyDue; hide RpcId;
    forall w | w in workers ensures WorkerOk(cfg, frames, execs + [e], workers[w]) {
      assert WorkerOk(cfg, frames, execs, workers[w]);
    }
  }

  /** A frame the server has not touched is in nobody's hands. */
  lemma FreeFrame(cfg: Config, s: State, f: nat)
    requires Inv(cfg, s) && f < |s.stages|
    ensures !s.stages[f].AtRecv? ==> forall c :: c in s.recv && !s.recv[c].Reading? ==> s.recv[c].f != f
    ensures !s.stages[f].Queued? ==> f !in s.reqCh
    ensures !s.stages[f].AtWorker? ==> forall w :: w in s.workers && !s.workers[w].Idle? ==> s.workers[w].f != f
  {
    hide WorkerOk; hide LedgerInv; hide CallsInv; hide HandlersInv; hide GotInv; hide ItemInv; hide FramesInv;
  }

  // ----- the ledger

  lemma LedgerSame(cfg: Config, frames: seq<Frame>, stages: seq<Stage>, workers: map<nat, WorkerPc>,
                   stages': seq<Stage>, workers': map<nat, WorkerPc>,
                   execs: seq<Exec>, replies: seq<ReplyFrame>, replyOf: map<nat, nat>)
    requires LedgerInv(cfg, frames, stages, workers, execs, replies, replyOf) && |stages'| == |stages|
    requires forall f :: 0 <= f < |stages| ==> Settled(stages', workers', f) == Settled(stages, workers, f)
    ensures LedgerInv(cfg, frames, stages', workers', execs, replies, replyOf)
  {
    hide ReplyOk; hide Owed; hide Settled; hide FateSound;
    assert forall i :: 0 <= i < |replies| ==>
             Settled(stages', workers', replies[i].frame) == Settled(stages, workers, replies[i].frame);
  }

  lemma LedgerExec(cfg: Config, frames: seq<Frame>, stages: seq<Stage>, workers: map<nat, WorkerPc>,
                   execs: seq<Exec>, e: Exec, replies: seq<ReplyFrame>, replyOf: map<nat, nat>)
    requires LedgerInv(cfg, frames, stages, workers, execs, replies, replyOf)
    ensures LedgerInv(cfg, frames, stages, workers, execs + [e], replies, replyOf)
  {
    hide Settled; hide Owed; hide DecodeRequest; hide DecodeResponse; hide ReplyDue; hide FitsFrame; hide RpcId;
    forall f | 0 <= f < |frames| && Settled(stages, workers, f).Some?
      ensures FateSound(cfg, f, frames[f].payload, Settled(stages, workers, f).value, execs + [e])
    {
      assert FateSound(cfg, f, frames[f].payload, Settled(stages, workers, f).value, execs);
    }
    forall i | 0 <= i < |replies|
      ensures ReplyOk(cfg, frames, Settled(stages, workers, replies[i].frame).value, execs + [e], replies[i])
    {
      assert ReplyOk(cfg, frames, Settled(stages, workers, replies[i].frame).value, execs, replies[i]);
    }
  }

  /** Frame f is settled with a fate that owes nothing. */
  lemma LedgerSettle(cfg: Config, frames: seq<Frame>, stages: seq<Stage>, workers: map<nat, WorkerPc>,
                     stages': seq<Stage>, workers': map<nat, WorkerPc>,
                     execs: seq<Exec>, replies: seq<ReplyFrame>, replyOf: map<nat, nat>, f: nat)
    requires LedgerInv(cfg, frames, stages, workers, execs, replies, replyOf) && |stages'| == |stages|
    requires f < |stages| && Settled(stages, workers, f).None?
    requires forall x :: 0 <= x < |stages| && x != f ==> Settled(stages', workers', x) == Settled(stages, workers, x)
    requires Settled(stages', workers', f).Some? ==>
               && !Owed(frames[f].payload, Settled(stages', workers', f).value)
               && FateSound(cfg, f, frames[f].payload, Settled(stages', workers', f).value, execs)
    ensures LedgerInv(cfg, frames, stages', workers', execs, replies, replyOf)
  {
    hide ReplyOk; hide Owed; hide Settled; hide FateSound;
    assert forall i :: 0 <= i < |replies| ==> replies[i].frame != f;
    assert forall i :: 0 <= i < |replies| ==>
             Settled(stages', workers', replies[i].frame) == Settled(stages, workers, replies[i].frame);
  }

  /** Frame f is settled and answered by r in the same step. */
  lemma LedgerAnswer(cfg: Config, frames: seq<Frame>, stages: seq<Stage>, workers: map<nat, WorkerPc>,
                     stages': seq<Stage>, workers': map<nat, WorkerPc>,
                     execs: seq<Exec>, replies: seq<ReplyFrame>, replyOf: map<nat, nat>, r: ReplyFrame)
    requires LedgerInv(cfg, frames, stages, workers, execs, replies, replyOf) && |stages'| == |stages|
    requires r.frame < |stages| && Settled(stages, workers, r.frame).None?
    requires forall x :: 0 <= x < |stages| && x != r.frame ==>
               Settled(stages', workers', x) == Settled(stages, workers, x)
    requires Settled(stages', workers', r.frame).Some?
             && ReplyOk(cfg, frames, Settled(stages', workers', r.frame).value, execs, r)
             && FateSound(cfg, r.frame, frames[r.frame].payload, Settled(stages', workers', r.frame).value, execs)
    ensures LedgerInv(cfg, frames, stages', workers', execs, replies + [r], replyOf[r.frame := |replies|])
  {
    hide ReplyOk; hide Owed; hide Settled; hide FateSound;
    assert forall i :: 0 <= i < |replies| ==> replies[i].frame != r.frame;
    assert forall i :: 0 <= i < |replies| ==>
             Settled(stages', workers', replies[i].frame) == Settled(stages, workers, replies[i].frame);
  }

  /** A new frame on the wire. */
  lemma ServerNewFrame(cfg: Config, s: State, x: Frame)
    requires Inv(cfg, s)
    ensures RecvInv(s.frames + [x], s.stages + [OnWire], s.recv)
    ensures QueueInv(s.stages + [OnWire], s.reqCh)
    ensures WorkersInv(cfg, s.frames + [x], s.stages + [OnWire], s.workers, s.execs)
    ensures LedgerInv(cfg, s.frames + [x], s.stages + [OnWire], s.workers, s.execs, s.replies, s.replyOf)
  {
    LedgerNewFrame(cfg, s.frames, x, s.stages, s.workers, s.execs, s.replies, s.replyOf);
    WorkersNewFrame(cfg, s.frames, x, s.stages, s.workers, s.execs);
    hide LedgerInv; hide WorkersInv; hide CallsInv; hide HandlersInv; hide GotInv;
  }

  lemma WorkersNewFrame(cfg: Config, frames: seq<Frame>, x: Frame, stages: seq<Stage>, workers: map<nat, WorkerPc>,
                        execs: seq<Exec>)
    requires WorkersInv(cfg, frames, stages, workers, execs) && |stages| == |frames|
    ensures WorkersInv(cfg, frames + [x], stages + [OnWire], workers, execs)
  {
    hide DecodeRequest; hide AnswerOk; hide FateOk;
    forall w | w in workers ensures WorkerOk(cfg, frames + [x], execs, workers[w]) {
      assert WorkerOk(cfg, frames, execs, workers[w]);
    }
  }

  lemma LedgerNewFrame(cfg: Config, frames: seq<Frame>, x: Frame, stages: seq<Stage>, workers: map<nat, WorkerPc>,
                       execs: seq<Exec>, replies: seq<ReplyFrame>, replyOf: map<nat, nat>)
    requires LedgerInv(cfg, frames, stages, workers, execs, replies, replyOf)
    ensures LedgerInv(cfg, frames + [x], stages + [OnWire], workers, execs, replies, replyOf)
  {
    hide DecodeRequest; hide DecodeResponse; hide AnswerOk; hide Owed; hide FateSound; hide FitsFrame;
    assert forall f :: 0 <= f < |stages| ==> Settled(stages + [OnWire], workers, f) == Settled(stages, workers, f);
    forall i | 0 <= i < |replies|
      ensures ReplyOk(cfg, frames + [x], Settled(stages, workers, replies[i].frame).value, execs, replies[i])
    {
      assert ReplyOk(cfg, frames, Settled(stages, workers, replies[i].frame).value, execs, replies[i]);
    }
  }
}
