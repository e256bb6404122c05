/** No request is lost inside the server: where its stage says a frame is, there it is. */
module RpcFrames {
  import opened Bytes
  import opened Packets
  import opened Rpc
  import opened RpcInvariants
  import opened RpcSteps
  import opened RpcExecutions

  predicate HeldAt(frames: seq<Frame>, stages: seq<Stage>, recv: map<Conn, RecvPc>, reqCh: seq<nat>,
                   workers: map<nat, WorkerPc>, f: nat)
    requires f < |stages|
  {
    match stages[f]
    case AtRecv =>
      f < |frames| && frames[f].conn in recv && !recv[frames[f].conn].Reading? && recv[frames[f].conn].f == f
    case Queued => f in reqCh
    case AtWorker(w) => w in workers && !workers[w].Idle? && workers[w].f == f
    case _ => true
  }

  /** Frames at onRecv, in the channel and at a worker are held there, each by exactly that one. */
  predicate Held(frames: seq<Frame>, stages: seq<Stage>, recv: map<Conn, RecvPc>, reqCh: seq<nat>,
                 workers: map<nat, WorkerPc>) {
    forall f :: 0 <= f < |stages| ==> HeldAt(frames, stages, recv, reqCh, workers, f)
  }

  predicate HeldIn(s: State) { Held(s.frames, s.stages, s.recv, s.reqCh, s.workers) }

  // ----- one holder at a time

  lemma WorkerGoesOn(s: State, w: nat, p: WorkerPc)
    requires HeldIn(s) && w in s.workers && !s.workers[w].Idle? && !p.Idle? && p.f == s.workers[w].f
    ensures Held(s.frames, s.stages, s.recv, s.reqCh, s.workers[w := p])
  {
    var workers := s.workers[w := p];
    forall f | 0 <= f < |s.stages| ensures HeldAt(s.frames, s.stages, s.recv, s.reqCh, workers, f) {
      assert HeldAt(s.frames, s.stages, s.recv, s.reqCh, s.workers, f);
    }
  }

  lemma WorkerLetsGo(s: State, w: nat, f: nat, fate: Fate)
    requires HeldIn(s) && w in s.workers && !s.workers[w].Idle? && f == s.workers[w].f < |s.stages|
    ensures Held(s.frames, s.stages[f := Done(fate)], s.recv, s.reqCh, s.workers[w := Idle])
  {
    var stages, workers := s.stages[f := Done(fate)], s.workers[w := Idle];
    forall g | 0 <= g < |stages| ensures HeldAt(s.frames, stages, s.recv, s.reqCh, workers, g) {
      assert HeldAt(s.frames, s.stages, s.recv, s.reqCh, s.workers, g);
    }
  }

  lemma WorkerTakes(s: State, w: nat)
    requires HeldIn(s) && w in s.workers && s.workers[w].Idle? && s.reqCh != [] && s.reqCh[0] < |s.stages|
    ensures var f := s.reqCh[0];
            Held(s.frames, s.stages[f := AtWorker(w)], s.recv, s.reqCh[1..], s.workers[w := Taken(f)])
  {
    var f, rest, workers := s.reqCh[0], s.reqCh[1..], s.workers[w := Taken(s.reqCh[0])];
    var stages := s.stages[f := AtWorker(w)];
    forall g | 0 <= g < |stages| ensures HeldAt(s.frames, stages, s.recv, rest, workers, g) {
      assert HeldAt(s.frames, s.stages, s.recv, s.reqCh, s.workers, g);
    }
  }

  lemma RecvGets(s: State, c: Conn, f: nat, p: RecvPc)
    requires HeldIn(s) && c in s.recv && s.recv[c].Reading? && !p.Reading? && p.f == f
    requires f < |s.stages| == |s.frames| && s.frames[f].conn == c
    ensures Held(s.frames, s.stages[f := AtRecv], s.recv[c := p], s.reqCh, s.workers)
  {
    var stages, recv := s.stages[f := AtRecv], s.recv[c := p];
    forall g | 0 <= g < |stages| ensures HeldAt(s.frames, stages, recv, s.reqCh, s.workers, g) {
      assert HeldAt(s.frames, s.stages, s.recv, s.reqCh, s.workers, g);
    }
  }

  /** onRecv passes its frame on, or is done with it; then it reads again, or the connection is closed. */
  lemma RecvLetsGo(s: State, c: Conn, f: nat, x: Stage, reqCh: seq<nat>)
    requires HeldIn(s) && c in s.recv && !s.recv[c].Reading? && f == s.recv[c].f < |s.stages|
    requires (x.Done? && reqCh == s.reqCh) || (x.Queued? && reqCh == s.reqCh + [f])
    ensures Held(s.frames, s.stages[f := x], s.recv[c := Reading], reqCh, s.workers)
    ensures Held(s.frames, s.stages[f := x], s.recv - {c}, reqCh, s.workers)
  {
    var stages, recv, recv' := s.stages[f := x], s.recv[c := Reading], s.recv - {c};
    assert x.Queued? ==> reqCh[|s.reqCh|] == f;
    assert forall g :: g in s.reqCh ==> g in reqCh;
    forall g | 0 <= g < |stages| ensures HeldAt(s.frames, stages, recv, reqCh, s.workers, g) {
      assert HeldAt(s.frames, s.stages, s.recv, s.reqCh, s.workers, g);
    }
    forall g | 0 <= g < |stages| ensures HeldAt(s.frames, stages, recv', reqCh, s.workers, g) {
      assert HeldAt(s.frames, s.stages, s.recv, s.reqCh, s.workers, g);
    }
  }

  lemma SameServerHolds(s: State, s': State)
    requires HeldIn(s) && SameServer(s, s')
    ensures HeldIn(s')
  {
    forall f | 0 <= f < |s'.stages| ensures HeldAt(s'.frames, s'.stages, s'.recv, s'.reqCh, s'.workers, f) {
      if f < |s.stages| {
        assert s'.stages[f] == s.stages[f] && HeldAt(s.frames, s.stages, s.recv, s.reqCh, s.workers, f);
        if s.stages[f].AtRecv? { assert s'.frames[f] == s.frames[f]; }
      }
    }
  }

  // ----- steps

  lemma ServerHolds(cfg: Config, s: State, s': State, a: ServerAction)
    requires Inv(cfg, s) && HeldIn(s) && ServerStep(cfg, s, s', a)
    ensures HeldIn(s')
  {
    hide Inv; hide Held; hide Refuse; hide RefusePanics; hide LookUpHandler; hide Answer; hide AnswerPanics;
    hide Receive; hide Push; hide Take; hide Invoke;
    match a
    case AReceive(f) => ReceiveHolds(cfg, s, s', f);
    case APush(c) => PushHolds(cfg, s, s', c);
    case ARefuse(c, payload) => RefuseHolds(s, s', c, payload);
    case ARefusePanics(c) => RefusePanicsHolds(s, s', c);
    case ATake(w) => TakeHolds(s, s', w);
    case ALookUpHandler(w) => LookUpHolds(cfg, s, s', w);
    case AIncReq(w) => WorkerGoesOn(s, w, s'.workers[w]);
    case ALimit(w) => WorkerGoesOn(s, w, s'.workers[w]);
    case ALimiterPanics(w) => WorkerGoesOn(s, w, s'.workers[w]);
    case AInvoke(w, result) => InvokeHolds(cfg, s, s', w, result);
    case AAnswer(w, payload) => AnswerHolds(s, s', w, payload);
    case AAnswerPanics(w) => AnswerPanicsHolds(s, s', w);
    case ADecReq(w) => WorkerLetsGo(s, w, s.workers[w].f, s.workers[w].fate);
  }

  lemma ReceiveHolds(cfg: Config, s: State, s': State, f: nat)
    requires HeldIn(s) && Receive(cfg, s, s', f)
    ensures HeldIn(s')
  {
    hide Held;
    RecvGets(s, s.frames[f].conn, f, s'.recv[s.frames[f].conn]);
  }

  lemma PushHolds(cfg: Config, s: State, s': State, c: Conn)
    requires HeldIn(s) && Push(cfg, s, s', c)
    ensures HeldIn(s')
  {
    hide Held;
    RecvLetsGo(s, c, s.recv[c].f, Queued, s.reqCh + [s.recv[c].f]);
  }

  lemma RefuseHolds(s: State, s': State, c: Conn, payload: bytes)
    requires HeldIn(s) && Refuse(s, s', c, payload)
    ensures HeldIn(s')
  {
    hide HeldIn; hide DecodeRequest; hide EncodesResponse; hide FitsFrame; hide Respond; hide Replied;
    var f := s.recv[c].f;
    match DecodeRequest(s.frames[f].payload)
    case None => RefusedHolds(s, c, Undecodable, payload);
    case Some(msg) => RefusedHolds(s, c, Fate.Refused, payload);
  }

  lemma RefusedHolds(s: State, c: Conn, fate: Fate, payload: bytes)
    requires HeldIn(s) && c in s.recv && !s.recv[c].Reading? && s.recv[c].f < |s.frames| == |s.stages|
    ensures var f, s1 := s.recv[c].f, s.(recv := s.recv[c := Reading]);
            && HeldIn(s1.(stages := s.stages[f := Done(fate)]))
            && HeldIn(Replied(s1, f, payload).(stages := s.stages[f := Done(fate)]))
  {
    hide Held;
    RecvLetsGo(s, c, s.recv[c].f, Done(fate), s.reqCh);
  }

  lemma RefusePanicsHolds(s: State, s': State, c: Conn)
    requires HeldIn(s) && RefusePanics(s, s', c)
    ensures HeldIn(s')
  {
    hide Held; hide DecodeRequest; hide FitsFrame; hide Respond;
    RecvLetsGo(s, c, s.recv[c].f, Done(Fate.Refused), s.reqCh);
  }

  lemma TakeHolds(s: State, s': State, w: nat)
    requires HeldIn(s) && Take(s, s', w)
    ensures HeldIn(s')
  {
    hide Held;
    WorkerTakes(s, w);
  }

  lemma LookUpHolds(cfg: Config, s: State, s': State, w: nat)
    requires HeldIn(s) && LookUpHandler(cfg, s, s', w)
    ensures HeldIn(s')
  {
    hide HeldIn; hide DecodeRequest; hide RpcId; hide Drop;
    var f := s.workers[w].f;
    match DecodeRequest(s.frames[f].payload)
    case None => DropHolds(s, w, Undecodable);
    case Some(msg) =>
      if RpcId(msg) in cfg.table {
        LookedHolds(s, w, msg);
      } else {
        DropHolds(s, w, Unregistered);
      }
  }

  lemma DropHolds(s: State, w: nat, fate: Fate)
    requires HeldIn(s) && w in s.workers && !s.workers[w].Idle? && s.workers[w].f < |s.stages|
    ensures HeldIn(Drop(s, w, s.workers[w].f, fate))
  {
    hide Held;
    WorkerLetsGo(s, w, s.workers[w].f, fate);
  }

  lemma LookedHolds(s: State, w: nat, msg: Request)
    requires HeldIn(s) && w in s.workers && !s.workers[w].Idle?
    ensures HeldIn(s.(workers := s.workers[w := Looked(s.workers[w].f, msg)]))
  {
    hide Held;
    WorkerGoesOn(s, w, Looked(s.workers[w].f, msg));
  }

  lemma InvokeHolds(cfg: Config, s: State, s': State, w: nat, result: CallResult)
    requires HeldIn(s) && Invoke(cfg, s, s', w, result)
    ensures HeldIn(s')
  {
    hide Held; hide RpcId; hide Respond;
    WorkerGoesOn(s, w, s'.workers[w]);
  }

  lemma AnswerHolds(s: State, s': State, w: nat, payload: bytes)
    requires HeldIn(s) && Answer(s, s', w, payload)
    ensures HeldIn(s')
  {
    hide Held; hide EncodesResponse; hide FitsFrame;
    WorkerGoesOn(s, w, s'.workers[w]);
  }

  lemma AnswerPanicsHolds(s: State, s': State, w: nat)
    requires HeldIn(s) && AnswerPanics(s, s', w)
    ensures HeldIn(s')
  {
    hide Held; hide FitsFrame;
    WorkerGoesOn(s, w, s'.workers[w]);
  }

  lemma StepHolds(cfg: Config, s: State, s': State, a: Action)
    requires Inv(cfg, s) && HeldIn(s) && Step(cfg, s, s', a)
    ensures HeldIn(s')
  {
    hide Inv; hide HeldIn; hide CallerStep; hide HandlerStep; hide ServerStep; hide SameServer;
    match a
    case ByCaller(x) => CallerLeavesServer(cfg, s, s', x); SameServerHolds(s, s');
    case ByHandler(x) => HandlerLeavesServer(cfg, s, s', x); SameServerHolds(s, s');
    case ByServer(x) => ServerHolds(cfg, s, s', x);
  }

  lemma {:induction false} RunHolds(cfg: Config, run: seq<State>, i: nat)
    requires Run(cfg, run) && i < |run|
    ensures HeldIn(run[i])
  {
    hide Inv; hide Step; hide HeldIn;
    if i == 0 {
      NoFrames(run[0]);
    } else {
      RunHolds(cfg, run, i - 1);
      RunKeepsInv(cfg, run, i - 1);
      assert Next(cfg, run[i - 1], run[i]);
      var a :| Step(cfg, run[i - 1], run[i], a);
      StepHolds(cfg, run[i - 1], run[i], a);
    }
  }

  lemma NoFrames(s: State)
    requires Init(s)
    ensures HeldIn(s)
  {
  }

  /**
   * In every run, each frame is on the wire, with onRecv of its own open connection, in the channel, in
   * the hands of a worker, or done; in each case nowhere else.
   */
  lemma FrameIsSomewhere(cfg: Config, run: seq<State>, i: nat, f: nat)
    requires Run(cfg, run) && i < |run| && f < |run[i].frames|
    ensures var s := run[i];
            && f < |s.stages|
            && (s.stages[f].AtRecv? <==> exists c :: c in s.recv && !s.recv[c].Reading? && s.recv[c].f == f)
            && (s.stages[f].AtRecv? ==> var c := s.frames[f].conn;
                                        c in s.recv && !s.recv[c].Reading? && s.recv[c].f == f)
            && (s.stages[f].Queued? <==> f in s.reqCh)
            && (s.stages[f].AtWorker? <==> exists w :: w in s.workers && !s.workers[w].Idle? && s.workers[w].f == f)
  {
    hide Run; hide Inv;
    RunHolds(cfg, run, i);
    RunKeepsInv(cfg, run, i);
    var s := run[i];
    SameNumber(cfg, s);
    assert HeldAt(s.frames, s.stages, s.recv, s.reqCh, s.workers, f);
    Holders(cfg, s, f);
  }

  lemma SameNumber(cfg: Config, s: State)
    requires Inv(cfg, s)
    ensures |s.frames| == |s.stages|
  {
    hide CallsInv; hide ItemInv; hide FramesInv; hide QueueInv; hide WorkersInv; hide LedgerInv; hide HandlersInv;
    hide GotInv; hide CountInv; hide ReqsInv;
  }

  lemma Holders(cfg: Config, s: State, f: nat)
    requires Inv(cfg, s) && f < |s.stages|
    ensures (exists c :: c in s.recv && !s.recv[c].Reading? && s.recv[c].f == f) ==> s.stages[f].AtRecv?
    ensures f in s.reqCh ==> s.stages[f].Queued?
    ensures (exists w :: w in s.workers && !s.workers[w].Idle? && s.workers[w].f == f) ==> s.stages[f].AtWorker?
  {
    hide CallsInv; hide ItemInv; hide FramesInv; hide LedgerInv; hide HandlersInv; hide GotInv; hide CountInv;
    hide ReqsInv; hide WorkerOk;
  }
}
