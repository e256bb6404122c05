/** The admission check of onRecv is exact: ten connections are safe, eleven can block. */
module RpcAdmission {
  import opened Bytes
  import opened Rpc
  import opened RpcTheorems

  ghost predicate Reachable(cfg: Config, s: State) {
    exists run :: Run(cfg, run) && run[|run| - 1] == s
  }

  lemma RunTo(cfg: Config, s: State) returns (run: seq<State>, i: nat)
    requires Reachable(cfg, s)
    ensures Run(cfg, run) && i < |run| && run[i] == s
  {
    hide Next; hide Init;
    run :| Run(cfg, run) && run[|run| - 1] == s;
    i := |run| - 1;
  }

  lemma ReachInit(cfg: Config) returns (s: State)
    ensures Reachable(cfg, s) && Waits(s, 0, 0, 0, 0)
  {
    s := State(map[], map[], map[], map[], [], [], map[], 0, [], map[], 0, [], [], [], map[], false);
    hide Next;
    assert Run(cfg, [s]) && [s][|[s]| - 1] == s;
  }

  lemma ReachStep(cfg: Config, s: State, s': State, a: ServerAction)
    requires Reachable(cfg, s) && ServerStep(cfg, s, s', a)
    ensures Reachable(cfg, s')
  {
    hide ServerStep;
    assert Step(cfg, s, s', ByServer(a));
    ReachNext(cfg, s, s');
  }

  lemma ReachCallerStep(cfg: Config, s: State, s': State, a: CallerAction)
    requires Reachable(cfg, s) && CallerStep(cfg, s, s', a)
    ensures Reachable(cfg, s')
  {
    hide CallerStep;
    assert Step(cfg, s, s', ByCaller(a));
    ReachNext(cfg, s, s');
  }

  lemma ReachHandlerStep(cfg: Config, s: State, s': State, a: HandlerAction)
    requires Reachable(cfg, s) && HandlerStep(cfg, s, s', a)
    ensures Reachable(cfg, s')
  {
    hide HandlerStep;
    assert Step(cfg, s, s', ByHandler(a));
    ReachNext(cfg, s, s');
  }

  lemma ReachNext(cfg: Config, s: State, s': State)
    requires Reachable(cfg, s) && Next(cfg, s, s')
    ensures Reachable(cfg, s')
  {
    hide Next; hide Init;
    var run :| Run(cfg, run) && run[|run| - 1] == s;
    var more := run + [s'];
    assert Run(cfg, more) && more[|more| - 1] == s';
  }

  predicate NoClients(s: State) {
    && s.handlers == map[] && s.calls == map[] && s.counters == map[] && s.callItem == map[]
    && s.replies == [] && s.deliveries == []
  }

  /**
   * `open` outside connections; those numbered lo to hi - 1 are past the check with a request, the
   * others are reading, and q requests wait in the channel.
   */
  predicate Waits(s: State, open: nat, lo: nat, hi: nat, q: nat) {
    && NoClients(s) && |s.frames| == |s.stages| && |s.reqCh| == q && |s.recv| == open
    && (forall c :: c in s.recv ==> c.Outside? && c.index < open)
    && forall i :: 0 <= i < open ==> Outside(i) in s.recv && Stands(s, s.recv[Outside(i)], lo <= i < hi)
  }

  predicate Stands(s: State, p: RecvPc, passed: bool) {
    if passed then p.Passed? && p.f < |s.stages| else p.Reading?
  }

  lemma OpenOne(cfg: Config, s: State, open: nat) returns (s': State)
    requires Reachable(cfg, s) && Waits(s, open, 0, 0, 0) && open < cfg.maxConns
    ensures Reachable(cfg, s') && Waits(s', open + 1, 0, 0, 0)
  {
    hide Reachable;
    s' := s.(recv := s.recv[Outside(open) := Reading], conns := s.conns + 1);
    assert HandlerStep(cfg, s, s', AOpen(Outside(open)));
    ReachHandlerStep(cfg, s, s', AOpen(Outside(open)));
  }

  /** Connection hi receives a frame while the channel is not nearly full. */
  lemma PassOne(cfg: Config, s: State, open: nat, lo: nat, hi: nat, q: nat) returns (s': State)
    requires Reachable(cfg, s) && Waits(s, open, lo, hi, q) && lo <= hi < open && q <= cfg.capacity - 10
    ensures Reachable(cfg, s') && Waits(s', open, lo, hi + 1, q)
  {
    hide Reachable;
    var c, f := Outside(hi), |s.frames|;
    var s1 := s.(frames := s.frames + [Frame(c, [0], None)], stages := s.stages + [OnWire]);
    assert HandlerStep(cfg, s, s1, AForeignFrame(c, [0]));
    ReachHandlerStep(cfg, s, s1, AForeignFrame(c, [0]));
    s' := s1.(recv := s1.recv[c := Passed(f)], stages := s1.stages[f := AtRecv]);
    assert ServerStep(cfg, s1, s', AReceive(f));
    ReachStep(cfg, s1, s', AReceive(f));
  }

  lemma PushOne(cfg: Config, s: State, open: nat, lo: nat, hi: nat, q: nat) returns (s': State)
    requires Reachable(cfg, s) && Waits(s, open, lo, hi, q) && lo < hi <= open && q < cfg.capacity
    ensures Reachable(cfg, s') && Waits(s', open, lo + 1, hi, q + 1)
  {
    hide Reachable;
    var c := Outside(lo);
    var f := s.recv[c].f;
    s' := s.(recv := s.recv[c := Reading], reqCh := s.reqCh + [f], stages := s.stages[f := Queued]);
    assert ServerStep(cfg, s, s', APush(c));
    ReachStep(cfg, s, s', APush(c));
  }

  /** Eleven connections, ten of which have just filled the channel; the last one is past the check. */
  lemma ElevenConnectionsBlock(cfg: Config) returns (s: State)
    requires cfg.capacity >= 10 && cfg.maxConns >= 11
    ensures Reachable(cfg, s) && Waits(s, 11, 10, 11, cfg.capacity)
  {
    hide Reachable; hide Waits;
    s := ReachInit(cfg);
    for open := 0 to 11
      invariant Reachable(cfg, s) && Waits(s, open, 0, 0, 0)
    {
      s := OpenOne(cfg, s, open);
    }
    for q := 0 to cfg.capacity - 10
      invariant Reachable(cfg, s) && Waits(s, 11, 0, 0, q)
    {
      s := PassOne(cfg, s, 11, 0, 0, q);
      s := PushOne(cfg, s, 11, 0, 1, q);
      NonePassed(s, 11, q + 1);
    }
    for hi := 0 to 11
      invariant Reachable(cfg, s) && Waits(s, 11, 0, hi, cfg.capacity - 10)
    {
      s := PassOne(cfg, s, 11, 0, hi, cfg.capacity - 10);
    }
    for lo := 0 to 10
      invariant Reachable(cfg, s) && Waits(s, 11, lo, 11, cfg.capacity - 10 + lo)
    {
      s := PushOne(cfg, s, 11, lo, 11, cfg.capacity - 10 + lo);
    }
  }

  lemma FullChannel(cfg: Config, s: State)
    requires |s.reqCh| == cfg.capacity
    ensures !CanPush(cfg, s)
  {
  }

  lemma NonePassed(s: State, open: nat, q: nat)
    requires Waits(s, open, 1, 1, q)
    ensures Waits(s, open, 0, 0, q)
  {
  }

  /** In no reachable state is an onRecv past the check in front of a full channel. */
  ghost predicate NeverBlocks(cfg: Config) {
    forall s, c :: Reachable(cfg, s) && c in s.recv && s.recv[c].Passed? ==> CanPush(cfg, s)
  }

  /**
   * The slack of ten is exactly what it takes: onRecv never blocks on its send if and only if at
   * most ten connections can be open (or the channel is too small to admit anything).
   */
  lemma AdmissionExactly(cfg: Config)
    ensures NeverBlocks(cfg) <==> cfg.capacity < 10 || cfg.maxConns <= 10
  {
    hide Run; hide Reachable; hide CanPush;
    if cfg.capacity < 10 || cfg.maxConns <= 10 {
      forall s, c | Reachable(cfg, s) && c in s.recv && s.recv[c].Passed? ensures CanPush(cfg, s) {
        var run, i := RunTo(cfg, s);
        AdmittedFit(cfg, run, i, c);
      }
    } else {
      var s := ElevenConnectionsBlock(cfg);
      assert !CanPush(cfg, s) by { FullChannel(cfg, s); }
      assert s.recv[Outside(10)].Passed?;
    }
  }
}
