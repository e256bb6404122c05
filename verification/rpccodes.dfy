/**
 * What travels between caller and server, spelled out: the request a call writes, the codes and
 * packets of replies, and what a call makes of them.
 */
module RpcCodes {
  import opened Bytes
  import opened Packets
  import opened Rpc
  import opened RpcInvariants
  import opened RpcParts
  import opened RpcSteps
  import opened RpcExecutions
  import opened RpcTheorems

  // ----- requests

  /**
   * The frame a call has written, on the connection it was given: its Sid, the id of its method, its
   * packet, its trace id, and the header that asks for no reply if and only if it wants none.
   */
  lemma RequestOfCall(cfg: Config, run: seq<State>, t: nat, f: nat, k: Key)
    requires Run(cfg, run) && t < |run| && f < |run[t].frames| && run[t].frames[f].owner == Some(k)
    ensures var s := run[t];
            && k in s.calls && s.calls[k].frame == Some(f) && s.frames[f].conn == s.calls[k].conn
            && |s.frames[f].payload| < 0x800_0000
            && match DecodeRequest(s.frames[f].payload)
               case None => false
               case Some(msg) =>
                 var c := s.calls[k];
                 && msg.sid == k.sid && msg.rpcId == Signed64(cfg.rid(c.rpc)) && msg.packet == c.packet
                 && msg.unknown == [] && k.sid >= 1
                 && Ascii("traceId") in msg.headers && msg.headers[Ascii("traceId")] == c.traceId
                 && (Ascii("onlyCall") in msg.headers <==> c.onlyCall)
                 && (c.onlyCall ==> msg.headers[Ascii("onlyCall")] == Ascii("1"))
                 && |msg.headers| == if c.onlyCall then 2 else 1
  {
    hide Run; hide Inv;
    RunKeepsInv(cfg, run, t);
    OwnRequest(cfg, run[t], f, k);
  }

  lemma OwnRequest(cfg: Config, s: State, f: nat, k: Key)
    requires Inv(cfg, s) && f < |s.frames| && s.frames[f].owner == Some(k)
    ensures k in s.calls && s.calls[k].frame == Some(f) && s.frames[f].conn == s.calls[k].conn && k.sid >= 1
    ensures |s.frames[f].payload| < 0x800_0000
    ensures DecodeRequest(s.frames[f].payload) == Some(RequestFor(cfg, k, s.calls[k]))
  {
    hide DecodeRequest; hide DecodeResponse; hide RequestFor;
    hide ItemInv; hide RecvInv; hide QueueInv; hide WorkersInv; hide LedgerInv; hide HandlersInv; hide GotInv;
    var c := s.calls[k];
    assert CallOk(cfg, k, c, s.frames);
  }

  // ----- replies

  /**
   * Every reply carries the Sid and the headers of its request and nothing unknown; a refusal has code
   * 500, a limited request 405, one whose item.Call failed 505, all without a packet, and a success
   * code 0 and the result.
   */
  lemma CodesOfReplies(cfg: Config, run: seq<State>, t: nat, i: nat, fate: Fate)
    requires Run(cfg, run) && t < |run| && i < |run[t].replies|
    requires var f := run[t].replies[i].frame; f < |run[t].stages| && FateNow(run[t], f) == Some(fate)
    ensures var s, r := run[t], run[t].replies[i];
            && r.frame < |s.frames|
            && match (DecodeRequest(s.frames[r.frame].payload), DecodeResponse(r.payload))
               case (Some(msg), Some(resp)) =>
                 && resp.sid == msg.sid && resp.headers == msg.headers && resp.unknown == []
                 && (match fate
                     case Refused => resp.code == 500 && resp.packet == []
                     case Limited => resp.code == 405 && resp.packet == []
                     case CallFailed(_) => resp.code == 505 && resp.packet == []
                     case Succeeded(_, ret) => resp.code == 0 && resp.packet == ret
                     case _ => false)
               case _ => false
  {
    hide Run; hide Inv; hide DecodeRequest; hide DecodeResponse;
    RunKeepsInv(cfg, run, t);
    ReplyAt(cfg, run[t], i);
    SettledNow(run[t], run[t].replies[i].frame);
  }

  lemma ReplyAt(cfg: Config, s: State, i: nat)
    requires Inv(cfg, s) && i < |s.replies|
    ensures var r := s.replies[i];
            && r.frame < |s.frames| == |s.stages| && Settled(s.stages, s.workers, r.frame).Some?
            && ReplyOk(cfg, s.frames, Settled(s.stages, s.workers, r.frame).value, s.execs, r)
  {
    hide ReplyOk; hide Owed; hide FateSound; hide Settled;
    hide CallsInv; hide ItemInv; hide WorkersInv; hide HandlersInv; hide GotInv; hide RecvInv; hide QueueInv;
  }

  /** Once no answer can come any more, the fate is the one decided before. */
  lemma SettledNow(s: State, f: nat)
    requires f < |s.stages| && Settled(s.stages, s.workers, f).Some?
    ensures FateNow(s, f) == Settled(s.stages, s.workers, f)
  {
  }

  /**
   * A frame whose item.Call returned ret has been answered, once the server is done with it, if and
   * only if it did not ask for no reply, has a Sid, and the reply is one that Write can send.
   */
  lemma SuccessIsAnswered(cfg: Config, run: seq<State>, t: nat, f: nat, e: nat, ret: bytes, msg: Request)
    requires Run(cfg, run) && t < |run| && f < |run[t].frames| == |run[t].stages|
    requires run[t].stages[f] == Done(Succeeded(e, ret)) && DecodeRequest(run[t].frames[f].payload) == Some(msg)
    ensures Answered(run[t], f) <==>
              && Ascii("onlyCall") !in msg.headers && msg.sid != 0
              && FitsFrame(Response(msg.sid, msg.headers, 0, ret, []))
  {
    hide Run; hide Happened; hide DecodeRequest; hide FitsFrame; hide Answered;
    ReplyLedger(cfg, run, t, f, Succeeded(e, ret));
  }

  /** Refused, limited and failed requests are answered whatever they ask for, if the reply can be sent. */
  lemma FailureIsAnswered(cfg: Config, run: seq<State>, t: nat, f: nat, fate: Fate, msg: Request)
    requires Run(cfg, run) && t < |run| && f < |run[t].frames| == |run[t].stages|
    requires run[t].stages[f] == Done(fate) && DecodeRequest(run[t].frames[f].payload) == Some(msg)
    ensures fate.Refused? ==> (Answered(run[t], f) <==> FitsFrame(Response(msg.sid, msg.headers, 500, [], [])))
    ensures fate.Limited? ==> (Answered(run[t], f) <==> FitsFrame(Response(msg.sid, msg.headers, 405, [], [])))
    ensures fate.CallFailed? ==> (Answered(run[t], f) <==> FitsFrame(Response(msg.sid, msg.headers, 505, [], [])))
    ensures fate.Unregistered? || fate.LimiterPanicked? || fate.CallPanicked? ==> !Answered(run[t], f)
  {
    hide Run; hide Happened; hide DecodeRequest; hide FitsFrame; hide Answered;
    ReplyLedger(cfg, run, t, f, fate);
  }

  /** A call that wants no reply gets none that says its item.Call succeeded. */
  lemma OneWayGetsNoResult(cfg: Config, run: seq<State>, t: nat, i: nat, k: Key)
    requires Run(cfg, run) && t < |run| && i < |run[t].replies|
    requires var f := run[t].replies[i].frame;
             f < |run[t].frames| && run[t].frames[f].owner == Some(k) && k in run[t].calls && run[t].calls[k].onlyCall
    ensures match DecodeResponse(run[t].replies[i].payload) case None => false case Some(resp) => resp.code != 0
  {
    hide Run; hide Inv; hide DecodeRequest; hide DecodeResponse;
    RunKeepsInv(cfg, run, t);
    ReplyAt(cfg, run[t], i);
    OwnRequest(cfg, run[t], run[t].replies[i].frame, k);
    hide Signed64; hide RpcId;
  }

  /** A call that wants one is owed its result: only its size can keep it back. */
  lemma TwoWayGetsResult(cfg: Config, run: seq<State>, t: nat, f: nat, e: nat, ret: bytes, k: Key)
    requires Run(cfg, run) && t < |run| && f < |run[t].frames| == |run[t].stages|
    requires run[t].stages[f] == Done(Succeeded(e, ret)) && run[t].frames[f].owner == Some(k)
    requires k in run[t].calls && !run[t].calls[k].onlyCall
    ensures var headers := map[Ascii("traceId") := run[t].calls[k].traceId];
            Answered(run[t], f) <==> FitsFrame(Response(k.sid, headers, 0, ret, []))
  {
    hide Run; hide Inv; hide DecodeRequest; hide FitsFrame; hide Answered; hide RequestFor;
    RunKeepsInv(cfg, run, t);
    OwnRequest(cfg, run[t], f, k);
    TwoWayHeaders(cfg, k, run[t].calls[k]);
    SuccessIsAnswered(cfg, run, t, f, e, ret, RequestFor(cfg, k, run[t].calls[k]));
  }

  lemma TwoWayHeaders(cfg: Config, k: Key, c: Call)
    requires !c.onlyCall
    ensures var msg := RequestFor(cfg, k, c);
            && msg.sid == k.sid && msg.headers == map[Ascii("traceId") := c.traceId]
            && Ascii("onlyCall") !in msg.headers
  {
    hide Signed64;
  }

  // ----- what a call returns

  /** The reply a finished call has received is the one to its own frame, and the call returns what it says. */
  lemma OutcomeOfReply(cfg: Config, s: State, k: Key)
    requires Inv(cfg, s) && k in s.calls && s.calls[k].pc.Returned?
    requires s.calls[k].pc.result.Reply? || s.calls[k].pc.result.ErrorCode?
    ensures var c := s.calls[k];
            && c.got.Some? && c.got.value < |s.replies| && c.frame == Some(s.replies[c.got.value].frame)
            && match DecodeResponse(s.replies[c.got.value].payload)
               case None => false
               case Some(resp) =>
                 match c.pc.result
                 case Reply(p) => resp.code == 0 && p == resp.packet
                 case ErrorCode(code) => code == resp.code != 0
                 case _ => false
  {
    hide Inv; hide DecodeResponse; hide DecodeRequest;
    CallAt(cfg, s, k);
  }

  /**
   * A call that returns an error code was itself refused (500), limited (405), or executed once with an
   * error (505); there are no other codes.
   */
  lemma CallReturnsOwnError(cfg: Config, run: seq<State>, t: nat, k: Key, code: int)
    requires Run(cfg, run) && t < |run| && At(run[t], k, Returned(ErrorCode(code)))
    ensures var s, c := run[t], run[t].calls[k];
            && c.frame.Some? && c.frame.value < |s.stages|
            && match FateNow(s, c.frame.value)
               case None => false
               case Some(fate) =>
                 match fate
                 case Refused => code == 500
                 case Limited => code == 405
                 case CallFailed(e) => code == 505 && e < |s.execs| && s.execs[e].frame == c.frame.value
                                       && s.execs[e].result == CallResult.Error
                 case _ => false
  {
    hide Run; hide Inv; hide DecodeRequest; hide DecodeResponse; hide FateNow;
    RunKeepsInv(cfg, run, t);
    var s := run[t];
    OutcomeOfReply(cfg, s, k);
    var i := s.calls[k].got.value;
    ReplyAt(cfg, s, i);
    SettledNow(s, s.replies[i].frame);
    var fate := FateNow(s, s.replies[i].frame).value;
    CodesOfReplies(cfg, run, t, i, fate);
    ErrorRan(cfg, s, i, fate);
  }

  lemma ErrorRan(cfg: Config, s: State, i: nat, fate: Fate)
    requires Inv(cfg, s) && i < |s.replies| && s.replies[i].frame < |s.stages|
    requires Settled(s.stages, s.workers, s.replies[i].frame) == Some(fate)
    ensures fate.CallFailed? ==>
              && fate.e < |s.execs| && s.execs[fate.e].frame == s.replies[i].frame
              && s.execs[fate.e].result == CallResult.Error
  {
    hide Inv; hide DecodeRequest; hide DecodeResponse; hide Settled; hide RpcId;
    ReplyAt(cfg, s, i);
  }

  /** A call that wants no reply never waits; one that does returns a timeout, a reply, or a failed write. */
  lemma OutcomesByKind(cfg: Config, run: seq<State>, t: nat, k: Key)
    requires Run(cfg, run) && t < |run| && k in run[t].calls && run[t].calls[k].pc.Returned?
    ensures var c := run[t].calls[k];
            if c.onlyCall then c.pc.result.OneWay? || c.pc.result.WriteFailed? else !c.pc.result.OneWay?
  {
    hide Run; hide Inv; hide DecodeRequest; hide DecodeResponse;
    RunKeepsInv(cfg, run, t);
    CallAt(cfg, run[t], k);
  }

  /** Reply handlers work only on replies that have a Sid and are not for one-way calls. */
  lemma HandledRepliesAreWanted(cfg: Config, run: seq<State>, t: nat, c: Conn)
    requires Run(cfg, run) && t < |run| && c in run[t].handlers && HasReply(run[t].handlers[c])
    ensures var resp := run[t].handlers[c].resp; resp.sid != 0 && Ascii("onlyCall") !in resp.headers
  {
    hide Run; hide DecodeRequest; hide DecodeResponse;
    hide CallsInv; hide ItemInv; hide WorkersInv; hide LedgerInv; hide GotInv; hide RecvInv; hide QueueInv;
    hide FramesInv;
    RunKeepsInv(cfg, run, t);
    HandlerAt(run[t], c);
  }
}
