/** Any number of goroutines writing through one Response, whose mutex lets one of them in at a time. */
module Writers {
  import opened Bytes
  import opened FrameHeaders
  import opened Frames

  datatype Holder = Free | Holding(packet: bytes, n: nat)

  /** The connection so far, the packets finished in lock order, the lock, and whether a write failed. */
  datatype State = State(wire: bytes, finished: seq<bytes>, lock: Holder, failed: bool)

  predicate Init(s: State) {
    s == State([], [], Free, false)
  }

  /** A writer takes the mutex; empty and oversize packets never get this far. */
  predicate Acquire(s: State, s': State, packet: bytes) {
    && s.lock.Free? && 1 <= |packet| < SIZE_LIMIT
    && s' == s.(lock := Holding(packet, 0))
  }

  /** One conn.Write inside the loop: it takes the next k bytes, and may fail after them. */
  predicate Put(s: State, s': State, k: nat, fails: bool) {
    && s.lock.Holding? && |s.lock.packet| < SIZE_LIMIT
    && (k >= 1 || fails) && s.lock.n + k <= |Frame(s.lock.packet)|
    && s' == State(s.wire + Frame(s.lock.packet)[s.lock.n..s.lock.n + k], s.finished,
                   if fails then Free else s.lock.(n := s.lock.n + k), s.failed || fails)
  }

  /** The deferred unlock once the loop is done. */
  predicate Release(s: State, s': State) {
    && s.lock.Holding? && |s.lock.packet| < SIZE_LIMIT && s.lock.n == |Frame(s.lock.packet)|
    && s' == s.(finished := s.finished + [s.lock.packet], lock := Free)
  }

  datatype Step = AcquireStep(packet: bytes) | PutStep(k: nat, fails: bool) | ReleaseStep

  predicate NextStep(s: State, s': State, step: Step) {
    match step
    case AcquireStep(packet) => Acquire(s, s', packet)
    case PutStep(k, fails) => Put(s, s', k, fails)
    case ReleaseStep => Release(s, s')
  }

  ghost predicate Next(s: State, s': State) {
    exists step :: NextStep(s, s', step)
  }

  ghost predicate Run(run: seq<State>) {
    && |run| > 0 && Init(run[0])
    && forall i :: 0 <= i < |run| - 1 ==> Next(run[i], run[i + 1])
  }

  /** Whole frames in lock order, then the lock holder's frame as far as it got. */
  predicate Inv(s: State) {
    && (forall p :: p in s.finished ==> 1 <= |p| < SIZE_LIMIT)
    && (s.lock.Holding? ==> 1 <= |s.lock.packet| < SIZE_LIMIT && s.lock.n <= |Frame(s.lock.packet)|)
    && (!s.failed ==>
          s.wire == Concat(s.finished) + (if s.lock.Holding? then Frame(s.lock.packet)[..s.lock.n] else []))
  }

  lemma NextKeepsInv(s: State, s': State)
    requires Inv(s) && Next(s, s')
    ensures Inv(s')
  {
    hide Inv; hide Acquire; hide Put; hide Release;
    var step :| NextStep(s, s', step);
    match step
    case AcquireStep(packet) => AcquireKeepsInv(s, s', packet);
    case PutStep(k, fails) => PutKeepsInv(s, s', k, fails);
    case ReleaseStep => ReleaseKeepsInv(s, s');
  }

  lemma AcquireKeepsInv(s: State, s': State, packet: bytes)
    requires Inv(s) && Acquire(s, s', packet)
    ensures Inv(s')
  {
  }

  lemma PutKeepsInv(s: State, s': State, k: nat, fails: bool)
    requires Inv(s) && Put(s, s', k, fails)
    ensures Inv(s')
  {
    hide HeaderBytes; hide Concat;
    var f, n := Frame(s.lock.packet), s.lock.n;
    assert f[..n] + f[n..n + k] == f[..n + k];
    if !s'.failed {
      assert s'.wire == Concat(s.finished) + f[..n + k];
    }
  }

  lemma ReleaseKeepsInv(s: State, s': State)
    requires Inv(s) && Release(s, s')
    ensures Inv(s')
  {
    hide HeaderBytes; hide Concat;
    ConcatAppend(s.finished, s.lock.packet);
    var f := Frame(s.lock.packet);
    assert f[..|f|] == f;
  }

  lemma {:induction false} RunKeepsInv(run: seq<State>, i: nat)
    requires Run(run) && i < |run|
    ensures Inv(run[i])
  {
    if i > 0 {
      RunKeepsInv(run, i - 1);
      NextKeepsInv(run[i - 1], run[i]);
    }
  }

  /** What a reader would deliver from the bytes sent so far: the packets whose last byte is out. */
  function Delivered(s: State): seq<bytes> {
    if s.lock.Holding? && |s.lock.packet| < SIZE_LIMIT && s.lock.n == |Frame(s.lock.packet)|
    then s.finished + [s.lock.packet]
    else s.finished
  }

  /**
   * At every moment before the first write error, however the writes were cut and interleaved, the
   * reader's packets are exactly those written in full, in lock order.
   */
  lemma ReaderSeesLockOrder(run: seq<State>, i: nat, max: nat)
    requires Run(run) && i < |run| && !run[i].failed
    requires max < SIZE_LIMIT && forall p :: p in Delivered(run[i]) ==> |p| <= max
    ensures Packets(run[i].wire, max) == Delivered(run[i])
  {
    hide Frame; hide Packets; hide Concat;
    RunKeepsInv(run, i);
    var s := run[i];
    if s.lock.Free? || s.lock.n < |Frame(s.lock.packet)| {
      var tail := if s.lock.Free? then [] else Frame(s.lock.packet)[..s.lock.n];
      if s.lock.Free? {
        PacketsOfNothing(max);
      } else {
        PacketsOfBegun(tail, s.lock.packet, max);
      }
      PacketsOfConcat(s.finished, tail, max);
    } else {
      var f := Frame(s.lock.packet);
      assert f[..|f|] == f;
      ConcatAppend(s.finished, s.lock.packet);
      PacketsOfConcat(s.finished + [s.lock.packet], [], max);
      PacketsOfNothing(max);
      assert s.wire + [] == s.wire;
    }
  }

  lemma PacketsOfNothing(max: nat)
    ensures Packets([], max) == []
  {
  }
}
