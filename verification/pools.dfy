/**
 * The connection pool: refilling and choosing under the write lock, and removal in two phases, whose
 * snapshot may be stale by the time it is written back.
 */
module Pools {
  import opened Bytes

  const POOL_SIZE: nat := 8

  datatype Client = Client(group: bytes, svrname: bytes, name: bytes, stamp: int)

  type Lists = map<bytes, seq<Client>>

  /** What removeByClient holds between its two phases. */
  datatype Snapshot = Snapshot(key: bytes, list: seq<Client>)

  /** issued: names GenUid has produced; asked: the services response was called for. */
  datatype State = State(rpcconn: Lists, pending: map<nat, Snapshot>, issued: set<bytes>, asked: set<(bytes, bytes)>)

  function KeyOf(group: bytes, svrname: bytes): bytes { group + svrname }

  function ListAt(lists: Lists, key: bytes): seq<Client> { if key in lists then lists[key] else [] }

  function Names(list: seq<Client>): set<bytes> { set i | 0 <= i < |list| :: list[i].name }

  predicate Distinct(list: seq<Client>) {
    forall i, j :: 0 <= i < j < |list| ==> list[i].name != list[j].name
  }

  /** What genCon(num) may return: clients of the service with fresh names, one per successful dial. */
  predicate Generated(issued: set<bytes>, group: bytes, svrname: bytes, num: nat, list: seq<Client>) {
    && |list| <= num && Distinct(list) && Names(list) !! issued
    && forall i :: 0 <= i < |list| ==> list[i].group == group && list[i].svrname == svrname
  }

  function Without(list: seq<Client>, name: bytes): seq<Client> {
    if list == [] then []
    else (if list[0].name == name then [] else [list[0]]) + Without(list[1..], name)
  }

  /** Chosen: the client response returns is a copy of the list's member at index, with its new Stamp. */
  datatype Choice = NoNode | Chosen(index: nat, client: Client)

  datatype Action =
    | Respond(group: bytes, svrname: bytes, gen1: seq<Client>, gen2: seq<Client>, choice: Choice)
    | Snap(tid: nat, key: bytes, name: bytes)
    | WriteBack(tid: nat)

  predicate Init(s: State) { s == State(map[], map[], {}, {}) }

  /** The list after the refill: a new one if it was empty, then topped up to eight. */
  function Refilled(list: seq<Client>, gen1: seq<Client>, gen2: seq<Client>): seq<Client> {
    var first := if list == [] then gen1 else list;
    if |first| < POOL_SIZE then first + gen2 else first
  }

  /** The two batches response generates: the first only for an empty list, the second for what is missing. */
  predicate FillsUp(issued: set<bytes>, list: seq<Client>, group: bytes, svrname: bytes,
                    gen1: seq<Client>, gen2: seq<Client>) {
    var size := |if list == [] then gen1 else list|;
    && Generated(issued, group, svrname, if list == [] then POOL_SIZE else 0, gen1)
    && Generated(issued + Names(gen1), group, svrname, if size < POOL_SIZE then POOL_SIZE - size else 0, gen2)
  }

  predicate RespondStep(s: State, s': State, a: Action)
    requires a.Respond?
  {
    var key := KeyOf(a.group, a.svrname);
    var list := ListAt(s.rpcconn, key);
    var full := Refilled(list, a.gen1, a.gen2);
    && FillsUp(s.issued, list, a.group, a.svrname, a.gen1, a.gen2)
    && (a.choice.NoNode? <==> full == [])
    && (a.choice.Chosen? ==>
          a.choice.index < |full| && a.choice.client == full[a.choice.index].(stamp := a.choice.client.stamp))
    && s.issued + Names(a.gen1) + Names(a.gen2) <= s'.issued
    && s' == State(s.rpcconn[key := Stamped(full, a.choice)], s.pending, s'.issued, s.asked + {(a.group, a.svrname)})
  }

  function Stamped(list: seq<Client>, choice: Choice): seq<Client>
    requires choice.Chosen? ==> choice.index < |list|
  {
    match choice
    case NoNode => list
    case Chosen(i, client) => list[i := list[i].(stamp := client.stamp)]
  }

  predicate SnapStep(s: State, s': State, a: Action)
    requires a.Snap?
  {
    var list := ListAt(s.rpcconn, a.key);
    if a.name in Names(list)
    then a.tid !in s.pending && s' == s.(pending := s.pending[a.tid := Snapshot(a.key, Without(list, a.name))])
    else s' == s
  }

  predicate WriteBackStep(s: State, s': State, a: Action)
    requires a.WriteBack?
  {
    && a.tid in s.pending
    && s' == s.(rpcconn := s.rpcconn[s.pending[a.tid].key := s.pending[a.tid].list], pending := s.pending - {a.tid})
  }

  predicate Step(s: State, s': State, a: Action) {
    match a
    case Respond(_, _, _, _, _) => RespondStep(s, s', a)
    case Snap(_, _, _) => SnapStep(s, s', a)
    case WriteBack(_) => WriteBackStep(s, s', a)
  }

  ghost predicate Next(s: State, s': State) { exists a :: Step(s, s', a) }

  ghost predicate Steps(run: seq<State>) {
    |run| > 0 && forall i :: 0 <= i < |run| - 1 ==> Next(run[i], run[i + 1])
  }

  ghost predicate Run(run: seq<State>) {
    Steps(run) && Init(run[0])
  }

  // ----- invariant

  predicate ListOk(key: bytes, list: seq<Client>, issued: set<bytes>, asked: set<(bytes, bytes)>) {
    && |list| <= POOL_SIZE && Distinct(list)
    && forall i :: 0 <= i < |list| ==>
         && list[i].name in issued
         && (list[i].group, list[i].svrname) in asked && KeyOf(list[i].group, list[i].svrname) == key
  }

  predicate Inv(s: State) {
    && (forall key :: key in s.rpcconn ==> ListOk(key, s.rpcconn[key], s.issued, s.asked))
    && (forall t :: t in s.pending ==> ListOk(s.pending[t].key, s.pending[t].list, s.issued, s.asked))
  }

  lemma {:induction false} WithoutSpec(list: seq<Client>, name: bytes)
    ensures |Without(list, name)| <= |list|
    ensures forall c :: c in Without(list, name) <==> c in list && c.name != name
    ensures Distinct(list) ==> Distinct(Without(list, name))
  {
    if list != [] {
      WithoutSpec(list[1..], name);
      var rest := Without(list[1..], name);
      assert list == [list[0]] + list[1..];
      if Distinct(list) {
        assert Distinct(list[1..]);
        if list[0].name != name {
          forall j | 0 <= j < |rest| ensures rest[j].name != list[0].name {
            assert rest[j] in list[1..];
          }
        }
      }
    }
  }

  lemma ListGrows(key: bytes, list: seq<Client>, issued: set<bytes>, asked: set<(bytes, bytes)>,
                  issued': set<bytes>, asked': set<(bytes, bytes)>)
    requires ListOk(key, list, issued, asked) && issued <= issued' && asked <= asked'
    ensures ListOk(key, list, issued', asked')
  {
  }

  lemma RefilledOk(s: State, s': State, a: Action)
    requires Inv(s) && a.Respond? && RespondStep(s, s', a)
    ensures var key := KeyOf(a.group, a.svrname);
            ListOk(key, Refilled(ListAt(s.rpcconn, key), a.gen1, a.gen2), s'.issued, s'.asked)
  {
    var key := KeyOf(a.group, a.svrname);
    var list := ListAt(s.rpcconn, key);
    var first := if list == [] then a.gen1 else list;
    var issued := s.issued + Names(a.gen1);
    assert ListOk(key, first, issued, s'.asked) by {
      if list != [] { ListGrows(key, list, s.issued, s.asked, issued, s'.asked); }
      else { forall i | 0 <= i < |first| ensures first[i].name in issued { assert first[i].name in Names(a.gen1); } }
    }
    var full := Refilled(list, a.gen1, a.gen2);
    if full != first {
      forall j | 0 <= j < |a.gen2| ensures a.gen2[j].name in Names(a.gen2) {}
      assert forall i, j :: 0 <= i < |first| && 0 <= j < |a.gen2| ==> first[i].name != a.gen2[j].name;
    }
  }

  lemma StepKeepsInv(s: State, s': State, a: Action)
    requires Inv(s) && Step(s, s', a)
    ensures Inv(s')
  {
    hide ListOk; hide Generated; hide Refilled;
    match a {
      case Respond(group, svrname, gen1, gen2, choice) =>
        RefilledOk(s, s', a);
        var key := KeyOf(group, svrname);
        StampedOk(key, Refilled(ListAt(s.rpcconn, key), gen1, gen2), choice, s'.issued, s'.asked);
        forall k | k in s.rpcconn ensures ListOk(k, s.rpcconn[k], s'.issued, s'.asked) {
          ListGrows(k, s.rpcconn[k], s.issued, s.asked, s'.issued, s'.asked);
        }
        forall t | t in s.pending ensures ListOk(s.pending[t].key, s.pending[t].list, s'.issued, s'.asked) {
          ListGrows(s.pending[t].key, s.pending[t].list, s.issued, s.asked, s'.issued, s'.asked);
        }
      case Snap(tid, key, name) =>
        if name in Names(ListAt(s.rpcconn, key)) {
          WithoutOk(key, s.rpcconn[key], name, s.issued, s.asked);
        }
      case WriteBack(tid) =>
    }
  }

  lemma StampedOk(key: bytes, list: seq<Client>, choice: Choice, issued: set<bytes>, asked: set<(bytes, bytes)>)
    requires ListOk(key, list, issued, asked) && (choice.Chosen? ==> choice.index < |list|)
    ensures ListOk(key, Stamped(list, choice), issued, asked)
  {
  }

  lemma WithoutOk(key: bytes, list: seq<Client>, name: bytes, issued: set<bytes>, asked: set<(bytes, bytes)>)
    requires ListOk(key, list, issued, asked)
    ensures ListOk(key, Without(list, name), issued, asked)
  {
    WithoutSpec(list, name);
    var w := Without(list, name);
    forall i | 0 <= i < |w| ensures w[i] in list { assert w[i] in w; }
  }

  /**
   * In every interleaving, stale write-backs included: at most eight clients per service key, pairwise
   * distinct names, and every client's Group + Svrname is its key.
   */
  lemma PoolInvariant(run: seq<State>, i: nat, key: bytes)
    requires Run(run) && i < |run| && key in run[i].rpcconn
    ensures var list := run[i].rpcconn[key];
            && |list| <= 8
            && (forall j, k :: 0 <= j < k < |list| ==> list[j].name != list[k].name)
            && forall j :: 0 <= j < |list| ==> list[j].group + list[j].svrname == key
  {
    RunKeepsInv(run, i);
  }

  lemma {:induction false} RunKeepsInv(run: seq<State>, i: nat)
    requires Run(run) && i < |run|
    ensures Inv(run[i])
  {
    hide Inv;
    if i == 0 {
      InitInv(run[0]);
    } else {
      RunKeepsInv(run, i - 1);
      assert Next(run[i - 1], run[i]);
      var a :| Step(run[i - 1], run[i], a);
      StepKeepsInv(run[i - 1], run[i], a);
    }
  }

  lemma InitInv(s: State)
    requires Init(s)
    ensures Inv(s)
  {
  }

  // ----- what response returns

  /** No other service asked for so far has a name that concatenates to the same string. */
  predicate Unambiguous(asked: set<(bytes, bytes)>, group: bytes, svrname: bytes) {
    forall p :: p in asked && p.0 + p.1 == group + svrname ==> p == (group, svrname)
  }

  /**
   * response yields a client, whose names concatenate to those asked for and belong to a service asked
   * for before, or an error exactly when the list stays empty.
   */
  lemma RespondsWithMember(run: seq<State>, i: nat, a: Action)
    requires Run(run) && i + 1 < |run| && a.Respond? && Step(run[i], run[i + 1], a)
    ensures var list := ListAt(run[i + 1].rpcconn, a.group + a.svrname);
            && (a.choice.NoNode? <==> list == [])
            && (a.choice.Chosen? ==> a.choice.index < |list| && list[a.choice.index] == a.choice.client)
    ensures a.choice.Chosen? ==> OfService(run[i + 1].asked, a.group, a.svrname, a.choice.client)
  {
    RunKeepsInv(run, i);
    ChoosesMember(run[i], run[i + 1], a);
  }

  predicate OfService(asked: set<(bytes, bytes)>, group: bytes, svrname: bytes, c: Client) {
    && (c.group, c.svrname) in asked && c.group + c.svrname == group + svrname
    && (Unambiguous(asked, group, svrname) ==> c.group == group && c.svrname == svrname)
  }

  lemma ChoosesMember(s: State, s': State, a: Action)
    requires Inv(s) && a.Respond? && Step(s, s', a)
    ensures var list := ListAt(s'.rpcconn, a.group + a.svrname);
            && (a.choice.NoNode? <==> list == [])
            && (a.choice.Chosen? ==> a.choice.index < |list| && list[a.choice.index] == a.choice.client)
    ensures a.choice.Chosen? ==> OfService(s'.asked, a.group, a.svrname, a.choice.client)
  {
    hide Generated; hide Refilled; hide Names; hide Inv;
    StepKeepsInv(s, s', a);
    var key := a.group + a.svrname;
    assert ListOk(key, s'.rpcconn[key], s'.issued, s'.asked) by { ListsOk(s', key); }
  }

  lemma ListsOk(s: State, key: bytes)
    requires Inv(s) && key in s.rpcconn
    ensures ListOk(key, s.rpcconn[key], s.issued, s.asked)
  {
  }

  /** The pool of a client asks for services of one group only; then it always gets the one asked for. */
  lemma OneGroupGetsItsService(run: seq<State>, i: nat, a: Action)
    requires Run(run) && i + 1 < |run| && a.Respond? && Step(run[i], run[i + 1], a) && a.choice.Chosen?
    requires forall p :: p in run[i + 1].asked ==> |p.0| == |a.group|
    ensures a.choice.client.group == a.group && a.choice.client.svrname == a.svrname
  {
    hide Step;
    RespondsWithMember(run, i, a);
    forall p | p in run[i + 1].asked && p.0 + p.1 == a.group + a.svrname ensures p == (a.group, a.svrname) {
      SameLengthSplit(p.0, p.1, a.group, a.svrname);
    }
  }

  lemma SameLengthSplit(a: bytes, b: bytes, c: bytes, d: bytes)
    requires |a| == |c| && a + b == c + d
    ensures a == c && b == d
  {
    assert a == (a + b)[..|a|] && b == (a + b)[|a|..];
    assert c == (c + d)[..|c|] && d == (c + d)[|c|..];
  }

  /** Two clients are in one list if and only if their names concatenate to the same string. */
  lemma ListsByConcatenation(run: seq<State>, i: nat, k1: bytes, k2: bytes, c: Client, d: Client)
    requires Run(run) && i < |run| && k1 in run[i].rpcconn && k2 in run[i].rpcconn
    requires c in run[i].rpcconn[k1] && d in run[i].rpcconn[k2]
    ensures k1 == k2 <==> c.group + c.svrname == d.group + d.svrname
    ensures k1 == k2 && |c.group| == |d.group| ==> c.group == d.group && c.svrname == d.svrname
  {
    PoolInvariant(run, i, k1);
    PoolInvariant(run, i, k2);
    if k1 == k2 && |c.group| == |d.group| {
      SameLengthSplit(c.group, c.svrname, d.group, d.svrname);
    }
  }

  /**
   * Keys are plain concatenations. For any two services that share one, a run exists in which asking
   * for the second returns a client of the first; so the condition above is needed.
   */
  lemma AmbiguousKeyMixesServices(p: (bytes, bytes), q: (bytes, bytes)) returns (run: seq<State>, a: Action)
    requires p != q && p.0 + p.1 == q.0 + q.1
    ensures Run(run) && |run| == 3 && a.Respond? && Step(run[1], run[2], a)
    ensures (a.group, a.svrname) == q && a.choice.Chosen?
    ensures (a.choice.client.group, a.choice.client.svrname) == p
  {
    var key := KeyOf(p.0, p.1);
    var gen := seq(POOL_SIZE, i requires 0 <= i < POOL_SIZE => Client(p.0, p.1, [i], 0));
    var s0 := State(map[], map[], {}, {});
    var a0 := Respond(p.0, p.1, gen, [], Chosen(0, gen[0]));
    var s1 := State(map[key := gen], map[], Names(gen), {p});
    a := Respond(q.0, q.1, [], [], Chosen(0, gen[0]));
    var s2 := State(map[key := gen], map[], Names(gen), {p, q});
    assert Names([]) == {};
    assert Stamped(gen, Chosen(0, gen[0])) == gen;
    assert Step(s0, s1, a0);
    assert s1.rpcconn[key := gen] == s1.rpcconn;
    assert Step(s1, s2, a);
    run := [s0, s1, s2];
  }

  // ----- removal

  /** The client called name is neither listed under key nor in a snapshot waiting to be written there. */
  predicate Gone(s: State, key: bytes, name: bytes) {
    && name !in Names(ListAt(s.rpcconn, key))
    && forall t :: t in s.pending && s.pending[t].key == key ==> name !in Names(s.pending[t].list)
  }

  lemma GoneAfterStep(s: State, s': State, a: Action, key: bytes, name: bytes)
    requires Step(s, s', a) && Gone(s, key, name) && name in s.issued
    ensures Gone(s', key, name) && name in s'.issued
  {
    match a {
      case Respond(group, svrname, gen1, gen2, choice) =>
        var list := ListAt(s.rpcconn, KeyOf(group, svrname));
        var full := Refilled(list, gen1, gen2);
        StampedNames(full, choice);
        forall i | 0 <= i < |full| && KeyOf(group, svrname) == key ensures full[i].name != name {
          assert full[i] in list || full[i] in gen1 || full[i] in gen2;
          assert full[i].name in Names(list) || full[i].name in Names(gen1) || full[i].name in Names(gen2);
        }
      case Snap(tid, k, n) =>
        var list := ListAt(s.rpcconn, k);
        WithoutSpec(list, n);
        forall i | 0 <= i < |Without(list, n)| ensures Without(list, n)[i].name in Names(list) {
          assert Without(list, n)[i] in list;
        }
      case WriteBack(tid) =>
    }
  }

  lemma StampedNames(list: seq<Client>, choice: Choice)
    requires choice.Chosen? ==> choice.index < |list|
    ensures Names(Stamped(list, choice)) == Names(list)
  {
    var st := Stamped(list, choice);
    forall i | 0 <= i < |list| ensures st[i].name == list[i].name {}
    forall n ensures n in Names(st) <==> n in Names(list) {
      if n in Names(st) { var i :| 0 <= i < |st| && st[i].name == n; assert list[i].name in Names(list); }
      if n in Names(list) { var i :| 0 <= i < |list| && list[i].name == n; assert st[i].name in Names(st); }
    }
  }

  /** Undisturbed, the two halves of a removal cut the client out of its list and change nothing else. */
  lemma RemovalCutsOut(s0: State, s1: State, s2: State, tid: nat, group: bytes, svrname: bytes, k: nat)
    requires Inv(s0) && k < |ListAt(s0.rpcconn, group + svrname)|
    requires Step(s0, s1, Snap(tid, group + svrname, s0.rpcconn[group + svrname][k].name))
    requires Step(s1, s2, WriteBack(tid))
    ensures var list := s0.rpcconn[group + svrname];
            s2 == s0.(rpcconn := s0.rpcconn[group + svrname := list[..k] + list[k + 1..]])
  {
    hide Names; hide Without; hide Inv;
    var key := group + svrname;
    var list := s0.rpcconn[key];
    ListsOk(s0, key);
    InNames(list, k);
    WithoutCutsOut(list, k);
    assert s0.pending[tid := Snapshot(key, Without(list, list[k].name))] - {tid} == s0.pending;
  }

  lemma {:induction false} WithoutCutsOut(list: seq<Client>, k: nat)
    requires k < |list| && Distinct(list)
    ensures Without(list, list[k].name) == list[..k] + list[k + 1..]
  {
    assert Distinct(list[1..]);
    if k == 0 {
      WithoutAbsent(list[1..], list[0].name);
    } else {
      assert list[k] == list[1..][k - 1];
      WithoutCutsOut(list[1..], k - 1);
    }
  }

  lemma {:induction false} WithoutAbsent(list: seq<Client>, name: bytes)
    requires forall i :: 0 <= i < |list| ==> list[i].name != name
    ensures Without(list, name) == list
  {
    if list != [] {
      WithoutAbsent(list[1..], name);
    }
  }

  /** Once gone, a client never comes back, whatever runs concurrently. */
  lemma {:induction false} GoneForGood(run: seq<State>, i: nat, key: bytes, name: bytes)
    requires Steps(run) && i < |run| && Gone(run[0], key, name) && name in run[0].issued
    ensures Gone(run[i], key, name) && name in run[i].issued
  {
    hide Gone; hide Step;
    if i > 0 {
      GoneForGood(run, i - 1, key, name);
      assert Next(run[i - 1], run[i]);
      var a :| Step(run[i - 1], run[i], a);
      GoneAfterStep(run[i - 1], run[i], a, key, name);
    }
  }

  /** The client called name is off the list from here on, in every continuation of the run. */
  ghost predicate OffForGood(s: State, key: bytes, name: bytes) {
    forall run: seq<State>, i: nat :: Steps(run) && run[0] == s && i < |run| ==>
      name !in Names(ListAt(run[i].rpcconn, key))
  }

  /**
   * When a removal lasts. A client stays off its list for good if and only if it is off it now and
   * no snapshot still waiting to be written to that list contains it: one that does restores it.
   */
  lemma RemovalLasts(s: State, key: bytes, name: bytes)
    requires name in s.issued
    ensures OffForGood(s, key, name) <==> Gone(s, key, name)
  {
    hide Step; hide Names; hide ListAt;
    if Gone(s, key, name) {
      forall run: seq<State>, i: nat | Steps(run) && run[0] == s && i < |run|
        ensures name !in Names(ListAt(run[i].rpcconn, key))
      {
        GoneForGood(run, i, key, name);
      }
    } else if name in Names(ListAt(s.rpcconn, key)) {
      assert Steps([s]) && [s][0] == s;
    } else {
      var s' := StaleSnapshotRestores(s, key, name);
      var run := [s, s'];
      assert Steps(run) && run[0] == s && run[1] == s';
    }
  }

  /**
   * It does happen: for every service there is a run in which two connections break at about the same
   * time, the first client is removed, and the write-back for the second one brings it back.
   */
  lemma RemovalUndone(group: bytes, svrname: bytes) returns (run: seq<State>, name: bytes)
    ensures Run(run) && |run| == 6
    ensures var key := group + svrname;
            && name in Names(ListAt(run[1].rpcconn, key))
            && name !in Names(ListAt(run[4].rpcconn, key))
            && name in Names(ListAt(run[5].rpcconn, key))
  {
    hide Next; hide Names; hide Without; hide EightClients;
    TwoNames(group, svrname);
    var key, full := KeyOf(group, svrname), EightClients(group, svrname);
    name := full[0].name;
    var list0, list1 := Without(full, full[0].name), Without(full, full[1].name);
    var lists, issued, asked := map[key := full], Names(full), {(group, svrname)};
    var s0 := State(map[], map[], {}, {});
    var s1 := State(lists, map[], issued, asked);
    var s2 := State(lists, map[0 := Snapshot(key, list0)], issued, asked);
    var s3 := State(lists, map[0 := Snapshot(key, list0), 1 := Snapshot(key, list1)], issued, asked);
    var s4 := State(map[key := list0], map[1 := Snapshot(key, list1)], issued, asked);
    var s5 := State(map[key := list1], map[], issued, asked);
    FirstRespond(group, svrname, s0, s1);
    TwoRemovals(key, full, s1, s2, s3, s4, s5);
    run := [s0, s1, s2, s3, s4, s5];
    NextInTurn(run);
  }

  function EightClients(group: bytes, svrname: bytes): (list: seq<Client>)
    ensures |list| == POOL_SIZE && Generated({}, group, svrname, POOL_SIZE, list)
  {
    seq(POOL_SIZE, i requires 0 <= i < POOL_SIZE => Client(group, svrname, [i], 0))
  }

  lemma TwoNames(group: bytes, svrname: bytes)
    ensures var list := EightClients(group, svrname); |list| >= 2 && list[0].name != list[1].name
  {
  }

  lemma FirstRespond(group: bytes, svrname: bytes, s: State, s': State)
    requires s == State(map[], map[], {}, {})
    requires var full := EightClients(group, svrname);
             s' == State(map[KeyOf(group, svrname) := full], map[], Names(full), {(group, svrname)})
    ensures Next(s, s')
  {
    hide Generated; hide EightClients;
    var full := EightClients(group, svrname);
    GeneratedNone(Names(full), group, svrname);
    assert Stamped(full, Chosen(0, full[0])) == full;
    assert {} + Names(full) == Names(full);
    assert Step(s, s', Respond(group, svrname, full, [], Chosen(0, full[0])));
  }

  lemma TwoRemovals(key: bytes, full: seq<Client>, s1: State, s2: State, s3: State, s4: State, s5: State)
    requires |full| >= 2 && full[0].name != full[1].name
    requires var list0, list1 := Without(full, full[0].name), Without(full, full[1].name);
             && s1.rpcconn == map[key := full] && s1.pending == map[]
             && s2 == s1.(pending := map[0 := Snapshot(key, list0)])
             && s3 == s1.(pending := map[0 := Snapshot(key, list0), 1 := Snapshot(key, list1)])
             && s4 == s1.(rpcconn := map[key := list0], pending := map[1 := Snapshot(key, list1)])
             && s5 == s1.(rpcconn := map[key := list1], pending := map[])
    ensures Next(s1, s2) && Next(s2, s3) && Next(s3, s4) && Next(s4, s5)
    ensures full[0].name in Names(full)
    ensures full[0].name !in Names(Without(full, full[0].name)) && full[0].name in Names(Without(full, full[1].name))
  {
    hide Without; hide Names; hide Next;
    NamesWithout(full, full[0].name, full[0].name);
    NamesWithout(full, full[1].name, full[0].name);
    InNames(full, 0);
    InNames(full, 1);
    CanSnap(s1, s2, 0, key, full[0].name);
    CanSnap(s2, s3, 1, key, full[1].name);
    CanWriteBack(s3, s4, 0);
    CanWriteBack(s4, s5, 1);
  }

  lemma CanSnap(s: State, s': State, tid: nat, key: bytes, name: bytes)
    requires tid !in s.pending && name in Names(ListAt(s.rpcconn, key))
    requires s'.pending == s.pending[tid := Snapshot(key, Without(ListAt(s.rpcconn, key), name))]
    requires s' == s.(pending := s'.pending)
    ensures Next(s, s')
  {
    hide Without; hide Names;
    assert Step(s, s', Snap(tid, key, name));
  }

  lemma CanWriteBack(s: State, s': State, tid: nat)
    requires tid in s.pending && s'.pending == s.pending - {tid}
    requires s'.rpcconn == s.rpcconn[s.pending[tid].key := s.pending[tid].list]
    requires s' == s.(pending := s'.pending, rpcconn := s'.rpcconn)
    ensures Next(s, s')
  {
    assert Step(s, s', WriteBack(tid));
  }

  lemma InNames(list: seq<Client>, i: nat)
    requires i < |list|
    ensures list[i].name in Names(list)
  {
  }

  lemma NamesWithout(list: seq<Client>, gone: bytes, name: bytes)
    ensures name in Names(Without(list, gone)) <==> name in Names(list) && name != gone
  {
    WithoutSpec(list, gone);
    var rest := Without(list, gone);
    if name in Names(list) && name != gone {
      var i :| 0 <= i < |list| && list[i].name == name;
      assert list[i] in rest;
      var j :| 0 <= j < |rest| && rest[j] == list[i];
      InNames(rest, j);
    }
    if name in Names(rest) {
      var j :| 0 <= j < |rest| && rest[j].name == name;
      assert rest[j] in list;
      var i :| 0 <= i < |list| && list[i] == rest[j];
      InNames(list, i);
    }
  }

  lemma NextInTurn(run: seq<State>)
    requires |run| == 6 && Next(run[0], run[1]) && Next(run[1], run[2]) && Next(run[2], run[3])
    requires Next(run[3], run[4]) && Next(run[4], run[5])
    ensures Steps(run)
  {
    hide Next;
    forall i | 0 <= i < 5 ensures Next(run[i], run[i + 1]) {
      assert i == 0 || i == 1 || i == 2 || i == 3 || i == 4;
    }
  }

  /** A client that is off the list without being gone is one write-back away from being restored. */
  lemma StaleSnapshotRestores(s: State, key: bytes, name: bytes) returns (s': State)
    requires name !in Names(ListAt(s.rpcconn, key)) && !Gone(s, key, name)
    ensures Next(s, s') && name in Names(ListAt(s'.rpcconn, key))
  {
    var t :| t in s.pending && s.pending[t].key == key && name in Names(s.pending[t].list);
    s' := s.(rpcconn := s.rpcconn[key := s.pending[t].list], pending := s.pending - {t});
    assert Step(s, s', WriteBack(t));
  }

  // ----- the code

  /** The copying loop of removeByClient: the last index of the name, and the list without it. */
  method CopyWithout(list: seq<Client>, name: bytes) returns (index: int, snapshot: seq<Client>)
    ensures snapshot == Without(list, name)
    ensures index == -1 <==> name !in Names(list)
    ensures index == -1 || (0 <= index < |list| && list[index].name == name)
  {
    hide Names; hide Without;
    index, snapshot := -1, [];
    NoNames();
    for k := 0 to |list|
      invariant snapshot == Without(list[..k], name)
      invariant index == -1 <==> name !in Names(list[..k])
      invariant index == -1 || (0 <= index < k && list[index].name == name)
    {
      NamesAppend(list[..k], list[k]);
      WithoutAppend(list[..k], list[k], name);
      assert list[..k + 1] == list[..k] + [list[k]];
      if list[k].name == name {
        index := k;
      } else {
        snapshot := snapshot + [list[k]];
      }
    }
    assert list[..|list|] == list;
  }

  lemma NoNames()
    ensures Names([]) == {} && forall name :: Without([], name) == []
  {
  }

  lemma {:induction false} WithoutAppend(list: seq<Client>, c: Client, name: bytes)
    ensures Without(list + [c], name) == Without(list, name) + (if c.name == name then [] else [c])
  {
    if list == [] {
      assert list + [c] == [c];
      assert Without([], name) == [];
    } else {
      assert (list + [c])[1..] == list[1..] + [c];
      WithoutAppend(list[1..], c, name);
    }
  }

  lemma GeneratedBound(issued: set<bytes>, group: bytes, svrname: bytes, num: nat, list: seq<Client>)
    requires Generated(issued, group, svrname, num, list)
    ensures |list| <= num
  {
  }

  /** One attempt of genCon to connect: GetNode and SocketByAddr both succeed, or one fails. */
  datatype Dial = Dial(group: bytes, svrname: bytes, name: bytes, up: bool)

  /** The names of the attempts that succeeded, in order. */
  function Connected(dials: seq<Dial>): seq<bytes> {
    if dials == [] then []
    else Connected(dials[..|dials| - 1])
         + if dials[|dials| - 1].up then [dials[|dials| - 1].name] else []
  }

  lemma {:induction false} ConnectedConcat(d: seq<Dial>, e: seq<Dial>)
    ensures Connected(d + e) == Connected(d) + Connected(e)
  {
    if e == [] {
      assert d + e == d;
    } else {
      ConnectedConcat(d, e[..|e| - 1]);
      assert (d + e)[..|d + e| - 1] == d + e[..|e| - 1];
    }
  }

  function NamesInOrder(list: seq<Client>): seq<bytes> {
    seq(|list|, i requires 0 <= i < |list| => list[i].name)
  }

  predicate For(dials: seq<Dial>, group: bytes, svrname: bytes) {
    forall i :: 0 <= i < |dials| ==> dials[i].group == group && dials[i].svrname == svrname
  }

  /**
   * A list before and after a refill, and the attempts made for it: eight for an empty list and as
   * many again as are still missing; the clients of the attempts that succeed go to the end.
   */
  predicate Filled(list: seq<Client>, full: seq<Client>, group: bytes, svrname: bytes, dials: seq<Dial>) {
    && For(dials, group, svrname)
    && NamesInOrder(full) == NamesInOrder(list) + Connected(dials)
    && if list == [] then |dials| >= 8 && |dials| == 8 + 8 - |Connected(dials[..8])| else |dials| == 8 - |list|
  }

  class Pool {
    var rpcconn: Lists
    ghost var pending: map<nat, Snapshot>
    var issued: set<bytes>
    ghost var asked: set<(bytes, bytes)>
    ghost var dials: seq<Dial>

    ghost function Get(): State
      reads this
    {
      State(rpcconn, pending, issued, asked)
    }

    ghost predicate Valid()
      reads this
    {
      Inv(Get())
    }

    constructor ()
      ensures Init(Get()) && Valid()
    {
      rpcconn, pending, issued, asked, dials := map[], map[], {}, {}, [];
    }

    /** A name never produced before. */
    method GenUid() returns (name: bytes)
      modifies this`issued
      ensures name !in old(issued) && issued == old(issued) + {name}
    {
      FreshName(issued);
      name :| name !in issued;
      issued := issued + {name};
    }

    /** connect: registry and network decide whether it succeeds. */
    method Connect(group: bytes, svrname: bytes, name: bytes) returns (up: bool)
      modifies this`dials
      ensures dials == old(dials) + [Dial(group, svrname, name, up)]
    {
      up :| true;
      dials := dials + [Dial(group, svrname, name, up)];
    }

    /** genCon: num attempts, and a client for each one that succeeds; failed ones are skipped. */
    method GenCon(group: bytes, svrname: bytes, num: nat) returns (list: seq<Client>)
      modifies this`issued, this`dials
      ensures Generated(old(issued), group, svrname, num, list)
      ensures old(issued) + Names(list) <= issued
      ensures |dials| == |old(dials)| + num && old(dials) <= dials
      ensures For(dials[|old(dials)|..], group, svrname)
      ensures NamesInOrder(list) == Connected(dials[|old(dials)|..])
    {
      hide Generated; hide Names; hide NamesInOrder; hide Connected;
      list := [];
      ghost var made: seq<Dial> := [];
      NothingGenerated(issued, group, svrname, num);
      for i := 0 to num
        invariant |list| <= i == |made| && Generated(old(issued), group, svrname, num, list)
        invariant old(issued) + Names(list) <= issued
        invariant dials == old(dials) + made && For(made, group, svrname)
        invariant NamesInOrder(list) == Connected(made)
      {
        var name := GenUid();
        var up := Connect(group, svrname, name);
        ConnectedMore(made, Dial(group, svrname, name, up));
        made := made + [Dial(group, svrname, name, up)];
        if up {
          var stamp: int :| true;
          var c := Client(group, svrname, name, stamp);
          GeneratedMore(old(issued), group, svrname, num, list, c);
          NamesInOrderMore(list, c);
          list := list + [c];
        }
      }
      assert dials[|old(dials)|..] == made;
    }

    /** The refill at the head of response: a new list if there is none, then a top-up to POOL_SIZE. */
    method Refill(group: bytes, svrname: bytes) returns (ghost gen1: seq<Client>, ghost gen2: seq<Client>)
      requires |ListAt(rpcconn, KeyOf(group, svrname))| <= POOL_SIZE
      modifies `rpcconn, `issued, `dials
      ensures FillsUp(old(issued), ListAt(old(rpcconn), KeyOf(group, svrname)), group, svrname, gen1, gen2)
      ensures var key := KeyOf(group, svrname);
              rpcconn == old(rpcconn)[key := Refilled(ListAt(old(rpcconn), key), gen1, gen2)]
      ensures old(issued) + Names(gen1) + Names(gen2) <= issued
      ensures old(dials) <= dials
      ensures Filled(ListAt(old(rpcconn), KeyOf(group, svrname)), ListAt(rpcconn, KeyOf(group, svrname)),
                     group, svrname, dials[|old(dials)|..])
    {
      hide Generated; hide Distinct; hide Names; hide NamesInOrder; hide Connected; hide For; hide Filled;
      var key := KeyOf(group, svrname);
      ghost var list0 := ListAt(rpcconn, key);
      gen1, gen2 := [], [];
      GeneratedNone(issued, group, svrname);
      if 0 == |ListAt(rpcconn, key)| {
        var list := GenCon(group, svrname, POOL_SIZE);
        gen1 := list;
        rpcconn := rpcconn[key := list];
        assert |gen1| <= POOL_SIZE by { GeneratedBound(old(issued), group, svrname, POOL_SIZE, gen1); }
      }
      GeneratedNone(old(issued) + Names(gen1), group, svrname);
      ghost var dials1 := dials;
      if |ListAt(rpcconn, key)| < POOL_SIZE {
        ghost var before := issued;
        var room := POOL_SIZE - |ListAt(rpcconn, key)|;
        var list := GenCon(group, svrname, room);
        gen2 := list;
        GeneratedFewer(before, old(issued) + Names(gen1), group, svrname, room, gen2);
        rpcconn := rpcconn[key := ListAt(rpcconn, key) + list];
      }
      NothingGenerated(issued, group, svrname, 0);
      ForNone(group, svrname);
      assert dials1 == old(dials) ==> dials1[|old(dials)|..] == [];
      assert dials == dials1 ==> dials[|dials1|..] == [];
      TwoBatches(list0, gen1, gen2, group, svrname, dials1[|old(dials)|..], dials[|dials1|..]);
      assert dials[|old(dials)|..] == dials1[|old(dials)|..] + dials[|dials1|..];
    }

    /** response: refills the service's list under the lock and picks a member of it. */
    method Response(group: bytes, svrname: bytes) returns (c: Option<Client>, ghost a: Action)
      requires Valid()
      modifies `rpcconn, `issued, `asked, `dials
      ensures Valid() && asked == old(asked) + {(group, svrname)}
      ensures a.Respond? && a.group == group && a.svrname == svrname && Step(old(Get()), Get(), a)
      ensures c == (match a.choice case NoNode => None case Chosen(_, client) => Some(client))
      ensures c.Some? ==> c.value in ListAt(rpcconn, group + svrname) && OfService(asked, group, svrname, c.value)
      ensures c.None? <==> ListAt(rpcconn, group + svrname) == []
      ensures old(dials) <= dials
      ensures Filled(ListAt(old(rpcconn), group + svrname), ListAt(rpcconn, group + svrname), group, svrname,
                     dials[|old(dials)|..])
    {
      hide FillsUp; hide Names; hide Refilled; hide OfService; hide Inv; hide ListOk;
      var key := KeyOf(group, svrname);
      SizeOk(Get(), key);
      asked := asked + {(group, svrname)};
      ghost var gen1, gen2 := Refill(group, svrname);
      ghost var full := ListAt(rpcconn, key);
      if 0 == |ListAt(rpcconn, key)| {
        a := Respond(group, svrname, gen1, gen2, NoNode);
        c := None;
      } else {
        var length :| 0 <= length < |ListAt(rpcconn, key)|;
        var now: int :| true;
        var list := ListAt(rpcconn, key);
        rpcconn := rpcconn[key := list[length := list[length].(stamp := now)]];
        c := Some(rpcconn[key][length]);
        a := Respond(group, svrname, gen1, gen2, Chosen(length, rpcconn[key][length]));
        assert NamesInOrder(rpcconn[key]) == NamesInOrder(list);
      }
      assert Step(old(Get()), Get(), a);
      StepKeepsInv(old(Get()), Get(), a);
      ChoosesMember(old(Get()), Get(), a);
    }

    /** The first half of removeByClient, under the read lock: copies the list without the client. */
    method TakeSnapshot(ghost tid: nat, group: bytes, svrname: bytes, name: bytes)
      returns (index: int, snapshot: seq<Client>)
      requires Valid() && tid !in pending
      modifies `pending
      ensures Valid() && Step(old(Get()), Get(), Snap(tid, group + svrname, name))
      ensures snapshot == Without(ListAt(rpcconn, group + svrname), name)
      ensures index == -1 <==> name !in Names(ListAt(rpcconn, group + svrname))
    {
      hide Names; hide Without; hide Inv;
      var key := KeyOf(group, svrname);
      index, snapshot := CopyWithout(ListAt(rpcconn, key), name);
      if index != -1 {
        pending := pending[tid := Snapshot(key, snapshot)];
      }
      StepKeepsInv(old(Get()), Get(), Snap(tid, key, name));
    }

    /** The second half, under the write lock, with whatever the first half saw. */
    method WriteBackSnapshot(ghost tid: nat, key: bytes, snapshot: seq<Client>)
      requires Valid() && tid in pending && pending[tid] == Snapshot(key, snapshot)
      modifies `rpcconn, `pending
      ensures Valid() && Step(old(Get()), Get(), WriteBack(tid))
    {
      hide Inv;
      rpcconn := rpcconn[key := snapshot];
      pending := pending - {tid};
      StepKeepsInv(old(Get()), Get(), WriteBack(tid));
    }
  }

  lemma SizeOk(s: State, key: bytes)
    requires Inv(s)
    ensures |ListAt(s.rpcconn, key)| <= POOL_SIZE
  {
  }

  lemma ConnectedMore(dials: seq<Dial>, d: Dial)
    ensures Connected(dials + [d]) == Connected(dials) + (if d.up then [d.name] else [])
  {
    assert (dials + [d])[..|dials|] == dials;
  }

  lemma NamesInOrderMore(list: seq<Client>, c: Client)
    ensures NamesInOrder(list + [c]) == NamesInOrder(list) + [c.name]
  {
  }

  lemma NothingGenerated(issued: set<bytes>, group: bytes, svrname: bytes, num: nat)
    ensures Generated(issued, group, svrname, num, []) && Names([]) == {}
    ensures NamesInOrder([]) == [] && Connected([]) == []
  {
  }

  lemma TwoBatches(list: seq<Client>, gen1: seq<Client>, gen2: seq<Client>, group: bytes, svrname: bytes,
                   dials1: seq<Dial>, dials2: seq<Dial>)
    requires For(dials1, group, svrname) && For(dials2, group, svrname)
    requires |list| <= 8 && |gen1| <= 8
    requires |dials1| == (if list == [] then 8 else 0) && NamesInOrder(gen1) == Connected(dials1)
    requires |dials2| == 8 - |if list == [] then gen1 else list| && NamesInOrder(gen2) == Connected(dials2)
    ensures Filled(list, Refilled(list, gen1, gen2), group, svrname, dials1 + dials2)
  {
    hide Connected; hide For; hide NamesInOrder; hide Refilled;
    var first := if list == [] then gen1 else list;
    ConnectedConcat(dials1, dials2);
    ForConcat(dials1, dials2, group, svrname);
    AsManyNames(gen1);
    AsManyNames(gen2);
    NoDials();
    RefilledList(list, gen1, gen2);
    NamesInOrderConcat(first, gen2);
    if list == [] {
      assert (dials1 + dials2)[..8] == dials1;
    }
  }

  lemma AsManyNames(list: seq<Client>)
    ensures |NamesInOrder(list)| == |list| && NamesInOrder([]) == []
  {
  }

  lemma RefilledList(list: seq<Client>, gen1: seq<Client>, gen2: seq<Client>)
    requires |if list == [] then gen1 else list| < 8 || gen2 == []
    ensures Refilled(list, gen1, gen2) == (if list == [] then gen1 else list) + gen2
  {
  }

  lemma NoDials()
    ensures Connected([]) == [] && forall dials: seq<Dial> :: |dials| == 0 ==> Connected(dials) == []
  {
  }

  lemma NamesInOrderConcat(list: seq<Client>, more: seq<Client>)
    ensures NamesInOrder(list + more) == NamesInOrder(list) + NamesInOrder(more)
  {
  }

  lemma ForNone(group: bytes, svrname: bytes)
    ensures For([], group, svrname)
  {
  }

  lemma ForConcat(d: seq<Dial>, e: seq<Dial>, group: bytes, svrname: bytes)
    requires For(d, group, svrname) && For(e, group, svrname)
    ensures For(d + e, group, svrname)
  {
  }

  lemma FreshName(names: set<bytes>)
    ensures exists name: bytes :: name !in names
  {
    var n := LongerThanAll(names);
    var name: bytes := seq(n, _ => 0);
    assert name !in names;
  }

  lemma {:induction false} LongerThanAll(names: set<bytes>) returns (n: nat)
    ensures forall name :: name in names ==> |name| < n
    decreases names
  {
    if names == {} {
      n := 0;
    } else {
      var x :| x in names;
      var m := LongerThanAll(names - {x});
      n := if |x| < m then m else |x| + 1;
      forall name | name in names ensures |name| < n { assert name == x || name in names - {x}; }
    }
  }

  lemma NamesAppend(list: seq<Client>, c: Client)
    ensures Names(list + [c]) == Names(list) + {c.name}
  {
    var more := list + [c];
    forall n ensures n in Names(more) <==> n in Names(list) + {c.name} {
      if n in Names(list) { var i :| 0 <= i < |list| && list[i].name == n; assert more[i].name in Names(more); }
      if n == c.name { assert more[|list|].name in Names(more); }
      if n in Names(more) {
        var i :| 0 <= i < |more| && more[i].name == n;
        if i < |list| { assert list[i].name in Names(list); }
      }
    }
  }

  lemma GeneratedMore(issued: set<bytes>, group: bytes, svrname: bytes, num: nat, list: seq<Client>, c: Client)
    requires Generated(issued, group, svrname, num, list) && |list| < num
    requires c.group == group && c.svrname == svrname && c.name !in issued && c.name !in Names(list)
    ensures Generated(issued, group, svrname, num, list + [c])
    ensures Names(list + [c]) == Names(list) + {c.name}
  {
    NamesAppend(list, c);
    forall i | 0 <= i < |list| ensures list[i].name != c.name { assert list[i].name in Names(list); }
  }

  lemma GeneratedNone(issued: set<bytes>, group: bytes, svrname: bytes)
    ensures Generated(issued, group, svrname, 0, []) && Generated(issued, group, svrname, POOL_SIZE, [])
    ensures Names([]) == {}
  {
  }

  lemma GeneratedFewer(issued: set<bytes>, fewer: set<bytes>, group: bytes, svrname: bytes, num: nat, list: seq<Client>)
    requires Generated(issued, group, svrname, num, list) && fewer <= issued
    ensures Generated(fewer, group, svrname, num, list)
  {
  }
}
