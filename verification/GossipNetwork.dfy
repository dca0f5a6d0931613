/**
 A network of peers running one algorithm: they pull arms, gossip snapshots that may be lost,
 duplicated or reordered, evict stale entries, add arms and retire beaten ones. What holds
 in every reachable state.
 */
module GossipNetwork {
  import opened BanditState
  import opened Elimination

  datatype PeerState = PeerState(bandit: State, active: set<Arm>, excluded: set<Arm>)

  /**
   `logs` records the rewards every peer has drawn for every arm, in order; `sent` holds
   every message ever sent, any of which may be delivered at any time, any number of times.
   */
  datatype Net = Net(
    algorithm: Algorithm, peers: map<Peer, PeerState>, logs: map<(Peer, Arm), seq<real>>, sent: set<Gossip>,
    clock: real)

  function Log(net: Net, p: Peer, a: Arm): seq<real> {
    if (p, a) in net.logs then net.logs[(p, a)] else []
  }

  // --- evidence of a list of rewards -----------------------------------------------------

  function Sum(rs: seq<real>): real {
    if rs == [] then 0.0 else Sum(rs[..|rs| - 1]) + rs[|rs| - 1]
  }

  ghost predicate InUnit(rs: seq<real>) {
    forall i :: 0 <= i < |rs| ==> 0.0 <= rs[i] <= 1.0
  }

  lemma {:induction false} SumInRange(rs: seq<real>)
    requires InUnit(rs)
    ensures 0.0 <= Sum(rs) <= |rs| as real
  {
    if rs != [] {
      SumInRange(rs[..|rs| - 1]);
    }
  }

  /** The statistics a peer holds after drawing exactly these rewards. */
  ghost predicate Summarizes(algorithm: Algorithm, o: Observation, rs: seq<real>) {
    && o.pulls == |rs|
    && match algorithm
       case Ucb1 => o.totalReward == Sum(rs) && o.alpha == 1.0 && o.beta == 1.0
       case Thompson => o.totalReward == 0.0 && o.alpha == 1.0 + Sum(rs) && o.beta == 1.0 + |rs| as real - Sum(rs)
  }

  lemma ReinforcedSummarizes(algorithm: Algorithm, o: Observation, rs: seq<real>, reward: real)
    requires Summarizes(algorithm, o, rs)
    ensures Summarizes(algorithm, Reinforced(algorithm, o, reward), rs + [reward])
  {
    assert (rs + [reward])[..|rs|] == rs;
  }

  // --- steps -----------------------------------------------------------------------------

  datatype Step =
    | Pull(p: Peer, arm: Arm, reward: real)
    | Send(p: Peer, arm: Arm)
    | Deliver(p: Peer, m: Gossip)
    | Evict(p: Peer)
    | Check(p: Peer, best: Arm)
    | Add(p: Peer, arm: Arm)
    | Tick(delay: real)

  ghost function ViewOf(net: Net, p: Peer, width: HalfWidth): View
    requires p in net.peers
  {
    View(net.algorithm, net.peers[p].bandit, net.peers[p].active, width, net.clock)
  }

  ghost predicate Enabled(net: Net, step: Step, width: HalfWidth) {
    match step
    case Tick(delay) => delay >= 0.0
    case Pull(p, arm, reward) =>
      p in net.peers && arm in net.peers[p].active && arm in net.peers[p].bandit.own && 0.0 <= reward <= 1.0
    case Send(p, arm) => p in net.peers && arm in net.peers[p].active && arm in net.peers[p].bandit.own
    case Deliver(p, m) => p in net.peers && m in net.sent && m.sender != p
    case Evict(p) => p in net.peers
    case Check(p, best) =>
      p in net.peers && (ViewOf(net, p, width).Eligible() != {} ==> ViewOf(net, p, width).IsBest(best))
    case Add(p, arm) => p in net.peers
  }

  function Put(net: Net, p: Peer, ps: PeerState): Net { net.(peers := net.peers[p := ps]) }

  function Retire(net: Net, p: Peer, retired: set<Arm>): Net
    requires p in net.peers
  {
    var ps := net.peers[p];
    Put(net, p, ps.(active := ps.active - retired, excluded := ps.excluded + retired))
  }

  function Snapshot(b: State, arm: Arm): Gossip
    requires arm in b.own
  {
    var o := b.own[arm];
    Gossip(b.peerId, arm, o.pulls, o.totalReward, o.alpha, o.beta, b.lamportSelf + 1)
  }

  ghost function Apply(net: Net, step: Step, width: HalfWidth): Net
    requires Enabled(net, step, width)
  {
    match step
    case Tick(delay) => net.(clock := net.clock + delay)
    case Pull(p, arm, reward) =>
      var ps := net.peers[p];
      Put(net, p, ps.(bandit := Update(net.algorithm, ps.bandit, arm, reward, net.clock)))
        .(logs := net.logs[(p, arm) := Log(net, p, arm) + [reward]])
    case Send(p, arm) =>
      var ps := net.peers[p];
      Put(net, p, ps.(bandit := NextLamport(ps.bandit))).(sent := net.sent + {Snapshot(ps.bandit, arm)})
    case Deliver(p, m) =>
      // A message about an unknown arm starts a download instead; the arm arrives by Add.
      var ps := net.peers[p];
      if m.arm != "" && m.arm in ps.bandit.own
      then Put(net, p, ps.(bandit := ApplyGossip(ps.bandit, m, net.clock)))
      else net
    case Evict(p) =>
      var ps := net.peers[p];
      Put(net, p, ps.(bandit := EvictAllStale(ps.bandit, net.clock)))
    case Check(p, best) => Retire(net, p, ViewOf(net, p, width).Retired(best))
    case Add(p, arm) =>
      var ps := net.peers[p];
      if arm in ps.bandit.own then net
      else Put(net, p, ps.(bandit := AddArm(ps.bandit, arm), active := ps.active + {arm}))
  }

  // --- the invariant ---------------------------------------------------------------------

  /** The peer's own statistics for an arm are those of the rewards it has drawn for it. */
  ghost predicate ArmIsLog(net: Net, b: State, a: Arm) {
    if a in b.own then Summarizes(net.algorithm, b.own[a], Log(net, b.peerId, a)) else Log(net, b.peerId, a) == []
  }

  function Carried(s: Peer, a: Arm, o: Observation): Gossip {
    Gossip(s, a, o.pulls, o.totalReward, o.alpha, o.beta, o.lamport)
  }

  /** A table entry is a sent message of another peer, at the mark kept for it. */
  ghost predicate EntryIsMessage(sent: set<Gossip>, b: State, a: Arm, s: Peer) {
    a in b.table && s in b.table[a] ==>
      && s != b.peerId
      && Carried(s, a, b.table[a][s]) in sent
      && SeenMark(b, s, a) == b.table[a][s].lamport
  }

  /** Active and excluded arms partition the known ones, and an active one remains. */
  ghost predicate Partitioned(ps: PeerState) {
    && ps.active !! ps.excluded
    && ps.active + ps.excluded == ps.bandit.own.Keys
    && ps.active != {}
  }

  ghost predicate OwnIsLog(net: Net, b: State) {
    forall a {:trigger ArmIsLog(net, b, a)} :: ArmIsLog(net, b, a)
  }

  ghost predicate TableIsMessages(sent: set<Gossip>, b: State) {
    forall a, s {:trigger EntryIsMessage(sent, b, a, s)} :: EntryIsMessage(sent, b, a, s)
  }

  ghost predicate PeerOk(net: Net, p: Peer) {
    p in net.peers ==>
      var ps := net.peers[p];
      ps.bandit.peerId == p && OwnIsLog(net, ps.bandit) && TableIsMessages(net.sent, ps.bandit) && Partitioned(ps)
  }

  /** A message carries the statistics of a prefix of its sender's own rewards. */
  ghost predicate IsPastSnapshot(net: Net, m: Gossip) {
    && m.sender in net.peers
    && m.lamport <= net.peers[m.sender].bandit.lamportSelf
    && 0 <= m.pulls <= |Log(net, m.sender, m.arm)|
    && Summarizes(net.algorithm, Received(m, 0.0), Log(net, m.sender, m.arm)[..m.pulls])
  }

  ghost predicate MessagesArePast(net: Net) {
    forall m {:trigger IsPastSnapshot(net, m)} :: m in net.sent ==> IsPastSnapshot(net, m)
  }

  /** Later stamps of one sender for one arm carry later snapshots. */
  ghost predicate Orders(m: Gossip, m': Gossip) {
    m.sender == m'.sender && m.arm == m'.arm && m.lamport <= m'.lamport ==> m.pulls <= m'.pulls
  }

  ghost predicate StampsOrder(sent: set<Gossip>) {
    forall m, m' {:trigger Orders(m, m')} :: m in sent && m' in sent ==> Orders(m, m')
  }

  ghost predicate LogsInUnit(net: Net) {
    forall p, a {:trigger Log(net, p, a)} :: InUnit(Log(net, p, a))
  }

  ghost predicate PeersOk(net: Net) {
    forall p {:trigger PeerOk(net, p)} :: PeerOk(net, p)
  }

  ghost predicate Inv(net: Net) {
    PeersOk(net) && MessagesArePast(net) && StampsOrder(net.sent) && LogsInUnit(net)
  }

  /** Peers that know the given arms and nothing else. */
  ghost predicate Init(net: Net) {
    && net.logs == map[] && net.sent == {}
    && forall p :: p in net.peers ==>
         && net.peers[p].active != {}
         && net.peers[p].excluded == {}
         && net.peers[p].bandit == Fresh(net.peers[p].active, p)
  }

  lemma InitHolds(net: Net)
    requires Init(net)
    ensures Inv(net)
  {}

  // --- what one peer's step leaves alone -------------------------------------------------

  /** Nothing but peer `p` changes; logs, messages and the peer's counter only grow. */
  ghost predicate OnlyMoves(net: Net, net': Net, p: Peer) {
    && p in net.peers && net'.peers.Keys == net.peers.Keys
    && net'.algorithm == net.algorithm && net.sent <= net'.sent
    && (forall q :: q in net.peers && q != p ==> net'.peers[q] == net.peers[q])
    && (forall q, a :: q != p ==> Log(net', q, a) == Log(net, q, a))
    && (forall a :: Log(net, p, a) <= Log(net', p, a))
    && net.peers[p].bandit.lamportSelf <= net'.peers[p].bandit.lamportSelf
  }

  lemma OthersKeep(net: Net, net': Net, p: Peer, q: Peer)
    requires OnlyMoves(net, net', p) && PeerOk(net, q) && q != p
    ensures PeerOk(net', q)
  {
    hide Summarizes;
    if q in net.peers {
      var b := net.peers[q].bandit;
      forall a ensures ArmIsLog(net', b, a) {
        assert ArmIsLog(net, b, a);
        assert Log(net', q, a) == Log(net, q, a);
      }
      TableKeeps(net.sent, net'.sent, b);
    }
  }

  lemma TableKeeps(sent: set<Gossip>, sent': set<Gossip>, b: State)
    requires TableIsMessages(sent, b) && sent <= sent'
    ensures TableIsMessages(sent', b)
  {
    forall a, s ensures EntryIsMessage(sent', b, a, s) {
      assert EntryIsMessage(sent, b, a, s);
    }
  }

  lemma SameTableKeeps(sent: set<Gossip>, b: State, b': State)
    requires TableIsMessages(sent, b)
    requires b'.table == b.table && b'.seen == b.seen && b'.peerId == b.peerId
    ensures TableIsMessages(sent, b')
  {
    forall a, s ensures EntryIsMessage(sent, b', a, s) {
      assert EntryIsMessage(sent, b, a, s);
    }
  }

  lemma SameOwnKeeps(net: Net, net': Net, b: State, b': State)
    requires OwnIsLog(net, b) && b'.own == b.own && b'.peerId == b.peerId
    requires net'.logs == net.logs && net'.algorithm == net.algorithm
    ensures OwnIsLog(net', b')
  {
    hide Summarizes;
    forall a ensures ArmIsLog(net', b', a) {
      assert ArmIsLog(net, b, a);
    }
  }

  lemma MessageKeeps(net: Net, net': Net, p: Peer, m: Gossip)
    requires OnlyMoves(net, net', p) && IsPastSnapshot(net, m)
    ensures IsPastSnapshot(net', m)
  {
    hide Summarizes;
    assert Log(net, m.sender, m.arm) <= Log(net', m.sender, m.arm);
    assert Log(net, m.sender, m.arm)[..m.pulls] == Log(net', m.sender, m.arm)[..m.pulls];
  }

  /** What a step has to show about the peer that moves and about what it sends. */
  lemma MoveKeepsInv(net: Net, net': Net, p: Peer)
    requires Inv(net) && OnlyMoves(net, net', p) && PeerOk(net', p)
    requires forall m :: m in net'.sent && m !in net.sent ==> IsPastSnapshot(net', m)
    requires StampsOrder(net'.sent)
    requires forall a :: InUnit(Log(net', p, a))
    ensures Inv(net')
  {
    hide IsPastSnapshot, PeerOk, InUnit, StampsOrder;
    forall q ensures PeerOk(net', q) {
      assert PeerOk(net, q);
      if q != p {
        OthersKeep(net, net', p, q);
      }
    }
    forall m | m in net'.sent ensures IsPastSnapshot(net', m) {
      if m in net.sent {
        MessageKeeps(net, net', p, m);
      }
    }
    forall q, a ensures InUnit(Log(net', q, a)) {
      assert q != p ==> Log(net', q, a) == Log(net, q, a);
    }
  }

  /** A step that changes neither logs nor messages. */
  lemma QuietMoveKeepsInv(net: Net, net': Net, p: Peer)
    requires Inv(net) && OnlyMoves(net, net', p) && PeerOk(net', p)
    requires net'.sent == net.sent && net'.logs == net.logs
    ensures Inv(net')
  {
    hide PeerOk, InUnit, PeersOk, MessagesArePast, StampsOrder, OnlyMoves;
    forall a ensures InUnit(Log(net', p, a)) {
      assert Log(net', p, a) == Log(net, p, a);
    }
    MoveKeepsInv(net, net', p);
  }

  // --- every step ------------------------------------------------------------------------

  lemma StampIsNoEvidence(algorithm: Algorithm, o: Observation, o': Observation, rs: seq<real>)
    requires Summarizes(algorithm, o, rs)
    requires o'.pulls == o.pulls && o'.totalReward == o.totalReward && o'.alpha == o.alpha && o'.beta == o.beta
    ensures Summarizes(algorithm, o', rs)
  {}

  lemma SummaryCounts(algorithm: Algorithm, o: Observation, rs: seq<real>)
    requires Summarizes(algorithm, o, rs)
    ensures o.pulls == |rs|
  {}

  lemma UpdateKeepsOwn(net: Net, net': Net, b: State, arm: Arm, reward: real)
    requires OwnIsLog(net, b) && arm in b.own && net'.algorithm == net.algorithm
    requires net'.logs == net.logs[(b.peerId, arm) := Log(net, b.peerId, arm) + [reward]]
    ensures OwnIsLog(net', Update(net.algorithm, b, arm, reward, net.clock))
  {
    hide Summarizes, Reinforced;
    var b' := Update(net.algorithm, b, arm, reward, net.clock);
    forall a ensures ArmIsLog(net', b', a) {
      assert ArmIsLog(net, b, a);
      if a == arm {
        ReinforcedSummarizes(net.algorithm, b.own[arm], Log(net, b.peerId, arm), reward);
        StampIsNoEvidence(net.algorithm, Reinforced(net.algorithm, b.own[arm], reward), b'.own[arm],
                          Log(net', b.peerId, arm));
      } else {
        assert Log(net', b.peerId, a) == Log(net, b.peerId, a);
      }
    }
  }

  lemma PullKeeps(net: Net, p: Peer, arm: Arm, reward: real, width: HalfWidth)
    requires Inv(net) && Enabled(net, Pull(p, arm, reward), width)
    ensures Inv(Apply(net, Pull(p, arm, reward), width))
  {
    hide Summarizes, OwnIsLog, TableIsMessages, StampsOrder, MessagesArePast, Reinforced;
    var net' := Apply(net, Pull(p, arm, reward), width);
    var b, b' := net.peers[p].bandit, net'.peers[p].bandit;
    assert PeerOk(net, p);
    UpdateKeepsOwn(net, net', b, arm, reward);
    SameTableKeeps(net.sent, b, b');
    assert b'.own.Keys == b.own.Keys;
    assert PeerOk(net', p);
    forall a ensures InUnit(Log(net', p, a)) {
      assert InUnit(Log(net, p, a));
    }
    assert OnlyMoves(net, net', p);
    MoveKeepsInv(net, net', p);
  }

  lemma SentOrders(net: Net, p: Peer, arm: Arm)
    requires Inv(net) && p in net.peers && arm in net.peers[p].bandit.own
    ensures StampsOrder(net.sent + {Snapshot(net.peers[p].bandit, arm)})
  {
    hide Summarizes;
    var b := net.peers[p].bandit;
    var sent' := net.sent + {Snapshot(b, arm)};
    assert PeerOk(net, p);
    assert ArmIsLog(net, b, arm);
    SummaryCounts(net.algorithm, b.own[arm], Log(net, p, arm));
    forall m, m' | m in sent' && m' in sent' ensures Orders(m, m') {
      assert m in net.sent ==> IsPastSnapshot(net, m);
      assert m' in net.sent ==> IsPastSnapshot(net, m');
    }
  }

  lemma SnapshotIsPast(net: Net, net': Net, p: Peer, arm: Arm)
    requires p in net.peers && p in net'.peers && PeerOk(net, p) && arm in net.peers[p].bandit.own
    requires net'.logs == net.logs && net'.algorithm == net.algorithm
    requires net'.peers[p].bandit.lamportSelf == net.peers[p].bandit.lamportSelf + 1
    ensures IsPastSnapshot(net', Snapshot(net.peers[p].bandit, arm))
  {
    hide Summarizes, TableIsMessages, Partitioned;
    var b, log := net.peers[p].bandit, Log(net, p, arm);
    var m := Snapshot(b, arm);
    assert ArmIsLog(net, b, arm);
    SummaryCounts(net.algorithm, b.own[arm], log);
    StampIsNoEvidence(net.algorithm, b.own[arm], Received(m, 0.0), log);
    assert Log(net', p, arm)[..m.pulls] == log;
  }

  lemma SendKeeps(net: Net, p: Peer, arm: Arm, width: HalfWidth)
    requires Inv(net) && Enabled(net, Send(p, arm), width)
    ensures Inv(Apply(net, Send(p, arm), width))
  {
    hide OwnIsLog, TableIsMessages, StampsOrder, MessagesArePast, IsPastSnapshot;
    var net' := Apply(net, Send(p, arm), width);
    var b, b' := net.peers[p].bandit, net'.peers[p].bandit;
    assert PeerOk(net, p);
    SameOwnKeeps(net, net', b, b');
    SameTableKeeps(net.sent, b, b');
    TableKeeps(net.sent, net'.sent, b');
    assert PeerOk(net', p);
    SentOrders(net, p, arm);
    SnapshotIsPast(net, net', p, arm);
    forall a ensures InUnit(Log(net', p, a)) {
      assert Log(net', p, a) == Log(net, p, a);
    }
    assert OnlyMoves(net, net', p);
    MoveKeepsInv(net, net', p);
  }

  lemma HearingKeepsTable(sent: set<Gossip>, b: State, m: Gossip, now: real)
    requires TableIsMessages(sent, b) && m in sent && m.sender != b.peerId
    ensures TableIsMessages(sent, ApplyGossip(b, m, now))
  {
    var b' := ApplyGossip(b, m, now);
    forall a, s ensures EntryIsMessage(sent, b', a, s) {
      assert EntryIsMessage(sent, b, a, s);
    }
  }

  lemma DeliverKeeps(net: Net, p: Peer, m: Gossip, width: HalfWidth)
    requires Inv(net) && Enabled(net, Deliver(p, m), width)
    ensures Inv(Apply(net, Deliver(p, m), width))
  {
    hide OwnIsLog, TableIsMessages, Inv;
    assert PeerOk(net, p) by {
      InvPeer(net, p);
    }
    var b := net.peers[p].bandit;
    if m.arm != "" && m.arm in b.own {
      var net' := Apply(net, Deliver(p, m), width);
      var b' := ApplyGossip(b, m, net.clock);
      HearingKeepsTable(net.sent, b, m, net.clock);
      SameOwnKeeps(net, net', b, b');
      assert PeerOk(net', p);
      assert OnlyMoves(net, net', p);
      QuietMoveKeepsInv(net, net', p);
    }
  }

  lemma InvPeer(net: Net, p: Peer)
    requires Inv(net)
    ensures PeerOk(net, p)
  {}

  lemma EvictingKeepsTable(sent: set<Gossip>, b: State, now: real)
    requires TableIsMessages(sent, b)
    ensures TableIsMessages(sent, EvictAllStale(b, now))
  {
    var b' := EvictAllStale(b, now);
    forall a, s ensures EntryIsMessage(sent, b', a, s) {
      assert EntryIsMessage(sent, b, a, s);
    }
  }

  lemma EvictKeeps(net: Net, p: Peer, width: HalfWidth)
    requires Inv(net) && Enabled(net, Evict(p), width)
    ensures Inv(Apply(net, Evict(p), width))
  {
    hide OwnIsLog, TableIsMessages, Inv;
    InvPeer(net, p);
    var net' := Apply(net, Evict(p), width);
    var b, b' := net.peers[p].bandit, net'.peers[p].bandit;
    EvictingKeepsTable(net.sent, b, net.clock);
    SameOwnKeeps(net, net', b, b');
    assert PeerOk(net', p);
    assert OnlyMoves(net, net', p);
    QuietMoveKeepsInv(net, net', p);
  }

  lemma CheckKeeps(net: Net, p: Peer, best: Arm, width: HalfWidth)
    requires Inv(net) && Enabled(net, Check(p, best), width)
    ensures Inv(Apply(net, Check(p, best), width))
  {
    hide Inv, View.Eligible, View.IsBest, View.Retired;
    InvPeer(net, p);
    var v := ViewOf(net, p, width);
    BestStays(v, best);
    RetiringKeeps(net, p, v.Retired(best));
  }

  lemma RetiringKeeps(net: Net, p: Peer, retired: set<Arm>)
    requires Inv(net) && p in net.peers
    requires retired <= net.peers[p].active && net.peers[p].active - retired != {}
    ensures Inv(Retire(net, p, retired))
  {
    hide OwnIsLog, TableIsMessages, Inv;
    InvPeer(net, p);
    var net', ps := Retire(net, p, retired), net.peers[p];
    SameOwnKeeps(net, net', ps.bandit, ps.bandit);
    RetiringKeepsPartition(ps, retired);
    assert PeerOk(net', p);
    assert OnlyMoves(net, net', p);
    QuietMoveKeepsInv(net, net', p);
  }

  lemma RetiringKeepsPartition(ps: PeerState, retired: set<Arm>)
    requires Partitioned(ps) && retired <= ps.active && ps.active - retired != {}
    ensures Partitioned(ps.(active := ps.active - retired, excluded := ps.excluded + retired))
  {
    assert (ps.active - retired) + (ps.excluded + retired) == ps.active + ps.excluded;
  }

  lemma AddingKeepsOwn(net: Net, net': Net, b: State, arm: Arm)
    requires OwnIsLog(net, b) && net'.logs == net.logs && net'.algorithm == net.algorithm
    ensures OwnIsLog(net', AddArm(b, arm))
  {
    var b' := AddArm(b, arm);
    forall a ensures ArmIsLog(net', b', a) {
      assert ArmIsLog(net, b, a);
    }
  }

  lemma AddingKeepsTable(sent: set<Gossip>, b: State, arm: Arm)
    requires TableIsMessages(sent, b)
    ensures TableIsMessages(sent, AddArm(b, arm))
  {
    forall a, s ensures EntryIsMessage(sent, AddArm(b, arm), a, s) {
      assert EntryIsMessage(sent, b, a, s);
    }
  }

  lemma AddKeeps(net: Net, p: Peer, arm: Arm, width: HalfWidth)
    requires Inv(net) && Enabled(net, Add(p, arm), width)
    ensures Inv(Apply(net, Add(p, arm), width))
  {
    hide OwnIsLog, TableIsMessages, Inv;
    InvPeer(net, p);
    var ps := net.peers[p];
    if arm !in ps.bandit.own {
      var net' := Apply(net, Add(p, arm), width);
      AddingKeepsOwn(net, net', ps.bandit, arm);
      AddingKeepsTable(net.sent, ps.bandit, arm);
      assert ps.active + {arm} + ps.excluded == ps.active + ps.excluded + {arm};
      assert PeerOk(net', p);
      assert OnlyMoves(net, net', p);
      QuietMoveKeepsInv(net, net', p);
    }
  }

  lemma TickKeeps(net: Net, delay: real, width: HalfWidth)
    requires Inv(net) && Enabled(net, Tick(delay), width)
    ensures Inv(Apply(net, Tick(delay), width))
  {
    hide Summarizes, InUnit, TableIsMessages, StampsOrder, OwnIsLog;
    var net' := Apply(net, Tick(delay), width);
    forall q ensures PeerOk(net', q) {
      assert PeerOk(net, q);
      if q in net.peers {
        SameOwnKeeps(net, net', net.peers[q].bandit, net.peers[q].bandit);
      }
    }
    forall m | m in net'.sent ensures IsPastSnapshot(net', m) {
      assert IsPastSnapshot(net, m);
      assert Log(net', m.sender, m.arm) == Log(net, m.sender, m.arm);
    }
    forall p, a ensures InUnit(Log(net', p, a)) {
      assert Log(net', p, a) == Log(net, p, a);
    }
  }

  /** Every step keeps the invariant. */
  lemma StepKeepsInv(net: Net, step: Step, width: HalfWidth)
    requires Inv(net) && Enabled(net, step, width)
    ensures Inv(Apply(net, step, width))
  {
    hide Inv, Apply;
    match step
    case Tick(delay) => TickKeeps(net, delay, width);
    case Pull(p, arm, reward) => PullKeeps(net, p, arm, reward, width);
    case Send(p, arm) => SendKeeps(net, p, arm, width);
    case Deliver(p, m) => DeliverKeeps(net, p, m, width);
    case Evict(p) => EvictKeeps(net, p, width);
    case Check(p, best) => CheckKeeps(net, p, best, width);
    case Add(p, arm) => AddKeeps(net, p, arm, width);
  }
}
