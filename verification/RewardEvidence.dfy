/** What a peer's aggregates and intervals say about the rewards that were drawn in the network. */
module RewardEvidence {
  import opened MapSums
  import opened Quotients
  import opened BanditState
  import opened Elimination
  import opened GossipNetwork
  import opened GossipSafety

  // --- the rewards a peer counts ---------------------------------------------------------

  function Count(rs: seq<real>): real { |rs| as real }

  function Missed(rs: seq<real>): real { |rs| as real - Sum(rs) }

  /**
   `drawn` holds the rewards behind the evidence of `p` for `a`: its own, and of every sender
   heard within the last 300 seconds the ones it had drawn when it took the snapshot.
   */
  ghost predicate AreCounted(net: Net, p: Peer, a: Arm, drawn: map<Peer, seq<real>>)
    requires p in net.peers
  {
    var t := TableOf(net.peers[p].bandit, a);
    && p in drawn && drawn[p] == Log(net, p, a)
    && (forall s :: s in drawn && s != p ==> s in t)
    && forall s :: s in t && s != p ==>
         && (s in drawn <==> net.clock <= t[s].lastReceived + 300.0)
         && (s in drawn ==> t[s].pulls == |drawn[s]| && drawn[s] <= Log(net, s, a))
  }

  // --- aggregates ------------------------------------------------------------------------

  /** What `f` reads off a summary is what `g` makes of the rewards. */
  ghost predicate ReadsOff(algorithm: Algorithm, f: Observation -> real, g: seq<real> -> real) {
    forall o, rs {:trigger f(o), g(rs)} :: Summarizes(algorithm, o, rs) ==> f(o) == g(rs)
  }

  lemma EntryReadsOff(
      net: Net, p: Peer, a: Arm, s: Peer, drawn: map<Peer, seq<real>>, f: Observation -> real, g: seq<real> -> real)
    requires Inv(net) && p in net.peers && AreCounted(net, p, a, drawn)
    requires s in TableOf(net.peers[p].bandit, a) && s in drawn && ReadsOff(net.algorithm, f, g)
    ensures s != p && f(net.peers[p].bandit.table[a][s]) == g(drawn[s])
  {
    hide Inv, Summarizes;
    TableHoldsPastSnapshots(net, p, a, s);
    var o := net.peers[p].bandit.table[a][s];
    assert drawn[s] == Log(net, s, a)[..o.pulls];
  }

  lemma OwnReadsOff(net: Net, p: Peer, a: Arm, f: Observation -> real, g: seq<real> -> real)
    requires Inv(net) && p in net.peers && a in net.peers[p].bandit.own && ReadsOff(net.algorithm, f, g)
    ensures f(net.peers[p].bandit.own[a]) == g(Log(net, p, a))
  {
    hide Summarizes;
    assert PeerOk(net, p);
    assert ArmIsLog(net, net.peers[p].bandit, a);
  }

  /** An aggregate is a sum over the counted rewards. */
  lemma AggregateReadsOff(
      net: Net, p: Peer, a: Arm, drawn: map<Peer, seq<real>>, f: Observation -> real, g: seq<real> -> real)
    requires Inv(net) && p in net.peers && a in net.peers[p].bandit.own
    requires AreCounted(net, p, a, drawn) && ReadsOff(net.algorithm, f, g)
    ensures Aggregate(net.peers[p].bandit, a, f, net.clock) == MapSum(drawn, g)
  {
    hide Inv, ReadsOff;
    var t, now := TableOf(net.peers[p].bandit, a), net.clock;
    OwnReadsOff(net, p, a, f, g);
    MapSumTake(drawn, g, p);
    var stale := set s | s in t && s !in drawn;
    forall s | s in t ensures s != p && (s in drawn ==> f(t[s]) == g(drawn[s])) {
      TableHoldsPastSnapshots(net, p, a, s);
      if s in drawn {
        EntryReadsOff(net, p, a, s, drawn, f, g);
      }
    }
    MapSumDrop(t, FreshPart(f, now), stale);
    MapSumCongruent(t - stale, FreshPart(f, now), drawn - {p}, g);
  }

  /** Pulls are the number of rewards, and rewards or both parts of the posterior their sum. */
  lemma AggregatesAreRewards(net: Net, p: Peer, a: Arm, drawn: map<Peer, seq<real>>)
    requires Inv(net) && p in net.peers && a in net.peers[p].bandit.own && AreCounted(net, p, a, drawn)
    ensures var b, now := net.peers[p].bandit, net.clock;
      && Aggregate(b, a, Pulls, now) == MapSum(drawn, Count)
      && (net.algorithm.Ucb1? ==> Aggregate(b, a, Reward, now) == MapSum(drawn, Sum))
      && (net.algorithm.Thompson? ==> Aggregate(b, a, AlphaEvidence, now) == MapSum(drawn, Sum))
      && (net.algorithm.Thompson? ==>
            Aggregate(b, a, BetaEvidence, now) == MapSum(drawn, Count) - MapSum(drawn, Sum))
  {
    hide Inv, AreCounted, Aggregate;
    AggregateReadsOff(net, p, a, drawn, Pulls, Count);
    match net.algorithm
    case Ucb1 => AggregateReadsOff(net, p, a, drawn, Reward, Sum);
    case Thompson =>
      AggregateReadsOff(net, p, a, drawn, AlphaEvidence, Sum);
      AggregateReadsOff(net, p, a, drawn, BetaEvidence, Missed);
      MapSumAdds(drawn, Sum, Missed, Count);
  }

  // --- intervals -------------------------------------------------------------------------

  /** There always are such rewards. */
  lemma CountedExist(net: Net, p: Peer, a: Arm) returns (drawn: map<Peer, seq<real>>)
    requires Inv(net) && p in net.peers
    ensures AreCounted(net, p, a, drawn)
  {
    hide Inv, Summarizes;
    var t := TableOf(net.peers[p].bandit, a);
    forall s | s in t ensures s != p && 0 <= t[s].pulls <= |Log(net, s, a)| {
      TableHoldsPastSnapshots(net, p, a, s);
    }
    drawn := (map s | s in t && IsFresh(t[s], net.clock) :: Log(net, s, a)[..t[s].pulls])[p := Log(net, p, a)];
  }

  /**
   The interval lies around the share of reward in what was drawn, with one won and one lost
   pull added for Thompson, and reaches as far as the half-width within [0, 1]; it is all of
   [0, 1] while nothing was drawn.
   */
  lemma IntervalIsAroundRewards(net: Net, p: Peer, a: Arm, width: HalfWidth, drawn: map<Peer, seq<real>>)
    requires Inv(net) && p in net.peers && a in net.peers[p].bandit.own && AreCounted(net, p, a, drawn)
    ensures var n, won := MapSum(drawn, Count), MapSum(drawn, Sum);
      var (lcb, ucb) := ConfidenceBounds(net.algorithm, net.peers[p].bandit, a, width, net.clock);
      && n >= 0.0
      && (n == 0.0 ==> lcb == 0.0 && ucb == 1.0)
      && (n != 0.0 ==>
            var mean := if net.algorithm.Ucb1? then won / n else (1.0 + won) / (2.0 + n);
            var w := width(TotalPulls(net.peers[p].bandit, net.clock), n);
            && (lcb == mean - w || (lcb == 0.0 && mean - w <= 0.0)) && lcb >= 0.0
            && (ucb == mean + w || (ucb == 1.0 && mean + w >= 1.0)) && ucb <= 1.0)
  {
    hide Inv, AreCounted, Aggregate, TotalPulls;
    AggregatesAreRewards(net, p, a, drawn);
    MapSumNonNegative(drawn, Count);
  }

  /** Alone, with an arm pulled and no half-width, both bounds are the share of reward. */
  lemma AloneBoundsAreTheShare(net: Net, p: Peer, a: Arm, rs: seq<real>)
    requires Inv(net) && p in net.peers && a in net.peers[p].bandit.own && rs == Log(net, p, a) && rs != []
    requires forall s :: s in TableOf(net.peers[p].bandit, a) ==>
      net.clock > net.peers[p].bandit.table[a][s].lastReceived + 300.0
    ensures var share := if net.algorithm.Ucb1? then Sum(rs) / |rs| as real
                         else (1.0 + Sum(rs)) / (2.0 + |rs| as real);
      ConfidenceBounds(net.algorithm, net.peers[p].bandit, a, (N, n) => 0.0, net.clock) == (share, share)
  {
    hide Inv, AreCounted, Log, MapSum, Sum, InUnit, BanditState.ConfidenceBounds, BanditState.TotalPulls;
    AloneOnlyOwnCount(net, p, a);
    IntervalIsAroundRewards(net, p, a, (N, n) => 0.0, map[p := rs]);
    MapSumOfOne(p, rs, Count);
    MapSumOfOne(p, rs, Sum);
    LogIsInUnit(net, p, a);
    ShareInUnit(rs);
  }

  lemma AloneOnlyOwnCount(net: Net, p: Peer, a: Arm)
    requires Inv(net) && p in net.peers
    requires forall s :: s in TableOf(net.peers[p].bandit, a) ==>
      net.clock > net.peers[p].bandit.table[a][s].lastReceived + 300.0
    ensures AreCounted(net, p, a, map[p := Log(net, p, a)])
  {
    hide Inv;
  }

  lemma MapSumOfOne<K, V>(k: K, v: V, g: V -> real)
    ensures MapSum(map[k := v], g) == g(v)
  {
    assert map[k := v] - {k} == map[];
    MapSumTake(map[k := v], g, k);
  }

  lemma LogIsInUnit(net: Net, p: Peer, a: Arm)
    requires Inv(net)
    ensures InUnit(Log(net, p, a))
  {}

  lemma ShareInUnit(rs: seq<real>)
    requires InUnit(rs) && rs != []
    ensures 0.0 <= Sum(rs) / |rs| as real <= 1.0
    ensures 0.0 <= (1.0 + Sum(rs)) / (2.0 + |rs| as real) <= 1.0
  {
    SumInRange(rs);
    QuotientInUnit(Sum(rs), |rs| as real);
    QuotientInUnit(1.0 + Sum(rs), 2.0 + |rs| as real);
  }

  // --- totals ----------------------------------------------------------------------------

  /** The pulls over all arms are those of every arm together. */
  lemma {:induction false} TotalsAdd(
      own: map<Arm, Observation>, table: map<Arm, map<Peer, Observation>>, each: map<Arm, real>, now: real)
    requires table.Keys <= own.Keys == each.Keys
    requires forall a :: a in own ==>
      each[a] == Pulls(own[a]) + if a in table then TableTotal(Pulls, now)(table[a]) else 0.0
    ensures MapSum(own, Pulls) + MapSum(table, TableTotal(Pulls, now)) == MapSum(each, (n: real) => n)
  {
    if own != map[] {
      var a :| a in own;
      TotalsAdd(own - {a}, table - {a}, each - {a}, now);
      MapSumTake(own, Pulls, a);
      MapSumTake(each, (n: real) => n, a);
      if a in table {
        MapSumTake(table, TableTotal(Pulls, now), a);
      } else {
        assert table - {a} == table;
      }
    } else {
      assert table == map[] && each == map[];
    }
  }

  lemma {:induction false} KnownArmsOnly(nets: seq<Net>, steps: seq<Step>, width: HalfWidth, i: nat, p: Peer)
    requires IsRun(nets, steps, width) && i < |nets| && p in nets[i].peers
    ensures nets[i].peers[p].bandit.table.Keys <= nets[i].peers[p].bandit.own.Keys
  {
    hide Enabled, Apply;
    if i > 0 {
      assert StepTo(nets[i - 1], steps[i - 1], nets[i], width);
      StepKeepsPeers(nets[i - 1], steps[i - 1], width);
      KnownArmsOnly(nets, steps, width, i - 1, p);
      StepKeepsTables(nets[i - 1], steps[i - 1], width, p);
    }
  }

  lemma StepKeepsPeers(net: Net, step: Step, width: HalfWidth)
    requires Enabled(net, step, width)
    ensures Apply(net, step, width).peers.Keys == net.peers.Keys
  {
    hide View.Retired, View.Eligible, View.IsBest, Update, ApplyGossip, EvictAllStale, AddArm, NextLamport;
  }

  lemma StepKeepsTables(net: Net, step: Step, width: HalfWidth, p: Peer)
    requires Enabled(net, step, width) && p in net.peers && p in Apply(net, step, width).peers
    requires net.peers[p].bandit.table.Keys <= net.peers[p].bandit.own.Keys
    ensures var b := Apply(net, step, width).peers[p].bandit; b.table.Keys <= b.own.Keys
  {
    hide View.Retired, View.Eligible, View.IsBest, Reinforced;
  }

  /** In every reachable state the total is that of the arms, each with its counted rewards. */
  lemma TotalIsOfAllArms(
      nets: seq<Net>, steps: seq<Step>, width: HalfWidth, i: nat, p: Peer, drawn: map<Arm, map<Peer, seq<real>>>)
    requires IsRun(nets, steps, width) && i < |nets| && p in nets[i].peers
    requires drawn.Keys == nets[i].peers[p].bandit.own.Keys
    requires forall a :: a in drawn ==> AreCounted(nets[i], p, a, drawn[a])
    ensures TotalPulls(nets[i].peers[p].bandit, nets[i].clock)
         == MapSum(drawn, (d: map<Peer, seq<real>>) => MapSum(d, Count))
  {
    hide IsRun, Inv, AreCounted;
    ReachableKeepsInv(nets, steps, width, i);
    KnownArmsOnly(nets, steps, width, i, p);
    var net, b := nets[i], nets[i].peers[p].bandit;
    var counts := (d: map<Peer, seq<real>>) => MapSum(d, Count);
    var each := map a | a in drawn :: counts(drawn[a]);
    forall a | a in b.own
      ensures each[a] == Pulls(b.own[a]) + if a in b.table then TableTotal(Pulls, net.clock)(b.table[a]) else 0.0
    {
      AggregatesAreRewards(net, p, a, drawn[a]);
    }
    TotalsAdd(b.own, b.table, each, net.clock);
    MapSumCongruent(each, (n: real) => n, drawn, counts);
  }

  // --- what gossip brings ----------------------------------------------------------------

  lemma {:induction false} MarksArePast(
      nets: seq<Net>, steps: seq<Step>, width: HalfWidth, i: nat, p: Peer, s: Peer, a: Arm)
    requires IsRun(nets, steps, width) && i < |nets| && p in nets[i].peers && s in nets[i].peers
    ensures SeenMark(nets[i].peers[p].bandit, s, a) <= nets[i].peers[s].bandit.lamportSelf
  {
    hide Enabled, Apply, Inv;
    if i > 0 {
      assert StepTo(nets[i - 1], steps[i - 1], nets[i], width);
      StepKeepsPeers(nets[i - 1], steps[i - 1], width);
      MarksArePast(nets, steps, width, i - 1, p, s, a);
      ReachableKeepsInv(nets, steps, width, i - 1);
      StepKeepsMarks(nets[i - 1], steps[i - 1], width, p, s, a);
    }
  }

  lemma StepKeepsMarks(net: Net, step: Step, width: HalfWidth, p: Peer, s: Peer, a: Arm)
    requires Inv(net) && Enabled(net, step, width) && p in net.peers && s in net.peers
    requires SeenMark(net.peers[p].bandit, s, a) <= net.peers[s].bandit.lamportSelf
    ensures var net' := Apply(net, step, width);
      && p in net'.peers && s in net'.peers
      && SeenMark(net'.peers[p].bandit, s, a) <= net'.peers[s].bandit.lamportSelf
  {
    hide View.Retired, View.Eligible, View.IsBest, Reinforced, Inv, Summarizes;
    if step.Deliver? {
      MessageFacts(net, step.m, step.m);
    }
  }

  /** A sent message carries what the sender has drawn, under a stamp above all its stamps before. */
  lemma SendingTells(net: Net, s: Peer, a: Arm, width: HalfWidth) returns (m: Gossip)
    requires Inv(net) && Enabled(net, Send(s, a), width)
    ensures m in Apply(net, Send(s, a), width).sent
    ensures m.sender == s && m.arm == a && m.lamport == net.peers[s].bandit.lamportSelf + 1
    ensures m.pulls == |Log(net, s, a)|
  {
    hide Summarizes;
    assert PeerOk(net, s);
    var b := net.peers[s].bandit;
    assert ArmIsLog(net, b, a);
    SummaryCounts(net.algorithm, b.own[a], Log(net, s, a));
    m := Snapshot(b, a);
  }

  lemma DeliveryLands(net: Net, p: Peer, m: Gossip, width: HalfWidth)
    requires Enabled(net, Deliver(p, m), width) && m.arm != "" && m.arm in net.peers[p].bandit.own
    requires net.peers[p].bandit.peerId == p && m.lamport > SeenMark(net.peers[p].bandit, m.sender, m.arm)
    ensures var net' := Apply(net, Deliver(p, m), width);
      && net'.clock == net.clock && net'.logs == net.logs && p in net'.peers
      && m.sender in TableOf(net'.peers[p].bandit, m.arm)
      && TableOf(net'.peers[p].bandit, m.arm)[m.sender].pulls == m.pulls
      && TableOf(net'.peers[p].bandit, m.arm)[m.sender].lastReceived == net.clock
  {}

  /**
   Once a peer has sent its statistics of an arm and another one that knows the arm has
   received them, the other counts every reward the sender has drawn for the arm.
   */
  lemma HeardRewardsCount(
      nets: seq<Net>, steps: seq<Step>, width: HalfWidth, i: nat, s: Peer, p: Peer, a: Arm) returns (m: Gossip)
    requires IsRun(nets, steps, width) && i < |nets| && Enabled(nets[i], Send(s, a), width)
    requires p in nets[i].peers && p != s && a != "" && a in nets[i].peers[p].bandit.own
    ensures var sent := Apply(nets[i], Send(s, a), width);
      && Enabled(sent, Deliver(p, m), width) && m.sender == s && m.arm == a
      && var heard := Apply(sent, Deliver(p, m), width);
         && p in heard.peers
         && forall drawn :: AreCounted(heard, p, a, drawn) ==> s in drawn && drawn[s] == Log(nets[i], s, a)
  {
    hide IsRun, Inv, Apply;
    ReachableKeepsInv(nets, steps, width, i);
    MarksArePast(nets, steps, width, i, p, s, a);
    m := SendingTells(nets[i], s, a, width);
    SendLeavesOthers(nets[i], s, a, p, width);
    var sent := Apply(nets[i], Send(s, a), width);
    assert PeerOk(nets[i], p) by {
      InvPeer(nets[i], p);
    }
    DeliveryLands(sent, p, m, width);
    var heard := Apply(sent, Deliver(p, m), width);
    forall drawn | AreCounted(heard, p, a, drawn) ensures s in drawn && drawn[s] == Log(nets[i], s, a) {
      assert drawn[s] <= Log(heard, s, a) == Log(nets[i], s, a);
    }
  }

  lemma SendLeavesOthers(net: Net, s: Peer, a: Arm, p: Peer, width: HalfWidth)
    requires Enabled(net, Send(s, a), width) && p in net.peers && p != s
    ensures var net' := Apply(net, Send(s, a), width);
      p in net'.peers && net'.peers[p] == net.peers[p] && net'.logs == net.logs && net'.clock == net.clock
  {}

  // --- monotony --------------------------------------------------------------------------

  /** The rewards of the pulled arm rise by what was drawn; no other evidence depends on it. */
  lemma PullAddsReward(algorithm: Algorithm, b: State, a: Arm, r: real, now: real)
    requires a in b.own
    ensures var b', won := Update(algorithm, b, a, r, now), if algorithm.Ucb1? then r else 0.0;
      && Aggregate(b', a, Pulls, now) == Aggregate(b, a, Pulls, now) + 1.0
      && BanditState.TotalPulls(b', now) == BanditState.TotalPulls(b, now) + 1.0
      && Aggregate(b', a, Reward, now) == Aggregate(b, a, Reward, now) + won
      && Aggregate(b', a, AlphaEvidence, now) == Aggregate(b, a, AlphaEvidence, now) + r - won
      && Aggregate(b', a, BetaEvidence, now)
         == Aggregate(b, a, BetaEvidence, now) + if algorithm.Ucb1? then 0.0 else 1.0 - r
  {
    var b' := Update(algorithm, b, a, r, now);
    MapSumPut(b.own, Pulls, a, b'.own[a]);
    MapSumTake(b.own, Pulls, a);
  }

  lemma GreaterRewardGreaterMean(algorithm: Algorithm, b: State, a: Arm, r: real, r': real, now: real)
    requires a in b.own && r <= r'
    requires Aggregate(Update(algorithm, b, a, r, now), a, Pulls, now) > 0.0
    requires 2.0 + Aggregate(Update(algorithm, b, a, r, now), a, AlphaEvidence, now)
           + Aggregate(Update(algorithm, b, a, r, now), a, BetaEvidence, now) > 0.0
    ensures var b', b'' := Update(algorithm, b, a, r, now), Update(algorithm, b, a, r', now);
      && Aggregate(b'', a, Pulls, now) == Aggregate(b', a, Pulls, now)
      && BanditState.TotalPulls(b'', now) == BanditState.TotalPulls(b', now)
      && Mean(algorithm, b', a, now) <= Mean(algorithm, b'', a, now)
  {
    hide Aggregate, BanditState.TotalPulls, Update;
    var b', b'' := Update(algorithm, b, a, r, now), Update(algorithm, b, a, r', now);
    PullAddsReward(algorithm, b, a, r, now);
    PullAddsReward(algorithm, b, a, r', now);
    match algorithm
    case Ucb1 =>
      QuotientRises(Aggregate(b', a, Reward, now), Aggregate(b'', a, Reward, now), Aggregate(b', a, Pulls, now));
    case Thompson =>
      QuotientRises(1.0 + Aggregate(b', a, AlphaEvidence, now), 1.0 + Aggregate(b'', a, AlphaEvidence, now),
                    2.0 + Aggregate(b', a, AlphaEvidence, now) + Aggregate(b', a, BetaEvidence, now));
  }

  /** Of two rewards the greater never gives the lower bound, at either end of the interval. */
  lemma GreaterRewardNeverLowers(net: Net, p: Peer, a: Arm, r: real, r': real, width: HalfWidth)
    requires Inv(net) && Enabled(net, Pull(p, a, r), width) && Enabled(net, Pull(p, a, r'), width) && r <= r'
    ensures var low, high := Apply(net, Pull(p, a, r), width), Apply(net, Pull(p, a, r'), width);
      && ViewOf(low, p, width).Lcb(a) <= ViewOf(high, p, width).Lcb(a)
      && ViewOf(low, p, width).Ucb(a) <= ViewOf(high, p, width).Ucb(a)
  {
    hide Inv, Aggregate, Mean, BanditState.TotalPulls, Update;
    var low, now := Apply(net, Pull(p, a, r), width), net.clock;
    var b := net.peers[p].bandit;
    PullKeeps(net, p, a, r, width);
    EvidenceIsConserved(low, p, a, now);
    EvidenceIsConserved(net, p, a, now);
    PullAddsReward(net.algorithm, b, a, r, now);
    GreaterRewardGreaterMean(net.algorithm, b, a, r, r', now);
  }

  // --- time to live ----------------------------------------------------------------------

  /** What is accepted at `heard` counts in place of the sender's last snapshot, for 300 seconds. */
  lemma HeardCountsFor300Seconds(b: State, m: Gossip, heard: real, now: real)
    requires m.sender != b.peerId && m.arm in b.own
    requires m.lamport > if (m.sender, m.arm) in b.seen then b.seen[(m.sender, m.arm)] else 0
    ensures var others := b.(table := b.table[m.arm := TableOf(b, m.arm) - {m.sender}]);
      Aggregate(ApplyGossip(b, m, heard), m.arm, Pulls, now)
      == Aggregate(others, m.arm, Pulls, now) + if now <= heard + 300.0 then m.pulls as real else 0.0
  {
    var o := Received(m, heard);
    MapSumPut(TableOf(b, m.arm), FreshPart(Pulls, now), m.sender, o);
    assert FreshPart(Pulls, now)(o) == if IsFresh(o, now) then Pulls(o) else 0.0;
    assert FreshPart(Pulls, now)(o) == if now <= heard + 300.0 then m.pulls as real else 0.0;
  }
}
