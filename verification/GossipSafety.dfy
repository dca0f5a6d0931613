/** What every run of the gossip network guarantees to every peer. */
module GossipSafety {
  import opened MapSums
  import opened Quotients
  import opened BanditState
  import opened Elimination
  import opened GossipNetwork
  import GossipOrder

  // --- runs ------------------------------------------------------------------------------

  ghost predicate StepTo(net: Net, step: Step, net': Net, width: HalfWidth) {
    Enabled(net, step, width) && net' == Apply(net, step, width)
  }

  /** `steps[i]` leads from `nets[i]` to `nets[i + 1]`, from an initial state on. */
  ghost predicate IsRun(nets: seq<Net>, steps: seq<Step>, width: HalfWidth) {
    && |nets| == |steps| + 1
    && Init(nets[0])
    && forall i :: 0 <= i < |steps| ==> StepTo(nets[i], steps[i], nets[i + 1], width)
  }

  lemma {:induction false} ReachableKeepsInv(nets: seq<Net>, steps: seq<Step>, width: HalfWidth, i: nat)
    requires IsRun(nets, steps, width) && i < |nets|
    ensures Inv(nets[i])
  {
    hide Init, Inv, Enabled, Apply;
    if i == 0 {
      InitHolds(nets[0]);
    } else {
      ReachableKeepsInv(nets, steps, width, i - 1);
      assert StepTo(nets[i - 1], steps[i - 1], nets[i], width);
      StepKeepsInv(nets[i - 1], steps[i - 1], width);
    }
  }

  // --- table entries ---------------------------------------------------------------------

  /** `o` is exactly what `s` had seen of arm `a` after some number of its own pulls. */
  ghost predicate IsSnapshotOf(net: Net, o: Observation, s: Peer, a: Arm) {
    && s in net.peers
    && 0 <= o.pulls <= |Log(net, s, a)|
    && Summarizes(net.algorithm, o, Log(net, s, a)[..o.pulls])
  }

  /** Whatever was lost, duplicated or reordered, a table holds true past snapshots. */
  lemma TableHoldsPastSnapshots(net: Net, p: Peer, a: Arm, s: Peer)
    requires Inv(net) && p in net.peers && s in TableOf(net.peers[p].bandit, a)
    ensures s != p && IsSnapshotOf(net, net.peers[p].bandit.table[a][s], s, a)
  {
    hide Summarizes;
    var b := net.peers[p].bandit;
    assert PeerOk(net, p);
    assert EntryIsMessage(net.sent, b, a, s);
    var o := b.table[a][s];
    var m := Carried(s, a, o);
    assert IsPastSnapshot(net, m);
    StampIsNoEvidence(net.algorithm, Received(m, 0.0), o, Log(net, s, a)[..o.pulls]);
  }

  // --- no over-counting ------------------------------------------------------------------

  function OwnPulls(a: Arm): PeerState -> real {
    (ps: PeerState) => if a in ps.bandit.own then ps.bandit.own[a].pulls as real else 0.0
  }

  lemma OwnPullsIsLog(net: Net, p: Peer, a: Arm)
    requires Inv(net) && p in net.peers
    ensures OwnPulls(a)(net.peers[p]) == |Log(net, p, a)| as real
  {
    hide Summarizes;
    assert PeerOk(net, p);
    var b := net.peers[p].bandit;
    assert ArmIsLog(net, b, a);
    if a in b.own {
      SummaryCounts(net.algorithm, b.own[a], Log(net, p, a));
    }
  }

  /** No peer ever sees more pulls of an arm than all peers together have made. */
  lemma NoOverCounting(net: Net, p: Peer, a: Arm, now: real)
    requires Inv(net) && p in net.peers
    ensures Aggregate(net.peers[p].bandit, a, Pulls, now) <= MapSum(net.peers, OwnPulls(a))
  {
    hide Inv, Summarizes;
    var b, t := net.peers[p].bandit, TableOf(net.peers[p].bandit, a);
    var g := OwnPulls(a);
    var others := net.peers - {p};
    forall s | s in t ensures s in others && FreshPart(Pulls, now)(t[s]) <= g(others[s]) {
      TableHoldsPastSnapshots(net, p, a, s);
      OwnPullsIsLog(net, s, a);
      assert t[s].pulls <= |Log(net, s, a)| && others[s] == net.peers[s];
      var o := t[s];
      assert Pulls(o) <= g(others[s]);
      assert FreshPart(Pulls, now)(o) == if IsFresh(o, now) then Pulls(o) else 0.0;
    }
    forall s | s in net.peers ensures 0.0 <= g(net.peers[s]) {
      OwnPullsIsLog(net, s, a);
    }
    MapSumTake(net.peers, g, p);
    MapSumAtMost(t, FreshPart(Pulls, now), others, g);
    MapSumNonNegative(net.peers, g);
  }

  // --- entries move forward --------------------------------------------------------------

  ghost predicate Extends(net: Net, net': Net) {
    && net.sent <= net'.sent
    && net'.peers.Keys == net.peers.Keys
    && forall p, s, a {:trigger MarkRises(net, net', p, s, a)} :: MarkRises(net, net', p, s, a)
  }

  ghost predicate MarkRises(net: Net, net': Net, p: Peer, s: Peer, a: Arm) {
    p in net.peers && p in net'.peers ==> SeenMark(net.peers[p].bandit, s, a) <= SeenMark(net'.peers[p].bandit, s, a)
  }

  lemma StepExtends(net: Net, step: Step, width: HalfWidth)
    requires Enabled(net, step, width)
    ensures Extends(net, Apply(net, step, width))
  {
    hide View.Retired, View.Eligible, View.IsBest, Reinforced;
  }

  lemma {:induction false} RunExtends(nets: seq<Net>, steps: seq<Step>, width: HalfWidth, i: nat, j: nat)
    requires IsRun(nets, steps, width) && i <= j < |nets|
    ensures Extends(nets[i], nets[j])
    decreases j
  {
    hide Init, Enabled, Apply;
    if i < j {
      RunExtends(nets, steps, width, i, j - 1);
      assert StepTo(nets[j - 1], steps[j - 1], nets[j], width);
      StepExtends(nets[j - 1], steps[j - 1], width);
      forall p, s, a ensures MarkRises(nets[i], nets[j], p, s, a) {
        assert MarkRises(nets[i], nets[j - 1], p, s, a) && MarkRises(nets[j - 1], nets[j], p, s, a);
      }
    }
  }

  /**
   At any two moments of a run at which a table holds an entry for (sender, arm), the later
   entry is the same or a later snapshot, even if the entry was evicted in between.
   */
  lemma EntriesNeverGoBack(nets: seq<Net>, steps: seq<Step>, width: HalfWidth, i: nat, j: nat, p: Peer, a: Arm, s: Peer)
    requires IsRun(nets, steps, width) && i <= j < |nets| && p in nets[i].peers && p in nets[j].peers
    requires s in TableOf(nets[i].peers[p].bandit, a) && s in TableOf(nets[j].peers[p].bandit, a)
    ensures nets[i].peers[p].bandit.table[a][s].pulls <= nets[j].peers[p].bandit.table[a][s].pulls
    ensures nets[i].peers[p].bandit.table[a][s].lamport <= nets[j].peers[p].bandit.table[a][s].lamport
  {
    hide IsRun, IsPastSnapshot;
    RunExtends(nets, steps, width, i, j);
    ReachableKeepsInv(nets, steps, width, i);
    ReachableKeepsInv(nets, steps, width, j);
    assert MarkRises(nets[i], nets[j], p, s, a);
    var b, b' := nets[i].peers[p].bandit, nets[j].peers[p].bandit;
    assert PeerOk(nets[i], p) && PeerOk(nets[j], p);
    assert EntryIsMessage(nets[i].sent, b, a, s) && EntryIsMessage(nets[j].sent, b', a, s);
    assert Orders(Carried(s, a, b.table[a][s]), Carried(s, a, b'.table[a][s]));
  }

  // --- order of delivery -----------------------------------------------------------------

  /** What a sender has stamped for an arm determines the message. */
  lemma StampsIdentifyMessages(net: Net, m: Gossip, m': Gossip)
    requires Inv(net) && m in net.sent && m' in net.sent
    requires m.sender == m'.sender && m.arm == m'.arm && m.lamport == m'.lamport
    ensures m == m'
  {
    hide Inv;
    MessageFacts(net, m, m');
    assert m.pulls == m'.pulls;
  }

  lemma MessageFacts(net: Net, m: Gossip, m': Gossip)
    requires Inv(net) && m in net.sent && m' in net.sent
    ensures IsPastSnapshot(net, m) && IsPastSnapshot(net, m') && Orders(m, m') && Orders(m', m)
  {}

  /** Messages of the network with the times of their delivery to `p`. */
  ghost predicate AreSent(net: Net, p: Peer, ms: seq<GossipOrder.Delivery>) {
    forall i :: 0 <= i < |ms| ==> ms[i].0 in net.sent && ms[i].0.sender != p
  }

  /**
   In every reachable state, the same sent messages delivered to a peer in any two orders and
   with any duplicates leave it with the same aggregates, while none of them has expired.
   */
  lemma DeliveryOrderDoesNotMatter(
      net: Net, p: Peer, ms: seq<GossipOrder.Delivery>, ns: seq<GossipOrder.Delivery>, arm: Arm, now: real)
    requires Inv(net) && p in net.peers && AreSent(net, p, ms) && GossipOrder.SameMessages(ms, ns)
    requires GossipOrder.NoneExpired(ms, now) && GossipOrder.NoneExpired(ns, now)
    ensures var b, b' := GossipOrder.Deliver(net.peers[p].bandit, ms), GossipOrder.Deliver(net.peers[p].bandit, ns);
      && Aggregate(b, arm, Pulls, now) == Aggregate(b', arm, Pulls, now)
      && Aggregate(b, arm, Reward, now) == Aggregate(b', arm, Reward, now)
      && Aggregate(b, arm, AlphaEvidence, now) == Aggregate(b', arm, AlphaEvidence, now)
      && Aggregate(b, arm, BetaEvidence, now) == Aggregate(b', arm, BetaEvidence, now)
  {
    hide Inv, Aggregate, GossipOrder.Deliver, GossipOrder.SameMessages, GossipOrder.NoneExpired;
    forall i, j | 0 <= i < |ms| && 0 <= j < |ms| && GossipOrder.IsFor(ms[i].0, ms[j].0.sender, ms[j].0.arm)
                  && ms[i].0.lamport == ms[j].0.lamport
      ensures ms[i].0 == ms[j].0
    {
      StampsIdentifyMessages(net, ms[i].0, ms[j].0);
    }
    GossipOrder.EvidenceIgnoresOrder(net.peers[p].bandit, ms, ns, arm, now);
  }

  // --- evidence mass ---------------------------------------------------------------------

  /** Rewards between none and all of the pulls; for Thompson, every pull splits into alpha and beta. */
  ghost predicate MassOk(algorithm: Algorithm, pulls: real, reward: real, alpha: real, beta: real) {
    && 0.0 <= pulls
    && match algorithm
       case Ucb1 => 0.0 <= reward <= pulls && alpha == 0.0 && beta == 0.0
       case Thompson => reward == 0.0 && 0.0 <= alpha && 0.0 <= beta && alpha + beta == pulls
  }

  lemma {:induction false} PrefixInUnit(rs: seq<real>, n: nat)
    requires InUnit(rs) && n <= |rs|
    ensures InUnit(rs[..n])
  {}

  lemma SummaryMass(algorithm: Algorithm, o: Observation, rs: seq<real>)
    requires Summarizes(algorithm, o, rs) && InUnit(rs)
    ensures MassOk(algorithm, Pulls(o), Reward(o), AlphaEvidence(o), BetaEvidence(o))
  {
    SumInRange(rs);
  }

  lemma EntryMass(net: Net, p: Peer, a: Arm, s: Peer)
    requires Inv(net) && p in net.peers && s in TableOf(net.peers[p].bandit, a)
    ensures var o := net.peers[p].bandit.table[a][s];
      MassOk(net.algorithm, Pulls(o), Reward(o), AlphaEvidence(o), BetaEvidence(o))
  {
    hide Summarizes, PeersOk, MessagesArePast, StampsOrder, MassOk, InUnit;
    TableHoldsPastSnapshots(net, p, a, s);
    var o := net.peers[p].bandit.table[a][s];
    var log := Log(net, s, a);
    PrefixInUnit(log, o.pulls);
    SummaryMass(net.algorithm, o, log[..o.pulls]);
  }

  lemma OwnMass(net: Net, p: Peer, a: Arm)
    requires Inv(net) && p in net.peers && a in net.peers[p].bandit.own
    ensures var o := net.peers[p].bandit.own[a];
      MassOk(net.algorithm, Pulls(o), Reward(o), AlphaEvidence(o), BetaEvidence(o))
  {
    hide Summarizes, MessagesArePast, StampsOrder, MassOk, InUnit;
    assert PeerOk(net, p);
    var b := net.peers[p].bandit;
    assert ArmIsLog(net, b, a);
    SummaryMass(net.algorithm, b.own[a], Log(net, p, a));
  }

  /** Sums of well-massed observations are well-massed. */
  lemma {:induction false} SumMass(algorithm: Algorithm, t: map<Peer, Observation>, now: real)
    requires forall s :: s in t ==>
      MassOk(algorithm, Pulls(t[s]), Reward(t[s]), AlphaEvidence(t[s]), BetaEvidence(t[s]))
    ensures MassOk(algorithm, MapSum(t, FreshPart(Pulls, now)), MapSum(t, FreshPart(Reward, now)),
                   MapSum(t, FreshPart(AlphaEvidence, now)), MapSum(t, FreshPart(BetaEvidence, now)))
  {
    if t != map[] {
      var s :| s in t;
      SumMass(algorithm, t - {s}, now);
      MapSumTake(t, FreshPart(Pulls, now), s);
      MapSumTake(t, FreshPart(Reward, now), s);
      MapSumTake(t, FreshPart(AlphaEvidence, now), s);
      MapSumTake(t, FreshPart(BetaEvidence, now), s);
    }
  }

  /**
   The evidence a peer aggregates for an arm is in range: for UCB1 the rewards lie between 0
   and the pulls; for Thompson alpha and beta add up to the pulls beyond one prior.
   */
  lemma EvidenceIsConserved(net: Net, p: Peer, a: Arm, now: real)
    requires Inv(net) && p in net.peers
    ensures var b := net.peers[p].bandit;
      MassOk(net.algorithm, Aggregate(b, a, Pulls, now), Aggregate(b, a, Reward, now),
             Aggregate(b, a, AlphaEvidence, now), Aggregate(b, a, BetaEvidence, now))
  {
    hide Inv;
    var b := net.peers[p].bandit;
    if a in b.own {
      var t := TableOf(b, a);
      forall s | s in t
        ensures MassOk(net.algorithm, Pulls(t[s]), Reward(t[s]), AlphaEvidence(t[s]), BetaEvidence(t[s]))
      {
        EntryMass(net, p, a, s);
      }
      SumMass(net.algorithm, t, now);
      OwnMass(net, p, a);
    }
  }

  lemma MeanInUnit(net: Net, p: Peer, a: Arm, now: real)
    requires Inv(net) && p in net.peers && Aggregate(net.peers[p].bandit, a, Pulls, now) != 0.0
    ensures 0.0 <= Mean(net.algorithm, net.peers[p].bandit, a, now) <= 1.0
  {
    hide Inv, Aggregate;
    EvidenceIsConserved(net, p, a, now);
    var b := net.peers[p].bandit;
    match net.algorithm
    case Ucb1 => QuotientInUnit(Aggregate(b, a, Reward, now), Aggregate(b, a, Pulls, now));
    case Thompson =>
      var alpha, beta := 1.0 + Aggregate(b, a, AlphaEvidence, now), 1.0 + Aggregate(b, a, BetaEvidence, now);
      QuotientInUnit(alpha, alpha + beta);
  }

  ghost predicate NonNegative(width: HalfWidth) { forall N, n :: 0.0 <= width(N, n) }

  /** Intervals in a reachable state are intervals within [0, 1] around a mean in [0, 1]. */
  lemma BoundsAreBounds(net: Net, p: Peer, a: Arm, width: HalfWidth)
    requires Inv(net) && p in net.peers && NonNegative(width)
    ensures 0.0 <= ViewOf(net, p, width).Lcb(a) <= ViewOf(net, p, width).Ucb(a) <= 1.0
  {
    hide Inv, Aggregate, Mean, TotalPulls;
    var b := net.peers[p].bandit;
    if Aggregate(b, a, Pulls, net.clock) != 0.0 {
      MeanInUnit(net, p, a, net.clock);
      assert 0.0 <= width(TotalPulls(b, net.clock), Aggregate(b, a, Pulls, net.clock));
    }
  }

  // --- elimination -----------------------------------------------------------------------

  /**
   In every reachable state a check retires exactly the eligible arms whose interval lies
   below that of another eligible arm, in whatever order it goes through them.
   */
  lemma ChecksRetireExactlyBeaten(
      nets: seq<Net>, steps: seq<Step>, width: HalfWidth, i: nat, p: Peer, best: Arm)
    requires IsRun(nets, steps, width) && NonNegative(width)
    requires i < |steps| && steps[i] == Check(p, best)
    ensures p in nets[i].peers && p in nets[i + 1].peers
    ensures nets[i + 1].peers[p].excluded == nets[i].peers[p].excluded + ViewOf(nets[i], p, width).Beaten()
    ensures nets[i + 1].peers[p].active == nets[i].peers[p].active - ViewOf(nets[i], p, width).Beaten()
  {
    hide Init, Inv, View.Eligible, View.IsBest, View.Retired, View.Beaten, View.Lcb, View.Ucb;
    ReachableKeepsInv(nets, steps, width, i);
    assert StepTo(nets[i], steps[i], nets[i + 1], width);
    var v := ViewOf(nets[i], p, width);
    assert v.SoundIntervals() by {
      forall a | a in v.active ensures 0.0 <= v.Lcb(a) <= v.Ucb(a) {
        BoundsAreBounds(nets[i], p, a, width);
      }
    }
    RetiresExactlyBeaten(v, best);
  }

  /**
   In the terms of the arms alone: a check excludes an active arm exactly when at least 10
   pulls of it are counted and its interval lies below that of another active arm with at
   least 10 pulls.
   */
  lemma ExcludedExactlyWhen(
      nets: seq<Net>, steps: seq<Step>, width: HalfWidth, i: nat, p: Peer, best: Arm, a: Arm)
    requires IsRun(nets, steps, width) && NonNegative(width)
    requires i < |steps| && steps[i] == Check(p, best)
    ensures p in nets[i].peers && p in nets[i + 1].peers
    ensures var net, b := nets[i], nets[i].peers[p].bandit;
      a in nets[i + 1].peers[p].excluded <==>
        || a in net.peers[p].excluded
        || (a in net.peers[p].active && Aggregate(b, a, Pulls, net.clock) >= 10.0
            && exists c ::
                 && c in net.peers[p].active && Aggregate(b, c, Pulls, net.clock) >= 10.0
                 && ConfidenceBounds(net.algorithm, b, a, width, net.clock).1
                    < ConfidenceBounds(net.algorithm, b, c, width, net.clock).0)
  {
    hide Init, Aggregate, ConfidenceBounds, Enabled, Apply;
    ChecksRetireExactlyBeaten(nets, steps, width, i, p, best);
    BeatenExactlyWhen(ViewOf(nets[i], p, width), a);
  }

  lemma BeatenExactlyWhen(v: View, a: Arm)
    ensures a in v.Beaten() <==>
      && a in v.active && Aggregate(v.bandit, a, Pulls, v.now) >= 10.0
      && (exists c ::
            && c in v.active && Aggregate(v.bandit, c, Pulls, v.now) >= 10.0
            && ConfidenceBounds(v.algorithm, v.bandit, a, v.width, v.now).1
               < ConfidenceBounds(v.algorithm, v.bandit, c, v.width, v.now).0)
  {
    hide Aggregate, ConfidenceBounds;
    if c :| c in v.active && Aggregate(v.bandit, c, Pulls, v.now) >= 10.0 && v.Ucb(a) < v.Lcb(c) {
      assert c in v.Eligible();
    }
  }

  /** Known arms are active or excluded but not both, and an active one always remains. */
  lemma ActiveNeverRunsOut(nets: seq<Net>, steps: seq<Step>, width: HalfWidth, i: nat, p: Peer)
    requires IsRun(nets, steps, width) && i < |nets| && p in nets[i].peers
    ensures Partitioned(nets[i].peers[p])
  {
    hide IsRun;
    ReachableKeepsInv(nets, steps, width, i);
    assert PeerOk(nets[i], p);
  }

  /** Every check of `p` up to moment `i` finds the true means inside their intervals. */
  ghost predicate CoveredUpTo(
      nets: seq<Net>, steps: seq<Step>, width: HalfWidth, p: Peer, mu: Arm -> real, i: nat)
    requires IsRun(nets, steps, width) && i <= |steps|
  {
    forall j :: 0 <= j < i && steps[j].Check? && steps[j].p == p ==> CoveredAt(nets[j], p, width, mu)
  }

  ghost predicate CoveredAt(net: Net, p: Peer, width: HalfWidth, mu: Arm -> real) {
    p in net.peers && ViewOf(net, p, width).Covered(mu)
  }

  lemma OnlyChecksExclude(net: Net, step: Step, width: HalfWidth, p: Peer)
    requires Enabled(net, step, width) && p in net.peers && !(step.Check? && step.p == p)
    ensures p in Apply(net, step, width).peers
    ensures Apply(net, step, width).peers[p].excluded == net.peers[p].excluded
  {
    hide View.Retired, View.Eligible, View.IsBest, Update, ApplyGossip, EvictAllStale, AddArm, NextLamport;
  }

  /**
   If at every check the true means lie in their intervals, an arm with the greatest true
   mean is never retired, in any run.
   */
  lemma {:induction false} GreatestMeanSurvives(
      nets: seq<Net>, steps: seq<Step>, width: HalfWidth, p: Peer, mu: Arm -> real, star: Arm, i: nat)
    requires IsRun(nets, steps, width) && i <= |steps|
    requires CoveredUpTo(nets, steps, width, p, mu, i)
    requires forall a :: mu(a) <= mu(star)
    requires p in nets[0].peers
    ensures p in nets[i].peers && star !in nets[i].peers[p].excluded
  {
    hide View.Retired, View.Eligible, View.IsBest, View.Covered;
    if i > 0 {
      GreatestMeanSurvives(nets, steps, width, p, mu, star, i - 1);
      var net, step := nets[i - 1], steps[i - 1];
      assert StepTo(net, step, nets[i], width);
      if step.Check? && step.p == p {
        assert CoveredAt(net, p, width, mu);
        GreatestMeanStays(ViewOf(net, p, width), step.best, mu, star);
      } else {
        hide Apply;
        OnlyChecksExclude(net, step, width, p);
      }
    }
  }
}
