/**
 The community object around a bandit: what it sends, what it does with what it hears, and
 which arms it keeps active. Each method is proved to make the step of the network model.
 */
module LtrCommunity {
  import opened Wrappers
  import opened BanditState
  import opened Elimination
  import opened GossipNetwork
  import opened Bandit

  /** A metric of one query at the cut-offs 1, 5 and 10; the first is the reward. */
  datatype Scores = Scores(at1: real, at5: real, at10: real) {
    function Plus(more: Scores): Scores { Scores(at1 + more.at1, at5 + more.at5, at10 + more.at10) }
  }

  const NO_SCORES: Scores := Scores(0.0, 0.0, 0.0)

  class Community {
    const bandit: PeerBandit
    var active: set<Arm>
    var excluded: set<Arm>
    var queriesProcessed: nat
    var roundQueries: nat
    var cumulativeScores: Scores
    var roundScores: Scores

    ghost function Peer(): PeerState
      reads this, bandit
    {
      PeerState(bandit.Value(), active, excluded)
    }

    ghost function Situation(width: HalfWidth, now: real): View
      reads this, bandit
    {
      View(bandit.algorithm, bandit.Value(), active, width, now)
    }

    constructor (names: set<Arm>, algorithm: Algorithm, peerId: Peer)
      ensures fresh(bandit) && bandit.algorithm == algorithm
      ensures Peer() == PeerState(Fresh(names, peerId), names, {})
    {
      bandit := new PeerBandit(names, algorithm, peerId);
      active := names;
      excluded := {};
      queriesProcessed, roundQueries := 0, 0;
      cumulativeScores, roundScores := NO_SCORES, NO_SCORES;
    }

    /** An active arm by the rule of the algorithm; `candidates` are the active arms in order. */
    method SelectActiveArm(candidates: seq<Arm>, bonus: HalfWidth, sample: Sampler, now: real)
      returns (selected: Option<Arm>)
      requires forall i, alpha, beta :: 0.0 <= sample(i, alpha, beta) <= 1.0
      requires (set a | a in candidates) == active
      ensures selected.None? <==> active == {}
      ensures selected.Some? ==> selected.value in active
      ensures selected.Some? ==> exists i: nat ::
        && bandit.IsSelected(candidates, i, bonus, sample, now)
        && selected.value == candidates[i]
    {
      if active == {} {
        return None;
      }
      var first :| first in active;
      assert first in set a | a in candidates;
      var r := bandit.Select(candidates, bonus, sample, now);
      return Some(r.value);
    }

    /**
     Draws the reward of one query for a selected arm and adds its scores to the totals;
     `scores` are those of every model for this query.
     */
    method ProcessQuery(
        candidates: seq<Arm>, scores: map<Arm, Scores>, bonus: HalfWidth, sample: Sampler, now: real)
      returns (r: Option<(Arm, Scores)>)
      requires forall i, alpha, beta :: 0.0 <= sample(i, alpha, beta) <= 1.0
      requires (set a | a in candidates) == active <= bandit.own.Keys * scores.Keys
      modifies this`queriesProcessed, this`roundQueries, this`cumulativeScores, this`roundScores, bandit
      ensures r.None? <==> active == {}
      ensures r.None? ==> Peer() == old(Peer())
      ensures r.Some? ==> r.value.0 in active && r.value.1 == scores[r.value.0]
      ensures r.Some? ==> Peer() == old(Peer()).(bandit :=
        Update(bandit.algorithm, old(bandit.Value()), r.value.0, r.value.1.at1, now))
      ensures queriesProcessed == old(queriesProcessed) + (if r.Some? then 1 else 0)
      ensures roundQueries == old(roundQueries) + (if r.Some? then 1 else 0)
      ensures r.None? ==> cumulativeScores == old(cumulativeScores) && roundScores == old(roundScores)
      ensures r.Some? ==> var s, total, round := scores[r.value.0], old(cumulativeScores), old(roundScores);
        && cumulativeScores == Scores(s.at1 + total.at1, s.at5 + total.at5, s.at10 + total.at10)
        && roundScores == Scores(s.at1 + round.at1, s.at5 + round.at5, s.at10 + round.at10)
    {
      var selected := SelectActiveArm(candidates, bonus, sample, now);
      if selected.None? {
        return None;
      }
      var s := scores[selected.value];
      bandit.Update(selected.value, s.at1, now);
      queriesProcessed := queriesProcessed + 1;
      roundQueries := roundQueries + 1;
      cumulativeScores := cumulativeScores.Plus(s);
      roundScores := roundScores.Plus(s);
      return Some((selected.value, s));
    }

    method ResetRoundStats()
      modifies this`roundQueries, this`roundScores
      ensures roundQueries == 0 && roundScores == NO_SCORES
    {
      roundScores := NO_SCORES;
      roundQueries := 0;
    }

    /** One of the active arms, at random; none without active arms. */
    method PickGossipArm() returns (arm: Option<Arm>)
      ensures arm.None? <==> active == {}
      ensures arm.Some? ==> arm.value in active
    {
      if active == {} {
        return None;
      }
      var a :| a in active;
      return Some(a);
    }

    /** One of the connected peers, at random; none without connections. */
    static method PickRandomStranger(peers: seq<BanditState.Peer>) returns (target: Option<BanditState.Peer>)
      ensures target.None? <==> peers == []
      ensures target.Some? ==> target.value in peers
    {
      if peers == [] {
        return None;
      }
      var i :| 0 <= i < |peers|;
      return Some(peers[i]);
    }

    /**
     Gossips this peer's own statistics for one active arm under a new stamp to one connected
     peer. Without an arm or a peer, or for an arm it has no statistics of, nothing is sent and
     no stamp is used up.
     */
    method SendGossip(peers: seq<BanditState.Peer>) returns (r: Option<(BanditState.Peer, Gossip)>)
      modifies bandit
      ensures r.Some? ==> r.value.0 in peers && r.value.1.arm in active && r.value.1.arm in old(bandit.own)
      ensures r.Some? ==> r.value.1 == Snapshot(old(bandit.Value()), r.value.1.arm)
      ensures Peer() == if r.Some? then old(Peer()).(bandit := NextLamport(old(bandit.Value()))) else old(Peer())
      ensures active == {} || peers == [] ==> r.None?
      ensures active != {} && active <= old(bandit.own).Keys && peers != [] ==> r.Some?
    {
      var arm := PickGossipArm();
      if arm.None? {
        return None;
      }
      var target := PickRandomStranger(peers);
      if target.None? || arm.value !in bandit.own {
        return None;
      }
      var o := bandit.own[arm.value];
      var stamp := bandit.NextLamport();
      return Some((target.value,
                   Gossip(bandit.peerId, arm.value, o.pulls, o.totalReward, o.alpha, o.beta, stamp)));
    }

    /** Takes in a verified message about a known arm; an unknown one is left to discovery. */
    method OnGossip(m: Gossip, now: real) returns (discover: bool)
      modifies bandit
      ensures discover == (m.arm != "" && m.arm !in old(bandit.own))
      ensures Peer() == old(Peer()).(bandit :=
        if m.arm != "" && m.arm in old(bandit.own) then ApplyGossip(old(bandit.Value()), m, now)
        else old(bandit.Value()))
    {
      if m.arm == "" {
        return false;
      }
      if m.arm in bandit.own {
        var _ := bandit.ApplyGossip(m, now);
        return false;
      }
      return true;
    }

    /** Registers a scored arm, unless it is known already. */
    method AddModel(name: Arm, scored: bool)
      modifies this`active, bandit
      ensures Peer() == if name in old(bandit.own) || !scored then old(Peer())
        else old(Peer()).(bandit := AddArm(old(bandit.Value()), name), active := old(active) + {name})
    {
      if name in bandit.own || !scored {
        return;
      }
      bandit.AddArm(name);
      active := active + {name};
    }

    // --- elimination ---------------------------------------------------------------------

    /** Active arms with enough pulls, in the order they were looked at. */
    method FindEligible(width: HalfWidth, now: real) returns (eligible: seq<Arm>)
      ensures Distinct(eligible)
      ensures (set a | a in eligible) == Situation(width, now).Eligible()
    {
      hide Aggregate;
      eligible := [];
      var left := active;
      while left != {}
        invariant left <= active && Distinct(eligible)
        invariant forall a :: a in eligible <==>
          a in active - left && Aggregate(bandit.Value(), a, Pulls, now) >= MIN_PULLS_FOR_ELIMINATION
      {
        var a :| a in left;
        var n := bandit.AggregatePulls(a, now);
        if n as real >= MIN_PULLS_FOR_ELIMINATION {
          eligible := eligible + [a];
        }
        left := left - {a};
      }
    }

    /** An eligible arm with the greatest lower bound. */
    method FindBest(eligible: seq<Arm>, width: HalfWidth, now: real) returns (best: Arm, bestLcb: real)
      requires eligible != [] && (set a | a in eligible) == Situation(width, now).Eligible()
      ensures Situation(width, now).IsBest(best) && bestLcb == Situation(width, now).Lcb(best)
    {
      hide ConfidenceBounds, View.Eligible;
      best := eligible[0];
      var lcb0, _ := bandit.ConfidenceBounds(best, width, now);
      bestLcb := lcb0;
      for i := 1 to |eligible|
        invariant best in eligible && bestLcb == Situation(width, now).Lcb(best)
        invariant forall j :: 0 <= j < i ==> Situation(width, now).Lcb(eligible[j]) <= bestLcb
      {
        var lcb, _ := bandit.ConfidenceBounds(eligible[i], width, now);
        if lcb > bestLcb {
          best, bestLcb := eligible[i], lcb;
        }
      }
      forall a | a in Situation(width, now).Eligible() ensures Situation(width, now).Lcb(a) <= bestLcb {
        assert a in set e | e in eligible;
      }
      assert best in set e | e in eligible;
    }

    method ExcludeModel(name: Arm)
      modifies this`active, this`excluded
      ensures active == old(active) - {name}
      ensures excluded == if name in old(active) then old(excluded) + {name} else old(excluded)
    {
      if name !in active {
        return;
      }
      active := active - {name};
      excluded := excluded + {name};
    }

    /** Excludes the eligible arms whose upper bound is below that of the best arm. */
    method ExcludeBeaten(eligible: seq<Arm>, best: Arm, bestLcb: real, width: HalfWidth, now: real, ghost v: View)
      returns (retired: seq<Arm>)
      requires Distinct(eligible) && v == Situation(width, now) && (set a | a in eligible) <= active
      modifies this`active, this`excluded
      ensures Distinct(retired)
      ensures forall a :: a in retired <==> a in eligible && a != best && v.Ucb(a) < bestLcb
      ensures active == old(active) - set a | a in retired
      ensures excluded == old(excluded) + set a | a in retired
    {
      hide ConfidenceBounds;
      retired := [];
      for i := 0 to |eligible|
        invariant Distinct(retired)
        invariant forall a :: a in retired <==> a in eligible[..i] && a != best && v.Ucb(a) < bestLcb
        invariant active == old(active) - set a | a in retired
        invariant excluded == old(excluded) + set a | a in retired
      {
        var name := eligible[i];
        assert name !in eligible[..i] && name !in retired;
        if name != best {
          var _, ucb := bandit.ConfidenceBounds(name, width, now);
          if ucb < bestLcb {
            assert name in set a | a in eligible;
            ExcludeModel(name);
            assert (set a | a in retired + [name]) == (set a | a in retired) + {name};
            retired := retired + [name];
          }
        }
      }
    }

    /** Retires the arms whose interval lies below that of the best arm, and returns them. */
    method CheckExclusions(width: HalfWidth, now: real) returns (retired: seq<Arm>)
      modifies this`active, this`excluded
      ensures Distinct(retired) && RetiredBySomeBest(old(Situation(width, now)), set a | a in retired)
      ensures active == old(active) - set a | a in retired
      ensures excluded == old(excluded) + set a | a in retired
    {
      hide View.IsBest, View.Eligible, View.Retired, ConfidenceBounds, RetiredBySomeBest;
      retired := [];
      ghost var v := Situation(width, now);
      assert (set a | a in retired) == {};
      var eligible := FindEligible(width, now);
      DistinctCount(eligible);
      if |active| <= 1 || |eligible| <= 1 {
        NothingToRetire(v);
        return;
      }
      var best, bestLcb := FindBest(eligible, width, now);
      if bestLcb != 0.0 {
        assert v.Eligible() <= active by {
          EligibleAreActive(v);
        }
        retired := ExcludeBeaten(eligible, best, bestLcb, width, now, v);
      }
      RetiredAsSaid(v, best, eligible, retired);
    }
  }

  lemma EligibleAreActive(v: View)
    ensures v.Eligible() <= v.active
  {}

  lemma NothingToRetire(v: View)
    requires |v.active| <= 1 || |v.Eligible()| <= 1
    ensures RetiredBySomeBest(v, {})
  {
    hide View.Eligible;
    if v.Eligible() != {} {
      var best := SomeBest(v, v.Eligible());
      assert v.Retired(best) == {};
    } else {
      assert v.Retired("") == {};
    }
  }

  lemma RetiredAsSaid(v: View, best: Arm, eligible: seq<Arm>, retired: seq<Arm>)
    requires v.IsBest(best) && |v.active| > 1 && |v.Eligible()| > 1
    requires (set a | a in eligible) == v.Eligible()
    requires forall a :: a in retired <==> v.Lcb(best) != 0.0 && a in eligible && a != best && v.Ucb(a) < v.Lcb(best)
    ensures RetiredBySomeBest(v, set a | a in retired)
  {
    hide View.Eligible, View.Lcb, View.Ucb;
    var gone := set a | a in retired;
    forall a ensures a in v.Retired(best) <==> a in gone {
      assert a in eligible <==> a in set e | e in eligible;
    }
    assert v.Retired(best) == gone;
  }

  ghost predicate Distinct(s: seq<Arm>) { forall i, j :: 0 <= i < j < |s| ==> s[i] != s[j] }

  lemma {:induction false} DistinctCount(s: seq<Arm>)
    requires Distinct(s)
    ensures |set a | a in s| == |s|
  {
    if s != [] {
      var init := s[..|s| - 1];
      DistinctCount(init);
      assert (set a | a in s) == (set a | a in init) + {s[|s| - 1]};
    } else {
      assert (set a | a in s) == {};
    }
  }

  /** Among finitely many arms one has the greatest lower bound. */
  lemma {:induction false} SomeBest(v: View, s: set<Arm>) returns (best: Arm)
    requires s != {}
    ensures best in s && forall a :: a in s ==> v.Lcb(a) <= v.Lcb(best)
  {
    hide View.Lcb;
    best :| best in s;
    if a :| a in s && a != best {
      assert a in s - {best};
      var other := SomeBest(v, s - {best});
      best := if v.Lcb(other) > v.Lcb(best) then other else best;
    }
  }

  ghost predicate RetiredBySomeBest(v: View, retired: set<Arm>) {
    exists best {:trigger v.Retired(best)} :: (v.Eligible() != {} ==> v.IsBest(best)) && v.Retired(best) == retired
  }

  /** Whichever best arm a check starts from, it retires the same arms. */
  lemma SameWhicheverBest(v: View, retired: set<Arm>, retired': set<Arm>)
    requires v.SoundIntervals() && RetiredBySomeBest(v, retired) && RetiredBySomeBest(v, retired')
    ensures retired == retired' == v.Beaten()
  {
    hide View.Eligible, View.IsBest, View.Retired, View.Beaten, View.SoundIntervals;
    var best :| (v.Eligible() != {} ==> v.IsBest(best)) && v.Retired(best) == retired;
    var best' :| (v.Eligible() != {} ==> v.IsBest(best')) && v.Retired(best') == retired';
    RetiresExactlyBeaten(v, best);
    RetiresExactlyBeaten(v, best');
  }
}
