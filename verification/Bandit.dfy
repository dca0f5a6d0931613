/**
 The bandit a peer runs. Its methods change the fields in place; each is proved against the
 function on states that the network model uses for the same operation.
 */
module Bandit {
  import opened MapSums
  import opened Quotients
  import opened BanditState
  import opened Wrappers

  /** How many entries of a table have expired. */
  ghost function StaleCount(now: real): map<Peer, Observation> -> real {
    (t: map<Peer, Observation>) => |set s | s in t && !IsFresh(t[s], now)| as real
  }

  lemma DroppingStale(t: map<Peer, Observation>, stale: set<Peer>, now: real)
    requires stale == set s | s in t && t[s].lastReceived < now - PEER_OBSERVATION_TTL_S
    ensures t - stale == FreshOnly(t, now)
    ensures StaleCount(now)(t) == |stale| as real
  {
    assert stale == set s | s in t && !IsFresh(t[s], now);
  }

  method EvictStale(table: map<Peer, Observation>, now: real)
    returns (kept: map<Peer, Observation>, dropped: nat)
    ensures kept == FreshOnly(table, now)
    ensures forall s :: s in kept <==> s in table && now <= table[s].lastReceived + 300.0
    ensures dropped == |table.Keys - kept.Keys|
    ensures dropped as real == StaleCount(now)(table)
  {
    var stale := set s | s in table && table[s].lastReceived < now - PEER_OBSERVATION_TTL_S;
    DroppingStale(table, stale, now);
    assert table.Keys - (table - stale).Keys == stale;
    kept, dropped := table - stale, |stale|;
  }

  /** Every table evicted except those in `left`. */
  ghost function EvictedBut(
      table: map<Arm, map<Peer, Observation>>, left: set<Arm>, now: real): map<Arm, map<Peer, Observation>> {
    map a | a in table :: if a in left then table[a] else FreshOnly(table[a], now)
  }

  lemma EvictedStep(table: map<Arm, map<Peer, Observation>>, left: set<Arm>, arm: Arm, now: real)
    requires arm in left && arm in table
    ensures EvictedBut(table, left, now)[arm := FreshOnly(table[arm], now)] == EvictedBut(table, left - {arm}, now)
  {
    hide FreshOnly;
  }

  lemma EvictedEnds(table: map<Arm, map<Peer, Observation>>, now: real)
    ensures EvictedBut(table, table.Keys, now) == table
    ensures EvictedBut(table, {}, now) == map a | a in table :: FreshOnly(table[a], now)
  {
    hide FreshOnly;
  }

  lemma TakeFresh(t: map<Peer, Observation>, f: Observation -> real, now: real, s: Peer)
    requires s in t
    ensures MapSum(t, FreshPart(f, now))
         == (if t[s].lastReceived >= now - PEER_OBSERVATION_TTL_S then f(t[s]) else 0.0)
          + MapSum(t - {s}, FreshPart(f, now))
  {
    MapSumTake(t, FreshPart(f, now), s);
  }

  lemma ArmAggregate(b: State, arm: Arm, f: Observation -> real, now: real)
    ensures Aggregate(b, arm, f, now) == if arm !in b.own then 0.0
      else f(b.own[arm]) + MapSum(if arm in b.table then b.table[arm] else map[], FreshPart(f, now))
  {}

  /** The fresh pulls of one table. */
  method FreshPulls(table: map<Peer, Observation>, now: real) returns (n: int)
    ensures n as real == MapSum(table, FreshPart(Pulls, now))
  {
    hide FreshPart;
    n := 0;
    var left := table;
    while left != map[]
      invariant n as real + MapSum(left, FreshPart(Pulls, now)) == MapSum(table, FreshPart(Pulls, now))
      decreases |left|
    {
      var s :| s in left;
      TakeFresh(left, Pulls, now, s);
      if left[s].lastReceived >= now - PEER_OBSERVATION_TTL_S {
        n := n + left[s].pulls;
      }
      left := left - {s};
    }
  }

  class PeerBandit {
    const algorithm: Algorithm
    const peerId: Peer
    var own: map<Arm, Observation>
    var peerObservations: map<Arm, map<Peer, Observation>>
    var lamportSeen: map<(Peer, Arm), int>
    var lamportSelf: int

    ghost function Value(): State
      reads this
    {
      State(peerId, own, peerObservations, lamportSeen, lamportSelf)
    }

    constructor (names: set<Arm>, algorithm: Algorithm, peerId: Peer)
      ensures this.algorithm == algorithm
      ensures Value() == Fresh(names, peerId)
    {
      this.algorithm := algorithm;
      this.peerId := peerId;
      own := map n | n in names :: FLAT;
      peerObservations := map n | n in names :: map[];
      lamportSeen := map[];
      lamportSelf := 0;
    }

    // --- changes -------------------------------------------------------------------------

    method NextLamport() returns (stamp: int)
      modifies this`lamportSelf
      ensures Value() == BanditState.NextLamport(old(Value()))
      ensures stamp == lamportSelf > old(lamportSelf)
    {
      lamportSelf := lamportSelf + 1;
      stamp := lamportSelf;
    }

    method Update(arm: Arm, reward: real, now: real)
      requires arm in own
      modifies this`own, this`lamportSelf
      ensures Value() == BanditState.Update(algorithm, old(Value()), arm, reward, now)
      ensures own[arm].lamport == lamportSelf == old(lamportSelf) + 1 && own[arm].lastReceived == now
      ensures own[arm].pulls == old(own)[arm].pulls + 1
      ensures own.Keys == old(own).Keys && forall a :: a in own && a != arm ==> own[a] == old(own)[a]
    {
      var o := own[arm];
      match algorithm {
        case Ucb1 =>
          o := o.(pulls := o.pulls + 1);
          o := o.(totalReward := o.totalReward + reward);
        case Thompson =>
          o := o.(alpha := o.alpha + reward);
          o := o.(beta := o.beta + (1.0 - reward));
          o := o.(pulls := o.pulls + 1);
      }
      var stamp := NextLamport();
      own := own[arm := o.(lamport := stamp, lastReceived := now)];
    }

    method AddArm(name: Arm)
      modifies this`own, this`peerObservations
      ensures Value() == BanditState.AddArm(old(Value()), name)
      ensures name in own && forall a :: a in old(own) ==> a in own && own[a] == old(own)[a]
      ensures name !in old(own) ==> own[name] == Observation(0, 0.0, 1.0, 1.0, 0, 0.0)
      ensures forall a :: a in old(peerObservations) ==>
        a in peerObservations && peerObservations[a] == old(peerObservations)[a]
    {
      if name in own {
        return;
      }
      own := own[name := FLAT];
      if name !in peerObservations {
        peerObservations := peerObservations[name := map[]];
      }
    }

    /** Takes in one gossiped observation unless it is this peer's own or not newer. */
    method ApplyGossip(m: Gossip, now: real) returns (accepted: bool)
      modifies this`lamportSeen, this`peerObservations
      ensures accepted == Accepts(old(Value()), m)
      ensures Value() == BanditState.ApplyGossip(old(Value()), m, now)
    {
      if m.sender == peerId {
        return false;
      }
      var key := (m.sender, m.arm);
      if m.lamport <= if key in lamportSeen then lamportSeen[key] else 0 {
        return false;
      }
      lamportSeen := lamportSeen[key := m.lamport];
      var table := if m.arm in peerObservations then peerObservations[m.arm] else map[];
      peerObservations := peerObservations[m.arm := table[m.sender := Received(m, now)]];
      return true;
    }

    /** Drops every expired entry and says how many there were. */
    method EvictAllStale(now: real) returns (evicted: nat)
      modifies this`peerObservations
      ensures Value() == BanditState.EvictAllStale(old(Value()), now)
      ensures evicted as real == MapSum(old(peerObservations), StaleCount(now))
    {
      hide FreshOnly, StaleCount, EvictedBut;
      evicted := 0;
      var left := peerObservations;
      EvictedEnds(peerObservations, now);
      while left != map[]
        invariant left.Keys <= old(peerObservations).Keys
        invariant forall a :: a in left ==> left[a] == old(peerObservations)[a]
        invariant peerObservations == EvictedBut(old(peerObservations), left.Keys, now)
        invariant evicted as real + MapSum(left, StaleCount(now)) == MapSum(old(peerObservations), StaleCount(now))
        decreases |left|
      {
        var arm :| arm in left;
        MapSumTake(left, StaleCount(now), arm);
        var kept, dropped := EvictStale(left[arm], now);
        EvictedStep(old(peerObservations), left.Keys, arm, now);
        peerObservations := peerObservations[arm := kept];
        evicted := evicted + dropped;
        left := left - {arm};
      }
    }

    // --- aggregates ----------------------------------------------------------------------

    /** Pulls of an arm, own and fresh. */
    method AggregatePulls(arm: Arm, now: real) returns (n: int)
      ensures n as real == Aggregate(Value(), arm, Pulls, now)
    {
      hide FreshPart, IsFresh;
      if arm !in own {
        return 0;
      }
      n := own[arm].pulls;
      var heard := FreshPulls(if arm in peerObservations then peerObservations[arm] else map[], now);
      n := n + heard;
    }

    /** Rewards and pulls of an arm, own and fresh. */
    method AggregateUcb(arm: Arm, now: real) returns (R: real, n: int)
      ensures R == Aggregate(Value(), arm, Reward, now)
      ensures n as real == Aggregate(Value(), arm, Pulls, now)
    {
      hide FreshPart, IsFresh, Aggregate, TableOf;
      if arm !in own {
        ArmAggregate(Value(), arm, Reward, now);
        ArmAggregate(Value(), arm, Pulls, now);
        return 0.0, 0;
      }
      R, n := own[arm].totalReward, own[arm].pulls;
      var left := if arm in peerObservations then peerObservations[arm] else map[];
      ArmAggregate(Value(), arm, Reward, now);
      ArmAggregate(Value(), arm, Pulls, now);
      while left != map[]
        invariant R + MapSum(left, FreshPart(Reward, now)) == Aggregate(Value(), arm, Reward, now)
        invariant n as real + MapSum(left, FreshPart(Pulls, now)) == Aggregate(Value(), arm, Pulls, now)
        decreases |left|
      {
        var s :| s in left;
        TakeFresh(left, Reward, now, s);
        TakeFresh(left, Pulls, now, s);
        if left[s].lastReceived >= now - PEER_OBSERVATION_TTL_S {
          R, n := R + left[s].totalReward, n + left[s].pulls;
        }
        left := left - {s};
      }
    }

    /** The Beta posterior of an arm, its flat prior counted once, and its pulls. */
    method AggregateThompson(arm: Arm, now: real) returns (alpha: real, beta: real, n: int)
      ensures alpha == 1.0 + Aggregate(Value(), arm, AlphaEvidence, now)
      ensures beta == 1.0 + Aggregate(Value(), arm, BetaEvidence, now)
      ensures n as real == Aggregate(Value(), arm, Pulls, now)
    {
      hide FreshPart, IsFresh, Aggregate, TableOf;
      ArmAggregate(Value(), arm, AlphaEvidence, now);
      ArmAggregate(Value(), arm, BetaEvidence, now);
      ArmAggregate(Value(), arm, Pulls, now);
      if arm !in own {
        return 1.0, 1.0, 0;
      }
      alpha, beta, n := 1.0 + (own[arm].alpha - 1.0), 1.0 + (own[arm].beta - 1.0), own[arm].pulls;
      var left := if arm in peerObservations then peerObservations[arm] else map[];
      while left != map[]
        invariant alpha + MapSum(left, FreshPart(AlphaEvidence, now))
               == 1.0 + Aggregate(Value(), arm, AlphaEvidence, now)
        invariant beta + MapSum(left, FreshPart(BetaEvidence, now)) == 1.0 + Aggregate(Value(), arm, BetaEvidence, now)
        invariant n as real + MapSum(left, FreshPart(Pulls, now)) == Aggregate(Value(), arm, Pulls, now)
        decreases |left|
      {
        var s :| s in left;
        TakeFresh(left, AlphaEvidence, now, s);
        TakeFresh(left, BetaEvidence, now, s);
        TakeFresh(left, Pulls, now, s);
        if left[s].lastReceived >= now - PEER_OBSERVATION_TTL_S {
          alpha, beta, n := alpha + (left[s].alpha - 1.0), beta + (left[s].beta - 1.0), n + left[s].pulls;
        }
        left := left - {s};
      }
    }

    /** Pulls of all arms, own and fresh. */
    method TotalPulls(now: real) returns (total: int)
      ensures total as real == BanditState.TotalPulls(Value(), now)
    {
      hide FreshPart;
      total := 0;
      var mine := own;
      while mine != map[]
        invariant total as real + MapSum(mine, Pulls) == MapSum(own, Pulls)
        decreases |mine|
      {
        var a :| a in mine;
        MapSumTake(mine, Pulls, a);
        total := total + mine[a].pulls;
        mine := mine - {a};
      }
      ghost var all := BanditState.TotalPulls(Value(), now);
      var tables := peerObservations;
      while tables != map[]
        invariant total as real + MapSum(tables, TableTotal(Pulls, now)) == all
        decreases |tables|
      {
        var a :| a in tables;
        MapSumTake(tables, TableTotal(Pulls, now), a);
        var heard := FreshPulls(tables[a], now);
        total := total + heard;
        tables := tables - {a};
      }
    }

    /** (lcb, ucb) of an arm. */
    method ConfidenceBounds(arm: Arm, width: HalfWidth, now: real) returns (lcb: real, ucb: real)
      ensures (lcb, ucb) == BanditState.ConfidenceBounds(algorithm, Value(), arm, width, now)
    {
      hide Aggregate, BanditState.TotalPulls;
      var n: int;
      var mean: real;
      match algorithm {
        case Ucb1 =>
          var R;
          R, n := AggregateUcb(arm, now);
          if n == 0 {
            return 0.0, 1.0;
          }
          mean := R / n as real;
        case Thompson =>
          var alpha, beta;
          alpha, beta, n := AggregateThompson(arm, now);
          if n == 0 {
            return 0.0, 1.0;
          }
          mean := if alpha + beta == 0.0 then 0.0 else alpha / (alpha + beta);
      }
      var N := TotalPulls(now);
      var halfWidth := width(N as real, n as real);
      lcb := if mean - halfWidth > 0.0 then mean - halfWidth else 0.0;
      ucb := if mean + halfWidth < 1.0 then mean + halfWidth else 1.0;
    }

    // --- selection -----------------------------------------------------------------------

    /** What UCB1 maximizes: the mean plus an exploration bonus for total and arm pulls. */
    ghost function Index(arm: Arm, bonus: HalfWidth, now: real): real
      reads this
      requires Aggregate(Value(), arm, Pulls, now) != 0.0
    {
      Aggregate(Value(), arm, Reward, now) / Aggregate(Value(), arm, Pulls, now)
      + bonus(BanditState.TotalPulls(Value(), now), Aggregate(Value(), arm, Pulls, now))
    }

    ghost predicate Untried(arm: Arm, now: real)
      reads this
    {
      Aggregate(Value(), arm, Pulls, now) == 0.0
    }

    /** The first candidate nobody has tried or, without one, a candidate of greatest index. */
    ghost predicate IsChoice(candidates: seq<Arm>, i: nat, bonus: HalfWidth, now: real)
      reads this
    {
      && i < |candidates|
      && if Untried(candidates[i], now) then forall j :: 0 <= j < i ==> !Untried(candidates[j], now)
         else forall j :: 0 <= j < |candidates| ==>
           !Untried(candidates[j], now) && Index(candidates[j], bonus, now) <= Index(candidates[i], bonus, now)
    }

    /**
     Among tried candidates nothing but evidence decides: no other one has a greater mean and
     bonus, so at equal pulls none has more reward, and at equal means none a greater bonus.
     */
    lemma ChoiceIsByEvidence(candidates: seq<Arm>, i: nat, j: nat, bonus: HalfWidth, now: real)
      requires IsChoice(candidates, i, bonus, now) && j < |candidates|
      ensures var N, c, d := BanditState.TotalPulls(Value(), now), candidates[i], candidates[j];
        var n, m := Aggregate(Value(), c, Pulls, now), Aggregate(Value(), d, Pulls, now);
        var R, S := Aggregate(Value(), c, Reward, now), Aggregate(Value(), d, Reward, now);
        && (m == 0.0 ==> n == 0.0 && i <= j)
        && (n != 0.0 ==> S / m + bonus(N, m) <= R / n + bonus(N, n))
        && (n == m > 0.0 ==> S <= R)
        && (n != 0.0 && S / m == R / n ==> bonus(N, m) <= bonus(N, n))
    {
      hide Aggregate, BanditState.TotalPulls;
      assert Untried(candidates[j], now) <==> Aggregate(Value(), candidates[j], Pulls, now) == 0.0;
      var n := Aggregate(Value(), candidates[i], Pulls, now);
      var R, S := Aggregate(Value(), candidates[i], Reward, now), Aggregate(Value(), candidates[j], Reward, now);
      if n > 0.0 {
        QuotientRises(S, R, n);
      }
    }

    /** Fails without candidates; of several best ones it returns any. */
    method SelectUcb(candidates: seq<Arm>, bonus: HalfWidth, now: real) returns (r: Result<Arm, string>)
      ensures r.Failure? <==> candidates == []
      ensures r.Success? ==> exists i: nat :: IsChoice(candidates, i, bonus, now) && r.value == candidates[i]
    {
      hide Aggregate, BanditState.TotalPulls;
      for i := 0 to |candidates|
        invariant forall j :: 0 <= j < i ==> !Untried(candidates[j], now)
      {
        var _, n := AggregateUcb(candidates[i], now);
        if n == 0 {
          assert IsChoice(candidates, i, bonus, now);
          return Success(candidates[i]);
        }
      }
      var N := TotalPulls(now);
      var best := 0.0;
      var bestArms: seq<nat> := [];
      for i := 0 to |candidates|
        invariant i > 0 ==> bestArms != []
        invariant forall k :: 0 <= k < |bestArms| ==>
          bestArms[k] < i && Index(candidates[bestArms[k]], bonus, now) == best
        invariant forall j :: 0 <= j < i ==> Index(candidates[j], bonus, now) <= best
      {
        var R, n := AggregateUcb(candidates[i], now);
        var ucb := R / n as real + bonus(N as real, n as real);
        assert ucb == Index(candidates[i], bonus, now);
        if bestArms == [] || ucb > best {
          best, bestArms := ucb, [i];
        } else if ucb == best {
          bestArms := bestArms + [i];
        }
      }
      if bestArms == [] {
        return Failure("no candidates");
      }
      // Ties are broken at random.
      var k :| 0 <= k < |bestArms|;
      assert IsChoice(candidates, bestArms[k], bonus, now);
      return Success(candidates[bestArms[k]]);
    }

    /** The draw from Beta(alpha, beta), the posterior after all counted evidence and one flat prior. */
    ghost function Drawn(candidates: seq<Arm>, i: nat, sample: Sampler, now: real): real
      requires i < |candidates|
      reads this
    {
      sample(i, 1.0 + Aggregate(Value(), candidates[i], AlphaEvidence, now),
             1.0 + Aggregate(Value(), candidates[i], BetaEvidence, now))
    }

    /** The first candidate nobody has tried or, without one, the first with the greatest draw. */
    ghost predicate IsSampled(candidates: seq<Arm>, i: nat, sample: Sampler, now: real)
      reads this
    {
      && i < |candidates|
      && if Untried(candidates[i], now) then forall j :: 0 <= j < i ==> !Untried(candidates[j], now)
         else
           && (forall j :: 0 <= j < |candidates| ==> !Untried(candidates[j], now))
           && (forall j: nat :: j < |candidates| ==>
                 Drawn(candidates, j, sample, now) <= Drawn(candidates, i, sample, now))
           && (forall j: nat :: j < i ==> Drawn(candidates, j, sample, now) < Drawn(candidates, i, sample, now))
    }

    /** An untried candidate wins; among tried ones the greatest draw from Beta(1 + won, 1 + lost) does. */
    lemma SampleIsByEvidence(candidates: seq<Arm>, i: nat, j: nat, sample: Sampler, now: real)
      requires IsSampled(candidates, i, sample, now) && j < |candidates|
      ensures var v, c, d := Value(), candidates[i], candidates[j];
        var x := sample(i, 1.0 + Aggregate(v, c, AlphaEvidence, now), 1.0 + Aggregate(v, c, BetaEvidence, now));
        var y := sample(j, 1.0 + Aggregate(v, d, AlphaEvidence, now), 1.0 + Aggregate(v, d, BetaEvidence, now));
        && (Aggregate(v, d, Pulls, now) == 0.0 ==> Aggregate(v, c, Pulls, now) == 0.0 && i <= j)
        && (Aggregate(v, c, Pulls, now) != 0.0 ==> y <= x && (j < i ==> y < x))
    {
      hide Aggregate;
      var y := Drawn(candidates, j, sample, now);
      assert !Untried(candidates[i], now) ==> y <= Drawn(candidates, i, sample, now);
      assert Untried(candidates[j], now) <==> Aggregate(Value(), candidates[j], Pulls, now) == 0.0;
    }

    /** Fails without candidates. */
    method SelectThompson(candidates: seq<Arm>, sample: Sampler, now: real) returns (r: Result<Arm, string>)
      requires forall i, alpha, beta :: 0.0 <= sample(i, alpha, beta) <= 1.0
      ensures r.Failure? <==> candidates == []
      ensures r.Success? ==> exists i: nat :: IsSampled(candidates, i, sample, now) && r.value == candidates[i]
    {
      hide Aggregate, BanditState.TotalPulls;
      for i := 0 to |candidates|
        invariant forall j :: 0 <= j < i ==> !Untried(candidates[j], now)
      {
        var _, _, n := AggregateThompson(candidates[i], now);
        if n == 0 {
          assert IsSampled(candidates, i, sample, now);
          return Success(candidates[i]);
        }
      }
      if candidates == [] {
        return Failure("no candidates");
      }
      var best, bestSample := 0, -1.0;
      for i := 0 to |candidates|
        invariant best < |candidates|
        invariant i == 0 ==> bestSample == -1.0
        invariant i > 0 ==> best < i && bestSample == Drawn(candidates, best, sample, now)
        invariant forall j: nat :: j < i ==> Drawn(candidates, j, sample, now) <= bestSample
        invariant i > 0 ==> forall j: nat :: j < best ==> Drawn(candidates, j, sample, now) < bestSample
      {
        var alpha, beta, _ := AggregateThompson(candidates[i], now);
        var drawn := sample(i, alpha, beta);
        assert drawn == Drawn(candidates, i, sample, now);
        if drawn > bestSample {
          best, bestSample := i, drawn;
        }
      }
      assert IsSampled(candidates, best, sample, now);
      return Success(candidates[best]);
    }

    ghost predicate IsSelected(candidates: seq<Arm>, i: nat, bonus: HalfWidth, sample: Sampler, now: real)
      reads this
    {
      match algorithm
      case Ucb1 => IsChoice(candidates, i, bonus, now)
      case Thompson => IsSampled(candidates, i, sample, now)
    }

    /** Selection by the peer's algorithm. */
    method Select(candidates: seq<Arm>, bonus: HalfWidth, sample: Sampler, now: real)
      returns (r: Result<Arm, string>)
      requires forall i, alpha, beta :: 0.0 <= sample(i, alpha, beta) <= 1.0
      ensures r.Failure? <==> candidates == []
      ensures r.Success? ==>
        exists i: nat :: IsSelected(candidates, i, bonus, sample, now) && i < |candidates| && r.value == candidates[i]
    {
      if algorithm == Ucb1 {
        r := SelectUcb(candidates, bonus, now);
        if r.Success? {
          ghost var i: nat :| IsChoice(candidates, i, bonus, now) && r.value == candidates[i];
          assert IsSelected(candidates, i, bonus, sample, now);
        }
      } else {
        r := SelectThompson(candidates, sample, now);
        if r.Success? {
          ghost var i: nat :| IsSampled(candidates, i, sample, now) && r.value == candidates[i];
          assert IsSelected(candidates, i, bonus, sample, now);
        }
      }
    }
  }
}
