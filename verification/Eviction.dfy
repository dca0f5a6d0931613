/**
 Evicting stale observations early or never makes no difference to anything a peer computes,
 and cannot bring an old observation back.
 */
module Eviction {
  import opened MapSums
  import opened BanditState

  /** Two states that differ in stale observations only. */
  ghost predicate SameEvidence(a: State, b: State, now: real) {
    && a.peerId == b.peerId && a.own == b.own && a.seen == b.seen && a.lamportSelf == b.lamportSelf
    && a.table.Keys == b.table.Keys
    && forall arm {:trigger SameFresh(a, b, arm, now)} :: arm in a.table ==> SameFresh(a, b, arm, now)
  }

  ghost predicate SameFresh(a: State, b: State, arm: Arm, now: real) {
    FreshOnly(TableOf(a, arm), now) == FreshOnly(TableOf(b, arm), now)
  }

  /** Stale entries count nothing. */
  lemma FreshOnlySums(t: map<Peer, Observation>, f: Observation -> real, now: real)
    ensures MapSum(t, FreshPart(f, now)) == MapSum(FreshOnly(t, now), FreshPart(f, now))
  {
    var gone := set s | s in t && !IsFresh(t[s], now);
    MapSumDrop(t, FreshPart(f, now), gone);
    assert t - gone == FreshOnly(t, now);
  }

  lemma SameEvidenceSameAggregate(a: State, b: State, arm: Arm, f: Observation -> real, now: real)
    requires SameEvidence(a, b, now)
    ensures Aggregate(a, arm, f, now) == Aggregate(b, arm, f, now)
  {
    assert arm in a.table ==> SameFresh(a, b, arm, now);
    FreshOnlySums(TableOf(a, arm), f, now);
    FreshOnlySums(TableOf(b, arm), f, now);
  }

  lemma SameEvidenceSameTotal(a: State, b: State, now: real)
    requires SameEvidence(a, b, now)
    ensures TotalPulls(a, now) == TotalPulls(b, now)
  {
    var g := TableTotal(Pulls, now);
    forall arm | arm in a.table ensures g(a.table[arm]) == g(b.table[arm]) {
      assert SameFresh(a, b, arm, now);
      FreshOnlySums(a.table[arm], Pulls, now);
      FreshOnlySums(b.table[arm], Pulls, now);
    }
    MapSumCongruent(a.table, g, b.table, g);
  }

  /** An eviction keeps every table, and of its entries exactly those of the last 300 seconds, as they are. */
  lemma EvictedExactly(b: State, now: real, arm: Arm, s: Peer)
    requires arm in b.table
    ensures EvictAllStale(b, now).table.Keys == b.table.Keys
    ensures s in EvictAllStale(b, now).table[arm] <==> s in b.table[arm] && now <= b.table[arm][s].lastReceived + 300.0
    ensures s in EvictAllStale(b, now).table[arm] ==> EvictAllStale(b, now).table[arm][s] == b.table[arm][s]
  {
    assert EvictAllStale(b, now).table[arm] == FreshOnly(b.table[arm], now);
  }

  /** Every interval, and so every choice and every elimination, is the same. */
  lemma SameEvidenceSameBounds(a: State, b: State, algorithm: Algorithm, arm: Arm, width: HalfWidth, now: real)
    requires SameEvidence(a, b, now)
    ensures ConfidenceBounds(algorithm, a, arm, width, now) == ConfidenceBounds(algorithm, b, arm, width, now)
  {
    SameEvidenceSameAggregate(a, b, arm, Pulls, now);
    SameEvidenceSameAggregate(a, b, arm, Reward, now);
    SameEvidenceSameAggregate(a, b, arm, AlphaEvidence, now);
    SameEvidenceSameAggregate(a, b, arm, BetaEvidence, now);
    SameEvidenceSameTotal(a, b, now);
  }

  // --- runs ------------------------------------------------------------------------------

  /** What can happen to a peer's state, each at its own time. */
  datatype Op =
    | Pulled(arm: Arm, reward: real)
    | Heard(message: Gossip)
    | Sent
    | Added(name: Arm)
    | Evicted

  function Do(algorithm: Algorithm, b: State, op: Op, now: real): State {
    match op
    case Pulled(arm, reward) => if arm in b.own then Update(algorithm, b, arm, reward, now) else b
    case Heard(m) => ApplyGossip(b, m, now)
    case Sent => NextLamport(b)
    case Added(name) => AddArm(b, name)
    case Evicted => EvictAllStale(b, now)
  }

  type Timed = (Op, real)

  function Run(algorithm: Algorithm, b: State, ops: seq<Timed>): State
    decreases |ops|
  {
    if ops == [] then b
    else
      var last := ops[|ops| - 1];
      Do(algorithm, Run(algorithm, b, ops[..|ops| - 1]), last.0, last.1)
  }

  /** The same run without its evictions. */
  function WithoutEvictions(ops: seq<Timed>): seq<Timed>
    decreases |ops|
  {
    if ops == [] then []
    else
      var last := ops[|ops| - 1];
      WithoutEvictions(ops[..|ops| - 1]) + (if last.0.Evicted? then [] else [last])
  }

  /** The clock never runs backwards, and `now` is not before the end. */
  ghost predicate Monotone(ops: seq<Timed>, now: real) {
    && (forall i, j :: 0 <= i < j < |ops| ==> ops[i].1 <= ops[j].1)
    && (forall i :: 0 <= i < |ops| ==> ops[i].1 <= now)
  }

  lemma LaterStaysSame(a: State, b: State, now: real, later: real)
    requires SameEvidence(a, b, now) && now <= later
    ensures SameEvidence(a, b, later)
  {
    forall arm | arm in a.table ensures SameFresh(a, b, arm, later) {
      assert SameFresh(a, b, arm, now);
      FreshLater(TableOf(a, arm), now, later);
      FreshLater(TableOf(b, arm), now, later);
    }
  }

  lemma FreshLater(t: map<Peer, Observation>, now: real, later: real)
    requires now <= later
    ensures FreshOnly(FreshOnly(t, now), later) == FreshOnly(t, later)
  {}

  lemma EvictingKeepsEvidence(b: State, now: real)
    ensures SameEvidence(EvictAllStale(b, now), b, now)
  {
    forall arm | arm in b.table ensures SameFresh(EvictAllStale(b, now), b, arm, now) {
      FreshLater(b.table[arm], now, now);
    }
  }

  lemma HearingKeepsSame(a: State, b: State, m: Gossip, now: real)
    requires SameEvidence(a, b, now)
    ensures SameEvidence(ApplyGossip(a, m, now), ApplyGossip(b, m, now), now)
  {
    if Accepts(a, m) {
      var a', b' := ApplyGossip(a, m, now), ApplyGossip(b, m, now);
      forall arm | arm in a'.table ensures SameFresh(a', b', arm, now) {
        assert arm in a.table ==> SameFresh(a, b, arm, now);
        if arm == m.arm {
          var o := Received(m, now);
          FreshPut(TableOf(a, arm), m.sender, o, now);
          FreshPut(TableOf(b, arm), m.sender, o, now);
        }
      }
    }
  }

  lemma FreshPut(t: map<Peer, Observation>, s: Peer, o: Observation, now: real)
    requires IsFresh(o, now)
    ensures FreshOnly(t[s := o], now) == FreshOnly(t, now)[s := o]
  {}

  lemma StepKeepsSame(algorithm: Algorithm, a: State, b: State, op: Op, now: real)
    requires SameEvidence(a, b, now)
    ensures op.Evicted? ==> SameEvidence(Do(algorithm, a, op, now), b, now)
    ensures !op.Evicted? ==> SameEvidence(Do(algorithm, a, op, now), Do(algorithm, b, op, now), now)
  {
    hide FreshOnly;
    match op
    case Heard(m) => HearingKeepsSame(a, b, m, now);
    case Evicted =>
      EvictingKeepsEvidence(a, now);
      var a' := EvictAllStale(a, now);
      forall arm | arm in a'.table ensures SameFresh(a', b, arm, now) {
        assert SameFresh(a', a, arm, now) && SameFresh(a, b, arm, now);
      }
    case _ =>
      var a', b' := Do(algorithm, a, op, now), Do(algorithm, b, op, now);
      forall arm | arm in a'.table ensures SameFresh(a', b', arm, now) {
        assert arm in a.table ==> SameFresh(a, b, arm, now);
      }
  }

  /**
   Over any run with a monotone clock, evictions at whatever moments change nothing a peer
   computes afterwards: own evidence, Lamport marks, aggregates, totals and intervals.
   */
  lemma {:induction false} EvictionIsInvisible(algorithm: Algorithm, b: State, ops: seq<Timed>, now: real)
    requires Monotone(ops, now)
    ensures SameEvidence(Run(algorithm, b, ops), Run(algorithm, b, WithoutEvictions(ops)), now)
    decreases |ops|
  {
    hide SameEvidence, Do;
    if ops == [] {
      assert SameEvidence(b, b, now) by {
        SameAsItself(b, now);
      }
    } else {
      var init, last := ops[..|ops| - 1], ops[|ops| - 1];
      EvictionIsInvisible(algorithm, b, init, last.1);
      StepKeepsSame(algorithm, Run(algorithm, b, init), Run(algorithm, b, WithoutEvictions(init)), last.0, last.1);
      var rest := WithoutEvictions(init);
      if last.0.Evicted? {
        assert WithoutEvictions(ops) == rest + [] == rest;
      } else {
        assert (rest + [last])[..|rest|] == rest;
      }
      LaterStaysSame(Run(algorithm, b, ops), Run(algorithm, b, WithoutEvictions(ops)), last.1, now);
    }
  }

  lemma SameAsItself(b: State, now: real)
    ensures SameEvidence(b, b, now)
  {
    forall arm | arm in b.table ensures SameFresh(b, b, arm, now) {}
  }

  // --- replays ---------------------------------------------------------------------------

  lemma MarksOnlyRise(algorithm: Algorithm, b: State, op: Op, now: real, sender: Peer, arm: Arm)
    ensures SeenMark(Do(algorithm, b, op, now), sender, arm) >= SeenMark(b, sender, arm)
    ensures Do(algorithm, b, op, now).peerId == b.peerId
  {}

  lemma {:induction false} RunKeepsMarks(algorithm: Algorithm, b: State, ops: seq<Timed>, sender: Peer, arm: Arm)
    ensures SeenMark(Run(algorithm, b, ops), sender, arm) >= SeenMark(b, sender, arm)
    ensures Run(algorithm, b, ops).peerId == b.peerId
    decreases |ops|
  {
    if ops != [] {
      var init, last := ops[..|ops| - 1], ops[|ops| - 1];
      RunKeepsMarks(algorithm, b, init, sender, arm);
      MarksOnlyRise(algorithm, Run(algorithm, b, init), last.0, last.1, sender, arm);
    }
  }

  /** A message heard once is ignored ever after, whatever was evicted in between. */
  lemma ReplayIsIgnored(algorithm: Algorithm, b: State, m: Gossip, heard: real, ops: seq<Timed>, again: real)
    ensures var later := Run(algorithm, ApplyGossip(b, m, heard), ops);
      ApplyGossip(later, m, again) == later
  {
    RunKeepsMarks(algorithm, ApplyGossip(b, m, heard), ops, m.sender, m.arm);
  }
}
