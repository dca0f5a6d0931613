/**
 What a peer knows about the arms: its own evidence, the latest snapshot gossiped by every
 other peer, and Lamport marks. The operations are given as functions on this state.
 */
module BanditState {
  import opened MapSums

  type Arm = string

  type Peer = string

  datatype Algorithm = Ucb1 | Thompson

  datatype Observation = Observation(
    pulls: int, totalReward: real, alpha: real, beta: real, lamport: int, lastReceived: real)

  /** One gossiped observation of the sender's own evidence for one arm. */
  datatype Gossip = Gossip(
    sender: Peer, arm: Arm, pulls: int, totalReward: real, alpha: real, beta: real, lamport: int)

  datatype State = State(
    peerId: Peer,
    own: map<Arm, Observation>,
    table: map<Arm, map<Peer, Observation>>,
    seen: map<(Peer, Arm), int>,
    lamportSelf: int)

  /** Seconds after which a silent peer's observation no longer counts. */
  const PEER_OBSERVATION_TTL_S: real := 300.0

  const FLAT: Observation := Observation(0, 0.0, 1.0, 1.0, 0, 0.0)

  predicate IsFresh(o: Observation, now: real) { o.lastReceived >= now - PEER_OBSERVATION_TTL_S }

  function TableOf(b: State, arm: Arm): map<Peer, Observation> {
    if arm in b.table then b.table[arm] else map[]
  }

  function SeenMark(b: State, sender: Peer, arm: Arm): int {
    if (sender, arm) in b.seen then b.seen[(sender, arm)] else 0
  }

  // --- operations ------------------------------------------------------------------------

  function Fresh(names: set<Arm>, peerId: Peer): State {
    State(peerId, map n | n in names :: FLAT, map n | n in names :: map[], map[], 0)
  }

  function NextLamport(b: State): State { b.(lamportSelf := b.lamportSelf + 1) }

  function Reinforced(algorithm: Algorithm, o: Observation, reward: real): Observation {
    match algorithm
    case Ucb1 => o.(pulls := o.pulls + 1, totalReward := o.totalReward + reward)
    case Thompson => o.(pulls := o.pulls + 1, alpha := o.alpha + reward, beta := o.beta + (1.0 - reward))
  }

  function Update(algorithm: Algorithm, b: State, arm: Arm, reward: real, now: real): State
    requires arm in b.own
  {
    var o := Reinforced(algorithm, b.own[arm], reward).(lamport := b.lamportSelf + 1, lastReceived := now);
    NextLamport(b).(own := b.own[arm := o])
  }

  function AddArm(b: State, name: Arm): State {
    if name in b.own then b
    else b.(own := b.own[name := FLAT], table := if name in b.table then b.table else b.table[name := map[]])
  }

  predicate Accepts(b: State, m: Gossip) {
    m.sender != b.peerId && m.lamport > SeenMark(b, m.sender, m.arm)
  }

  function Received(m: Gossip, now: real): Observation {
    Observation(m.pulls, m.totalReward, m.alpha, m.beta, m.lamport, now)
  }

  function ApplyGossip(b: State, m: Gossip, now: real): State {
    if Accepts(b, m) then
      b.(seen := b.seen[(m.sender, m.arm) := m.lamport],
         table := b.table[m.arm := TableOf(b, m.arm)[m.sender := Received(m, now)]])
    else b
  }

  function FreshOnly(t: map<Peer, Observation>, now: real): map<Peer, Observation> {
    map s | s in t && IsFresh(t[s], now) :: t[s]
  }

  function EvictAllStale(b: State, now: real): State {
    b.(table := map a | a in b.table :: FreshOnly(b.table[a], now))
  }

  // --- aggregates ------------------------------------------------------------------------

  function Pulls(o: Observation): real { o.pulls as real }

  function Reward(o: Observation): real { o.totalReward }

  /** Evidence beyond the flat prior, which is counted once and not once per contributor. */
  function AlphaEvidence(o: Observation): real { o.alpha - 1.0 }

  function BetaEvidence(o: Observation): real { o.beta - 1.0 }

  /** A stale observation counts nothing. */
  ghost function FreshPart(f: Observation -> real, now: real): Observation -> real {
    o => if IsFresh(o, now) then f(o) else 0.0
  }

  /** Own plus fresh peer observations of one arm. */
  ghost function Aggregate(b: State, arm: Arm, f: Observation -> real, now: real): real {
    if arm in b.own then f(b.own[arm]) + MapSum(TableOf(b, arm), FreshPart(f, now)) else 0.0
  }

  ghost function TableTotal(f: Observation -> real, now: real): map<Peer, Observation> -> real {
    (t: map<Peer, Observation>) => MapSum(t, FreshPart(f, now))
  }

  /** Pulls over every arm, own and fresh. */
  ghost function TotalPulls(b: State, now: real): real {
    MapSum(b.own, Pulls) + MapSum(b.table, TableTotal(Pulls, now))
  }

  // --- confidence intervals --------------------------------------------------------------

  ghost function Mean(algorithm: Algorithm, b: State, arm: Arm, now: real): real
    requires Aggregate(b, arm, Pulls, now) != 0.0
  {
    match algorithm
    case Ucb1 => Aggregate(b, arm, Reward, now) / Aggregate(b, arm, Pulls, now)
    case Thompson =>
      var alpha := 1.0 + Aggregate(b, arm, AlphaEvidence, now);
      var beta := 1.0 + Aggregate(b, arm, BetaEvidence, now);
      if alpha + beta == 0.0 then 0.0 else alpha / (alpha + beta)
  }

  /** The half-width of an interval for total pulls N and arm pulls n. */
  type HalfWidth = (real, real) -> real

  /** The random number drawn for a candidate from the Beta distribution of its posterior. */
  type Sampler = (nat, real, real) -> real

  function Interval(mean: real, halfWidth: real): (real, real) {
    (if mean - halfWidth > 0.0 then mean - halfWidth else 0.0,
     if mean + halfWidth < 1.0 then mean + halfWidth else 1.0)
  }

  /** (lcb, ucb): mean plus or minus the half-width, cut to [0, 1]; all of it without pulls. */
  ghost function ConfidenceBounds(algorithm: Algorithm, b: State, arm: Arm, width: HalfWidth, now: real): (real, real) {
    var n := Aggregate(b, arm, Pulls, now);
    if n == 0.0 then (0.0, 1.0)
    else Interval(Mean(algorithm, b, arm, now), width(TotalPulls(b, now), n))
  }
}
