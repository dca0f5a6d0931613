/** The order and number of deliveries does not matter: the highest Lamport stamp wins. */
module GossipOrder {
  import opened MapSums
  import opened BanditState

  /** A message with the time it is delivered. */
  type Delivery = (Gossip, real)

  function Deliver(b: State, ms: seq<Delivery>): State
    decreases |ms|
  {
    if ms == [] then b
    else
      var last := ms[|ms| - 1];
      ApplyGossip(Deliver(b, ms[..|ms| - 1]), last.0, last.1)
  }

  predicate IsFor(m: Gossip, sender: Peer, arm: Arm) { m.sender == sender && m.arm == arm }

  /** The highest stamp for (sender, arm) among `base` and the delivered messages. */
  function TopMark(base: int, ms: seq<Delivery>, sender: Peer, arm: Arm): int
    decreases |ms|
  {
    if ms == [] then base
    else
      var before := TopMark(base, ms[..|ms| - 1], sender, arm);
      var m := ms[|ms| - 1].0;
      if IsFor(m, sender, arm) && m.lamport > before then m.lamport else before
  }

  lemma {:induction false} TopMarkBounds(base: int, ms: seq<Delivery>, sender: Peer, arm: Arm)
    ensures base <= TopMark(base, ms, sender, arm)
    ensures forall i :: 0 <= i < |ms| && IsFor(ms[i].0, sender, arm) ==>
      ms[i].0.lamport <= TopMark(base, ms, sender, arm)
    ensures TopMark(base, ms, sender, arm) > base ==>
      exists i :: 0 <= i < |ms| && IsFor(ms[i].0, sender, arm) && ms[i].0.lamport == TopMark(base, ms, sender, arm)
    decreases |ms|
  {
    if ms != [] {
      var init := ms[..|ms| - 1];
      TopMarkBounds(base, init, sender, arm);
      var top := TopMark(base, ms, sender, arm);
      if TopMark(base, init, sender, arm) == top > base {
        var i :| 0 <= i < |init| && IsFor(init[i].0, sender, arm) && init[i].0.lamport == top;
        assert ms[i] == init[i];
      }
    }
  }

  /** An observation as some message carried it, received at some time of delivery. */
  ghost predicate Carries(o: Observation, d: Delivery) {
    o == Received(d.0, d.1)
  }

  /** The entry that stands for (sender, arm) after the deliveries. */
  ghost predicate EntryIsTop(b: State, ms: seq<Delivery>, sender: Peer, arm: Arm) {
    var base := SeenMark(b, sender, arm);
    var top := TopMark(base, ms, sender, arm);
    var t, t0 := TableOf(Deliver(b, ms), arm), TableOf(b, arm);
    if top > base then
      sender in t && exists i ::
        0 <= i < |ms| && IsFor(ms[i].0, sender, arm) && ms[i].0.lamport == top && Carries(t[sender], ms[i])
    else
      (sender in t <==> sender in t0) && (sender in t ==> t[sender] == t0[sender])
  }

  /**
   After any deliveries, the mark of (sender, arm) is the highest stamp delivered and its
   entry is the message that carried it; without a higher stamp, nothing has changed.
   */
  lemma {:induction false} HighestStampWins(b: State, ms: seq<Delivery>, sender: Peer, arm: Arm)
    requires sender != b.peerId
    ensures Deliver(b, ms).peerId == b.peerId && Deliver(b, ms).own == b.own
    ensures SeenMark(Deliver(b, ms), sender, arm) == TopMark(SeenMark(b, sender, arm), ms, sender, arm)
    ensures EntryIsTop(b, ms, sender, arm)
    decreases |ms|
  {
    if ms != [] {
      var init, last := ms[..|ms| - 1], ms[|ms| - 1];
      HighestStampWins(b, init, sender, arm);
      var base := SeenMark(b, sender, arm);
      TopMarkBounds(base, init, sender, arm);
      var top := TopMark(base, ms, sender, arm);
      if IsFor(last.0, sender, arm) && last.0.lamport > TopMark(base, init, sender, arm) {
        assert Carries(TableOf(Deliver(b, ms), arm)[sender], ms[|ms| - 1]);
      } else if top > base {
        var t := TableOf(Deliver(b, init), arm);
        var i :|
          0 <= i < |init| && IsFor(init[i].0, sender, arm) && init[i].0.lamport == top && Carries(t[sender], init[i]);
        assert ms[i] == init[i];
        assert TableOf(Deliver(b, ms), arm)[sender] == t[sender];
      }
    }
  }

  /** A peer's own messages change nothing. */
  lemma {:induction false} OwnMessagesIgnored(b: State, ms: seq<Delivery>, arm: Arm)
    ensures b.peerId in TableOf(Deliver(b, ms), arm) <==> b.peerId in TableOf(b, arm)
    ensures b.peerId in TableOf(b, arm) ==> TableOf(Deliver(b, ms), arm)[b.peerId] == TableOf(b, arm)[b.peerId]
    ensures Deliver(b, ms).peerId == b.peerId && Deliver(b, ms).own == b.own
    decreases |ms|
  {
    if ms != [] {
      OwnMessagesIgnored(b, ms[..|ms| - 1], arm);
    }
  }

  // --- any order, any duplicates ---------------------------------------------------------

  /** Both lists deliver the same messages, in some order and each any number of times. */
  ghost predicate SameMessages(ms: seq<Delivery>, ns: seq<Delivery>) {
    && (forall i :: 0 <= i < |ms| ==> Delivers(ns, ms[i].0))
    && (forall j :: 0 <= j < |ns| ==> Delivers(ms, ns[j].0))
  }

  ghost predicate Delivers(ms: seq<Delivery>, m: Gossip) {
    exists i :: 0 <= i < |ms| && ms[i].0 == m
  }

  /** A sender never stamps two different messages for one arm alike. */
  ghost predicate StampsIdentify(ms: seq<Delivery>) {
    forall i, j ::
      0 <= i < |ms| && 0 <= j < |ms|
      && IsFor(ms[i].0, ms[j].0.sender, ms[j].0.arm) && ms[i].0.lamport == ms[j].0.lamport
      ==> ms[i].0 == ms[j].0
  }

  ghost predicate SameContent(o: Observation, p: Observation) {
    o.(lastReceived := 0.0) == p.(lastReceived := 0.0)
  }

  lemma TopMarkIgnoresOrder(base: int, ms: seq<Delivery>, ns: seq<Delivery>, sender: Peer, arm: Arm)
    requires SameMessages(ms, ns)
    ensures TopMark(base, ms, sender, arm) == TopMark(base, ns, sender, arm)
  {
    TopMarkBounds(base, ms, sender, arm);
    TopMarkBounds(base, ns, sender, arm);
    if TopMark(base, ms, sender, arm) > base {
      var i :| 0 <= i < |ms| && IsFor(ms[i].0, sender, arm) && ms[i].0.lamport == TopMark(base, ms, sender, arm);
      assert Delivers(ns, ms[i].0);
    }
    if TopMark(base, ns, sender, arm) > base {
      var j :| 0 <= j < |ns| && IsFor(ns[j].0, sender, arm) && ns[j].0.lamport == TopMark(base, ns, sender, arm);
      assert Delivers(ms, ns[j].0);
    }
  }

  /** Marks and entries, apart from the time of receipt, do not depend on the order. */
  lemma EntriesIgnoreOrder(b: State, ms: seq<Delivery>, ns: seq<Delivery>, sender: Peer, arm: Arm)
    requires SameMessages(ms, ns) && StampsIdentify(ms)
    requires sender != b.peerId
    ensures SeenMark(Deliver(b, ms), sender, arm) == SeenMark(Deliver(b, ns), sender, arm)
    ensures var t, u := TableOf(Deliver(b, ms), arm), TableOf(Deliver(b, ns), arm);
      && (sender in t <==> sender in u)
      && (sender in t ==> SameContent(t[sender], u[sender]))
  {
    var base := SeenMark(b, sender, arm);
    HighestStampWins(b, ms, sender, arm);
    HighestStampWins(b, ns, sender, arm);
    TopMarkIgnoresOrder(base, ms, ns, sender, arm);
    var top := TopMark(base, ms, sender, arm);
    if top > base {
      var t, u := TableOf(Deliver(b, ms), arm), TableOf(Deliver(b, ns), arm);
      var i :| 0 <= i < |ms| && IsFor(ms[i].0, sender, arm) && ms[i].0.lamport == top && Carries(t[sender], ms[i]);
      var j :| 0 <= j < |ns| && IsFor(ns[j].0, sender, arm) && ns[j].0.lamport == top && Carries(u[sender], ns[j]);
      assert Delivers(ms, ns[j].0);
      var k :| 0 <= k < |ms| && ms[k].0 == ns[j].0;
      assert ms[i].0 == ms[k].0;
    }
  }

  /** Measures that do not look at the time of receipt. */
  ghost predicate TimeBlind(f: Observation -> real) {
    forall o, p :: SameContent(o, p) ==> f(o) == f(p)
  }

  lemma MeasuresAreTimeBlind()
    ensures TimeBlind(Pulls) && TimeBlind(Reward) && TimeBlind(AlphaEvidence) && TimeBlind(BetaEvidence)
  {}

  /** No delivery is older than the TTL. */
  ghost predicate NoneExpired(ms: seq<Delivery>, now: real) {
    forall i :: 0 <= i < |ms| ==> ms[i].1 >= now - PEER_OBSERVATION_TTL_S
  }

  lemma EntriesCountAlike(b: State, ms: seq<Delivery>, ns: seq<Delivery>, sender: Peer, arm: Arm, now: real)
    requires SameMessages(ms, ns) && StampsIdentify(ms)
    requires NoneExpired(ms, now) && NoneExpired(ns, now)
    ensures var t, u := TableOf(Deliver(b, ms), arm), TableOf(Deliver(b, ns), arm);
      && (sender in t <==> sender in u)
      && (sender in t ==> SameContent(t[sender], u[sender]) && (IsFresh(t[sender], now) <==> IsFresh(u[sender], now)))
  {
    if sender == b.peerId {
      OwnMessagesIgnored(b, ms, arm);
      OwnMessagesIgnored(b, ns, arm);
    } else {
      EntriesIgnoreOrder(b, ms, ns, sender, arm);
      HighestStampWins(b, ms, sender, arm);
      HighestStampWins(b, ns, sender, arm);
      TopMarkIgnoresOrder(SeenMark(b, sender, arm), ms, ns, sender, arm);
    }
  }

  /**
   Whatever the order, and with any duplicates, the deliveries lead to the same aggregates
   while none of them has expired.
   */
  lemma AggregatesIgnoreOrder(
      b: State, ms: seq<Delivery>, ns: seq<Delivery>, arm: Arm, f: Observation -> real, now: real)
    requires SameMessages(ms, ns) && StampsIdentify(ms)
    requires NoneExpired(ms, now) && NoneExpired(ns, now)
    requires TimeBlind(f)
    ensures Aggregate(Deliver(b, ms), arm, f, now) == Aggregate(Deliver(b, ns), arm, f, now)
  {
    OwnMessagesIgnored(b, ms, arm);
    OwnMessagesIgnored(b, ns, arm);
    var t, u := TableOf(Deliver(b, ms), arm), TableOf(Deliver(b, ns), arm);
    forall s ensures s in t <==> s in u {
      EntriesCountAlike(b, ms, ns, s, arm, now);
    }
    var g := FreshPart(f, now);
    forall s | s in t ensures g(t[s]) == g(u[s]) {
      EntriesCountAlike(b, ms, ns, s, arm, now);
    }
    MapSumCongruent(t, g, u, g);
  }

  /** All that the means and intervals are computed from. */
  lemma EvidenceIgnoresOrder(b: State, ms: seq<Delivery>, ns: seq<Delivery>, arm: Arm, now: real)
    requires SameMessages(ms, ns) && StampsIdentify(ms)
    requires NoneExpired(ms, now) && NoneExpired(ns, now)
    ensures Aggregate(Deliver(b, ms), arm, Pulls, now) == Aggregate(Deliver(b, ns), arm, Pulls, now)
    ensures Aggregate(Deliver(b, ms), arm, Reward, now) == Aggregate(Deliver(b, ns), arm, Reward, now)
    ensures Aggregate(Deliver(b, ms), arm, AlphaEvidence, now) == Aggregate(Deliver(b, ns), arm, AlphaEvidence, now)
    ensures Aggregate(Deliver(b, ms), arm, BetaEvidence, now) == Aggregate(Deliver(b, ns), arm, BetaEvidence, now)
  {
    hide Aggregate, Deliver, SameMessages, StampsIdentify, NoneExpired;
    MeasuresAreTimeBlind();
    hide TimeBlind;
    AggregatesIgnoreOrder(b, ms, ns, arm, Pulls, now);
    AggregatesIgnoreOrder(b, ms, ns, arm, Reward, now);
    AggregatesIgnoreOrder(b, ms, ns, arm, AlphaEvidence, now);
    AggregatesIgnoreOrder(b, ms, ns, arm, BetaEvidence, now);
  }
}
