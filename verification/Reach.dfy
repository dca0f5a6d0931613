/** Where a published object is once the cascade it set off has run dry and nothing was lost. */
module Reach {
  import opened Wrappers
  import opened Schema
  import opened GossipItems
  import opened Replication
  import opened Dissemination

  // --- what no store can refuse ----------------------------------------------------------

  /** Ids determine content, and nobody else claims what `r` claims. */
  predicate Compatible(x: Row, r: Row) {
    && (x.Ref() == r.Ref() ==> x == r)
    && (r.Unique().Some? && x.Unique() == r.Unique() ==> x.Ref() == r.Ref())
  }

  ghost predicate Peaceful(t: Tables, r: Row) { forall k :: k in t ==> Compatible(t[k], r) }

  /** No row anywhere is in the way of `r`, and every peer knows what `r` refers to. */
  ghost predicate Welcome(net: Net, r: Row) {
    && (forall p :: p in net.stores ==> Peaceful(net.stores[p], r) && Resolves(net.stores[p], r))
    && (forall m :: m in net.flight && m.body.ObjectMessage? ==> Compatible(m.body.row, r))
  }

  lemma WelcomeIsStored(t: Tables, r: Row)
    requires Integrity(t) && Peaceful(t, r) && Resolves(t, r)
    ensures r.Ref() in StoreRemote(t, r).0
  {
    forall k | k in t && k != r.Ref() && r.Unique().Some? ensures t[k].Unique() != r.Unique() {
      assert Compatible(t[k], r) && t[k].Ref() == k;
    }
  }

  // --- the invariant ---------------------------------------------------------------------

  /** A message that will bring object `k` of `p` to `q`, if only it is not lost. */
  predicate Carries(m: Packet, p: Peer, q: Peer, k: Key) {
    match m.body
    case ObjectMessage(r) => m.source == p && m.target == q && r.Ref() == k
    case IHave(items) => m.source == p && m.target == q && k in items
    case IWant(items) => m.source == q && m.target == p && k in items
  }

  ghost predicate Pending(flight: seq<Packet>, p: Peer, q: Peer, k: Key) {
    exists m {:trigger Carries(m, p, q, k)} :: m in flight && Carries(m, p, q, k)
  }

  /** Whom `p` is connected to has the object of `p`, or it is on its way. */
  ghost predicate Paid(net: Net, p: Peer, q: Peer, k: Key) {
    p in net.stores && p in net.links && q in net.links[p] && q in net.stores && k in net.stores[p] ==>
      k in net.stores[q] || Pending(net.flight, p, q, k)
  }

  ghost predicate AllPaid(net: Net, k: Key) { forall p, q {:trigger Paid(net, p, q, k)} :: Paid(net, p, q, k) }

  /** Whoever sends the object has it. */
  ghost predicate SendersHave(net: Net, k: Key) {
    forall m :: m in net.flight && m.body.ObjectMessage? && m.body.row.Ref() == k ==>
      m.source in net.stores && k in net.stores[m.source]
  }

  ghost predicate Inv(net: Net, r: Row) {
    Valid(net) && Welcome(net, r) && SendersHave(net, r.Ref()) && AllPaid(net, r.Ref())
  }

  // --- publication -----------------------------------------------------------------------

  /** The creator sends the full object to all its peers. */
  function Broadcast(me: Peer, peers: seq<Peer>, r: Row): (ms: seq<Packet>) {
    seq(|peers|, i requires 0 <= i < |peers| => Packet(me, peers[i], ObjectMessage(r)))
  }

  /**
   The creator alone has the object and is sending it to all its peers. Anything else may be
   under way as well, as long as nobody else is sending this object.
   */
  ghost predicate Published(net: Net, p: Peer, r: Row) {
    && Valid(net) && Welcome(net, r)
    && p in net.stores && r.Ref() in net.stores[p]
    && (forall q :: q in net.stores && q != p ==> r.Ref() !in net.stores[q])
    && p in net.links && (forall m :: m in Broadcast(p, net.links[p], r) ==> m in net.flight)
    && (forall m :: m in net.flight && m.body.ObjectMessage? && m.body.row.Ref() == r.Ref() ==> m.source == p)
  }

  lemma PublishedHolds(net: Net, p: Peer, r: Row)
    requires Published(net, p, r)
    ensures Inv(net, r)
  {
    hide Valid, Welcome;
    forall s, q ensures Paid(net, s, q, r.Ref()) {
      if s == p && q in net.links[p] {
        var sent := Broadcast(p, net.links[p], r);
        var i :| 0 <= i < |net.links[p]| && net.links[p][i] == q;
        assert sent[i] in sent && Carries(sent[i], p, q, r.Ref());
      }
    }
  }

  // --- a delivery ------------------------------------------------------------------------

  lemma StoresGrow(net: Net, step: Step, p: Peer)
    requires Valid(net) && Enabled(net, step) && p in net.stores
    ensures p in Apply(net, step).stores
    ensures forall k :: k in net.stores[p] ==> k in Apply(net, step).stores[p]
    ensures forall k :: k in Apply(net, step).stores[p] && k !in net.stores[p] ==>
      && step.Deliver? && p == net.flight[step.index].target
      && net.flight[step.index].body.ObjectMessage? && k == net.flight[step.index].body.row.Ref()
      && StoreRemote(net.stores[p], net.flight[step.index].body.row).1 == Stored
    ensures forall k :: k in Apply(net, step).stores[p] ==>
      Apply(net, step).stores[p][k] == if k in net.stores[p] then net.stores[p][k] else net.flight[step.index].body.row
  {
    hide StoreRemote, Integrity;
    var m := net.flight[step.index];
    if step.Deliver? && m.body.ObjectMessage? {
      StoreRemoteOutcome(net.stores[m.target], m.body.row);
    }
  }

  /** A packet after the step was there before, or is part of the reaction. */
  lemma FlightAfter(net: Net, step: Step, m: Packet)
    requires Valid(net) && Enabled(net, step)
    ensures m in Apply(net, step).flight ==>
      m in net.flight || (step.Deliver? && m in Reaction(net, net.flight[step.index], step.wants))
    ensures m in net.flight && m != net.flight[step.index] ==> m in Apply(net, step).flight
    ensures step.Deliver? && m in Reaction(net, net.flight[step.index], step.wants) ==> m in Apply(net, step).flight
  {
    hide Valid, Reaction, StoreAfter, SplitsMissing;
    if m in net.flight && m != net.flight[step.index] {
      var i :| 0 <= i < |net.flight| && net.flight[i] == m;
      var rest := Without(net.flight, step.index);
      assert rest[if i < step.index then i else i - 1] == m;
    }
  }

  lemma ReactionObject(net: Net, m: Packet, wants: seq<seq<Key>>, x: Packet)
    requires Valid(net) && m.source in net.stores && m.target in net.stores
    requires x in Reaction(net, m, wants) && x.body.ObjectMessage?
    ensures x.source == m.target && x.body.row.Ref() in net.stores[m.target]
    ensures net.stores[m.target][x.body.row.Ref()] == x.body.row
  {
    hide Integrity, StoreRemote;
    if m.body.IWant? {
      var t, items := net.stores[m.target], m.body.items;
      ServedAreThere(t, items);
      assert x.body.row in Served(t, items);
    } else if m.body.ObjectMessage? {
      AnnouncementsHold(m.target, net.links[m.target], m.source, m.body.row.Ref());
    }
  }

  lemma StepKeepsWelcome(net: Net, step: Step, r: Row)
    requires Inv(net, r) && Enabled(net, step)
    ensures Welcome(Apply(net, step), r)
    ensures SendersHave(Apply(net, step), r.Ref())
  {
    hide Valid, Compatible, Reaction, Enabled, Apply, AllPaid;
    var net', m := Apply(net, step), net.flight[step.index] by { EnabledIndex(net, step); }
    SameKeys(net, step);
    forall p | p in net'.stores ensures Peaceful(net'.stores[p], r) && Resolves(net'.stores[p], r) {
      StoresGrow(net, step, p);
      assert Peaceful(net.stores[p], r) && Resolves(net.stores[p], r);
      assert m in net.flight;
    }
    forall x | x in net'.flight && x.body.ObjectMessage?
      ensures Compatible(x.body.row, r)
      ensures x.body.row.Ref() == r.Ref() ==> x.source in net'.stores && r.Ref() in net'.stores[x.source]
    {
      FlightAfter(net, step, x);
      if x !in net.flight {
        EnabledEnds(net, step);
        ReactionObject(net, m, step.wants, x);
        assert Peaceful(net.stores[m.target], r);
        StoresGrow(net, step, m.target);
      } else if x.body.row.Ref() == r.Ref() {
        StoresGrow(net, step, x.source);
      }
    }
  }

  lemma EnabledIndex(net: Net, step: Step)
    requires Enabled(net, step)
    ensures step.index < |net.flight|
  {}

  lemma EnabledEnds(net: Net, step: Step)
    requires Enabled(net, step)
    ensures step.index < |net.flight|
    ensures net.flight[step.index].source in net.stores && net.flight[step.index].target in net.stores
  {}

  lemma SameKeys(net: Net, step: Step)
    requires Valid(net) && Enabled(net, step)
    ensures Apply(net, step).stores.Keys == net.stores.Keys && Apply(net, step).links == net.links
  {}

  lemma {:induction false} InSomePart<T>(parts: seq<seq<T>>, x: T) returns (i: nat)
    requires x in Flatten(parts)
    ensures i < |parts| && x in parts[i]
  {
    if x in parts[|parts| - 1] {
      i := |parts| - 1;
    } else {
      i := InSomePart(parts[..|parts| - 1], x);
    }
  }

  /** An announcement that is new leads to a request. */
  lemma AnnouncementIsAnswered(net: Net, m: Packet, wants: seq<seq<Key>>, p: Peer, q: Peer, k: Key)
    requires Valid(net) && p in net.stores && q in net.stores
    requires m.body.IHave? && Carries(m, p, q, k) && k !in net.stores[q]
    requires SplitsMissing(net.stores[q], m.body.items, wants)
    ensures Pending(Reaction(net, m, wants), p, q, k)
  {
    CanonicalHolds(set j | j in m.body.items && j !in net.stores[q]);
    assert k in Flatten(wants);
    var i := InSomePart(wants, k);
    var reply := Requests(q, p, wants)[i];
    assert reply in Requests(q, p, wants) && Carries(reply, p, q, k);
  }

  /** A request for something stored leads to the object. */
  lemma RequestIsAnswered(net: Net, m: Packet, wants: seq<seq<Key>>, p: Peer, q: Peer, k: Key)
    requires Valid(net) && p in net.stores && q in net.stores
    requires m.body.IWant? && Carries(m, p, q, k) && k in net.stores[p]
    ensures Pending(Reaction(net, m, wants), p, q, k)
  {
    hide Integrity;
    var t := net.stores[p];
    ServedAreThere(t, m.body.items);
    IntegrityKeys(t, k);
    var rows := Served(t, m.body.items);
    var i :| 0 <= i < |rows| && rows[i] == t[k];
    var reply := Answers(p, q, rows)[i];
    assert reply in Answers(p, q, rows) && Carries(reply, p, q, k);
  }

  lemma IntegrityKeys(t: Tables, k: Key)
    requires Integrity(t) && k in t
    ensures t[k].Ref() == k
  {}

  /** A peer that has just stored the object owes it to all it is connected to but the sender. */
  lemma StoringAnnounces(net: Net, m: Packet, wants: seq<seq<Key>>, q: Peer)
    requires Valid(net) && m.body.ObjectMessage? && m.target in net.stores && q in net.links[m.target] && q != m.source
    requires StoreRemote(net.stores[m.target], m.body.row).1 == Stored
    ensures Pending(Reaction(net, m, wants), m.target, q, m.body.row.Ref())
  {
    hide StoreRemote;
    var k := m.body.row.Ref();
    AnnouncementsHold(m.target, net.links[m.target], m.source, k);
    var reply := Packet(m.target, q, IHave([k]));
    assert IsAnnouncement(reply, m.target, net.links[m.target], m.source, k);
    assert reply in Announcements(m.target, net.links[m.target], m.source, k);
    assert Carries(reply, m.target, q, k);
  }

  lemma PendingMoves(net: Net, step: Step, p: Peer, q: Peer, k: Key)
    requires Valid(net) && Enabled(net, step) && step.Deliver?
    requires Pending(Reaction(net, net.flight[step.index], step.wants), p, q, k)
    ensures Pending(Apply(net, step).flight, p, q, k)
  {
    hide Integrity, Reaction, Carries, Apply;
    var m :| m in Reaction(net, net.flight[step.index], step.wants) && Carries(m, p, q, k);
    FlightAfter(net, step, m);
  }

  /** A debt to `q` that stood before the delivery stands, has moved on, or is settled. */
  lemma OldDebt(net: Net, step: Step, r: Row, p: Peer, q: Peer)
    requires Inv(net, r) && Enabled(net, step) && step.Deliver?
    requires p in net.stores && q in net.stores && p in net.links && q in net.links[p]
    requires r.Ref() in net.stores[p] && r.Ref() !in net.stores[q]
    ensures Paid(Apply(net, step), p, q, r.Ref())
  {
    hide Valid, Reaction, Apply, StoreRemote, Welcome, SendersHave, SplitsMissing;
    var k, m := r.Ref(), net.flight[step.index];
    assert Paid(net, p, q, k);
    var m0 :| m0 in net.flight && Carries(m0, p, q, k);
    if m0 != m {
      FlightAfter(net, step, m0);
    } else if m.body.IHave? {
      AnnouncementIsAnswered(net, m, step.wants, p, q, k);
      PendingMoves(net, step, p, q, k);
    } else if m.body.IWant? {
      RequestIsAnswered(net, m, step.wants, p, q, k);
      PendingMoves(net, step, p, q, k);
    } else {
      ObjectArrives(net, step, r);
    }
  }

  lemma ObjectArrives(net: Net, step: Step, r: Row)
    requires Inv(net, r) && Enabled(net, step) && step.Deliver?
    requires var m := net.flight[step.index]; m.body.ObjectMessage? && m.body.row.Ref() == r.Ref()
    ensures net.flight[step.index].target in Apply(net, step).stores
    ensures r.Ref() in Apply(net, step).stores[net.flight[step.index].target]
  {
    hide Integrity, StoreRemote, SendersHave, AllPaid, Reaction;
    var m := net.flight[step.index];
    assert m in net.flight && Compatible(m.body.row, r);
    WelcomeIsStored(net.stores[m.target], r);
  }

  lemma StepKeepsPaid(net: Net, step: Step, r: Row, p: Peer, q: Peer)
    requires Inv(net, r) && Enabled(net, step) && step.Deliver?
    ensures Paid(Apply(net, step), p, q, r.Ref())
  {
    hide Valid, Reaction, Apply, StoreRemote, Welcome, Pending, Enabled;
    var net', k := Apply(net, step), r.Ref();
    SameKeys(net, step);
    if p in net.stores && q in net.stores && p in net.links && q in net.links[p] {
      StoresGrow(net, step, p);
      StoresGrow(net, step, q);
      if k in net.stores[p] {
        if k !in net.stores[q] {
          OldDebt(net, step, r, p, q);
        }
      } else if k in net'.stores[p] {
        EnabledEnds(net, step);
        var m := net.flight[step.index];
        assert m in net.flight;
        if q != m.source {
          StoringAnnounces(net, m, step.wants, q);
          PendingMoves(net, step, p, q, k);
        }
      }
    }
  }

  lemma DeliveryKeepsInv(net: Net, step: Step, r: Row)
    requires Inv(net, r) && Enabled(net, step) && step.Deliver?
    ensures Inv(Apply(net, step), r)
  {
    hide Valid, Welcome, SendersHave, Enabled, Apply, Paid;
    StepKeepsValid(net, step);
    StepKeepsWelcome(net, step, r);
    forall p, q ensures Paid(Apply(net, step), p, q, r.Ref()) {
      StepKeepsPaid(net, step, r, p, q);
    }
  }

  // --- the result ------------------------------------------------------------------------

  /** The message is about the object: it brings, announces or requests it. */
  predicate Names(m: Packet, k: Key) {
    match m.body
    case ObjectMessage(r) => r.Ref() == k
    case IHave(items) => k in items
    case IWant(items) => k in items
  }

  /** A step that does not lose a message about the object. */
  ghost predicate Spares(net: Net, step: Step, k: Key) {
    step.Deliver? || (step.index < |net.flight| && !Names(net.flight[step.index], k))
  }

  /** No message about the object is lost; others may be. */
  ghost predicate NothingLost(nets: seq<Net>, steps: seq<Step>, k: Key) {
    |nets| == |steps| + 1 && forall i :: 0 <= i < |steps| ==> Spares(nets[i], steps[i], k)
  }

  /** No message about the object is under way. */
  predicate Quiet(flight: seq<Packet>, k: Key) { forall m :: m in flight ==> !Names(m, k) }

  lemma LossKeepsInv(net: Net, step: Step, r: Row)
    requires Inv(net, r) && Enabled(net, step) && step.Lose? && Spares(net, step, r.Ref())
    ensures Inv(Apply(net, step), r)
  {
    hide Valid, Integrity, Compatible, Resolves;
    StepKeepsValid(net, step);
    var net', k := Apply(net, step), r.Ref();
    StepKeepsWelcome(net, step, r);
    forall p, q ensures Paid(net', p, q, k) {
      assert Paid(net, p, q, k);
      if m :| m in net.flight && Carries(m, p, q, k) {
        FlightAfter(net, step, m);
      }
    }
  }

  lemma StepKeepsInv(net: Net, step: Step, r: Row)
    requires Inv(net, r) && Enabled(net, step) && Spares(net, step, r.Ref())
    ensures Inv(Apply(net, step), r)
  {
    hide Inv, Enabled, Apply;
    if step.Deliver? {
      DeliveryKeepsInv(net, step, r);
    } else {
      LossKeepsInv(net, step, r);
    }
  }

  lemma {:induction false} RunKeepsInv(nets: seq<Net>, steps: seq<Step>, r: Row, i: nat)
    requires IsRun(nets, steps) && NothingLost(nets, steps, r.Ref()) && Inv(nets[0], r) && i < |nets|
    ensures Inv(nets[i], r) && nets[i].links == nets[0].links
    ensures nets[i].stores.Keys == nets[0].stores.Keys
    ensures forall p, k :: p in nets[0].stores && k in nets[0].stores[p] ==> k in nets[i].stores[p]
  {
    hide Valid, Enabled, Apply, Inv;
    if i > 0 {
      RunKeepsInv(nets, steps, r, i - 1);
      var net, step := nets[i - 1], steps[i - 1];
      assert StepTo(net, step, nets[i]) && Spares(net, step, r.Ref());
      StepKeepsInv(net, step, r);
      SameKeys(net, step);
      forall p | p in nets[0].stores ensures forall k :: k in nets[0].stores[p] ==> k in nets[i].stores[p] {
        StoresGrow(net, step, p);
      }
    }
  }

  /** A chain of connections. */
  ghost predicate IsPath(net: Net, path: seq<Peer>) {
    && path != [] && (forall i :: 0 <= i < |path| ==> path[i] in net.links)
    && forall i :: 0 <= i < |path| - 1 ==> path[i + 1] in net.links[path[i]]
  }

  lemma {:induction false} QuietMeansEverywhere(net: Net, r: Row, path: seq<Peer>)
    requires Inv(net, r) && Quiet(net.flight, r.Ref()) && IsPath(net, path)
    requires path[0] in net.stores && r.Ref() in net.stores[path[0]]
    ensures path[|path| - 1] in net.stores && r.Ref() in net.stores[path[|path| - 1]]
    decreases |path|
  {
    hide Welcome, SendersHave, Integrity;
    if |path| > 1 {
      var init := path[..|path| - 1];
      QuietMeansEverywhere(net, r, init);
      var p, q := path[|path| - 2], path[|path| - 1];
      assert q in net.links[p];
      assert Paid(net, p, q, r.Ref());
    }
  }

  /**
   A published object that no store has reason to refuse is, when every message about it has
   been delivered and none is under way any more, at every peer that a chain of connections
   leads to, whatever else the peers have exchanged in the meantime.
   */
  lemma PublicationReachesAll(nets: seq<Net>, steps: seq<Step>, creator: Peer, r: Row, path: seq<Peer>)
    requires IsRun(nets, steps) && NothingLost(nets, steps, r.Ref()) && Published(nets[0], creator, r)
    requires Quiet(nets[|steps|].flight, r.Ref())
    requires IsPath(nets[0], path) && path[0] == creator
    ensures path[|path| - 1] in nets[|steps|].stores
    ensures r.Ref() in nets[|steps|].stores[path[|path| - 1]]
  {
    hide Inv, Valid, IsRun, Welcome, Quiet, NothingLost;
    RunLength(nets, steps);
    PublishedHolds(nets[0], creator, r);
    RunKeepsInv(nets, steps, r, |steps|);
    QuietMeansEverywhere(nets[|steps|], r, path);
  }

  lemma RunLength(nets: seq<Net>, steps: seq<Step>)
    requires IsRun(nets, steps)
    ensures |nets| == |steps| + 1
  {}

  /** A new issue is welcome everywhere; nothing can be in its way. */
  lemma NewIssuesAreWelcome(net: Net, r: Row)
    requires Valid(net) && r.Issue?
    requires forall p :: p in net.stores && r.Ref() in net.stores[p] ==> net.stores[p][r.Ref()] == r
    requires forall m :: m in net.flight && m.body.ObjectMessage? && m.body.row.Ref() == r.Ref() ==> m.body.row == r
    ensures Welcome(net, r)
  {
    forall p, k | p in net.stores && k in net.stores[p] ensures Compatible(net.stores[p][k], r) {
      IntegrityKeys(net.stores[p], k);
    }
  }

  /** Two connected peers, one of which has just broadcast an issue while another one is still on its way. */
  lemma NewIssueIsPublished(p: Peer, q: Peer, r: Row, r': Row)
    requires p != q && r.Issue? && r'.Issue? && r'.id != r.id
    ensures var stores: map<Peer, Tables> := map[p := map[r.Ref() := r, r'.Ref() := r'], q := map[]];
      var flight := Broadcast(p, [q], r') + Broadcast(p, [q], r);
      Published(Net(stores, map[p := [q], q := [p]], flight), p, r)
  {
    var stores: map<Peer, Tables> := map[p := map[r.Ref() := r, r'.Ref() := r'], q := map[]];
    var net := Net(stores, map[p := [q], q := [p]], Broadcast(p, [q], r') + Broadcast(p, [q], r));
    assert net.flight == [Packet(p, q, ObjectMessage(r')), Packet(p, q, ObjectMessage(r))];
    hide Integrity, Welcome, Valid;
    IssuesAreSound(stores[p]);
    IssuesAreSound(stores[q]);
    TwoPeersAreValid(net, p, q);
    NewIssuesAreWelcome(net, r);
  }

  lemma TwoPeersAreValid(net: Net, p: Peer, q: Peer)
    requires p != q && net.stores.Keys == {p, q} && net.links == map[p := [q], q := [p]]
    requires Integrity(net.stores[p]) && Integrity(net.stores[q])
    requires forall m :: m in net.flight ==> m.source == p && m.target == q
    ensures Valid(net)
  {
    hide Integrity;
  }

  lemma IssuesAreSound(t: Tables)
    requires forall k :: k in t ==> t[k].Issue? && t[k].Ref() == k
    ensures Integrity(t)
  {}
}
