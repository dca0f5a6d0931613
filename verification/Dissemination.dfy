/**
 The messages set off by a publication: every delivery may cause requests, objects and further
 announcements. The cascade ends, and when it does every connected peer has the object.
 */
module Dissemination {
  import opened MapSums
  import opened Wrappers
  import opened FiniteSets
  import opened Schema
  import opened GossipItems
  import opened Replication

  type Peer = nat

  datatype Body = ObjectMessage(row: Row) | IHave(items: seq<Key>) | IWant(items: seq<Key>)

  datatype Packet = Packet(source: Peer, target: Peer, body: Body)

  /** Stores and connections of all peers, and what is under way between them. */
  datatype Net = Net(stores: map<Peer, Tables>, links: map<Peer, seq<Peer>>, flight: seq<Packet>)

  ghost predicate Distinct(peers: seq<Peer>) { forall i, j :: 0 <= i < j < |peers| ==> peers[i] != peers[j] }

  ghost predicate Valid(net: Net) {
    && net.links.Keys == net.stores.Keys
    && (forall p :: p in net.links ==> Distinct(net.links[p]) && forall q :: q in net.links[p] ==> q in net.stores)
    && (forall p :: p in net.stores ==> Integrity(net.stores[p]))
    && (forall m :: m in net.flight ==> m.source in net.stores && m.target in net.stores)
  }

  // --- reactions -------------------------------------------------------------------------

  /** Requests go back to the announcer, a batch each. */
  function Requests(me: Peer, announcer: Peer, wants: seq<seq<Key>>): (ms: seq<Packet>) {
    seq(|wants|, i requires 0 <= i < |wants| => Packet(me, announcer, IWant(wants[i])))
  }

  function Answers(me: Peer, asker: Peer, rows: seq<Row>): (ms: seq<Packet>) {
    seq(|rows|, i requires 0 <= i < |rows| => Packet(me, asker, ObjectMessage(rows[i])))
  }

  /** A newly stored object is announced to all connected peers but the one it came from. */
  function Announcements(me: Peer, peers: seq<Peer>, skip: Peer, k: Key): (ms: seq<Packet>) {
    if peers == [] then []
    else
      Announcements(me, peers[..|peers| - 1], skip, k)
      + if peers[|peers| - 1] == skip then [] else [Packet(me, peers[|peers| - 1], IHave([k]))]
  }

  datatype Step = Deliver(index: nat, wants: seq<seq<Key>>) | Lose(index: nat)

  /** Requested batches are some split of what is missing. */
  ghost predicate Enabled(net: Net, step: Step) {
    && step.index < |net.flight|
    && net.flight[step.index].source in net.stores
    && net.flight[step.index].target in net.stores
    && (step.Deliver? && net.flight[step.index].body.IHave? ==>
          SplitsMissing(net.stores[net.flight[step.index].target], net.flight[step.index].body.items, step.wants))
  }

  ghost predicate SplitsMissing(t: Tables, items: seq<Key>, wants: seq<seq<Key>>) {
    && Flatten(wants) == Canonical(set k | k in items && k !in t)
    && forall i :: 0 <= i < |wants| ==> IsBatch(wants[i])
  }

  function Without(flight: seq<Packet>, index: nat): seq<Packet>
    requires index < |flight|
  {
    flight[..index] + flight[index + 1..]
  }

  /** The receiver's store after a packet. */
  function StoreAfter(t: Tables, m: Packet): Tables {
    if m.body.ObjectMessage? then StoreRemote(t, m.body.row).0 else t
  }

  /** What the receiver sends on a packet. */
  function Reaction(net: Net, m: Packet, wants: seq<seq<Key>>): seq<Packet>
    requires m.target in net.stores && m.target in net.links
  {
    match m.body
    case IHave(_) => Requests(m.target, m.source, wants)
    case IWant(items) => Answers(m.target, m.source, Served(net.stores[m.target], items))
    case ObjectMessage(r) =>
      if StoreRemote(net.stores[m.target], r).1 == Stored
      then Announcements(m.target, net.links[m.target], m.source, r.Ref())
      else []
  }

  ghost function Apply(net: Net, step: Step): Net
    requires Valid(net) && Enabled(net, step)
  {
    var m := net.flight[step.index];
    match step
    case Lose(i) => net.(flight := Without(net.flight, i))
    case Deliver(i, wants) =>
      net.(stores := net.stores[m.target := StoreAfter(net.stores[m.target], m)],
           flight := Without(net.flight, i) + Reaction(net, m, wants))
  }

  lemma ReactionBelongs(net: Net, m: Packet, wants: seq<seq<Key>>)
    requires Valid(net) && m.source in net.stores && m.target in net.stores
    ensures forall r :: r in Reaction(net, m, wants) ==> r.source == m.target && r.target in net.stores
  {
    if m.body.ObjectMessage? {
      AnnouncementsHold(m.target, net.links[m.target], m.source, m.body.row.Ref());
    }
  }

  predicate IsAnnouncement(r: Packet, me: Peer, peers: seq<Peer>, skip: Peer, k: Key) {
    r.source == me && r.target in peers && r.target != skip && r.body == IHave([k])
  }

  lemma {:induction false} AnnouncementsHold(me: Peer, peers: seq<Peer>, skip: Peer, k: Key)
    ensures forall r :: r in Announcements(me, peers, skip, k) <==> IsAnnouncement(r, me, peers, skip, k)
  {
    if peers != [] {
      var init, last := peers[..|peers| - 1], peers[|peers| - 1];
      AnnouncementsHold(me, init, skip, k);
      assert peers == init + [last];
    }
  }

  lemma {:induction false} AnnouncedOnce(me: Peer, peers: seq<Peer>, skip: Peer, k: Key)
    requires Distinct(peers)
    ensures |Announcements(me, peers, skip, k)| == |peers| - if skip in peers then 1 else 0
  {
    if peers != [] {
      var init, last := peers[..|peers| - 1], peers[|peers| - 1];
      AnnouncedOnce(me, init, skip, k);
      assert peers == init + [last];
      assert last !in init;
    }
  }

  /**
   A peer that has stored an object tells every connected peer but the one it came from, once
   and nothing else; about an object it has not stored it tells nobody. An announcement is
   answered with the requested batches and a request with the stored ones of its objects.
   */
  lemma ReactsExactly(net: Net, m: Packet, wants: seq<seq<Key>>, r: Packet)
    requires Valid(net) && m.target in net.stores
    ensures m.body.ObjectMessage? ==>
      var t, peers, k := net.stores[m.target], net.links[m.target], m.body.row.Ref();
      if StoreRemote(t, m.body.row).1 == Stored then
        && (r in Reaction(net, m, wants) <==>
              r.source == m.target && r.target in peers && r.target != m.source && r.body == IHave([k]))
        && |Reaction(net, m, wants)| == |peers| - if m.source in peers then 1 else 0
      else Reaction(net, m, wants) == []
    ensures m.body.IHave? ==>
      && |Reaction(net, m, wants)| == |wants|
      && forall i :: 0 <= i < |wants| ==> Reaction(net, m, wants)[i] == Packet(m.target, m.source, IWant(wants[i]))
    ensures m.body.IWant? ==>
      (r in Reaction(net, m, wants) <==>
        && r.source == m.target && r.target == m.source && r.body.ObjectMessage?
        && r.body.row.Ref() in m.body.items && r.body.row.Ref() in net.stores[m.target]
        && net.stores[m.target][r.body.row.Ref()] == r.body.row)
  {
    hide StoreRemote, Integrity;
    match m.body
    case ObjectMessage(row) =>
      AnnouncementsHold(m.target, net.links[m.target], m.source, row.Ref());
      AnnouncedOnce(m.target, net.links[m.target], m.source, row.Ref());
    case IHave(_) =>
    case IWant(items) =>
      ServedAreThere(net.stores[m.target], items);
      var rows := Served(net.stores[m.target], items);
      if r.body.ObjectMessage? && r.body.row in rows && r.source == m.target && r.target == m.source {
        var i :| 0 <= i < |rows| && rows[i] == r.body.row;
        assert Answers(m.target, m.source, rows)[i] == r;
      }
  }

  lemma {:induction false} AnnouncementsWeigh(me: Peer, peers: seq<Peer>, skip: Peer, k: Key)
    ensures Weight(Announcements(me, peers, skip, k)) <= 3 * |peers|
  {
    if peers != [] {
      var init, last := peers[..|peers| - 1], peers[|peers| - 1];
      AnnouncementsWeigh(me, init, skip, k);
      var before := Announcements(me, init, skip, k);
      assert (before + [Packet(me, last, IHave([k]))])[..|before|] == before;
      assert before + [] == before;
    }
  }

  lemma StepKeepsValid(net: Net, step: Step)
    requires Valid(net) && Enabled(net, step)
    ensures Valid(Apply(net, step))
  {
    hide Integrity, StoreRemote, Distinct;
    var m, net' := net.flight[step.index], Apply(net, step);
    if step.Deliver? {
      ReactionBelongs(net, m, step.wants);
      if m.body.ObjectMessage? {
        StoreRemoteOutcome(net.stores[m.target], m.body.row);
      }
    }
  }

  // --- the measure -----------------------------------------------------------------------

  /** What a message can still cause, itself included, short of storing anything. */
  function BodyWeight(body: Body): (w: nat)
    ensures w >= 1
  {
    match body
    case ObjectMessage(_) => 1
    case IWant(items) => 1 + |items|
    case IHave(items) => 1 + 2 * |items|
  }

  function Weight(flight: seq<Packet>): nat {
    if flight == [] then 0 else Weight(flight[..|flight| - 1]) + BodyWeight(flight[|flight| - 1].body)
  }

  lemma {:induction false} WeightAppends(ms: seq<Packet>, more: seq<Packet>)
    ensures Weight(ms + more) == Weight(ms) + Weight(more)
  {
    if more == [] {
      assert ms + [] == ms;
    } else {
      var init := more[..|more| - 1];
      WeightAppends(ms, init);
      assert (ms + more)[..|ms + more| - 1] == ms + init;
    }
  }

  lemma WeightWithout(flight: seq<Packet>, index: nat)
    requires index < |flight|
    ensures Weight(flight) == Weight(Without(flight, index)) + BodyWeight(flight[index].body)
  {
    hide Weight;
    var front, back, m := flight[..index], flight[index + 1..], flight[index];
    assert flight == front + ([m] + back);
    WeightAppends(front, [m] + back);
    WeightAppends([m], back);
    WeightAppends(front, back);
    WeightOfOne(m);
  }

  lemma WeightOfOne(m: Packet)
    ensures Weight([m]) == BodyWeight(m.body)
  {
    assert [m][..0] == [];
  }

  lemma {:induction false} RequestsWeigh(me: Peer, announcer: Peer, wants: seq<seq<Key>>)
    requires forall i :: 0 <= i < |wants| ==> |wants[i]| > 0
    ensures Weight(Requests(me, announcer, wants)) <= 2 * |Flatten(wants)|
  {
    if wants != [] {
      var init := wants[..|wants| - 1];
      RequestsWeigh(me, announcer, init);
      var ms := Requests(me, announcer, wants);
      assert ms[..|ms| - 1] == Requests(me, announcer, init);
    }
  }

  lemma {:induction false} AnswersWeigh(me: Peer, asker: Peer, rows: seq<Row>)
    ensures Weight(Answers(me, asker, rows)) == |rows|
  {
    if rows != [] {
      var init := rows[..|rows| - 1];
      AnswersWeigh(me, asker, init);
      var ms := Answers(me, asker, rows);
      assert ms[..|ms| - 1] == Answers(me, asker, init);
    }
  }

  lemma {:induction false} ServedIsNoMore(t: Tables, items: seq<Key>)
    ensures |Served(t, items)| <= |items|
  {
    if items != [] {
      ServedIsNoMore(t, items[..|items| - 1]);
    }
  }

  lemma MissingIsNoMore(items: seq<Key>, missing: set<Key>)
    requires missing <= set k | k in items
    ensures |missing| <= |items|
  {
    AtMostLength(items);
    SubsetIsSmaller(missing, set k | k in items);
  }

  lemma {:induction false} DistinctIsNoMore(peers: seq<Peer>, all: set<Peer>)
    requires Distinct(peers) && forall q :: q in peers ==> q in all
    ensures |peers| <= |all|
  {
    if peers != [] {
      var init, last := peers[..|peers| - 1], peers[|peers| - 1];
      forall q | q in init ensures q in all - {last} {
        assert q in peers;
      }
      DistinctIsNoMore(init, all - {last});
    }
  }

  /** Without a new object stored, a reaction weighs less than what caused it. */
  lemma ReactionIsLighter(net: Net, step: Step)
    requires Valid(net) && Enabled(net, step) && step.Deliver?
    requires var m := net.flight[step.index];
      m.body.ObjectMessage? ==> StoreRemote(net.stores[m.target], m.body.row).1 != Stored
    ensures Weight(Reaction(net, net.flight[step.index], step.wants)) < BodyWeight(net.flight[step.index].body)
  {
    hide StoreRemote, Valid, Weight;
    var m := net.flight[step.index];
    match m.body
    case ObjectMessage(_) =>
      NothingWeighs();
    case IWant(items) =>
      var rows := Served(net.stores[m.target], items);
      AnswersWeigh(m.target, m.source, rows);
      ServedIsNoMore(net.stores[m.target], items);
    case IHave(items) =>
      RequestsWeigh(m.target, m.source, step.wants);
      MissingIsNoMore(items, set k | k in items && k !in net.stores[m.target]);
  }

  lemma NothingWeighs()
    ensures Weight([]) == 0
  {}

  /** The objects of the universe a store misses. */
  ghost function MissingFrom(universe: set<Key>): Tables -> real {
    (t: Tables) => |universe - t.Keys| as real
  }

  ghost function MissingTotal(net: Net, universe: set<Key>): real { MapSum(net.stores, MissingFrom(universe)) }

  /** Only objects of the universe are stored or sent. */
  ghost predicate Within(net: Net, universe: set<Key>) {
    && (forall p :: p in net.stores ==> net.stores[p].Keys <= universe)
    && (forall m :: m in net.flight && m.body.ObjectMessage? ==> m.body.row.Ref() in universe)
  }

  lemma StepKeepsWithin(net: Net, step: Step, universe: set<Key>)
    requires Valid(net) && Enabled(net, step) && Within(net, universe)
    ensures Within(Apply(net, step), universe)
  {
    hide Integrity, Distinct;
    var m, net' := net.flight[step.index], Apply(net, step);
    if step.Deliver? {
      var t := net.stores[m.target];
      if m.body.ObjectMessage? {
        hide StoreRemote;
        StoreRemoteOutcome(t, m.body.row);
        AnnouncementsHold(m.target, net.links[m.target], m.source, m.body.row.Ref());
      } else if m.body.IWant? {
        ServedAreThere(t, m.body.items);
      }
    }
  }

  lemma ServedAreThere(t: Tables, items: seq<Key>)
    requires Integrity(t)
    ensures forall r :: r in Served(t, items) <==> r.Ref() in items && r.Ref() in t && t[r.Ref()] == r
  {
    ServedAreStored(t, items);
  }

  lemma {:induction false} ServedAreStored(t: Tables, items: seq<Key>)
    requires WellKeyed(t)
    ensures forall r :: r in Served(t, items) <==> r.Ref() in items && r.Ref() in t && t[r.Ref()] == r
  {
    if items != [] {
      var init, last := items[..|items| - 1], items[|items| - 1];
      ServedAreStored(t, init);
      assert items == init + [last];
    }
  }

  /**
   Every delivery lowers the pair (objects missing anywhere, weight in flight): either something
   missing is stored, or nothing is stored and the weight falls.
   */
  lemma StepLowersMeasure(net: Net, step: Step, universe: set<Key>)
    requires Valid(net) && Enabled(net, step) && Within(net, universe)
    ensures var net' := Apply(net, step);
      || (MissingTotal(net', universe) == MissingTotal(net, universe) - 1.0
          && Weight(net'.flight) < Weight(net.flight) + 3 * |net.stores|)
      || (net'.stores == net.stores && Weight(net'.flight) < Weight(net.flight))
  {
    hide Integrity, StoreRemote, Weight, MapSum, BodyWeight, Distinct;
    var m, net' := net.flight[step.index], Apply(net, step);
    WeightWithout(net.flight, step.index);
    if step.Deliver? {
      var t, reaction := net.stores[m.target], Reaction(net, m, step.wants);
      WeightAppends(Without(net.flight, step.index), reaction);
      if m.body.ObjectMessage? && StoreRemote(t, m.body.row).1 == Stored {
        StoreRemoteOutcome(t, m.body.row);
        AnnouncementsWeigh(m.target, net.links[m.target], m.source, m.body.row.Ref());
        DistinctIsNoMore(net.links[m.target], net.stores.Keys);
        StoringLowersMissing(net.stores, m.target, m.body.row, universe);
      } else {
        ReactionIsLighter(net, step);
        if m.body.ObjectMessage? {
          StoreRemoteOutcome(t, m.body.row);
        }
        assert net'.stores == net.stores;
      }
    }
  }

  lemma StoringLowersMissing(stores: map<Peer, Tables>, p: Peer, r: Row, universe: set<Key>)
    requires p in stores && r.Ref() in universe && r.Ref() !in stores[p]
    ensures MapSum(stores[p := stores[p][r.Ref() := r]], MissingFrom(universe))
         == MapSum(stores, MissingFrom(universe)) - 1.0
  {
    hide MapSum;
    var t := stores[p];
    var t' := t[r.Ref() := r];
    MapSumTake(stores, MissingFrom(universe), p);
    MapSumPut(stores, MissingFrom(universe), p, t');
    OneLessMissing(universe, t.Keys, r.Ref());
    assert t'.Keys == t.Keys + {r.Ref()};
  }

  lemma OneLessMissing(universe: set<Key>, keys: set<Key>, k: Key)
    requires k in universe && k !in keys
    ensures |universe - (keys + {k})| == |universe - keys| - 1
  {
    assert universe - keys == (universe - (keys + {k})) + {k};
  }

  // --- termination -----------------------------------------------------------------------

  ghost function Potential(net: Net, universe: set<Key>): real {
    MissingTotal(net, universe) * (3 * |net.stores| + 1) as real + Weight(net.flight) as real
  }

  ghost predicate StepTo(net: Net, step: Step, net': Net) {
    Valid(net) && Enabled(net, step) && net' == Apply(net, step)
  }

  ghost predicate IsRun(nets: seq<Net>, steps: seq<Step>) {
    && |nets| == |steps| + 1
    && Valid(nets[0])
    && forall i :: 0 <= i < |steps| ==> StepTo(nets[i], steps[i], nets[i + 1])
  }

  lemma StepLowersPotential(net: Net, step: Step, universe: set<Key>)
    requires Valid(net) && Enabled(net, step) && Within(net, universe)
    ensures Potential(Apply(net, step), universe) <= Potential(net, universe) - 1.0
  {
    hide Weight, MissingTotal;
    var net' := Apply(net, step);
    StepLowersMeasure(net, step, universe);
    assert net'.stores.Keys == net.stores.Keys;
    assert |net'.stores| == |net.stores| by { SameSize(net'.stores, net.stores); }
    var x, c := MissingTotal(net, universe), (3 * |net.stores| + 1) as real;
    assert (x - 1.0) * c == x * c - c;
    if net'.stores == net.stores {
      assert MissingTotal(net', universe) == MissingTotal(net, universe) by { SameMissing(net, net', universe); }
    }
  }

  lemma SameSize<K, V>(m: map<K, V>, m': map<K, V>)
    requires m.Keys == m'.Keys
    ensures |m| == |m'|
  {
    assert |m| == |m.Keys| && |m'| == |m'.Keys|;
  }

  lemma SameMissing(net: Net, net': Net, universe: set<Key>)
    requires net'.stores == net.stores
    ensures MissingTotal(net', universe) == MissingTotal(net, universe)
  {}

  /**
   With finitely many peers and objects the cascade ends: no run of deliveries and losses is
   longer than the potential of the state it starts from.
   */
  lemma {:induction false} CascadeEnds(nets: seq<Net>, steps: seq<Step>, universe: set<Key>)
    requires IsRun(nets, steps) && Within(nets[0], universe)
    ensures |steps| as real <= Potential(nets[0], universe)
    decreases |steps|
  {
    hide Valid, Enabled, Apply, Within, Potential;
    if steps == [] {
      PotentialNonNegative(nets[0], universe);
    } else {
      assert StepTo(nets[0], steps[0], nets[1]);
      StepKeepsValid(nets[0], steps[0]);
      StepKeepsWithin(nets[0], steps[0], universe);
      StepLowersPotential(nets[0], steps[0], universe);
      RunTail(nets, steps);
      CascadeEnds(nets[1..], steps[1..], universe);
    }
  }

  lemma RunTail(nets: seq<Net>, steps: seq<Step>)
    requires IsRun(nets, steps) && steps != [] && Valid(nets[1])
    ensures IsRun(nets[1..], steps[1..])
  {
    hide Valid, Enabled, Apply, StepTo;
    forall i | 0 <= i < |steps[1..]| ensures StepTo(nets[1..][i], steps[1..][i], nets[1..][i + 1]) {
      assert StepTo(nets[i + 1], steps[i + 1], nets[i + 2]);
    }
  }

  lemma PotentialNonNegative(net: Net, universe: set<Key>)
    ensures 0.0 <= Potential(net, universe)
  {
    hide Weight, MissingTotal;
    MissingNonNegative(net, universe);
    ProductNonNegative(MissingTotal(net, universe), (3 * |net.stores| + 1) as real);
  }

  lemma MissingNonNegative(net: Net, universe: set<Key>)
    ensures 0.0 <= MissingTotal(net, universe)
  {
    hide MapSum;
    MapSumNonNegative(net.stores, MissingFrom(universe));
  }

  lemma ProductNonNegative(x: real, y: real)
    requires 0.0 <= x && 0.0 <= y
    ensures 0.0 <= x * y
  {}
}
