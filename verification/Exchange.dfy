/**
 One complete exchange from a peer A to a peer B: A announces its inventory, B asks for what
 it misses, A sends it, all delivered in order. The outcome is described without the protocol:
 which rows land depends on the two stores only.
 */
module Exchange {
  import opened Wrappers
  import opened Schema
  import opened GossipItems
  import opened Replication

  // --- the protocol ----------------------------------------------------------------------

  /** Object messages handled one after the other. */
  function Receive(t: Tables, rows: seq<Row>): Tables {
    if rows == [] then t else StoreRemote(Receive(t, rows[..|rows| - 1]), rows[|rows| - 1]).0
  }

  /** What a peer asks for on hearing an announcement, in the order it asks. */
  function Wanted(t: Tables, items: seq<Key>): seq<Key> { Canonical(set k | k in items && k !in t) }

  /** Every announced batch is answered with requests, and these with objects, before the next. */
  function ExchangeInOrder(a: Tables, b: Tables, batches: seq<seq<Key>>): Tables {
    if batches == [] then b
    else
      var t := ExchangeInOrder(a, b, batches[..|batches| - 1]);
      Receive(t, Served(a, Wanted(t, batches[|batches| - 1])))
  }

  // --- the outcome -----------------------------------------------------------------------

  /** A row of `a` that ends up in the other store: known there, or free of clashes and under a row that lands. */
  ghost predicate Lands(a: Tables, b: Tables, k: Key)
    requires WellKeyed(a) && k in a
    decreases k.objectType.Number()
  {
    k in b
    || (!Clashes(b, a[k])
        && (a[k].Parent().Some? ==> a[k].Parent().value in a && Lands(a, b, a[k].Parent().value)))
  }

  ghost predicate LandsAmong(a: Tables, b: Tables, s: set<Key>, k: Key)
    requires WellKeyed(a)
  {
    k in b || (k in a && k in s && Lands(a, b, k))
  }

  /** `t` is `b` with those rows of `a` among `s` that land. */
  ghost predicate HasLanded(a: Tables, b: Tables, s: set<Key>, t: Tables)
    requires WellKeyed(a)
  {
    && (forall k :: k in t <==> LandsAmong(a, b, s, k))
    && (forall k :: k in t ==> t[k] == if k in b then b[k] else a[k])
  }

  lemma LandedClash(a: Tables, b: Tables, s: set<Key>, t: Tables, r: Row)
    requires Integrity(a) && HasLanded(a, b, s, t) && r.Ref() in a && a[r.Ref()] == r
    ensures Clashes(t, r) <==> Clashes(b, r)
  {
    assert !Clashes(a, r);
    if k :| k in t && k != r.Ref() && r.Unique().Some? && t[k].Unique() == r.Unique() {
      assert k in b;
    }
    if k :| k in b && k != r.Ref() && r.Unique().Some? && b[k].Unique() == r.Unique() {
      assert LandsAmong(a, b, s, k) && k in t;
    }
  }

  /** The items of `a` below `k` that matter have been dealt with when `k` comes up. */
  ghost predicate ParentDone(a: Tables, b: Tables, s: set<Key>, k: Key)
    requires k in a
  {
    var parent := a[k].Parent();
    parent.Some? ==> parent.value in a && (parent.value in b || parent.value in s)
  }

  lemma OneLands(a: Tables, b: Tables, s: set<Key>, t: Tables, k: Key)
    requires Integrity(a) && Integrity(t) && HasLanded(a, b, s, t)
    requires k in a && k !in s && ParentDone(a, b, s, k)
    ensures HasLanded(a, b, s + {k}, StoreRemote(t, a[k]).0)
    ensures Integrity(StoreRemote(t, a[k]).0)
  {
    hide Integrity, StoreRemote, Clashes;
    Keyed(a, k);
    var r := a[k];
    StoreRemoteOutcome(t, r);
    LandedClash(a, b, s, t, r);
    var parent := r.Parent();
    if parent.Some? {
      assert LandsAmong(a, b, s, parent.value) <==> Lands(a, b, parent.value);
    }
    assert k !in b ==> (Admits(t, r) <==> Lands(a, b, k));
    var t' := StoreRemote(t, r).0;
    forall j ensures j in t' <==> LandsAmong(a, b, s + {k}, j) {
      assert j in t <==> LandsAmong(a, b, s, j);
    }
  }

  lemma Keyed(t: Tables, k: Key)
    requires Integrity(t) && k in t
    ensures WellKeyed(t) && t[k].Ref() == k && Resolves(t, t[k]) && !Clashes(t, t[k])
  {}

  ghost function Elements(items: seq<Key>): set<Key> { set k | k in items }

  /** Items ascend and name every object of `a` that `b` misses. */
  ghost predicate CoversInOrder(a: Tables, b: Tables, items: seq<Key>) {
    Ascending(items) && forall k :: k in a && k !in b ==> k in items
  }

  lemma ParentIsDone(a: Tables, b: Tables, items: seq<Key>, n: nat)
    requires Integrity(a) && CoversInOrder(a, b, items) && n < |items| && items[n] in a
    ensures ParentDone(a, b, Elements(items[..n]), items[n])
  {
    hide Integrity;
    var k := items[n];
    Keyed(a, k);
    var parent := a[k].Parent();
    if parent.Some? && parent.value !in b {
      ParentsComeFirst(a[k]);
      assert Less(parent.value, k);
      var i :| 0 <= i < |items| && items[i] == parent.value;
      assert i < n;
      assert items[..n][i] == parent.value;
    }
  }

  lemma {:induction false} ServingLands(a: Tables, b: Tables, items: seq<Key>, n: nat)
    requires WellKeyed(a) && Integrity(a) && Integrity(b) && CoversInOrder(a, b, items) && n <= |items|
    ensures var t := Receive(b, Served(a, items[..n]));
      Integrity(t) && HasLanded(a, b, Elements(items[..n]), t)
  {
    hide Integrity, WellKeyed, StoreRemote, Lands, Elements, HasLanded, CoversInOrder;
    if n == 0 {
      NothingLands(a, b);
      assert items[..0] == [];
    } else {
      ServingLands(a, b, items, n - 1);
      ServingOneMore(a, b, items, n - 1);
    }
  }

  lemma NothingLands(a: Tables, b: Tables)
    requires WellKeyed(a)
    ensures HasLanded(a, b, Elements([]), b)
  {
    hide Lands;
  }

  lemma ServingOneMore(a: Tables, b: Tables, items: seq<Key>, n: nat)
    requires WellKeyed(a) && Integrity(a) && Integrity(b) && CoversInOrder(a, b, items) && n < |items|
    requires Integrity(Receive(b, Served(a, items[..n])))
    requires HasLanded(a, b, Elements(items[..n]), Receive(b, Served(a, items[..n])))
    ensures var t := Receive(b, Served(a, items[..n + 1]));
      Integrity(t) && HasLanded(a, b, Elements(items[..n + 1]), t)
  {
    hide Integrity, WellKeyed, StoreRemote, Lands, HasLanded;
    var k, s, rows := items[n], Elements(items[..n]), Served(a, items[..n]);
    assert items[..n + 1][..n] == items[..n];
    assert Elements(items[..n + 1]) == s + {k};
    if k in a {
      ParentIsDone(a, b, items, n);
      OneLands(a, b, s, Receive(b, rows), k);
      assert (rows + [a[k]])[..|rows|] == rows;
    } else {
      assert Served(a, items[..n + 1]) == rows + [] == rows;
      UnknownDoesNotLand(a, b, s, Receive(b, rows), k);
    }
  }

  lemma UnknownDoesNotLand(a: Tables, b: Tables, s: set<Key>, t: Tables, k: Key)
    requires WellKeyed(a) && HasLanded(a, b, s, t) && k !in a
    ensures HasLanded(a, b, s + {k}, t)
  {
    hide Lands;
    forall j ensures LandsAmong(a, b, s, j) <==> LandsAmong(a, b, s + {k}, j) {}
  }

  lemma Wellkeyed(t: Tables)
    requires Integrity(t)
    ensures WellKeyed(t)
  {}

  ghost predicate IsOutcome(a: Tables, b: Tables, t: Tables)
    requires WellKeyed(a)
  {
    HasLanded(a, b, a.Keys, t)
  }

  /** Objects sent in ascending order leave the same store, whichever known ones are sent along. */
  lemma InOrderLands(a: Tables, b: Tables, items: seq<Key>)
    requires Integrity(a) && Integrity(b) && CoversInOrder(a, b, items)
    ensures var t := Receive(b, Served(a, items)); Integrity(t) && WellKeyed(a) && IsOutcome(a, b, t)
  {
    hide Integrity, Lands;
    Wellkeyed(a);
    ServingLands(a, b, items, |items|);
    assert items[..|items|] == items;
    forall k ensures LandsAmong(a, b, Elements(items), k) <==> LandsAmong(a, b, a.Keys, k) {
      assert k in a && k !in b ==> k in items;
    }
  }

  // --- the whole exchange ----------------------------------------------------------------

  /** All that is asked for during an exchange, in order. */
  function Asked(a: Tables, b: Tables, batches: seq<seq<Key>>): seq<Key> {
    if batches == [] then []
    else
      var init := batches[..|batches| - 1];
      Asked(a, b, init) + Wanted(ExchangeInOrder(a, b, init), batches[|batches| - 1])
  }

  lemma {:induction false} ReceiveAppends(t: Tables, rows: seq<Row>, more: seq<Row>)
    ensures Receive(t, rows + more) == Receive(Receive(t, rows), more)
  {
    hide StoreRemote;
    if more == [] {
      assert rows + [] == rows;
    } else {
      var init := more[..|more| - 1];
      ReceiveAppends(t, rows, init);
      assert (rows + more)[..|rows + more| - 1] == rows + init;
    }
  }

  lemma {:induction false} ServedAppends(t: Tables, items: seq<Key>, more: seq<Key>)
    ensures Served(t, items + more) == Served(t, items) + Served(t, more)
  {
    if more == [] {
      assert items + [] == items;
    } else {
      var init := more[..|more| - 1];
      ServedAppends(t, items, init);
      assert (items + more)[..|items + more| - 1] == items + init;
    }
  }

  lemma StoringAddsNoOther(t: Tables, r: Row)
    ensures forall k :: k in StoreRemote(t, r).0 ==> k in t || k == r.Ref()
  {}

  lemma {:induction false} ReceiveAddsNoOther(a: Tables, t: Tables, items: seq<Key>)
    requires WellKeyed(a)
    ensures forall k :: k in Receive(t, Served(a, items)) ==> k in t || k in items
  {
    hide StoreRemote;
    if items != [] {
      var init, last := items[..|items| - 1], items[|items| - 1];
      ReceiveAddsNoOther(a, t, init);
      assert items == init + [last];
      var rows := Served(a, init);
      if last in a {
        assert (rows + [a[last]])[..|rows|] == rows;
        StoringAddsNoOther(Receive(t, rows), a[last]);
      } else {
        assert rows + [] == rows;
      }
    }
  }

  lemma AscendingParts(items: seq<Key>, more: seq<Key>, wanted: seq<Key>, asked: seq<Key>)
    requires Ascending(items + more) && Ascending(asked) && Ascending(wanted)
    requires forall k :: k in asked ==> k in items
    requires forall k :: k in wanted ==> k in more
    ensures Ascending(asked + wanted)
  {
    forall i, j | 0 <= i < |asked| && 0 <= j < |wanted| ensures Less(asked[i], wanted[j]) {
      assert asked[i] in items && wanted[j] in more;
      var i' :| 0 <= i' < |items| && items[i'] == asked[i];
      var j' :| 0 <= j' < |more| && more[j'] == wanted[j];
      assert (items + more)[i'] == asked[i] && (items + more)[|items| + j'] == wanted[j];
    }
  }

  lemma AscendingPrefix(items: seq<Key>, more: seq<Key>)
    requires Ascending(items + more)
    ensures Ascending(items)
    ensures forall k :: k in items ==> k !in more
  {
    forall i, j | 0 <= i < j < |items| ensures Less(items[i], items[j]) {
      assert (items + more)[i] == items[i] && (items + more)[j] == items[j];
    }
    forall i, j | 0 <= i < |items| && 0 <= j < |more| ensures items[i] != more[j] {
      assert Less((items + more)[i], (items + more)[|items| + j]);
    }
  }

  lemma {:induction false} AskedInOrder(a: Tables, b: Tables, batches: seq<seq<Key>>)
    requires WellKeyed(a) && Ascending(Flatten(batches))
    ensures ExchangeInOrder(a, b, batches) == Receive(b, Served(a, Asked(a, b, batches)))
    ensures Ascending(Asked(a, b, batches))
    ensures forall k :: k in Asked(a, b, batches) ==> k in Flatten(batches)
    ensures forall k :: k in Flatten(batches) && k !in b ==> k in Asked(a, b, batches)
  {
    hide StoreRemote, WellKeyed, Ascending;
    if batches == [] {
      assert Ascending([]) by { NothingAscends(); }
    } else {
      var init, last := batches[..|batches| - 1], batches[|batches| - 1];
      var t, asked := ExchangeInOrder(a, b, init), Asked(a, b, init);
      AscendingPrefix(Flatten(init), last);
      AskedInOrder(a, b, init);
      var wanted := Wanted(t, last);
      CanonicalHolds(set k | k in last && k !in t);
      ReceiveAddsNoOther(a, b, asked);
      ServedAppends(a, asked, wanted);
      ReceiveAppends(b, Served(a, asked), Served(a, wanted));
      AscendingParts(Flatten(init), last, wanted, asked);
    }
  }

  lemma NothingAscends()
    ensures Ascending([])
  {}

  /**
   However the inventory is split into batches, a complete exchange in order leaves B with its
   own rows and exactly those rows of A that land.
   */
  lemma ExchangeOutcome(a: Tables, b: Tables, batches: seq<seq<Key>>)
    requires Integrity(a) && Integrity(b) && Flatten(batches) == Canonical(a.Keys)
    ensures var t := ExchangeInOrder(a, b, batches); Integrity(t) && WellKeyed(a) && IsOutcome(a, b, t)
  {
    hide Integrity, IsOutcome, Lands;
    Wellkeyed(a);
    CanonicalHolds(a.Keys);
    AskedInOrder(a, b, batches);
    InOrderLands(a, b, Asked(a, b, batches));
  }

  /** Announcing everything before anything is asked for makes no difference. */
  lemma AnnouncingFirstIsTheSame(a: Tables, b: Tables, batches: seq<seq<Key>>)
    requires Integrity(a) && Integrity(b) && Flatten(batches) == Canonical(a.Keys)
    ensures Receive(b, Served(a, Wanted(b, Flatten(batches)))) == ExchangeInOrder(a, b, batches)
  {
    hide Integrity, Lands, LandsAmong;
    Wellkeyed(a);
    ExchangeOutcome(a, b, batches);
    CanonicalHolds(a.Keys);
    var wanted := Wanted(b, Flatten(batches));
    CanonicalHolds(set k | k in Flatten(batches) && k !in b);
    InOrderLands(a, b, wanted);
    SameOutcome(a, b, Receive(b, Served(a, wanted)), ExchangeInOrder(a, b, batches));
  }

  lemma SameOutcome(a: Tables, b: Tables, t: Tables, t': Tables)
    requires WellKeyed(a) && IsOutcome(a, b, t) && IsOutcome(a, b, t')
    ensures t == t'
  {
    hide LandsAmong;
    assert forall k :: k in t <==> k in t';
  }

  // --- what it means ---------------------------------------------------------------------

  /** Objects with the same id are the same. */
  ghost predicate SameContent(a: Tables, b: Tables) { forall k :: k in a && k in b ==> a[k] == b[k] }

  lemma OutcomeKeeps(a: Tables, b: Tables, t: Tables)
    requires WellKeyed(a) && IsOutcome(a, b, t)
    ensures forall k :: k in b ==> k in t && t[k] == b[k]
    ensures forall k :: k in t && k !in b ==> k in a && t[k] == a[k]
  {
    hide Lands;
    forall k | k in b ensures k in t && t[k] == b[k] {
      assert LandsAmong(a, b, a.Keys, k);
    }
    forall k | k in t && k !in b ensures k in a && t[k] == a[k] {
      assert LandsAmong(a, b, a.Keys, k);
    }
  }

  lemma OutcomeMember(a: Tables, b: Tables, t: Tables, k: Key)
    requires WellKeyed(a) && IsOutcome(a, b, t)
    ensures k in t <==> k in b || (k in a && Lands(a, b, k))
  {
    hide Lands;
    assert k in t <==> LandsAmong(a, b, a.Keys, k);
  }

  /** Issues and solutions always arrive. */
  lemma IssuesAndSolutionsArrive(a: Tables, b: Tables, t: Tables, k: Key)
    requires Integrity(a) && IsOutcome(a, b, t)
    requires k in a && (a[k].Issue? || a[k].Solution?)
    ensures k in t
  {
    TargetLands(a, b, k);
    OutcomeMember(a, b, t, k);
  }

  /** What decides over any row of A: whether its parent arrives and whether B has a row in its way. */
  lemma ArrivesUnlessClashing(a: Tables, b: Tables, t: Tables, k: Key)
    requires Integrity(a) && Integrity(b) && IsOutcome(a, b, t) && SameContent(a, b) && k in a
    ensures k in t <==> !Clashes(b, a[k]) && Resolves(t, a[k])
  {
    hide Integrity, IsOutcome, Clashes;
    Keyed(a, k);
    OutcomeMember(a, b, t, k);
    if a[k].Parent().Some? {
      OutcomeMember(a, b, t, a[k].Parent().value);
    }
    if k in b {
      Keyed(b, k);
    }
  }

  /** A campaign arrives exactly when B has no other one for its solution. */
  lemma CampaignsArrive(a: Tables, b: Tables, t: Tables, k: Key)
    requires Integrity(a) && Integrity(b) && IsOutcome(a, b, t) && SameContent(a, b)
    requires k in a && a[k].Campaign?
    ensures k in t <==> forall c :: c in b && b[c].Campaign? && b[c].solution == a[k].solution ==> c == k
  {
    hide Integrity, IsOutcome, Clashes, SameContent;
    ArrivesUnlessClashing(a, b, t, k);
    Keyed(a, k);
    Keyed(a, a[k].Parent().value);
    IssuesAndSolutionsArrive(a, b, t, a[k].Parent().value);
    CampaignClashes(b, a[k]);
  }

  lemma CampaignClashes(b: Tables, r: Row)
    requires r.Campaign?
    ensures Clashes(b, r) <==> exists c :: c in b && b[c].Campaign? && b[c].solution == r.solution && c != r.Ref()
  {
    if Clashes(b, r) {
      var c :| c in b && c != r.Ref() && b[c].Unique() == r.Unique();
      assert b[c].Campaign? && b[c].solution == r.solution;
    }
    if c :| c in b && b[c].Campaign? && b[c].solution == r.solution && c != r.Ref() {
      assert b[c].Unique() == r.Unique();
    }
  }

  /** Pledges of one outpoint to one campaign. */
  predicate SameOutpoint(r: Row, q: Row) {
    r.Pledge? && q.Pledge? && r.campaign == q.campaign && r.txid == q.txid && r.vout == q.vout
  }

  /** A pledge arrives exactly when its campaign does and B has no other pledge of its outpoint to it. */
  lemma PledgesArrive(a: Tables, b: Tables, t: Tables, k: Key)
    requires Integrity(a) && Integrity(b) && IsOutcome(a, b, t) && SameContent(a, b)
    requires k in a && a[k].Pledge?
    ensures k in t <==> (
      Key(CampaignType, a[k].campaign) in t
      && forall c :: c in b && SameOutpoint(b[c], a[k]) ==> c == k)
  {
    hide Integrity, IsOutcome, SameContent, Clashes;
    ArrivesUnlessClashing(a, b, t, k);
    Keyed(a, k);
    Wellkeyed(b);
    RulesMean(b, a[k]);
  }

  // --- votes -----------------------------------------------------------------------------

  /** Who has voted on what. */
  function VotePairs(t: Tables): set<(Key, Uuid)> {
    set k | k in t && t[k].IsVote() :: (t[k].Parent().value, t[k].voter)
  }

  predicate HasVote(t: Tables, target: Key, voter: Uuid) {
    exists k :: k in t && t[k].Unique() == Some(OneVote(target, voter))
  }

  lemma VotePairsHolds(t: Tables, target: Key, voter: Uuid)
    ensures (target, voter) in VotePairs(t) <==> HasVote(t, target, voter)
  {
    if (target, voter) in VotePairs(t) {
      var k :| k in t && t[k].IsVote() && (t[k].Parent().value, t[k].voter) == (target, voter);
      assert t[k].Unique() == Some(OneVote(target, voter));
    }
    if HasVote(t, target, voter) {
      var k :| k in t && t[k].Unique() == Some(OneVote(target, voter));
      assert t[k].IsVote() && (t[k].Parent().value, t[k].voter) == (target, voter);
    }
  }

  /** A vote of A arrives, or B already has one of the same voter on the same target. */
  lemma VoteIsThere(a: Tables, b: Tables, t: Tables, k: Key)
    requires Integrity(a) && IsOutcome(a, b, t) && SameContent(a, b)
    requires k in a && a[k].IsVote()
    ensures exists v :: v in t && t[v].Unique() == a[k].Unique()
  {
    hide Integrity, IsOutcome, Lands;
    Keyed(a, k);
    OutcomeKeeps(a, b, t);
    var target := a[k].Parent().value;
    Keyed(a, target);
    TargetLands(a, b, target);
    OutcomeMember(a, b, t, k);
    if Clashes(b, a[k]) {
      var v :| v in b && v != k && b[v].Unique() == a[k].Unique();
      assert v in t && t[v].Unique() == a[k].Unique();
    } else {
      VoteLands(a, b, k);
      assert t[k].Unique() == a[k].Unique();
    }
  }

  /** Issues and solutions land whatever B holds. */
  lemma {:induction false} TargetLands(a: Tables, b: Tables, k: Key)
    requires WellKeyed(a) && Integrity(a) && k in a && (a[k].Issue? || a[k].Solution?)
    ensures Lands(a, b, k)
    decreases k.objectType.Number()
  {
    hide Integrity;
    Keyed(a, k);
    if a[k].Solution? {
      Keyed(a, a[k].Parent().value);
      TargetLands(a, b, a[k].Parent().value);
    }
  }

  lemma VoteLands(a: Tables, b: Tables, k: Key)
    requires WellKeyed(a) && k in a && a[k].IsVote() && !Clashes(b, a[k])
    requires a[k].Parent().value in a && Lands(a, b, a[k].Parent().value)
    ensures Lands(a, b, k)
  {
    hide Clashes;
  }

  /** Afterwards B knows of exactly the votes either of the two knew of. */
  lemma ExchangeUnitesVotes(a: Tables, b: Tables, t: Tables)
    requires Integrity(a) && IsOutcome(a, b, t) && SameContent(a, b)
    ensures VotePairs(t) == VotePairs(a) + VotePairs(b)
  {
    hide Integrity, IsOutcome, VotePairs;
    Wellkeyed(a);
    OutcomeKeeps(a, b, t);
    forall pair: (Key, Uuid) ensures pair in VotePairs(t) <==> pair in VotePairs(a) + VotePairs(b) {
      var (target, voter) := pair;
      VotePairsHolds(a, target, voter);
      VotePairsHolds(b, target, voter);
      VotePairsHolds(t, target, voter);
      if k :| k in a && a[k].Unique() == Some(OneVote(target, voter)) {
        VoteIsThere(a, b, t, k);
      }
      if k :| k in b && b[k].Unique() == Some(OneVote(target, voter)) {
        assert t[k] == b[k];
      }
      if k :| k in t && t[k].Unique() == Some(OneVote(target, voter)) {
        assert k in b || k in a;
      }
    }
  }

  lemma VotersFromPairs(t: Tables, target: Key)
    ensures Voters(t, target) == set p | p in VotePairs(t) && p.0 == target :: p.1
  {
    var voters := set p | p in VotePairs(t) && p.0 == target :: p.1;
    forall u ensures u in Voters(t, target) <==> u in voters {
      if u in Voters(t, target) {
        var k :| k in VotesOn(t, target) && VoterOf(t, k) == u;
        assert (target, u) in VotePairs(t);
      }
      if u in voters {
        assert (target, u) in VotePairs(t);
        var k :| k in t && t[k].IsVote() && (t[k].Parent().value, t[k].voter) == (target, u);
        assert k in VotesOn(t, target);
      }
    }
  }

  /** Stores with the same votes show the same counts. */
  lemma SameVotesSameTallies(t: Tables, t': Tables, target: Key)
    requires Integrity(t) && Integrity(t') && VotePairs(t) == VotePairs(t')
    ensures VoteCount(t, target) == VoteCount(t', target)
  {
    hide Integrity, VoteCount, Voters, VotePairs;
    VoteCountIsVoters(t, target);
    VoteCountIsVoters(t', target);
    VotersFromPairs(t, target);
    VotersFromPairs(t', target);
  }

  lemma OutcomeIsSameContent(a: Tables, b: Tables, t: Tables)
    requires WellKeyed(a) && IsOutcome(a, b, t) && SameContent(a, b)
    ensures SameContent(t, a)
  {
    OutcomeKeeps(a, b, t);
  }

  /** An exchange there and then one back: both peers show the same tallies for everything. */
  lemma TwoWayExchangeEqualizesTallies(
      a: Tables, b: Tables, there: seq<seq<Key>>, back: seq<seq<Key>>, target: Key)
    requires Integrity(a) && Integrity(b) && SameContent(a, b)
    requires Flatten(there) == Canonical(a.Keys)
    requires Flatten(back) == Canonical(ExchangeInOrder(a, b, there).Keys)
    ensures var b' := ExchangeInOrder(a, b, there);
      var a' := ExchangeInOrder(b', a, back);
      && VotePairs(a') == VotePairs(b') == VotePairs(a) + VotePairs(b)
      && VoteCount(a', target) == VoteCount(b', target)
  {
    hide Integrity, IsOutcome, SameContent, VotePairs, VoteCount, ExchangeInOrder, WellKeyed;
    var b' := ExchangeInOrder(a, b, there);
    var a' := ExchangeInOrder(b', a, back);
    ExchangeOutcome(a, b, there);
    ExchangeUnitesVotes(a, b, b');
    OutcomeIsSameContent(a, b, b');
    ExchangeOutcome(b', a, back);
    ExchangeUnitesVotes(b', a, a');
    assert VotePairs(b') + VotePairs(a) == VotePairs(b');
    SameVotesSameTallies(a', b', target);
  }

  // --- without conflicts -----------------------------------------------------------------

  ghost predicate NoConflicts(a: Tables, b: Tables) { forall k :: k in a ==> !Clashes(b, a[k]) }

  lemma {:induction false} WithoutConflictsAllLand(a: Tables, b: Tables, k: Key)
    requires Integrity(a) && NoConflicts(a, b) && k in a
    ensures Lands(a, b, k)
    decreases k.objectType.Number()
  {
    Keyed(a, k);
    if a[k].Parent().Some? {
      ParentsComeFirst(a[k]);
      WithoutConflictsAllLand(a, b, a[k].Parent().value);
    }
  }

  /** Without uniqueness conflicts B ends up with the union of both stores. */
  lemma WithoutConflictsUnion(a: Tables, b: Tables, batches: seq<seq<Key>>)
    requires Integrity(a) && Integrity(b) && SameContent(a, b) && NoConflicts(a, b)
    requires Flatten(batches) == Canonical(a.Keys)
    ensures ExchangeInOrder(a, b, batches) == a + b
  {
    hide Lands, Integrity, IsOutcome, ExchangeInOrder, NoConflicts, SameContent, WellKeyed;
    ExchangeOutcome(a, b, batches);
    UnionOutcome(a, b, ExchangeInOrder(a, b, batches));
  }

  lemma UnionOutcome(a: Tables, b: Tables, t: Tables)
    requires Integrity(a) && IsOutcome(a, b, t) && SameContent(a, b) && NoConflicts(a, b)
    ensures t == a + b
  {
    hide Lands, Integrity, IsOutcome, NoConflicts;
    Wellkeyed(a);
    OutcomeKeeps(a, b, t);
    forall k ensures k in t <==> k in a || k in b {
      OutcomeMember(a, b, t, k);
      if k in a {
        WithoutConflictsAllLand(a, b, k);
      }
    }
  }

  /** The order matters: a solution that arrives before its issue is lost. */
  lemma OutOfOrderLoses(issue: Row, solution: Row)
    requires issue.Issue? && solution.Solution? && solution.issue == issue.id
    ensures solution.Ref() !in Receive(map[], [solution, issue])
    ensures solution.Ref() in Receive(map[], [issue, solution])
  {
    assert [solution, issue][..1] == [solution] && [issue, solution][..1] == [issue];
    assert [solution][..0] == [] && [issue][..0] == [];
    assert Receive(map[], [solution]) == StoreRemote(map[], solution).0 == map[];
    assert Receive(map[], [issue]) == StoreRemote(map[], issue).0 == map[issue.Ref() := issue];
  }

  // --- rivals ----------------------------------------------------------------------------

  lemma {:induction false} LandsLater(a: Tables, b: Tables, t: Tables, k: Key)
    requires WellKeyed(a) && IsOutcome(a, b, t) && k in a && Lands(a, t, k)
    ensures Lands(a, b, k)
    decreases k.objectType.Number()
  {
    hide IsOutcome, Clashes;
    if k in t {
      ThereIsLanded(a, b, t, k);
    } else {
      OutcomeKeeps(a, b, t);
      FewerClashes(b, t, a[k]);
      if a[k].Parent().Some? {
        LandsLater(a, b, t, a[k].Parent().value);
      }
    }
  }

  lemma ThereIsLanded(a: Tables, b: Tables, t: Tables, k: Key)
    requires WellKeyed(a) && IsOutcome(a, b, t) && k in a && k in t
    ensures Lands(a, b, k)
  {
    hide IsOutcome;
    OutcomeMember(a, b, t, k);
  }

  lemma FewerClashes(b: Tables, t: Tables, r: Row)
    requires forall k :: k in b ==> k in t && t[k] == b[k]
    ensures Clashes(b, r) ==> Clashes(t, r)
  {}

  /** Repeating an exchange never helps: what it did not bring the first time it never brings. */
  lemma RepeatingChangesNothing(a: Tables, b: Tables, t: Tables, u: Tables)
    requires Integrity(a) && IsOutcome(a, b, t) && IsOutcome(a, t, u)
    ensures u == t
  {
    hide IsOutcome, Lands;
    OutcomeKeeps(a, t, u);
    forall k ensures k in u <==> k in t {
      OutcomeMember(a, t, u, k);
      if k in a && Lands(a, t, k) {
        LandsLater(a, b, t, k);
        OutcomeMember(a, b, t, k);
      }
    }
  }

  /** Two peers after `n` rounds of an exchange there and one back. */
  function Rounds(a: Tables, b: Tables, n: nat): (Tables, Tables) {
    if n == 0 then (a, b)
    else
      var (x, y) := Rounds(a, b, n - 1);
      var y' := ExchangeInOrder(x, y, [Canonical(x.Keys)]);
      (ExchangeInOrder(y', x, [Canonical(y'.Keys)]), y')
  }

  predicate IsCampaignFor(t: Tables, k: Key, solution: Uuid) {
    k in t && t[k].Campaign? && t[k].solution == solution
  }

  lemma RivalStays(a: Tables, b: Tables, t: Tables, k: Key, solution: Uuid)
    requires WellKeyed(a) && Integrity(b) && IsOutcome(a, b, t) && IsCampaignFor(b, k, solution)
    ensures IsCampaignFor(t, k, solution)
  {
    OutcomeKeeps(a, b, t);
  }

  lemma OneCampaignEach(t: Tables, j: Key, k: Key, solution: Uuid)
    requires Integrity(t) && IsCampaignFor(t, j, solution) && IsCampaignFor(t, k, solution)
    ensures j == k
  {
    Keyed(t, j);
    CampaignClashes(t, t[j]);
  }

  lemma OneBatch(keys: set<Key>)
    ensures Flatten([Canonical(keys)]) == Canonical(keys)
  {
    var items := Canonical(keys);
    assert [items][..0] == [] && [] + items == items;
  }

  /** Rival campaigns for one solution stay where they are, however many rounds of exchanges follow. */
  lemma {:induction false} RivalsNeverMeet(a: Tables, b: Tables, j: Key, k: Key, solution: Uuid, n: nat)
    requires Integrity(a) && Integrity(b) && j != k
    requires IsCampaignFor(a, j, solution) && IsCampaignFor(b, k, solution)
    ensures var (x, y) := Rounds(a, b, n);
      && Integrity(x) && Integrity(y)
      && IsCampaignFor(x, j, solution) && !IsCampaignFor(x, k, solution)
      && IsCampaignFor(y, k, solution) && !IsCampaignFor(y, j, solution)
  {
    hide Integrity, IsOutcome, IsCampaignFor, ExchangeInOrder, WellKeyed;
    if n == 0 {
      ApartBySolution(a, b, j, k, solution);
    } else {
      RivalsNeverMeet(a, b, j, k, solution, n - 1);
      var (x, y) := Rounds(a, b, n - 1);
      RivalStaysInExchange(x, y, k, solution);
      var y' := ExchangeInOrder(x, y, [Canonical(x.Keys)]);
      RivalStaysInExchange(y', x, j, solution);
      var x' := ExchangeInOrder(y', x, [Canonical(y'.Keys)]);
      ApartBySolution(x', y', j, k, solution);
    }
  }

  lemma RivalStaysInExchange(a: Tables, b: Tables, k: Key, solution: Uuid)
    requires Integrity(a) && Integrity(b) && IsCampaignFor(b, k, solution)
    ensures var t := ExchangeInOrder(a, b, [Canonical(a.Keys)]); Integrity(t) && IsCampaignFor(t, k, solution)
  {
    hide Integrity, IsOutcome, IsCampaignFor, ExchangeInOrder, WellKeyed;
    OneBatch(a.Keys);
    ExchangeOutcome(a, b, [Canonical(a.Keys)]);
    RivalStays(a, b, ExchangeInOrder(a, b, [Canonical(a.Keys)]), k, solution);
  }

  lemma ApartBySolution(x: Tables, y: Tables, j: Key, k: Key, solution: Uuid)
    requires Integrity(x) && Integrity(y) && j != k
    requires IsCampaignFor(x, j, solution) && IsCampaignFor(y, k, solution)
    ensures !IsCampaignFor(x, k, solution) && !IsCampaignFor(y, j, solution)
  {
    hide Integrity, IsCampaignFor;
    if IsCampaignFor(x, k, solution) {
      OneCampaignEach(x, j, k, solution);
    }
    if IsCampaignFor(y, j, solution) {
      OneCampaignEach(y, j, k, solution);
    }
  }

  /** Two sound stores with the same issue and solution and a campaign each. */
  lemma RivalsExist(issue: Row, solution: Row, c: Row, d: Row)
    requires issue.Issue? && solution.Solution? && solution.issue == issue.id
    requires c.Campaign? && d.Campaign? && c.solution == d.solution == solution.id && c.id != d.id
    ensures var a: Tables := map[issue.Ref() := issue, solution.Ref() := solution, c.Ref() := c];
      var b: Tables := map[issue.Ref() := issue, solution.Ref() := solution, d.Ref() := d];
      && Integrity(a) && Integrity(b) && SameContent(a, b)
      && IsCampaignFor(a, c.Ref(), solution.id) && IsCampaignFor(b, d.Ref(), solution.id)
  {
    OneCampaignIsSound(issue, solution, c);
    OneCampaignIsSound(issue, solution, d);
    hide Integrity;
  }

  lemma OneCampaignIsSound(issue: Row, solution: Row, c: Row)
    requires issue.Issue? && solution.Solution? && solution.issue == issue.id
    requires c.Campaign? && c.solution == solution.id
    ensures Integrity(map[issue.Ref() := issue, solution.Ref() := solution, c.Ref() := c])
  {}
}
