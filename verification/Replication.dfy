/** Handling of IHAVE, IWANT and object messages over the constrained store. */
module Replication {
  import opened Wrappers
  import opened Schema
  import opened GossipItems
  import opened Repository

  datatype StoreStatus = Stored | AlreadyPresent | Rejected

  /** What becomes of an object received from a peer. */
  function StoreRemote(t: Tables, r: Row): (Tables, StoreStatus) {
    if r.Ref() in t then (t, AlreadyPresent)
    else if r.IsVote() then
      match RecordVote(t, r)
      case Failure(_) => (t, Rejected)
      case Success((t', Created)) => (t', Stored)
      case Success((_, AlreadyVoted)) => (t, AlreadyPresent)
    else
      match Insert(t, r)
      case Failure(_) => (t, Rejected)
      case Success(t') => (t', Stored)
  }

  /** A row the store could take in. */
  predicate Admits(t: Tables, r: Row) { r.Ref() !in t && !Clashes(t, r) && Resolves(t, r) }

  /**
   An object is stored exactly when it is new, its parent is known and it breaks no uniqueness
   constraint; only then does the store change, by this one row.
   */
  lemma StoreRemoteOutcome(t: Tables, r: Row)
    requires Integrity(t)
    ensures var (t', status) := StoreRemote(t, r);
      && (status == Stored <==> Admits(t, r))
      && t' == (if Admits(t, r) then t[r.Ref() := r] else t)
      && Integrity(t')
      && (status == AlreadyPresent <==> r.Ref() in t || (r.IsVote() && Clashes(t, r)))
  {
    if Insert(t, r).Success? {
      InsertKeepsIntegrity(t, r);
    }
  }

  /** The rows of `t` asked for, in the order asked; what is not there is passed over. */
  function Served(t: Tables, items: seq<Key>): seq<Row> {
    if items == [] then []
    else Served(t, items[..|items| - 1]) + if items[|items| - 1] in t then [t[items[|items| - 1]]] else []
  }

  /** The announced items that are not stored, in the order announced. */
  function Missing(t: Tables, items: seq<Key>): seq<Key> {
    if items == [] then []
    else Missing(t, items[..|items| - 1]) + if items[|items| - 1] in t then [] else [items[|items| - 1]]
  }

  const ALL_TYPES: seq<ObjectType> :=
    [IssueType, IssueVoteType, SolutionType, SolutionVoteType, CampaignType, PledgeType]

  class DemocracyCommunity {
    const repository: DemocracyRepository

    constructor (repository: DemocracyRepository)
      ensures this.repository == repository
    {
      this.repository := repository;
    }

    /** References to all stored objects, one handler after the other. */
    method LocalInventory() returns (items: seq<Key>)
      ensures forall k :: k in items <==> k in repository.rows
    {
      items := [];
      for i := 0 to |ALL_TYPES|
        invariant forall k :: k in items <==> k in repository.rows && k.objectType in ALL_TYPES[..i]
      {
        var left := set k | k in repository.rows && k.objectType == ALL_TYPES[i];
        var found: seq<Key> := [];
        ghost var all := left;
        while left != {}
          invariant left <= all
          invariant forall k :: k in found <==> k in all - left
        {
          var k :| k in left;
          found := found + [k];
          left := left - {k};
        }
        items := items + found;
      }
      forall k: Key ensures k.objectType in ALL_TYPES {
        assert k.objectType == ALL_TYPES[k.objectType.Number()];
      }
    }

    /** Batched announcements of everything stored. */
    method AnnounceFullInventory() returns (batches: seq<seq<Key>>)
      ensures Flatten(batches) == Canonical(repository.rows.Keys)
      ensures forall i :: 0 <= i < |batches| ==> IsBatch(batches[i])
    {
      var items := LocalInventory();
      assert (set k | k in items) == repository.rows.Keys;
      batches := BatchGossipItems(items);
    }

    /** Requests for the announced objects that are missing here, in batches. */
    method OnIHave(items: seq<Key>) returns (wants: seq<seq<Key>>)
      ensures Flatten(wants) == Canonical(set k | k in items && k !in repository.rows)
      ensures forall i :: 0 <= i < |wants| ==> IsBatch(wants[i])
    {
      var missing: seq<Key> := [];
      for i := 0 to |items|
        invariant missing == Missing(repository.rows, items[..i])
      {
        assert items[..i + 1][..i] == items[..i];
        if items[i] !in repository.rows {
          missing := missing + [items[i]];
        }
      }
      assert items[..|items|] == items;
      MissingMembers(repository.rows, items);
      assert (set k | k in missing) == set k | k in items && k !in repository.rows;
      wants := BatchGossipItems(missing);
    }

    /** The requested objects that are stored here. */
    method OnIWant(items: seq<Key>) returns (objects: seq<Row>)
      ensures objects == Served(repository.rows, items)
    {
      objects := [];
      for i := 0 to |items|
        invariant objects == Served(repository.rows, items[..i])
      {
        assert items[..i + 1][..i] == items[..i];
        if items[i] in repository.rows {
          objects := objects + [repository.rows[items[i]]];
        }
      }
      assert items[..|items|] == items;
    }

    /** Stores a received object; only one that was stored is announced to the others. */
    method HandleObject(r: Row) returns (status: StoreStatus, announced: seq<seq<Key>>)
      requires Integrity(repository.rows)
      modifies repository
      ensures Integrity(repository.rows)
      ensures (repository.rows, status) == StoreRemote(old(repository.rows), r)
      ensures Flatten(announced) == if status == Stored then [r.Ref()] else []
      ensures announced == [] <==> status != Stored
    {
      status := Receive(r);
      if status != Stored {
        return status, [];
      }
      announced := BatchGossipItems([r.Ref()]);
      assert (set k | k in [r.Ref()]) == {r.Ref()};
      CanonicalOfOne(r.Ref());
    }

    method Receive(r: Row) returns (status: StoreStatus)
      requires Integrity(repository.rows)
      modifies repository
      ensures Integrity(repository.rows)
      ensures (repository.rows, status) == StoreRemote(old(repository.rows), r)
    {
      if r.Ref() in repository.rows {
        return AlreadyPresent;
      }
      if r.IsVote() {
        var result := repository.RecordVote(r);
        match result {
          case Failure(_) => return Rejected;
          case Success(AlreadyVoted) => return AlreadyPresent;
          case Success(Created) => return Stored;
        }
      }
      var violation := repository.Add(r);
      return if violation.None? then Stored else Rejected;
    }
  }

  lemma CanonicalOfOne(k: Key)
    ensures Canonical({k}) == [k]
  {
    var items := Canonical({k});
    CanonicalHolds({k});
    assert items[0] in items;
  }

  lemma {:induction false} MissingMembers(t: Tables, items: seq<Key>)
    ensures forall k :: k in Missing(t, items) <==> k in items && k !in t
  {
    if items != [] {
      MissingMembers(t, items[..|items| - 1]);
      assert items == items[..|items| - 1] + [items[|items| - 1]];
    }
  }
}
