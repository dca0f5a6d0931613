/** The message handlers of two peers, driven by a link that delivers everything in order. */
module ExchangeRun {
  import opened Schema
  import opened GossipItems
  import opened Repository
  import opened Replication
  import opened Exchange

  /** Handles objects one after the other; what is announced on to further peers is not followed here. */
  method DeliverObjects(b: DemocracyCommunity, objects: seq<Row>)
    requires Integrity(b.repository.rows)
    modifies b.repository
    ensures Integrity(b.repository.rows)
    ensures b.repository.rows == Receive(old(b.repository.rows), objects)
  {
    hide Integrity, StoreRemote;
    assert objects[..0] == [];
    for i := 0 to |objects|
      invariant Integrity(b.repository.rows)
      invariant b.repository.rows == Receive(old(b.repository.rows), objects[..i])
    {
      var _, _ := b.HandleObject(objects[i]);
      assert objects[..i + 1][..i] == objects[..i];
    }
    assert objects[..|objects|] == objects;
  }

  /** One announced batch: what B requests, A serves, and B stores. */
  method DeliverBatch(a: DemocracyCommunity, b: DemocracyCommunity, batch: seq<Key>)
    requires a.repository != b.repository && Integrity(b.repository.rows)
    modifies b.repository
    ensures Integrity(b.repository.rows)
    ensures b.repository.rows
         == Receive(old(b.repository.rows), Served(a.repository.rows, Wanted(old(b.repository.rows), batch)))
  {
    hide Integrity, Receive;
    var wants := b.OnIHave(batch);
    ghost var before, rows := b.repository.rows, a.repository.rows;
    assert wants[..0] == [];
    NothingReceived(before);
    for i := 0 to |wants|
      invariant Integrity(b.repository.rows) && a.repository.rows == rows
      invariant b.repository.rows == Receive(before, Served(rows, Flatten(wants[..i])))
    {
      var objects := a.OnIWant(wants[i]);
      DeliverObjects(b, objects);
      assert wants[..i + 1][..i] == wants[..i];
      ServedAppends(rows, Flatten(wants[..i]), wants[i]);
      ReceiveAppends(before, Served(rows, Flatten(wants[..i])), Served(rows, wants[i]));
    }
    assert wants[..|wants|] == wants;
  }

  lemma NothingReceived(t: Tables)
    ensures Receive(t, []) == t
  {}

  /** A complete exchange ends in the store that the two stores alone determine. */
  method CompleteExchange(a: DemocracyCommunity, b: DemocracyCommunity) returns (batches: seq<seq<Key>>)
    requires a.repository != b.repository && Integrity(a.repository.rows) && Integrity(b.repository.rows)
    modifies b.repository
    ensures Flatten(batches) == Canonical(a.repository.rows.Keys)
    ensures b.repository.rows == ExchangeInOrder(a.repository.rows, old(b.repository.rows), batches)
    ensures Integrity(b.repository.rows) && WellKeyed(a.repository.rows)
    ensures IsOutcome(a.repository.rows, old(b.repository.rows), b.repository.rows)
  {
    hide Integrity, IsOutcome, Receive, Served, Wanted;
    batches := a.AnnounceFullInventory();
    assert batches[..0] == [];
    for i := 0 to |batches|
      invariant a.repository.rows == old(a.repository.rows) && Integrity(b.repository.rows)
      invariant b.repository.rows == ExchangeInOrder(a.repository.rows, old(b.repository.rows), batches[..i])
    {
      DeliverBatch(a, b, batches[i]);
      assert batches[..i + 1][..i] == batches[..i];
    }
    assert batches[..|batches|] == batches;
    ExchangeOutcome(a.repository.rows, old(b.repository.rows), batches);
  }
}
