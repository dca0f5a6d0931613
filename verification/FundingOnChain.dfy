/** What status and final transaction mean on the node's own data. */
module FundingOnChain {
  import opened Wrappers
  import opened Bytes
  import opened Totals
  import opened TxFormat
  import opened PledgeSelection
  import opened TxCombiner
  import opened FundingService

  /** What the node reports an output to be worth; nothing when it is spent or unknown. */
  function NodeSats(node: Node, txid: bytes, vout: nat): int {
    if (txid, vout) in node.utxos then node.utxos[(txid, vout)].valueSats else 0
  }

  /**
   The node backs a pledge: it knows the output, deep enough and worth what was pledged, and
   the signed transaction spends that one output, replaceably, into the campaign's outputs.
   */
  ghost predicate Backs(node: Node, p: FundingPledge, outputs: seq<TxOutput>) {
    && (p.txid, p.vout) in node.utxos
    && node.utxos[(p.txid, p.vout)].confirmations >= node.minConfirmations
    && node.utxos[(p.txid, p.vout)].valueSats == p.valueSats
    && p.signedPsbt in node.finalized
    && exists tx :: Decode(node.finalized[p.signedPsbt]) == Success(tx) && SpendsOnly(tx, p.txid, p.vout, outputs)
  }

  ghost predicate SpendsOnly(tx: Transaction, txid: bytes, vout: nat, outputs: seq<TxOutput>) {
    && tx.outputs == outputs && |tx.inputs| == 1
    && |tx.inputs[0].prevTxidLe| == |txid|
    && (forall i :: 0 <= i < |txid| ==> tx.inputs[0].prevTxidLe[i] == txid[|txid| - 1 - i])
    && tx.inputs[0].vout == vout
    && tx.inputs[0].sequence == 0xFFFF_FFFD
  }

  // --- status ----------------------------------------------------------------------------

  lemma ReversedByIndex(a: bytes, b: bytes)
    ensures Reverse(a) == b <==> |a| == |b| && forall i :: 0 <= i < |b| ==> a[i] == b[|b| - 1 - i]
  {
    if |a| == |b| {
      if forall i :: 0 <= i < |b| ==> a[i] == b[|b| - 1 - i] {
        forall i | 0 <= i < |b| ensures Reverse(a)[i] == b[i] {
          assert a[|b| - 1 - i] == b[|b| - 1 - (|b| - 1 - i)];
        }
      }
      if Reverse(a) == b {
        forall i | 0 <= i < |b| ensures a[i] == b[|b| - 1 - i] {
          assert Reverse(a)[|b| - 1 - i] == a[i];
        }
      }
    }
  }

  lemma KeptIsBacked(p: FundingPledge, campaign: Campaign, node: Node)
    requires p.signedPsbt in node.finalized
    ensures IsValidPledge(PreparedPledge(p, node.finalized[p.signedPsbt]), campaign, node)
       <==> Backs(node, p, campaign.expectedOutputs)
  {
    hide Decode;
    var tx := Decode(node.finalized[p.signedPsbt]);
    if tx.Success? && |tx.value.inputs| == 1 {
      ReversedByIndex(tx.value.inputs[0].prevTxidLe, p.txid);
    }
  }

  /**
   The status is computed exactly when the node finalizes every stored pledge into something
   that parses; otherwise the first pledge in stored order for which it does not is reported.
   */
  lemma {:induction false} PreparesExactlyWhen(pledges: seq<FundingPledge>, campaign: Campaign, node: Node)
    ensures PrepareEach(pledges, campaign, node).Success? <==>
      forall p :: p in pledges ==> p.signedPsbt in node.finalized && Decode(node.finalized[p.signedPsbt]).Success?
    ensures PrepareEach(pledges, campaign, node).Failure? ==>
      exists i {:trigger pledges[i]} :: 0 <= i < |pledges|
        && PrepareEach(pledges, campaign, node).error == CannotProcess(pledges[i])
        && !(pledges[i].signedPsbt in node.finalized && Decode(node.finalized[pledges[i].signedPsbt]).Success?)
        && forall j :: 0 <= j < i ==>
             pledges[j].signedPsbt in node.finalized && Decode(node.finalized[pledges[j].signedPsbt]).Success?
  {
    hide Decode, Keep;
    if pledges != [] {
      var rest := pledges[1..];
      PreparesExactlyWhen(rest, campaign, node);
      forall p ensures p in pledges <==> p == pledges[0] || p in rest {}
      var p := pledges[0];
      if p.signedPsbt !in node.finalized || Decode(node.finalized[p.signedPsbt]).Failure? {
        assert p in pledges;
      } else if PrepareEach(rest, campaign, node).Failure? {
        var i :| 0 <= i < |rest| && PrepareEach(rest, campaign, node).error == CannotProcess(rest[i])
          && !(rest[i].signedPsbt in node.finalized && Decode(node.finalized[rest[i].signedPsbt]).Success?)
          && forall j :: 0 <= j < i ==>
               rest[j].signedPsbt in node.finalized && Decode(node.finalized[rest[j].signedPsbt]).Success?;
        assert pledges[i + 1] == rest[i];
        forall j | 0 <= j < i + 1
          ensures pledges[j].signedPsbt in node.finalized && Decode(node.finalized[pledges[j].signedPsbt]).Success?
        {
          assert j > 0 ==> pledges[j] == rest[j - 1];
        }
      }
    }
  }

  ghost function BackedSats(node: Node, outputs: seq<TxOutput>): FundingPledge -> int {
    (p: FundingPledge) => if Backs(node, p, outputs) then NodeSats(node, p.txid, p.vout) else 0
  }

  ghost function BackedOne(node: Node, outputs: seq<TxOutput>): FundingPledge -> int {
    (p: FundingPledge) => if Backs(node, p, outputs) then 1 else 0
  }

  /**
   The status counts each stored pledge exactly when the node backs it, and for what the node
   says its output is worth.
   */
  lemma {:induction false} StatusIsTheNodesTotal(pledges: seq<FundingPledge>, campaign: Campaign, node: Node)
    requires PrepareEach(pledges, campaign, node).Success?
    ensures var prepared := PrepareEach(pledges, campaign, node).value;
      && TotalValue(prepared) == Total(pledges, BackedSats(node, campaign.expectedOutputs))
      && |prepared| == Total(pledges, BackedOne(node, campaign.expectedOutputs))
  {
    hide Decode, Backs, IsValidPledge;
    if pledges != [] {
      StatusIsTheNodesTotal(pledges[1..], campaign, node);
      var q := PreparedPledge(pledges[0], node.finalized[pledges[0].signedPsbt]);
      KeptIsBacked(pledges[0], campaign, node);
      var kept := Keep(q, campaign, node);
      TotalAppend(kept, PrepareEach(pledges[1..], campaign, node).value, Value);
      BackedIsWorthIt(node, pledges[0], campaign.expectedOutputs);
      assert kept == [q] ==> Total(kept[1..], Value) == 0;
    }
  }

  lemma BackedIsWorthIt(node: Node, p: FundingPledge, outputs: seq<TxOutput>)
    ensures Backs(node, p, outputs) ==> NodeSats(node, p.txid, p.vout) == p.valueSats
  {
    hide Decode, SpendsOnly;
  }

  // --- the final transaction -------------------------------------------------------------

  /** What the node says the output spent by an input is worth. */
  function SpentSats(node: Node): TxInput -> int {
    (x: TxInput) => if x.vout >= 0 then NodeSats(node, Reverse(x.prevTxidLe), x.vout) else 0
  }

  /** The input spends an output the node knows, deep enough, and can be replaced by fee. */
  ghost predicate SpendsLive(node: Node, x: TxInput) {
    && x.vout >= 0 && (Reverse(x.prevTxidLe), x.vout) in node.utxos
    && node.utxos[(Reverse(x.prevTxidLe), x.vout)].confirmations >= node.minConfirmations
    && x.sequence == 0xFFFF_FFFD
  }

  lemma ValidIsLive(q: PreparedPledge, campaign: Campaign, node: Node)
    requires IsValidPledge(q, campaign, node)
    ensures var tx := Decode(q.rawTx).value;
      && tx.outputs == campaign.expectedOutputs && |tx.inputs| == 1
      && SpendsLive(node, tx.inputs[0]) && SpentSats(node)(tx.inputs[0]) == Value(q)
      && Reverse(tx.inputs[0].prevTxidLe) == q.pledge.txid && tx.inputs[0].vout == q.pledge.vout
  {
    hide Decode;
  }

  lemma ChosenIsBacked(q: PreparedPledge, campaign: Campaign, node: Node)
    requires IsValidPledge(q, campaign, node)
    ensures Backs(node, q.pledge, campaign.expectedOutputs)
  {
    hide Backs, Decode, ValidShape;
    assert q == PreparedPledge(q.pledge, node.finalized[q.pledge.signedPsbt]);
    KeptIsBacked(q.pledge, campaign, node);
  }

  lemma {:induction false} SpentIsChosen(xs: seq<TxInput>, chosen: seq<PreparedPledge>, node: Node)
    requires |xs| == |chosen| && forall i :: 0 <= i < |xs| ==> SpentSats(node)(xs[i]) == Value(chosen[i])
    ensures Total(xs, SpentSats(node)) == TotalValue(chosen)
  {
    hide SpentSats;
    if xs != [] {
      SpentIsChosen(xs[1..], chosen[1..], node);
    }
  }

  lemma PreparedAreBuildable(pledges: seq<FundingPledge>, campaign: Campaign, node: Node, required: int)
    requires PrepareEach(pledges, campaign, node).Success?
    ensures forall q :: q in Greedy(PrepareEach(pledges, campaign, node).value, required) ==>
      q.pledge in pledges && IsValidPledge(q, campaign, node)
  {
    hide Greedy, PrepareEach, IsValidPledge;
    var prepared := PrepareEach(pledges, campaign, node).value;
    GreedyPartitions(prepared, required);
    forall q | q in Greedy(prepared, required)
      ensures q.pledge in pledges && IsValidPledge(q, campaign, node)
    {
      assert q in multiset(Greedy(prepared, required));
      assert q in multiset(prepared);
      PreparedAreValid(pledges, campaign, node, q);
    }
  }

  /**
   A plan's transaction spends the outputs of the selected stored pledges, each once and
   replaceably. The node knows these outputs and finds them deep enough; together they are worth
   the selected total, which reaches the required one; all of it goes to the campaign's outputs.
   */
  lemma PlanIsFundedOnChain(pledges: seq<FundingPledge>, campaign: Campaign, node: Node, required: int)
    requires PrepareEach(pledges, campaign, node).Success?
    requires TotalValue(PrepareEach(pledges, campaign, node).value) >= required
    requires PlanFor(PrepareEach(pledges, campaign, node).value, required).Success?
    ensures var plan := PlanFor(PrepareEach(pledges, campaign, node).value, required).value;
      && Decode(plan.finalRawTx).Success?
      && var tx := Decode(plan.finalRawTx).value;
         && tx.outputs == campaign.expectedOutputs
         && (forall x :: x in tx.inputs ==> SpendsLive(node, x))
         && (forall i, j :: 0 <= i < j < |tx.inputs| ==>
               (tx.inputs[i].prevTxidLe, tx.inputs[i].vout) != (tx.inputs[j].prevTxidLe, tx.inputs[j].vout))
         && plan.requiredTotalSats == required && |plan.selected| == |tx.inputs|
         && (forall i :: 0 <= i < |tx.inputs| ==>
               && plan.selected[i] in pledges && Backs(node, plan.selected[i], campaign.expectedOutputs)
               && Reverse(tx.inputs[i].prevTxidLe) == plan.selected[i].txid
               && tx.inputs[i].vout == plan.selected[i].vout)
         && Total(tx.inputs, SpentSats(node)) == plan.selectedTotalSats >= required
  {
    hide Greedy, CombineResult, DecodeAll, Decode, PrepareEach, IsValidPledge, Total, SpendsLive, SpentSats, Backs;
    var prepared := PrepareEach(pledges, campaign, node).value;
    var chosen := Greedy(prepared, required);
    GreedyReaches(prepared, required);
    PreparedAreBuildable(pledges, campaign, node, required);
    var raws := RawsOf(chosen);
    CombineExactly(raws);
    DecodeAllEach(raws);
    var txs := DecodeAll(raws).value;
    var tx := Combined(txs);
    forall i | 0 <= i < |chosen|
      ensures SpendsLive(node, tx.inputs[i]) && SpentSats(node)(tx.inputs[i]) == Value(chosen[i])
      ensures txs[i].outputs == campaign.expectedOutputs
      ensures chosen[i].pledge in pledges && Backs(node, chosen[i].pledge, campaign.expectedOutputs)
      ensures Reverse(tx.inputs[i].prevTxidLe) == chosen[i].pledge.txid && tx.inputs[i].vout == chosen[i].pledge.vout
    {
      ChosenIsBacked(chosen[i], campaign, node);
      ValidIsLive(chosen[i], campaign, node);
      assert Decode(raws[i]) == Success(txs[i]);
    }
    SpentIsChosen(tx.inputs, chosen, node);
    forall i, j | 0 <= i < j < |tx.inputs|
      ensures (tx.inputs[i].prevTxidLe, tx.inputs[i].vout) != (tx.inputs[j].prevTxidLe, tx.inputs[j].vout)
    {
      assert OutpointKey(txs[i].inputs[0]) != OutpointKey(txs[j].inputs[0]);
    }
  }
}
