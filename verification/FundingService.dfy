/**
 From stored pledges to the final transaction: validation against a snapshot of the chain,
 the funding status, selection and combination.
 */
module FundingService {
  import opened Wrappers
  import opened Bytes
  import opened Totals
  import opened TxFormat
  import opened TxRoundTrip
  import opened PledgeSelection
  import opened TxCombiner

  const PLEDGE_INPUT_SEQUENCE: int := 0xFFFF_FFFD

  /** `expectedOutputs` are the outputs of the pledge template built for the campaign. */
  datatype Campaign = Campaign(id: nat, askingPriceSats: nat, deadlineHeight: nat, expectedOutputs: seq<TxOutput>) {
    predicate IsActive() { askingPriceSats > 0 }
  }

  datatype Utxo = Utxo(confirmations: int, valueSats: int)

  /** What the node answers: height, unspent outputs, and the finalized form of each PSBT. */
  datatype Node = Node(
    height: nat, minConfirmations: int, utxos: map<(bytes, nat), Utxo>, finalized: map<string, bytes>)

  datatype ServiceError =
    | CampaignNotFound
    | CampaignInactive
    | CampaignExpired
    | CannotProcess(pledge: FundingPledge)
    | NegativeBuffer
    | Selection(error: SelectError)
    | Combination(combineError: CombineError)

  datatype FundingStatus = FundingStatus(
    validPledgeTotalSats: int, requiredTotalSats: int, validPledgeCount: nat, isExpired: bool, isFundable: bool)

  datatype Plan = Plan(selected: seq<FundingPledge>, selectedTotalSats: int, requiredTotalSats: int, finalRawTx: bytes)

  // --- validation ------------------------------------------------------------------------

  predicate ValidAgainstChain(p: FundingPledge, node: Node) {
    && (p.txid, p.vout) in node.utxos
    && node.utxos[(p.txid, p.vout)].confirmations >= node.minConfirmations
    && node.utxos[(p.txid, p.vout)].valueSats == p.valueSats
  }

  /** The pledge shape: the one input spends the pledged output, and the template is kept. */
  predicate ValidShape(p: FundingPledge, campaign: Campaign, tx: Transaction) {
    && |tx.inputs| == 1
    && OutpointKey(tx.inputs[0]) == (p.txid, p.vout)
    && tx.outputs == campaign.expectedOutputs
    && tx.inputs[0].sequence == PLEDGE_INPUT_SEQUENCE
  }

  /** A pledge that passes both validations, with its finalized transaction. */
  predicate IsValidPledge(q: PreparedPledge, campaign: Campaign, node: Node) {
    && ValidAgainstChain(q.pledge, node)
    && q.pledge.signedPsbt in node.finalized
    && q.rawTx == node.finalized[q.pledge.signedPsbt]
    && Decode(q.rawTx).Success?
    && ValidShape(q.pledge, campaign, Decode(q.rawTx).value)
  }

  /** The usable pledges in stored order, or the first pledge the node cannot process. */
  function PrepareEach(pledges: seq<FundingPledge>, campaign: Campaign, node: Node)
    : Result<seq<PreparedPledge>, ServiceError>
  {
    if pledges == [] then Success([])
    else
      var p := pledges[0];
      if p.signedPsbt !in node.finalized || Decode(node.finalized[p.signedPsbt]).Failure? then Failure(CannotProcess(p))
      else
        match PrepareEach(pledges[1..], campaign, node)
        case Failure(e) => Failure(e)
        case Success(more) => Success(Keep(PreparedPledge(p, node.finalized[p.signedPsbt]), campaign, node) + more)
  }

  function Keep(q: PreparedPledge, campaign: Campaign, node: Node): seq<PreparedPledge> {
    if IsValidPledge(q, campaign, node) then [q] else []
  }

  predicate IsOpen(campaign: Campaign, node: Node) {
    campaign.IsActive() && node.height <= campaign.deadlineHeight
  }

  /** The live snapshot of usable pledges; none once the campaign is closed. */
  method PrepareValidPledges(pledges: seq<FundingPledge>, campaign: Campaign, node: Node)
    returns (r: Result<seq<PreparedPledge>, ServiceError>)
    ensures r == if IsOpen(campaign, node) then PrepareEach(pledges, campaign, node) else Success([])
  {
    if !campaign.IsActive() || node.height > campaign.deadlineHeight {
      return Success([]);
    }
    hide ValidShape, ValidAgainstChain, Decode;
    ghost var all := PrepareEach(pledges, campaign, node);
    var prepared: seq<PreparedPledge> := [];
    assert pledges[0..] == pledges && (all.Success? ==> [] + all.value == all.value);
    for i := 0 to |pledges|
      invariant all == Prepend(prepared, PrepareEach(pledges[i..], campaign, node))
    {
      var p := pledges[i];
      if p.signedPsbt !in node.finalized {
        return Failure(CannotProcess(p));
      }
      var raw := node.finalized[p.signedPsbt];
      var tx := Decode(raw);
      if tx.Failure? {
        return Failure(CannotProcess(p));
      }
      assert pledges[i..][1..] == pledges[i + 1..];
      PrependJoins(prepared, Keep(PreparedPledge(p, raw), campaign, node),
                   PrepareEach(pledges[i + 1..], campaign, node));
      if ValidAgainstChain(p, node) && ValidShape(p, campaign, tx.value) {
        prepared := prepared + [PreparedPledge(p, raw)];
      } else {
        assert prepared + [] == prepared;
      }
    }
    assert prepared + [] == prepared;
    return Success(prepared);
  }

  /** Exactly the valid pledges are prepared. */
  lemma {:induction false} PreparedAreValid(
      pledges: seq<FundingPledge>, campaign: Campaign, node: Node, q: PreparedPledge)
    requires PrepareEach(pledges, campaign, node).Success?
    ensures |PrepareEach(pledges, campaign, node).value| <= |pledges|
    ensures q in PrepareEach(pledges, campaign, node).value <==> q.pledge in pledges && IsValidPledge(q, campaign, node)
  {
    hide ValidShape, ValidAgainstChain, Decode;
    if pledges != [] {
      PreparedAreValid(pledges[1..], campaign, node, q);
      assert q.pledge in pledges <==> q.pledge == pledges[0] || q.pledge in pledges[1..];
    }
  }

  // --- status and plan -------------------------------------------------------------------

  /** The live status of a stored campaign; the first error in the order of the checks. */
  method ComputeFundingStatus(pledges: seq<FundingPledge>, stored: Option<Campaign>, node: Node, feeBufferSats: int)
    returns (r: Result<FundingStatus, ServiceError>)
    ensures feeBufferSats < 0 ==> r == Failure(NegativeBuffer)
    ensures feeBufferSats >= 0 && stored.None? ==> r == Failure(CampaignNotFound)
    ensures feeBufferSats >= 0 && stored.Some? && stored.value.askingPriceSats == 0 ==> r == Failure(CampaignInactive)
    ensures feeBufferSats >= 0 && stored.Some? && stored.value.askingPriceSats > 0 ==>
      var campaign := stored.value;
      var required := campaign.askingPriceSats + feeBufferSats;
      if node.height > campaign.deadlineHeight then r == Success(FundingStatus(0, required, 0, true, false))
      else
        match PrepareEach(pledges, campaign, node)
        case Failure(e) => r == Failure(e)
        case Success(prepared) =>
          var total := TotalValue(prepared);
          r == Success(FundingStatus(total, required, |prepared|, false, total >= required))
  {
    hide PrepareEach;
    if feeBufferSats < 0 {
      return Failure(NegativeBuffer);
    }
    if stored.None? {
      return Failure(CampaignNotFound);
    }
    var campaign := stored.value;
    if !campaign.IsActive() {
      return Failure(CampaignInactive);
    }
    var requiredTotal := campaign.askingPriceSats + feeBufferSats;
    if node.height > campaign.deadlineHeight {
      return Success(FundingStatus(0, requiredTotal, 0, true, false));
    }
    var prepared :- PrepareValidPledges(pledges, campaign, node);
    var validTotal := TotalValue(prepared);
    return Success(FundingStatus(validTotal, requiredTotal, |prepared|, false, validTotal >= requiredTotal));
  }

  function RawsOf(s: seq<PreparedPledge>): (r: seq<bytes>)
    ensures |r| == |s| && forall i :: 0 <= i < |s| ==> r[i] == s[i].rawTx
  {
    seq(|s|, (i: nat) requires i < |s| => s[i].rawTx)
  }

  function PledgesOf(s: seq<PreparedPledge>): (r: seq<FundingPledge>)
    ensures |r| == |s| && forall i :: 0 <= i < |s| ==> r[i] == s[i].pledge
  {
    seq(|s|, (i: nat) requires i < |s| => s[i].pledge)
  }

  /** The plan for usable pledges that cover what is required. */
  function PlanFor(prepared: seq<PreparedPledge>, required: int): Result<Plan, ServiceError> {
    var chosen := Greedy(prepared, required);
    match CombineResult(RawsOf(chosen))
    case Failure(e) => Failure(Combination(e))
    case Success(raw) => Success(Plan(PledgesOf(chosen), TotalValue(chosen), required, raw))
  }

  /** The final transaction of a stored campaign with the pledges in it; the first error in the order of the checks. */
  method PrepareFinalTransaction(pledges: seq<FundingPledge>, stored: Option<Campaign>, node: Node, feeBufferSats: int)
    returns (r: Result<Plan, ServiceError>)
    ensures feeBufferSats < 0 ==> r == Failure(NegativeBuffer)
    ensures feeBufferSats >= 0 && stored.None? ==> r == Failure(CampaignNotFound)
    ensures feeBufferSats >= 0 && stored.Some? && stored.value.askingPriceSats == 0 ==> r == Failure(CampaignInactive)
    ensures feeBufferSats >= 0 && stored.Some? && stored.value.askingPriceSats > 0 ==>
      var campaign := stored.value;
      var required := campaign.askingPriceSats + feeBufferSats;
      if node.height > campaign.deadlineHeight then r == Failure(CampaignExpired)
      else
        match PrepareEach(pledges, campaign, node)
        case Failure(e) => r == Failure(e)
        case Success(prepared) =>
          r == if TotalValue(prepared) >= required then PlanFor(prepared, required)
               else Failure(Selection(NotEnoughPledges(TotalValue(prepared), required)))
  {
    hide PrepareEach, CombineResult, Greedy, RawsOf, PledgesOf, Total;
    if feeBufferSats < 0 {
      return Failure(NegativeBuffer);
    }
    if stored.None? {
      return Failure(CampaignNotFound);
    }
    var campaign := stored.value;
    if !campaign.IsActive() {
      return Failure(CampaignInactive);
    }
    if node.height > campaign.deadlineHeight {
      return Failure(CampaignExpired);
    }
    var prepared :- PrepareValidPledges(pledges, campaign, node);
    var selected := SelectPledges(campaign.askingPriceSats, prepared, feeBufferSats);
    if selected.Failure? {
      return Failure(Selection(selected.error));
    }
    var raw := CombinePledges(RawsOf(selected.value));
    if raw.Failure? {
      return Failure(Combination(raw.error));
    }
    return Success(Plan(PledgesOf(selected.value), TotalValue(selected.value),
      campaign.askingPriceSats + feeBufferSats, raw.value));
  }

  // --- when a fundable campaign can be built ---------------------------------------------

  /** A campaign stores each outpoint at most once. */
  ghost predicate OutpointsUnique(pledges: seq<FundingPledge>) {
    forall i, j :: 0 <= i < j < |pledges| ==> (pledges[i].txid, pledges[i].vout) != (pledges[j].txid, pledges[j].vout)
  }

  ghost predicate PreparedOutpointsUnique(s: seq<PreparedPledge>) {
    forall i, j :: 0 <= i < j < |s| ==> (s[i].pledge.txid, s[i].pledge.vout) != (s[j].pledge.txid, s[j].pledge.vout)
  }

  lemma {:induction false} PreparedKeepsUnique(pledges: seq<FundingPledge>, campaign: Campaign, node: Node)
    requires PrepareEach(pledges, campaign, node).Success?
    requires OutpointsUnique(pledges)
    ensures PreparedOutpointsUnique(PrepareEach(pledges, campaign, node).value)
  {
    hide IsValidPledge, Decode;
    if pledges != [] {
      var more := PrepareEach(pledges[1..], campaign, node).value;
      PreparedKeepsUnique(pledges[1..], campaign, node);
      forall j | 0 <= j < |more|
        ensures (pledges[0].txid, pledges[0].vout) != (more[j].pledge.txid, more[j].pledge.vout)
      {
        PreparedAreValid(pledges[1..], campaign, node, more[j]);
        var k :| 0 <= k < |pledges| - 1 && pledges[1..][k] == more[j].pledge;
        assert pledges[k + 1] == more[j].pledge;
      }
    }
  }

  /** A part of pledges with unique outpoints has unique outpoints. */
  lemma PartKeepsUnique(whole: seq<PreparedPledge>, part: seq<PreparedPledge>)
    requires PreparedOutpointsUnique(whole)
    requires multiset(part) <= multiset(whole)
    ensures PreparedOutpointsUnique(part)
  {
    forall i, j | 0 <= i < j < |part|
      ensures (part[i].pledge.txid, part[i].pledge.vout) != (part[j].pledge.txid, part[j].pledge.vout)
    {
      if (part[i].pledge.txid, part[i].pledge.vout) == (part[j].pledge.txid, part[j].pledge.vout) {
        SamePledge(whole, part, i, j);
        TwiceInPart(part, i, j);
        OnceInWhole(whole, part[i]);
      }
    }
  }

  lemma SamePledge(whole: seq<PreparedPledge>, part: seq<PreparedPledge>, i: nat, j: nat)
    requires PreparedOutpointsUnique(whole) && multiset(part) <= multiset(whole)
    requires i < j < |part|
    requires (part[i].pledge.txid, part[i].pledge.vout) == (part[j].pledge.txid, part[j].pledge.vout)
    ensures part[i] == part[j]
  {
    assert part[i] in multiset(part) && part[j] in multiset(part);
    assert part[i] in multiset(whole) && part[j] in multiset(whole);
    var a :| 0 <= a < |whole| && whole[a] == part[i];
    var b :| 0 <= b < |whole| && whole[b] == part[j];
  }

  lemma TwiceInPart(part: seq<PreparedPledge>, i: nat, j: nat)
    requires i < j < |part| && part[i] == part[j]
    ensures multiset(part)[part[i]] >= 2
  {
    assert part == part[..j] + part[j..];
    assert part[..j][i] == part[i] && part[i] in part[..j];
    assert part[j..][0] == part[i] && part[i] in part[j..];
    assert part[i] in multiset(part[..j]) && part[i] in multiset(part[j..]);
  }

  lemma OnceInWhole(whole: seq<PreparedPledge>, p: PreparedPledge)
    requires PreparedOutpointsUnique(whole)
    ensures multiset(whole)[p] <= 1
  {
    if p in whole {
      var a :| 0 <= a < |whole| && whole[a] == p;
      assert whole == whole[..a] + [p] + whole[a + 1..];
      assert p !in whole[..a] && p !in whole[a + 1..];
      assert multiset(whole[..a])[p] == 0 && multiset(whole[a + 1..])[p] == 0;
    } else {
      assert p !in multiset(whole);
    }
  }

  /** Version and locktime are the same in all selected pledges; validation checks neither. */
  ghost predicate Agree(txs: seq<Transaction>) {
    forall i :: 0 <= i < |txs| ==> txs[i].version == txs[0].version && txs[i].locktime == txs[0].locktime
  }

  lemma SelectedIsCompatible(chosen: seq<PreparedPledge>, campaign: Campaign, node: Node)
    requires forall q :: q in chosen ==> IsValidPledge(q, campaign, node)
    requires PreparedOutpointsUnique(chosen)
    ensures DecodeAll(RawsOf(chosen)).Success?
    ensures var txs := DecodeAll(RawsOf(chosen)).value;
      && |txs| == |chosen|
      && (Compatible(txs) <==> Agree(txs))
      && (txs != [] && Compatible(txs) ==> BuiltFrom(Combined(txs), chosen, campaign, node))
  {
    hide Decode, DecodeAll, OutpointKey, ValidAgainstChain;
    var raws := RawsOf(chosen);
    DecodeAllEach(raws);
    forall i | 0 <= i < |raws|
      ensures Decode(raws[i]).Success? && ValidShape(chosen[i].pledge, campaign, Decode(raws[i]).value)
      ensures ValidAgainstChain(chosen[i].pledge, node)
    {
      assert IsValidPledge(chosen[i], campaign, node);
    }
    var txs := DecodeAll(raws).value;
    forall i | 0 <= i < |txs| ensures ValidShape(chosen[i].pledge, campaign, txs[i]) {
      assert Decode(raws[i]) == Success(txs[i]);
    }
    forall i, k | 0 <= i < k < |txs|
      ensures OutpointKey(txs[i].inputs[0]) != OutpointKey(txs[k].inputs[0])
    {
      assert ValidShape(chosen[i].pledge, campaign, txs[i]) && ValidShape(chosen[k].pledge, campaign, txs[k]);
    }
    assert txs != [] ==> ValidShape(chosen[0].pledge, campaign, txs[0]);
  }

  /** The transaction spends exactly the chosen pledges' outputs, all of them live. */
  ghost predicate BuiltFrom(tx: Transaction, chosen: seq<PreparedPledge>, campaign: Campaign, node: Node) {
    && tx.outputs == campaign.expectedOutputs
    && |tx.inputs| == |chosen|
    && forall i :: 0 <= i < |chosen| ==>
         && OutpointKey(tx.inputs[i]) == (chosen[i].pledge.txid, chosen[i].pledge.vout)
         && ValidAgainstChain(chosen[i].pledge, node)
  }

  /** The plan exists exactly when the chosen pledges agree, and then it is built from them. */
  ghost predicate PlannedExactly(plan: Result<Plan, ServiceError>, chosen: seq<PreparedPledge>, required: int,
                                 campaign: Campaign, node: Node) {
    var txs := DecodeAll(RawsOf(chosen));
    && txs.Success?
    && (plan.Success? <==> Agree(txs.value))
    && (plan.Success? ==>
          && plan.value.selectedTotalSats >= required
          && Decode(plan.value.finalRawTx).Success?
          && BuiltFrom(Decode(plan.value.finalRawTx).value, chosen, campaign, node))
  }

  lemma ChosenAreValid(pledges: seq<FundingPledge>, campaign: Campaign, node: Node, required: nat)
    requires PrepareEach(pledges, campaign, node).Success?
    requires OutpointsUnique(pledges)
    ensures var chosen := Greedy(PrepareEach(pledges, campaign, node).value, required);
      && (forall q :: q in chosen ==> q.pledge in pledges && IsValidPledge(q, campaign, node))
      && PreparedOutpointsUnique(chosen)
      && |chosen| <= |pledges|
  {
    hide Greedy, PrepareEach, IsValidPledge;
    var prepared := PrepareEach(pledges, campaign, node).value;
    var chosen := Greedy(prepared, required);
    GreedyPartitions(prepared, required);
    PreparedKeepsUnique(pledges, campaign, node);
    PartKeepsUnique(prepared, chosen);
    forall q | q in chosen ensures q.pledge in pledges && IsValidPledge(q, campaign, node) {
      assert q in multiset(chosen);
      assert q in multiset(prepared);
      PreparedAreValid(pledges, campaign, node, q);
    }
    assert |multiset(chosen)| + |multiset(LeftOver(prepared, required))| == |multiset(prepared)|;
    PreparedAreValid(pledges, campaign, node, PreparedPledge(StoredPledge(0, 0, 0, [], 0, 1, "", 0), []));
  }

  /**
   A fundable campaign yields its final transaction exactly when the selected pledges agree
   in version and locktime. The transaction then spends the selected outputs, in order, under
   the campaign's outputs, and the node reported every one of them unspent at its pledged value.
   */
  lemma FundableIsBuildable(pledges: seq<FundingPledge>, campaign: Campaign, node: Node, feeBufferSats: nat)
    requires PrepareEach(pledges, campaign, node).Success?
    requires OutpointsUnique(pledges) && |pledges| <= MAX_UINT64
    requires campaign.IsActive()
    requires TotalValue(PrepareEach(pledges, campaign, node).value) >= campaign.askingPriceSats + feeBufferSats
    ensures var prepared := PrepareEach(pledges, campaign, node).value;
      var required := campaign.askingPriceSats + feeBufferSats;
      PlannedExactly(PlanFor(prepared, required), Greedy(prepared, required), required, campaign, node)
  {
    hide Greedy, CombineResult, DecodeAll, Decode, PrepareEach, IsValidPledge, Compatible, Agree, BuiltFrom, Total;
    var prepared := PrepareEach(pledges, campaign, node).value;
    var required := campaign.askingPriceSats + feeBufferSats;
    var chosen := Greedy(prepared, required);
    GreedyReaches(prepared, required);
    ChosenAreValid(pledges, campaign, node, required);
    SelectedIsCompatible(chosen, campaign, node);
    CombineExactly(RawsOf(chosen));
    assert chosen != [] by {
      ReachingNeedsPledges(chosen, required);
    }
  }

  lemma ReachingNeedsPledges(chosen: seq<PreparedPledge>, required: int)
    requires TotalValue(chosen) >= required > 0
    ensures chosen != []
  {}

  // --- the documented promise fails without that agreement -------------------------------

  /** The payout, and OP_RETURN with a push of a 32-byte commitment. */
  const EXAMPLE_OUTPUTS: seq<TxOutput> :=
    [TxOutput(2, [0x51]), TxOutput(0, [0x6a, 0x20] + seq(32, _ => 0x2a))]

  /** A pledge transaction spending output 0 of the transaction whose id repeats `b`. */
  function ExampleTx(b: byte, version: nat): Transaction {
    Transaction(version, [TxInput(seq(32, _ => b), 0, [], PLEDGE_INPUT_SEQUENCE, [])], EXAMPLE_OUTPUTS, 0)
  }

  function ExampleRaw(b: byte, version: nat): bytes
    requires version <= 2
  {
    Encode(ExampleTx(b, version))
  }

  function ExamplePledge(b: byte): FundingPledge {
    StoredPledge(b, 0, 0, Reverse(seq(32, _ => b)), 0, 1, if b == 1 then "a" else "b", b)
  }

  /**
   Two valid pledges that cover the price but differ in version: the status says fundable,
   and building the final transaction fails.
   */
  lemma FundableYetNotBuildable()
    returns (pledges: seq<FundingPledge>, campaign: Campaign, node: Node)
    ensures campaign.IsActive() && OutpointsUnique(pledges) && campaign.expectedOutputs == EXAMPLE_OUTPUTS
    ensures PrepareEach(pledges, campaign, node).Success?
    ensures TotalValue(PrepareEach(pledges, campaign, node).value) >= campaign.askingPriceSats
    ensures PlanFor(PrepareEach(pledges, campaign, node).value, campaign.askingPriceSats).Failure?
  {
    hide Decode, Greedy, DecodeAll, CombineResult, Total, Encode, PrepareEach, RawsOf;
    campaign := Campaign(0, 2, 10, EXAMPLE_OUTPUTS);
    var p, q := ExamplePledge(1), ExamplePledge(2);
    assert p.txid[0] == 1 && q.txid[0] == 2;
    var a, b := PreparedPledge(p, ExampleRaw(1, 1)), PreparedPledge(q, ExampleRaw(2, 2));
    pledges := [p, q];
    node := Node(0, 1, map[(p.txid, 0) := Utxo(1, 1), (q.txid, 0) := Utxo(1, 1)], map["a" := a.rawTx, "b" := b.rawTx]);
    DecodesEncoding(ExampleTx(1, 1));
    DecodesEncoding(ExampleTx(2, 2));
    PrepareTwo(pledges, campaign, node, a, b);
    ChooseBoth(a, b);
    FundableIsBuildable(pledges, campaign, node, 0);
    Disagreeing(Greedy([a, b], 2), a, b);
  }

  lemma PrepareTwo(pledges: seq<FundingPledge>, campaign: Campaign, node: Node, a: PreparedPledge, b: PreparedPledge)
    requires pledges == [a.pledge, b.pledge]
    requires IsValidPledge(a, campaign, node) && IsValidPledge(b, campaign, node)
    ensures PrepareEach(pledges, campaign, node) == Success([a, b])
  {
    hide Decode, ValidShape, ValidAgainstChain;
    assert pledges[1..] == [b.pledge] && [b.pledge][1..] == [];
    assert PrepareEach([b.pledge], campaign, node) == Success([b]) by {
      assert PrepareEach([], campaign, node) == Success([]);
      assert [b] + [] == [b];
    }
    assert a == PreparedPledge(a.pledge, node.finalized[a.pledge.signedPsbt]);
    assert [a] + [b] == [a, b];
  }

  lemma ChooseBoth(a: PreparedPledge, b: PreparedPledge)
    requires Value(a) == Value(b) == 1
    ensures TotalValue([a, b]) == 2
    ensures a in Greedy([a, b], 2) && b in Greedy([a, b], 2)
  {
    hide Greedy, LeftOver;
    assert [a, b][1..] == [b];
    var chosen, left := Greedy([a, b], 2), LeftOver([a, b], 2);
    GreedyPartitions([a, b], 2);
    GreedyReaches([a, b], 2);
    TotalPermutation(chosen + left, [a, b], Value);
    TotalAppend(chosen, left, Value);
    if left != [] {
      TotalNonNegative(left[1..], Value);
    }
    assert multiset(chosen) == multiset{a, b};
    assert a in multiset(chosen) && b in multiset(chosen);
  }

  lemma Disagreeing(chosen: seq<PreparedPledge>, a: PreparedPledge, b: PreparedPledge)
    requires a in chosen && b in chosen
    requires Decode(a.rawTx).Success? && Decode(b.rawTx).Success?
    requires Decode(a.rawTx).value.version != Decode(b.rawTx).value.version
    requires DecodeAll(RawsOf(chosen)).Success?
    ensures !Agree(DecodeAll(RawsOf(chosen)).value)
  {
    hide Decode, DecodeAll;
    DecodeAllEach(RawsOf(chosen));
    var i :| 0 <= i < |chosen| && chosen[i] == a;
    var j :| 0 <= j < |chosen| && chosen[j] == b;
    assert RawsOf(chosen)[i] == a.rawTx && RawsOf(chosen)[j] == b.rawTx;
  }
}
