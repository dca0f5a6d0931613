/** Combining one-input pledge transactions into one final transaction. */
module TxCombiner {
  import opened Wrappers
  import opened Bytes
  import opened TxFormat
  import opened TxRoundTrip
  import TxCodec

  datatype CombineError =
    | NoPledges
    | BadTransaction(error: TxError)
    | NotOneInput
    | OutputsDiffer
    | LocktimeDiffers
    | VersionDiffers
    | DuplicateInput

  /** The outpoint an input spends, with the transaction id in display order. */
  type Outpoint = (bytes, int)

  function OutpointKey(x: TxInput): Outpoint { (Reverse(x.prevTxidLe), x.vout) }

  /** All transactions, or the error of the first one that does not parse. */
  function DecodeAll(raws: seq<bytes>): Result<seq<Transaction>, TxError>
  {
    if raws == [] then Success([])
    else
      match Decode(raws[0])
      case Failure(e) => Failure(e)
      case Success(tx) =>
        match DecodeAll(raws[1..])
        case Failure(e) => Failure(e)
        case Success(txs) => Success([tx] + txs)
  }

  lemma {:induction false} DecodeAllEach(raws: seq<bytes>)
    ensures DecodeAll(raws).Success? <==> forall i :: 0 <= i < |raws| ==> Decode(raws[i]).Success?
    ensures DecodeAll(raws).Success? ==>
      && |DecodeAll(raws).value| == |raws|
      && forall i :: 0 <= i < |raws| ==> Decode(raws[i]) == Success(DecodeAll(raws).value[i])
  {
    hide Decode;
    if raws != [] {
      DecodeAllEach(raws[1..]);
      forall i | 0 <= i < |raws| - 1 ensures raws[1..][i] == raws[i + 1] {}
      if DecodeAll(raws).Failure? && Decode(raws[0]).Success? {
        var i :| 0 <= i < |raws| - 1 && Decode(raws[1..][i]).Failure?;
        assert Decode(raws[i + 1]).Failure?;
      }
    }
  }

  // --- the checks of one transaction -----------------------------------------------------

  /** The outpoints spent by the first `k` transactions. */
  function SpentBefore(txs: seq<Transaction>, k: nat): set<Outpoint>
    requires k <= |txs| && forall i :: 0 <= i < k ==> |txs[i].inputs| == 1
  {
    if k == 0 then {} else SpentBefore(txs, k - 1) + {OutpointKey(txs[k - 1].inputs[0])}
  }

  lemma {:induction false} SpentBeforeMember(txs: seq<Transaction>, k: nat, o: Outpoint)
    requires k <= |txs| && forall i :: 0 <= i < k ==> |txs[i].inputs| == 1
    ensures o in SpentBefore(txs, k) <==> exists i :: 0 <= i < k && OutpointKey(txs[i].inputs[0]) == o
  {
    if k > 0 {
      SpentBeforeMember(txs, k - 1, o);
    }
  }

  /** The error raised at transaction `k` when the ones before it passed. */
  function FaultAt(txs: seq<Transaction>, k: nat): Option<CombineError>
    requires k < |txs| && forall i :: 0 <= i < k ==> |txs[i].inputs| == 1
  {
    if |txs[k].inputs| != 1 then Some(NotOneInput)
    else if txs[k].outputs != txs[0].outputs then Some(OutputsDiffer)
    else if txs[k].locktime != txs[0].locktime then Some(LocktimeDiffers)
    else if txs[k].version != txs[0].version then Some(VersionDiffers)
    else if OutpointKey(txs[k].inputs[0]) in SpentBefore(txs, k) then Some(DuplicateInput)
    else None
  }

  /** The first error raised from transaction `k` on. */
  function FirstFault(txs: seq<Transaction>, k: nat): Option<CombineError>
    requires k <= |txs| && forall i :: 0 <= i < k ==> |txs[i].inputs| == 1
    decreases |txs| - k
  {
    if k == |txs| then None
    else
      match FaultAt(txs, k)
      case Some(e) => Some(e)
      case None => FirstFault(txs, k + 1)
  }

  function FirstInputs(txs: seq<Transaction>): (r: seq<TxInput>)
    requires forall i :: 0 <= i < |txs| ==> |txs[i].inputs| == 1
    ensures |r| == |txs| && forall i :: 0 <= i < |txs| ==> r[i] == txs[i].inputs[0]
  {
    seq(|txs|, (i: nat) requires i < |txs| && |txs[i].inputs| == 1 => txs[i].inputs[0])
  }

  /** The single inputs in order, under the version, outputs and locktime of the first. */
  function Combined(txs: seq<Transaction>): Transaction
    requires txs != [] && forall i :: 0 <= i < |txs| ==> |txs[i].inputs| == 1
  {
    Transaction(txs[0].version, FirstInputs(txs), txs[0].outputs, txs[0].locktime)
  }

  /** What can be combined: one input each, everything else equal, no outpoint spent twice. */
  ghost predicate Compatible(txs: seq<Transaction>) {
    && (forall i :: 0 <= i < |txs| ==>
          && |txs[i].inputs| == 1
          && txs[i].outputs == txs[0].outputs
          && txs[i].locktime == txs[0].locktime
          && txs[i].version == txs[0].version)
    && (forall i, k :: 0 <= i < k < |txs| ==>
          OutpointKey(txs[i].inputs[0]) != OutpointKey(txs[k].inputs[0]))
  }

  /** What combining raises or returns. */
  function CombineResult(raws: seq<bytes>): Result<bytes, CombineError> {
    if raws == [] then Failure(NoPledges)
    else
      match DecodeAll(raws)
      case Failure(e) => Failure(BadTransaction(e))
      case Success(txs) =>
        match FirstFault(txs, 0)
        case Some(e) => Failure(e)
        case None =>
          NoFault(txs, 0);
          if txs != [] && Serializable(Combined(txs)) then Success(Encode(Combined(txs)))
          else Failure(BadTransaction(OutOfRange))
  }

  method ParseAll(raws: seq<bytes>) returns (r: Result<seq<Transaction>, TxError>)
    ensures r == DecodeAll(raws)
  {
    hide Decode;
    var parsed: seq<Transaction> := [];
    PrependJoins([], [], DecodeAll(raws));
    assert raws[0..] == raws;
    for i := 0 to |raws|
      invariant DecodeAll(raws) == Prepend(parsed, DecodeAll(raws[i..]))
    {
      var tx :- TxCodec.ParseTransaction(raws[i]);
      assert raws[i..][1..] == raws[i + 1..];
      PrependJoins(parsed, [tx], DecodeAll(raws[i + 1..]));
      parsed := parsed + [tx];
    }
    assert parsed + [] == parsed;
    return Success(parsed);
  }

  method CheckedInputs(parsed: seq<Transaction>) returns (r: Result<seq<TxInput>, CombineError>)
    requires parsed != []
    ensures match FirstFault(parsed, 0)
      case Some(e) => r == Failure(e)
      case None =>
        && (forall i :: 0 <= i < |parsed| ==> |parsed[i].inputs| == 1)
        && r == Success(FirstInputs(parsed))
  {
    var first := parsed[0];
    var combinedInputs: seq<TxInput> := [];
    var seenOutpoints: set<Outpoint> := {};
    for k := 0 to |parsed|
      invariant |combinedInputs| == k
      invariant forall i :: 0 <= i < k ==> |parsed[i].inputs| == 1
      invariant forall i :: 0 <= i < k ==> combinedInputs[i] == parsed[i].inputs[0]
      invariant seenOutpoints == SpentBefore(parsed, k)
      invariant FirstFault(parsed, 0) == FirstFault(parsed, k)
    {
      hide OutpointKey;
      var tx := parsed[k];
      if |tx.inputs| != 1 {
        return Failure(NotOneInput);
      }
      if tx.outputs != first.outputs {
        return Failure(OutputsDiffer);
      }
      if tx.locktime != first.locktime {
        return Failure(LocktimeDiffers);
      }
      if tx.version != first.version {
        return Failure(VersionDiffers);
      }
      var txin := tx.inputs[0];
      var outpoint := OutpointKey(txin);
      if outpoint in seenOutpoints {
        return Failure(DuplicateInput);
      }
      seenOutpoints := seenOutpoints + {outpoint};
      combinedInputs := combinedInputs + [txin];
    }
    assert combinedInputs == FirstInputs(parsed);
    return Success(combinedInputs);
  }

  method CombinePledges(raws: seq<bytes>) returns (r: Result<bytes, CombineError>)
    ensures r == CombineResult(raws)
  {
    hide Decode, Encode, FirstFault, Serializable;
    if raws == [] {
      return Failure(NoPledges);
    }
    DecodeAllEach(raws);
    var parsed := ParseAll(raws);
    if parsed.Failure? {
      return Failure(BadTransaction(parsed.error));
    }
    var first := parsed.value[0];
    var combinedInputs :- CheckedInputs(parsed.value);
    var written := TxCodec.Serialize(Transaction(first.version, combinedInputs, first.outputs, first.locktime));
    if written.Failure? {
      return Failure(BadTransaction(written.error));
    }
    return Success(written.value);
  }

  // --- when combining succeeds -----------------------------------------------------------

  lemma {:induction false} NoFault(txs: seq<Transaction>, k: nat)
    requires k <= |txs| && forall i :: 0 <= i < k ==> |txs[i].inputs| == 1
    ensures FirstFault(txs, k).None? <==>
      && (forall j :: k <= j < |txs| ==> |txs[j].inputs| == 1)
      && (forall j :: k <= j < |txs| ==> FaultAt(txs, j).None?)
    decreases |txs| - k
  {
    if k < |txs| && FaultAt(txs, k).None? {
      NoFault(txs, k + 1);
    }
  }

  lemma NoFaultIffCompatible(txs: seq<Transaction>)
    ensures FirstFault(txs, 0).None? <==> Compatible(txs)
  {
    NoFault(txs, 0);
    if FirstFault(txs, 0).None? {
      forall i, k | 0 <= i < k < |txs|
        ensures OutpointKey(txs[i].inputs[0]) != OutpointKey(txs[k].inputs[0])
      {
        assert FaultAt(txs, k).None?;
        SpentBeforeMember(txs, k, OutpointKey(txs[k].inputs[0]));
      }
      forall i | 0 <= i < |txs|
        ensures txs[i].outputs == txs[0].outputs
        ensures txs[i].locktime == txs[0].locktime && txs[i].version == txs[0].version
      {
        assert FaultAt(txs, i).None?;
      }
    }
    if Compatible(txs) {
      forall k | 0 <= k < |txs| ensures FaultAt(txs, k).None? {
        SpentBeforeMember(txs, k, OutpointKey(txs[k].inputs[0]));
      }
    }
  }

  /** Two inputs with the same outpoint key spend the same output. */
  lemma OutpointKeyInjective(x: TxInput, y: TxInput)
    ensures OutpointKey(x) == OutpointKey(y) <==> x.prevTxidLe == y.prevTxidLe && x.vout == y.vout
  {
    if OutpointKey(x) == OutpointKey(y) {
      ReverseInjective(x.prevTxidLe, y.prevTxidLe);
    }
  }

  lemma CombinedIsWritable(raws: seq<bytes>, txs: seq<Transaction>)
    requires raws != [] && |txs| == |raws|
    requires forall i :: 0 <= i < |raws| ==> Decode(raws[i]) == Success(txs[i])
    requires Compatible(txs)
    ensures Carried(Combined(txs))
    ensures Serializable(Combined(txs)) <==> IsUint64(|raws|)
  {
    hide Decode, Encode;
    var tx := Combined(txs);
    ReencodingShrinks(raws[0]);
    forall x | x in tx.inputs
      ensures InputInRange(x) && WitnessInRange(x.witnessItems) && |x.prevTxidLe| == 32
    {
      var i :| 0 <= i < |txs| && tx.inputs[i] == x;
      ReencodingShrinks(raws[i]);
      assert txs[i].inputs[0] in txs[i].inputs;
    }
  }

  /**
   Combining succeeds exactly when there is a pledge, all of them parse, they are compatible
   and their number fits a count; the bytes written then parse to the combined transaction,
   in order and with the witnesses.
   */
  lemma CombineExactly(raws: seq<bytes>)
    ensures CombineResult(raws).Success? <==>
      && raws != [] && DecodeAll(raws).Success?
      && Compatible(DecodeAll(raws).value)
      && IsUint64(|raws|)
    ensures CombineResult(raws).Success? ==>
      var txs := DecodeAll(raws).value;
      txs != [] && Compatible(txs) && Decode(CombineResult(raws).value) == Success(Combined(txs))
  {
    hide Decode, Encode, FirstFault, Serializable, Carried;
    if raws != [] && DecodeAll(raws).Success? {
      var txs := DecodeAll(raws).value;
      DecodeAllEach(raws);
      NoFaultIffCompatible(txs);
      if Compatible(txs) {
        CombinedIsWritable(raws, txs);
        if IsUint64(|raws|) {
          DecodesEncoding(Combined(txs));
        }
      }
    }
  }

  lemma {:induction false} FirstFaultIsAt(txs: seq<Transaction>, j: nat, k: nat)
    requires j <= k < |txs| && forall i :: 0 <= i < k ==> |txs[i].inputs| == 1
    requires forall i :: j <= i < k ==> FaultAt(txs, i).None?
    requires FaultAt(txs, k).Some?
    ensures FirstFault(txs, j) == FaultAt(txs, k)
    decreases k - j
  {
    if j < k {
      FirstFaultIsAt(txs, j + 1, k);
    }
  }

  /**
   When the first `k` transactions are compatible and the next one is not compatible with
   them, the error says what is wrong with it, the number of inputs before everything else.
   */
  lemma FaultsAsSaid(txs: seq<Transaction>, k: nat)
    requires k < |txs| && Compatible(txs[..k]) && !Compatible(txs[..k + 1])
    ensures var fault, t, first := FirstFault(txs, 0), txs[k], txs[0];
      fault == Some(
        if |t.inputs| != 1 then NotOneInput
        else if t.outputs != first.outputs then OutputsDiffer
        else if t.locktime != first.locktime then LocktimeDiffers
        else if t.version != first.version then VersionDiffers
        else DuplicateInput)
  {
    hide FirstFault, OutpointKey, Compatible, FaultAt, SpentBefore;
    CompatibleSoFar(txs, k);
    if FaultAt(txs, k).None? {
      StillCompatible(txs, k);
    }
    FirstFaultIsAt(txs, 0, k);
    FaultMeans(txs, k);
  }

  lemma FaultMeans(txs: seq<Transaction>, k: nat)
    requires k < |txs| && (forall i :: 0 <= i < k ==> |txs[i].inputs| == 1) && FaultAt(txs, k).Some?
    ensures FaultAt(txs, k).value ==
      if |txs[k].inputs| != 1 then NotOneInput
      else if txs[k].outputs != txs[0].outputs then OutputsDiffer
      else if txs[k].locktime != txs[0].locktime then LocktimeDiffers
      else if txs[k].version != txs[0].version then VersionDiffers
      else DuplicateInput
  {}

  lemma CompatibleSoFar(txs: seq<Transaction>, k: nat)
    requires k < |txs| && Compatible(txs[..k])
    ensures forall i :: 0 <= i < k ==> |txs[i].inputs| == 1
    ensures forall i :: 0 <= i < k ==> FaultAt(txs, i).None?
  {
    hide OutpointKey;
    var part := txs[..k];
    forall i | 0 <= i < k ensures |txs[i].inputs| == 1 {
      assert |part[i].inputs| == 1;
    }
    forall i | 0 <= i < k ensures FaultAt(txs, i).None? {
      assert part[i] == txs[i] && part[0] == txs[0];
      SpentBeforeMember(txs, i, OutpointKey(txs[i].inputs[0]));
      forall j | 0 <= j < i ensures OutpointKey(txs[j].inputs[0]) != OutpointKey(txs[i].inputs[0]) {
        assert part[j] == txs[j];
      }
    }
  }

  lemma StillCompatible(txs: seq<Transaction>, k: nat)
    requires k < |txs| && Compatible(txs[..k]) && (forall i :: 0 <= i < k ==> |txs[i].inputs| == 1)
    requires FaultAt(txs, k).None?
    ensures Compatible(txs[..k + 1])
  {
    hide OutpointKey;
    var part, next := txs[..k], txs[..k + 1];
    SpentBeforeMember(txs, k, OutpointKey(txs[k].inputs[0]));
    forall i | 0 <= i < k ensures part[i] == next[i] {}
    assert next[k] == txs[k];
  }

  /**
   In the terms of the transactions alone: pledges combine exactly when there is one, all
   parse with one input each, agree in version, locktime and outputs, spend different outputs,
   and can be counted. What is written then parses to their inputs, witnesses included, in
   order, under what they agree on.
   */
  lemma CombinesAsSaid(raws: seq<bytes>)
    ensures CombineResult(raws).Success? <==>
      && 0 < |raws| <= 0xFFFF_FFFF_FFFF_FFFF
      && (forall i :: 0 <= i < |raws| ==> Decode(raws[i]).Success? && |Decode(raws[i]).value.inputs| == 1)
      && (forall i, j :: 0 <= i < j < |raws| ==>
            var t, u := Decode(raws[i]).value, Decode(raws[j]).value;
            && t.version == u.version && t.locktime == u.locktime && t.outputs == u.outputs
            && (t.inputs[0].prevTxidLe, t.inputs[0].vout) != (u.inputs[0].prevTxidLe, u.inputs[0].vout))
    ensures CombineResult(raws).Success? ==>
      && Decode(CombineResult(raws).value).Success?
      && var tx := Decode(CombineResult(raws).value).value;
         && |tx.inputs| == |raws|
         && forall i :: 0 <= i < |raws| ==>
              && Decode(raws[i]).Success? && Decode(raws[i]).value.inputs == [tx.inputs[i]]
              && Decode(raws[i]).value.version == tx.version
              && Decode(raws[i]).value.locktime == tx.locktime
              && Decode(raws[i]).value.outputs == tx.outputs
  {
    hide Decode, Encode, CombineResult, OutpointKey, DecodeAll;
    CombineExactly(raws);
    DecodeAllEach(raws);
    if DecodeAll(raws).Success? {
      var txs := DecodeAll(raws).value;
      forall i, j | 0 <= i < j < |txs| && |txs[i].inputs| == |txs[j].inputs| == 1
        ensures OutpointKey(txs[i].inputs[0]) == OutpointKey(txs[j].inputs[0]) <==>
          txs[i].inputs[0].prevTxidLe == txs[j].inputs[0].prevTxidLe && txs[i].inputs[0].vout == txs[j].inputs[0].vout
      {
        OutpointKeyInjective(txs[i].inputs[0], txs[j].inputs[0]);
      }
    }
  }
}
