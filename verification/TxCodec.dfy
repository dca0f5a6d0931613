/**
 The transaction serializer, which grows a byte array, and the parser, which advances a
 stream, each proved equal to the functions of the byte format.
 */
module TxCodec {
  import opened Wrappers
  import opened Bytes
  import opened TxFormat

  lemma Assoc(a: bytes, b: bytes, c: bytes)
    ensures (a + b) + c == a + (b + c)
  {}

  // --- serializer ------------------------------------------------------------------------

  /** Append a byte string behind its length. */
  method ExtendString(result: bytes, b: bytes, ghost rest: bytes) returns (r: Result<bytes, TxError>)
    ensures r.Success? <==> StringInRange(b)
    ensures r.Failure? ==> r.error == OutOfRange
    ensures r.Success? ==> r.value + rest == result + PutString(b, rest)
  {
    var size :- EncodeVarint(|b|);
    Assoc(result + size, b, rest);
    Assoc(result, size, b + rest);
    return Success(result + size + b);
  }

  method ExtendInput(result: bytes, x: TxInput, ghost rest: bytes) returns (r: Result<bytes, TxError>)
    ensures r.Success? <==> InputInRange(x)
    ensures r.Failure? ==> r.error == OutOfRange
    ensures r.Success? ==> r.value + rest == result + PutInput(x, rest)
  {
    var vout :- Uint32Le(x.vout);
    ghost var tail := if IsUint32(x.sequence) then PutUint32(x.sequence, rest) else [];
    var withScript :- ExtendString(result + x.prevTxidLe + vout, x.scriptSig, tail);
    var sequence :- Uint32Le(x.sequence);
    Assoc(withScript, sequence, rest);
    Assoc(result + x.prevTxidLe, vout, PutString(x.scriptSig, tail));
    Assoc(result, x.prevTxidLe, vout + PutString(x.scriptSig, tail));
    return Success(withScript + sequence);
  }

  method ExtendInputs(result: bytes, xs: seq<TxInput>, ghost rest: bytes) returns (r: Result<bytes, TxError>)
    ensures r.Success? <==> forall x :: x in xs ==> InputInRange(x)
    ensures r.Failure? ==> r.error == OutOfRange
    ensures r.Success? ==> r.value + rest == result + PutInputs(xs, rest)
  {
    hide PutInput, InputInRange;
    ghost var ok := forall x :: x in xs ==> InputInRange(x);
    var acc := result;
    for i := 0 to |xs|
      invariant forall j :: 0 <= j < i ==> InputInRange(xs[j])
      invariant ok ==> acc + PutInputs(xs[i..], rest) == result + PutInputs(xs, rest)
    {
      ghost var tail := if ok then PutInputs(xs[i + 1..], rest) else [];
      assert xs[i..][1..] == xs[i + 1..];
      acc :- ExtendInput(acc, xs[i], tail);
    }
    return Success(acc);
  }

  method ExtendOutputs(result: bytes, xs: seq<TxOutput>, ghost rest: bytes) returns (r: Result<bytes, TxError>)
    ensures r.Success? <==> forall x :: x in xs ==> OutputInRange(x)
    ensures r.Failure? ==> r.error == OutOfRange
    ensures r.Success? ==> r.value + rest == result + PutOutputs(xs, rest)
  {
    ghost var ok := forall x :: x in xs ==> OutputInRange(x);
    var acc := result;
    for i := 0 to |xs|
      invariant forall j :: 0 <= j < i ==> OutputInRange(xs[j])
      invariant ok ==> acc + PutOutputs(xs[i..], rest) == result + PutOutputs(xs, rest)
    {
      ghost var tail := if ok then PutOutputs(xs[i + 1..], rest) else [];
      assert xs[i..][1..] == xs[i + 1..];
      assert ok ==> OutputInRange(xs[i]);
      var value :- Uint64Le(xs[i].valueSats);
      ghost var before := acc;
      ghost var script := if ok then PutString(xs[i].scriptPubkey, tail) else [];
      Assoc(before, value, script);
      acc :- ExtendString(acc + value, xs[i].scriptPubkey, tail);
    }
    return Success(acc);
  }

  method ExtendWitness(result: bytes, w: seq<bytes>, ghost rest: bytes) returns (r: Result<bytes, TxError>)
    ensures r.Success? <==> WitnessInRange(w)
    ensures r.Failure? ==> r.error == OutOfRange
    ensures r.Success? ==> r.value + rest == result + PutWitness(w, rest)
  {
    var count :- EncodeVarint(|w|);
    ghost var ok := WitnessInRange(w);
    var acc := result + count;
    if ok {
      Assoc(result, count, PutItems(w, rest));
    }
    for i := 0 to |w|
      invariant forall j :: 0 <= j < i ==> StringInRange(w[j])
      invariant ok ==> acc + PutItems(w[i..], rest) == result + PutWitness(w, rest)
    {
      ghost var tail := if ok then PutItems(w[i + 1..], rest) else [];
      assert w[i..][1..] == w[i + 1..];
      acc :- ExtendString(acc, w[i], tail);
    }
    return Success(acc);
  }

  method ExtendWitnesses(result: bytes, xs: seq<TxInput>, ghost rest: bytes) returns (r: Result<bytes, TxError>)
    ensures r.Success? <==> forall x :: x in xs ==> WitnessInRange(x.witnessItems)
    ensures r.Failure? ==> r.error == OutOfRange
    ensures r.Success? ==> r.value + rest == result + PutWitnesses(xs, rest)
  {
    hide PutWitness, WitnessInRange;
    ghost var ok := forall x :: x in xs ==> WitnessInRange(x.witnessItems);
    var acc := result;
    for i := 0 to |xs|
      invariant forall j :: 0 <= j < i ==> WitnessInRange(xs[j].witnessItems)
      invariant ok ==> acc + PutWitnesses(xs[i..], rest) == result + PutWitnesses(xs, rest)
    {
      ghost var tail := if ok then PutWitnesses(xs[i + 1..], rest) else [];
      assert xs[i..][1..] == xs[i + 1..];
      acc :- ExtendWitness(acc, xs[i].witnessItems, tail);
    }
    return Success(acc);
  }

  method Serialize(tx: Transaction) returns (r: Result<bytes, TxError>)
    ensures r == if Serializable(tx) then Success(Encode(tx)) else Failure(OutOfRange)
  {
    hide PutInputs, PutOutputs, PutWitnesses, LittleEndian, EncodeVarint, InputInRange, OutputInRange;
    var hasWitness := HasWitness(tx);
    ghost var ok := Serializable(tx);
    ghost var t6 := if ok then PutUint32(tx.locktime, []) else [];
    ghost var t5 := if ok && hasWitness then PutWitnesses(tx.inputs, t6) else t6;
    ghost var t4 := if ok then PutOutputs(tx.outputs, t5) else [];
    ghost var t3 := if ok then PutVarint(|tx.outputs|, t4) else [];
    ghost var t2 := if ok then PutInputs(tx.inputs, t3) else [];
    ghost var t1 := if ok then PutVarint(|tx.inputs|, t2) else [];

    var version :- Uint32Le(tx.version);
    var result := version;
    if hasWitness {
      result := result + [0, 1];
    }
    assert ok ==> Encode(tx) == result + t1 by {
      Assoc(version, [0, 1], t1);
      assert [] + t1 == t1;
    }
    var inputCount :- EncodeVarint(|tx.inputs|);
    Assoc(result, inputCount, t2);
    result :- ExtendInputs(result + inputCount, tx.inputs, t3);
    var outputCount :- EncodeVarint(|tx.outputs|);
    Assoc(result, outputCount, t4);
    result :- ExtendOutputs(result + outputCount, tx.outputs, t5);
    if hasWitness {
      result :- ExtendWitnesses(result, tx.inputs, t6);
    }
    var locktime :- Uint32Le(tx.locktime);
    assert ok by {
      assert forall x :: x in tx.inputs ==> WitnessInRange(x.witnessItems);
    }
    assert locktime + [] == locktime;
    return Success(result + locktime);
  }

  // --- parser ----------------------------------------------------------------------------

  /**
   What reading an item means for a stream: it returns the item and stands behind it, or it
   raises.
   */
  ghost predicate Reads<T>(expected: Parsed<T>, r: Result<T, TxError>, after: bytes) {
    match expected
    case Success((x, rest)) => r == Success(x) && after == rest
    case Failure(e) => r == Failure(e)
  }

  class ByteStream {
    const data: bytes
    var pos: nat

    ghost predicate Valid()
      reads this
    {
      pos <= |data|
    }

    /** The bytes not read yet. */
    function Rest(): bytes
      requires Valid()
      reads this
    {
      data[pos..]
    }

    constructor (data: bytes)
      ensures Valid() && Rest() == data
    {
      this.data := data;
      pos := 0;
    }

    /** Read what is left. */
    method ReadAll() returns (b: bytes)
      requires Valid()
      modifies this
      ensures Valid() && b == old(Rest()) && Rest() == []
    {
      b := Rest();
      pos := |data|;
    }

    method ReadExact(size: nat) returns (r: Result<bytes, TxError>)
      requires Valid()
      modifies this
      ensures Valid() && Reads(TakeExact(old(Rest()), size), r, Rest())
    {
      var end := if size <= |data| - pos then pos + size else |data|;
      var value := data[pos..end];
      assert size <= |Rest()| ==> value == Rest()[..size] && data[end..] == Rest()[size..];
      pos := end;
      if |value| != size {
        return Failure(UnexpectedEnd);
      }
      return Success(value);
    }

    method ReadUint(width: nat) returns (r: Result<nat, TxError>)
      requires Valid()
      modifies this
      ensures Valid() && Reads(TakeUint(old(Rest()), width), r, Rest())
    {
      var b :- ReadExact(width);
      return Success(FromLittleEndian(b));
    }

    method ReadVarint() returns (r: Result<nat, TxError>)
      requires Valid()
      modifies this
      ensures Valid() && Reads(TakeVarint(old(Rest())), r, Rest())
    {
      var b :- ReadExact(1);
      if b[0] < 0xFD {
        return Success(b[0]);
      }
      if b[0] == 0xFD {
        r := ReadUint(2);
      } else if b[0] == 0xFE {
        r := ReadUint(4);
      } else {
        r := ReadUint(8);
      }
    }

    method ReadString() returns (r: Result<bytes, TxError>)
      requires Valid()
      modifies this
      ensures Valid() && Reads(TakeString(old(Rest())), r, Rest())
    {
      var size :- ReadVarint();
      r := ReadExact(size);
    }
  }

  method ReadInput(stream: ByteStream) returns (r: Result<TxInput, TxError>)
    requires stream.Valid()
    modifies stream
    ensures stream.Valid() && Reads(TakeInput(old(stream.Rest())), r, stream.Rest())
  {
    hide TakeExact, TakeUint, TakeString;
    var prevTxidLe :- stream.ReadExact(32);
    var vout :- stream.ReadUint(4);
    var scriptSig :- stream.ReadString();
    var sequence :- stream.ReadUint(4);
    return Success(TxInput(prevTxidLe, vout, scriptSig, sequence, []));
  }

  method ReadOutput(stream: ByteStream) returns (r: Result<TxOutput, TxError>)
    requires stream.Valid()
    modifies stream
    ensures stream.Valid() && Reads(TakeOutput(old(stream.Rest())), r, stream.Rest())
  {
    hide TakeUint, TakeString;
    var valueSats :- stream.ReadUint(8);
    var scriptPubkey :- stream.ReadString();
    return Success(TxOutput(valueSats, scriptPubkey));
  }

  /** Items read before `more`, put in front of them. */
  function Ahead<T>(xs: seq<T>, more: Parsed<seq<T>>): Parsed<seq<T>> {
    match more
    case Success((ys, rest)) => Success((xs + ys, rest))
    case Failure(e) => Failure(e)
  }

  lemma AheadOne<T>(xs: seq<T>, x: T, more: Parsed<seq<T>>)
    ensures Ahead(xs, Ahead([x], more)) == Ahead(xs + [x], more)
  {
    if more.Success? {
      assert xs + ([x] + more.value.0) == xs + [x] + more.value.0;
    }
  }

  lemma AheadNone<T>(more: Parsed<seq<T>>)
    ensures Ahead([], more) == more
  {
    if more.Success? {
      assert [] + more.value.0 == more.value.0;
    }
  }

  method ReadInputs(stream: ByteStream, count: nat) returns (r: Result<seq<TxInput>, TxError>)
    requires stream.Valid()
    modifies stream
    ensures stream.Valid() && Reads(TakeInputs(old(stream.Rest()), count), r, stream.Rest())
  {
    hide TakeInput;
    ghost var all := TakeInputs(stream.Rest(), count);
    var inputs := [];
    AheadNone(all);
    for i := 0 to count
      invariant stream.Valid()
      invariant all == Ahead(inputs, TakeInputs(stream.Rest(), count - i))
    {
      ghost var s := stream.Rest();
      var x :- ReadInput(stream);
      assert TakeInputs(s, count - i) == Ahead([x], TakeInputs(stream.Rest(), count - i - 1));
      AheadOne(inputs, x, TakeInputs(stream.Rest(), count - i - 1));
      inputs := inputs + [x];
    }
    assert inputs + [] == inputs;
    return Success(inputs);
  }

  method ReadOutputs(stream: ByteStream, count: nat) returns (r: Result<seq<TxOutput>, TxError>)
    requires stream.Valid()
    modifies stream
    ensures stream.Valid() && Reads(TakeOutputs(old(stream.Rest()), count), r, stream.Rest())
  {
    hide TakeOutput;
    ghost var all := TakeOutputs(stream.Rest(), count);
    var outputs := [];
    AheadNone(all);
    for i := 0 to count
      invariant stream.Valid()
      invariant all == Ahead(outputs, TakeOutputs(stream.Rest(), count - i))
    {
      ghost var s := stream.Rest();
      var x :- ReadOutput(stream);
      assert TakeOutputs(s, count - i) == Ahead([x], TakeOutputs(stream.Rest(), count - i - 1));
      AheadOne(outputs, x, TakeOutputs(stream.Rest(), count - i - 1));
      outputs := outputs + [x];
    }
    assert outputs + [] == outputs;
    return Success(outputs);
  }

  method ReadWitness(stream: ByteStream) returns (r: Result<seq<bytes>, TxError>)
    requires stream.Valid()
    modifies stream
    ensures stream.Valid() && Reads(TakeWitness(old(stream.Rest())), r, stream.Rest())
  {
    hide TakeString, TakeVarint;
    var count :- stream.ReadVarint();
    ghost var all := TakeItems(stream.Rest(), count);
    var items := [];
    AheadNone(all);
    for i := 0 to count
      invariant stream.Valid()
      invariant all == Ahead(items, TakeItems(stream.Rest(), count - i))
    {
      ghost var s := stream.Rest();
      var x :- stream.ReadString();
      assert TakeItems(s, count - i) == Ahead([x], TakeItems(stream.Rest(), count - i - 1));
      AheadOne(items, x, TakeItems(stream.Rest(), count - i - 1));
      items := items + [x];
    }
    assert items + [] == items;
    return Success(items);
  }

  method ReadWitnesses(stream: ByteStream, inputs: seq<TxInput>) returns (r: Result<seq<TxInput>, TxError>)
    requires stream.Valid()
    modifies stream
    ensures stream.Valid() && Reads(TakeWitnesses(old(stream.Rest()), inputs), r, stream.Rest())
  {
    hide TakeWitness;
    ghost var all := TakeWitnesses(stream.Rest(), inputs);
    var newInputs := [];
    AheadNone(all);
    for i := 0 to |inputs|
      invariant stream.Valid()
      invariant all == Ahead(newInputs, TakeWitnesses(stream.Rest(), inputs[i..]))
    {
      ghost var s := stream.Rest();
      assert inputs[i..][1..] == inputs[i + 1..];
      var items :- ReadWitness(stream);
      var x := inputs[i].(witnessItems := items);
      assert TakeWitnesses(s, inputs[i..]) == Ahead([x], TakeWitnesses(stream.Rest(), inputs[i + 1..]));
      AheadOne(newInputs, x, TakeWitnesses(stream.Rest(), inputs[i + 1..]));
      newInputs := newInputs + [x];
    }
    assert newInputs + [] == newInputs;
    return Success(newInputs);
  }

  method ParseTransaction(raw: bytes) returns (r: Result<Transaction, TxError>)
    ensures r == Decode(raw)
  {
    hide TakeExact, TakeUint, TakeVarint, TakeInputs, TakeOutputs, TakeWitnesses;
    var stream := new ByteStream(raw);
    var version :- stream.ReadUint(4);
    ghost var s1 := stream.Rest();
    var markerOrInputCount :- stream.ReadVarint();
    var hasWitness := false;
    var inputCount := markerOrInputCount;
    if markerOrInputCount == 0 {
      var flag :- stream.ReadExact(1);
      if flag != [1] {
        return Failure(BadMarkerFlag);
      }
      hasWitness := true;
      inputCount :- stream.ReadVarint();
    }
    assert TakeHeader(s1) == Success(((hasWitness, inputCount), stream.Rest()));
    var inputs :- ReadInputs(stream, inputCount);
    var outputCount :- stream.ReadVarint();
    var outputs :- ReadOutputs(stream, outputCount);
    if hasWitness {
      inputs :- ReadWitnesses(stream, inputs);
    }
    var locktime :- stream.ReadUint(4);
    var remaining := stream.ReadAll();
    if remaining != [] {
      return Failure(TrailingBytes);
    }
    return Success(Transaction(version, inputs, outputs, locktime));
  }
}
