/**
 The parser reads back what the serializer wrote, and what it accepts it can write again
 without growing it.
 */
module TxRoundTrip {
  import opened Wrappers
  import opened Bytes
  import opened TxFormat

  // --- reading what was written ----------------------------------------------------------

  lemma TakePrefix(b: bytes, rest: bytes)
    ensures TakeExact(b + rest, |b|) == Success((b, rest))
  {
    assert (b + rest)[..|b|] == b && (b + rest)[|b|..] == rest;
  }

  lemma UintRoundTrip(n: nat, width: nat, rest: bytes)
    requires n < Power256(width)
    ensures TakeUint(LittleEndian(n, width) + rest, width) == Success((n, rest))
  {
    TakePrefix(LittleEndian(n, width), rest);
    LittleEndianDecodes(n, width);
  }

  lemma VarintRoundTrip(n: nat, rest: bytes)
    requires n <= MAX_UINT64
    ensures TakeVarint(PutVarint(n, rest)) == Success((n, rest))
  {
    Widths();
    if n < 0xFD {
      TakePrefix([n], rest);
    } else {
      var width := if n <= 0xFFFF then 2 else if n <= MAX_UINT32 then 4 else 8;
      var prefix: byte := if n <= 0xFFFF then 0xFD else if n <= MAX_UINT32 then 0xFE else 0xFF;
      var tail := LittleEndian(n, width) + rest;
      assert PutVarint(n, rest) == [prefix] + tail;
      TakePrefix([prefix], tail);
      UintRoundTrip(n, width, rest);
    }
  }

  lemma StringRoundTrip(b: bytes, rest: bytes)
    requires StringInRange(b)
    ensures TakeString(PutString(b, rest)) == Success((b, rest))
  {
    VarintRoundTrip(|b|, b + rest);
    TakePrefix(b, rest);
  }

  lemma Uint32RoundTrip(n: nat, rest: bytes)
    requires IsUint32(n)
    ensures TakeUint(PutUint32(n, rest), 4) == Success((n, rest))
  {
    Widths();
    UintRoundTrip(n, 4, rest);
  }

  lemma Uint64RoundTrip(n: nat, rest: bytes)
    requires IsUint64(n)
    ensures TakeUint(PutUint64(n, rest), 8) == Success((n, rest))
  {
    Widths();
    UintRoundTrip(n, 8, rest);
  }

  lemma InputRoundTrip(x: TxInput, rest: bytes)
    requires InputInRange(x) && |x.prevTxidLe| == 32
    ensures TakeInput(PutInput(x, rest)) == Success((x.(witnessItems := []), rest))
  {
    var s3 := PutUint32(x.sequence, rest);
    var s2 := PutString(x.scriptSig, s3);
    var s1 := PutUint32(x.vout, s2);
    TakePrefix(x.prevTxidLe, s1);
    Uint32RoundTrip(x.vout, s2);
    StringRoundTrip(x.scriptSig, s3);
    Uint32RoundTrip(x.sequence, rest);
  }

  lemma {:induction false} InputsRoundTrip(xs: seq<TxInput>, rest: bytes)
    requires forall x :: x in xs ==> InputInRange(x) && |x.prevTxidLe| == 32
    ensures TakeInputs(PutInputs(xs, rest), |xs|) == Success((Bare(xs), rest))
  {
    if xs != [] {
      InputRoundTrip(xs[0], PutInputs(xs[1..], rest));
      InputsRoundTrip(xs[1..], rest);
    }
  }

  lemma OutputRoundTrip(x: TxOutput, rest: bytes)
    requires OutputInRange(x)
    ensures TakeOutput(PutOutput(x, rest)) == Success((x, rest))
  {
    Uint64RoundTrip(x.valueSats, PutString(x.scriptPubkey, rest));
    StringRoundTrip(x.scriptPubkey, rest);
  }

  lemma {:induction false} OutputsRoundTrip(xs: seq<TxOutput>, rest: bytes)
    requires forall x :: x in xs ==> OutputInRange(x)
    ensures TakeOutputs(PutOutputs(xs, rest), |xs|) == Success((xs, rest))
  {
    if xs != [] {
      OutputRoundTrip(xs[0], PutOutputs(xs[1..], rest));
      OutputsRoundTrip(xs[1..], rest);
      assert xs == [xs[0]] + xs[1..];
    }
  }

  lemma {:induction false} ItemsRoundTrip(items: seq<bytes>, rest: bytes)
    requires forall b :: b in items ==> StringInRange(b)
    ensures TakeItems(PutItems(items, rest), |items|) == Success((items, rest))
  {
    if items != [] {
      StringRoundTrip(items[0], PutItems(items[1..], rest));
      ItemsRoundTrip(items[1..], rest);
      assert items == [items[0]] + items[1..];
    }
  }

  lemma WitnessRoundTrip(w: seq<bytes>, rest: bytes)
    requires WitnessInRange(w)
    ensures TakeWitness(PutWitness(w, rest)) == Success((w, rest))
  {
    VarintRoundTrip(|w|, PutItems(w, rest));
    ItemsRoundTrip(w, rest);
  }

  /** The inputs without their witnesses. */
  function Bare(xs: seq<TxInput>): (r: seq<TxInput>)
    ensures |r| == |xs|
  {
    if xs == [] then [] else [xs[0].(witnessItems := [])] + Bare(xs[1..])
  }

  lemma {:induction false} WitnessesRoundTrip(xs: seq<TxInput>, rest: bytes)
    requires forall x :: x in xs ==> WitnessInRange(x.witnessItems)
    ensures TakeWitnesses(PutWitnesses(xs, rest), Bare(xs)) == Success((xs, rest))
  {
    if xs != [] {
      assert xs[0] in xs;
      WitnessRoundTrip(xs[0].witnessItems, PutWitnesses(xs[1..], rest));
      WitnessesRoundTrip(xs[1..], rest);
      assert Bare(xs)[1..] == Bare(xs[1..]);
      assert xs == [xs[0]] + xs[1..];
    }
  }

  lemma {:induction false} BareIsSame(xs: seq<TxInput>)
    requires forall x :: x in xs ==> x.witnessItems == []
    ensures Bare(xs) == xs
  {
    if xs != [] {
      assert xs[0] in xs;
      BareIsSame(xs[1..]);
    }
  }

  /** What the byte format can carry: full-length transaction ids and at least one input. */
  predicate Carried(tx: Transaction) {
    tx.inputs != [] && forall x :: x in tx.inputs ==> |x.prevTxidLe| == 32
  }

  lemma HeaderRoundTrip(tx: Transaction, rest: bytes)
    requires Serializable(tx) && tx.inputs != []
    ensures TakeHeader((if HasWitness(tx) then [0, 1] else []) + PutVarint(|tx.inputs|, rest))
      == Success(((HasWitness(tx), |tx.inputs|), rest))
  {
    var s := PutVarint(|tx.inputs|, rest);
    VarintRoundTrip(|tx.inputs|, rest);
    if HasWitness(tx) {
      assert [0, 1] + s == [0] + ([1] + s);
      TakePrefix([0], [1] + s);
      TakePrefix([1], s);
    } else {
      assert [] + s == s;
    }
  }

  lemma DecodesEncoding(tx: Transaction)
    requires Serializable(tx) && Carried(tx)
    ensures Decode(Encode(tx)) == Success(tx)
  {
    var s7: bytes := [];
    var s6 := PutUint32(tx.locktime, s7);
    var s5 := if HasWitness(tx) then PutWitnesses(tx.inputs, s6) else s6;
    var s4 := PutOutputs(tx.outputs, s5);
    var s3 := PutVarint(|tx.outputs|, s4);
    var s2 := PutInputs(tx.inputs, s3);
    var s1 := (if HasWitness(tx) then [0, 1] else []) + PutVarint(|tx.inputs|, s2);
    assert Encode(tx) == PutUint32(tx.version, s1);
    Uint32RoundTrip(tx.version, s1);
    HeaderRoundTrip(tx, s2);
    InputsRoundTrip(tx.inputs, s3);
    VarintRoundTrip(|tx.outputs|, s4);
    OutputsRoundTrip(tx.outputs, s5);
    if HasWitness(tx) {
      WitnessesRoundTrip(tx.inputs, s6);
    } else {
      BareIsSame(tx.inputs);
    }
    Uint32RoundTrip(tx.locktime, s7);
  }

  // --- writing what was read -------------------------------------------------------------

  lemma UintRange(s: bytes, width: nat)
    requires TakeUint(s, width).Success?
    ensures TakeUint(s, width).value.0 < Power256(width)
    ensures |s| == width + |TakeUint(s, width).value.1|
  {
    LittleEndianEncodes(s[..width]);
  }

  /** The shortest form of a count is no longer than the form it was read from. */
  lemma VarintShrinks(s: bytes, r: bytes)
    requires TakeVarint(s).Success?
    ensures var (n, rest) := TakeVarint(s).value;
      n <= MAX_UINT64 && |PutVarint(n, r)| + |rest| <= |s| + |r|
  {
    Widths();
    var width := if s[0] == 0xFD then 2 else if s[0] == 0xFE then 4 else 8;
    if s[0] >= 0xFD {
      UintRange(s[1..], width);
    }
  }

  lemma StringShrinks(s: bytes, r: bytes)
    requires TakeString(s).Success?
    ensures var (b, rest) := TakeString(s).value;
      StringInRange(b) && |PutString(b, r)| + |rest| <= |s| + |r|
  {
    var b := TakeString(s).value.0;
    VarintShrinks(s, b + r);
  }

  lemma InputShrinks(s: bytes, r: bytes)
    requires TakeInput(s).Success?
    ensures var (x, rest) := TakeInput(s).value;
      && InputInRange(x) && |x.prevTxidLe| == 32 && x.witnessItems == []
      && |PutInput(x, r)| + |rest| <= |s| + |r|
  {
    Widths();
    var (x, rest) := TakeInput(s).value;
    var s1 := s[32..];
    UintRange(s1, 4);
    var s2 := s1[4..];
    StringShrinks(s2, PutUint32(x.sequence, r));
    var s3 := TakeString(s2).value.1;
    UintRange(s3, 4);
  }

  lemma {:induction false} InputsShrink(s: bytes, count: nat, r: bytes)
    requires TakeInputs(s, count).Success?
    ensures var (xs, rest) := TakeInputs(s, count).value;
      && |xs| == count
      && (forall x :: x in xs ==> InputInRange(x) && |x.prevTxidLe| == 32 && x.witnessItems == [])
      && |PutInputs(xs, r)| + |rest| <= |s| + |r|
    decreases count
  {
    hide TakeInput, PutInput;
    if count > 0 {
      var (xs, rest) := TakeInputs(s, count).value;
      var s1 := TakeInput(s).value.1;
      InputsShrink(s1, count - 1, r);
      InputShrinks(s, PutInputs(xs[1..], r));
    }
  }

  lemma OutputShrinks(s: bytes, r: bytes)
    requires TakeOutput(s).Success?
    ensures var (x, rest) := TakeOutput(s).value;
      OutputInRange(x) && |PutOutput(x, r)| + |rest| <= |s| + |r|
  {
    Widths();
    UintRange(s, 8);
    StringShrinks(s[8..], r);
  }

  lemma {:induction false} OutputsShrink(s: bytes, count: nat, r: bytes)
    requires TakeOutputs(s, count).Success?
    ensures var (xs, rest) := TakeOutputs(s, count).value;
      && |xs| == count
      && (forall x :: x in xs ==> OutputInRange(x))
      && |PutOutputs(xs, r)| + |rest| <= |s| + |r|
    decreases count
  {
    hide TakeOutput, PutOutput;
    if count > 0 {
      var (xs, rest) := TakeOutputs(s, count).value;
      OutputsShrink(TakeOutput(s).value.1, count - 1, r);
      OutputShrinks(s, PutOutputs(xs[1..], r));
    }
  }

  lemma {:induction false} ItemsShrink(s: bytes, count: nat, r: bytes)
    requires TakeItems(s, count).Success?
    ensures var (xs, rest) := TakeItems(s, count).value;
      && |xs| == count
      && (forall x :: x in xs ==> StringInRange(x))
      && |PutItems(xs, r)| + |rest| <= |s| + |r|
    decreases count
  {
    hide TakeString, PutString;
    if count > 0 {
      var (xs, rest) := TakeItems(s, count).value;
      ItemsShrink(TakeString(s).value.1, count - 1, r);
      StringShrinks(s, PutItems(xs[1..], r));
    }
  }

  lemma WitnessShrinks(s: bytes, r: bytes)
    requires TakeWitness(s).Success?
    ensures var (w, rest) := TakeWitness(s).value;
      WitnessInRange(w) && |PutWitness(w, r)| + |rest| <= |s| + |r|
  {
    var w := TakeWitness(s).value.0;
    var (count, s1) := TakeVarint(s).value;
    ItemsShrink(s1, count, r);
    VarintShrinks(s, PutItems(w, r));
  }

  /** `ys` are the inputs `xs` with some witnesses. */
  ghost predicate Witnessed(xs: seq<TxInput>, ys: seq<TxInput>) {
    && |ys| == |xs|
    && (forall i :: 0 <= i < |xs| ==> ys[i].(witnessItems := []) == xs[i].(witnessItems := []))
    && (forall y :: y in ys ==> WitnessInRange(y.witnessItems))
  }

  lemma {:induction false} WitnessesShrink(s: bytes, xs: seq<TxInput>, r: bytes)
    requires TakeWitnesses(s, xs).Success?
    ensures var (ys, rest) := TakeWitnesses(s, xs).value;
      Witnessed(xs, ys) && |PutWitnesses(ys, r)| + |rest| <= |s| + |r|
    decreases |xs|
  {
    hide TakeWitness, PutWitness;
    if xs != [] {
      var (ys, rest) := TakeWitnesses(s, xs).value;
      WitnessesShrink(TakeWitness(s).value.1, xs[1..], r);
      WitnessShrinks(s, PutWitnesses(ys[1..], r));
    }
  }

  lemma {:induction false} ItemsGrow(items: seq<bytes>, r: bytes)
    requires forall b :: b in items ==> StringInRange(b)
    ensures |PutItems(items, r)| >= |r|
  {
    if items != [] {
      ItemsGrow(items[1..], r);
    }
  }

  lemma {:induction false} WitnessesGrow(xs: seq<TxInput>, r: bytes)
    requires forall x :: x in xs ==> WitnessInRange(x.witnessItems)
    ensures |PutWitnesses(xs, r)| >= |r|
  {
    if xs != [] {
      assert xs[0] in xs;
      WitnessesGrow(xs[1..], r);
      ItemsGrow(xs[0].witnessItems, PutWitnesses(xs[1..], r));
    }
  }

  lemma {:induction false} WitnessesDoNotShow(xs: seq<TxInput>, ys: seq<TxInput>, r: bytes)
    requires forall x :: x in xs ==> InputInRange(x)
    requires Witnessed(xs, ys)
    ensures forall y :: y in ys ==> InputInRange(y)
    ensures PutInputs(ys, r) == PutInputs(xs, r)
  {
    if xs != [] {
      assert ys[0].(witnessItems := []) == xs[0].(witnessItems := []);
      assert InputInRange(xs[0]);
      forall i | 0 <= i < |xs| - 1 ensures ys[1..][i].(witnessItems := []) == xs[1..][i].(witnessItems := []) {
        assert ys[i + 1].(witnessItems := []) == xs[i + 1].(witnessItems := []);
      }
      WitnessesDoNotShow(xs[1..], ys[1..], r);
    }
  }

  lemma HeaderShrinks(s: bytes, r: bytes)
    requires TakeHeader(s).Success?
    ensures var ((hasWitness, count), rest) := TakeHeader(s).value;
      && count <= MAX_UINT64 && (count == 0 ==> hasWitness)
      && (if hasWitness then 2 else 0) + |PutVarint(count, r)| + |rest| <= |s| + |r|
  {
    VarintShrinks(s, r);
    if TakeVarint(s).value.0 == 0 {
      VarintShrinks(s, []);
      VarintShrinks(TakeVarint(s).value.1[1..], r);
    }
  }

  /** The inputs as the parser returns them, with the bytes after their witnesses. */
  function TakeWitnessPart(s: bytes, xs: seq<TxInput>, hasWitness: bool): Parsed<seq<TxInput>> {
    if hasWitness then TakeWitnesses(s, xs) else Success((xs, s))
  }

  lemma WitnessPartShrinks(s: bytes, xs: seq<TxInput>, hasWitness: bool, r: bytes)
    requires TakeWitnessPart(s, xs, hasWitness).Success?
    requires forall x :: x in xs ==> InputInRange(x) && |x.prevTxidLe| == 32 && x.witnessItems == []
    ensures var (ys, rest) := TakeWitnessPart(s, xs, hasWitness).value;
      && Witnessed(xs, ys)
      && (forall y :: y in ys ==> |y.prevTxidLe| == 32)
      && (!hasWitness ==> forall y :: y in ys ==> y.witnessItems == [])
      && (hasWitness ==> |PutWitnesses(ys, r)| + |rest| <= |s| + |r|)
      && |rest| <= |s|
  {
    var (ys, rest) := TakeWitnessPart(s, xs, hasWitness).value;
    if hasWitness {
      WitnessesShrink(s, xs, r);
      WitnessesGrow(ys, r);
      forall y | y in ys ensures |y.prevTxidLe| == 32 {
        var i :| 0 <= i < |ys| && ys[i] == y;
        assert ys[i].(witnessItems := []) == xs[i].(witnessItems := []);
        assert xs[i] in xs;
      }
    }
  }

  /**
   Whatever the parser accepts can be written again, and writing it does not lengthen it;
   without inputs it even becomes shorter, since the marker and flag are lost.
   */
  lemma ReencodingShrinks(s: bytes)
    requires Decode(s).Success?
    ensures var tx := Decode(s).value;
      && Serializable(tx)
      && (forall x :: x in tx.inputs ==> |x.prevTxidLe| == 32)
      && |Encode(tx)| + (if tx.inputs == [] then 2 else 0) <= |s|
  {
    hide TakeHeader, TakeInputs, TakeOutputs, TakeWitnesses, TakeVarint;
    hide PutInputs, PutOutputs, PutWitnesses, PutVarint, EncodeVarint, LittleEndian, FromLittleEndian;
    var tx := Decode(s).value;
    Widths();
    UintRange(s, 4);
    var s1 := s[4..];
    var ((hasWitness, inputCount), s2) := TakeHeader(s1).value;
    var (plain, s3) := TakeInputs(s2, inputCount).value;
    var (outputCount, s4) := TakeVarint(s3).value;
    var (outputs, s5) := TakeOutputs(s4, outputCount).value;
    var s6 := if hasWitness then TakeWitnesses(s5, plain).value.1 else s5;
    UintRange(s6, 4);

    var r6 := PutUint32(tx.locktime, []);
    InputsShrink(s2, inputCount, []);
    WitnessPartShrinks(s5, plain, hasWitness, r6);
    WitnessesDoNotShow(plain, tx.inputs, []);
    var r5 := if HasWitness(tx) then PutWitnesses(tx.inputs, r6) else r6;
    OutputsShrink(s4, outputCount, r5);
    var r4 := PutOutputs(tx.outputs, r5);
    VarintShrinks(s3, r4);
    var r3 := PutVarint(|tx.outputs|, r4);
    InputsShrink(s2, inputCount, r3);
    WitnessesDoNotShow(plain, tx.inputs, r3);
    var r2 := PutInputs(tx.inputs, r3);
    HeaderShrinks(s1, r2);
  }

  /** Writing again what was parsed, when it has inputs, gives a form that parses to the same. */
  lemma ReencodingDecodes(s: bytes)
    requires Decode(s).Success? && Decode(s).value.inputs != []
    ensures var tx := Decode(s).value;
      Serializable(tx) && |Encode(tx)| <= |s| && Decode(Encode(tx)) == Decode(s)
  {
    ReencodingShrinks(s);
    DecodesEncoding(Decode(s).value);
  }

  /**
   A transaction survives the round trip exactly when it has an input and every previous
   transaction id has its 32 bytes.
   */
  lemma RoundTripExactly(tx: Transaction)
    requires Serializable(tx)
    ensures Decode(Encode(tx)) == Success(tx) <==> Carried(tx)
  {
    if Carried(tx) {
      DecodesEncoding(tx);
    } else if Decode(Encode(tx)) == Success(tx) {
      ReencodingShrinks(Encode(tx));
    }
  }
}
