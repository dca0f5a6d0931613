/**
 Exactly which byte strings the parser accepts, and as what: the format as a grammar, without
 the order in which a parser reads it.
 */
module TxGrammar {
  import opened Wrappers
  import opened Bytes
  import opened TxFormat
  import opened TxRoundTrip

  // --- the grammar -----------------------------------------------------------------------

  /** A count in one, three, five or nine bytes, however small it is. */
  ghost predicate IsCount(b: bytes, n: nat) {
    || (n < 0xFD && b == [n])
    || (|b| == 3 && b[0] == 0xFD && FromLittleEndian(b[1..]) == n)
    || (|b| == 5 && b[0] == 0xFE && FromLittleEndian(b[1..]) == n)
    || (|b| == 9 && b[0] == 0xFF && FromLittleEndian(b[1..]) == n)
  }

  /** A byte string behind its length. */
  ghost predicate IsString(b: bytes, x: bytes) {
    exists c :: IsCount(c, |x|) && b == c + x
  }

  /** The previous transaction id, the output's number, the script and the sequence. */
  ghost predicate IsInput(b: bytes, x: TxInput) {
    && |x.prevTxidLe| == 32 && IsUint32(x.vout) && IsUint32(x.sequence) && x.witnessItems == []
    && exists script :: IsString(script, x.scriptSig)
         && b == x.prevTxidLe + (LittleEndian(x.vout, 4) + (script + LittleEndian(x.sequence, 4)))
  }

  ghost predicate IsOutput(b: bytes, x: TxOutput) {
    && IsUint64(x.valueSats)
    && exists script :: IsString(script, x.scriptPubkey) && b == LittleEndian(x.valueSats, 8) + script
  }

  /** One after the other. */
  ghost predicate AreInputs(b: bytes, xs: seq<TxInput>)
    decreases |xs|
  {
    if xs == [] then b == []
    else exists c, d :: b == c + d && IsInput(c, xs[0]) && AreInputs(d, xs[1..])
  }

  ghost predicate AreOutputs(b: bytes, xs: seq<TxOutput>)
    decreases |xs|
  {
    if xs == [] then b == []
    else exists c, d :: b == c + d && IsOutput(c, xs[0]) && AreOutputs(d, xs[1..])
  }

  ghost predicate AreStrings(b: bytes, xs: seq<bytes>)
    decreases |xs|
  {
    if xs == [] then b == []
    else exists c, d :: b == c + d && IsString(c, xs[0]) && AreStrings(d, xs[1..])
  }

  ghost predicate IsWitness(b: bytes, w: seq<bytes>) {
    exists c, d :: b == c + d && IsCount(c, |w|) && AreStrings(d, w)
  }

  /** The witnesses of the inputs. */
  ghost predicate AreWitnesses(b: bytes, xs: seq<TxInput>)
    decreases |xs|
  {
    if xs == [] then b == []
    else exists c, d :: b == c + d && IsWitness(c, xs[0].witnessItems) && AreWitnesses(d, xs[1..])
  }

  /** The parts of a transaction: what stands between version and inputs, and the rest in order. */
  datatype Parts = Parts(
    marker: bytes, inputCount: bytes, inputs: bytes, outputCount: bytes, outputs: bytes, witnesses: bytes)

  /**
   Version, inputs, outputs and locktime; or the same with a zero count and a one before the
   inputs, and then the witnesses before the locktime.
   */
  ghost predicate IsTransaction(s: bytes, tx: Transaction) {
    && IsUint32(tx.version) && IsUint32(tx.locktime)
    && exists p: Parts :: s == Joined(tx, p) && AreParts(p, tx)
  }

  ghost function Joined(tx: Transaction, p: Parts): bytes
    requires IsUint32(tx.version) && IsUint32(tx.locktime)
  {
    LittleEndian(tx.version, 4) + (p.marker + (p.inputCount + (p.inputs + (p.outputCount + (p.outputs
    + (p.witnesses + LittleEndian(tx.locktime, 4)))))))
  }

  ghost predicate AreParts(p: Parts, tx: Transaction) {
    && IsCount(p.inputCount, |tx.inputs|) && AreInputs(p.inputs, Bare(tx.inputs))
    && IsCount(p.outputCount, |tx.outputs|) && AreOutputs(p.outputs, tx.outputs)
    && if p.marker == [] then tx.inputs != [] && Bare(tx.inputs) == tx.inputs && p.witnesses == []
       else IsMarker(p.marker) && AreWitnesses(p.witnesses, tx.inputs)
  }

  ghost predicate IsMarker(b: bytes) { exists zero :: IsCount(zero, 0) && b == zero + [1] }

  // --- numbers and strings ---------------------------------------------------------------

  lemma UintReads(b: bytes, rest: bytes, width: nat)
    requires |b| == width
    ensures TakeUint(b + rest, width) == Success((FromLittleEndian(b), rest))
  {
    TakePrefix(b, rest);
  }

  lemma UintWrote(s: bytes, width: nat)
    requires TakeUint(s, width).Success?
    ensures var (n, rest) := TakeUint(s, width).value; n < Power256(width) && s == LittleEndian(n, width) + rest
  {
    LittleEndianEncodes(s[..width]);
  }

  lemma CountReads(c: bytes, n: nat, rest: bytes)
    requires IsCount(c, n)
    ensures TakeVarint(c + rest) == Success((n, rest))
  {
    TakePrefix([c[0]], c[1..] + rest);
    assert c + rest == [c[0]] + (c[1..] + rest);
    if |c| == 1 {
      assert c[1..] + rest == rest;
    } else {
      UintReads(c[1..], rest, |c| - 1);
    }
  }

  lemma CountWrote(s: bytes) returns (c: bytes)
    requires TakeVarint(s).Success?
    ensures var (n, rest) := TakeVarint(s).value; IsCount(c, n) && s == c + rest
  {
    hide FromLittleEndian;
    assert s[..1][0] == s[0];
    if s[0] < 0xFD {
      c := s[..1];
      assert c == [s[0]];
    } else {
      var width := if s[0] == 0xFD then 2 else if s[0] == 0xFE then 4 else 8;
      assert TakeUint(s[1..], width).Success?;
      c := s[..1 + width];
      assert s[1..][..width] == c[1..] && s[1..][width..] == s[1 + width..];
    }
  }

  lemma StringReads(b: bytes, x: bytes, rest: bytes)
    requires IsString(b, x)
    ensures TakeString(b + rest) == Success((x, rest))
  {
    hide IsCount, TakeVarint;
    var c :| IsCount(c, |x|) && b == c + x;
    assert b + rest == c + (x + rest);
    CountReads(c, |x|, x + rest);
    TakePrefix(x, rest);
  }

  lemma StringWrote(s: bytes) returns (b: bytes)
    requires TakeString(s).Success?
    ensures var (x, rest) := TakeString(s).value; IsString(b, x) && s == b + rest
  {
    hide IsCount, TakeVarint;
    var (x, rest) := TakeString(s).value;
    var c := CountWrote(s);
    var (n, s1) := TakeVarint(s).value;
    assert s1 == s1[..n] + s1[n..] == x + rest && |x| == n;
    b := c + x;
    assert s == c + (x + rest);
  }

  // --- inputs and outputs ----------------------------------------------------------------

  lemma InputReads(b: bytes, x: TxInput, rest: bytes)
    requires IsInput(b, x)
    ensures TakeInput(b + rest) == Success((x, rest))
  {
    hide IsString, TakeString, LittleEndian;
    var script :| IsString(script, x.scriptSig)
      && b == x.prevTxidLe + (LittleEndian(x.vout, 4) + (script + LittleEndian(x.sequence, 4)));
    var s3 := LittleEndian(x.sequence, 4) + rest;
    var s2 := script + s3;
    var s1 := LittleEndian(x.vout, 4) + s2;
    assert b + rest == x.prevTxidLe + s1;
    TakePrefix(x.prevTxidLe, s1);
    Uint32RoundTrip(x.vout, s2);
    StringReads(script, x.scriptSig, s3);
    Uint32RoundTrip(x.sequence, rest);
  }

  lemma InputWrote(s: bytes) returns (b: bytes)
    requires TakeInput(s).Success?
    ensures var (x, rest) := TakeInput(s).value; IsInput(b, x) && s == b + rest
  {
    hide IsString, TakeString, LittleEndian, FromLittleEndian;
    Widths();
    var (x, rest) := TakeInput(s).value;
    var s1 := s[32..];
    UintWrote(s1, 4);
    var s2 := s1[4..];
    var script := StringWrote(s2);
    var s3 := TakeString(s2).value.1;
    UintWrote(s3, 4);
    var v, q := LittleEndian(x.vout, 4), LittleEndian(x.sequence, 4);
    b := x.prevTxidLe + (v + (script + q));
    assert s == x.prevTxidLe + s1 && s1 == v + s2 && s2 == script + s3 && s3 == q + rest;
    assert s == b + rest;
  }

  lemma {:induction false} InputsRead(b: bytes, xs: seq<TxInput>, rest: bytes)
    requires AreInputs(b, xs)
    ensures TakeInputs(b + rest, |xs|) == Success((xs, rest))
    decreases |xs|
  {
    hide IsInput, TakeInput;
    if xs != [] {
      var c, d :| b == c + d && IsInput(c, xs[0]) && AreInputs(d, xs[1..]);
      assert b + rest == c + (d + rest);
      InputReads(c, xs[0], d + rest);
      InputsRead(d, xs[1..], rest);
      assert xs == [xs[0]] + xs[1..];
    } else {
      assert b + rest == rest;
    }
  }

  lemma {:induction false} InputsWrote(s: bytes, count: nat) returns (b: bytes)
    requires TakeInputs(s, count).Success?
    ensures var (xs, rest) := TakeInputs(s, count).value;
      |xs| == count && AreInputs(b, xs) && Bare(xs) == xs && s == b + rest
    decreases count
  {
    hide IsInput, TakeInput;
    b := [];
    if count > 0 {
      var c := InputWrote(s);
      var (x, s1) := TakeInput(s).value;
      var d := InputsWrote(s1, count - 1);
      var xs := TakeInputs(s1, count - 1).value.0;
      b := c + d;
      assert ([x] + xs)[1..] == xs;
      InputIsBare(c, x);
      assert s == c + (d + TakeInputs(s, count).value.1);
    }
  }

  lemma InputIsBare(b: bytes, x: TxInput)
    requires IsInput(b, x)
    ensures x.(witnessItems := []) == x
  {}

  lemma OutputReads(b: bytes, x: TxOutput, rest: bytes)
    requires IsOutput(b, x)
    ensures TakeOutput(b + rest) == Success((x, rest))
  {
    hide IsString, TakeString, LittleEndian;
    var script :| IsString(script, x.scriptPubkey) && b == LittleEndian(x.valueSats, 8) + script;
    assert b + rest == LittleEndian(x.valueSats, 8) + (script + rest);
    Uint64RoundTrip(x.valueSats, script + rest);
    StringReads(script, x.scriptPubkey, rest);
  }

  lemma OutputWrote(s: bytes) returns (b: bytes)
    requires TakeOutput(s).Success?
    ensures var (x, rest) := TakeOutput(s).value; IsOutput(b, x) && s == b + rest
  {
    hide IsString, TakeString, LittleEndian, FromLittleEndian;
    Widths();
    UintWrote(s, 8);
    var script := StringWrote(s[8..]);
    b := LittleEndian(TakeOutput(s).value.0.valueSats, 8) + script;
  }

  lemma {:induction false} OutputsRead(b: bytes, xs: seq<TxOutput>, rest: bytes)
    requires AreOutputs(b, xs)
    ensures TakeOutputs(b + rest, |xs|) == Success((xs, rest))
    decreases |xs|
  {
    hide IsOutput, TakeOutput;
    if xs != [] {
      var c, d :| b == c + d && IsOutput(c, xs[0]) && AreOutputs(d, xs[1..]);
      assert b + rest == c + (d + rest);
      OutputReads(c, xs[0], d + rest);
      OutputsRead(d, xs[1..], rest);
      assert xs == [xs[0]] + xs[1..];
    } else {
      assert b + rest == rest;
    }
  }

  lemma {:induction false} OutputsWrote(s: bytes, count: nat) returns (b: bytes)
    requires TakeOutputs(s, count).Success?
    ensures var (xs, rest) := TakeOutputs(s, count).value; |xs| == count && AreOutputs(b, xs) && s == b + rest
    decreases count
  {
    hide IsOutput, TakeOutput;
    b := [];
    if count > 0 {
      var c := OutputWrote(s);
      var (x, s1) := TakeOutput(s).value;
      var d := OutputsWrote(s1, count - 1);
      var xs := TakeOutputs(s1, count - 1).value.0;
      b := c + d;
      assert ([x] + xs)[1..] == xs;
      assert s == c + (d + TakeOutputs(s, count).value.1);
    }
  }

  // --- witnesses -------------------------------------------------------------------------

  lemma {:induction false} StringsRead(b: bytes, xs: seq<bytes>, rest: bytes)
    requires AreStrings(b, xs)
    ensures TakeItems(b + rest, |xs|) == Success((xs, rest))
    decreases |xs|
  {
    hide IsString, TakeString;
    if xs != [] {
      var c, d :| b == c + d && IsString(c, xs[0]) && AreStrings(d, xs[1..]);
      assert b + rest == c + (d + rest);
      StringReads(c, xs[0], d + rest);
      StringsRead(d, xs[1..], rest);
      assert xs == [xs[0]] + xs[1..];
    } else {
      assert b + rest == rest;
    }
  }

  lemma {:induction false} StringsWrote(s: bytes, count: nat) returns (b: bytes)
    requires TakeItems(s, count).Success?
    ensures var (xs, rest) := TakeItems(s, count).value; |xs| == count && AreStrings(b, xs) && s == b + rest
    decreases count
  {
    hide IsString, TakeString;
    b := [];
    if count > 0 {
      var c := StringWrote(s);
      var (x, s1) := TakeString(s).value;
      var d := StringsWrote(s1, count - 1);
      var xs := TakeItems(s1, count - 1).value.0;
      b := c + d;
      assert ([x] + xs)[1..] == xs;
      assert s == c + (d + TakeItems(s, count).value.1);
    }
  }

  lemma WitnessReads(b: bytes, w: seq<bytes>, rest: bytes)
    requires IsWitness(b, w)
    ensures TakeWitness(b + rest) == Success((w, rest))
  {
    hide IsCount, TakeVarint, AreStrings, TakeItems;
    var c, d :| b == c + d && IsCount(c, |w|) && AreStrings(d, w);
    assert b + rest == c + (d + rest);
    CountReads(c, |w|, d + rest);
    StringsRead(d, w, rest);
  }

  lemma WitnessWrote(s: bytes) returns (b: bytes)
    requires TakeWitness(s).Success?
    ensures var (w, rest) := TakeWitness(s).value; IsWitness(b, w) && s == b + rest
  {
    hide IsCount, TakeVarint, AreStrings, TakeItems;
    var c := CountWrote(s);
    var (count, s1) := TakeVarint(s).value;
    var d := StringsWrote(s1, count);
    b := c + d;
    assert s == c + (d + TakeWitness(s).value.1);
  }

  lemma {:induction false} WitnessesRead(b: bytes, xs: seq<TxInput>, rest: bytes)
    requires AreWitnesses(b, xs)
    ensures TakeWitnesses(b + rest, Bare(xs)) == Success((xs, rest))
    decreases |xs|
  {
    hide IsWitness, TakeWitness;
    if xs != [] {
      var c, d :| b == c + d && IsWitness(c, xs[0].witnessItems) && AreWitnesses(d, xs[1..]);
      assert b + rest == c + (d + rest);
      WitnessReads(c, xs[0].witnessItems, d + rest);
      WitnessesRead(d, xs[1..], rest);
      assert Bare(xs)[1..] == Bare(xs[1..]);
      assert xs == [xs[0]] + xs[1..];
    } else {
      assert b + rest == rest;
    }
  }

  lemma {:induction false} WitnessesWrote(s: bytes, xs: seq<TxInput>) returns (b: bytes)
    requires TakeWitnesses(s, xs).Success? && Bare(xs) == xs
    ensures var (ys, rest) := TakeWitnesses(s, xs).value;
      |ys| == |xs| && AreWitnesses(b, ys) && Bare(ys) == xs && s == b + rest
    decreases |xs|
  {
    hide IsWitness, TakeWitness;
    b := [];
    if xs != [] {
      var c := WitnessWrote(s);
      var (w, s1) := TakeWitness(s).value;
      assert Bare(xs)[1..] == Bare(xs[1..]) && Bare(xs)[0] == xs[0].(witnessItems := []);
      var d := WitnessesWrote(s1, xs[1..]);
      var ys := TakeWitnesses(s1, xs[1..]).value.0;
      b := c + d;
      var all := [xs[0].(witnessItems := w)] + ys;
      assert all[1..] == ys;
      assert Bare(all) == [xs[0]] + Bare(ys) == xs;
      assert s == c + (d + TakeWitnesses(s, xs).value.1);
    }
  }

  // --- transactions ----------------------------------------------------------------------

  lemma HeaderReads(marker: bytes, count: bytes, n: nat, rest: bytes)
    requires IsCount(count, n)
    requires if marker == [] then n > 0 else IsMarker(marker)
    ensures TakeHeader(marker + (count + rest)) == Success(((marker != [], n), rest))
  {
    hide IsCount, TakeVarint;
    CountReads(count, n, rest);
    if marker == [] {
      assert marker + (count + rest) == count + rest;
    } else {
      var zero :| IsCount(zero, 0) && marker == zero + [1];
      assert marker + (count + rest) == zero + ([1] + (count + rest));
      CountReads(zero, 0, [1] + (count + rest));
      TakePrefix([1], count + rest);
    }
  }

  lemma HeaderWrote(s: bytes) returns (marker: bytes, count: bytes)
    requires TakeHeader(s).Success?
    ensures var ((hasWitness, n), rest) := TakeHeader(s).value;
      && IsCount(count, n) && s == marker + (count + rest) && hasWitness == (marker != [])
      && if marker == [] then n > 0 else IsMarker(marker)
  {
    hide IsCount, TakeVarint;
    var c := CountWrote(s);
    var (n, s1) := TakeVarint(s).value;
    if n != 0 {
      marker, count := [], c;
      assert [] + s == s;
    } else {
      var d := CountWrote(s1[1..]);
      marker, count := c + [1], d;
      assert s1 == [1] + s1[1..];
      assert s == (c + [1]) + s1[1..];
    }
  }

  lemma JoinedThen(tx: Transaction, p: Parts, more: bytes)
    requires IsUint32(tx.version) && IsUint32(tx.locktime)
    ensures Joined(tx, p) + more
         == LittleEndian(tx.version, 4) + (p.marker + (p.inputCount + (p.inputs + (p.outputCount + (p.outputs
          + (p.witnesses + (LittleEndian(tx.locktime, 4) + more)))))))
  {
    hide LittleEndian;
  }

  lemma GrammarReads(tx: Transaction, p: Parts, more: bytes)
    requires IsUint32(tx.version) && IsUint32(tx.locktime) && AreParts(p, tx)
    ensures Decode(Joined(tx, p) + more) == if more == [] then Success(tx) else Failure(TrailingBytes)
  {
    hide TakeHeader, TakeInputs, TakeOutputs, TakeWitnesses, TakeVarint, LittleEndian, FromLittleEndian;
    hide IsCount, AreInputs, AreOutputs, AreWitnesses, IsMarker, Bare;
    var s6 := LittleEndian(tx.locktime, 4) + more;
    var s5 := p.witnesses + s6;
    var s4 := p.outputs + s5;
    var s3 := p.outputCount + s4;
    var s2 := p.inputs + s3;
    var s1 := p.marker + (p.inputCount + s2);
    JoinedThen(tx, p, more);
    Uint32RoundTrip(tx.version, s1);
    HeaderReads(p.marker, p.inputCount, |tx.inputs|, s2);
    InputsRead(p.inputs, Bare(tx.inputs), s3);
    CountReads(p.outputCount, |tx.outputs|, s4);
    OutputsRead(p.outputs, tx.outputs, s5);
    if p.marker == [] {
      assert s5 == s6;
    } else {
      WitnessesRead(p.witnesses, tx.inputs, s6);
    }
    Uint32RoundTrip(tx.locktime, more);
  }

  lemma GrammarWrote(s: bytes)
    requires Decode(s).Success?
    ensures IsTransaction(s, Decode(s).value)
  {
    hide TakeHeader, TakeInputs, TakeOutputs, TakeWitnesses, TakeVarint, LittleEndian, FromLittleEndian;
    hide IsCount, AreInputs, AreOutputs, AreWitnesses, IsMarker, Bare;
    Widths();
    var tx := Decode(s).value;
    UintWrote(s, 4);
    var s1 := s[4..];
    var marker, inputCount := HeaderWrote(s1);
    var ((hasWitness, n), s2) := TakeHeader(s1).value;
    var inputs := InputsWrote(s2, n);
    var (plain, s3) := TakeInputs(s2, n).value;
    var outputCount := CountWrote(s3);
    var (m, s4) := TakeVarint(s3).value;
    var outputs := OutputsWrote(s4, m);
    var s5 := TakeOutputs(s4, m).value.1;
    var witnesses: bytes := [];
    var s6 := s5;
    if hasWitness {
      witnesses := WitnessesWrote(s5, plain);
      s6 := TakeWitnesses(s5, plain).value.1;
    } else {
      assert [] + s5 == s5;
    }
    UintWrote(s6, 4);
    assert s6 == LittleEndian(tx.locktime, 4) + [] == LittleEndian(tx.locktime, 4);
    var p := Parts(marker, inputCount, inputs, outputCount, outputs, witnesses);
    assert s == Joined(tx, p) && AreParts(p, tx);
  }

  /** The parser accepts a byte string as a transaction exactly when the grammar says so. */
  lemma ParsesExactly(s: bytes, tx: Transaction)
    ensures Decode(s) == Success(tx) <==> IsTransaction(s, tx)
  {
    hide Decode, AreParts, Joined;
    if Decode(s).Success? {
      GrammarWrote(s);
    }
    if IsTransaction(s, tx) {
      var p: Parts :| s == Joined(tx, p) && AreParts(p, tx);
      GrammarReads(tx, p, []);
      assert s + [] == s;
    }
  }

  /** A transaction with anything after it is refused for what comes after it. */
  lemma NothingMayFollow(s: bytes, tx: Transaction, more: bytes)
    requires IsTransaction(s, tx) && more != []
    ensures Decode(s + more) == Failure(TrailingBytes)
  {
    hide Decode, AreParts, Joined;
    var p: Parts :| s == Joined(tx, p) && AreParts(p, tx);
    GrammarReads(tx, p, more);
  }

  /** What is written is in the grammar, and nothing in the grammar for the same transaction is shorter. */
  lemma WritesShortest(tx: Transaction, s: bytes)
    requires Serializable(tx) && Carried(tx)
    ensures IsTransaction(Encode(tx), tx)
    ensures IsTransaction(s, tx) ==> |Encode(tx)| <= |s|
  {
    hide Decode, Encode, IsTransaction, Serializable;
    DecodesEncoding(tx);
    ParsesExactly(Encode(tx), tx);
    ParsesExactly(s, tx);
    if IsTransaction(s, tx) {
      ReencodingShrinks(s);
    }
  }
}
