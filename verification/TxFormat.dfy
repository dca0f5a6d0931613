/**
 Bitcoin transactions and their byte format: what the serializer writes and the parser
 reads, as functions. `PutX(x, rest)` is the encoding of `x` followed by `rest`;
 `TakeX(s)` reads an `X` off the front of `s` and returns it with the bytes after it.
 */
module TxFormat {
  import opened Wrappers
  import opened Bytes

  datatype TxInput = TxInput(prevTxidLe: bytes, vout: int, scriptSig: bytes, sequence: int, witnessItems: seq<bytes>)

  datatype TxOutput = TxOutput(valueSats: int, scriptPubkey: bytes)

  datatype Transaction = Transaction(version: int, inputs: seq<TxInput>, outputs: seq<TxOutput>, locktime: int)

  datatype TxError = OutOfRange | UnexpectedEnd | BadMarkerFlag | TrailingBytes

  type Parsed<T> = Result<(T, bytes), TxError>

  const MAX_UINT32: nat := 0xFFFF_FFFF
  const MAX_UINT64: nat := 0xFFFF_FFFF_FFFF_FFFF

  predicate IsUint32(n: int) { 0 <= n <= MAX_UINT32 }

  predicate IsUint64(n: int) { 0 <= n <= MAX_UINT64 }

  // --- writing ---------------------------------------------------------------------------

  function Uint32Le(value: int): Result<bytes, TxError> {
    if IsUint32(value) then Success(LittleEndian(value, 4)) else Failure(OutOfRange)
  }

  function Uint64Le(value: int): Result<bytes, TxError> {
    if IsUint64(value) then Success(LittleEndian(value, 8)) else Failure(OutOfRange)
  }

  /** The variable-length count, in its shortest form. */
  function EncodeVarint(value: int): (r: Result<bytes, TxError>)
    ensures r.Success? <==> IsUint64(value)
    ensures r.Failure? ==> r.error == OutOfRange
  {
    if value < 0 then Failure(OutOfRange)
    else if value < 0xFD then Success([value])
    else if value <= 0xFFFF then Success([0xFD] + LittleEndian(value, 2))
    else if value <= MAX_UINT32 then Success([0xFE] + LittleEndian(value, 4))
    else if value <= MAX_UINT64 then Success([0xFF] + LittleEndian(value, 8))
    else Failure(OutOfRange)
  }

  function PutVarint(value: nat, rest: bytes): bytes
    requires value <= MAX_UINT64
  {
    EncodeVarint(value).value + rest
  }

  function PutUint32(value: nat, rest: bytes): bytes { LittleEndian(value, 4) + rest }

  function PutUint64(value: nat, rest: bytes): bytes { LittleEndian(value, 8) + rest }

  /** A byte string behind its length. */
  function PutString(b: bytes, rest: bytes): bytes
    requires StringInRange(b)
  {
    PutVarint(|b|, b + rest)
  }

  predicate InputInRange(x: TxInput) {
    IsUint32(x.vout) && StringInRange(x.scriptSig) && IsUint32(x.sequence)
  }

  predicate OutputInRange(x: TxOutput) {
    IsUint64(x.valueSats) && StringInRange(x.scriptPubkey)
  }

  predicate StringInRange(b: bytes) { |b| <= MAX_UINT64 }

  predicate WitnessInRange(w: seq<bytes>) {
    IsUint64(|w|) && forall b :: b in w ==> StringInRange(b)
  }

  /** The transactions the serializer does not reject. */
  predicate Serializable(tx: Transaction) {
    && IsUint32(tx.version)
    && IsUint64(|tx.inputs|)
    && (forall x :: x in tx.inputs ==> InputInRange(x) && WitnessInRange(x.witnessItems))
    && IsUint64(|tx.outputs|)
    && (forall x :: x in tx.outputs ==> OutputInRange(x))
    && IsUint32(tx.locktime)
  }

  function PutInput(x: TxInput, rest: bytes): bytes
    requires InputInRange(x)
  {
    x.prevTxidLe + PutUint32(x.vout, PutString(x.scriptSig, PutUint32(x.sequence, rest)))
  }

  function PutInputs(xs: seq<TxInput>, rest: bytes): bytes
    requires forall x :: x in xs ==> InputInRange(x)
  {
    if xs == [] then rest else PutInput(xs[0], PutInputs(xs[1..], rest))
  }

  function PutOutput(x: TxOutput, rest: bytes): bytes
    requires OutputInRange(x)
  {
    PutUint64(x.valueSats, PutString(x.scriptPubkey, rest))
  }

  function PutOutputs(xs: seq<TxOutput>, rest: bytes): bytes
    requires forall x :: x in xs ==> OutputInRange(x)
  {
    if xs == [] then rest else PutOutput(xs[0], PutOutputs(xs[1..], rest))
  }

  function PutItems(items: seq<bytes>, rest: bytes): bytes
    requires forall b :: b in items ==> StringInRange(b)
  {
    if items == [] then rest else PutString(items[0], PutItems(items[1..], rest))
  }

  function PutWitness(w: seq<bytes>, rest: bytes): bytes
    requires WitnessInRange(w)
  {
    PutVarint(|w|, PutItems(w, rest))
  }

  function PutWitnesses(xs: seq<TxInput>, rest: bytes): bytes
    requires forall x :: x in xs ==> WitnessInRange(x.witnessItems)
  {
    if xs == [] then rest else PutWitness(xs[0].witnessItems, PutWitnesses(xs[1..], rest))
  }

  predicate HasWitness(tx: Transaction) {
    exists x :: x in tx.inputs && x.witnessItems != []
  }

  /** Everything after the optional marker and flag. */
  function PutBody(tx: Transaction): bytes
    requires Serializable(tx)
  {
    var end := PutUint32(tx.locktime, []);
    PutVarint(|tx.inputs|, PutInputs(tx.inputs,
      PutVarint(|tx.outputs|, PutOutputs(tx.outputs,
        if HasWitness(tx) then PutWitnesses(tx.inputs, end) else end))))
  }

  function Encode(tx: Transaction): bytes
    requires Serializable(tx)
  {
    PutUint32(tx.version, (if HasWitness(tx) then [0, 1] else []) + PutBody(tx))
  }

  // --- reading ---------------------------------------------------------------------------

  function TakeExact(s: bytes, size: nat): Parsed<bytes> {
    if size <= |s| then Success((s[..size], s[size..])) else Failure(UnexpectedEnd)
  }

  function TakeUint(s: bytes, width: nat): Parsed<nat> {
    var (b, rest) :- TakeExact(s, width);
    Success((FromLittleEndian(b), rest))
  }

  /** A count of one, three, five or nine bytes; longer forms than needed are accepted. */
  function TakeVarint(s: bytes): Parsed<nat> {
    var (b, rest) :- TakeExact(s, 1);
    if b[0] < 0xFD then Success((b[0], rest))
    else if b[0] == 0xFD then TakeUint(rest, 2)
    else if b[0] == 0xFE then TakeUint(rest, 4)
    else TakeUint(rest, 8)
  }

  function TakeString(s: bytes): Parsed<bytes> {
    var (size, rest) :- TakeVarint(s);
    TakeExact(rest, size)
  }

  function TakeInput(s: bytes): Parsed<TxInput> {
    var (prevTxidLe, s1) :- TakeExact(s, 32);
    var (vout, s2) :- TakeUint(s1, 4);
    var (scriptSig, s3) :- TakeString(s2);
    var (sequence, s4) :- TakeUint(s3, 4);
    Success((TxInput(prevTxidLe, vout, scriptSig, sequence, []), s4))
  }

  function TakeInputs(s: bytes, count: nat): Parsed<seq<TxInput>> {
    if count == 0 then Success(([], s))
    else
      var (x, s1) :- TakeInput(s);
      var (xs, s2) :- TakeInputs(s1, count - 1);
      Success(([x] + xs, s2))
  }

  function TakeOutput(s: bytes): Parsed<TxOutput> {
    var (valueSats, s1) :- TakeUint(s, 8);
    var (scriptPubkey, s2) :- TakeString(s1);
    Success((TxOutput(valueSats, scriptPubkey), s2))
  }

  function TakeOutputs(s: bytes, count: nat): Parsed<seq<TxOutput>> {
    if count == 0 then Success(([], s))
    else
      var (x, s1) :- TakeOutput(s);
      var (xs, s2) :- TakeOutputs(s1, count - 1);
      Success(([x] + xs, s2))
  }

  function TakeItems(s: bytes, count: nat): Parsed<seq<bytes>> {
    if count == 0 then Success(([], s))
    else
      var (x, s1) :- TakeString(s);
      var (xs, s2) :- TakeItems(s1, count - 1);
      Success(([x] + xs, s2))
  }

  function TakeWitness(s: bytes): Parsed<seq<bytes>> {
    var (count, rest) :- TakeVarint(s);
    TakeItems(rest, count)
  }

  /** The inputs again, each with the witness read for it. */
  function TakeWitnesses(s: bytes, xs: seq<TxInput>): Parsed<seq<TxInput>>
    decreases |xs|
  {
    if xs == [] then Success(([], s))
    else
      var (w, s1) :- TakeWitness(s);
      var (ys, s2) :- TakeWitnesses(s1, xs[1..]);
      Success(([xs[0].(witnessItems := w)] + ys, s2))
  }

  /** Whether a marker and flag precede the inputs, and how many inputs there are. */
  function TakeHeader(s: bytes): Parsed<(bool, nat)> {
    var (count, s1) :- TakeVarint(s);
    if count != 0 then Success(((false, count), s1))
    else
      var (flag, s2) :- TakeExact(s1, 1);
      if flag != [1] then Failure(BadMarkerFlag)
      else
        var (count', s3) :- TakeVarint(s2);
        Success(((true, count'), s3))
  }

  function Decode(s: bytes): Result<Transaction, TxError> {
    var (version, s1) :- TakeUint(s, 4);
    var ((hasWitness, inputCount), s2) :- TakeHeader(s1);
    var (plain, s3) :- TakeInputs(s2, inputCount);
    var (outputCount, s4) :- TakeVarint(s3);
    var (outputs, s5) :- TakeOutputs(s4, outputCount);
    var (inputs, s6) :- if hasWitness then TakeWitnesses(s5, plain) else Success((plain, s5));
    var (locktime, s7) :- TakeUint(s6, 4);
    if s7 != [] then Failure(TrailingBytes)
    else Success(Transaction(version, inputs, outputs, locktime))
  }
}
