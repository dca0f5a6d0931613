/**
 Reading the payload of an OP_RETURN output script, and looking for a registration commitment
 among the outputs of a transaction.
 */
module OpReturn {
  import opened Wrappers
  import opened Bytes

  const OP_RETURN: byte := 0x6a

  /** The ways a script may push its payload. */
  datatype Form = Empty | Direct | PushData1 | PushData2 | PushData4

  /** The form can express a payload of this length. */
  predicate CanHold(form: Form, length: nat) {
    match form
    case Empty => length == 0
    case Direct => 1 <= length <= 0x4b
    case PushData1 => length < 0x100
    case PushData2 => length < 0x1_0000
    case PushData4 => length < 0x1_0000_0000
  }

  function PushHeader(form: Form, length: nat): bytes
    requires CanHold(form, length)
  {
    match form
    case Empty => [0]
    case Direct => [length]
    case PushData1 => [0x4c] + LittleEndian(length, 1)
    case PushData2 => [0x4d] + LittleEndian(length, 2)
    case PushData4 => [0x4e] + LittleEndian(length, 4)
  }

  /** OP_RETURN, one push in the given form, and nothing else. */
  function Script(form: Form, payload: bytes): bytes
    requires CanHold(form, |payload|)
  {
    [OP_RETURN] + PushHeader(form, |payload|) + payload
  }

  /** The script pushes exactly this payload, in this form. */
  ghost predicate Pushes(script: bytes, form: Form, payload: bytes) {
    CanHold(form, |payload|) && script == Script(form, payload)
  }

  function FormOf(opcode: byte): Option<Form> {
    if opcode == 0 then Some(Empty)
    else if opcode <= 0x4b then Some(Direct)
    else if opcode == 0x4c then Some(PushData1)
    else if opcode == 0x4d then Some(PushData2)
    else if opcode == 0x4e then Some(PushData4)
    else None
  }

  function LengthBytes(form: Form): nat {
    match form
    case Empty => 0
    case Direct => 0
    case PushData1 => 1
    case PushData2 => 2
    case PushData4 => 4
  }

  /** No script pushes two payloads, or one payload in two forms. */
  lemma PushesOnce(script: bytes, form: Form, payload: bytes, form': Form, payload': bytes)
    requires Pushes(script, form, payload) && Pushes(script, form', payload')
    ensures form == form' && payload == payload'
  {
    HeaderOpcode(form, |payload|);
    HeaderOpcode(form', |payload'|);
    var h, h' := PushHeader(form, |payload|), PushHeader(form', |payload'|);
    assert script[1] == h[0] == h'[0];
    assert |script| == 1 + |h| + |payload| == 1 + |h'| + |payload'|;
    assert payload == script[1 + |h|..] && payload' == script[1 + |h'|..];
  }

  lemma ScriptBytes(form: Form, p: bytes)
    requires CanHold(form, |p|)
    ensures var n := |p|;
      Script(form, p) == (match form
        case Empty => [0x6a, 0x00]
        case Direct => [0x6a, n]
        case PushData1 => [0x6a, 0x4c, n]
        case PushData2 => [0x6a, 0x4d, n % 256, n / 256]
        case PushData4 => [0x6a, 0x4e, n % 256, n / 256 % 256, n / 0x1_0000 % 256, n / 0x100_0000]) + p
  {
    hide LittleEndian;
    match form
    case PushData1 => LittleEndian1(|p|);
    case PushData2 => LittleEndian2(|p|);
    case PushData4 => LittleEndian4(|p|);
    case _ =>
  }

  /** The accepted scripts byte by byte. */
  lemma PushesAsBytes(script: bytes, p: bytes)
    ensures (exists form :: Pushes(script, form, p)) <==>
      || (p == [] && script == [0x6a, 0x00])
      || (1 <= |p| <= 75 && script == [0x6a, |p|] + p)
      || (|p| < 0x100 && script == [0x6a, 0x4c, |p|] + p)
      || (|p| < 0x1_0000 && script == [0x6a, 0x4d, |p| % 256, |p| / 256] + p)
      || (|p| < 0x1_0000_0000
          && script == [0x6a, 0x4e, |p| % 256, |p| / 256 % 256, |p| / 0x1_0000 % 256, |p| / 0x100_0000] + p)
  {
    hide Script;
    if form :| Pushes(script, form, p) {
      ScriptBytes(form, p);
      assert p == [] ==> [0x6a, 0x00] + p == [0x6a, 0x00];
    }
    forall form | CanHold(form, |p|) ensures Pushes(script, form, p) <==> script == Script(form, p) {}
    var n := |p|;
    if n == 0 { ScriptBytes(Empty, p); assert Pushes(Script(Empty, p), Empty, p); }
    if 1 <= n <= 75 { ScriptBytes(Direct, p); assert Pushes(Script(Direct, p), Direct, p); }
    if n < 0x100 { ScriptBytes(PushData1, p); assert Pushes(Script(PushData1, p), PushData1, p); }
    if n < 0x1_0000 { ScriptBytes(PushData2, p); assert Pushes(Script(PushData2, p), PushData2, p); }
    if n < 0x1_0000_0000 { ScriptBytes(PushData4, p); assert Pushes(Script(PushData4, p), PushData4, p); }
  }

  lemma HeaderOpcode(form: Form, length: nat)
    requires CanHold(form, length)
    ensures |PushHeader(form, length)| == 1 + LengthBytes(form)
    ensures FormOf(PushHeader(form, length)[0]) == Some(form)
  {}

  lemma LengthField(form: Form, length: nat)
    requires CanHold(form, length) && LengthBytes(form) > 0
    ensures FromLittleEndian(PushHeader(form, length)[1..]) == length
  {
    Widths();
    LittleEndianDecodes(length, LengthBytes(form));
    assert PushHeader(form, length)[1..] == LittleEndian(length, LengthBytes(form));
  }

  lemma FieldIsHeader(form: Form, opcode: byte, field: bytes)
    requires FormOf(opcode) == Some(form) && |field| == LengthBytes(form) > 0
    ensures CanHold(form, FromLittleEndian(field))
    ensures PushHeader(form, FromLittleEndian(field)) == [opcode] + field
  {
    hide LittleEndian, FromLittleEndian;
    Widths();
    LittleEndianEncodes(field);
  }

  /** The payload of a script, or None if the script is anything else than one push after OP_RETURN. */
  method ExtractPayload(script: bytes) returns (payload: Option<bytes>)
    ensures payload.Some? ==> exists form :: Pushes(script, form, payload.value)
    ensures payload.None? ==> forall form, p :: !Pushes(script, form, p)
  {
    hide LittleEndian;
    if |script| < 1 || script[0] != OP_RETURN {
      return None;
    }
    var cursor := 1;
    if |script| < cursor + 1 {
      forall form, p ensures !Pushes(script, form, p) {}
      return None;
    }
    var opcode := script[cursor];
    cursor := cursor + 1;
    var length: nat := 0;
    if opcode == 0x00 {
      length := 0;
    } else if 0x01 <= opcode <= 0x4b {
      length := opcode;
    } else if opcode == 0x4c {
      if |script| < cursor + 1 {
        TooShort(script, PushData1);
        return None;
      }
      length := FromLittleEndian(script[cursor..cursor + 1]);
      cursor := cursor + 1;
    } else if opcode == 0x4d {
      if |script| < cursor + 2 {
        TooShort(script, PushData2);
        return None;
      }
      length := FromLittleEndian(script[cursor..cursor + 2]);
      cursor := cursor + 2;
    } else if opcode == 0x4e {
      if |script| < cursor + 4 {
        TooShort(script, PushData4);
        return None;
      }
      length := FromLittleEndian(script[cursor..cursor + 4]);
      cursor := cursor + 4;
    } else {
      forall form, p ensures !Pushes(script, form, p) {
        if Pushes(script, form, p) { HeaderOpcode(form, |p|); }
      }
      return None;
    }
    ghost var form := FormOf(opcode).value;
    HeaderRead(script, form, cursor, length);
    if |script| != cursor + length {
      forall f, p ensures !Pushes(script, f, p) {
        WrongLength(script, form, length, f, p);
      }
      return None;
    }
    var pushed := script[cursor..];
    assert script == Script(form, pushed);
    assert Pushes(script, form, pushed);
    return Some(pushed);
  }

  lemma TooShort(script: bytes, form: Form)
    requires |script| >= 2 && FormOf(script[1]) == Some(form) && |script| < 2 + LengthBytes(form)
    ensures forall f, p :: !Pushes(script, f, p)
  {
    forall f, p ensures !Pushes(script, f, p) {
      if CanHold(f, |p|) { HeaderOpcode(f, |p|); }
    }
  }

  /** What the parser has read when it knows the length. */
  lemma HeaderRead(script: bytes, form: Form, cursor: nat, length: nat)
    requires |script| >= cursor == 2 + LengthBytes(form) && FormOf(script[1]) == Some(form) && script[0] == OP_RETURN
    requires length == if form == Direct then script[1] else FromLittleEndian(script[2..cursor])
    ensures CanHold(form, length) && [OP_RETURN] + PushHeader(form, length) == script[..cursor]
  {
    if LengthBytes(form) > 0 {
      FieldIsHeader(form, script[1], script[2..cursor]);
    }
  }

  lemma WrongLength(script: bytes, form: Form, length: nat, f: Form, p: bytes)
    requires |script| >= 2 + LengthBytes(form) && FormOf(script[1]) == Some(form)
    requires CanHold(form, length) && [OP_RETURN] + PushHeader(form, length) == script[..2 + LengthBytes(form)]
    requires |script| != 2 + LengthBytes(form) + length
    ensures !Pushes(script, f, p)
  {
    if CanHold(f, |p|) && script == Script(f, p) {
      HeaderOpcode(f, |p|);
      HeaderOpcode(form, length);
      assert f == form;
      var header := PushHeader(f, |p|);
      assert header == script[1..1 + |header|] == PushHeader(form, length);
      if LengthBytes(form) > 0 {
        LengthField(form, |p|);
        LengthField(form, length);
      }
    }
  }

  // --- minimal encoding ------------------------------------------------------------------

  /** The script pushes the payload, and no form pushes it in fewer bytes. */
  ghost predicate IsMinimal(script: bytes, form: Form, payload: bytes) {
    && Pushes(script, form, payload)
    && forall f {:trigger CanHold(f, |payload|)} :: CanHold(f, |payload|) ==> |script| <= |Script(f, payload)|
  }

  /** The payload is too long for the shorter forms. */
  predicate IsNeeded(form: Form, length: nat) {
    match form
    case Empty => true
    case Direct => true
    case PushData1 => length > 0x4b
    case PushData2 => length > 0xff
    case PushData4 => length > 0xffff
  }

  /** An accepted script is minimally encoded exactly when its form is needed for its payload. */
  lemma MinimalExactly(script: bytes, form: Form, payload: bytes)
    requires Pushes(script, form, payload)
    ensures IsMinimal(script, form, payload) <==> IsNeeded(form, |payload|)
  {
    hide PushHeader;
    forall f | CanHold(f, |payload|) ensures |Script(f, payload)| == 2 + LengthBytes(f) + |payload| {
      HeaderOpcode(f, |payload|);
    }
    if !IsNeeded(form, |payload|) {
      var shorter := Shorter(|payload|);
      assert CanHold(shorter, |payload|);
    }
  }

  /** The shortest form for a length. */
  function Shorter(length: nat): Form {
    if length == 0 then Empty
    else if length <= 0x4b then Direct
    else if length <= 0xff then PushData1
    else if length <= 0xffff then PushData2
    else PushData4
  }

  /** A push of one byte behind a length byte of its own is accepted and not minimal. */
  lemma AcceptsLongerForms()
    ensures var script, payload := [0x6a, 0x4c, 0x01, 0x2a], [0x2a];
      Pushes(script, PushData1, payload) && !IsMinimal(script, PushData1, payload)
  {
    var script, payload: bytes := [0x6a, 0x4c, 0x01, 0x2a], [0x2a];
    assert LittleEndian(1, 1) == [1] + LittleEndian(0, 0) == [1];
    assert script == Script(PushData1, payload);
    MinimalExactly(script, PushData1, payload);
  }

  // --- the commitment --------------------------------------------------------------------

  ghost predicate Carries(script: bytes, commitment: bytes) { exists form :: Pushes(script, form, commitment) }

  /**
   True exactly when the commitment is not empty and some output script is OP_RETURN followed
   by one push of the commitment and nothing else.
   */
  method ContainsCommitment(scripts: seq<bytes>, commitment: bytes) returns (found: bool)
    ensures found <==> commitment != [] && exists i :: 0 <= i < |scripts| && Carries(scripts[i], commitment)
  {
    if commitment == [] {
      return false;
    }
    for i := 0 to |scripts|
      invariant forall j :: 0 <= j < i ==> !Carries(scripts[j], commitment)
    {
      if |scripts[i]| < 1 || scripts[i][0] != OP_RETURN {
        continue;
      }
      var payload := ExtractPayload(scripts[i]);
      if payload.None? {
        continue;
      }
      if payload.value == commitment {
        return true;
      }
      if Carries(scripts[i], commitment) {
        var form :| Pushes(scripts[i], form, payload.value);
        var form' :| Pushes(scripts[i], form', commitment);
        PushesOnce(scripts[i], form, payload.value, form', commitment);
      }
    }
    return false;
  }
}
