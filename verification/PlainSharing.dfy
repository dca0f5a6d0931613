/**
 Exactly when two campaigns of two networks with plain addresses, ASCII with nothing to strip,
 have one commitment preimage. A longer network id that reaches into the address of the one
 campaign makes the length fields of the other part of that text.
 */
module PlainSharing {
  import opened Wrappers
  import opened Bytes
  import opened Encodings
  import opened CommitmentSharing

  // --- sums of ASCII length fields -------------------------------------------------------

  predicate IsAsciiNumber(n: nat) { n < LIMIT && forall j :: 0 <= j < 4 ==> FourBytes(n)[j] < 128 }

  /** What two length fields of ASCII bytes, the second one not zero, can add up to. */
  predicate IsAsciiSum(n: int) { 0 < n < LIMIT && forall j :: 0 <= j < 4 ==> FourBytes(n)[j] <= 254 }

  function FromDigits(n3: nat, n2: nat, n1: nat, n0: nat): nat {
    n3 * 0x100_0000 + n2 * 0x1_0000 + n1 * 0x100 + n0
  }

  lemma DigitsOf(n3: nat, n2: nat, n1: nat, n0: nat)
    requires n3 < 256 && n2 < 256 && n1 < 256 && n0 < 256
    ensures var n := FromDigits(n3, n2, n1, n0);
      n < LIMIT && FourBytes(n) == [n3, n2, n1, n0]
  {
    var n := FromDigits(n3, n2, n1, n0);
    LastDigit(n, n3 * 0x1_0000 + n2 * 0x100 + n1, n0);
    LastDigit(n / 0x100, n3 * 0x100 + n2, n1);
    LastDigit(n / 0x100 / 0x100, n3, n2);
    assert n / 0x100 / 0x100 == n / 0x1_0000 && n / 0x1_0000 / 0x100 == n / 0x100_0000;
  }

  lemma LastDigit(n: nat, q: nat, d: nat)
    requires n == q * 0x100 + d && d < 0x100
    ensures n / 0x100 == q && n % 0x100 == d
  {}

  lemma DigitsFor(n: nat) returns (n3: nat, n2: nat, n1: nat, n0: nat)
    requires n < LIMIT
    ensures n3 < 256 && n2 < 256 && n1 < 256 && n0 < 256
    ensures FourBytes(n) == [n3, n2, n1, n0] && n == FromDigits(n3, n2, n1, n0)
  {
    FourDigits(n);
    n3, n2, n1, n0 := n / 0x100_0000, n / 0x1_0000 % 0x100, n / 0x100 % 0x100, n % 0x100;
  }

  function Small(d: nat): nat { if d < 127 then d else 127 }

  lemma SplitSum(n: nat) returns (a: nat, b: nat)
    requires IsAsciiSum(n)
    ensures a + b == n && b > 0 && IsAsciiNumber(a) && IsAsciiNumber(b)
  {
    hide FourBytes;
    var n3, n2, n1, n0 := DigitsFor(n);
    assert FourBytes(n)[0] == n3 && FourBytes(n)[1] == n2 && FourBytes(n)[2] == n1 && FourBytes(n)[3] == n0;
    var b3, b2, b1, b0 := Small(n3), Small(n2), Small(n1), Small(n0);
    b := FromDigits(b3, b2, b1, b0);
    a := FromDigits(n3 - b3, n2 - b2, n1 - b1, n0 - b0);
    AsciiDigits(b3, b2, b1, b0);
    AsciiDigits(n3 - b3, n2 - b2, n1 - b1, n0 - b0);
  }

  lemma AsciiDigits(n3: nat, n2: nat, n1: nat, n0: nat)
    requires n3 < 128 && n2 < 128 && n1 < 128 && n0 < 128
    ensures IsAsciiNumber(FromDigits(n3, n2, n1, n0))
  {
    hide FourBytes;
    DigitsOf(n3, n2, n1, n0);
  }

  lemma SumOfAscii(a: nat, b: nat)
    requires IsAsciiNumber(a) && IsAsciiNumber(b) && b > 0
    ensures IsAsciiSum(a + b)
  {
    hide FourBytes;
    var a3, a2, a1, a0 := DigitsFor(a);
    var b3, b2, b1, b0 := DigitsFor(b);
    assert FourBytes(a)[0] == a3 && FourBytes(a)[1] == a2 && FourBytes(a)[2] == a1 && FourBytes(a)[3] == a0;
    assert FourBytes(b)[0] == b3 && FourBytes(b)[1] == b2 && FourBytes(b)[2] == b1 && FourBytes(b)[3] == b0;
    DigitsOf(a3 + b3, a2 + b2, a1 + b1, a0 + b0);
    assert a + b == FromDigits(a3 + b3, a2 + b2, a1 + b1, a0 + b0);
  }

  // --- the condition ---------------------------------------------------------------------

  /** The bytes behind the hash are, or are the beginning of, the length `p` of an address. */
  predicate NamesLength(s: bytes, h: nat, p: nat) {
    p < LIMIT && forall j :: 0 <= j < 4 && 36 + h + j < |s| ==> FourBytes(p)[j] == s[36 + h + j]
  }

  /** What they hold of an address is the beginning of a plain one. */
  predicate BeginsPlainly(s: bytes, h: nat) {
    && (forall i :: 40 + h <= i < |s| ==> s[i] < 128)
    && (|s| > 40 + h ==> !IsSpace(s[40 + h]))
  }

  /** Shareable, and what is left of an address is the sum of two lengths in ASCII bytes. */
  ghost predicate PlainShareable(s: bytes) {
    && Shareable(s)
    && (!EndsBeforeAddress(s) ==>
          && BeginsPlainly(s, Number(s, 32))
          && exists p: nat :: NamesLength(s, Number(s, 32), p) && IsAsciiSum(Number(s, 32) + p - |s|))
  }

  // --- necessary -------------------------------------------------------------------------

  lemma FourBytesOfNumber(b: bytes, i: nat)
    requires i + 4 <= |b|
    ensures Number(b, i) < LIMIT && FourBytes(Number(b, i)) == b[i..i + 4]
  {
    DigitsOf(b[i], b[i + 1], b[i + 2], b[i + 3]);
  }

  lemma PlainStraddlingIsShareable(s: bytes, f: bytes)
    requires s != [] && HasPlainAddress(f) && HasPlainAddress(s + f)
    ensures PlainShareable(s)
  {
    StraddlingIsShareable(s, f);
    if !EndsBeforeAddress(s) {
      hide Shareable;
      PastHashIsSum(s, f);
    }
  }

  lemma PastHashIsSum(s: bytes, f: bytes)
    requires HasPlainAddress(f) && HasPlainAddress(s + f) && |s| >= 36 && |s| > 36 + Number(s, 32)
    ensures BeginsPlainly(s, Number(s, 32))
    ensures exists p: nat :: NamesLength(s, Number(s, 32), p) && IsAsciiSum(Number(s, 32) + p - |s|)
  {
    hide FourBytes, BeginsPlainly, IsAsciiSum, IsPlain, AddressEnds;
    var b, h := s + f, Number(s, 32);
    NumberBefore(s, f, 32);
    var p := Number(b, 36 + h);
    FourBytesOfNumber(b, 36 + h);
    hide Number;
    InsideIsPlain(s, f, h);
    forall j | 0 <= j < 4 && 36 + h + j < |s| ensures FourBytes(p)[j] == s[36 + h + j] {
      assert b[36 + h..40 + h][j] == s[36 + h + j];
    }
    LeftIsSum(s, f, h, p);
    assert NamesLength(s, h, p);
  }

  /** What of the longer campaign's address belongs to `s` and what to the other campaign. */
  lemma InsideIsPlain(s: bytes, f: bytes, h: nat)
    requires IsBody(f) && HasPlainAddress(s + f) && |s| > 36 + h && Number(s + f, 32) == h
    ensures BeginsPlainly(s, h)
    ensures forall i :: 4 <= i < |f| - 16 ==> f[i] < 128
  {
    hide Number, FromBigEndian;
    var b := s + f;
    var address := b[40 + h..|b| - 16];
    forall i | 40 + h <= i < |b| - 16 ensures b[i] < 128 {
      assert address[i - 40 - h] == b[i];
    }
    forall i | 4 <= i < |f| - 16 ensures f[i] < 128 {
      assert b[|s| + i] == f[i];
    }
    assert address[0] == b[40 + h];
    forall i | 40 + h <= i < |s| ensures s[i] < 128 {
      assert b[i] == s[i];
    }
  }

  lemma LeftIsSum(s: bytes, f: bytes, h: nat, p: nat)
    requires IsBody(f) && IsBody(s + f) && Number(s + f, 32) == h && Number(s + f, 36 + h) == p
    requires forall i :: 4 <= i < |f| - 16 ==> f[i] < 128
    ensures IsAsciiSum(h + p - |s|)
  {
    hide FourBytes;
    var h' := Number(f, 32);
    var p' := Number(f, 36 + h');
    FourBytesOfNumber(f, 32);
    FourBytesOfNumber(f, 36 + h');
    hide Number;
    forall j | 0 <= j < 4 ensures FourBytes(h')[j] < 128 && FourBytes(p')[j] < 128 {
      assert f[32..36][j] == f[32 + j] && f[36 + h'..40 + h'][j] == f[36 + h' + j];
    }
    SumOfAscii(h', p');
    assert h + p - |s| == h' + p';
  }

  // --- sufficient ------------------------------------------------------------------------

  /** The ids of the other campaign, beginning with what is missing of the length `p`. */
  function Rest(p: nat, given: nat): (head: bytes)
    requires p < LIMIT
    ensures |head| == 32
  {
    if given < 4 then FourBytes(p)[given..] + Zeros(28 + given) else Zeros(32)
  }

  lemma PastHash(s: bytes, p: nat) returns (f: bytes)
    requires |s| >= 36 && |s| > 36 + Number(s, 32)
    requires BeginsPlainly(s, Number(s, 32)) && NamesLength(s, Number(s, 32), p)
    requires IsAsciiSum(Number(s, 32) + p - |s|)
    ensures Straddles(s, f) && HasPlainAddress(f) && HasPlainAddress(s + f)
  {
    hide Number, IsBody;
    var h := Number(s, 32);
    var a, b := SplitSum(h + p - |s|);
    var given := |s| - 36 - h;
    var head := Rest(p, given);
    hide FourBytes, Rest, Made;
    f := Made(head, a, b);
    NumberBefore(s, f, 32);
    forall j | 0 <= j < 4 ensures (s + f)[36 + h + j] == FourBytes(p)[j] {
      if j >= given {
        MadeAt(head, a, b, j - given);
        RestAt(p, given, j - given);
      }
    }
    NumberOfFour(s + f, 36 + h, p);
    MadeStraddles(s, head, a, b);
    MadePlain(head, a, b);
    PastHashPlainly(s, p, h, a, b);
  }

  lemma RestAt(p: nat, given: nat, i: nat)
    requires p < LIMIT && i < 32
    ensures Rest(p, given)[i] == if given + i < 4 then FourBytes(p)[given + i] else 0
  {
    hide FourBytes;
  }

  lemma PastHashPlainly(s: bytes, p: nat, h: nat, a: nat, b: nat)
    requires |s| > 36 + h && p < LIMIT && BeginsPlainly(s, h) && IsAsciiNumber(a) && IsAsciiNumber(b) && b > 0
    requires var c := s + Made(Rest(p, |s| - 36 - h), a, b); IsBody(c) && Number(c, 32) == h
    ensures HasPlainAddress(s + Made(Rest(p, |s| - 36 - h), a, b))
  {
    hide Number, IsBody, FourBytes, Rest, Made;
    var given := |s| - 36 - h;
    var head := Rest(p, given);
    var f := Made(head, a, b);
    forall i | 40 + h <= i < |s| + 40 + a
      ensures (s + f)[i] < 128 && (i == 40 + h ==> !IsSpace((s + f)[i]))
    {
      if i >= |s| {
        MadeAt(head, a, b, i - |s|);
        if i - |s| < 32 {
          RestAt(p, given, i - |s|);
        }
      }
    }
    StraddlesPlainly(s, head, a, b);
  }

  lemma PlainShareableStraddles(s: bytes) returns (f: bytes)
    requires PlainShareable(s)
    ensures Straddles(s, f) && HasPlainAddress(f) && HasPlainAddress(s + f)
  {
    hide Number, Straddles, HasPlainAddress, Shareable, NamesLength, IsAsciiSum, BeginsPlainly;
    if EndsBeforeAddress(s) {
      f := ShareableStraddles(s);
    } else {
      var p: nat :| NamesLength(s, Number(s, 32), p) && IsAsciiSum(Number(s, 32) + p - |s|);
      f := PastHash(s, p);
    }
  }

  // --- exactly when ----------------------------------------------------------------------

  /** Two campaigns with plain addresses are committed to by the same bytes. */
  predicate SharedPlainly(networkId: bytes, c: Campaign, networkId': bytes, d: Campaign) {
    && Shared(networkId, c, networkId', d)
    && c.payoutAddress.Some? && IsPlain(c.payoutAddress.value)
    && d.payoutAddress.Some? && IsPlain(d.payoutAddress.value)
  }

  ghost predicate SharePlainCommitment(networkId: bytes, networkId': bytes) {
    exists c, d :: SharedPlainly(networkId, c, networkId', d)
  }

  ghost predicate ContinuesPlainly(networkId: bytes, networkId': bytes) {
    |networkId| < |networkId'| && networkId <= networkId' && PlainShareable(networkId'[|networkId|..])
  }

  lemma SharedPlainlyContinues(networkId: bytes, c: Campaign, networkId': bytes, d: Campaign)
    requires SharedPlainly(networkId, c, networkId', d) && |networkId| < |networkId'|
    ensures ContinuesPlainly(networkId, networkId')
  {
    hide IsBody, IsPlain, PlainShareable;
    SharedIsStraddling(networkId, c, networkId', d);
    BodyOfCampaign(c);
    BodyOfCampaign(d);
    hide FieldBytes, Number;
    PlainStraddlingIsShareable(networkId'[|networkId|..], FieldBytes(d));
  }

  lemma ContinuesPlainlyIsShared(networkId: bytes, networkId': bytes) returns (c: Campaign, d: Campaign)
    requires networkId != [] && ContinuesPlainly(networkId, networkId')
    ensures SharedPlainly(networkId, c, networkId', d)
  {
    hide IsBody, IsPlain, PlainShareable, Number, Shared;
    var s := networkId'[|networkId|..];
    var f := PlainShareableStraddles(s);
    c, d := StraddlingIsShared(networkId, s, f);
    assert networkId' == networkId + s;
  }

  lemma SharedPlainlyTurned(networkId: bytes, c: Campaign, networkId': bytes, d: Campaign)
    requires SharedPlainly(networkId, c, networkId', d)
    ensures SharedPlainly(networkId', d, networkId, c)
  {
    hide Shared, IsPlain;
    SharedTurned(networkId, c, networkId', d);
  }

  /**
   Two networks can share the commitment of campaigns with plain addresses exactly when the id
   of one continues the other's with bytes of the stated kind.
   */
  lemma PlainNetworksShareExactly(networkId: bytes, networkId': bytes)
    requires networkId != [] && networkId' != [] && networkId != networkId'
    ensures SharePlainCommitment(networkId, networkId')
      <==> ContinuesPlainly(networkId, networkId') || ContinuesPlainly(networkId', networkId)
  {
    hide SharedPlainly, ContinuesPlainly;
    if SharePlainCommitment(networkId, networkId') {
      var c, d :| SharedPlainly(networkId, c, networkId', d);
      SharedPlainlyTurned(networkId, c, networkId', d);
      if |networkId| < |networkId'| {
        SharedPlainlyContinues(networkId, c, networkId', d);
      } else if |networkId'| < |networkId| {
        SharedPlainlyContinues(networkId', d, networkId, c);
      } else {
        SameLengthIsSame(networkId, c, networkId', d);
      }
    }
    if ContinuesPlainly(networkId, networkId') {
      var c, d := ContinuesPlainlyIsShared(networkId, networkId');
    }
    if ContinuesPlainly(networkId', networkId) {
      var d, c := ContinuesPlainlyIsShared(networkId', networkId);
      SharedPlainlyTurned(networkId', d, networkId, c);
    }
  }

  lemma SameLengthIsSame(networkId: bytes, c: Campaign, networkId': bytes, d: Campaign)
    requires SharedPlainly(networkId, c, networkId', d) && |networkId| == |networkId'|
    ensures networkId == networkId'
  {
    SharedIsSame(networkId, c, networkId', d);
  }
}
