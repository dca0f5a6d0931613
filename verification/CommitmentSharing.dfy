/**
 Exactly when two campaigns of two networks have one commitment preimage. The network id
 stands before the campaign's fields without a length, so bytes of one may pass for the other.
 */
module CommitmentSharing {
  import opened Wrappers
  import opened Bytes
  import opened Encodings

  const LIMIT: int := 0x1_0000_0000

  // --- what follows the network id -------------------------------------------------------

  /** The number in the four bytes at position `i`. */
  function Number(b: bytes, i: nat): (n: nat)
    requires i + 4 <= |b|
  {
    var n0: int, n1: int, n2: int, n3: int := b[i], b[i + 1], b[i + 2], b[i + 3];
    n0 * 0x100_0000 + n1 * 0x1_0000 + n2 * 0x100 + n3
  }

  /** Bytes that are the fields of some campaign: two ids, two texts with their lengths, two positive numbers. */
  predicate IsBody(b: bytes) { |b| >= 57 && HashFits(b, Number(b, 32)) }

  predicate HashFits(b: bytes, h: nat) { 40 + h <= |b| && AddressEnds(b, h, Number(b, 36 + h)) }

  predicate AddressEnds(b: bytes, h: nat, p: nat) {
    && p > 0 && |b| == 56 + h + p
    && FromBigEndian(b[40 + h + p..48 + h + p]) > 0
    && FromBigEndian(b[48 + h + p..]) > 0
  }

  /** The white space of ASCII, which is stripped from the ends of an address. */
  predicate IsSpace(b: byte) { 9 <= b <= 13 || 28 <= b <= 32 }

  /** ASCII text with nothing to strip. */
  predicate IsPlain(b: bytes) {
    && (forall i :: 0 <= i < |b| ==> b[i] < 128)
    && b != [] && !IsSpace(b[0]) && !IsSpace(b[|b| - 1])
  }

  /** The fields of a campaign with a plain address. */
  predicate HasPlainAddress(b: bytes) { IsBody(b) && IsPlain(b[40 + Number(b, 32)..|b| - 16]) }

  lemma NumberIsBigEndian(b: bytes, i: nat)
    requires i + 4 <= |b|
    ensures BigEndian(Number(b, i), 4) == b[i..i + 4] && Number(b, i) < LIMIT
  {
    Widths();
    var w := b[i..i + 4];
    BigEndianEncodes(w);
    assert w[..3][..2] == w[..2] && w[..2][..1] == w[..1] && w[..1][..0] == [];
    assert FromBigEndian(w[..1]) == w[0];
    assert FromBigEndian(w[..2]) == 256 * FromBigEndian(w[..1]) + w[1];
    assert FromBigEndian(w[..3]) == 256 * FromBigEndian(w[..2]) + w[2];
    assert FromBigEndian(w) == 256 * FromBigEndian(w[..3]) + w[3];
  }

  lemma NumberOfBigEndian(b: bytes, i: nat, n: nat)
    requires i + 4 <= |b| && n < LIMIT && b[i..i + 4] == BigEndian(n, 4)
    ensures Number(b, i) == n
  {
    Widths();
    hide BigEndian;
    NumberIsBigEndian(b, i);
    BigEndianInjective(Number(b, i), n, 4);
  }

  /** The fields of a campaign, written one after the other. */
  function FieldBytes(c: Campaign): bytes
    requires c.Committable()
  {
    WireAll(c.Fields())
  }

  lemma BodyOfCampaign(c: Campaign)
    requires c.WellTyped() && c.Committable()
    ensures IsBody(FieldBytes(c))
    ensures c.payoutAddress == Some(FieldBytes(c)[40 + Number(FieldBytes(c), 32)..|FieldBytes(c)| - 16])
  {
    hide BigEndian, WireAll, Power256, Number, FromBigEndian;
    SixFields(c);
    var b, h, p := FieldBytes(c), |c.solutionHash|, |c.payoutAddress.value|;
    Widths();
    var price, deadline := BigEndian(c.askingPrice, 8), BigEndian(c.deadline.value, 8);
    assert b == c.id + c.solution + (BigEndian(h, 4) + c.solutionHash)
              + ((BigEndian(p, 4) + c.payoutAddress.value) + price + deadline);
    assert b[32..36] == BigEndian(h, 4);
    NumberOfBigEndian(b, 32, h);
    assert b[36 + h..40 + h] == BigEndian(p, 4);
    assert b[40 + h..|b| - 16] == c.payoutAddress.value;
    NumberOfBigEndian(b, 36 + h, p);
    assert b[40 + h + p..48 + h + p] == price && b[48 + h + p..] == deadline;
    BigEndianDecodes(c.askingPrice, 8);
    BigEndianDecodes(c.deadline.value, 8);
  }

  /** The campaign whose fields are at these positions. */
  function CampaignAt(b: bytes, h: nat, p: nat): Campaign
    requires |b| == 56 + h + p
  {
    Campaign(b[..16], b[16..32], b[36..36 + h], Some(b[40 + h..40 + h + p]),
             FromBigEndian(b[40 + h + p..48 + h + p]), Some(FromBigEndian(b[48 + h + p..])))
  }

  lemma CampaignOfBody(b: bytes) returns (c: Campaign)
    requires IsBody(b)
    ensures c.WellTyped() && c.Committable() && FieldBytes(c) == b
    ensures c.payoutAddress == Some(b[40 + Number(b, 32)..|b| - 16])
  {
    hide FieldBytes, Power256, Number, FromBigEndian, BigEndian;
    var h := Number(b, 32);
    var p := Number(b, 36 + h);
    c := CampaignAt(b, h, p);
    NumberIsBigEndian(b, 32);
    NumberIsBigEndian(b, 36 + h);
    CampaignAtFits(b, h, p);
    WiresBody(b, h, p, c);
  }

  lemma CampaignAtFits(b: bytes, h: nat, p: nat)
    requires |b| == 56 + h + p && h < LIMIT && 0 < p < LIMIT
    requires FromBigEndian(b[40 + h + p..48 + h + p]) > 0 && FromBigEndian(b[48 + h + p..]) > 0
    ensures var c := CampaignAt(b, h, p);
      && c.WellTyped() && c.Committable()
      && BigEndian(c.askingPrice, 8) == b[40 + h + p..48 + h + p] && BigEndian(c.deadline.value, 8) == b[48 + h + p..]
  {
    hide BigEndian, FromBigEndian, Power256;
    Widths();
    BigEndianEncodes(b[40 + h + p..48 + h + p]);
    BigEndianEncodes(b[48 + h + p..]);
  }

  lemma WiresBody(b: bytes, h: nat, p: nat, c: Campaign)
    requires |b| == 56 + h + p && h < LIMIT && p < LIMIT && c.Committable()
    requires b[32..36] == BigEndian(h, 4) && b[36 + h..40 + h] == BigEndian(p, 4)
    requires c.id == b[..16] && c.solution == b[16..32]
    requires c.solutionHash == b[36..36 + h] && c.payoutAddress.value == b[40 + h..40 + h + p]
    requires BigEndian(c.askingPrice, 8) == b[40 + h + p..48 + h + p]
    requires BigEndian(c.deadline.value, 8) == b[48 + h + p..]
    ensures FieldBytes(c) == b
  {
    hide BigEndian, WireAll, Power256, LengthPrefix;
    SixFields(c);
    Prefixes(c.solutionHash, b[32..36]);
    Prefixes(c.payoutAddress.value, b[36 + h..40 + h]);
    InPieces(b, h, p);
  }

  lemma Prefixes(content: bytes, length: bytes)
    requires |content| < LIMIT && length == BigEndian(|content|, 4)
    ensures |content| < Power256(4) && LengthPrefix(content) == length + content
  {
    Widths();
  }

  lemma InPieces(b: bytes, h: nat, p: nat)
    requires |b| == 56 + h + p
    ensures b == b[..16] + b[16..32] + (b[32..36] + b[36..36 + h])
               + ((b[36 + h..40 + h] + b[40 + h..40 + h + p]) + b[40 + h + p..48 + h + p] + b[48 + h + p..])
  {
    assert b[32..36] + b[36..36 + h] == b[32..36 + h];
    assert b[36 + h..40 + h] + b[40 + h..40 + h + p] == b[36 + h..40 + h + p];
    assert b[36 + h..40 + h + p] + b[40 + h + p..48 + h + p] == b[36 + h..48 + h + p];
  }

  // --- sharing ---------------------------------------------------------------------------

  /** The two campaigns are committed to by the same bytes. */
  predicate Shared(networkId: bytes, c: Campaign, networkId': bytes, d: Campaign) {
    && c.WellTyped() && d.WellTyped()
    && CommitmentPreimage(networkId, c).Some?
    && CommitmentPreimage(networkId, c) == CommitmentPreimage(networkId', d)
  }

  ghost predicate ShareCommitment(networkId: bytes, networkId': bytes) {
    exists c, d :: Shared(networkId, c, networkId', d)
  }

  /** `f` can stand alone and behind `s`. */
  ghost predicate Straddles(s: bytes, f: bytes) { IsBody(f) && IsBody(s + f) }

  /**
   Whether bytes by which one network id is longer than the other can pass for the beginning of
   a campaign's fields, and what follows them for the fields of another.
   */
  predicate Shareable(s: bytes) {
    && s != []
    && (|s| >= 36 ==>
          var h := Number(s, 32);
          && |s| != h + 4
          && (|s| >= 40 + h ==> |s| < h + Number(s, 36 + h)))
  }

  // --- only shareable bytes are shared ---------------------------------------------------

  lemma NumberBehind(s: bytes, f: bytes, i: nat)
    requires i + 4 <= |f|
    ensures Number(s + f, |s| + i) == Number(f, i)
  {}

  lemma NumberBefore(s: bytes, f: bytes, i: nat)
    requires i + 4 <= |s|
    ensures Number(s + f, i) == Number(s, i)
  {}

  lemma StraddlingIsShareable(s: bytes, f: bytes)
    requires Straddles(s, f) && s != []
    ensures Shareable(s)
  {
    hide Number;
    if |s| >= 36 {
      var h := Number(s, 32);
      NumberBefore(s, f, 32);
      if |s| == h + 4 {
        NumberBehind(s, f, 32);
      }
      if |s| >= 40 + h {
        NumberBefore(s, f, 36 + h);
      }
    }
  }

  // --- shareable bytes can be shared -----------------------------------------------------

  function Zeros(n: nat): (b: bytes)
    ensures |b| == n
  {
    seq(n, i requires 0 <= i < n => 0)
  }

  /** A price and a deadline of 1 each. */
  const ONES: bytes := [0, 0, 0, 0, 0, 0, 0, 1, 0, 0, 0, 0, 0, 0, 0, 1]

  function FourBytes(n: nat): (b: bytes)
    requires n < LIMIT
    ensures |b| == 4
  {
    [n / 0x100_0000, n / 0x1_0000 % 0x100, n / 0x100 % 0x100, n % 0x100]
  }

  /** Fields with the given ids, a solution hash of `h` zeros and an address of `p` times "x". */
  function Made(head: bytes, h: nat, p: nat): (f: bytes)
    requires h < LIMIT && p < LIMIT
    ensures |f| == |head| + 24 + h + p
  {
    head + FourBytes(h) + Zeros(h) + FourBytes(p) + seq(p, i requires 0 <= i < p => 0x78) + ONES
  }

  /** The bytes of `Made` one by one. */
  lemma MadeAt(head: bytes, h: nat, p: nat, i: nat)
    requires |head| == 32 && h < LIMIT && p < LIMIT && i < 56 + h + p
    ensures var f := Made(head, h, p);
      && (i < 32 ==> f[i] == head[i])
      && (32 <= i < 36 ==> f[i] == FourBytes(h)[i - 32])
      && (36 <= i < 36 + h ==> f[i] == 0)
      && (36 + h <= i < 40 + h ==> f[i] == FourBytes(p)[i - 36 - h])
      && (40 + h <= i < 40 + h + p ==> f[i] == 0x78)
  {
    hide FourBytes;
  }

  lemma FourDigits(n: nat)
    requires n < LIMIT
    ensures n / 0x100_0000 * 0x100_0000 + n / 0x1_0000 % 0x100 * 0x1_0000 + n / 0x100 % 0x100 * 0x100 + n % 0x100 == n
  {}

  lemma NumberOfFour(b: bytes, i: nat, n: nat)
    requires i + 4 <= |b| && n < LIMIT
    requires forall j :: 0 <= j < 4 ==> b[i + j] == FourBytes(n)[j]
    ensures Number(b, i) == n
  {
    assert b[i + 0] == FourBytes(n)[0] && b[i + 1] == FourBytes(n)[1];
    assert b[i + 2] == FourBytes(n)[2] && b[i + 3] == FourBytes(n)[3];
    FourDigits(n);
  }

  lemma OnesArePositive()
    ensures FromBigEndian(ONES[..8]) == 1 && FromBigEndian(ONES[8..]) == 1
  {
    Widths();
    BigEndianDecodes(1, 8);
    assert BigEndian(1, 8) == [0, 0, 0, 0, 0, 0, 0, 1] by {
      assert BigEndian(0, 7) == [0, 0, 0, 0, 0, 0, 0];
    }
    assert ONES[..8] == BigEndian(1, 8) == ONES[8..];
  }

  /** Two sound length fields and a positive price and deadline are all it takes. */
  lemma BodyEndingInOnes(b: bytes)
    requires |b| >= 57 && b[|b| - 16..] == ONES
    requires 40 + Number(b, 32) <= |b|
    requires Number(b, 36 + Number(b, 32)) > 0 && |b| == 56 + Number(b, 32) + Number(b, 36 + Number(b, 32))
    ensures IsBody(b)
  {
    hide Number, FromBigEndian;
    OnesArePositive();
    var n := |b| - 16;
    assert b[n..n + 8] == b[n..][..8] == ONES[..8];
    assert b[n + 8..] == b[n..][8..] == ONES[8..];
  }

  lemma MadeIsBody(head: bytes, h: nat, p: nat)
    requires |head| == 32 && h < LIMIT && 0 < p < LIMIT
    ensures IsBody(Made(head, h, p))
  {
    hide Number, FourBytes, Made;
    var f := Made(head, h, p);
    forall j | 0 <= j < 4 ensures f[32 + j] == FourBytes(h)[j] { MadeAt(head, h, p, 32 + j); }
    NumberOfFour(f, 32, h);
    forall j | 0 <= j < 4 ensures f[36 + h + j] == FourBytes(p)[j] { MadeAt(head, h, p, 36 + h + j); }
    NumberOfFour(f, 36 + h, p);
    MadeEnds(head, h, p);
    BodyEndingInOnes(f);
  }

  lemma MadeEnds(head: bytes, h: nat, p: nat)
    requires h < LIMIT && p < LIMIT
    ensures var f := Made(head, h, p); f[|f| - 16..] == ONES
  {
    hide FourBytes;
  }

  /** What the length fields of `s + f` must say for `f` to straddle. */
  lemma MadeStraddles(s: bytes, head: bytes, h: nat, p: nat)
    requires |head| == 32 && h < LIMIT && 0 < p < LIMIT && s != []
    requires var b := s + Made(head, h, p);
      && 40 + Number(b, 32) <= |b|
      && Number(b, 36 + Number(b, 32)) > 0
      && Number(b, 32) + Number(b, 36 + Number(b, 32)) == |s| + h + p
    ensures Straddles(s, Made(head, h, p))
  {
    hide Number, Made;
    var f := Made(head, h, p);
    MadeIsBody(head, h, p);
    MadeEnds(head, h, p);
    assert (s + f)[|s + f| - 16..] == f[|f| - 16..];
    BodyEndingInOnes(s + f);
  }

  lemma MadePlain(head: bytes, h: nat, p: nat)
    requires |head| == 32 && h < LIMIT && 0 < p < LIMIT
    ensures HasPlainAddress(Made(head, h, p))
  {
    hide Number, FourBytes, Made, IsBody;
    var f := Made(head, h, p);
    MadeIsBody(head, h, p);
    forall j | 0 <= j < 4 ensures f[32 + j] == FourBytes(h)[j] { MadeAt(head, h, p, 32 + j); }
    NumberOfFour(f, 32, h);
    forall i | 40 + h <= i < 40 + h + p ensures f[i] == 0x78 { MadeAt(head, h, p, i); }
  }

  /** The address of the longer campaign, from the end of `s` or within `f` on, is plain. */
  lemma StraddlesPlainly(s: bytes, head: bytes, h: nat, p: nat)
    requires |head| == 32 && h < LIMIT && 0 < p < LIMIT && IsBody(s + Made(head, h, p))
    requires var b, start := s + Made(head, h, p), 40 + Number(s + Made(head, h, p), 32);
      && (forall i :: start <= i < |s| + 40 + h ==> b[i] < 128)
      && start <= |s| + 40 + h && !IsSpace(b[start])
    ensures HasPlainAddress(s + Made(head, h, p))
  {
    hide Number, Made;
    var f := Made(head, h, p);
    forall i | |s| + 40 + h <= i < |s + f| - 16 ensures (s + f)[i] == 0x78 {
      MadeAt(head, h, p, i - |s|);
    }
    assert |s + f| - 16 == |s| + 40 + h + p;
  }

  /** The address of the longer campaign is the other one's: their length fields coincide. */
  lemma HashAligned(s: bytes, head: bytes, h: nat)
    requires |head| == 32 && h < LIMIT && s != []
    requires Number(s + Made(head, h, 1), 32) == |s| + h
    ensures Straddles(s, Made(head, h, 1))
  {
    hide Number, FourBytes, Made;
    var f := Made(head, h, 1);
    forall j | 0 <= j < 4 ensures f[36 + h + j] == FourBytes(1)[j] { MadeAt(head, h, 1, 36 + h + j); }
    NumberOfFour(f, 36 + h, 1);
    NumberBehind(s, f, 36 + h);
    assert 36 + (|s| + h) == |s| + (36 + h);
    MadeStraddles(s, head, h, 1);
  }

  /** The first bytes of `Made`: the head, then the length of the hash. */
  lemma MadeStart(head: bytes, h: nat, p: nat)
    requires |head| == 32 && h < LIMIT && p < LIMIT
    ensures Made(head, h, p)[..36] == head + FourBytes(h)
  {}

  lemma Behind(s: bytes, f: bytes, i: nat)
    requires i < |f|
    ensures (s + f)[|s| + i] == f[i]
  {}

  /** One to three bytes: the two length fields overlap, and the lengths are chosen to agree. */
  lemma FewBytes(s: bytes) returns (f: bytes)
    requires 1 <= |s| <= 3
    ensures Straddles(s, f) && HasPlainAddress(s + f) && HasPlainAddress(f)
  {
    var head, h := if |s| == 1 then Zeros(31) + [1] else if |s| == 2 then Zeros(30) + [0, 2] else Zeros(29) + [0, 0, 1],
                   if |s| == 1 then 0x101_0100 else if |s| == 2 then 0x2_0000 else 253;
    f := Made(head, h, 1);
    MadeStart(head, h, 1);
    var k := |s|;
    assert forall i :: 0 <= i < 36 ==> f[i] == f[..36][i];
    Behind(s, f, 32 - k);
    Behind(s, f, 33 - k);
    Behind(s, f, 34 - k);
    Behind(s, f, 35 - k);
    hide Made;
    HashAligned(s, head, h);
    PlainBehind(s, head, h);
  }

  lemma PlainBehind(s: bytes, head: bytes, h: nat)
    requires |head| == 32 && h < LIMIT && Number(s + Made(head, h, 1), 32) == |s| + h
    requires IsBody(s + Made(head, h, 1))
    ensures HasPlainAddress(s + Made(head, h, 1)) && HasPlainAddress(Made(head, h, 1))
  {
    hide Number, Made, FourBytes;
    MadePlain(head, h, 1);
    MadeAt(head, h, 1, 40 + h);
    Behind(s, Made(head, h, 1), 40 + h);
    StraddlesPlainly(s, head, h, 1);
  }

  /** Up to 32 bytes: the id bytes behind them hold the length of a hash of as many zeros. */
  lemma IdBytes(s: bytes) returns (f: bytes)
    requires 4 <= |s| <= 32
    ensures Straddles(s, f) && HasPlainAddress(s + f) && HasPlainAddress(f)
  {
    var k := |s|;
    var head := Zeros(32 - k) + FourBytes(k) + Zeros(k - 4);
    f := Made(head, 0, 1);
    forall j | 0 <= j < 4 ensures (s + f)[32 + j] == FourBytes(k)[j] {
      MadeAt(head, 0, 1, 32 - k + j);
      Behind(s, f, 32 - k + j);
    }
    hide Made, FourBytes;
    NumberOfFour(s + f, 32, k);
    HashAligned(s, head, 0);
    PlainBehind(s, head, 0);
  }

  /** Zeros and a byte of 255, which end the `4 - t` low bytes of a length, then zeros. */
  function LowBytes(t: nat): (head: bytes)
    requires 1 <= t <= 3
    ensures |head| == 32
  {
    Zeros(3 - t) + [255] + Zeros(28 + t)
  }

  /** A length of which the first `t` bytes are given. */
  lemma LowBytesNumber(s: bytes, t: nat, h: nat, p: nat, i: nat)
    requires 1 <= t <= 3 && h < LIMIT && p < LIMIT && |s| == i + t
    ensures 255 <= Number(s + Made(LowBytes(t), h, p), i) < LIMIT
    ensures Number(s + Made(LowBytes(t), h, p), i) == Number(s + LowBytes(t), i)
  {
    var f := Made(LowBytes(t), h, p);
    MadeStart(LowBytes(t), h, p);
    assert forall j :: 0 <= j < 32 ==> f[j] == f[..36][j] == LowBytes(t)[j];
    assert (s + f)[i + 3] == LowBytes(t)[3 - t] == 255;
    assert (s + f)[i] == (s + LowBytes(t))[i];
    assert (s + f)[i + 1] == (s + LowBytes(t))[i + 1];
    assert (s + f)[i + 2] == (s + LowBytes(t))[i + 2];
  }

  /** Up to 35 bytes: some bytes of the length of the hash are given, and the rest made large enough. */
  lemma PartOfHashLength(s: bytes) returns (f: bytes)
    requires 33 <= |s| <= 35
    ensures Straddles(s, f) && HasPlainAddress(s + f) && HasPlainAddress(f)
  {
    hide Made, Number, LowBytes;
    var t := |s| - 32;
    LowBytesNumber(s, t, 0, 1, 32);
    var h := Number(s + LowBytes(t), 32) - |s|;
    LowBytesNumber(s, t, h, 1, 32);
    f := Made(LowBytes(t), h, 1);
    HashAligned(s, LowBytes(t), h);
    PlainBehind(s, LowBytes(t), h);
  }

  /** They end early in a hash: the other campaign's fields begin in it. */
  lemma EarlyInHash(s: bytes) returns (f: bytes)
    requires |s| >= 36 && |s| <= Number(s, 32)
    ensures Straddles(s, f) && HasPlainAddress(s + f) && HasPlainAddress(f)
  {
    hide Made, Number;
    NumberIsBigEndian(s, 32);
    var h := Number(s, 32) - |s|;
    f := Made(Zeros(32), h, 1);
    NumberBefore(s, f, 32);
    HashAligned(s, Zeros(32), h);
    PlainBehind(s, Zeros(32), h);
  }

  /** They end in a hash, `r` bytes before the length of the address. */
  lemma InHash(s: bytes, head: bytes, h: nat, p: nat, r: nat, length: nat)
    requires |s| >= 36 && |s| + r == 36 + Number(s, 32)
    requires |head| == 32 && h < LIMIT && 0 < p < LIMIT && 0 < length < LIMIT
    requires r + 4 <= 40 + h && Number(Made(head, h, p), r) == length
    requires length == 36 - r + h + p
    requires forall i :: r + 4 <= i < 40 + h ==> Made(head, h, p)[i] < 128
    requires Made(head, h, p)[r + 4] == 0
    ensures Straddles(s, Made(head, h, p))
    ensures HasPlainAddress(Made(head, h, p)) && HasPlainAddress(s + Made(head, h, p))
  {
    hide Number, FourBytes, Made, IsBody;
    var f := Made(head, h, p);
    NumberBefore(s, f, 32);
    NumberBehind(s, f, r);
    assert 36 + Number(s, 32) == |s| + r;
    MadeStraddles(s, head, h, p);
    MadePlain(head, h, p);
    forall i | 40 + Number(s, 32) <= i < |s| + 40 + h ensures (s + f)[i] < 128 {
      Behind(s, f, i - |s|);
    }
    Behind(s, f, r + 4);
    StraddlesPlainly(s, head, h, p);
  }

  /** The length of the address among the ids of the other campaign. */
  lemma LateInHash(s: bytes) returns (f: bytes)
    requires |s| >= 36 && Number(s, 32) + 8 <= |s| <= 36 + Number(s, 32)
    ensures Straddles(s, f) && HasPlainAddress(f) && HasPlainAddress(s + f)
  {
    hide Number, FourBytes;
    var r := 36 + Number(s, 32) - |s|;
    var length := 37 - r;
    var head := Zeros(r) + FourBytes(length) + Zeros(28 - r);
    f := Made(head, 0, 1);
    forall j | 0 <= j < 4 ensures f[r + j] == FourBytes(length)[j] { MadeAt(head, 0, 1, r + j); }
    SmallFourBytes();
    forall i | r + 4 <= i < 40 ensures f[i] < 128 && (i < 36 ==> f[i] == 0) { MadeAt(head, 0, 1, i); }
    hide Made;
    NumberOfFour(f, r, length);
    InHash(s, head, 0, 1, r, length);
  }

  lemma SmallFourBytes()
    ensures FourBytes(0) == [0, 0, 0, 0] && FourBytes(1) == [0, 0, 0, 1]
  {}

  /** How the two length fields overlap when `s` ends 29 to 35 bytes before the length of the address. */
  datatype Overlap = Overlap(head: bytes, h: nat, p: nat, length: nat) {
    /** The four bytes at `r`, and those of the address behind them. */
    predicate Fits(r: nat) {
      && |head| == 32 && h < LIMIT && 0 < p < LIMIT && 0 < length < LIMIT
      && 28 < r < 36 && r <= 32 + h
      && length == 36 - r + h + p
      && (forall j :: 0 <= j < 4 ==> FourBytes(length)[j] == At(r + j))
      && (forall j :: 0 <= j < 4 ==> FourBytes(p)[j] < 128)
      && (forall j :: r - 28 <= j < 4 ==> FourBytes(h)[j] < 128)
      && (if r < 32 then FourBytes(h)[r - 28] == 0 else r < 32 + h)
    }

    function At(i: nat): byte
      requires |head| == 32 && h < LIMIT
    {
      if i < 32 then head[i] else if i < 36 then FourBytes(h)[i - 32] else 0
    }
  }

  /** Lengths and last id bytes for which the overlapping fields agree. */
  function OverlapFor(r: nat): Overlap {
    if r == 29 then Overlap(Zeros(31) + [1], 0x7f, 0x7a, 0x100)
    else if r == 30 then Overlap(Zeros(30) + [1, 1], 0x100_007f, 0x1_007b, 0x101_0100)
    else if r == 31 then Overlap(Zeros(31) + [1], 0x81_8000, 0x7f_017b, 0x100_8180)
    else if r == 33 then Overlap(Zeros(32), 0x80, 0x7f7d, 0x8000)
    else if r == 34 then Overlap(Zeros(32), 0xfffc_fffe, 0x1_0000, 0xfffe_0000)
    else Overlap(Zeros(32), 0x7fff_ff80, 0x7f, 0x8000_0000)
  }

  lemma OverlapsFit(r: nat)
    requires 29 <= r <= 31 || 33 <= r <= 35
    ensures OverlapFor(r).Fits(r)
  {
    if r < 32 {
      AddressFirst(r);
    } else {
      HashFirst(r);
    }
  }

  lemma AddressFirst(r: nat)
    requires 29 <= r <= 31
    ensures OverlapFor(r).Fits(r)
  {
    if r == 29 {
      assert FourBytes(0x7f) == [0, 0, 0, 0x7f] && FourBytes(0x7a) == [0, 0, 0, 0x7a];
      assert FourBytes(0x100) == [0, 0, 1, 0];
    } else if r == 30 {
      assert FourBytes(0x100_007f) == [1, 0, 0, 0x7f] && FourBytes(0x1_007b) == [0, 1, 0, 0x7b];
      assert FourBytes(0x101_0100) == [1, 1, 1, 0];
    } else {
      assert FourBytes(0x81_8000) == [0, 0x81, 0x80, 0] && FourBytes(0x7f_017b) == [0, 0x7f, 1, 0x7b];
      assert FourBytes(0x100_8180) == [1, 0, 0x81, 0x80];
    }
  }

  lemma HashFirst(r: nat)
    requires 33 <= r <= 35
    ensures OverlapFor(r).Fits(r)
  {
    if r == 33 {
      assert FourBytes(0x80) == [0, 0, 0, 0x80] && FourBytes(0x7f7d) == [0, 0, 0x7f, 0x7d];
      assert FourBytes(0x8000) == [0, 0, 0x80, 0];
    } else if r == 34 {
      assert FourBytes(0xfffc_fffe) == [0xff, 0xfc, 0xff, 0xfe] && FourBytes(0x1_0000) == [0, 1, 0, 0];
      assert FourBytes(0xfffe_0000) == [0xff, 0xfe, 0, 0];
    } else {
      assert FourBytes(0x7fff_ff80) == [0x7f, 0xff, 0xff, 0x80] && FourBytes(0x7f) == [0, 0, 0, 0x7f];
      assert FourBytes(0x8000_0000) == [0x80, 0, 0, 0];
    }
  }

  /** They end in a hash so that the two length fields overlap. */
  lemma LengthsOverlap(s: bytes, o: Overlap, r: nat) returns (f: bytes)
    requires |s| >= 36 && |s| + r == 36 + Number(s, 32) && o.Fits(r)
    ensures Straddles(s, f) && HasPlainAddress(f) && HasPlainAddress(s + f)
  {
    hide Number, FourBytes, Made;
    f := Made(o.head, o.h, o.p);
    forall j | 0 <= j < 4 ensures f[r + j] == FourBytes(o.length)[j] {
      MadeAt(o.head, o.h, o.p, r + j);
    }
    forall i | r + 4 <= i < 40 + o.h ensures f[i] < 128 {
      MadeAt(o.head, o.h, o.p, i);
    }
    MadeAt(o.head, o.h, o.p, r + 4);
    NumberOfFour(f, r, o.length);
    InHash(s, o.head, o.h, o.p, r, o.length);
  }

  /** They end within the length of the address, which is made large enough. */
  lemma PartOfAddressLength(s: bytes) returns (f: bytes)
    requires |s| >= 36 && 36 + Number(s, 32) < |s| < 40 + Number(s, 32)
    ensures Straddles(s, f)
  {
    hide Made, Number, LowBytes;
    var h := Number(s, 32);
    var t := |s| - 36 - h;
    LowBytesNumber(s, t, 0, 1, 36 + h);
    var p := Number(s + LowBytes(t), 36 + h) - 36 - t;
    LowBytesNumber(s, t, 0, p, 36 + h);
    f := Made(LowBytes(t), 0, p);
    NumberBefore(s, f, 32);
    MadeStraddles(s, LowBytes(t), 0, p);
  }

  /** They end in the address, and enough of it is left for the other campaign. */
  lemma InAddress(s: bytes) returns (f: bytes)
    requires |s| >= 36 && |s| >= 40 + Number(s, 32)
    requires |s| < Number(s, 32) + Number(s, 36 + Number(s, 32))
    ensures Straddles(s, f)
    ensures f == Made(Zeros(32), 0, Number(s, 32) + Number(s, 36 + Number(s, 32)) - |s|)
  {
    hide Made, Number;
    var h := Number(s, 32);
    var p := Number(s, 36 + h);
    NumberIsBigEndian(s, 36 + h);
    f := Made(Zeros(32), 0, h + p - |s|);
    NumberBefore(s, f, 32);
    NumberBefore(s, f, 36 + h);
    MadeStraddles(s, Zeros(32), 0, h + p - |s|);
  }

  /** They do not reach the length of the address. */
  predicate EndsBeforeAddress(s: bytes) { |s| < 36 || |s| <= 36 + Number(s, 32) }

  lemma ShareableStraddles(s: bytes) returns (f: bytes)
    requires Shareable(s)
    ensures Straddles(s, f)
    ensures EndsBeforeAddress(s) ==> HasPlainAddress(f) && HasPlainAddress(s + f)
  {
    hide Straddles, Number, HasPlainAddress;
    if |s| <= 3 {
      f := FewBytes(s);
    } else if |s| <= 32 {
      f := IdBytes(s);
    } else if |s| <= 35 {
      f := PartOfHashLength(s);
    } else {
      var h := Number(s, 32);
      if |s| <= h {
        f := EarlyInHash(s);
      } else if |s| <= h + 7 {
        OverlapsFit(36 + h - |s|);
        f := LengthsOverlap(s, OverlapFor(36 + h - |s|), 36 + h - |s|);
      } else if |s| <= 36 + h {
        f := LateInHash(s);
      } else if |s| < 40 + h {
        f := PartOfAddressLength(s);
      } else {
        f := InAddress(s);
      }
    }
  }

  // --- exactly when ----------------------------------------------------------------------

  lemma SharedBodies(networkId: bytes, c: Campaign, networkId': bytes, d: Campaign)
    requires networkId != [] && networkId' != [] && c.Committable() && d.Committable()
    ensures CommitmentPreimage(networkId, c) == CommitmentPreimage(networkId', d)
      <==> networkId + FieldBytes(c) == networkId' + FieldBytes(d)
  {
    hide FUNDING_PROTOCOL_LABEL, WireAll;
    var x, y := FieldBytes(c), FieldBytes(d);
    assert FUNDING_PROTOCOL_LABEL + networkId + x == FUNDING_PROTOCOL_LABEL + (networkId + x);
    assert FUNDING_PROTOCOL_LABEL + networkId' + y == FUNDING_PROTOCOL_LABEL + (networkId' + y);
    if FUNDING_PROTOCOL_LABEL + (networkId + x) == FUNDING_PROTOCOL_LABEL + (networkId' + y) {
      SameSplit(FUNDING_PROTOCOL_LABEL, networkId + x, FUNDING_PROTOCOL_LABEL, networkId' + y);
    }
  }

  /** A shared commitment makes the shorter id a prefix of the longer one, and the rest straddled. */
  lemma SharedIsStraddling(networkId: bytes, c: Campaign, networkId': bytes, d: Campaign)
    requires Shared(networkId, c, networkId', d) && |networkId| < |networkId'|
    ensures c.Committable() && d.Committable() && networkId <= networkId'
    ensures FieldBytes(c) == networkId'[|networkId|..] + FieldBytes(d)
    ensures Straddles(networkId'[|networkId|..], FieldBytes(d))
  {
    hide IsBody, FieldBytes;
    SharedBodies(networkId, c, networkId', d);
    var k := |networkId|;
    var s, f := networkId'[k..], FieldBytes(d);
    assert networkId' == networkId'[..k] + s;
    assert networkId' + f == networkId'[..k] + (s + f);
    SameSplit(networkId, FieldBytes(c), networkId'[..k], s + f);
    BodyOfCampaign(c);
    BodyOfCampaign(d);
  }

  /** And the bytes by which the longer id is longer are shareable. */
  lemma SharedIsShareable(networkId: bytes, c: Campaign, networkId': bytes, d: Campaign)
    requires Shared(networkId, c, networkId', d) && |networkId| < |networkId'|
    ensures networkId <= networkId' && Shareable(networkId'[|networkId|..])
  {
    hide Straddles, FieldBytes, Shareable, Shared;
    SharedIsStraddling(networkId, c, networkId', d);
    StraddlingIsShareable(networkId'[|networkId|..], FieldBytes(d));
  }

  /** Two campaigns, of the network with the given id and of the one whose id is longer by `s`. */
  lemma ShareableIsShared(networkId: bytes, s: bytes) returns (c: Campaign, d: Campaign)
    requires networkId != [] && Shareable(s)
    ensures Shared(networkId, c, networkId + s, d)
    ensures EndsBeforeAddress(s) ==> IsPlain(c.payoutAddress.value) && IsPlain(d.payoutAddress.value)
  {
    hide IsBody, FieldBytes, Number, EndsBeforeAddress;
    var f := ShareableStraddles(s);
    c, d := StraddlingIsShared(networkId, s, f);
  }

  lemma StraddlingIsShared(networkId: bytes, s: bytes, f: bytes) returns (c: Campaign, d: Campaign)
    requires networkId != [] && s != [] && Straddles(s, f)
    ensures Shared(networkId, c, networkId + s, d)
    ensures c.payoutAddress == Some((s + f)[40 + Number(s + f, 32)..|s + f| - 16])
    ensures d.payoutAddress == Some(f[40 + Number(f, 32)..|f| - 16])
  {
    c := CampaignOfBody(s + f);
    d := CampaignOfBody(f);
    hide IsBody, FieldBytes, Number;
    assert networkId + (s + f) == (networkId + s) + f;
    SharedBodies(networkId, c, networkId + s, d);
  }

  /** The longer id continues the shorter one with shareable bytes. */
  predicate Continues(networkId: bytes, networkId': bytes) {
    |networkId| < |networkId'| && networkId <= networkId' && Shareable(networkId'[|networkId|..])
  }

  /**
   Two networks can share a commitment exactly when the id of one continues the other's with
   shareable bytes; any 35 bytes or fewer are.
   */
  lemma NetworksShareExactly(networkId: bytes, networkId': bytes)
    requires networkId != [] && networkId' != [] && networkId != networkId'
    ensures ShareCommitment(networkId, networkId')
      <==> Continues(networkId, networkId') || Continues(networkId', networkId)
  {
    hide Shareable, Shared;
    if ShareCommitment(networkId, networkId') {
      var c, d :| Shared(networkId, c, networkId', d);
      SharedTurned(networkId, c, networkId', d);
      if |networkId| < |networkId'| {
        SharedIsShareable(networkId, c, networkId', d);
      } else if |networkId'| < |networkId| {
        SharedIsShareable(networkId', d, networkId, c);
      } else {
        SharedIsSame(networkId, c, networkId', d);
      }
    }
    if Continues(networkId, networkId') {
      var c, d := ShareableIsShared(networkId, networkId'[|networkId|..]);
      assert networkId' == networkId + networkId'[|networkId|..];
    }
    if Continues(networkId', networkId) {
      var d, c := ShareableIsShared(networkId', networkId[|networkId'|..]);
      assert networkId == networkId' + networkId[|networkId'|..];
      SharedTurned(networkId', d, networkId, c);
    }
  }

  lemma SharedTurned(networkId: bytes, c: Campaign, networkId': bytes, d: Campaign)
    requires Shared(networkId, c, networkId', d)
    ensures Shared(networkId', d, networkId, c)
  {
    hide CommitmentPreimage;
  }

  lemma SharedIsSame(networkId: bytes, c: Campaign, networkId': bytes, d: Campaign)
    requires Shared(networkId, c, networkId', d) && |networkId| == |networkId'|
    ensures networkId == networkId' && c == d
  {
    CommitmentPreimageInjective(networkId, c, networkId', d);
  }

  // --- by length -------------------------------------------------------------------------

  /** By how many bytes two network ids may differ and still share a commitment. */
  const MAX_DIFFERENCE: int := 2 * LIMIT - 3

  lemma ShareableIsBounded(s: bytes)
    requires Shareable(s)
    ensures 1 <= |s| <= MAX_DIFFERENCE
  {
    hide Number;
    if |s| >= 36 {
      NumberIsBigEndian(s, 32);
      var h := Number(s, 32);
      if |s| >= 40 + h {
        NumberIsBigEndian(s, 36 + h);
      }
    }
  }

  /** Whether network ids of two lengths determine the campaign together with the hashed bytes. */
  ghost predicate LengthsAreSafe(m: nat, n: nat) {
    forall networkId: bytes, c, networkId': bytes, d ::
      |networkId| == m && |networkId'| == n && Shared(networkId, c, networkId', d) ==> networkId == networkId' && c == d
  }

  /** For every network id and every smaller or equal difference, two campaigns with one preimage. */
  lemma NetworkIdsOfDifferentLengthsCollide(networkId: bytes, k: nat) returns (s: bytes, c: Campaign, d: Campaign)
    requires networkId != [] && 1 <= k <= MAX_DIFFERENCE
    ensures |s| == k && Shared(networkId, c, networkId + s, d)
    ensures IsPlain(c.payoutAddress.value) && IsPlain(d.payoutAddress.value)
  {
    hide IsBody, FieldBytes, Number, Shared;
    var f;
    s, f := StraddlingOfLength(k);
    c, d := StraddlingIsShared(networkId, s, f);
  }

  lemma StraddlingOfLength(k: nat) returns (s: bytes, f: bytes)
    requires 1 <= k <= MAX_DIFFERENCE
    ensures |s| == k && Straddles(s, f)
    ensures HasPlainAddress(f) && HasPlainAddress(s + f)
  {
    hide Number, Straddles, FourBytes;
    if k < 36 {
      s := Zeros(k);
      f := ShareableStraddles(s);
    } else if k < LIMIT {
      s := Zeros(32) + FourBytes(k) + Zeros(k - 36);
      NumberOfFour(s, 32, k);
      f := EarlyInHash(s);
    } else {
      s := LongBytes(k);
      f := LongStraddles(k);
    }
  }

  lemma LongStraddles(k: nat) returns (f: bytes)
    requires LIMIT <= k <= MAX_DIFFERENCE
    ensures Straddles(LongBytes(k), f)
    ensures HasPlainAddress(f) && HasPlainAddress(LongBytes(k) + f)
  {
    hide Number, IsBody;
    var s, h := LongBytes(k), k + 2 - LIMIT;
    LongNumbers(k);
    f := InAddress(s);
    hide LongBytes;
    NumberBefore(s, f, 32);
    MadePlain(Zeros(32), 0, 1);
    assert f == Made(Zeros(32), 0, 1);
    LongAddress(k);
  }

  lemma LongNumbers(k: nat)
    requires LIMIT <= k <= MAX_DIFFERENCE
    ensures Number(LongBytes(k), 32) == k + 2 - LIMIT
    ensures Number(LongBytes(k), 36 + (k + 2 - LIMIT)) == LIMIT - 1
  {
    var s, h := LongBytes(k), k + 2 - LIMIT;
    assert s[36 + h] == s[37 + h] == s[38 + h] == s[39 + h] == 255;
    hide Number, FourBytes;
    forall j | 0 <= j < 4 ensures s[32 + j] == FourBytes(h)[j] {}
    NumberOfFour(s, 32, h);
  }

  /** The address of the longer campaign: zeros, then the fields of the other one. */
  lemma LongAddress(k: nat)
    requires LIMIT <= k <= MAX_DIFFERENCE && IsBody(LongBytes(k) + Made(Zeros(32), 0, 1))
    ensures HasPlainAddress(LongBytes(k) + Made(Zeros(32), 0, 1))
  {
    hide Number, IsBody, Made, FourBytes;
    var s, f, h := LongBytes(k), Made(Zeros(32), 0, 1), k + 2 - LIMIT;
    LongNumbers(k);
    NumberBefore(s, f, 32);
    SmallFourBytes();
    forall i | 40 + h <= i < |s| + 40 ensures (s + f)[i] < 128 && (i < |s| + 36 ==> (s + f)[i] == 0) {
      if i < k {
        assert s[i] == 0;
      } else {
        MadeAt(Zeros(32), 0, 1, i - k);
      }
    }
    StraddlesPlainly(s, Zeros(32), 0, 1);
  }

  /** The longest differences: a hash and an address of nearly all bytes their lengths can count. */
  function LongBytes(k: nat): (s: bytes)
    requires LIMIT <= k <= MAX_DIFFERENCE
    ensures |s| == k
  {
    var h := k + 2 - LIMIT;
    Zeros(32) + FourBytes(h) + Zeros(h) + [255, 255, 255, 255] + Zeros(k - 40 - h)
  }

  /** Every difference in length from 1 to the greatest is unsafe, no other is. */
  lemma LengthsAreSafeExactly(m: nat, n: nat)
    requires m > 0 && n > 0
    ensures LengthsAreSafe(m, n) <==> m == n || m + MAX_DIFFERENCE < n || n + MAX_DIFFERENCE < m
  {
    hide Shared, Shareable;
    if m == n || m + MAX_DIFFERENCE < n || n + MAX_DIFFERENCE < m {
      forall networkId: bytes, c, networkId': bytes, d
        | |networkId| == m && |networkId'| == n && Shared(networkId, c, networkId', d)
        ensures networkId == networkId' && c == d
      {
        FarApartIsSame(networkId, c, networkId', d);
      }
    } else {
      var networkId := Zeros(if m < n then m else n);
      var s, c, d := NetworkIdsOfDifferentLengthsCollide(networkId, if m < n then n - m else m - n);
      SharedTurned(networkId, c, networkId + s, d);
      assert networkId != networkId + s;
    }
  }

  lemma FarApartIsSame(networkId: bytes, c: Campaign, networkId': bytes, d: Campaign)
    requires Shared(networkId, c, networkId', d)
    requires var m, n := |networkId|, |networkId'|; m == n || m + MAX_DIFFERENCE < n || n + MAX_DIFFERENCE < m
    ensures networkId == networkId' && c == d
  {
    hide Shared, Shareable;
    SharedTurned(networkId, c, networkId', d);
    if |networkId| == |networkId'| {
      SharedIsSame(networkId, c, networkId', d);
    } else if |networkId| < |networkId'| {
      SharedIsShareable(networkId, c, networkId', d);
      ShareableIsBounded(networkId'[|networkId|..]);
    } else {
      SharedIsShareable(networkId', d, networkId, c);
      ShareableIsBounded(networkId[|networkId'|..]);
    }
  }
}
