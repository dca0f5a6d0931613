/**
 The byte strings that are signed or hashed: the canonical form of a gossip message and the
 preimage of a campaign commitment. Whether they determine what they stand for.
 */
module Encodings {
  import opened Wrappers
  import opened Bytes

  // --- fields ----------------------------------------------------------------------------

  /** Bytes of a length fixed by the format, or preceded by their length. */
  datatype Field = Fixed(content: bytes) | Prefixed(content: bytes)

  /** The length as four bytes, then the bytes. */
  function LengthPrefix(b: bytes): bytes
    requires |b| < Power256(4)
  {
    BigEndian(|b|, 4) + b
  }

  predicate Encodable(f: Field) { f.Prefixed? ==> |f.content| < Power256(4) }

  function Wire(f: Field): bytes
    requires Encodable(f)
  {
    match f
    case Fixed(b) => b
    case Prefixed(b) => LengthPrefix(b)
  }

  function WireAll(fs: seq<Field>): bytes
    requires forall i :: 0 <= i < |fs| ==> Encodable(fs[i])
  {
    if fs == [] then [] else Wire(fs[0]) + WireAll(fs[1..])
  }

  /** Lists of fields of one format. */
  predicate SameShape(fs: seq<Field>, gs: seq<Field>) {
    && |fs| == |gs|
    && forall i :: 0 <= i < |fs| ==>
         fs[i].Fixed? == gs[i].Fixed? && (fs[i].Fixed? ==> |fs[i].content| == |gs[i].content|)
  }

  lemma SameSplit(a: bytes, r: bytes, b: bytes, s: bytes)
    requires a + r == b + s && |a| == |b|
    ensures a == b && r == s
  {
    assert a == (a + r)[..|a|] && b == (b + s)[..|a|];
    assert r == (a + r)[|a|..] && s == (b + s)[|a|..];
  }

  lemma SamePrefixed(b: bytes, r: bytes, c: bytes, s: bytes)
    requires |b| < Power256(4) && |c| < Power256(4)
    requires LengthPrefix(b) + r == LengthPrefix(c) + s
    ensures b == c && r == s
  {
    hide BigEndian, Power256;
    var m, n := BigEndian(|b|, 4), BigEndian(|c|, 4);
    assert m + (b + r) == LengthPrefix(b) + r && n + (c + s) == LengthPrefix(c) + s;
    SameSplit(m, b + r, n, c + s);
    BigEndianDecodes(|b|, 4);
    BigEndianDecodes(|c|, 4);
    SameSplit(b, r, c, s);
  }

  /** Within one format, the bytes determine every field. */
  lemma {:induction false} WireDetermines(fs: seq<Field>, gs: seq<Field>)
    requires forall i :: 0 <= i < |fs| ==> Encodable(fs[i])
    requires forall i :: 0 <= i < |gs| ==> Encodable(gs[i])
    requires SameShape(fs, gs) && WireAll(fs) == WireAll(gs)
    ensures fs == gs
  {
    hide LengthPrefix;
    if fs != [] {
      if fs[0].Fixed? {
        SameSplit(fs[0].content, WireAll(fs[1..]), gs[0].content, WireAll(gs[1..]));
      } else {
        SamePrefixed(fs[0].content, WireAll(fs[1..]), gs[0].content, WireAll(gs[1..]));
      }
      WireDetermines(fs[1..], gs[1..]);
      assert fs == [fs[0]] + fs[1..] && gs == [gs[0]] + gs[1..];
    }
  }

  // --- integers --------------------------------------------------------------------------

  /** Two's complement in `k` bytes, most significant first. */
  function Signed(n: int, k: nat): bytes {
    RemainderInRange(n, Power256(k));
    BigEndian(n % Power256(k), k)
  }

  lemma RemainderInRange(n: int, b: int)
    requires b > 0
    ensures 0 <= n % b < b
  {}

  predicate FitsSigned(n: int, k: nat) { 0 <= 2 * n + Power256(k) < 2 * Power256(k) }

  lemma SignedInjective(m: int, n: int, k: nat)
    requires FitsSigned(m, k) && FitsSigned(n, k) && Signed(m, k) == Signed(n, k)
    ensures m == n
  {
    hide BigEndian, Power256;
    RemainderInRange(m, Power256(k));
    RemainderInRange(n, Power256(k));
    BigEndianDecodes(m % Power256(k), k);
    BigEndianDecodes(n % Power256(k), k);
    SameRemainder(m, n, Power256(k));
  }

  lemma SameRemainder(m: int, n: int, b: int)
    requires b > 0 && m % b == n % b && -b < m - n < b
    ensures m == n
  {
    var q, q', r := m / b, n / b, m % b;
    assert m == q * b + r && n == q' * b + r;
    SmallMultiple(q - q', b);
    assert m - n == (q - q') * b;
  }

  lemma SmallMultiple(d: int, b: int)
    requires b > 0
    ensures d >= 1 ==> d * b >= b
    ensures d <= -1 ==> d * b <= -b
    ensures d == 0 ==> d * b == 0
  {
    if d >= 1 {
      assert d * b == b + (d - 1) * b;
    } else if d <= -1 {
      assert d * b == -b + (d + 1) * b;
      assert (-(d + 1)) * b >= 0;
    }
  }

  // --- gossip messages -------------------------------------------------------------------

  /** The signed fields; texts as their UTF-8 bytes, floating-point numbers as their eight bytes. */
  datatype Gossip = Gossip(
    senderId: int, senderKey: bytes, armName: bytes, pulls: int, totalReward: bytes, alpha: bytes, beta: bytes,
    lamport: int, infoHash: bytes, metadata: bytes, modelType: bytes, host: bytes, port: int)
  {
    /** The floating-point fields are eight bytes each. */
    predicate WellTyped() { |totalReward| == 8 && |alpha| == 8 && |beta| == 8 }

    /** Nothing is too large for its field. */
    predicate Fits() {
      && FitsSigned(senderId, 8) && FitsSigned(pulls, 8) && FitsSigned(lamport, 8) && FitsSigned(port, 4)
      && forall i :: 0 <= i < |Fields()| ==> Encodable(Fields()[i])
    }

    function Fields(): seq<Field> {
      [Fixed(Signed(senderId, 8)), Prefixed(senderKey), Prefixed(armName), Fixed(Signed(pulls, 8)),
       Fixed(totalReward), Fixed(alpha), Fixed(beta), Fixed(Signed(lamport, 8)), Prefixed(infoHash),
       Prefixed(metadata), Prefixed(modelType), Prefixed(host), Fixed(Signed(port, 4))]
    }
  }

  /** "LTR-MAB-gossip-v1" and a zero byte. */
  const GOSSIP_DOMAIN: bytes :=
    [0x4c, 0x54, 0x52, 0x2d, 0x4d, 0x41, 0x42, 0x2d, 0x67, 0x6f, 0x73, 0x73, 0x69, 0x70, 0x2d, 0x76, 0x31, 0x00]

  /** What is signed; None where packing a field fails. */
  function CanonicalBytes(g: Gossip): Option<bytes> {
    if g.Fits() then Some(GOSSIP_DOMAIN + WireAll(g.Fields())) else None
  }

  /** A signature is for one message only: the signed bytes determine every field. */
  lemma CanonicalBytesInjective(g: Gossip, h: Gossip)
    requires g.WellTyped() && h.WellTyped()
    requires CanonicalBytes(g).Some? && CanonicalBytes(g) == CanonicalBytes(h)
    ensures g == h
  {
    hide Signed, WireAll, Power256, FitsSigned;
    var fs, gs := g.Fields(), h.Fields();
    SameSplit(GOSSIP_DOMAIN, WireAll(fs), GOSSIP_DOMAIN, WireAll(gs));
    ShapeOfGossip(g, h);
    WireDetermines(fs, gs);
    assert fs[0] == gs[0] && fs[3] == gs[3] && fs[7] == gs[7] && fs[12] == gs[12];
    SignedInjective(g.senderId, h.senderId, 8);
    SignedInjective(g.pulls, h.pulls, 8);
    SignedInjective(g.lamport, h.lamport, 8);
    SignedInjective(g.port, h.port, 4);
    assert fs[1] == gs[1] && fs[2] == gs[2] && fs[4] == gs[4] && fs[5] == gs[5] && fs[6] == gs[6];
    assert fs[8] == gs[8] && fs[9] == gs[9] && fs[10] == gs[10] && fs[11] == gs[11];
  }

  lemma {:induction false} WireAppends(fs: seq<Field>, gs: seq<Field>)
    requires forall i :: 0 <= i < |fs| ==> Encodable(fs[i])
    requires forall i :: 0 <= i < |gs| ==> Encodable(gs[i])
    ensures WireAll(fs + gs) == WireAll(fs) + WireAll(gs)
  {
    hide Wire;
    if fs == [] {
      assert fs + gs == gs;
    } else {
      WireAppends(fs[1..], gs);
      assert (fs + gs)[1..] == fs[1..] + gs;
    }
  }

  lemma WireOfThree(f: Field, g: Field, h: Field)
    requires Encodable(f) && Encodable(g) && Encodable(h)
    ensures WireAll([f, g, h]) == Wire(f) + Wire(g) + Wire(h)
  {
    hide Wire;
    assert [f, g, h][1..] == [g, h] && [g, h][1..] == [h] && [h][1..] == [];
    assert WireAll([h]) == Wire(h) + [] == Wire(h);
    assert WireAll([g, h]) == Wire(g) + Wire(h);
  }

  lemma RemainderOf(n: int, r: int, b: int)
    requires 0 <= r < b && (n == r || n == r - b)
    ensures n % b == r
  {
    var q, m := n / b, n % b;
    var d := if n == r then q else q + 1;
    assert n == q * b + m;
    assert r - m == d * b;
    SmallMultiple(d, b);
  }

  /** A number or, when it is negative, the number plus 256 to the power of the width. */
  lemma SignedMeans(n: int, k: nat)
    requires FitsSigned(n, k)
    ensures Power256(k) + n >= 0
    ensures Signed(n, k) == if n >= 0 then BigEndian(n, k) else BigEndian(Power256(k) + n, k)
  {
    hide BigEndian, Power256;
    RemainderOf(n, if n >= 0 then n else n + Power256(k), Power256(k));
  }

  lemma WireOfThirteen(fs: seq<Field>)
    requires |fs| == 13 && forall i :: 0 <= i < |fs| ==> Encodable(fs[i])
    ensures WireAll(fs)
         == (Wire(fs[0]) + Wire(fs[1]) + Wire(fs[2]))
          + ((Wire(fs[3]) + Wire(fs[4]) + Wire(fs[5]))
          + ((Wire(fs[6]) + Wire(fs[7]) + Wire(fs[8]))
          + ((Wire(fs[9]) + Wire(fs[10]) + Wire(fs[11]))
          + Wire(fs[12]))))
  {
    hide Wire, WireAll, Encodable;
    assert fs == fs[..3] + fs[3..] && fs[..3] == [fs[0], fs[1], fs[2]];
    assert fs[3..] == fs[3..6] + fs[6..] && fs[3..6] == [fs[3], fs[4], fs[5]];
    assert fs[6..] == fs[6..9] + fs[9..] && fs[6..9] == [fs[6], fs[7], fs[8]];
    assert fs[9..] == fs[9..12] + fs[12..] && fs[9..12] == [fs[9], fs[10], fs[11]] && fs[12..] == [fs[12]];
    WireAppends(fs[..3], fs[3..]);
    WireAppends(fs[3..6], fs[6..]);
    WireAppends(fs[6..9], fs[9..]);
    WireAppends(fs[9..12], fs[12..]);
    WireOfThree(fs[0], fs[1], fs[2]);
    WireOfThree(fs[3], fs[4], fs[5]);
    WireOfThree(fs[6], fs[7], fs[8]);
    WireOfThree(fs[9], fs[10], fs[11]);
    WireOfOne(fs[12]);
  }

  lemma ThirteenFields(g: Gossip)
    requires g.Fits()
    ensures forall b :: b in [g.senderKey, g.armName, g.infoHash, g.metadata, g.modelType, g.host] ==> |b| < Power256(4)
    ensures WireAll(g.Fields())
         == (Signed(g.senderId, 8) + LengthPrefix(g.senderKey) + LengthPrefix(g.armName))
          + ((Signed(g.pulls, 8) + g.totalReward + g.alpha)
          + ((g.beta + Signed(g.lamport, 8) + LengthPrefix(g.infoHash))
          + ((LengthPrefix(g.metadata) + LengthPrefix(g.modelType) + LengthPrefix(g.host))
          + Signed(g.port, 4))))
  {
    hide Signed, LengthPrefix, Power256, WireAll, FitsSigned;
    FieldsFit(g);
    WireOfThirteen(g.Fields());
  }

  /** A message can be signed exactly when its numbers fit 64 bits, the port 32, and its texts 2^32 - 1 bytes. */
  lemma SignedExactly(g: Gossip)
    ensures CanonicalBytes(g).Some? <==>
      && -0x8000_0000_0000_0000 <= g.senderId < 0x8000_0000_0000_0000
      && -0x8000_0000_0000_0000 <= g.pulls < 0x8000_0000_0000_0000
      && -0x8000_0000_0000_0000 <= g.lamport < 0x8000_0000_0000_0000
      && -0x8000_0000 <= g.port < 0x8000_0000
      && (forall b :: b in [g.senderKey, g.armName, g.infoHash, g.metadata, g.modelType, g.host] ==>
            |b| < 0x1_0000_0000)
  {
    hide WireAll, Power256, Signed, Gossip.Fits;
    Widths();
    FieldsFit(g);
    assert CanonicalBytes(g).Some? <==> g.Fits();
  }

  lemma FieldsFit(g: Gossip)
    ensures g.Fits() <==>
      && FitsSigned(g.senderId, 8) && FitsSigned(g.pulls, 8) && FitsSigned(g.lamport, 8) && FitsSigned(g.port, 4)
      && forall b :: b in [g.senderKey, g.armName, g.infoHash, g.metadata, g.modelType, g.host] ==> |b| < Power256(4)
  {
    hide Power256, Signed, FitsSigned;
    var fs := g.Fields();
    var texts := [g.senderKey, g.armName, g.infoHash, g.metadata, g.modelType, g.host];
    assert texts[0] == fs[1].content && texts[1] == fs[2].content && texts[2] == fs[8].content;
    assert texts[3] == fs[9].content && texts[4] == fs[10].content && texts[5] == fs[11].content;
    if forall i :: 0 <= i < |fs| ==> Encodable(fs[i]) {
      assert Encodable(fs[1]) && Encodable(fs[2]) && Encodable(fs[8]) && Encodable(fs[9]) && Encodable(fs[10]);
      assert Encodable(fs[11]);
    }
  }

  /** The signed bytes: the domain, and the fields in this order, numbers with their highest byte first. */
  lemma SignedBytesInOrder(g: Gossip)
    requires CanonicalBytes(g).Some?
    ensures |CanonicalBytes(g).value| >= 18
    ensures forall i :: 0 <= i < 17 ==> CanonicalBytes(g).value[i] == "LTR-MAB-gossip-v1"[i] as int
    ensures CanonicalBytes(g).value[17] == 0
    ensures forall b :: b in [g.senderKey, g.armName, g.infoHash, g.metadata, g.modelType, g.host] ==> |b| < Power256(4)
    ensures CanonicalBytes(g).value[18..]
         == (Signed(g.senderId, 8) + LengthPrefix(g.senderKey) + LengthPrefix(g.armName))
          + ((Signed(g.pulls, 8) + g.totalReward + g.alpha)
          + ((g.beta + Signed(g.lamport, 8) + LengthPrefix(g.infoHash))
          + ((LengthPrefix(g.metadata) + LengthPrefix(g.modelType) + LengthPrefix(g.host))
          + Signed(g.port, 4))))
  {
    hide Signed, LengthPrefix, Power256, WireAll, FitsSigned, Gossip.Fields;
    ThirteenFields(g);
    assert (GOSSIP_DOMAIN + WireAll(g.Fields()))[18..] == WireAll(g.Fields());
  }

  lemma WireOfOne(f: Field)
    requires Encodable(f)
    ensures WireAll([f]) == Wire(f)
  {
    assert [f][1..] == [];
    assert Wire(f) + [] == Wire(f);
  }

  lemma ShapeOfGossip(g: Gossip, h: Gossip)
    requires g.WellTyped() && h.WellTyped()
    ensures SameShape(g.Fields(), h.Fields())
  {
    hide BigEndian;
  }

  // --- campaign commitments --------------------------------------------------------------

  /** The committed fields; ids as their 16 bytes, the solution hash and the address as bytes. */
  datatype Campaign = Campaign(
    id: bytes, solution: bytes, solutionHash: bytes, payoutAddress: Option<bytes>, askingPrice: nat,
    deadline: Option<nat>)
  {
    /** What the constructor guarantees. */
    predicate WellTyped() {
      && |id| == 16 && |solution| == 16
      && (payoutAddress.Some? ==> payoutAddress.value != [])
      && (deadline.Some? ==> deadline.value > 0)
    }

    predicate Committable() {
      && askingPrice > 0 && payoutAddress.Some? && deadline.Some?
      && |solutionHash| < Power256(4) && |payoutAddress.value| < Power256(4)
      && askingPrice < Power256(8) && deadline.value < Power256(8)
    }

    function Fields(): seq<Field>
      requires Committable()
    {
      [Fixed(id), Fixed(solution), Prefixed(solutionHash), Prefixed(payoutAddress.value),
       Fixed(BigEndian(askingPrice, 8)), Fixed(BigEndian(deadline.value, 8))]
    }
  }

  /** "superorganism-funding-v1". */
  const FUNDING_PROTOCOL_LABEL: bytes :=
    [0x73, 0x75, 0x70, 0x65, 0x72, 0x6f, 0x72, 0x67, 0x61, 0x6e, 0x69, 0x73, 0x6d, 0x2d,
     0x66, 0x75, 0x6e, 0x64, 0x69, 0x6e, 0x67, 0x2d, 0x76, 0x31]

  /** What is hashed; None without a network id, for an inactive campaign, or where a field is too large. */
  function CommitmentPreimage(networkId: bytes, c: Campaign): Option<bytes> {
    if networkId == [] || !c.Committable() then None
    else Some(FUNDING_PROTOCOL_LABEL + networkId + WireAll(c.Fields()))
  }

  lemma BigEndianInjective(m: nat, n: nat, k: nat)
    requires m < Power256(k) && n < Power256(k) && BigEndian(m, k) == BigEndian(n, k)
    ensures m == n
  {
    BigEndianDecodes(m, k);
    BigEndianDecodes(n, k);
  }

  /** Among networks whose ids are equally long, the hashed bytes determine network and campaign. */
  lemma CommitmentPreimageInjective(networkId: bytes, c: Campaign, networkId': bytes, d: Campaign)
    requires c.WellTyped() && d.WellTyped() && |networkId| == |networkId'|
    requires CommitmentPreimage(networkId, c).Some?
    requires CommitmentPreimage(networkId, c) == CommitmentPreimage(networkId', d)
    ensures networkId == networkId' && c == d
  {
    hide BigEndian, WireAll, Power256;
    var fs, gs := c.Fields(), d.Fields();
    SameSplit(FUNDING_PROTOCOL_LABEL + networkId, WireAll(fs), FUNDING_PROTOCOL_LABEL + networkId', WireAll(gs));
    SameSplit(FUNDING_PROTOCOL_LABEL, networkId, FUNDING_PROTOCOL_LABEL, networkId');
    assert SameShape(fs, gs);
    WireDetermines(fs, gs);
    assert fs[0] == gs[0] && fs[1] == gs[1] && fs[2] == gs[2] && fs[3] == gs[3] && fs[4] == gs[4] && fs[5] == gs[5];
    BigEndianInjective(c.askingPrice, d.askingPrice, 8);
    BigEndianInjective(c.deadline.value, d.deadline.value, 8);
  }

  /** There are bytes to hash exactly for a named network and an active campaign that fits its fields. */
  lemma HashedExactly(networkId: bytes, c: Campaign)
    ensures CommitmentPreimage(networkId, c).Some? <==>
      && networkId != [] && 0 < c.askingPrice < 0x1_0000_0000_0000_0000
      && c.payoutAddress.Some? && |c.payoutAddress.value| < 0x1_0000_0000 && |c.solutionHash| < 0x1_0000_0000
      && c.deadline.Some? && c.deadline.value < 0x1_0000_0000_0000_0000
  {
    hide WireAll, Power256;
    Widths();
  }

  /** The hashed bytes: the label, the network id, and the fields in this order. */
  lemma HashedBytesInOrder(networkId: bytes, c: Campaign)
    requires CommitmentPreimage(networkId, c).Some?
    ensures c.Committable() && |CommitmentPreimage(networkId, c).value| >= 24
    ensures forall i :: 0 <= i < 24 ==>
      CommitmentPreimage(networkId, c).value[i] == "superorganism-funding-v1"[i] as int
    ensures CommitmentPreimage(networkId, c).value[24..]
         == networkId
          + (c.id + c.solution + LengthPrefix(c.solutionHash)
             + (LengthPrefix(c.payoutAddress.value) + BigEndian(c.askingPrice, 8) + BigEndian(c.deadline.value, 8)))
  {
    hide BigEndian, LengthPrefix, WireAll, Power256;
    SixFields(c);
  }

  lemma SixFields(c: Campaign)
    requires c.Committable()
    ensures WireAll(c.Fields())
         == c.id + c.solution + LengthPrefix(c.solutionHash)
          + (LengthPrefix(c.payoutAddress.value) + BigEndian(c.askingPrice, 8) + BigEndian(c.deadline.value, 8))
  {
    hide BigEndian, LengthPrefix, Power256;
    var fs := c.Fields();
    assert fs[1..][1..] == fs[2..] && fs[2..][1..] == fs[3..] && fs[3..][1..] == fs[4..] && fs[4..][1..] == fs[5..];
    assert fs[5..][1..] == [];
    assert WireAll(fs[5..]) == fs[5].content + [];
    assert WireAll(fs[4..]) == fs[4].content + WireAll(fs[5..]);
    assert WireAll(fs[3..]) == Wire(fs[3]) + WireAll(fs[4..]);
    assert WireAll(fs[2..]) == Wire(fs[2]) + WireAll(fs[3..]);
    assert WireAll(fs[1..]) == fs[1].content + WireAll(fs[2..]);
  }
}
