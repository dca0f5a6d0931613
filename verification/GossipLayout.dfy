/** The bits of an encoded list of object references. */
module GossipLayout {
  import opened Wrappers
  import opened Bytes
  import opened Schema
  import opened GossipItems

  /** The size of a blob of `n` items: 131 bits each, rounded up to whole bytes. */
  ghost predicate IsBlobOf(blob: bytes, n: nat) { n > 0 && 131 * n <= 8 * |blob| < 131 * n + 8 }

  /** The bits of item `i` of `n`: the first item is the highest, spare bits come before it. */
  ghost function BitsOf(blob: bytes, n: nat, i: nat): nat
    requires i < n
  {
    PowerPositive(2, 131 * (n - 1 - i));
    PowerPositive(2, 131);
    FromBigEndian(blob) / Power(2, 131 * (n - 1 - i)) % Power(2, 131)
  }

  /** The three highest of 131 bits are the type and the others the id. */
  ghost predicate NamedBy(k: Key, bits: nat) {
    PowerPositive(2, 128);
    && k.id == bits % Power(2, 128)
    && match bits / Power(2, 128)
       case 0 => k.objectType == IssueType
       case 1 => k.objectType == IssueVoteType
       case 2 => k.objectType == SolutionType
       case 3 => k.objectType == SolutionVoteType
       case 4 => k.objectType == CampaignType
       case 5 => k.objectType == PledgeType
       case _ => false
  }

  ghost predicate NamesNothing(bits: nat) {
    PowerPositive(2, 128);
    bits / Power(2, 128) > 5
  }

  /** `items` are those named by the first `i` of `n` items' bits, in order. */
  ghost predicate AreNamed(items: seq<Key>, blob: bytes, n: nat, i: nat)
    requires i <= n
    decreases i
  {
    if i == 0 then items == []
    else if NamesNothing(BitsOf(blob, n, i - 1)) then AreNamed(items, blob, n, i - 1)
    else
      && items != []
      && NamedBy(items[|items| - 1], BitsOf(blob, n, i - 1))
      && AreNamed(items[..|items| - 1], blob, n, i - 1)
  }

  // --- decoding --------------------------------------------------------------------------

  lemma WordsAreBits(blob: bytes, n: nat, i: nat)
    requires i < n
    ensures Unpack(8 * UUID_LIMIT, n, FromBigEndian(blob))[i] == BitsOf(blob, n, i)
  {
    UnpackAt(8 * UUID_LIMIT, n, FromBigEndian(blob), i);
    TwoTo131();
    PowerOfPower(2, 131, n - 1 - i);
  }

  lemma {:induction false} KnownAreNamed(blob: bytes, n: nat, i: nat)
    requires i <= n
    ensures AreNamed(Known(Unpack(8 * UUID_LIMIT, n, FromBigEndian(blob))[..i]), blob, n, i)
  {
    hide Unpack, BitsOf;
    if i > 0 {
      var words := Unpack(8 * UUID_LIMIT, n, FromBigEndian(blob));
      KnownAreNamed(blob, n, i - 1);
      WordsAreBits(blob, n, i - 1);
      TwoTo128();
      assert words[..i][..i - 1] == words[..i - 1];
      var init := Known(words[..i - 1]);
      if words[i - 1] / UUID_LIMIT <= 5 {
        assert Known(words[..i])[..|init|] == init;
      } else {
        assert init + [] == init;
      }
    }
  }

  /**
   A blob of the size of `n` items decodes to those that the bits of the `n` items name, in
   order; bits of an unknown type name nothing.
   */
  lemma BlobDecodes(blob: bytes, n: nat)
    requires IsBlobOf(blob, n)
    ensures AreNamed(Decode(blob), blob, n, n)
  {
    hide AreNamed, Known, Unpack;
    KnownAreNamed(blob, n, n);
    var words := Unpack(8 * UUID_LIMIT, n, FromBigEndian(blob));
    assert words[..n] == words;
    assert |blob| * 8 / 131 == n && (131 * n + 7) / 8 == |blob|;
  }

  /** A blob that has the size of no number of items decodes to nothing. */
  lemma OtherBlobsAreEmpty(blob: bytes)
    requires forall n :: !IsBlobOf(blob, n)
    ensures Decode(blob) == []
  {
    assert !IsBlobOf(blob, |blob| * 8 / 131);
  }

  /** The bits name at most one list. */
  lemma {:induction false} NamedOnce(items: seq<Key>, items': seq<Key>, blob: bytes, n: nat, i: nat)
    requires i <= n && AreNamed(items, blob, n, i) && AreNamed(items', blob, n, i)
    ensures items == items'
  {
    hide BitsOf;
    if i > 0 {
      if NamesNothing(BitsOf(blob, n, i - 1)) {
        NamedOnce(items, items', blob, n, i - 1);
      } else {
        NamedOnce(items[..|items| - 1], items'[..|items'| - 1], blob, n, i - 1);
        assert items == items[..|items| - 1] + [items[|items| - 1]];
        assert items' == items'[..|items'| - 1] + [items'[|items'| - 1]];
      }
    }
  }

  // --- encoding --------------------------------------------------------------------------

  /** `n` different objects take 131 bits each, rounded up to whole bytes; none take none. */
  lemma EncodedSizes(items: seq<Key>)
    ensures var n := |set k | k in items|; 131 * n <= 8 * |Encode(items)| < 131 * n + 8
  {}

  /** The bits of the encoding name the canonical list item by item, and spare bits are zero. */
  lemma EncodedBits(items: seq<Key>, i: nat)
    requires i < |set k | k in items|
    ensures var n := |set k | k in items|;
      && IsBlobOf(Encode(items), n)
      && NamedBy(Canonical(set k | k in items)[i], BitsOf(Encode(items), n, i))
      && FromBigEndian(Encode(items)) < Power(2, 131 * n)
  {
    hide Pack, Unpack, Power, BigEndian, FromBigEndian;
    var canonical := Canonical(set k | k in items);
    var n, words := |canonical|, Words(canonical);
    forall j | 0 <= j < n ensures words[j] < 8 * UUID_LIMIT {
      WordKnown(canonical[j]);
    }
    PackedFits(words);
    UnpackPack(8 * UUID_LIMIT, words);
    BigEndianDecodes(Pack(8 * UUID_LIMIT, words), EncodedSize(n));
    WordsAreBits(Encode(items), n, i);
    TwoTo128();
    TwoTo131();
    PowerOfPower(2, 131, n);
    WordKnown(canonical[i]);
  }

  /** The canonical order is that of the bits: by type and then by id. */
  lemma EncodedBitsIncrease(items: seq<Key>, i: nat, j: nat)
    requires i < j < |set k | k in items|
    ensures var n := |set k | k in items|; BitsOf(Encode(items), n, i) < BitsOf(Encode(items), n, j)
  {
    hide BitsOf, Encode, NamedBy, Word;
    var keys := set k | k in items;
    EncodedBits(items, i);
    EncodedBits(items, j);
    CanonicalHolds(keys);
    NamedIsWord(Canonical(keys)[i], BitsOf(Encode(items), |keys|, i));
    NamedIsWord(Canonical(keys)[j], BitsOf(Encode(items), |keys|, j));
    LessIsLower(Canonical(keys)[i], Canonical(keys)[j]);
  }

  lemma NamedIsWord(k: Key, bits: nat)
    requires NamedBy(k, bits)
    ensures bits == Word(k)
  {
    hide Power;
    TwoTo128();
    Quotient(bits, UUID_LIMIT);
  }

  lemma Quotient(x: nat, b: nat)
    requires b > 0
    ensures x == x / b * b + x % b
  {}

  lemma LessIsLower(a: Key, b: Key)
    requires Less(a, b)
    ensures Word(a) < Word(b)
  {}

  /** Messages are filled: one more object in a full batch would not fit 1300 bytes. */
  lemma FullBatchesAreFull(items: seq<Key>)
    requires |set k | k in items| == 80
    ensures |Encode(items)| > 1300
  {
    EncodedSizes(items);
  }
}
