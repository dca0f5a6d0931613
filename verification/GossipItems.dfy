/**
 Lists of object references as IHAVE and IWANT messages carry them: without duplicates, in
 canonical order, in batches, and packed into 131 bits an item.
 */
module GossipItems {
  import opened Wrappers
  import opened Bytes
  import opened Schema

  const OBJECT_TYPE_BITS: nat := 3

  const OBJECT_ID_BITS: nat := 128

  const BITS_PER_ITEM: nat := 131

  const MAX_GOSSIP_ITEMS_BLOB_BYTES: nat := 1300

  const MAX_ITEMS_PER_BATCH: nat := MAX_GOSSIP_ITEMS_BLOB_BYTES * 8 / BITS_PER_ITEM

  // --- canonical order -------------------------------------------------------------------

  predicate Less(a: Key, b: Key) {
    a.objectType.Number() < b.objectType.Number() || (a.objectType == b.objectType && a.id < b.id)
  }

  lemma LessTotal(a: Key, b: Key)
    requires a != b
    ensures Less(a, b) <==> !Less(b, a)
  {
    assert a.objectType.Number() == b.objectType.Number() ==> a.objectType == b.objectType;
  }

  predicate IsLeast(k: Key, keys: set<Key>) { k in keys && forall j :: j in keys ==> j == k || Less(k, j) }

  lemma {:induction false} LeastExists(keys: set<Key>)
    requires keys != {}
    ensures exists k :: IsLeast(k, keys)
  {
    var k :| k in keys;
    if j :| j in keys && j != k {
      assert j in keys - {k};
      LeastExists(keys - {k});
      var least :| IsLeast(least, keys - {k});
      LessTotal(k, least);
      var winner := if Less(k, least) then k else least;
      forall j | j in keys && j != winner ensures Less(winner, j) {
        assert j == k || j == least || Less(least, j);
      }
      assert IsLeast(winner, keys);
    } else {
      assert IsLeast(k, keys);
    }
  }

  /** The keys by type and then by id. */
  function Canonical(keys: set<Key>): (items: seq<Key>)
    ensures |items| == |keys|
  {
    if keys == {} then []
    else
      LeastExists(keys);
      var k :| IsLeast(k, keys);
      [k] + Canonical(keys - {k})
  }

  ghost predicate Ascending(items: seq<Key>) {
    forall i, j :: 0 <= i < j < |items| ==> Less(items[i], items[j])
  }

  lemma {:induction false} CanonicalHolds(keys: set<Key>)
    ensures forall k :: k in Canonical(keys) <==> k in keys
    ensures Ascending(Canonical(keys))
  {
    if keys != {} {
      LeastExists(keys);
      var k :| IsLeast(k, keys) && Canonical(keys) == [k] + Canonical(keys - {k});
      CanonicalHolds(keys - {k});
      var rest := Canonical(keys - {k});
      forall i | 0 <= i < |rest| ensures Less(k, rest[i]) {
        assert rest[i] in rest;
      }
    }
  }

  /** Removes duplicates by keeping one item per object, and sorts the rest. */
  method CanonicalizeItems(items: seq<Key>) returns (canonical: seq<Key>)
    ensures canonical == Canonical(set k | k in items)
  {
    var unique := {};
    for i := 0 to |items|
      invariant unique == set k | k in items[..i]
    {
      unique := unique + {items[i]};
    }
    assert items[..|items|] == items;
    return Canonical(unique);
  }

  // --- batches ---------------------------------------------------------------------------

  function Flatten<T>(parts: seq<seq<T>>): seq<T> {
    if parts == [] then [] else Flatten(parts[..|parts| - 1]) + parts[|parts| - 1]
  }

  predicate IsBatch(batch: seq<Key>) { 0 < |batch| <= MAX_ITEMS_PER_BATCH }

  /** Consecutive stretches of the canonical list, all full but the last, which is not empty. */
  method BatchGossipItems(items: seq<Key>) returns (batches: seq<seq<Key>>)
    ensures Flatten(batches) == Canonical(set k | k in items)
    ensures forall i :: 0 <= i < |batches| ==> IsBatch(batches[i])
    ensures forall i :: 0 <= i < |batches| - 1 ==> |batches[i]| == 79
  {
    var canonical := CanonicalizeItems(items);
    batches := [];
    var start := 0;
    while start < |canonical|
      invariant 0 <= start <= |canonical|
      invariant Flatten(batches) == canonical[..start]
      invariant forall i :: 0 <= i < |batches| ==> IsBatch(batches[i])
      invariant forall i :: 0 <= i < |batches| ==> |batches[i]| == 79 || (i == |batches| - 1 && start == |canonical|)
    {
      var end := if start + MAX_ITEMS_PER_BATCH < |canonical| then start + MAX_ITEMS_PER_BATCH else |canonical|;
      assert (batches + [canonical[start..end]])[..|batches|] == batches;
      batches := batches + [canonical[start..end]];
      start := end;
    }
  }

  // --- powers of two ---------------------------------------------------------------------

  function Power(b: nat, k: nat): nat { if k == 0 then 1 else b * Power(b, k - 1) }

  lemma {:induction false} PowerAdds(b: nat, i: nat, j: nat)
    ensures Power(b, i + j) == Power(b, i) * Power(b, j)
  {
    if i > 0 {
      PowerAdds(b, i - 1, j);
      assert b * (Power(b, i - 1) * Power(b, j)) == b * Power(b, i - 1) * Power(b, j);
    }
  }

  lemma {:induction false} PowerPositive(b: nat, k: nat)
    requires b > 0
    ensures Power(b, k) > 0
  {
    if k > 0 {
      PowerPositive(b, k - 1);
    }
  }

  lemma {:induction false} PowerOfPower(b: nat, i: nat, k: nat)
    ensures Power(Power(b, i), k) == Power(b, i * k)
  {
    if k > 0 {
      PowerOfPower(b, i, k - 1);
      PowerAdds(b, i, i * (k - 1));
      assert i * k == i + i * (k - 1);
    } else {
      assert i * k == 0;
    }
  }

  lemma PowerMonotone(b: nat, i: nat, j: nat)
    requires b > 0 && i <= j
    ensures Power(b, i) <= Power(b, j)
  {
    PowerAdds(b, i, j - i);
    PowerPositive(b, i);
    PowerPositive(b, j - i);
    AtLeastFactor(Power(b, i), Power(b, j - i));
  }

  lemma {:induction false} Power256IsPower(k: nat)
    ensures Power256(k) == Power(256, k)
  {
    if k > 0 {
      Power256IsPower(k - 1);
    }
  }

  lemma TwoTo8()
    ensures Power(2, 8) == 256
  {
    assert Power(2, 4) == 16;
    PowerAdds(2, 4, 4);
  }

  lemma TwoTo128()
    ensures Power(2, 128) == UUID_LIMIT
  {
    TwoTo8();
    PowerAdds(2, 8, 8);
    PowerAdds(2, 16, 16);
    PowerAdds(2, 32, 32);
    PowerAdds(2, 64, 64);
  }

  lemma TwoTo131()
    ensures Power(2, BITS_PER_ITEM) == 8 * UUID_LIMIT
  {
    TwoTo128();
    assert Power(2, 3) == 8;
    PowerAdds(2, 3, 128);
  }

  // --- packing ---------------------------------------------------------------------------

  /** An item as a number of 131 bits: the type above the id. */
  function Word(k: Key): (w: nat) { k.objectType.Number() * UUID_LIMIT + k.id }

  function TypeOf(number: nat): Option<ObjectType> {
    match number
    case 0 => Some(IssueType)
    case 1 => Some(IssueVoteType)
    case 2 => Some(SolutionType)
    case 3 => Some(SolutionVoteType)
    case 4 => Some(CampaignType)
    case 5 => Some(PledgeType)
    case _ => None
  }

  /** The items among the words; words of unknown type are skipped. */
  function Known(words: seq<nat>): seq<Key> {
    if words == [] then []
    else
      var w := words[|words| - 1];
      Known(words[..|words| - 1])
      + match TypeOf(w / UUID_LIMIT) { case Some(t) => [Key(t, w % UUID_LIMIT)] case None => [] }
  }

  function Pack(b: nat, words: seq<nat>): nat {
    if words == [] then 0 else Pack(b, words[..|words| - 1]) * b + words[|words| - 1]
  }

  function Unpack(b: nat, n: nat, x: nat): (words: seq<nat>)
    requires b > 0
    ensures |words| == n
  {
    if n == 0 then [] else Unpack(b, n - 1, x / b) + [x % b]
  }

  lemma {:induction false} UnpackPack(b: nat, words: seq<nat>)
    requires b > 0 && forall i :: 0 <= i < |words| ==> words[i] < b
    ensures Unpack(b, |words|, Pack(b, words)) == words
    ensures Pack(b, words) < Power(b, |words|)
  {
    if words != [] {
      var init, last := words[..|words| - 1], words[|words| - 1];
      UnpackPack(b, init);
      DivMod(Pack(b, init), b, last);
      ShiftBelow(Pack(b, init), Power(b, |init|), b, last);
    }
  }

  function Words(items: seq<Key>): (words: seq<nat>)
    ensures |words| == |items|
    ensures forall i :: 0 <= i < |items| ==> words[i] == Word(items[i])
  {
    seq(|items|, i requires 0 <= i < |items| => Word(items[i]))
  }

  /** The bytes that hold the given number of items. */
  function EncodedSize(count: nat): nat { (count * BITS_PER_ITEM + 7) / 8 }

  function Encode(items: seq<Key>): bytes {
    var canonical := Canonical(set k | k in items);
    BigEndian(Pack(8 * UUID_LIMIT, Words(canonical)), EncodedSize(|canonical|))
  }

  function Decode(blob: bytes): seq<Key> {
    var count := |blob| * 8 / BITS_PER_ITEM;
    if count == 0 || |blob| != EncodedSize(count) then []
    else Known(Unpack(8 * UUID_LIMIT, count, FromBigEndian(blob)))
  }

  /** A word can be read off by shifting out those after it. */
  lemma {:induction false} UnpackAt(b: nat, n: nat, x: nat, i: nat)
    requires b > 0 && i < n
    ensures Power(b, n - i - 1) > 0 && Unpack(b, n, x)[i] == x / Power(b, n - i - 1) % b
  {
    PowerPositive(b, n - i - 1);
    if i < n - 1 {
      UnpackAt(b, n - 1, x / b, i);
      DivDiv(x, b, Power(b, n - i - 2));
    } else {
      assert Power(b, 0) == 1 && x / 1 == x;
    }
  }

  /** Reads the items one by one, each by shifting and masking. */
  method DecodeGossipItems(blob: bytes) returns (items: seq<Key>)
    ensures items == Decode(blob)
  {
    hide Unpack, Power;
    if blob == [] {
      return [];
    }
    var count := |blob| * 8 / BITS_PER_ITEM;
    if count == 0 || |blob| != EncodedSize(count) {
      return [];
    }
    var packed := FromBigEndian(blob);
    items := [];
    ghost var words := Unpack(8 * UUID_LIMIT, count, packed);
    for i := 0 to count
      invariant items == Known(words[..i])
    {
      UnpackAt(8 * UUID_LIMIT, count, packed, i);
      var word := packed / Power(8 * UUID_LIMIT, count - i - 1) % (8 * UUID_LIMIT);
      assert words[..i + 1][..i] == words[..i];
      match TypeOf(word / UUID_LIMIT) {
        case Some(t) => items := items + [Key(t, word % UUID_LIMIT)];
        case None =>
      }
    }
    assert words[..count] == words;
  }

  lemma WordKnown(k: Key)
    ensures Word(k) < 8 * UUID_LIMIT
    ensures TypeOf(Word(k) / UUID_LIMIT) == Some(k.objectType) && Word(k) % UUID_LIMIT == k.id
  {
    DivMod(k.objectType.Number(), UUID_LIMIT, k.id);
  }

  lemma {:induction false} KnownWords(items: seq<Key>)
    ensures Known(Words(items)) == items
  {
    if items != [] {
      var init, last := items[..|items| - 1], items[|items| - 1];
      KnownWords(init);
      WordKnown(last);
      assert Words(items)[..|init|] == Words(init);
      assert items == init + [last];
    }
  }

  /** The packed number fits its bytes. */
  lemma PackedFits(words: seq<nat>)
    requires forall i :: 0 <= i < |words| ==> words[i] < 8 * UUID_LIMIT
    ensures Pack(8 * UUID_LIMIT, words) < Power256(EncodedSize(|words|))
  {
    var n, size := |words|, EncodedSize(|words|);
    UnpackPack(8 * UUID_LIMIT, words);
    TwoTo131();
    PowerOfPower(2, BITS_PER_ITEM, n);
    PowerMonotone(2, BITS_PER_ITEM * n, 8 * size);
    TwoTo8();
    PowerOfPower(2, 8, size);
    Power256IsPower(size);
  }

  /** What is decoded from an encoded list is the list without duplicates in canonical order. */
  lemma DecodesEncoding(items: seq<Key>)
    ensures Decode(Encode(items)) == Canonical(set k | k in items)
  {
    var canonical := Canonical(set k | k in items);
    var n := |canonical|;
    var words := Words(canonical);
    forall i | 0 <= i < n ensures words[i] < 8 * UUID_LIMIT {
      WordKnown(canonical[i]);
    }
    PackedFits(words);
    UnpackPack(8 * UUID_LIMIT, words);
    BigEndianDecodes(Pack(8 * UUID_LIMIT, words), EncodedSize(n));
    KnownWords(canonical);
    assert EncodedSize(n) * 8 / BITS_PER_ITEM == n;
  }

  /** Two lists have one encoding exactly when they name the same objects. */
  lemma EncodingNamesObjects(items: seq<Key>, items': seq<Key>)
    ensures Encode(items) == Encode(items') <==> (set k | k in items) == (set k | k in items')
  {
    DecodesEncoding(items);
    DecodesEncoding(items');
    var keys, keys' := set k | k in items, set k | k in items';
    CanonicalHolds(keys);
    CanonicalHolds(keys');
    if Encode(items) == Encode(items') {
      assert forall k :: k in keys <==> k in keys';
    }
  }

  /** A batch fits the size limit of a message. */
  lemma BatchFits(batch: seq<Key>)
    requires IsBatch(batch)
    ensures |Encode(batch)| <= 1300
  {
    AtMostLength(batch);
  }

  lemma {:induction false} AtMostLength(items: seq<Key>)
    ensures |set k | k in items| <= |items|
  {
    if items != [] {
      var init := items[..|items| - 1];
      AtMostLength(init);
      assert (set k | k in items) == (set k | k in init) + {items[|items| - 1]};
    } else {
      assert (set k | k in items) == {};
    }
  }
}
