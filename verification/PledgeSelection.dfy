/**
 The greedy choice of pledges for a final funding transaction, and why it is the best one:
 no other choice of the given pledges reaches the required amount with fewer inputs.
 */
module PledgeSelection {
  import opened Wrappers
  import opened Bytes
  import opened Totals

  /** A stored pledge. `txid` holds the bytes of the transaction id in display order. */
  datatype StoredPledge = StoredPledge(
    id: nat, campaignId: nat, pledgerId: nat, txid: bytes, vout: nat,
    valueSats: int, signedPsbt: string, createdAt: int)

  /** Construction of a pledge rejects a value that is not positive. */
  type FundingPledge = p: StoredPledge | p.valueSats > 0
    witness StoredPledge(0, 0, 0, [], 0, 1, "", 0)

  /** A valid pledge with the finalized raw transaction taken from its signed PSBT. */
  datatype PreparedPledge = PreparedPledge(pledge: FundingPledge, rawTx: bytes)

  datatype SelectError =
    | NegativeFeeBuffer
    | NotEnoughPledges(have: int, need: int)

  // --- sort keys -------------------------------------------------------------------------

  /** (value or its negation, creation time, txid, vout), compared lexicographically. */
  datatype Key = Key(value: int, createdAt: int, txid: bytes, vout: nat)

  function SmallestFirstKey(p: PreparedPledge): Key {
    Key(p.pledge.valueSats, p.pledge.createdAt, p.pledge.txid, p.pledge.vout)
  }

  function LargestFirstKey(p: PreparedPledge): Key {
    Key(-p.pledge.valueSats, p.pledge.createdAt, p.pledge.txid, p.pledge.vout)
  }

  predicate LexLess(a: bytes, b: bytes) {
    b != [] && (a == [] || a[0] < b[0] || (a[0] == b[0] && LexLess(a[1..], b[1..])))
  }

  predicate KeyLess(a: Key, b: Key) {
    || a.value < b.value
    || (a.value == b.value &&
        (|| a.createdAt < b.createdAt
         || (a.createdAt == b.createdAt &&
             (LexLess(a.txid, b.txid) || (a.txid == b.txid && a.vout < b.vout)))))
  }

  lemma {:induction false} LexTotal(a: bytes, b: bytes)
    ensures LexLess(a, b) || a == b || LexLess(b, a)
  {
    if a != [] && b != [] && a[0] == b[0] {
      LexTotal(a[1..], b[1..]);
      assert a == [a[0]] + a[1..] && b == [b[0]] + b[1..];
    }
  }

  lemma {:induction false} LexTransitive(a: bytes, b: bytes, c: bytes)
    requires LexLess(a, b) && LexLess(b, c)
    ensures LexLess(a, c)
  {
    if a != [] && a[0] == b[0] && b[0] == c[0] {
      LexTransitive(a[1..], b[1..], c[1..]);
    }
  }

  lemma {:induction false} LexIrreflexive(a: bytes)
    ensures !LexLess(a, a)
  {
    if a != [] {
      LexIrreflexive(a[1..]);
    }
  }

  /** The order of bytes: by the first byte that differs, and a proper prefix first. */
  lemma {:induction false} LexLessMeans(a: bytes, b: bytes)
    ensures LexLess(a, b) <==>
      || (|a| < |b| && a == b[..|a|])
      || (exists i :: 0 <= i < |a| && i < |b| && a[..i] == b[..i] && a[i] < b[i])
  {
    if a != [] && b != [] {
      LexLessMeans(a[1..], b[1..]);
      assert a == [a[0]] + a[1..] && b == [b[0]] + b[1..];
      if LexLess(a, b) {
        if a[0] < b[0] {
          assert a[..0] == b[..0];
        } else if i :| 0 <= i < |a| - 1 && i < |b| - 1 && a[1..][..i] == b[1..][..i] && a[1..][i] < b[1..][i] {
          assert a[..i + 1] == [a[0]] + a[1..][..i] && b[..i + 1] == [b[0]] + b[1..][..i];
          assert a[i + 1] < b[i + 1];
        }
      }
      if i :| 0 <= i < |a| && i < |b| && a[..i] == b[..i] && a[i] < b[i] {
        if i > 0 {
          assert a[..i][0] == a[0] && b[..i][0] == b[0];
          assert a[1..][..i - 1] == a[..i][1..] && b[1..][..i - 1] == b[..i][1..];
          assert a[1..][i - 1] < b[1..][i - 1];
        }
      }
      if |a| < |b| && a == b[..|a|] {
        assert a[1..] == b[1..][..|a| - 1];
      }
    }
  }

  lemma KeyTotal(a: Key, b: Key)
    ensures KeyLess(a, b) || a == b || KeyLess(b, a)
  {
    LexTotal(a.txid, b.txid);
  }

  lemma KeyTransitive(a: Key, b: Key, c: Key)
    requires KeyLess(a, b) && !KeyLess(c, b)
    ensures KeyLess(a, c)
  {
    KeyTotal(b, c);
    if b != c {
      if LexLess(a.txid, b.txid) && LexLess(b.txid, c.txid) {
        LexTransitive(a.txid, b.txid, c.txid);
      }
    }
  }

  lemma KeyAsymmetric(a: Key, b: Key)
    ensures !(KeyLess(a, b) && KeyLess(b, a))
  {
    LexIrreflexive(a.txid);
    if LexLess(a.txid, b.txid) && LexLess(b.txid, a.txid) {
      LexTransitive(a.txid, b.txid, a.txid);
    }
  }

  // --- one step --------------------------------------------------------------------------

  function Value(p: PreparedPledge): int { p.pledge.valueSats }

  function TotalValue(s: seq<PreparedPledge>): int { Total(s, Value) }

  /** The candidates that cover the shortfall on their own, in order. */
  function Finishing(s: seq<PreparedPledge>, shortfall: int): seq<PreparedPledge>
  {
    if s == [] then []
    else (if Value(s[0]) >= shortfall then [s[0]] else []) + Finishing(s[1..], shortfall)
  }

  lemma {:induction false} FinishingMember(s: seq<PreparedPledge>, shortfall: int, p: PreparedPledge)
    ensures p in Finishing(s, shortfall) <==> p in s && Value(p) >= shortfall
  {
    if s != [] {
      FinishingMember(s[1..], shortfall, p);
      assert p in s <==> p == s[0] || p in s[1..];
    }
  }

  /** The first element whose key no other key is below. */
  function MinBy(s: seq<PreparedPledge>, key: PreparedPledge -> Key): (r: PreparedPledge)
    requires s != []
    ensures r in s
  {
    if |s| == 1 then s[0]
    else
      var m := MinBy(s[1..], key);
      if KeyLess(key(m), key(s[0])) then m else s[0]
  }

  lemma {:induction false} MinByLeast(s: seq<PreparedPledge>, key: PreparedPledge -> Key, p: PreparedPledge)
    requires p in s
    ensures !KeyLess(key(p), key(MinBy(s, key)))
  {
    KeyAsymmetric(key(p), key(p));
    if |s| > 1 {
      var m := MinBy(s[1..], key);
      KeyAsymmetric(key(s[0]), key(m));
      if p in s[1..] {
        MinByLeast(s[1..], key, p);
        if KeyLess(key(p), key(s[0])) && !KeyLess(key(m), key(s[0])) {
          KeyTransitive(key(p), key(s[0]), key(m));
        }
      } else {
        assert p == s[0];
      }
    }
  }

  /** Smallest pledge that finishes when one does, otherwise the largest. */
  function Pick(remaining: seq<PreparedPledge>, shortfall: int): (r: PreparedPledge)
    requires remaining != []
    ensures r in remaining
  {
    var finishing := Finishing(remaining, shortfall);
    if finishing != [] then
      var r := MinBy(finishing, SmallestFirstKey);
      FinishingMember(remaining, shortfall, r);
      r
    else MinBy(remaining, LargestFirstKey)
  }

  lemma PickFinishing(remaining: seq<PreparedPledge>, shortfall: int, p: PreparedPledge)
    requires p in remaining && Value(p) >= shortfall
    ensures shortfall <= Value(Pick(remaining, shortfall)) <= Value(p)
  {
    FinishingMember(remaining, shortfall, p);
    FinishingMember(remaining, shortfall, Pick(remaining, shortfall));
    MinByLeast(Finishing(remaining, shortfall), SmallestFirstKey, p);
  }

  lemma PickLargest(remaining: seq<PreparedPledge>, shortfall: int, p: PreparedPledge)
    requires p in remaining
    requires forall q :: q in remaining ==> Value(q) < shortfall
    ensures Value(p) <= Value(Pick(remaining, shortfall))
  {
    var finishing := Finishing(remaining, shortfall);
    if finishing != [] {
      FinishingMember(remaining, shortfall, finishing[0]);
    } else {
      MinByLeast(remaining, LargestFirstKey, p);
    }
  }

  function FirstIndex(s: seq<PreparedPledge>, p: PreparedPledge): (i: nat)
    requires p in s
    ensures i < |s| && s[i] == p
    ensures p !in s[..i]
  {
    if s[0] == p then 0 else 1 + FirstIndex(s[1..], p)
  }

  /** The list without its first occurrence of `p`. */
  function RemoveFirst(s: seq<PreparedPledge>, p: PreparedPledge): (r: seq<PreparedPledge>)
    requires p in s
    ensures |r| == |s| - 1
  {
    RemoveAt(s, FirstIndex(s, p))
  }

  function Ones(p: PreparedPledge, x: PreparedPledge): nat { if p == x then 1 else 0 }

  lemma Counted(p: PreparedPledge, s: seq<PreparedPledge>, x: PreparedPledge)
    ensures multiset([p] + s)[x] == Ones(p, x) + multiset(s)[x]
  {
    assert multiset([p] + s) == multiset{p} + multiset(s);
  }

  lemma RemoveFirstTakes(s: seq<PreparedPledge>, p: PreparedPledge, x: PreparedPledge)
    requires p in s
    ensures multiset(s)[x] == Ones(p, x) + multiset(RemoveFirst(s, p))[x]
  {
    RemoveAtTakes(s, FirstIndex(s, p));
    assert p in multiset(s);
  }

  lemma RemoveFirstKeeps(s: seq<PreparedPledge>, p: PreparedPledge, x: PreparedPledge)
    requires p in s && x in RemoveFirst(s, p)
    ensures x in s
  {
    RemoveFirstTakes(s, p, x);
    assert x in multiset(RemoveFirst(s, p));
    assert x in multiset(s);
  }

  lemma RemoveFirstLowers(s: seq<PreparedPledge>, p: PreparedPledge)
    requires p in s
    ensures TotalValue(RemoveFirst(s, p)) == TotalValue(s) - Value(p)
  {
    TotalRemoveAt(s, FirstIndex(s, p), Value);
  }

  // --- the greedy choice -----------------------------------------------------------------

  /** The pledges chosen, in order, when `shortfall` is still missing. */
  function Greedy(remaining: seq<PreparedPledge>, shortfall: int): seq<PreparedPledge>
    decreases |remaining|
  {
    if shortfall <= 0 || remaining == [] then []
    else
      var p := Pick(remaining, shortfall);
      [p] + Greedy(RemoveFirst(remaining, p), shortfall - Value(p))
  }

  lemma GreedyStep(selected: seq<PreparedPledge>, remaining: seq<PreparedPledge>, shortfall: int)
    requires shortfall > 0 && remaining != []
    ensures var p := Pick(remaining, shortfall);
      selected + Greedy(remaining, shortfall)
      == (selected + [p]) + Greedy(RemoveFirst(remaining, p), shortfall - Value(p))
  {
    hide RemoveFirst, Pick;
    var p := Pick(remaining, shortfall);
    var tail := Greedy(RemoveFirst(remaining, p), shortfall - Value(p));
    assert selected + ([p] + tail) == (selected + [p]) + tail;
  }

  method SelectPledges(askingPriceSats: nat, prepared: seq<PreparedPledge>, feeBufferSats: int)
    returns (r: Result<seq<PreparedPledge>, SelectError>)
    ensures feeBufferSats < 0 ==> r == Failure(NegativeFeeBuffer)
    ensures feeBufferSats >= 0 ==>
      var required := askingPriceSats + feeBufferSats;
      r == if TotalValue(prepared) >= required
           then Success(Greedy(prepared, required))
           else Failure(NotEnoughPledges(TotalValue(prepared), required))
  {
    hide RemoveFirst, Pick;
    if feeBufferSats < 0 {
      return Failure(NegativeFeeBuffer);
    }
    var required := askingPriceSats + feeBufferSats;
    var remaining := prepared;
    var selected := [];
    var total := 0;
    while total < required && remaining != []
      invariant total + TotalValue(remaining) == TotalValue(prepared)
      invariant Greedy(prepared, required) == selected + Greedy(remaining, required - total)
      decreases |remaining|
    {
      var shortfall := required - total;
      var next := Pick(remaining, shortfall);
      GreedyStep(selected, remaining, shortfall);
      RemoveFirstLowers(remaining, next);
      remaining := RemoveFirst(remaining, next);
      selected := selected + [next];
      total := total + Value(next);
    }
    TotalNonNegative(remaining, Value);
    if total < required {
      return Failure(NotEnoughPledges(total, required));
    }
    assert selected + [] == selected;
    return Success(selected);
  }

  // --- what the choice guarantees --------------------------------------------------------

  /** The pledges not chosen. */
  function LeftOver(remaining: seq<PreparedPledge>, shortfall: int): seq<PreparedPledge>
    decreases |remaining|
  {
    if shortfall <= 0 || remaining == [] then remaining
    else
      var p := Pick(remaining, shortfall);
      LeftOver(RemoveFirst(remaining, p), shortfall - Value(p))
  }

  /** Chosen and left-over pledges together are a permutation of the given ones. */
  lemma GreedyPartitions(remaining: seq<PreparedPledge>, shortfall: int)
    ensures multiset(Greedy(remaining, shortfall)) + multiset(LeftOver(remaining, shortfall)) == multiset(remaining)
  {
    hide Greedy, LeftOver;
    forall x: PreparedPledge {
      GreedyCounts(remaining, shortfall, x);
    }
  }

  lemma {:induction false} GreedyCounts(remaining: seq<PreparedPledge>, shortfall: int, x: PreparedPledge)
    ensures multiset(Greedy(remaining, shortfall))[x] + multiset(LeftOver(remaining, shortfall))[x]
         == multiset(remaining)[x]
    decreases |remaining|
  {
    hide RemoveFirst, Pick, Greedy;
    if shortfall > 0 && remaining != [] {
      var p := Pick(remaining, shortfall);
      RemoveFirstTakes(remaining, p, x);
      GreedyCounts(RemoveFirst(remaining, p), shortfall - Value(p), x);
      GreedyCountStep(remaining, shortfall, x);
    } else {
      assert Greedy(remaining, shortfall) == [] by {
        GreedyStops(remaining, shortfall);
      }
    }
  }

  lemma GreedyStops(remaining: seq<PreparedPledge>, shortfall: int)
    requires shortfall <= 0 || remaining == []
    ensures Greedy(remaining, shortfall) == []
  {}

  lemma GreedyCountStep(remaining: seq<PreparedPledge>, shortfall: int, x: PreparedPledge)
    requires shortfall > 0 && remaining != []
    ensures var p := Pick(remaining, shortfall);
      multiset(Greedy(remaining, shortfall))[x]
      == Ones(p, x) + multiset(Greedy(RemoveFirst(remaining, p), shortfall - Value(p)))[x]
  {
    hide RemoveFirst, Pick;
    var p := Pick(remaining, shortfall);
    Counted(p, Greedy(RemoveFirst(remaining, p), shortfall - Value(p)), x);
  }

  /** The choice reaches the shortfall exactly when all pledges together do. */
  lemma {:induction false} GreedyReaches(remaining: seq<PreparedPledge>, shortfall: int)
    ensures TotalValue(Greedy(remaining, shortfall)) >= shortfall <==> TotalValue(remaining) >= shortfall
    decreases |remaining|
  {
    hide RemoveFirst, Pick;
    TotalNonNegative(remaining, Value);
    if shortfall > 0 && remaining != [] {
      var p := Pick(remaining, shortfall);
      var rest := RemoveFirst(remaining, p);
      RemoveFirstLowers(remaining, p);
      GreedyReaches(rest, shortfall - Value(p));
      var tail := Greedy(rest, shortfall - Value(p));
      assert ([p] + tail)[1..] == tail;
    }
  }

  /** No choice of the given pledges that reaches the shortfall uses fewer of them. */
  lemma {:induction false} GreedyIsOptimal(remaining: seq<PreparedPledge>, shortfall: int, other: seq<PreparedPledge>)
    requires multiset(other) <= multiset(remaining)
    requires TotalValue(other) >= shortfall
    ensures |Greedy(remaining, shortfall)| <= |other|
    decreases |remaining|
  {
    hide RemoveFirst, Pick;
    if shortfall > 0 && remaining != [] {
      assert other != [];
      var p := Pick(remaining, shortfall);
      var rest := RemoveFirst(remaining, p);
      if finishing :| finishing in remaining && Value(finishing) >= shortfall {
        PickFinishing(remaining, shortfall, finishing);
        assert Greedy(rest, shortfall - Value(p)) == [];
      } else {
        // Give up p when the other choice has it, and any element otherwise.
        var i: nat :| i < |other| && (p in other ==> other[i] == p);
        assert other[i] in multiset(other);
        PickLargest(remaining, shortfall, other[i]);
        TotalRemoveAt(other, i, Value);
        RemoveFirstLowers(remaining, p);
        StillPart(remaining, p, other, i);
        GreedyIsOptimal(rest, shortfall - Value(p), RemoveAt(other, i));
      }
    }
  }

  lemma StillPart(remaining: seq<PreparedPledge>, p: PreparedPledge, other: seq<PreparedPledge>, i: nat)
    requires p in remaining && i < |other|
    requires multiset(other) <= multiset(remaining)
    requires p in other ==> other[i] == p
    ensures multiset(RemoveAt(other, i)) <= multiset(RemoveFirst(remaining, p))
  {
    hide RemoveFirst, RemoveAt;
    RemoveAtTakes(other, i);
    assert p in other <==> p in multiset(other);
    forall x: PreparedPledge ensures multiset(RemoveAt(other, i))[x] <= multiset(RemoveFirst(remaining, p))[x] {
      RemoveFirstTakes(remaining, p, x);
    }
  }

  /** Every chosen pledge is needed: without it the choice falls short. */
  lemma GreedyIsIrredundant(remaining: seq<PreparedPledge>, shortfall: int, i: nat)
    requires i < |Greedy(remaining, shortfall)|
    ensures TotalValue(RemoveAt(Greedy(remaining, shortfall), i)) < shortfall
  {
    var chosen := Greedy(remaining, shortfall);
    var fewer := RemoveAt(chosen, i);
    GreedyPartitions(remaining, shortfall);
    RemoveAtTakes(chosen, i);
    if TotalValue(fewer) >= shortfall {
      GreedyIsOptimal(remaining, shortfall, fewer);
      assert false;
    }
  }

  /** The last pledge overshoots least: no unused pledge completes the others with less. */
  lemma {:induction false} GreedyOvershootsLeast(remaining: seq<PreparedPledge>, shortfall: int, p: PreparedPledge)
    requires shortfall > 0 && TotalValue(remaining) >= shortfall
    requires p in LeftOver(remaining, shortfall)
    ensures Greedy(remaining, shortfall) != []
    ensures var chosen := Greedy(remaining, shortfall);
      TotalValue(chosen[..|chosen| - 1]) + Value(p) >= shortfall ==> Value(p) >= Value(chosen[|chosen| - 1])
    decreases |remaining|
  {
    hide RemoveFirst, Pick;
    assert remaining != [];
    var first := Pick(remaining, shortfall);
    var rest := RemoveFirst(remaining, first);
    var tail := Greedy(rest, shortfall - Value(first));
    RemoveFirstLowers(remaining, first);
    if shortfall <= Value(first) {
      assert Greedy(remaining, shortfall)[..0] == [];
      RemoveFirstKeeps(remaining, first, p);
      if Value(p) >= shortfall {
        PickFinishing(remaining, shortfall, p);
      }
    } else {
      GreedyOvershootsLeast(rest, shortfall - Value(first), p);
      TotalStep(first, tail);
    }
  }

  lemma TotalStep(first: PreparedPledge, tail: seq<PreparedPledge>)
    requires tail != []
    ensures TotalValue(([first] + tail)[..|tail|]) == Value(first) + TotalValue(tail[..|tail| - 1])
  {
    assert ([first] + tail)[..|tail|][1..] == tail[..|tail| - 1];
  }

  lemma {:induction false} LeftOverKeeps(remaining: seq<PreparedPledge>, shortfall: int, p: PreparedPledge)
    requires p in LeftOver(remaining, shortfall)
    ensures p in remaining
    decreases |remaining|
  {
    hide RemoveFirst, Pick;
    if shortfall > 0 && remaining != [] {
      var first := Pick(remaining, shortfall);
      LeftOverKeeps(RemoveFirst(remaining, first), shortfall - Value(first), p);
      RemoveFirstKeeps(remaining, first, p);
    }
  }

  lemma PickIsEarliest(remaining: seq<PreparedPledge>, shortfall: int, q: PreparedPledge)
    requires q in remaining && Value(q) == Value(Pick(remaining, shortfall))
    ensures !KeyLess(SmallestFirstKey(q), SmallestFirstKey(Pick(remaining, shortfall)))
  {
    var p := Pick(remaining, shortfall);
    var finishing := Finishing(remaining, shortfall);
    if finishing != [] {
      FinishingMember(remaining, shortfall, p);
      FinishingMember(remaining, shortfall, q);
      MinByLeast(finishing, SmallestFirstKey, q);
    } else {
      MinByLeast(remaining, LargestFirstKey, q);
    }
  }

  /**
   Among pledges of equal value the one created first is chosen, and among those created at
   once the one with the lower outpoint.
   */
  lemma {:induction false} EarlierIsChosen(
      remaining: seq<PreparedPledge>, shortfall: int, p: PreparedPledge, q: PreparedPledge)
    requires p in Greedy(remaining, shortfall) && q in LeftOver(remaining, shortfall)
    requires p.pledge.valueSats == q.pledge.valueSats
    ensures p.pledge.createdAt <= q.pledge.createdAt
    ensures p.pledge.createdAt == q.pledge.createdAt ==>
      LexLess(p.pledge.txid, q.pledge.txid) || (p.pledge.txid == q.pledge.txid && p.pledge.vout <= q.pledge.vout)
    decreases |remaining|
  {
    hide RemoveFirst, Pick;
    var first := Pick(remaining, shortfall);
    if p == first {
      LeftOverKeeps(remaining, shortfall, q);
      PickIsEarliest(remaining, shortfall, q);
      KeyTotal(SmallestFirstKey(p), SmallestFirstKey(q));
    } else {
      EarlierIsChosen(RemoveFirst(remaining, first), shortfall - Value(first), p, q);
    }
  }

  // --- every peer chooses alike ----------------------------------------------------------

  /** A campaign holds at most one pledge per outpoint. */
  ghost predicate DistinctOutpoints(s: seq<PreparedPledge>) {
    forall p, q :: p in s && q in s && p.pledge.txid == q.pledge.txid && p.pledge.vout == q.pledge.vout ==> p == q
  }

  lemma SameMembers(s: seq<PreparedPledge>, t: seq<PreparedPledge>, p: PreparedPledge)
    requires multiset(s) == multiset(t)
    ensures p in s <==> p in t
  {
    assert p in s <==> p in multiset(s);
    assert p in t <==> p in multiset(t);
  }

  lemma PickIgnoresOrder(s: seq<PreparedPledge>, t: seq<PreparedPledge>, shortfall: int)
    requires s != [] && t != [] && multiset(s) == multiset(t)
    requires DistinctOutpoints(s)
    ensures Pick(s, shortfall) == Pick(t, shortfall)
  {
    var fs, ft := Finishing(s, shortfall), Finishing(t, shortfall);
    var a, b := Pick(s, shortfall), Pick(t, shortfall);
    SameMembers(s, t, a);
    SameMembers(s, t, b);
    forall p ensures p in fs <==> p in ft {
      SameMembers(s, t, p);
      FinishingMember(s, shortfall, p);
      FinishingMember(t, shortfall, p);
    }
    if fs != [] {
      assert fs[0] in ft;
    }
    if ft != [] {
      assert ft[0] in fs;
    }
    if fs != [] {
      MinByLeast(fs, SmallestFirstKey, b);
      MinByLeast(ft, SmallestFirstKey, a);
      KeyTotal(SmallestFirstKey(a), SmallestFirstKey(b));
    } else {
      MinByLeast(s, LargestFirstKey, b);
      MinByLeast(t, LargestFirstKey, a);
      KeyTotal(LargestFirstKey(a), LargestFirstKey(b));
    }
  }

  /**
   Any peer can build the transaction: two peers that hold the same pledges, listed in
   whatever order, choose the same pledges in the same order.
   */
  lemma {:induction false} GreedyIgnoresOrder(s: seq<PreparedPledge>, t: seq<PreparedPledge>, shortfall: int)
    requires multiset(s) == multiset(t)
    requires DistinctOutpoints(s)
    ensures Greedy(s, shortfall) == Greedy(t, shortfall)
    decreases |s|
  {
    hide RemoveFirst, Pick;
    assert |multiset(s)| == |s| && |multiset(t)| == |t|;
    if shortfall > 0 && s != [] {
      PickIgnoresOrder(s, t, shortfall);
      var p := Pick(s, shortfall);
      RemoveKeepsDistinct(s, p);
      SameMembers(s, t, p);
      RemoveFirstAlike(s, t, p);
      GreedyIgnoresOrder(RemoveFirst(s, p), RemoveFirst(t, p), shortfall - Value(p));
    }
  }

  lemma RemoveFirstAlike(s: seq<PreparedPledge>, t: seq<PreparedPledge>, p: PreparedPledge)
    requires p in s && p in t && multiset(s) == multiset(t)
    ensures multiset(RemoveFirst(s, p)) == multiset(RemoveFirst(t, p))
  {
    hide RemoveFirst;
    forall x: PreparedPledge ensures multiset(RemoveFirst(s, p))[x] == multiset(RemoveFirst(t, p))[x] {
      RemoveFirstTakes(s, p, x);
      RemoveFirstTakes(t, p, x);
    }
  }

  lemma RemoveKeepsDistinct(s: seq<PreparedPledge>, p: PreparedPledge)
    requires p in s && DistinctOutpoints(s)
    ensures DistinctOutpoints(RemoveFirst(s, p))
  {
    hide RemoveFirst;
    forall q | q in RemoveFirst(s, p) ensures q in s {
      RemoveFirstKeeps(s, p, q);
    }
  }
}
