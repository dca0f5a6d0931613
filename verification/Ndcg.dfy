/**
 The rewards of the bandit: NDCG@k and MRR@k of one query. Relevance labels are non-negative
 reals, the gain of a label is any increasing function, and the discount of a rank is any
 positive nondecreasing sequence.
 */
module Ndcg {
  import opened Quotients
  import opened Totals

  /** The discounts of ranks 0, 1, 2, ...; the code uses the binary logarithm of rank + 2. */
  ghost predicate Discounts(d: nat -> real) {
    && (forall i: nat :: d(i) > 0.0)
    && (forall i: nat, j: nat :: i < j ==> d(i) <= d(j))
  }

  /** No two ranks are discounted alike. */
  ghost predicate Strict(d: nat -> real) { forall i: nat, j: nat :: i < j ==> d(i) < d(j) }

  /** The gain of a label; the code uses two to the label, minus one. */
  ghost predicate Gains(gain: real -> real) {
    && gain(0.0) == 0.0
    && (forall a, b :: 0.0 <= a < b ==> gain(a) < gain(b))
  }

  ghost predicate NonNegative(y: seq<real>) { forall i :: 0 <= i < |y| ==> y[i] >= 0.0 }

  function Range(n: nat): seq<nat> { seq(n, i => i) }

  /** `order` lists every index below `n` once, as an argsort does. */
  ghost predicate IsOrdering(order: seq<nat>, n: nat) {
    multiset(order) == multiset(Range(n))
  }

  /** `order` sorts the scores from high to low; equal scores may come in any order. */
  ghost predicate SortsDown(order: seq<nat>, scores: seq<real>) {
    && IsOrdering(order, |scores|)
    && (forall i, j :: 0 <= i < j < |order| && order[i] < |scores| && order[j] < |scores| ==>
          scores[order[i]] >= scores[order[j]])
  }

  /** `order` sorts the labels from high to low. */
  ghost predicate SortsLabelsDown(order: seq<nat>, y: seq<real>) {
    IsOrdering(order, |y|) && NonIncreasing(Gather(y, order))
  }

  ghost predicate NonIncreasing(s: seq<real>) {
    forall i, j :: 0 <= i < j < |s| ==> s[i] >= s[j]
  }

  /** The labels listed in the given order. */
  function Gather(y: seq<real>, order: seq<nat>): (r: seq<real>)
    ensures |r| == |order|
  {
    seq(|order|, (i: nat) requires i < |order| => At(y, order[i]))
  }

  lemma GainGrows(gain: real -> real, a: real, b: real)
    requires Gains(gain) && 0.0 <= a <= b
    ensures 0.0 <= gain(a) <= gain(b)
    ensures gain(a) == gain(b) ==> a == b
  {
    assert a > 0.0 ==> gain(0.0) < gain(a);
    assert a < b ==> gain(a) < gain(b);
  }

  /** How many of `n` entries the slice `[:k]` keeps. */
  function Kept(n: nat, k: int): (r: nat)
    ensures r <= n
  {
    if k >= 0 then (if k < n then k else n)
    else (if n + k > 0 then n + k else 0)
  }

  /** Discounted gain of the first `n` labels. */
  function Dcg(labels: seq<real>, gain: real -> real, d: nat -> real, n: nat): real
    requires n <= |labels|
    requires forall i: nat :: d(i) > 0.0
  {
    if n == 0 then 0.0
    else Dcg(labels, gain, d, n - 1) + gain(labels[n - 1]) / d(n - 1)
  }

  /** NDCG@k of labels `y`, ranked by `order` and ideally by `ideal`. */
  function ComputeNdcg(
      y: seq<real>, order: seq<nat>, ideal: seq<nat>, gain: real -> real, d: nat -> real, k: int): real
    requires |order| == |ideal| == |y|
    requires forall i: nat :: d(i) > 0.0
  {
    if |y| == 0 then 0.0
    else
      var kept := Kept(|y|, k);
      var dcg := Dcg(Gather(y, order), gain, d, kept);
      var idcg := Dcg(Gather(y, ideal), gain, d, kept);
      if idcg > 0.0 then dcg / idcg else 0.0
  }

  // --- permutations ----------------------------------------------------------------------

  lemma GatherRange(y: seq<real>)
    ensures Gather(y, Range(|y|)) == y
  {}

  lemma {:induction false} GatherSame(y: seq<real>, s: seq<nat>, t: seq<nat>)
    requires multiset(s) == multiset(t)
    ensures multiset(Gather(y, s)) == multiset(Gather(y, t))
    decreases |s|
  {
    hide Gather, RemoveAt;
    if s == [] {
      assert |multiset(t)| == 0;
    } else {
      assert s[0] in multiset(t);
      var i :| 0 <= i < |t| && t[i] == s[0];
      assert s == [s[0]] + s[1..];
      RemoveAtTakes(t, i);
      GatherSame(y, s[1..], RemoveAt(t, i));
      GatherRemoves(y, t, i);
      GatherRemoves(y, s, 0);
      assert RemoveAt(s, 0) == s[1..] by {
        RemoveHead(s);
      }
    }
  }

  lemma RemoveHead<T>(s: seq<T>)
    requires s != []
    ensures RemoveAt(s, 0) == s[1..]
  {}

  function At(y: seq<real>, i: nat): real { if i < |y| then y[i] else 0.0 }

  lemma GatherRemoves(y: seq<real>, t: seq<nat>, i: nat)
    requires i < |t|
    ensures multiset(Gather(y, t)) == multiset{At(y, t[i])} + multiset(Gather(y, RemoveAt(t, i)))
  {
    var g := Gather(y, t);
    assert Gather(y, RemoveAt(t, i)) == RemoveAt(g, i);
    RemoveAtTakes(g, i);
    assert g[i] in multiset(g);
  }

  lemma OrderingPermutes(y: seq<real>, order: seq<nat>)
    requires IsOrdering(order, |y|)
    ensures |order| == |y|
    ensures multiset(Gather(y, order)) == multiset(y)
  {
    GatherSame(y, order, Range(|y|));
    GatherRange(y);
    assert |multiset(order)| == |multiset(Range(|y|))|;
  }

  // --- prefix dominance ------------------------------------------------------------------

  /** Gain of the first `n` labels, without discounts. */
  ghost function Prefix(labels: seq<real>, gain: real -> real, n: nat): real
    requires n <= |labels|
  {
    Weight(labels[..n], gain)
  }

  lemma PrefixStep(labels: seq<real>, gain: real -> real, n: nat)
    requires 0 < n <= |labels|
    ensures Prefix(labels, gain, n) == Prefix(labels, gain, n - 1) + gain(labels[n - 1])
  {
    WeightRemoveAt(labels[..n], n - 1, gain);
    assert RemoveAt(labels[..n], n - 1) == labels[..n - 1];
  }

  /** Sorting labels down makes every prefix as heavy as it can be. */
  lemma SortedPrefixIsHeaviest(labels: seq<real>, sorted: seq<real>, gain: real -> real, n: nat)
    requires Gains(gain) && NonNegative(sorted)
    requires multiset(labels) == multiset(sorted) && NonIncreasing(sorted)
    requires n <= |labels| == |sorted|
    ensures Prefix(labels, gain, n) <= Prefix(sorted, gain, n)
  {
    var top, rest := sorted[..n], sorted[n..];
    assert top + rest == sorted;
    assert labels[..n] + labels[n..] == labels;
    forall x | x in top ensures gain(x) >= 0.0 {
      GainGrows(gain, x, x);
    }
    forall x, y | x in top && y in rest ensures gain(x) >= gain(y) {
      var i :| 0 <= i < n && sorted[i] == x;
      var j :| n <= j < |sorted| && sorted[j] == y;
      GainGrows(gain, y, x);
    }
    TopOutweighs(top, rest, labels[..n], gain);
  }

  /** What the sorted prefix is ahead. */
  ghost function Lead(labels: seq<real>, sorted: seq<real>, gain: real -> real, n: nat): real
    requires n <= |labels| && n <= |sorted|
  {
    Prefix(sorted, gain, n) - Prefix(labels, gain, n)
  }

  /**
   Summation by parts: the discounted gap is at least the undiscounted gap at the last
   weight and, all ranks being discounted differently, vanishes only when every prefix gap does.
   */
  lemma {:induction false} GapBySummation(
      labels: seq<real>, sorted: seq<real>, gain: real -> real, d: nat -> real, n: nat)
    requires Discounts(d)
    requires 0 < n <= |labels| == |sorted|
    requires forall j :: 0 <= j <= n ==> Lead(labels, sorted, gain, j) >= 0.0
    ensures Dcg(sorted, gain, d, n) - Dcg(labels, gain, d, n) >= Lead(labels, sorted, gain, n) / d(n - 1)
    ensures Strict(d) && Dcg(sorted, gain, d, n) == Dcg(labels, gain, d, n) ==>
      forall j :: 0 <= j <= n ==> Lead(labels, sorted, gain, j) == 0.0
  {
    PrefixStep(labels, gain, n);
    PrefixStep(sorted, gain, n);
    var before := Lead(labels, sorted, gain, n - 1);
    var change := gain(sorted[n - 1]) - gain(labels[n - 1]);
    DivMinus(gain(sorted[n - 1]), gain(labels[n - 1]), d(n - 1));
    if n == 1 {
      DivZero(change, d(0));
    } else {
      GapBySummation(labels, sorted, gain, d, n - 1);
      PartsStep(before, change, Dcg(sorted, gain, d, n - 1) - Dcg(labels, gain, d, n - 1), d(n - 2), d(n - 1));
    }
  }

  lemma PartsStep(before: real, change: real, gap: real, p: real, q: real)
    requires before >= 0.0 && before + change >= 0.0 && 0.0 < p <= q
    requires gap >= before / p
    ensures gap + change / q >= (before + change) / q
    ensures p < q && gap + change / q == 0.0 ==> before == before + change == gap == 0.0
  {
    DivShrinks(before, p, q);
    DivPlus(before, change, q);
    DivZero(before + change, q);
    DivZero(before, q);
  }

  lemma DivPlus(a: real, b: real, q: real)
    requires q > 0.0
    ensures a / q + b / q == (a + b) / q
  {}

  lemma DivMinus(a: real, b: real, q: real)
    requires q > 0.0
    ensures a / q - b / q == (a - b) / q
  {}

  lemma DivShrinks(x: real, p: real, q: real)
    requires x >= 0.0 && 0.0 < p <= q
    ensures x / p >= x / q >= 0.0
    ensures p < q && x / p == x / q ==> x == 0.0
  {
    assert x / p - x / q == x * (q - p) / (p * q);
    assert p * q > 0.0;
    assert x * (q - p) >= 0.0;
    if x > 0.0 && p < q {
      assert x * (q - p) > 0.0;
    }
  }

  lemma DivZero(x: real, p: real)
    requires x >= 0.0 && p > 0.0
    ensures x / p >= 0.0
    ensures x / p == 0.0 ==> x == 0.0
  {}

  lemma {:induction false} DcgNonNegative(labels: seq<real>, gain: real -> real, d: nat -> real, n: nat)
    requires Gains(gain) && Discounts(d) && NonNegative(labels) && n <= |labels|
    ensures Dcg(labels, gain, d, n) >= 0.0
  {
    if n > 0 {
      DcgNonNegative(labels, gain, d, n - 1);
      GainGrows(gain, labels[n - 1], labels[n - 1]);
      DivZero(gain(labels[n - 1]), d(n - 1));
    }
  }

  /** The ideal order reaches the greatest discounted gain and, ranks differing, only with the ideal top labels. */
  lemma IdealIsGreatest(labels: seq<real>, sorted: seq<real>, gain: real -> real, d: nat -> real, n: nat)
    requires Gains(gain) && Discounts(d) && NonNegative(labels) && NonNegative(sorted)
    requires multiset(labels) == multiset(sorted) && NonIncreasing(sorted)
    requires n <= |labels| == |sorted|
    ensures Dcg(labels, gain, d, n) <= Dcg(sorted, gain, d, n)
    ensures labels[..n] == sorted[..n] ==> Dcg(labels, gain, d, n) == Dcg(sorted, gain, d, n)
    ensures Strict(d) && Dcg(labels, gain, d, n) == Dcg(sorted, gain, d, n) ==> labels[..n] == sorted[..n]
  {
    hide Prefix;
    if n > 0 {
      forall j | 0 <= j <= n ensures Lead(labels, sorted, gain, j) >= 0.0 {
        SortedPrefixIsHeaviest(labels, sorted, gain, j);
      }
      GapBySummation(labels, sorted, gain, d, n);
      DivZero(Lead(labels, sorted, gain, n), d(n - 1));
      if Strict(d) && Dcg(labels, gain, d, n) == Dcg(sorted, gain, d, n) {
        forall i | 0 <= i < n ensures labels[i] == sorted[i] {
          SameGain(labels, sorted, gain, i);
        }
      }
      if labels[..n] == sorted[..n] {
        DcgOfPrefix(labels, sorted, gain, d, n);
      }
    }
  }

  lemma SameGain(labels: seq<real>, sorted: seq<real>, gain: real -> real, i: nat)
    requires Gains(gain) && NonNegative(labels) && NonNegative(sorted) && i < |labels| == |sorted|
    requires Lead(labels, sorted, gain, i) == Lead(labels, sorted, gain, i + 1) == 0.0
    ensures labels[i] == sorted[i]
  {
    hide Prefix;
    PrefixStep(labels, gain, i + 1);
    PrefixStep(sorted, gain, i + 1);
    var a, b := labels[i], sorted[i];
    GainGrows(gain, if a <= b then a else b, if a <= b then b else a);
  }

  lemma {:induction false} DcgOfPrefix(s: seq<real>, t: seq<real>, gain: real -> real, d: nat -> real, n: nat)
    requires Discounts(d) && n <= |s| && n <= |t| && s[..n] == t[..n]
    ensures Dcg(s, gain, d, n) == Dcg(t, gain, d, n)
  {
    if n > 0 {
      assert s[..n][..n - 1] == s[..n - 1] && t[..n][..n - 1] == t[..n - 1];
      DcgOfPrefix(s, t, gain, d, n - 1);
      assert s[n - 1] == s[..n][n - 1] == t[..n][n - 1];
    }
  }

  // --- main results ----------------------------------------------------------------------

  lemma PermutedIsNonNegative(y: seq<real>, labels: seq<real>)
    requires NonNegative(y) && multiset(labels) == multiset(y)
    ensures NonNegative(labels)
  {
    forall i | 0 <= i < |labels| ensures labels[i] >= 0.0 {
      assert labels[i] in multiset(y);
      var j :| 0 <= j < |y| && y[j] == labels[i];
    }
  }

  /** NDCG@k of any labels, any scores and any k lies in [0, 1]. */
  lemma NdcgInUnit(
      y: seq<real>, scores: seq<real>, order: seq<nat>, ideal: seq<nat>, gain: real -> real, d: nat -> real, k: int)
    requires Gains(gain) && Discounts(d) && NonNegative(y)
    requires |scores| == |y| && SortsDown(order, scores) && SortsLabelsDown(ideal, y)
    ensures |order| == |ideal| == |y|
    ensures 0.0 <= ComputeNdcg(y, order, ideal, gain, d, k) <= 1.0
  {
    OrderingPermutes(y, order);
    OrderingPermutes(y, ideal);
    var kept := Kept(|y|, k);
    var labels, sorted := Gather(y, order), Gather(y, ideal);
    PermutedIsNonNegative(y, labels);
    PermutedIsNonNegative(y, sorted);
    IdealIsGreatest(labels, sorted, gain, d, kept);
    DcgNonNegative(labels, gain, d, kept);
    if Dcg(sorted, gain, d, kept) > 0.0 {
      QuotientInUnit(Dcg(labels, gain, d, kept), Dcg(sorted, gain, d, kept));
    }
  }

  /** With a positive ideal gain, the k ideal labels ranked first by score. */
  ghost predicate IsPerfect(
      y: seq<real>, order: seq<nat>, ideal: seq<nat>, gain: real -> real, d: nat -> real, k: int)
    requires Discounts(d) && |order| == |ideal| == |y|
  {
    && Dcg(Gather(y, ideal), gain, d, Kept(|y|, k)) > 0.0
    && Gather(y, order)[..Kept(|y|, k)] == Gather(y, ideal)[..Kept(|y|, k)]
  }

  /**
   NDCG@k is 1 when the ideal gain is positive and the k labels ranked first by score are the
   k ideal ones, in particular when the scores list the labels from high to low; ranks being
   discounted differently, only then.
   */
  lemma NdcgIsOne(
      y: seq<real>, scores: seq<real>, order: seq<nat>, ideal: seq<nat>, gain: real -> real, d: nat -> real, k: int)
    requires Gains(gain) && Discounts(d) && NonNegative(y)
    requires |scores| == |y| && SortsDown(order, scores) && SortsLabelsDown(ideal, y)
    ensures |order| == |ideal| == |y|
    ensures IsPerfect(y, order, ideal, gain, d, k) ==> ComputeNdcg(y, order, ideal, gain, d, k) == 1.0
    ensures Strict(d) && ComputeNdcg(y, order, ideal, gain, d, k) == 1.0 ==> IsPerfect(y, order, ideal, gain, d, k)
    ensures NonIncreasing(Gather(y, order)) ==> Gather(y, order) == Gather(y, ideal)
  {
    OrderingPermutes(y, order);
    OrderingPermutes(y, ideal);
    var kept := Kept(|y|, k);
    var labels, sorted := Gather(y, order), Gather(y, ideal);
    PermutedIsNonNegative(y, labels);
    PermutedIsNonNegative(y, sorted);
    IdealIsGreatest(labels, sorted, gain, d, kept);
    DcgNonNegative(labels, gain, d, kept);
    if Dcg(sorted, gain, d, kept) > 0.0 {
      QuotientInUnit(Dcg(labels, gain, d, kept), Dcg(sorted, gain, d, kept));
    }
    if NonIncreasing(labels) {
      SortedUnique(labels, sorted);
    }
  }

  lemma {:induction false} SortedUnique(s: seq<real>, t: seq<real>)
    requires multiset(s) == multiset(t) && NonIncreasing(s) && NonIncreasing(t)
    ensures s == t
    decreases |s|
  {
    assert |multiset(s)| == |s| && |multiset(t)| == |t|;
    if s != [] {
      SameHead(s, t);
      assert s == [s[0]] + s[1..] && t == [t[0]] + t[1..];
      assert multiset(s[1..]) == multiset(s) - multiset{s[0]};
      assert multiset(t[1..]) == multiset(t) - multiset{t[0]};
      SortedUnique(s[1..], t[1..]);
    }
  }

  lemma SameHead(s: seq<real>, t: seq<real>)
    requires multiset(s) == multiset(t) && NonIncreasing(s) && NonIncreasing(t)
    requires s != [] && t != []
    ensures s[0] == t[0]
  {
    assert s[0] in multiset(t);
    assert t[0] in multiset(s);
    var i :| 0 <= i < |t| && t[i] == s[0];
    var j :| 0 <= j < |s| && s[j] == t[0];
  }

  /** The labels in an order are those at its indices. */
  lemma GatherAt(y: seq<real>, order: seq<nat>, i: nat)
    requires IsOrdering(order, |y|) && i < |y|
    ensures |order| == |y| && order[i] < |y| && Gather(y, order)[i] == y[order[i]]
  {
    OrderingPermutes(y, order);
    assert order[i] in multiset(Range(|y|));
    assert order[i] in Range(|y|);
  }

  /** MRR@k: the reciprocal rank of the first relevant document within the top k. */
  method ComputeMrr(y: seq<real>, scores: seq<real>, order: seq<nat>, k: int) returns (r: real)
    requires |scores| == |y| && SortsDown(order, scores)
    ensures 0.0 <= r <= 1.0
    ensures |order| == |y| && forall i :: 0 <= i < |y| ==> order[i] < |y|
    ensures (forall i :: 0 <= i < |y| && i < k ==> y[order[i]] <= 0.0) ==> r == 0.0
    ensures forall i :: 0 <= i < |y| && i < k && y[order[i]] > 0.0 ==>
      (forall j :: 0 <= j < i ==> y[order[j]] <= 0.0) ==> r == 1.0 / (i + 1) as real
  {
    hide Gather;
    OrderingPermutes(y, order);
    forall i | 0 <= i < |y| ensures order[i] < |y| && Gather(y, order)[i] == y[order[i]] {
      GatherAt(y, order, i);
    }
    var labels := Gather(y, order);
    r := 0.0;
    var i: nat := 0;
    while i < k && i < |labels|
      invariant forall j :: 0 <= j < i && j < |labels| ==> y[order[j]] <= 0.0
    {
      if labels[i] > 0.0 {
        return 1.0 / (i + 1) as real;
      }
      i := i + 1;
    }
  }
}
