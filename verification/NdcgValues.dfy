/** The value of NDCG@k in between its bounds. */
module NdcgValues {
  import opened Quotients
  import opened Totals
  import opened Ndcg

  /** The discounted gain of the first `n` ranks, as a sum over the ranks. */
  ghost function GainSum(y: seq<real>, order: seq<nat>, gain: real -> real, d: nat -> real, n: nat): real
    requires forall i: nat :: d(i) > 0.0
  {
    Weight(Range(n), (i: nat) => gain(if i < |order| && order[i] < |y| then y[order[i]] else 0.0) / d(i))
  }

  /** The ranks that the slice `[:k]` of `n` ranks keeps. */
  ghost predicate KeepsTop(n: nat, k: int, m: nat) {
    && (k >= n ==> m == n)
    && (0 <= k < n ==> m == k)
    && (-k < n && k < 0 ==> m == n + k)
    && (-k >= n && k < 0 ==> m == 0)
  }

  lemma {:induction false} WeightPrefix<T>(s: seq<T>, f: T -> real)
    requires s != []
    ensures Weight(s, f) == Weight(s[..|s| - 1], f) + f(s[|s| - 1])
  {
    WeightRemoveAt(s, |s| - 1, f);
    assert RemoveAt(s, |s| - 1) == s[..|s| - 1];
  }

  lemma {:induction false} DcgIsSum(y: seq<real>, order: seq<nat>, gain: real -> real, d: nat -> real, n: nat)
    requires IsOrdering(order, |y|) && Discounts(d) && n <= |y|
    ensures |order| == |y| && Dcg(Gather(y, order), gain, d, n) == GainSum(y, order, gain, d, n)
  {
    OrderingPermutes(y, order);
    if n > 0 {
      DcgIsSum(y, order, gain, d, n - 1);
      GatherAt(y, order, n - 1);
      WeightPrefix(Range(n), (i: nat) =>
        gain(if i < |order| && order[i] < |y| then y[order[i]] else 0.0) / d(i));
      assert Range(n)[..n - 1] == Range(n - 1);
    }
  }

  /** The result is the share of the ideal gain that the ranking reaches. */
  lemma NdcgTimesIdeal(
      y: seq<real>, scores: seq<real>, order: seq<nat>, ideal: seq<nat>, gain: real -> real, d: nat -> real, k: int,
      m: nat)
    requires Gains(gain) && Discounts(d) && NonNegative(y)
    requires |scores| == |y| && SortsDown(order, scores) && SortsLabelsDown(ideal, y) && KeepsTop(|y|, k, m)
    ensures |order| == |ideal| == |y|
    ensures ComputeNdcg(y, order, ideal, gain, d, k) * GainSum(y, ideal, gain, d, m) == GainSum(y, order, gain, d, m)
    ensures GainSum(y, ideal, gain, d, m) == 0.0 ==> ComputeNdcg(y, order, ideal, gain, d, k) == 0.0
  {
    hide GainSum, Gather, Gains, IsOrdering, NonIncreasing;
    OrderingPermutes(y, order);
    OrderingPermutes(y, ideal);
    DcgIsSum(y, order, gain, d, m);
    DcgIsSum(y, ideal, gain, d, m);
    RankedIsAtMostIdeal(y, order, ideal, gain, d, m);
    ShareOf(Dcg(Gather(y, order), gain, d, m), Dcg(Gather(y, ideal), gain, d, m));
  }

  lemma RankedIsAtMostIdeal(
      y: seq<real>, order: seq<nat>, ideal: seq<nat>, gain: real -> real, d: nat -> real, m: nat)
    requires Gains(gain) && Discounts(d) && NonNegative(y) && m <= |y|
    requires IsOrdering(order, |y|) && SortsLabelsDown(ideal, y)
    ensures |order| == |ideal| == |y|
    ensures 0.0 <= Dcg(Gather(y, order), gain, d, m) <= Dcg(Gather(y, ideal), gain, d, m)
  {
    hide Dcg, Gather;
    OrderingPermutes(y, order);
    OrderingPermutes(y, ideal);
    PermutedIsNonNegative(y, Gather(y, order));
    PermutedIsNonNegative(y, Gather(y, ideal));
    DcgNonNegative(Gather(y, order), gain, d, m);
    IdealIsGreatest(Gather(y, order), Gather(y, ideal), gain, d, m);
  }

  lemma ShareOf(a: real, b: real)
    requires 0.0 <= a <= b
    ensures b > 0.0 ==> a / b * b == a
    ensures b == 0.0 ==> a == 0.0
  {}

  /** For gains that add up, what the rankings reach of the ideal gains adds up. */
  lemma NdcgIsAdditive(
      y: seq<real>, scores: seq<real>, order: seq<nat>, ideal: seq<nat>, g: real -> real, g': real -> real,
      d: nat -> real, k: int, m: nat)
    requires Gains(g) && Gains(g') && Discounts(d) && NonNegative(y)
    requires |scores| == |y| && SortsDown(order, scores) && SortsLabelsDown(ideal, y) && KeepsTop(|y|, k, m)
    ensures |order| == |ideal| == |y|
    ensures ComputeNdcg(y, order, ideal, x => g(x) + g'(x), d, k) * GainSum(y, ideal, x => g(x) + g'(x), d, m)
         == ComputeNdcg(y, order, ideal, g, d, k) * GainSum(y, ideal, g, d, m)
          + ComputeNdcg(y, order, ideal, g', d, k) * GainSum(y, ideal, g', d, m)
  {
    hide ComputeNdcg, GainSum;
    NdcgTimesIdeal(y, scores, order, ideal, x => g(x) + g'(x), d, k, m);
    NdcgTimesIdeal(y, scores, order, ideal, g, d, k, m);
    NdcgTimesIdeal(y, scores, order, ideal, g', d, k, m);
    GainSumAdds(y, order, g, g', d, m);
  }

  lemma {:induction false} GainSumAdds(
      y: seq<real>, order: seq<nat>, g: real -> real, g': real -> real, d: nat -> real, m: nat)
    requires Discounts(d)
    ensures GainSum(y, order, x => g(x) + g'(x), d, m) == GainSum(y, order, g, d, m) + GainSum(y, order, g', d, m)
  {
    if m > 0 {
      GainSumAdds(y, order, g, g', d, m - 1);
      GainSumStep(y, order, x => g(x) + g'(x), d, m);
      GainSumStep(y, order, g, d, m);
      GainSumStep(y, order, g', d, m);
      var x := if m - 1 < |order| && order[m - 1] < |y| then y[order[m - 1]] else 0.0;
      DivPlus(g(x), g'(x), d(m - 1));
    }
  }

  lemma GainSumStep(y: seq<real>, order: seq<nat>, gain: real -> real, d: nat -> real, m: nat)
    requires Discounts(d) && m > 0
    ensures GainSum(y, order, gain, d, m) == GainSum(y, order, gain, d, m - 1)
      + gain(if m - 1 < |order| && order[m - 1] < |y| then y[order[m - 1]] else 0.0) / d(m - 1)
  {
    WeightPrefix(Range(m), (i: nat) =>
      gain(if i < |order| && order[i] < |y| then y[order[i]] else 0.0) / d(i));
    assert Range(m)[..m - 1] == Range(m - 1);
  }

  // --- one relevant document -------------------------------------------------------------

  /** Only rank `i` holds a relevant document. */
  ghost predicate OnlyAt(labels: seq<real>, i: nat) {
    i < |labels| && labels[i] > 0.0 && forall j :: 0 <= j < |labels| && j != i ==> labels[j] == 0.0
  }

  lemma {:induction false} DcgOfOne(labels: seq<real>, i: nat, gain: real -> real, d: nat -> real, n: nat)
    requires OnlyAt(labels, i) && Gains(gain) && Discounts(d) && n <= |labels|
    ensures Dcg(labels, gain, d, n) == if i < n then gain(labels[i]) / d(i) else 0.0
  {
    if n > 0 {
      DcgOfOne(labels, i, gain, d, n - 1);
    }
  }

  lemma GreatestComesFirst(labels: seq<real>, sorted: seq<real>, i: nat)
    requires OnlyAt(labels, i) && multiset(labels) == multiset(sorted) && NonIncreasing(sorted)
    ensures sorted != [] && sorted[0] == labels[i]
  {
    assert labels[i] in multiset(sorted);
    var j :| 0 <= j < |sorted| && sorted[j] == labels[i];
    assert sorted[0] in multiset(labels);
    var l :| 0 <= l < |labels| && labels[l] == sorted[0];
  }

  /** Sorted down, the relevant document comes first. */
  lemma SortedHasItFirst(labels: seq<real>, sorted: seq<real>, i: nat)
    requires OnlyAt(labels, i) && multiset(labels) == multiset(sorted) && NonIncreasing(sorted)
    ensures OnlyAt(sorted, 0) && sorted[0] == labels[i]
  {
    GreatestComesFirst(labels, sorted, i);
    hide NonIncreasing;
    var others, rest := RemoveAt(labels, i), RemoveAt(sorted, 0);
    RemoveAtTakes(labels, i);
    RemoveAtTakes(sorted, 0);
    assert multiset(rest) == multiset(others);
    forall l | 0 < l < |sorted| ensures sorted[l] == 0.0 {
      assert sorted[l] == rest[l - 1] && rest[l - 1] in multiset(rest);
      assert sorted[l] in others;
      OthersAreZero(labels, i, sorted[l]);
    }
  }

  lemma OthersAreZero(labels: seq<real>, i: nat, x: real)
    requires OnlyAt(labels, i) && x in RemoveAt(labels, i)
    ensures x == 0.0
  {
    var others := RemoveAt(labels, i);
    var j :| 0 <= j < |others| && others[j] == x;
    assert others[j] == labels[if j < i then j else j + 1];
  }

  /**
   With one relevant document, at rank `i` of the ranking, the result is the discount of the
   first rank over that of rank `i`, and nothing when the rank is not among the top ones.
   */
  lemma NdcgOfOne(
      y: seq<real>, scores: seq<real>, order: seq<nat>, ideal: seq<nat>, gain: real -> real, d: nat -> real, k: int,
      m: nat, i: nat)
    requires Gains(gain) && Discounts(d) && NonNegative(y)
    requires |scores| == |y| && SortsDown(order, scores) && SortsLabelsDown(ideal, y) && KeepsTop(|y|, k, m)
    requires |order| == |y| && i < |y| && forall j :: 0 <= j < |y| ==> order[j] < |y|
    requires forall j :: 0 <= j < |y| ==> if j == i then y[order[j]] > 0.0 else y[order[j]] == 0.0
    ensures |ideal| == |y|
    ensures ComputeNdcg(y, order, ideal, gain, d, k) == if i < m then d(0) / d(i) else 0.0
  {
    OrderingPermutes(y, order);
    OrderingPermutes(y, ideal);
    var labels, sorted := Gather(y, order), Gather(y, ideal);
    forall j | 0 <= j < |y| ensures labels[j] == y[order[j]] {
      GatherAt(y, order, j);
    }
    SortedHasItFirst(labels, sorted, i);
    DcgOfOne(labels, i, gain, d, m);
    DcgOfOne(sorted, 0, gain, d, m);
    GainGrows(gain, 0.0, labels[i]);
    SharesOf(gain(labels[i]), d(0), d(i));
  }

  lemma SharesOf(g: real, p: real, q: real)
    requires g > 0.0 && p > 0.0 && q > 0.0
    ensures g / p > 0.0
    ensures (g / q) / (g / p) == p / q
  {
    assert (p / q) * (g / p) == g / q;
  }
}
