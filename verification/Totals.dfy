/**
 Totals of a sequence under a measure, and the exchange argument that the NDCG bound rests
 on: no choice of at most |top| elements outweighs the |top| heaviest ones.
 */
module Totals {

  function Total<T>(s: seq<T>, f: T -> int): int
  {
    if s == [] then 0 else f(s[0]) + Total(s[1..], f)
  }

  lemma {:induction false} TotalAppend<T>(s: seq<T>, t: seq<T>, f: T -> int)
    ensures Total(s + t, f) == Total(s, f) + Total(t, f)
  {
    if s == [] {
      assert s + t == t;
    } else {
      assert (s + t)[1..] == s[1..] + t;
      TotalAppend(s[1..], t, f);
    }
  }

  /** `s` without its element at position `i`. */
  function RemoveAt<T>(s: seq<T>, i: nat): (r: seq<T>)
    requires i < |s|
    ensures |r| == |s| - 1
  {
    s[..i] + s[i + 1..]
  }

  lemma RemoveAtTakes<T>(s: seq<T>, i: nat)
    requires i < |s|
    ensures multiset(RemoveAt(s, i)) == multiset(s) - multiset{s[i]}
  {
    assert s == s[..i] + [s[i]] + s[i + 1..];
  }

  lemma TotalRemoveAt<T>(s: seq<T>, i: nat, f: T -> int)
    requires i < |s|
    ensures Total(s, f) == f(s[i]) + Total(RemoveAt(s, i), f)
  {
    assert s == s[..i] + ([s[i]] + s[i + 1..]);
    TotalAppend(s[..i], [s[i]] + s[i + 1..], f);
    TotalAppend(s[..i], s[i + 1..], f);
    assert ([s[i]] + s[i + 1..])[1..] == s[i + 1..];
  }

  lemma {:induction false} TotalNonNegative<T>(t: seq<T>, f: T -> int)
    requires forall x :: x in t ==> f(x) >= 0
    ensures Total(t, f) >= 0
  {
    if t != [] {
      assert t[0] in t;
      forall x | x in t[1..] ensures f(x) >= 0 {}
      TotalNonNegative(t[1..], f);
    }
  }

  /** Permuting a sequence keeps its total. */
  lemma {:induction false} TotalPermutation<T>(s: seq<T>, t: seq<T>, f: T -> int)
    requires multiset(s) == multiset(t)
    ensures Total(s, f) == Total(t, f)
    decreases |s|
  {
    if s == [] {
      assert |multiset(t)| == 0;
    } else {
      assert s[0] in multiset(t);
      var i :| 0 <= i < |t| && t[i] == s[0];
      assert s == [s[0]] + s[1..];
      assert multiset(s[1..]) == multiset(s) - multiset{s[0]};
      RemoveAtTakes(t, i);
      TotalPermutation(s[1..], RemoveAt(t, i), f);
      TotalRemoveAt(t, i, f);
    }
  }

  // --- real measures ---------------------------------------------------------------------

  ghost function Weight<T>(s: seq<T>, f: T -> real): real {
    if s == [] then 0.0 else f(s[0]) + Weight(s[1..], f)
  }

  lemma {:induction false} WeightRemoveAt<T>(s: seq<T>, i: nat, f: T -> real)
    requires i < |s|
    ensures Weight(s, f) == f(s[i]) + Weight(RemoveAt(s, i), f)
  {
    if i > 0 {
      WeightRemoveAt(s[1..], i - 1, f);
      assert RemoveAt(s, i)[1..] == RemoveAt(s[1..], i - 1);
    } else {
      assert RemoveAt(s, 0) == s[1..];
    }
  }

  lemma {:induction false} WeightNonNegative<T>(s: seq<T>, f: T -> real)
    requires forall x :: x in s ==> f(x) >= 0.0
    ensures Weight(s, f) >= 0.0
  {
    if s != [] {
      assert s[0] in s;
      forall x | x in s[1..] ensures f(x) >= 0.0 {}
      WeightNonNegative(s[1..], f);
    }
  }

  /** Every element of `top` weighs at least as much as every element of `rest`. */
  ghost predicate Dominates<T>(top: seq<T>, rest: seq<T>, f: T -> real)
  {
    forall x, y :: x in top && y in rest ==> f(x) >= f(y)
  }

  /** The exchange argument: |top| heaviest elements outweigh any choice of that many or fewer. */
  lemma {:induction false} TopOutweighs<T>(top: seq<T>, rest: seq<T>, s: seq<T>, f: T -> real)
    requires forall x :: x in top ==> f(x) >= 0.0
    requires Dominates(top, rest, f)
    requires multiset(s) <= multiset(top + rest)
    requires |s| <= |top|
    ensures Weight(s, f) <= Weight(top, f)
    decreases |s|
  {
    if s == [] {
      WeightNonNegative(top, f);
    } else {
      var i, j := Exchanged(top, rest, s);
      TakingKeepsTop(top, rest, j, f);
      TakingKeepsPart(top, rest, s, i, j);
      TopOutweighs(RemoveAt(top, j), rest, RemoveAt(s, i), f);
      WeightRemoveAt(s, i, f);
      WeightRemoveAt(top, j, f);
      assert s[i] in multiset(s) && s[i] in multiset(top + rest);
      assert s[i] in s && s[i] in top + rest && top[j] in top;
      assert s[i] == top[j] || s[i] in rest;
    }
  }

  /** An element of `s` and the one of `top` it is set against: itself if it can be. */
  lemma Exchanged<T>(top: seq<T>, rest: seq<T>, s: seq<T>) returns (i: nat, j: nat)
    requires 0 < |s| <= |top|
    ensures i < |s| && j < |top|
    ensures s[i] == top[j] || forall x :: x in s ==> x !in top
  {
    if x :| x in s && x in top {
      i :| 0 <= i < |s| && s[i] == x;
      j :| 0 <= j < |top| && top[j] == x;
    } else {
      i, j := 0, 0;
    }
  }

  lemma TakingKeepsTop<T>(top: seq<T>, rest: seq<T>, j: nat, f: T -> real)
    requires j < |top| && Dominates(top, rest, f) && forall x :: x in top ==> f(x) >= 0.0
    ensures Dominates(RemoveAt(top, j), rest, f) && forall x :: x in RemoveAt(top, j) ==> f(x) >= 0.0
  {
    assert forall x :: x in RemoveAt(top, j) ==> x in top;
  }

  lemma TakingKeepsPart<T>(top: seq<T>, rest: seq<T>, s: seq<T>, i: nat, j: nat)
    requires i < |s| && j < |top| && multiset(s) <= multiset(top + rest)
    requires s[i] == top[j] || forall x :: x in s ==> x !in top
    ensures multiset(RemoveAt(s, i)) <= multiset(RemoveAt(top, j) + rest)
  {
    RemoveAtTakes(s, i);
    RemoveAtTakes(top, j);
    assert multiset(top + rest) == multiset(top) + multiset(rest);
    assert multiset(RemoveAt(top, j) + rest) == multiset(RemoveAt(top, j)) + multiset(rest);
    forall x ensures multiset(RemoveAt(s, i))[x] <= multiset(RemoveAt(top, j) + rest)[x] {
      assert multiset(s)[x] <= multiset(top + rest)[x];
      assert x in s <==> x in multiset(s);
      assert x in top <==> x in multiset(top);
    }
  }
}
