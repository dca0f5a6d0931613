/** Which arms a check retires, and why an arm that is really best is not among them. */
module Elimination {
  import opened BanditState

  const MIN_PULLS_FOR_ELIMINATION: real := 10.0

  /** The data a check works on. */
  datatype View = View(algorithm: Algorithm, bandit: State, active: set<Arm>, width: HalfWidth, now: real) {
    ghost function Lcb(a: Arm): real { ConfidenceBounds(algorithm, bandit, a, width, now).0 }

    ghost function Ucb(a: Arm): real { ConfidenceBounds(algorithm, bandit, a, width, now).1 }

    /** Active arms with enough pulls. */
    ghost function Eligible(): set<Arm> {
      set a | a in active && Aggregate(bandit, a, Pulls, now) >= MIN_PULLS_FOR_ELIMINATION
    }

    /** An eligible arm with the greatest lower bound; which one, if several, is left open. */
    ghost predicate IsBest(best: Arm) {
      best in Eligible() && forall a :: a in Eligible() ==> Lcb(a) <= Lcb(best)
    }

    /** What the check retires when it takes `best` for the best arm. */
    ghost function Retired(best: Arm): set<Arm> {
      if |active| <= 1 || |Eligible()| <= 1 || Lcb(best) == 0.0 then {}
      else set a | a in Eligible() && a != best && Ucb(a) < Lcb(best)
    }

    /** Arms whose interval lies below that of some eligible arm. */
    ghost function Beaten(): set<Arm> {
      set a | a in Eligible() && exists c :: c in Eligible() && Ucb(a) < Lcb(c)
    }

    /** Intervals are intervals, and do not reach below zero. */
    ghost predicate SoundIntervals() {
      forall a :: a in active ==> 0.0 <= Lcb(a) <= Ucb(a)
    }

    /** Every eligible arm's true mean lies in its interval. */
    ghost predicate Covered(mu: Arm -> real) {
      forall a :: a in Eligible() ==> Lcb(a) <= mu(a) <= Ucb(a)
    }
  }

  /**
   A check retires exactly the eligible arms whose interval lies entirely below another
   one's, whichever of several best arms it starts from.
   */
  lemma RetiresExactlyBeaten(v: View, best: Arm)
    requires v.SoundIntervals()
    requires v.Eligible() != {} ==> v.IsBest(best)
    ensures v.Retired(best) == v.Beaten()
  {
    var eligible := v.Eligible();
    forall a ensures a in v.Retired(best) <==> a in v.Beaten() {
      if a in v.Beaten() {
        var c :| c in eligible && v.Ucb(a) < v.Lcb(c);
        assert v.Lcb(c) <= v.Lcb(best);
        assert 0.0 <= v.Lcb(a) <= v.Ucb(a);
        TwoMembers(a, c, eligible);
        assert eligible <= v.active;
        TwoMembers(a, c, v.active);
      }
    }
  }

  lemma TwoMembers(a: Arm, c: Arm, s: set<Arm>)
    requires a in s && c in s && a != c
    ensures |s| >= 2
  {
    assert {a, c} <= s;
    assert s == {a, c} + (s - {a, c});
    assert |{a, c}| == 2;
  }

  /** The best arm is not retired, so an active arm always remains. */
  lemma BestStays(v: View, best: Arm)
    requires v.Eligible() != {} ==> v.IsBest(best)
    ensures v.Retired(best) <= v.Eligible() <= v.active
    ensures v.active != {} ==> v.active - v.Retired(best) != {}
  {
    if v.active != {} {
      if a :| a in v.Retired(best) {
        assert best in v.active - v.Retired(best);
      } else {
        assert v.active - v.Retired(best) == v.active;
      }
    }
  }

  /** With means in their intervals, an arm of greatest true mean is never retired. */
  lemma GreatestMeanStays(v: View, best: Arm, mu: Arm -> real, star: Arm)
    requires v.Eligible() != {} ==> v.IsBest(best)
    requires v.Covered(mu)
    requires forall a :: mu(a) <= mu(star)
    ensures star !in v.Retired(best)
  {
    if best in v.Eligible() && star in v.Eligible() {
      assert v.Lcb(best) <= mu(best) <= mu(star) <= v.Ucb(star);
    }
  }
}
