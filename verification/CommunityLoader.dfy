/**
 The community loader: a rotating queue with a budget of n * n steps that decides both the
 launch order and whether the dependencies are cyclic.
 */
module CommunityLoader {
  import opened Wrappers
  import opened FiniteSets
  import opened LaunchGraph

  /** The loader raises with the names still waiting. */
  datatype LoadError = CycleDetected(remaining: seq<Name>)

  /** The length of `good` passes over a queue that keeps `stuck` entries and loses one a pass. */
  function Passes(stuck: nat, good: nat): nat {
    if good == 0 then 0 else good + stuck + Passes(stuck, good - 1)
  }

  lemma {:induction false} PassesFitBudget(stuck: nat, good: nat)
    ensures Passes(stuck, good) <= (good + stuck) * (good + stuck)
  {
    if good > 0 {
      PassesFitBudget(stuck, good - 1);
      var m := good + stuck;
      assert m * m == (m - 1) * (m - 1) + 2 * m - 1;
    }
  }

  lemma {:induction false} PassesWithoutStuck(good: nat)
    ensures Passes(0, good) == good * (good + 1) / 2
  {
    if good > 0 {
      PassesWithoutStuck(good - 1);
      assert good * (good + 1) == (good - 1) * good + 2 * good;
    }
  }

  /**
   Where `load` stands: `done` launched so far, `remaining` queued, of which the first
   `todo` entries belong to the current pass. `gained` says whether this pass has taken an
   entry off the queue for good.
   */
  datatype Progress = Progress(done: seq<Name>, remaining: seq<Name>, todo: nat, gained: bool, steps: nat)

  ghost predicate Inv(reg: Registry, before: set<Name>, p: Progress) {
    && NoRepeat(p.remaining) && NoRepeat(p.done)
    && p.todo <= |p.remaining|
    && (forall n :: n in p.remaining ==> n in reg && n !in p.done)
    && (forall n :: n in p.done ==> Awaited(reg, n))
    && (forall n :: Awaited(reg, n) ==> n in p.done || n in p.remaining)
    && (forall n :: n in Doomed(reg, before) ==> n in p.remaining)
    && Ordered(reg, before, p.done)
    && (!p.gained ==> forall i :: p.todo <= i < |p.remaining| ==> Deferred(reg, before, p.done, p.remaining[i]))
  }

  /** Each launched after everything it waits for. */
  ghost predicate Ordered(reg: Registry, before: set<Name>, done: seq<Name>) {
    forall i :: 0 <= i < |done| ==> done[i] in reg && Ready(reg, done[i], before + Members(done[..i]))
  }

  ghost predicate Deferred(reg: Registry, before: set<Name>, done: seq<Name>, n: Name) {
    n in reg && reg[n].shouldLaunch && !Ready(reg, n, before + Members(done))
  }

  /** Queue entries that are not doomed. */
  ghost function Good(reg: Registry, before: set<Name>, p: Progress): int {
    |p.remaining| - |Doomed(reg, before)|
  }

  /** The steps taken and those the rest of the run may need fit in the passes of the whole run. */
  ghost predicate WithinBudget(reg: Registry, before: set<Name>, p: Progress, total: nat) {
    var stuck := |Doomed(reg, before)|;
    var good := Good(reg, before, p);
    && good >= 0
    && (good > 0 ==> p.steps + p.todo + Passes(stuck, if p.gained then good else good - 1) <= total)
    && (good == 0 && stuck == 0 ==> p.steps <= total)
  }

  lemma GoodIsNatural(reg: Registry, before: set<Name>, p: Progress)
    requires Inv(reg, before, p)
    ensures Good(reg, before, p) >= 0
    ensures Good(reg, before, p) == 0 ==> Members(p.remaining) == Doomed(reg, before)
  {
    CountMembers(p.remaining);
    SubsetIsSmaller(Doomed(reg, before), Members(p.remaining));
  }

  /** A pass that gained nothing deferred stuck launchers only. */
  lemma FruitlessPassIsStuck(reg: Registry, before: set<Name>, p: Progress)
    requires Inv(reg, before, p)
    requires p.todo == 0 && !p.gained
    ensures Good(reg, before, p) == 0
  {
    var names := Members(p.remaining);
    forall n | n in names ensures WaitsInside(reg, before, n, names) {
      var i :| 0 <= i < |p.remaining| && p.remaining[i] == n;
      assert Deferred(reg, before, p.done, n);
      var d :| d in reg[n].notBefore && Awaited(reg, d) && d !in before + Members(p.done);
      assert d in names && WaitsFor(reg, before, n, d);
    }
    StuckIsDoomed(reg, before, names);
    CountMembers(p.remaining);
    assert names == Doomed(reg, before);
  }

  /** A doomed launcher is never ready. */
  lemma DoomedIsNotReady(reg: Registry, before: set<Name>, p: Progress, n: Name)
    requires Inv(reg, before, p)
    requires n in Doomed(reg, before)
    ensures Deferred(reg, before, p.done, n)
  {
    DoomedIsStuck(reg, before);
    assert WaitsInside(reg, before, n, Doomed(reg, before));
    var d :| d in Doomed(reg, before) && WaitsFor(reg, before, n, d);
    assert d in p.remaining && d !in p.done;
  }

  // --- the three things a step can do ----------------------------------------------------

  /** A new pass starts when the previous one is over. */
  function Started(p: Progress): Progress {
    if p.todo == 0 then p.(todo := |p.remaining|, gained := false) else p
  }

  function Discard(p: Progress): Progress
    requires p.remaining != [] && p.todo > 0
  {
    p.(remaining := p.remaining[1..], todo := p.todo - 1, gained := true, steps := p.steps + 1)
  }

  function Launch(p: Progress): Progress
    requires p.remaining != [] && p.todo > 0
  {
    Discard(p).(done := p.done + [p.remaining[0]])
  }

  function Defer(p: Progress): Progress
    requires p.remaining != [] && p.todo > 0
  {
    p.(remaining := p.remaining[1..] + [p.remaining[0]], todo := p.todo - 1, steps := p.steps + 1)
  }

  lemma StartKeeps(reg: Registry, before: set<Name>, p: Progress, total: nat)
    requires Inv(reg, before, p) && WithinBudget(reg, before, p, total)
    requires p.remaining != []
    ensures Inv(reg, before, Started(p)) && WithinBudget(reg, before, Started(p), total)
    ensures Started(p).todo > 0 && Started(p).remaining == p.remaining && p.remaining[0] in reg
  {
    if p.todo == 0 && Good(reg, before, p) > 0 {
      if !p.gained {
        FruitlessPassIsStuck(reg, before, p);
      }
    }
  }

  /** Taking a good entry off the queue pays for the step. */
  lemma GainKeepsBudget(reg: Registry, before: set<Name>, p: Progress, p': Progress, total: nat)
    requires WithinBudget(reg, before, p, total) && p.todo > 0
    requires |p'.remaining| == |p.remaining| - 1 && p'.todo == p.todo - 1 && p'.gained && p'.steps == p.steps + 1
    requires Good(reg, before, p') >= 0
    ensures WithinBudget(reg, before, p', total)
  {}

  lemma FrontIsGood(reg: Registry, before: set<Name>, p: Progress)
    requires Inv(reg, before, p)
    requires p.remaining != []
    requires !Deferred(reg, before, p.done, p.remaining[0])
    ensures p.remaining[0] !in Doomed(reg, before)
    ensures Good(reg, before, p) > 0
  {
    if p.remaining[0] in Doomed(reg, before) {
      DoomedIsNotReady(reg, before, p, p.remaining[0]);
    }
    GoodIsNatural(reg, before, p);
    assert p.remaining[0] in Members(p.remaining);
  }

  lemma DiscardKeeps(reg: Registry, before: set<Name>, p: Progress, total: nat)
    requires Inv(reg, before, p) && WithinBudget(reg, before, p, total)
    requires p.remaining != [] && p.todo > 0
    requires !reg[p.remaining[0]].shouldLaunch
    ensures Inv(reg, before, Discard(p)) && WithinBudget(reg, before, Discard(p), total)
  {
    hide Ordered, Doomed, NoRepeat;
    NoRepeatTail(p.remaining);
    FrontIsGood(reg, before, p);
    assert p.remaining == [p.remaining[0]] + p.remaining[1..];
    GainKeepsBudget(reg, before, p, Discard(p), total);
  }

  lemma LaunchKeeps(reg: Registry, before: set<Name>, p: Progress, total: nat)
    requires Inv(reg, before, p) && WithinBudget(reg, before, p, total)
    requires p.remaining != [] && p.todo > 0
    requires reg[p.remaining[0]].shouldLaunch && Ready(reg, p.remaining[0], before + Members(p.done))
    ensures Inv(reg, before, Launch(p)) && WithinBudget(reg, before, Launch(p), total)
    ensures Members(Launch(p).done) == Members(p.done) + {p.remaining[0]}
  {
    hide Doomed, Ready, Ordered, NoRepeat;
    FrontIsGood(reg, before, p);
    assert p.remaining == [p.remaining[0]] + p.remaining[1..];
    OrderedGrows(reg, before, p.done, p.remaining[0]);
    NoRepeatTail(p.remaining);
    GainKeepsBudget(reg, before, p, Launch(p), total);
  }

  lemma NoRepeatTail(s: seq<Name>)
    requires s != [] && NoRepeat(s)
    ensures NoRepeat(s[1..]) && s[0] !in s[1..]
  {}

  lemma OrderedGrows(reg: Registry, before: set<Name>, done: seq<Name>, n: Name)
    requires Ordered(reg, before, done) && NoRepeat(done) && n !in done
    requires n in reg && Ready(reg, n, before + Members(done))
    ensures Ordered(reg, before, done + [n]) && NoRepeat(done + [n])
  {
    hide Ready;
    var longer := done + [n];
    forall i | 0 <= i < |longer| ensures longer[i] in reg && Ready(reg, longer[i], before + Members(longer[..i])) {
      assert longer[..i] == done[..i];
      assert done[..|done|] == done;
    }
  }

  lemma NoRepeatRotated(s: seq<Name>)
    requires s != [] && NoRepeat(s)
    ensures NoRepeat(s[1..] + [s[0]])
  {
    var t := s[1..] + [s[0]];
    forall i, j | 0 <= i < j < |t| ensures t[i] != t[j] {
      assert t[i] == s[i + 1];
      assert t[j] == if j + 1 < |s| then s[j + 1] else s[0];
    }
  }

  lemma DeferKeeps(reg: Registry, before: set<Name>, p: Progress, total: nat)
    requires Inv(reg, before, p) && WithinBudget(reg, before, p, total)
    requires p.remaining != [] && p.todo > 0
    requires Deferred(reg, before, p.done, p.remaining[0])
    ensures Inv(reg, before, Defer(p)) && WithinBudget(reg, before, Defer(p), total)
  {
    hide Ordered, Deferred, Doomed, NoRepeat;
    var n := p.remaining[0];
    var rotated := Defer(p).remaining;
    assert p.remaining == [n] + p.remaining[1..];
    assert forall x :: x in rotated <==> x in p.remaining;
    NoRepeatRotated(p.remaining);
    forall i | !p.gained && p.todo - 1 <= i < |rotated| ensures Deferred(reg, before, p.done, rotated[i]) {
      assert rotated[i] == if i + 1 < |p.remaining| then p.remaining[i + 1] else n;
    }
  }

  lemma DoomedAreRegistered(reg: Registry, before: set<Name>, order: seq<Name>)
    requires NoRepeat(order) && Members(order) == reg.Keys
    ensures forall n :: n in Doomed(reg, before) ==> n in order
    ensures |Doomed(reg, before)| <= |order|
  {
    CountMembers(order);
    SubsetIsSmaller(Doomed(reg, before), Members(order));
    assert forall n :: n in Doomed(reg, before) ==> n in Members(order);
  }

  /** The steps a run can need before only doomed launchers are queued. */
  ghost function StepsNeeded(reg: Registry, before: set<Name>, order: seq<Name>): nat
    requires NoRepeat(order) && Members(order) == reg.Keys
  {
    DoomedAreRegistered(reg, before, order);
    Passes(|Doomed(reg, before)|, |order| - |Doomed(reg, before)|)
  }

  lemma Begin(reg: Registry, before: set<Name>, order: seq<Name>)
    requires NoRepeat(order) && Members(order) == reg.Keys
    ensures var p := Progress([], order, |order|, false, 0);
      Inv(reg, before, p) && WithinBudget(reg, before, p, StepsNeeded(reg, before, order))
  {
    DoomedAreRegistered(reg, before, order);
    hide Doomed;
    assert forall n :: n in order <==> n in Members(order);
    assert forall n :: Awaited(reg, n) ==> n in Members(order);
  }

  /** The launchers that should launch and are not doomed. */
  ghost function Launchable(reg: Registry, before: set<Name>): set<Name> {
    (set n | n in reg && reg[n].shouldLaunch) - Doomed(reg, before)
  }

  lemma Finished(reg: Registry, before: set<Name>, p: Progress)
    requires Inv(reg, before, p)
    requires Good(reg, before, p) == 0
    ensures Members(p.remaining) == Doomed(reg, before)
    ensures Members(p.done) == Launchable(reg, before)
  {
    GoodIsNatural(reg, before, p);
    DoomedIsStuck(reg, before);
    hide Doomed, Ordered;
    forall n ensures n in Members(p.done) <==> n in Launchable(reg, before) {
      assert n in p.remaining <==> n in Members(p.remaining);
    }
  }

  /** How the loop can end: empty queue within budget, or budget spent with only doomed queued. */
  lemma Outcome(reg: Registry, before: set<Name>, order: seq<Name>, p: Progress)
    requires NoRepeat(order) && Members(order) == reg.Keys
    requires Inv(reg, before, p) && WithinBudget(reg, before, p, StepsNeeded(reg, before, order))
    requires p.steps <= |order| * |order| + 1
    requires p.remaining == [] || p.steps > |order| * |order|
    ensures p.steps > |order| * |order| <==> HasCycle(reg, before)
    ensures !HasCycle(reg, before) ==> p.steps <= |order| * (|order| + 1) / 2
    ensures NoRepeat(p.remaining) && Members(p.remaining) == Doomed(reg, before)
    ensures NoRepeat(p.done) && Members(p.done) == Launchable(reg, before) && Ordered(reg, before, p.done)
  {
    hide Doomed, HasCycle, Ordered, NoRepeat;
    var n := |order|;
    DoomedAreRegistered(reg, before, order);
    DoomedIffCycle(reg, before);
    PassesFitBudget(|Doomed(reg, before)|, n - |Doomed(reg, before)|);
    PassesWithoutStuck(n);
    GoodIsNatural(reg, before, p);
    Finished(reg, before, p);
  }

  lemma NoRepeatAppend(s: seq<Name>, n: Name)
    requires NoRepeat(s) && n !in s
    ensures NoRepeat(s + [n]) && Members(s + [n]) == Members(s) + {n}
  {}

  lemma NoMembers()
    ensures Members<Name>([]) == {}
  {}

  class Loader {
    /** The registered launchers and whether each has launched. */
    var communityLaunchers: map<Name, (Launcher, bool)>
    /** Their names in order of registration. */
    var names: seq<Name>
    /** The overlays loaded so far, oldest first. */
    var overlays: seq<Name>

    ghost predicate Valid()
      reads this
    {
      && NoRepeat(names)
      && Members(names) == communityLaunchers.Keys
      && forall n :: n in communityLaunchers ==> communityLaunchers[n].0.name == n
    }

    ghost function Reg(): Registry
      reads this
    {
      map n | n in communityLaunchers :: communityLaunchers[n].0
    }

    ghost function Launched(): set<Name>
      reads this
    {
      set n | n in communityLaunchers && communityLaunchers[n].1
    }

    constructor ()
      ensures Valid() && communityLaunchers == map[] && overlays == []
    {
      communityLaunchers := map[];
      names := [];
      overlays := [];
    }

    /** Register a launcher; one that has launched is not replaced. */
    method SetLauncher(launcher: Launcher)
      requires Valid()
      modifies this
      ensures Valid() && overlays == old(overlays) && Launched() == old(Launched())
      ensures Reg() == if launcher.name in old(Launched()) then old(Reg()) else old(Reg())[launcher.name := launcher]
    {
      hide NoRepeat;
      if launcher.name in communityLaunchers {
        if communityLaunchers[launcher.name].1 {
          return;
        }
      } else {
        assert launcher.name !in names by {
          assert launcher.name !in Members(names);
        }
        NoRepeatAppend(names, launcher.name);
        names := names + [launcher.name];
      }
      communityLaunchers := communityLaunchers[launcher.name := (launcher, false)];
    }

    /** The loop over a launcher's dependencies. */
    method Validated(launcher: Launcher) returns (validated: bool)
      requires launcher.name in communityLaunchers && communityLaunchers[launcher.name].0 == launcher
      ensures validated <==> Ready(Reg(), launcher.name, Launched())
    {
      validated := true;
      for i := 0 to |launcher.notBefore|
        invariant validated <==> forall j ::
          0 <= j < i && Awaited(Reg(), launcher.notBefore[j]) ==> launcher.notBefore[j] in Launched()
      {
        var dependency := launcher.notBefore[i];
        if dependency in communityLaunchers && communityLaunchers[dependency].0.shouldLaunch {
          validated := validated && communityLaunchers[dependency].1;
        }
      }
    }

    method LaunchOne(launcher: Launcher)
      requires Valid()
      requires launcher.name in communityLaunchers && communityLaunchers[launcher.name].0 == launcher
      modifies this
      ensures Valid() && Reg() == old(Reg()) && names == old(names)
      ensures Launched() == old(Launched()) + {launcher.name}
      ensures overlays == old(overlays) + [launcher.name]
    {
      overlays := overlays + [launcher.name];
      communityLaunchers := communityLaunchers[launcher.name := (launcher, true)];
    }

    /**
     Launch everything that can launch. `load` raises exactly when the waiting relation has a
     cycle, and then the error names exactly the launchers that lead into one; either way all
     others have launched, once each, after everything they wait for.
     */
    method Load() returns (r: Result<(), LoadError>, ghost steps: nat)
      requires Valid()
      modifies this
      ensures Valid() && Reg() == old(Reg()) && names == old(names)
      ensures r.Failure? <==> HasCycle(old(Reg()), old(Launched()))
      ensures r.Failure? ==> NoRepeat(r.error.remaining)
      ensures r.Failure? ==> Members(r.error.remaining) == Doomed(old(Reg()), old(Launched()))
      ensures |overlays| >= |old(overlays)| && overlays[..|old(overlays)|] == old(overlays)
      ensures var done := overlays[|old(overlays)|..];
        && NoRepeat(done)
        && Members(done) == Launchable(old(Reg()), old(Launched()))
        && Ordered(old(Reg()), old(Launched()), done)
        && Launched() == old(Launched()) + Members(done)
      ensures r.Success? ==> steps <= |names| * (|names| + 1) / 2
      ensures r.Failure? ==> steps == |names| * |names| + 1
    {
      hide Doomed, HasCycle, Ordered, NoRepeat, Ready, Inv, WithinBudget, Members, StepsNeeded, Launchable;
      ghost var reg, before, n := Reg(), Launched(), |names|;
      ghost var total := StepsNeeded(reg, before, names);
      ghost var p := Progress([], names, n, false, 0);
      Begin(reg, before, names);
      assert Members(p.done) == {} by {
        NoMembers();
      }
      var remaining := names;
      var cycle := |remaining| * |remaining|;
      while remaining != [] && cycle >= 0
        invariant Valid() && Reg() == reg && names == old(names)
        invariant p.remaining == remaining && p.steps == n * n - cycle && cycle >= -1
        invariant overlays == old(overlays) + p.done
        invariant Launched() == before + Members(p.done)
        invariant Inv(reg, before, p) && WithinBudget(reg, before, p, total)
        decreases cycle + 1
      {
        StartKeeps(reg, before, p, total);
        p := Started(p);
        var launcher := communityLaunchers[remaining[0]].0;
        remaining := remaining[1..];
        cycle := cycle - 1;
        if launcher.shouldLaunch {
          var validated := Validated(launcher);
          if validated {
            LaunchKeeps(reg, before, p, total);
            LaunchOne(launcher);
            p := Launch(p);
          } else {
            DeferKeeps(reg, before, p, total);
            remaining := remaining + [launcher.name];
            p := Defer(p);
          }
        } else {
          DiscardKeeps(reg, before, p, total);
          p := Discard(p);
        }
      }
      steps := p.steps;
      Outcome(reg, before, names, p);
      assert overlays[|old(overlays)|..] == p.done;
      if cycle < 0 {
        return Failure(CycleDetected(remaining)), steps;
      }
      return Success(()), steps;
    }
  }
}
