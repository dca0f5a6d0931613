/** Which launchers wait for which, and which of them can never launch. */
module LaunchGraph {
  import opened FiniteSets

  type Name = string

  datatype Launcher = Launcher(name: Name, notBefore: seq<Name>, shouldLaunch: bool)

  type Registry = map<Name, Launcher>

  /** A dependency that is not registered or will not launch is not waited for. */
  predicate Awaited(reg: Registry, d: Name) {
    d in reg && reg[d].shouldLaunch
  }

  /** Every dependency that is waited for has launched. */
  predicate Ready(reg: Registry, n: Name, launched: set<Name>)
    requires n in reg
  {
    forall d :: d in reg[n].notBefore && Awaited(reg, d) ==> d in launched
  }

  /** `n` has to wait for `d`, which had not launched at the start. */
  predicate WaitsFor(reg: Registry, before: set<Name>, n: Name, d: Name)
    requires n in reg
  {
    d in reg[n].notBefore && Awaited(reg, d) && d !in before
  }

  /** Launchers that all wait for one another. */
  ghost predicate Stuck(reg: Registry, before: set<Name>, names: set<Name>) {
    forall n {:trigger WaitsInside(reg, before, n, names)} :: n in names ==> WaitsInside(reg, before, n, names)
  }

  /** `n` should launch but waits for one of `names`. */
  ghost predicate WaitsInside(reg: Registry, before: set<Name>, n: Name, names: set<Name>) {
    Awaited(reg, n) && exists d :: d in names && WaitsFor(reg, before, n, d)
  }

  /** Launchers that belong to some stuck set. */
  ghost function Doomed(reg: Registry, before: set<Name>): set<Name> {
    set n | n in reg && IsDoomed(reg, before, n)
  }

  ghost predicate IsDoomed(reg: Registry, before: set<Name>, n: Name) {
    exists names: set<Name> :: n in names && Stuck(reg, before, names)
  }

  lemma DoomedIsStuck(reg: Registry, before: set<Name>)
    ensures Stuck(reg, before, Doomed(reg, before))
  {
    var all := Doomed(reg, before);
    forall n | n in all
      ensures WaitsInside(reg, before, n, all)
    {
      var names: set<Name> :| n in names && Stuck(reg, before, names);
      assert WaitsInside(reg, before, n, names);
      var d :| d in names && WaitsFor(reg, before, n, d);
      assert WaitsInside(reg, before, d, names);
      assert IsDoomed(reg, before, d);
    }
  }

  lemma StuckIsDoomed(reg: Registry, before: set<Name>, names: set<Name>)
    requires Stuck(reg, before, names)
    ensures names <= Doomed(reg, before)
  {
    forall n | n in names ensures n in Doomed(reg, before) {
      assert WaitsInside(reg, before, n, names);
      assert IsDoomed(reg, before, n);
    }
  }

  // --- cycles ----------------------------------------------------------------------------

  /** A walk along the waiting relation. */
  ghost predicate Walk(reg: Registry, before: set<Name>, path: seq<Name>) {
    forall i :: 0 <= i < |path| - 1 ==> path[i] in reg && WaitsFor(reg, before, path[i], path[i + 1])
  }

  /** A closed walk through launchers that should launch. */
  ghost predicate IsCycle(reg: Registry, before: set<Name>, path: seq<Name>) {
    && path != []
    && Walk(reg, before, path)
    && (forall i :: 0 <= i < |path| ==> Awaited(reg, path[i]))
    && WaitsFor(reg, before, path[|path| - 1], path[0])
  }

  ghost predicate HasCycle(reg: Registry, before: set<Name>) {
    exists path :: IsCycle(reg, before, path)
  }

  lemma CycleIsStuck(reg: Registry, before: set<Name>, path: seq<Name>)
    requires IsCycle(reg, before, path)
    ensures Doomed(reg, before) != {}
  {
    var names := set n | n in path;
    forall n | n in names
      ensures WaitsInside(reg, before, n, names)
    {
      var i :| 0 <= i < |path| && path[i] == n;
      var d := if i + 1 < |path| then path[i + 1] else path[0];
      assert d in names && WaitsFor(reg, before, n, d);
    }
    StuckIsDoomed(reg, before, names);
    assert path[0] in names;
  }

  ghost predicate NoRepeat<T>(s: seq<T>) {
    forall i, j :: 0 <= i < j < |s| ==> s[i] != s[j]
  }

  function Members<T(==)>(s: seq<T>): set<T> { set x | x in s }

  lemma {:induction false} CountMembers<T>(s: seq<T>)
    requires NoRepeat(s)
    ensures |Members(s)| == |s|
  {
    if s != [] {
      assert s[0] !in s[1..];
      CountMembers(s[1..]);
      assert Members(s) == {s[0]} + Members(s[1..]);
    }
  }

  lemma TailIsCycle(reg: Registry, before: set<Name>, path: seq<Name>, i: nat)
    requires i < |path| && Walk(reg, before, path)
    requires forall j :: 0 <= j < |path| ==> Awaited(reg, path[j])
    requires path[|path| - 1] in reg && WaitsFor(reg, before, path[|path| - 1], path[i])
    ensures HasCycle(reg, before)
  {
    var cycle := path[i..];
    forall j | 0 <= j < |cycle| - 1 ensures WaitsFor(reg, before, cycle[j], cycle[j + 1]) {
      assert WaitsFor(reg, before, path[i + j], path[i + j + 1]);
    }
    assert IsCycle(reg, before, cycle);
  }

  lemma LongerWalk(reg: Registry, before: set<Name>, path: seq<Name>, d: Name)
    requires path != [] && Walk(reg, before, path) && NoRepeat(path) && d !in path
    requires path[|path| - 1] in reg && WaitsFor(reg, before, path[|path| - 1], d)
    ensures Walk(reg, before, path + [d]) && NoRepeat(path + [d])
  {
    var longer := path + [d];
    forall i | 0 <= i < |longer| - 1 ensures longer[i] in reg && WaitsFor(reg, before, longer[i], longer[i + 1]) {
      if i < |path| - 1 {
        assert WaitsFor(reg, before, path[i], path[i + 1]);
      }
    }
  }

  /** Walking on inside a finite stuck set, the walk must meet itself. */
  lemma {:induction false} StuckHasCycle(reg: Registry, before: set<Name>, names: set<Name>, path: seq<Name>)
    requires Stuck(reg, before, names)
    requires path != [] && NoRepeat(path) && Walk(reg, before, path)
    requires forall i :: 0 <= i < |path| ==> path[i] in names
    ensures HasCycle(reg, before)
    decreases |names| - |path|
  {
    CountMembers(path);
    SubsetIsSmaller(Members(path), names);
    var last := path[|path| - 1];
    assert WaitsInside(reg, before, last, names);
    var d :| d in names && WaitsFor(reg, before, last, d);
    if d in path {
      var i :| 0 <= i < |path| && path[i] == d;
      forall j | 0 <= j < |path| ensures Awaited(reg, path[j]) {
        assert WaitsInside(reg, before, path[j], names);
      }
      TailIsCycle(reg, before, path, i);
    } else {
      var longer := path + [d];
      LongerWalk(reg, before, path, d);
      SubsetIsSmaller(Members(path) + {d}, names);
      StuckHasCycle(reg, before, names, longer);
    }
  }

  /** Some launcher is doomed exactly when the dependencies have a cycle. */
  lemma DoomedIffCycle(reg: Registry, before: set<Name>)
    ensures Doomed(reg, before) != {} <==> HasCycle(reg, before)
  {
    if HasCycle(reg, before) {
      var path :| IsCycle(reg, before, path);
      CycleIsStuck(reg, before, path);
    }
    if Doomed(reg, before) != {} {
      DoomedIsStuck(reg, before);
      var n :| n in Doomed(reg, before);
      StuckHasCycle(reg, before, Doomed(reg, before), [n]);
    }
  }
}
