/**
 Caches for outstanding requests, each under an identifier and with a timer of the task
 manager below. Events come one at a time from an event loop; a timed-out cache's own callback
 may run any of the operations while its timer is still being wound up.
 */
module RequestCaches {
  import opened Wrappers

  /** A cache object; `serial` tells apart objects with the same prefix and number. */
  datatype Cache = Cache(prefix: string, number: int, serial: nat)

  // --- identifiers -----------------------------------------------------------------------

  function Digit(d: nat): char
    requires d < 10
  {
    '0' + d as char
  }

  function NatText(n: nat): string { if n < 10 then [Digit(n)] else NatText(n / 10) + [Digit(n % 10)] }

  /** Decimal notation. */
  function IntText(n: int): string { if n < 0 then "-" + NatText(-n) else NatText(n) }

  function Identifier(prefix: string, number: int): string { prefix + ":" + IntText(number) }

  lemma {:induction false} NatTextIsDigits(n: nat)
    ensures |NatText(n)| > 0 && forall i :: 0 <= i < |NatText(n)| ==> '0' <= NatText(n)[i] <= '9'
  {
    if n >= 10 {
      NatTextIsDigits(n / 10);
    }
  }

  lemma {:induction false} NatTextInjective(m: nat, n: nat)
    requires NatText(m) == NatText(n)
    ensures m == n
  {
    NatTextLast(m);
    NatTextLast(n);
    if m >= 10 && n >= 10 {
      NatTextInjective(m / 10, n / 10);
    } else if m >= 10 {
      NatTextIsDigits(m / 10);
    } else if n >= 10 {
      NatTextIsDigits(n / 10);
    }
  }

  lemma NatTextLast(n: nat)
    ensures NatText(n) == (if n < 10 then [] else NatText(n / 10)) + [Digit(n % 10)]
    ensures n >= 10 ==> NatText(n)[..|NatText(n)| - 1] == NatText(n / 10)
    ensures |NatText(n)| > 0 && NatText(n)[|NatText(n)| - 1] == Digit(n % 10)
  {}

  lemma IntTextHolds(n: int)
    ensures |IntText(n)| > 0 && (IntText(n)[0] == '-' <==> n < 0)
    ensures ':' !in IntText(n)
  {
    NatTextIsDigits(if n < 0 then -n else n);
  }

  lemma IntTextInjective(m: int, n: int)
    requires IntText(m) == IntText(n)
    ensures m == n
  {
    IntTextHolds(m);
    IntTextHolds(n);
    if m < 0 {
      assert IntText(m)[1..] == NatText(-m) && IntText(n)[1..] == NatText(-n);
      NatTextInjective(-m, -n);
    } else {
      NatTextInjective(m, n);
    }
  }

  /** Identifiers are the same for the same prefix and number only, even with colons in a prefix. */
  lemma IdentifierInjective(prefix: string, number: int, prefix': string, number': int)
    ensures Identifier(prefix, number) == Identifier(prefix', number') <==> prefix == prefix' && number == number'
    ensures prefix + ":" <= Identifier(prefix, number)
  {
    if Identifier(prefix, number) == Identifier(prefix', number') {
      var s, t, t' := Identifier(prefix, number), IntText(number), IntText(number');
      IntTextHolds(number);
      IntTextHolds(number');
      LastColon(prefix, t, prefix', t');
      assert t == s[|prefix| + 1..] && t' == s[|prefix'| + 1..];
      assert prefix == s[..|prefix|] && prefix' == s[..|prefix'|];
      IntTextInjective(number, number');
    }
  }

  lemma LastColon(p: string, t: string, p': string, t': string)
    requires p + ":" + t == p' + ":" + t' && ':' !in t && ':' !in t'
    ensures |p| == |p'|
  {
    var s := p + ":" + t;
    assert s[|p|] == ':' && s[|p'|] == ':';
    assert forall i :: |p| < i < |s| ==> s[i] == t[i - |p| - 1];
    assert forall i :: |p'| < i < |s| ==> s[i] == t'[i - |p'| - 1];
  }

  // --- the state -------------------------------------------------------------------------

  /** What has become of a cache that was added. */
  datatype Outcome = Pending | Popped | TimedOut | Cleared

  /**
   The identifier map, the caches whose timer task is active, those whose timeout callback has
   begun and not ended, and the fate of every cache ever added.
   */
  datatype State = State(
    identifiers: map<string, Cache>, timers: set<Cache>, firing: set<Cache>, isShutdown: bool,
    outcome: map<Cache, Outcome>)

  function IdentifierOf(c: Cache): string { Identifier(c.prefix, c.number) }

  predicate Holds(s: State, c: Cache) { IdentifierOf(c) in s.identifiers && s.identifiers[IdentifierOf(c)] == c }

  predicate Has(s: State, c: Cache, o: Outcome) { c in s.outcome && s.outcome[c] == o }

  ghost predicate Valid(s: State) {
    && (forall id :: id in s.identifiers ==> IdentifierOf(s.identifiers[id]) == id)
    && (forall c {:trigger Holds(s, c)} :: Holds(s, c) <==> c in s.timers && c !in s.firing)
    && (forall c {:trigger Holds(s, c)} :: Holds(s, c) <==> Has(s, c, Pending))
    && (forall c :: c in s.firing ==> Has(s, c, TimedOut))
    && (s.isShutdown ==> s.identifiers == map[])
  }

  const EMPTY: State := State(map[], {}, {}, false, map[])

  datatype Event =
    | Add(cache: Cache)
    | Pop(prefix: string, number: int)
    | TimeoutBegins(cache: Cache)
    | TimeoutEnds(cache: Cache)
    | Clear
    | Shutdown

  /** Objects are added once; a callback begins on an active timer and ends once it has begun. */
  predicate Enabled(s: State, e: Event) {
    match e
    case Add(c) => c !in s.outcome
    case TimeoutBegins(c) => c in s.timers && c !in s.firing
    case TimeoutEnds(c) => c in s.firing
    case _ => true
  }

  predicate Accepts(s: State, c: Cache) { !s.isShutdown && IdentifierOf(c) !in s.identifiers }

  /** Everything pending is called off; callbacks that have begun run on, without their timers. */
  function Emptied(s: State): State {
    s.(identifiers := map[], timers := {},
       outcome := map c | c in s.outcome :: if s.outcome[c] == Pending then Cleared else s.outcome[c])
  }

  function Next(s: State, e: Event): State {
    match e
    case Add(c) =>
      if !Accepts(s, c) then s
      else
        s.(identifiers := s.identifiers[IdentifierOf(c) := c], timers := s.timers + {c},
           outcome := s.outcome[c := Pending])
    case Pop(prefix, number) =>
      var id := Identifier(prefix, number);
      if id !in s.identifiers then s
      else
        var c := s.identifiers[id];
        s.(identifiers := s.identifiers - {id}, timers := s.timers - {c}, outcome := s.outcome[c := Popped])
    case TimeoutBegins(c) =>
      s.(identifiers := s.identifiers - {IdentifierOf(c)}, firing := s.firing + {c},
         outcome := s.outcome[c := TimedOut])
    case TimeoutEnds(c) => s.(timers := s.timers - {c}, firing := s.firing - {c})
    case Clear => Emptied(s)
    case Shutdown => Emptied(s).(isShutdown := true)
  }

  lemma StepKeepsValid(s: State, e: Event)
    requires Valid(s) && Enabled(s, e)
    ensures Valid(Next(s, e))
  {
    hide Identifier;
    var s' := Next(s, e);
    forall c ensures Holds(s', c) <==> c in s'.timers && c !in s'.firing
      ensures Holds(s', c) <==> Has(s', c, Pending)
    {
      assert Holds(s, c) <==> c in s.timers && c !in s.firing;
      assert Holds(s, c) <==> Has(s, c, Pending);
      SameIdentifier(s, e, c);
    }
    forall c | c in s'.firing ensures Has(s', c, TimedOut) {
      assert Holds(s, c) <==> Has(s, c, Pending);
    }
  }

  /** What an event does to a cache with the identifier of the one it is about. */
  lemma SameIdentifier(s: State, e: Event, c: Cache)
    requires Valid(s) && Enabled(s, e)
    ensures e.Add? && Accepts(s, e.cache) && IdentifierOf(c) == IdentifierOf(e.cache) ==> !Holds(s, c)
    ensures e.Add? && c == e.cache ==> c !in s.timers || c in s.firing
    ensures e.TimeoutBegins? && IdentifierOf(c) == IdentifierOf(e.cache) && Holds(s, c) ==> c == e.cache
    ensures e.TimeoutEnds? ==> !Holds(s, e.cache)
  {
    if e.Add? || e.TimeoutBegins? || e.TimeoutEnds? {
      assert Holds(s, e.cache) <==> e.cache in s.timers && e.cache !in s.firing;
      assert Holds(s, e.cache) <==> Has(s, e.cache, Pending);
    }
  }

  // --- runs ------------------------------------------------------------------------------

  ghost predicate StepTo(s: State, e: Event, s': State) { Enabled(s, e) && s' == Next(s, e) }

  ghost predicate IsRun(ss: seq<State>, es: seq<Event>) {
    && |ss| == |es| + 1 && ss[0] == EMPTY
    && forall i :: 0 <= i < |es| ==> StepTo(ss[i], es[i], ss[i + 1])
  }

  /** In every reachable state the identifier map holds exactly the caches with a live timer. */
  lemma {:induction false} RunKeepsValid(ss: seq<State>, es: seq<Event>, i: nat)
    requires IsRun(ss, es) && i < |ss|
    ensures Valid(ss[i])
  {
    hide Enabled, Next;
    if i > 0 {
      RunKeepsValid(ss, es, i - 1);
      assert StepTo(ss[i - 1], es[i - 1], ss[i]);
      hide Valid;
      StepKeepsValid(ss[i - 1], es[i - 1]);
    }
  }

  /** A fate changes from pending only, and by the event that says so. */
  lemma FateHasCause(s: State, e: Event, c: Cache)
    requires Valid(s) && Enabled(s, e)
    ensures c in s.outcome ==> c in Next(s, e).outcome
    ensures c in s.outcome && !Has(s, c, Pending) ==> Next(s, e).outcome[c] == s.outcome[c]
    ensures c in s.outcome && Has(s, c, Pending) ==>
      var o := Next(s, e).outcome[c];
      && (o == Popped <==> e == Pop(c.prefix, c.number))
      && (o == TimedOut <==> e == TimeoutBegins(c))
      && (o == Cleared <==> e.Clear? || e.Shutdown?)
    ensures c !in s.outcome ==> (c in Next(s, e).outcome <==> e == Add(c) && Accepts(s, c))
    ensures c !in s.outcome && c in Next(s, e).outcome ==> Next(s, e).outcome[c] == Pending
  {
    hide Identifier;
    assert Holds(s, c) <==> Has(s, c, Pending);
    if e.Pop? {
      IdentifierInjective(c.prefix, c.number, e.prefix, e.number);
      var id := Identifier(e.prefix, e.number);
      if id in s.identifiers {
        var d := s.identifiers[id];
        assert Holds(s, d) && Has(s, d, Pending);
        IdentifierInjective(d.prefix, d.number, e.prefix, e.number);
      }
    }
    if e.TimeoutBegins? {
      assert Holds(s, e.cache) <==> Has(s, e.cache, Pending);
      assert Holds(s, e.cache) <==> e.cache in s.timers && e.cache !in s.firing;
    }
  }

  /** A fate is for good: what was popped, timed out or cleared stays so and never times out (again). */
  lemma {:induction false} FateIsForGood(ss: seq<State>, es: seq<Event>, i: nat, j: nat, c: Cache)
    requires IsRun(ss, es) && i <= j < |ss|
    requires c in ss[i].outcome && ss[i].outcome[c] != Pending
    ensures c in ss[j].outcome && ss[j].outcome[c] == ss[i].outcome[c]
    ensures j < |es| ==> es[j] != TimeoutBegins(c)
    ensures j < |es| && es[j] == Pop(c.prefix, c.number) ==> !Holds(ss[j], c)
    decreases j
  {
    hide Next;
    RunKeepsValid(ss, es, j);
    if i < j {
      FateIsForGood(ss, es, i, j - 1, c);
      RunKeepsValid(ss, es, j - 1);
      assert StepTo(ss[j - 1], es[j - 1], ss[j]);
      FateHasCause(ss[j - 1], es[j - 1], c);
    }
    assert Holds(ss[j], c) <==> Has(ss[j], c, Pending);
    assert Holds(ss[j], c) <==> c in ss[j].timers && c !in ss[j].firing;
    assert j < |es| ==> StepTo(ss[j], es[j], ss[j + 1]);
  }

  /** A cache that was accepted is, ever after, in the map or has met exactly one end. */
  lemma {:induction false} AcceptedHasOneFate(ss: seq<State>, es: seq<Event>, i: nat, j: nat, c: Cache)
    requires IsRun(ss, es) && i < j < |ss| && es[i] == Add(c) && Accepts(ss[i], c)
    ensures c in ss[j].outcome
    ensures Holds(ss[j], c) <==> ss[j].outcome[c] == Pending
    decreases j
  {
    hide Next;
    RunKeepsValid(ss, es, j - 1);
    RunKeepsValid(ss, es, j);
    assert StepTo(ss[j - 1], es[j - 1], ss[j]);
    if i < j - 1 {
      AcceptedHasOneFate(ss, es, i, j - 1, c);
    }
    FateHasCause(ss[j - 1], es[j - 1], c);
    assert Holds(ss[j], c) <==> Has(ss[j], c, Pending);
  }

  // --- shutting down ---------------------------------------------------------------------

  /** Nothing but a shutdown shuts down, and it does so for good. */
  lemma {:induction false} ShutDownExactlyWhen(ss: seq<State>, es: seq<Event>, j: nat)
    requires IsRun(ss, es) && j < |ss|
    ensures ss[j].isShutdown <==> exists i :: 0 <= i < j && es[i] == Shutdown
  {
    if j > 0 {
      ShutDownExactlyWhen(ss, es, j - 1);
      assert StepTo(ss[j - 1], es[j - 1], ss[j]);
    }
  }

  /** After a shutdown no identifier is in use, no timer runs, and no cache is taken in any more. */
  lemma {:induction false} NothingAfterShutdown(ss: seq<State>, es: seq<Event>, i: nat, j: nat, c: Cache)
    requires IsRun(ss, es) && i < j < |ss| && es[i] == Shutdown
    ensures ss[j].identifiers == map[] && ss[j].timers == {}
    ensures !Has(ss[j], c, Pending)
    ensures c in ss[j].outcome <==> c in ss[i].outcome
    decreases j
  {
    RunKeepsValid(ss, es, j);
    ShutDownExactlyWhen(ss, es, j);
    assert Holds(ss[j], c) <==> Has(ss[j], c, Pending);
    RunKeepsValid(ss, es, j - 1);
    assert StepTo(ss[j - 1], es[j - 1], ss[j]);
    if i < j - 1 {
      NothingAfterShutdown(ss, es, i, j - 1, c);
      ShutDownExactlyWhen(ss, es, j - 1);
      TimedOutBefore(ss[j - 1], es[j - 1]);
    }
  }

  lemma TimedOutBefore(s: State, e: Event)
    requires Valid(s) && Enabled(s, e)
    ensures e.TimeoutBegins? ==> e.cache in s.outcome
  {
    if e.TimeoutBegins? {
      assert Holds(s, e.cache) <==> Has(s, e.cache, Pending);
      assert Holds(s, e.cache) <==> e.cache in s.timers && e.cache !in s.firing;
    }
  }

  /** A cache under the prefix and number of `c` is pending. */
  ghost predicate InUse(s: State, c: Cache) {
    exists d :: Has(s, d, Pending) && d.prefix == c.prefix && d.number == c.number
  }

  /**
   An added cache is pending afterwards, under its identifier and with a timer, exactly when
   there was no shutdown before and no pending cache has its prefix and number. Otherwise the
   event changes nothing.
   */
  lemma AddedIsPending(ss: seq<State>, es: seq<Event>, j: nat, c: Cache)
    requires IsRun(ss, es) && j < |es| && es[j] == Add(c)
    ensures Has(ss[j + 1], c, Pending) <==> !InUse(ss[j], c) && forall i :: 0 <= i < j ==> es[i] != Shutdown
    ensures Has(ss[j + 1], c, Pending) ==>
      && c in ss[j + 1].timers
      && Identifier(c.prefix, c.number) in ss[j + 1].identifiers
      && ss[j + 1].identifiers[Identifier(c.prefix, c.number)] == c
    ensures !Has(ss[j + 1], c, Pending) ==> ss[j + 1] == ss[j]
  {
    hide Identifier;
    RunKeepsValid(ss, es, j);
    ShutDownExactlyWhen(ss, es, j);
    assert StepTo(ss[j], es[j], ss[j + 1]);
    InUseMeans(ss[j], c);
  }

  lemma InUseMeans(s: State, c: Cache)
    requires Valid(s)
    ensures InUse(s, c) <==> Identifier(c.prefix, c.number) in s.identifiers
  {
    hide Identifier;
    var id := Identifier(c.prefix, c.number);
    if id in s.identifiers {
      var d := s.identifiers[id];
      IdentifierInjective(c.prefix, c.number, d.prefix, d.number);
      assert Holds(s, d) <==> Has(s, d, Pending);
    }
    if d :| Has(s, d, Pending) && d.prefix == c.prefix && d.number == c.number {
      assert Holds(s, d) <==> Has(s, d, Pending);
    }
  }

  // --- the object ------------------------------------------------------------------------

  class RequestCache {
    var identifiers: map<string, Cache>
    var pendingTasks: set<Cache>
    var isShutdown: bool
    ghost var firing: set<Cache>
    ghost var outcome: map<Cache, Outcome>

    ghost function Value(): State
      reads this
    {
      State(identifiers, pendingTasks, firing, isShutdown, outcome)
    }

    constructor ()
      ensures Value() == EMPTY && Valid(Value())
    {
      identifiers := map[];
      pendingTasks := {};
      isShutdown := false;
      firing := {};
      outcome := map[];
    }

    /** Takes in a cache and starts its timer, unless its identifier is in use or all is shut down. */
    method Add(c: Cache) returns (added: bool)
      requires Valid(Value()) && c !in outcome
      modifies this
      ensures Valid(Value()) && Value() == Next(old(Value()), Event.Add(c))
      ensures added <==> !old(isShutdown) && Identifier(c.prefix, c.number) !in old(identifiers)
    {
      StepKeepsValid(Value(), Event.Add(c));
      if isShutdown {
        return false;
      }
      var id := IdentifierOf(c);
      if id in identifiers {
        return false;
      }
      identifiers := identifiers[id := c];
      RegisterTask(c);
      outcome := outcome[c := Pending];
      return true;
    }

    method RegisterTask(c: Cache)
      modifies this`pendingTasks
      ensures pendingTasks == old(pendingTasks) + {c}
    {
      pendingTasks := pendingTasks + {c};
    }

    method CancelPendingTask(c: Cache)
      modifies this`pendingTasks
      ensures pendingTasks == old(pendingTasks) - {c}
    {
      if c !in pendingTasks {
        return;
      }
      pendingTasks := pendingTasks - {c};
    }

    method CancelAllPendingTasks()
      modifies this`pendingTasks
      ensures pendingTasks == {}
    {
      var names := pendingTasks;
      while names != {}
        invariant pendingTasks == names
      {
        var c :| c in names;
        CancelPendingTask(c);
        names := names - {c};
      }
    }

    /** Takes out the cache of an identifier and stops its timer; None where Python raises KeyError. */
    method Pop(prefix: string, number: int) returns (r: Option<Cache>)
      requires Valid(Value())
      modifies this
      ensures Valid(Value()) && Value() == Next(old(Value()), Event.Pop(prefix, number))
      ensures r.None? <==> Identifier(prefix, number) !in old(identifiers)
      ensures r.Some? ==> r.value.prefix == prefix && r.value.number == number
      ensures r.Some? ==> Has(old(Value()), r.value, Pending) && Has(Value(), r.value, Popped)
    {
      StepKeepsValid(Value(), Event.Pop(prefix, number));
      var id := Identifier(prefix, number);
      if id !in identifiers {
        return None;
      }
      var c := identifiers[id];
      IdentifierInjective(c.prefix, c.number, prefix, number);
      assert Holds(Value(), c) && Has(Value(), c, Pending);
      identifiers := identifiers - {id};
      CancelPendingTask(c);
      outcome := outcome[c := Popped];
      return Some(c);
    }

    /** The timer has run out: the identifier is free before the cache's own callback runs. */
    method OnTimeoutBegins(c: Cache)
      requires Valid(Value()) && c in pendingTasks && c !in firing
      modifies this
      ensures Valid(Value()) && Value() == Next(old(Value()), TimeoutBegins(c))
      ensures Identifier(c.prefix, c.number) !in identifiers
      ensures Has(old(Value()), c, Pending) && Has(Value(), c, TimedOut)
    {
      StepKeepsValid(Value(), TimeoutBegins(c));
      assert Holds(Value(), c) && Has(Value(), c, Pending);
      var id := IdentifierOf(c);
      if id in identifiers {
        identifiers := identifiers - {id};
      }
      firing := firing + {c};
      outcome := outcome[c := TimedOut];
    }

    /** The callback has returned; the task is dropped. */
    method OnTimeoutEnds(c: Cache)
      requires Valid(Value()) && c in firing
      modifies this
      ensures Valid(Value()) && Value() == Next(old(Value()), TimeoutEnds(c))
      ensures c !in pendingTasks && c !in firing
    {
      StepKeepsValid(Value(), TimeoutEnds(c));
      CancelPendingTask(c);
      firing := firing - {c};
    }

    method Clear()
      requires Valid(Value())
      modifies this
      ensures Valid(Value()) && Value() == Next(old(Value()), Event.Clear)
      ensures identifiers == map[] && pendingTasks == {} && isShutdown == old(isShutdown)
    {
      StepKeepsValid(Value(), Event.Clear);
      CancelAllPendingTasks();
      identifiers := map[];
      outcome := Emptied(Value()).outcome;
    }

    method Shutdown()
      requires Valid(Value())
      modifies this
      ensures Valid(Value()) && Value() == Next(old(Value()), Event.Shutdown)
      ensures identifiers == map[] && pendingTasks == {} && isShutdown
    {
      StepKeepsValid(Value(), Event.Shutdown);
      isShutdown := true;
      CancelAllPendingTasks();
      identifiers := map[];
      outcome := Emptied(Value()).outcome;
    }
  }
}
