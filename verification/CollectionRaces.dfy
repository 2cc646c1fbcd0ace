/** backend/loaders/collection.go once more, with its races: requests and the janitor share the map, and
    between any two accesses of one of them the others may run.

    The steps are those on one key, atomic accesses of the map (Load, Delete, LoadAndDelete, Store) and of
    an entry. Every entry has a callback, known by the entry's number; `fired` lists the callbacks that
    have run, `removed` the entries that a Get, a Delete or a sweep has taken out of the map. */
module CollectionRaces {
  import opened Runs

  /** Where a goroutine stands. In Get: `Loaded` has an entry in hand, `ToRemove` found it expired. In
      Delete: `ToTake` is about to LoadAndDelete, `Taken` has done so and deletes the key once more. Both
      then run the callback of the entry in hand. */
  datatype Pc =
    | Loaded(id: nat)
    | ToRemove(id: nat)
    | ToTake
    | Taken(id: nat)
    | ToCall(id: nat)

  /** `expiry` is the time up to which each entry lives. */
  datatype State = State(
    now: int,
    expiry: seq<int>,
    cell: Option<nat>,
    procs: map<nat, Pc>,
    removed: set<nat>,
    fired: seq<nat>)

  datatype Action =
    | Tick(d: nat)
    | Set(ttl: int)
    | Load(t: nat)
    | Check(t: nat, ttl: int)
    | Remove(t: nat)
    | BeginDelete(t: nat)
    | Take(t: nat)
    | RemoveAgain(t: nat)
    | Call(t: nat)

  const Init := State(0, [], None, map[], {}, [])

  /** Deletes the key, whatever is stored under it. */
  function KeyDeleted(s: State): State {
    s.(cell := None, removed := if s.cell.Some? then s.removed + {s.cell.value} else s.removed)
  }

  /** A Delete begins on request, or because a sweep has found an expired entry. */
  function Step(s: State, a: Action): Option<State> {
    match a
    case Tick(d) => Some(s.(now := s.now + d))
    case Set(ttl) => Some(s.(expiry := s.expiry + [s.now + ttl], cell := Some(|s.expiry|)))
    case Load(t) =>
      if t in s.procs then None
      else if s.cell.None? then Some(s)
      else Some(s.(procs := s.procs[t := Loaded(s.cell.value)]))
    case Check(t, ttl) =>
      if t in s.procs && s.procs[t].Loaded? && s.procs[t].id < |s.expiry| then
        var id := s.procs[t].id;
        if s.expiry[id] < s.now then Some(s.(procs := s.procs[t := ToRemove(id)]))
        else Some(s.(expiry := s.expiry[id := s.now + ttl], procs := s.procs - {t}))
      else None
    case Remove(t) =>
      if t in s.procs && s.procs[t].ToRemove? then
        Some(KeyDeleted(s).(procs := s.procs[t := ToCall(s.procs[t].id)]))
      else None
    case BeginDelete(t) =>
      if t in s.procs then None else Some(s.(procs := s.procs[t := ToTake]))
    case Take(t) =>
      if t in s.procs && s.procs[t].ToTake? then
        if s.cell.None? then Some(s.(procs := s.procs - {t}))
        else Some(KeyDeleted(s).(procs := s.procs[t := Taken(s.cell.value)]))
      else None
    case RemoveAgain(t) =>
      if t in s.procs && s.procs[t].Taken? then
        Some(KeyDeleted(s).(procs := s.procs[t := ToCall(s.procs[t].id)]))
      else None
    case Call(t) =>
      if t in s.procs && s.procs[t].ToCall? then
        Some(s.(procs := s.procs - {t}, fired := s.fired + [s.procs[t].id]))
      else None
  }

  function After(acts: seq<Action>): Option<State> { Run(Init, Step, acts) }

  /** The goroutine will run the callback of this entry and has removed whatever it removes for it. */
  predicate Owes(pc: Pc, id: nat) { (pc.Taken? || pc.ToCall?) && pc.id == id }

  function Owing(procs: map<nat, Pc>, id: nat): set<nat> { set t | t in procs && Owes(procs[t], id) }

  /** How often the callback of an entry has run or is bound to run. */
  function Calls(s: State, id: nat): nat { multiset(s.fired)[id] + |Owing(s.procs, id)| }

  function Removals(s: State, id: nat): nat { if id in s.removed then 1 else 0 }

  ghost predicate Known(s: State) {
    && (s.cell.Some? ==> s.cell.value < |s.expiry| && s.cell.value !in s.removed)
    && (forall t :: t in s.procs && !s.procs[t].ToTake? ==> s.procs[t].id < |s.expiry|)
    && (forall id :: id in s.removed ==> id < |s.expiry|)
    && (forall t :: t in s.procs && s.procs[t].Taken? ==> s.cell != Some(s.procs[t].id))
  }

  lemma OwingMoved(procs: map<nat, Pc>, t: nat, pc: Pc, id: nat)
    ensures |Owing(procs[t := pc], id)|
         == |Owing(procs, id)| - (if t in procs && Owes(procs[t], id) then 1 else 0) + if Owes(pc, id) then 1 else 0
  {
    var rest := Owing(procs, id) - {t};
    assert Owing(procs, id) == if t in procs && Owes(procs[t], id) then rest + {t} else rest;
    assert Owing(procs[t := pc], id) == if Owes(pc, id) then rest + {t} else rest;
  }

  lemma OwingRemoved(procs: map<nat, Pc>, t: nat, id: nat)
    requires t in procs
    ensures |Owing(procs - {t}, id)| == |Owing(procs, id)| - if Owes(procs[t], id) then 1 else 0
  {
    var rest := Owing(procs, id) - {t};
    assert Owing(procs, id) == if Owes(procs[t], id) then rest + {t} else rest;
    assert Owing(procs - {t}, id) == rest;
  }

  lemma StepKeepsKnown(s: State, a: Action)
    requires Known(s) && Step(s, a).Some?
    ensures Known(Step(s, a).value)
  {
  }

  /** What a step adds to the calls that an entry has or is bound to get: one when a Get deletes for it
      or a Delete takes it. */
  function NewCalls(s: State, a: Action, id: nat): nat {
    match a
    case Remove(t) => if t in s.procs && s.procs[t] == ToRemove(id) then 1 else 0
    case Take(_) => if s.cell == Some(id) then 1 else 0
    case _ => 0
  }

  lemma StepCalls(s: State, a: Action, id: nat)
    requires Step(s, a).Some?
    ensures Calls(Step(s, a).value, id) == Calls(s, id) + NewCalls(s, a, id)
  {
    var s' := Step(s, a).value;
    match a
    case Tick(_) =>
    case Set(_) =>
    case Load(t) => if s.cell.Some? { OwingMoved(s.procs, t, s'.procs[t], id); }
    case Check(t, _) =>
      if t in s'.procs { OwingMoved(s.procs, t, s'.procs[t], id); } else { OwingRemoved(s.procs, t, id); }
    case Remove(t) => OwingMoved(s.procs, t, s'.procs[t], id);
    case BeginDelete(t) => OwingMoved(s.procs, t, s'.procs[t], id);
    case Take(t) =>
      if t in s'.procs { OwingMoved(s.procs, t, s'.procs[t], id); } else { OwingRemoved(s.procs, t, id); }
    case RemoveAgain(t) => OwingMoved(s.procs, t, s'.procs[t], id);
    case Call(t) => OwingRemoved(s.procs, t, id);
  }

  // ---- When "exactly once" holds ----

  /** A delete that does not hit what its goroutine has in hand: a Get finds its expired entry gone or
      replaced, or the second delete of Delete finds a new entry. */
  predicate Stale(s: State, a: Action) {
    match a
    case Remove(t) => t in s.procs && s.procs[t].ToRemove? && s.cell != Some(s.procs[t].id)
    case RemoveAgain(t) => t in s.procs && s.procs[t].Taken? && s.cell.Some?
    case _ => false
  }

  function FreshStep(s: State, a: Action): Option<State> { if Stale(s, a) then None else Step(s, a) }

  /** The runs without stale deletes. */
  function AfterFresh(acts: seq<Action>): Option<State> { Run(Init, FreshStep, acts) }

  ghost predicate Balanced(s: State) { forall id :: Calls(s, id) == Removals(s, id) }

  lemma FreshStepBalanced(s: State, a: Action)
    requires Known(s) && Balanced(s) && FreshStep(s, a).Some?
    ensures Known(Step(s, a).value) && Balanced(Step(s, a).value)
  {
    StepKeepsKnown(s, a);
    forall id ensures Calls(Step(s, a).value, id) == Removals(Step(s, a).value, id) {
      StepCalls(s, a, id);
      assert Calls(s, id) == Removals(s, id);
    }
  }

  lemma FreshReachable(acts: seq<Action>)
    requires AfterFresh(acts).Some?
    ensures Known(AfterFresh(acts).value) && Balanced(AfterFresh(acts).value)
  {
    forall s, a | (Known(s) && Balanced(s)) && FreshStep(s, a).Some?
      ensures Known(FreshStep(s, a).value) && Balanced(FreshStep(s, a).value)
    {
      FreshStepBalanced(s, a);
    }
    Invariance(Init, FreshStep, acts, s => Known(s) && Balanced(s));
  }

  lemma {:induction false} FreshRunsAreRuns(acts: seq<Action>)
    requires AfterFresh(acts).Some?
    ensures After(acts) == AfterFresh(acts)
  {
    if |acts| > 0 {
      FreshRunsAreRuns(acts[..|acts| - 1]);
    }
  }

  /** In every run without a stale delete, every removed entry's callback has run exactly once when no
      goroutine is on the way, and no other callback has run. */
  lemma FreshRunsFireOnce(acts: seq<Action>, id: nat)
    requires AfterFresh(acts).Some?
    ensures After(acts) == AfterFresh(acts)
    ensures multiset(After(acts).value.fired)[id] <= Removals(After(acts).value, id)
    ensures After(acts).value.procs == map[] ==>
      multiset(After(acts).value.fired)[id] == Removals(After(acts).value, id)
  {
    FreshReachable(acts);
    FreshRunsAreRuns(acts);
    assert Calls(After(acts).value, id) == Removals(After(acts).value, id);
    assert After(acts).value.procs == map[] ==> Owing(After(acts).value.procs, id) == {};
  }

  // ---- When it fails ----

  /** An entry out of the map with more calls than removals: this is never made up for. */
  ghost predicate TooMany(s: State, id: nat) {
    Known(s) && id < |s.expiry| && s.cell != Some(id) && Calls(s, id) > Removals(s, id)
  }

  lemma TooManyStays(s: State, a: Action, id: nat)
    requires TooMany(s, id) && Step(s, a).Some?
    ensures TooMany(Step(s, a).value, id)
  {
    StepKeepsKnown(s, a);
    StepCalls(s, a, id);
  }

  /** The first stale delete of a Get breaks it for good: in every continuation, the callback of the
      entry that the Get had in hand has run or is bound to run more often than the entry was removed. */
  lemma StaleGetFiresTooOften(acts: seq<Action>, t: nat, more: seq<Action>)
    requires AfterFresh(acts).Some? && Step(AfterFresh(acts).value, Remove(t)).Some?
    requires Stale(AfterFresh(acts).value, Remove(t))
    requires Run(Step(AfterFresh(acts).value, Remove(t)).value, Step, more).Some?
    ensures var end := Run(Step(AfterFresh(acts).value, Remove(t)).value, Step, more).value;
      var id := AfterFresh(acts).value.procs[t].id;
      && Calls(end, id) > Removals(end, id)
      && (end.procs == map[] ==> multiset(end.fired)[id] > Removals(end, id))
  {
    FreshReachable(acts);
    var s := AfterFresh(acts).value;
    var id, s' := s.procs[t].id, Step(s, Remove(t)).value;
    StepKeepsKnown(s, Remove(t));
    StepCalls(s, Remove(t), id);
    assert Calls(s, id) == Removals(s, id);
    forall u, a | TooMany(u, id) && Step(u, a).Some? ensures TooMany(Step(u, a).value, id) {
      TooManyStays(u, a, id);
    }
    Invariance(s', Step, more, u => TooMany(u, id));
    var end := Run(s', Step, more).value;
    assert end.procs == map[] ==> Owing(end.procs, id) == {};
  }

  /** An entry out of the map that nobody has in hand, removed without a call: it gets none any more. */
  ghost predicate Forgotten(s: State, id: nat) {
    && Known(s) && id < |s.expiry| && s.cell != Some(id) && id in s.removed && Calls(s, id) == 0
    && (forall t :: t in s.procs && !s.procs[t].ToTake? ==> s.procs[t].id != id)
  }

  lemma ForgottenStays(s: State, a: Action, id: nat)
    requires Forgotten(s, id) && Step(s, a).Some?
    ensures Forgotten(Step(s, a).value, id)
  {
    StepKeepsKnown(s, a);
    StepCalls(s, a, id);
  }

  /** A stale delete that hits a new entry loses the callback of that entry for good, unless another
      goroutine has the entry in hand. */
  lemma StaleDeleteForgets(acts: seq<Action>, a: Action, more: seq<Action>)
    requires AfterFresh(acts).Some? && Step(AfterFresh(acts).value, a).Some?
    requires Stale(AfterFresh(acts).value, a) && AfterFresh(acts).value.cell.Some?
    requires var s := AfterFresh(acts).value;
      forall t :: t in s.procs && !s.procs[t].ToTake? ==> s.procs[t].id != s.cell.value
    requires Run(Step(AfterFresh(acts).value, a).value, Step, more).Some?
    ensures var end := Run(Step(AfterFresh(acts).value, a).value, Step, more).value;
      var id := AfterFresh(acts).value.cell.value;
      id in end.removed && id !in end.fired
  {
    FreshReachable(acts);
    var s := AfterFresh(acts).value;
    var id, s' := s.cell.value, Step(s, a).value;
    StepKeepsKnown(s, a);
    StepCalls(s, a, id);
    assert Calls(s, id) == Removals(s, id);
    forall u, b | Forgotten(u, id) && Step(u, b).Some? ensures Forgotten(Step(u, b).value, id) {
      ForgottenStays(u, b, id);
    }
    Invariance(s', Step, more, u => Forgotten(u, id));
    assert Calls(Run(s', Step, more).value, id) == 0;
  }

  // ---- Witnesses ----

  lemma Extend(acts: seq<Action>, s: State, a: Action) returns (longer: seq<Action>)
    requires After(acts) == Some(s) && Step(s, a).Some?
    ensures After(longer) == Step(s, a)
  {
    longer := acts + [a];
    assert longer[..|acts|] == acts;
  }

  lemma Both(acts: seq<Action>, a: Action, b: Action) returns (longer: seq<Action>)
    requires After(acts).Some? && Step(After(acts).value, a).Some? && Step(Step(After(acts).value, a).value, b).Some?
    ensures After(longer) == Step(Step(After(acts).value, a).value, b)
  {
    longer := Extend(acts, After(acts).value, a);
    longer := Extend(longer, After(longer).value, b);
  }

  lemma TwoExpiredLoads() returns (acts: seq<Action>)
    ensures After(acts).Some? && After(acts).value.procs.Keys == {1, 2}
    ensures After(acts).value.procs[1] == After(acts).value.procs[2] == ToRemove(0)
    ensures After(acts).value.cell == Some(0) && After(acts).value.removed == {} && After(acts).value.fired == []
  {
    acts := Both([], Set(5), Tick(6));
    acts := Both(acts, Load(1), Load(2));
    acts := Both(acts, Check(1, 5), Check(2, 5));
  }

  /** Two Gets load one expired entry, and both run its callback. */
  lemma DoubleFire() returns (acts: seq<Action>)
    ensures After(acts).Some? && After(acts).value.procs == map[]
    ensures After(acts).value.fired == [0, 0] && After(acts).value.removed == {0}
  {
    acts := TwoExpiredLoads();
    acts := Both(acts, Remove(1), Remove(2));
    acts := Both(acts, Call(1), Call(2));
  }

  /** A Set between Load and Delete of a Get: the new entry is removed, and its callback never runs. */
  lemma LostCallback() returns (acts: seq<Action>)
    ensures After(acts).Some? && After(acts).value.procs == map[]
    ensures After(acts).value.fired == [0] && After(acts).value.removed == {1} && After(acts).value.cell.None?
  {
    acts := Both([], Set(5), Tick(6));
    acts := Both(acts, Load(1), Check(1, 5));
    acts := Both(acts, Set(5), Remove(1));
    acts := Extend(acts, After(acts).value, Call(1));
  }

  // ---- Operations that run alone ----

  /** Set stores a new entry, whatever was stored before; nobody's callback runs. */
  lemma SetAlone(s: State, ttl: int)
    ensures Step(s, Set(ttl)) == Some(s.(expiry := s.expiry + [s.now + ttl], cell := Some(|s.expiry|)))
  {
  }

  /** Get on a live entry starts its time anew; on an expired one it removes it and runs its callback. */
  lemma GetAlone(s: State, t: nat, ttl: int) returns (s1: State, s2: State)
    requires Known(s) && t !in s.procs && s.cell.Some?
    ensures Step(s, Load(t)) == Some(s1) && Step(s1, Check(t, ttl)) == Some(s2)
    ensures var id := s.cell.value;
      && (s.now <= s.expiry[id] ==> s2 == s.(expiry := s.expiry[id := s.now + ttl]))
      && (s.expiry[id] < s.now ==> s2 == s.(procs := s.procs[t := ToRemove(id)]))
  {
    s1 := Step(s, Load(t)).value;
    s2 := Step(s1, Check(t, ttl)).value;
    assert s1.procs - {t} == s.procs;
    assert s1.procs[t := ToRemove(s.cell.value)] == s.procs[t := ToRemove(s.cell.value)];
  }

  lemma ExpiredAlone(s: State, t: nat) returns (s1: State, s2: State)
    requires s.cell.Some? && t in s.procs && s.procs[t] == ToRemove(s.cell.value)
    ensures Step(s, Remove(t)) == Some(s1) && Step(s1, Call(t)) == Some(s2)
    ensures s2 == s.(cell := None, procs := s.procs - {t}, removed := s.removed + {s.cell.value},
                     fired := s.fired + [s.cell.value])
  {
    s1 := Step(s, Remove(t)).value;
    s2 := Step(s1, Call(t)).value;
    assert s2.procs == s.procs - {t};
  }

  /** Without an entry, Get and Delete do nothing. */
  lemma AbsentAlone(s: State, t: nat)
    requires t !in s.procs && s.cell.None?
    ensures Step(s, Load(t)) == Some(s)
    ensures Step(s, BeginDelete(t)).Some? && Step(Step(s, BeginDelete(t)).value, Take(t)) == Some(s)
  {
    assert s.procs[t := ToTake] - {t} == s.procs;
  }

  /** Delete removes the entry and runs its callback. */
  lemma DeleteAlone(s: State, t: nat) returns (s1: State, s2: State, s3: State, s4: State)
    requires t !in s.procs && s.cell.Some?
    ensures Step(s, BeginDelete(t)) == Some(s1) && Step(s1, Take(t)) == Some(s2)
    ensures Step(s2, RemoveAgain(t)) == Some(s3) && Step(s3, Call(t)) == Some(s4)
    ensures s4 == s.(cell := None, removed := s.removed + {s.cell.value}, fired := s.fired + [s.cell.value])
  {
    s1 := Step(s, BeginDelete(t)).value;
    s2 := Step(s1, Take(t)).value;
    s3 := Step(s2, RemoveAgain(t)).value;
    s4 := Step(s3, Call(t)).value;
    assert s4.procs == s.procs;
  }
}
