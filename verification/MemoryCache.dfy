/** backend/memorycache/memorycache.go: `GetOrSet` on one key of the process-wide cache.

    The cache holds values of any type; a call wants values of its own type (`kind`). Other code may
    set or delete the key, and the cache may expire or evict it, between any two steps. The keyed mutex
    is the one proved in KeyedLock. */
module MemoryCache {
  import opened Runs
  import KeyedLock

  datatype Any = Any(kind: nat, payload: int)

  datatype Cell = Cell(value: Any, expiry: Option<int>)

  datatype Outcome = Value(value: Any) | Failure

  datatype Pc =
    | AtGet
    | AtLock
    | AtReget
    | InFactory
    | AtSet(value: Any)
    | AtUnlock(outcome: Outcome)

  datatype Proc = Proc(kind: nat, pc: Pc)

  /** A call of the given kind and what it returned. */
  datatype Done = Done(kind: nat, outcome: Outcome)

  /** `made` lists what factories produced, `foreign` what other code stored. */
  datatype State = State(
    now: int,
    cell: Option<Cell>,
    holder: Option<nat>,
    procs: map<nat, Proc>,
    made: seq<Any>,
    foreign: seq<Any>,
    returned: seq<Done>)

  datatype Action =
    | Tick(d: nat)
    | Evict
    | OtherSet(value: Any, ttl: Option<nat>)
    | Begin(t: nat, kind: nat)
    | Get(t: nat, found: bool)
    | Lock(t: nat)
    | Reget(t: nat, found: bool)
    | FactoryOk(t: nat, payload: int)
    | FactoryFail(t: nat)
    | Set(t: nat, ttl: Option<nat>)
    | Unlock(t: nat)

  const Init := State(0, None, None, map[], [], [], [])

  predicate At(s: State, t: nat, pc: Pc) { t in s.procs && s.procs[t].pc == pc }

  function Goto(s: State, t: nat, pc: Pc): State
    requires t in s.procs
  {
    s.(procs := s.procs[t := s.procs[t].(pc := pc)])
  }

  function Finish(s: State, t: nat, outcome: Outcome): State
    requires t in s.procs
  {
    s.(procs := s.procs - {t}, returned := s.returned + [Done(s.procs[t].kind, outcome)])
  }

  function Expiry(s: State, ttl: Option<nat>): Option<int> {
    if ttl.Some? then Some(s.now + ttl.value) else None
  }

  /** `Get[V]`: an expired entry is absent (either way at the instant of expiry), and so is one of
      another type. */
  predicate Sees(s: State, kind: nat, found: bool) {
    if found then
      && s.cell.Some?
      && s.cell.value.value.kind == kind
      && (s.cell.value.expiry.Some? ==> s.now <= s.cell.value.expiry.value)
    else
      || s.cell.None?
      || s.cell.value.value.kind != kind
      || (s.cell.value.expiry.Some? && s.cell.value.expiry.value <= s.now)
  }

  function Step(s: State, a: Action): Option<State> {
    match a
    case Tick(d) => Some(s.(now := s.now + d))
    case Evict => Some(s.(cell := None))
    case OtherSet(v, ttl) => Some(s.(cell := Some(Cell(v, Expiry(s, ttl))), foreign := s.foreign + [v]))
    case Begin(t, kind) =>
      if t in s.procs then None else Some(s.(procs := s.procs[t := Proc(kind, AtGet)]))
    case Get(t, found) =>
      if At(s, t, AtGet) && Sees(s, s.procs[t].kind, found) then
        Some(if found then Finish(s, t, Value(s.cell.value.value)) else Goto(s, t, AtLock))
      else None
    case Lock(t) =>
      if At(s, t, AtLock) && s.holder.None? then Some(Goto(s.(holder := Some(t)), t, AtReget)) else None
    case Reget(t, found) =>
      if At(s, t, AtReget) && Sees(s, s.procs[t].kind, found) then
        Some(Goto(s, t, if found then AtUnlock(Value(s.cell.value.value)) else InFactory))
      else None
    case FactoryOk(t, payload) =>
      if At(s, t, InFactory) then
        var v := Any(s.procs[t].kind, payload);
        Some(Goto(s.(made := s.made + [v]), t, AtSet(v)))
      else None
    case FactoryFail(t) => if At(s, t, InFactory) then Some(Goto(s, t, AtUnlock(Failure))) else None
    case Set(t, ttl) =>
      if t in s.procs && s.procs[t].pc.AtSet? then
        var v := s.procs[t].pc.value;
        Some(Goto(s.(cell := Some(Cell(v, Expiry(s, ttl)))), t, AtUnlock(Value(v))))
      else None
    case Unlock(t) =>
      if t in s.procs && s.procs[t].pc.AtUnlock? then
        Some(Finish(s.(holder := None), t, s.procs[t].pc.outcome))
      else None
  }

  function After(acts: seq<Action>): Option<State> { Run(Init, Step, acts) }

  // ---- The invariant ----

  predicate Locked(pc: Pc) { !pc.AtGet? && !pc.AtLock? }

  /** An error, or a value of the right type that a factory made or other code stored. */
  predicate Sound(s: State, kind: nat, outcome: Outcome) {
    outcome.Value? ==> outcome.value.kind == kind && outcome.value in s.made + s.foreign
  }

  ghost predicate ProcOk(s: State, t: nat)
    requires t in s.procs
  {
    var p := s.procs[t];
    && (Locked(p.pc) <==> s.holder == Some(t))
    && (p.pc.AtSet? ==> p.pc.value in s.made && p.pc.value.kind == p.kind)
    && (p.pc.AtUnlock? ==> Sound(s, p.kind, p.pc.outcome))
  }

  ghost predicate Inv(s: State) {
    && (forall t :: t in s.procs ==> ProcOk(s, t))
    && (s.holder.Some? ==> s.holder.value in s.procs)
    && (s.cell.Some? ==> s.cell.value.value in s.made + s.foreign)
    && (forall i :: 0 <= i < |s.returned| ==> Sound(s, s.returned[i].kind, s.returned[i].outcome))
  }

  lemma ProcsKept(s: State, a: Action)
    requires Inv(s) && Step(s, a).Some?
    ensures forall u :: u in Step(s, a).value.procs ==> ProcOk(Step(s, a).value, u)
  {
    var s' := Step(s, a).value;
    forall u | u in s'.procs ensures ProcOk(s', u) {
      if u in s.procs { assert ProcOk(s, u); }
    }
  }

  lemma ReturnedKept(s: State, a: Action, i: nat)
    requires Inv(s) && Step(s, a).Some? && i < |Step(s, a).value.returned|
    ensures var s' := Step(s, a).value; Sound(s', s'.returned[i].kind, s'.returned[i].outcome)
  {
    if i < |s.returned| {
      assert Sound(s, s.returned[i].kind, s.returned[i].outcome);
    } else {
      assert ProcOk(s, a.t);
    }
  }

  lemma StepKeepsInv(s: State, a: Action)
    requires Inv(s) && Step(s, a).Some?
    ensures Inv(Step(s, a).value)
  {
    var s' := Step(s, a).value;
    ProcsKept(s, a);
    forall i | 0 <= i < |s'.returned| ensures Sound(s', s'.returned[i].kind, s'.returned[i].outcome) {
      ReturnedKept(s, a, i);
    }
    if a.Set? || a.Unlock? || a.Get? { assert ProcOk(s, a.t); }
  }

  lemma Reachable(acts: seq<Action>)
    requires After(acts).Some?
    ensures Inv(After(acts).value)
  {
    forall s, a | Inv(s) && Step(s, a).Some? ensures Inv(Step(s, a).value) {
      StepKeepsInv(s, a);
    }
    Invariance(Init, Step, acts, s => Inv(s));
  }

  /** At most one goroutine is between taking and freeing the key, hence in the factory, at a time. */
  lemma SingleFlight(acts: seq<Action>, t: nat, u: nat)
    requires After(acts).Some? && t in After(acts).value.procs && u in After(acts).value.procs
    requires Locked(After(acts).value.procs[t].pc) && Locked(After(acts).value.procs[u].pc)
    ensures t == u
  {
    Reachable(acts);
    assert ProcOk(After(acts).value, t) && ProcOk(After(acts).value, u);
  }

  /** The owners of the keyed mutex, as far as this key goes. */
  function Owners(s: State, key: string): map<string, nat> {
    if s.holder.Some? then map[key := s.holder.value] else map[]
  }

  /** The calls use the mutex as KeyedLock provides it: they take the key when it is free, free it when
      their own goroutine holds it, and touch no owner otherwise. */
  lemma FollowsKeyedMutex(acts: seq<Action>, a: Action, key: string)
    requires After(acts).Some? && Step(After(acts).value, a).Some?
    ensures var before, after := Owners(After(acts).value, key), Owners(Step(After(acts).value, a).value, key);
      match a {
        case Lock(t) => KeyedLock.AbstractStep(before, after, KeyedLock.LockMu(t), key)
        case Unlock(t) => KeyedLock.AbstractStep(before, after, KeyedLock.UnlockMu(t), key)
        case _ => after == before
      }
  {
    Reachable(acts);
    if a.Unlock? {
      assert ProcOk(After(acts).value, a.t);
    }
  }

  /** The step that brings a goroutine into the factory is a look at the cache, made while holding the
      key, that finds no live value of its type. */
  lemma EntersFactoryOnMiss(acts: seq<Action>, a: Action, t: nat)
    requires After(acts).Some? && Step(After(acts).value, a).Some?
    requires At(Step(After(acts).value, a).value, t, InFactory) && !At(After(acts).value, t, InFactory)
    ensures var s := After(acts).value;
      && s.holder == Some(t) && a == Reget(t, false)
      && (s.cell.Some? && s.cell.value.value.kind == s.procs[t].kind ==>
            s.cell.value.expiry.Some? && s.cell.value.expiry.value <= s.now)
  {
    Reachable(acts);
    if t in After(acts).value.procs {
      assert ProcOk(After(acts).value, t);
    }
  }

  /** Every successful return has the type that was asked for and is a factory result or a value that
      was stored, however the types of other callers of the key differ. */
  lemma ReturnsAreSound(acts: seq<Action>, i: nat)
    requires After(acts).Some? && i < |After(acts).value.returned|
    ensures var s := After(acts).value; Sound(s, s.returned[i].kind, s.returned[i].outcome)
  {
    Reachable(acts);
  }

  // ---- Undisturbed runs ----

  /** Nobody else writes the key, nothing expires or is evicted, and all callers want one type. */
  predicate Undisturbed(kind: nat, s: State, a: Action) {
    match a
    case Tick(d) =>
      s.cell.Some? && s.cell.value.expiry.Some? ==> s.now + d < s.cell.value.expiry.value
    case Evict => false
    case OtherSet(_, _) => false
    case Set(_, ttl) => ttl != Some(0)
    case Begin(_, wanted) => wanted == kind
    case _ => true
  }

  function UndisturbedStep(kind: nat): (State, Action) -> Option<State> {
    (s: State, a: Action) => if Undisturbed(kind, s, a) then Step(s, a) else None
  }

  function AfterUndisturbed(kind: nat, acts: seq<Action>): Option<State> {
    Run(Init, UndisturbedStep(kind), acts)
  }

  ghost predicate UndisturbedInv(kind: nat, s: State) {
    && Inv(s)
    && s.foreign == []
    && |s.made| <= 1
    && (forall t :: t in s.procs ==> s.procs[t].kind == kind)
    && (forall v :: v in s.made ==> v.kind == kind)
    && (s.cell.Some? && s.cell.value.expiry.Some? ==> s.now < s.cell.value.expiry.value)
    && (forall t :: t in s.procs && s.procs[t].pc.InFactory? ==> s.made == [])
    && (s.made != [] && s.cell.None? ==> s.holder.Some? && s.procs[s.holder.value].pc.AtSet?)
  }

  lemma UndisturbedStepKeepsInv(kind: nat, s: State, a: Action)
    requires UndisturbedInv(kind, s) && UndisturbedStep(kind)(s, a).Some?
    ensures UndisturbedInv(kind, Step(s, a).value)
  {
    StepKeepsInv(s, a);
    forall t | t in s.procs ensures ProcOk(s, t) {
    }
  }

  lemma UndisturbedReachable(kind: nat, acts: seq<Action>)
    requires AfterUndisturbed(kind, acts).Some?
    ensures UndisturbedInv(kind, AfterUndisturbed(kind, acts).value)
  {
    forall s, a | UndisturbedInv(kind, s) && UndisturbedStep(kind)(s, a).Some?
      ensures UndisturbedInv(kind, UndisturbedStep(kind)(s, a).value)
    {
      UndisturbedStepKeepsInv(kind, s, a);
    }
    Invariance(Init, UndisturbedStep(kind), acts, s => UndisturbedInv(kind, s));
  }

  lemma OneValue(kind: nat, s: State, i: nat, j: nat)
    requires UndisturbedInv(kind, s) && i < |s.returned| && j < |s.returned|
    requires s.returned[i].outcome.Value? && s.returned[j].outcome.Value?
    ensures s.returned[i].outcome == s.returned[j].outcome
  {
    assert Sound(s, s.returned[i].kind, s.returned[i].outcome);
    assert Sound(s, s.returned[j].kind, s.returned[j].outcome);
  }

  lemma {:induction false} UndisturbedIfQuiet(kind: nat, acts: seq<Action>)
    requires After(acts).Some?
    requires forall k :: 0 <= k < |acts| ==>
      && !acts[k].Evict? && !acts[k].OtherSet?
      && (acts[k].Set? ==> acts[k].ttl != Some(0)) && (acts[k].Begin? ==> acts[k].kind == kind)
    requires forall k :: 0 <= k < |acts| && acts[k].Tick? && After(acts[..k]).Some? ==>
      var s := After(acts[..k]).value;
      s.cell.Some? && s.cell.value.expiry.Some? ==> s.now + acts[k].d < s.cell.value.expiry.value
    ensures AfterUndisturbed(kind, acts) == After(acts)
  {
    if acts != [] {
      var front, last := acts[..|acts| - 1], acts[|acts| - 1];
      forall k | 0 <= k < |front| ensures acts[..k] == front[..k] {
      }
      UndisturbedIfQuiet(kind, front);
    }
  }

  /** In every run in which all callers want one type, nobody else writes the key and no entry runs out or
      is evicted, at most one factory call succeeds, and all callers that get a value get that one. */
  lemma UndisturbedRunMakesOnce(kind: nat, acts: seq<Action>, i: nat, j: nat)
    requires After(acts).Some?
    requires forall k :: 0 <= k < |acts| ==>
      && !acts[k].Evict? && !acts[k].OtherSet?
      && (acts[k].Set? ==> acts[k].ttl != Some(0)) && (acts[k].Begin? ==> acts[k].kind == kind)
    requires forall k :: 0 <= k < |acts| && acts[k].Tick? && After(acts[..k]).Some? ==>
      var s := After(acts[..k]).value;
      s.cell.Some? && s.cell.value.expiry.Some? ==> s.now + acts[k].d < s.cell.value.expiry.value
    ensures |After(acts).value.made| <= 1
    ensures var r := After(acts).value.returned;
      i < |r| && j < |r| && r[i].outcome.Value? && r[j].outcome.Value? ==> r[i].outcome == r[j].outcome
  {
    UndisturbedIfQuiet(kind, acts);
    UndisturbedReachable(kind, acts);
    var s := After(acts).value;
    if i < |s.returned| && j < |s.returned| && s.returned[i].outcome.Value? && s.returned[j].outcome.Value? {
      OneValue(kind, s, i, j);
    }
  }
}
