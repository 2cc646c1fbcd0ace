/** backend/remotecache/cache.go and lock.go: `GetOrCreate` on one key shared through Redis.

    Every Redis command is one atomic action. Commands may fail with or without having been applied,
    processes may crash anywhere, factories may fail, and the lease of the lock runs out on its own. */
module RemoteCache {
  import opened Runs

  /** lockTTL, in milliseconds. */
  const LOCK_TTL: int := 5000

  datatype Cell = Cell(value: int, expiry: Option<int>)

  datatype Lease = Lease(token: nat, expiry: int)

  /** What a call returns: a value, with an error if storing it failed, or an error alone. */
  datatype Outcome = Value(value: int, failed: bool) | Failure

  datatype Pc =
    | AtGet
    | AtLock
    | AtReget
    | InFactory
    | AtSet(value: int, ttl: int)
    | AtRelease(outcome: Outcome)

  /** `call` is the token of the call, `obtained` the time at which it took the lock, if it did. */
  datatype Proc = Proc(call: nat, pc: Pc, obtained: Option<int>)

  /** `produced` lists the values of successful factory calls, `returned` the finished calls. */
  datatype State = State(
    now: int,
    cell: Option<Cell>,
    lease: Option<Lease>,
    calls: nat,
    procs: map<nat, Proc>,
    produced: seq<int>,
    returned: seq<Outcome>)

  datatype Action =
    | Tick(d: nat)
    | Evict
    | Begin(t: nat)
    | Get(t: nat)
    | GetFail(t: nat)
    | Obtain(t: nat)
    | ObtainFail(t: nat, applied: bool)
    | Reget(t: nat)
    | RegetFail(t: nat)
    | FactoryOk(t: nat, value: int, ttl: int)
    | FactoryFail(t: nat)
    | Set(t: nat)
    | SetFail(t: nat, applied: bool)
    | Release(t: nat)
    | ReleaseFail(t: nat)
    | Crash(t: nat)

  const Init := State(0, None, None, 0, map[], [], [])

  predicate At(s: State, t: nat, pc: Pc) { t in s.procs && s.procs[t].pc == pc }

  function Goto(s: State, t: nat, pc: Pc): State
    requires t in s.procs
  {
    s.(procs := s.procs[t := s.procs[t].(pc := pc)])
  }

  function Finish(s: State, t: nat, outcome: Outcome): State {
    s.(procs := s.procs - {t}, returned := s.returned + [outcome])
  }

  function LeaseAfter(s: State, now: int): Option<Lease> {
    if s.lease.Some? && s.lease.value.expiry <= now then None else s.lease
  }

  function CellAfter(s: State, now: int): Option<Cell> {
    if s.cell.Some? && s.cell.value.expiry.Some? && s.cell.value.expiry.value <= now then None else s.cell
  }

  /** The store as Set leaves it; a time to live that is not positive means none. */
  function Stored(s: State, value: int, ttl: int): Option<Cell> {
    Some(Cell(value, if ttl > 0 then Some(s.now + ttl) else None))
  }

  /** redislock releases only on a matching token. */
  function LeaseReleased(s: State, p: Proc): Option<Lease> {
    if p.obtained.Some? && s.lease.Some? && s.lease.value.token == p.call then None else s.lease
  }

  function Step(s: State, a: Action): Option<State> {
    match a
    case Tick(d) =>
      Some(s.(now := s.now + d, lease := LeaseAfter(s, s.now + d), cell := CellAfter(s, s.now + d)))
    case Evict => Some(s.(cell := None))
    case Begin(t) =>
      if t in s.procs then None
      else Some(s.(procs := s.procs[t := Proc(s.calls, AtGet, None)], calls := s.calls + 1))
    case Get(t) =>
      if !At(s, t, AtGet) then None
      else if s.cell.Some? then Some(Finish(s, t, Value(s.cell.value.value, false)))
      else Some(Goto(s, t, AtLock))
    case GetFail(t) => if At(s, t, AtGet) then Some(Finish(s, t, Failure)) else None
    case Obtain(t) =>
      if At(s, t, AtLock) && s.lease.None? then
        var p := s.procs[t];
        Some(s.(lease := Some(Lease(p.call, s.now + LOCK_TTL)),
                procs := s.procs[t := Proc(p.call, AtReget, Some(s.now))]))
      else None
    case ObtainFail(t, applied) =>
      if At(s, t, AtLock) && (applied ==> s.lease.None?) then
        var lease := if applied then Some(Lease(s.procs[t].call, s.now + LOCK_TTL)) else s.lease;
        Some(Goto(s.(lease := lease), t, AtReget))
      else None
    case Reget(t) =>
      if !At(s, t, AtReget) then None
      else if s.cell.Some? then Some(Goto(s, t, AtRelease(Value(s.cell.value.value, false))))
      else Some(Goto(s, t, InFactory))
    case RegetFail(t) => if At(s, t, AtReget) then Some(Goto(s, t, InFactory)) else None
    case FactoryOk(t, value, ttl) =>
      if At(s, t, InFactory) then Some(Goto(s.(produced := s.produced + [value]), t, AtSet(value, ttl))) else None
    case FactoryFail(t) =>
      if At(s, t, InFactory) then Some(Goto(s, t, AtRelease(Failure))) else None
    case Set(t) =>
      if t in s.procs && s.procs[t].pc.AtSet? then
        var AtSet(value, ttl) := s.procs[t].pc;
        Some(Goto(s.(cell := Stored(s, value, ttl)), t, AtRelease(Value(value, false))))
      else None
    case SetFail(t, applied) =>
      if t in s.procs && s.procs[t].pc.AtSet? then
        var AtSet(value, ttl) := s.procs[t].pc;
        Some(Goto(s.(cell := if applied then Stored(s, value, ttl) else s.cell), t, AtRelease(Value(value, true))))
      else None
    case Release(t) =>
      if t in s.procs && s.procs[t].pc.AtRelease? then
        Some(Finish(s.(lease := LeaseReleased(s, s.procs[t])), t, s.procs[t].pc.outcome))
      else None
    case ReleaseFail(t) =>
      if t in s.procs && s.procs[t].pc.AtRelease? then Some(Finish(s, t, s.procs[t].pc.outcome)) else None
    case Crash(t) =>
      if t in s.procs then Some(s.(procs := s.procs - {t})) else None
  }

  function After(acts: seq<Action>): Option<State> { Run(Init, Step, acts) }

  // ---- The invariant ----

  /** The lease a process believes to hold has not run out by its own reckoning. */
  predicate HoldsUnexpired(s: State, t: nat)
    requires t in s.procs
  {
    s.procs[t].obtained.Some? && s.now < s.procs[t].obtained.value + LOCK_TTL
  }

  predicate FromFactory(s: State, outcome: Outcome) {
    outcome.Value? ==> outcome.value in s.produced
  }

  ghost predicate ProcOk(s: State, t: nat)
    requires t in s.procs
  {
    var p := s.procs[t];
    && p.call < s.calls
    && (p.obtained.Some? ==> p.obtained.value <= s.now && !p.pc.AtGet? && !p.pc.AtLock?)
    && (HoldsUnexpired(s, t) ==> s.lease == Some(Lease(p.call, p.obtained.value + LOCK_TTL)))
    && (p.pc.AtGet? || p.pc.AtLock? ==> s.lease.Some? ==> s.lease.value.token != p.call)
    && (p.pc.AtSet? ==> p.pc.value in s.produced)
    && (p.pc.AtRelease? ==> FromFactory(s, p.pc.outcome))
  }

  ghost predicate Inv(s: State) {
    && (forall t :: t in s.procs ==> ProcOk(s, t))
    && DistinctCalls(s.procs)
    && StoreOk(s)
    && (forall i :: 0 <= i < |s.returned| ==> FromFactory(s, s.returned[i]))
  }

  /** What a step must leave alone for the facts about process u to stay true. */
  ghost predicate Undisturbed(s: State, s': State, u: nat)
    requires u in s.procs && u in s'.procs
  {
    && s.now <= s'.now && s.calls <= s'.calls
    && s.produced <= s'.produced
    && (HoldsUnexpired(s', u) ==> s'.lease == s.lease)
    && (s'.lease.Some? ==> s'.lease == s.lease || s'.lease.value.token != s.procs[u].call)
  }

  lemma StepUndisturbed(s: State, a: Action, u: nat)
    requires Inv(s) && Step(s, a).Some?
    requires u in s.procs && u in Step(s, a).value.procs && s.procs[u] == Step(s, a).value.procs[u]
    ensures Undisturbed(s, Step(s, a).value, u)
  {
    if a.Obtain? || a.Release? || a.ObtainFail? {
      assert ProcOk(s, a.t);
    }
    assert ProcOk(s, u);
  }

  /** A step keeps what every process that it does not move relies on. */
  lemma OthersKept(s: State, s': State, u: nat)
    requires u in s.procs && u in s'.procs && s.procs[u] == s'.procs[u]
    requires ProcOk(s, u) && Undisturbed(s, s', u)
    ensures ProcOk(s', u)
  {
  }

  lemma ReaderKept(s: State, a: Action)
    requires Inv(s) && Step(s, a).Some?
    requires a.Get? || a.GetFail? || a.Reget? || a.RegetFail? || a.Crash? || a.Begin?
    ensures a.t in Step(s, a).value.procs ==> ProcOk(Step(s, a).value, a.t)
  {
    if a.t in s.procs {
      assert ProcOk(s, a.t);
    }
  }

  lemma ActorKept(s: State, a: Action)
    requires Inv(s) && !a.Tick? && !a.Evict? && Step(s, a).Some?
    ensures a.t in Step(s, a).value.procs ==> ProcOk(Step(s, a).value, a.t)
  {
    if a.Get? || a.GetFail? || a.Reget? || a.RegetFail? || a.Crash? || a.Begin? {
      ReaderKept(s, a);
    } else {
      assert ProcOk(s, a.t);
    }
  }

  lemma ReturnedKept(s: State, a: Action, i: nat)
    requires Inv(s) && Step(s, a).Some? && i < |Step(s, a).value.returned|
    ensures FromFactory(Step(s, a).value, Step(s, a).value.returned[i])
  {
    if i < |s.returned| {
      assert FromFactory(s, s.returned[i]);
    } else {
      assert ProcOk(s, a.t);
    }
  }

  lemma ProcsKept(s: State, a: Action)
    requires Inv(s) && Step(s, a).Some?
    ensures forall u :: u in Step(s, a).value.procs ==> ProcOk(Step(s, a).value, u)
  {
    var s' := Step(s, a).value;
    forall u | u in s'.procs ensures ProcOk(s', u) {
      if !a.Tick? && !a.Evict? && u == a.t {
        ActorKept(s, a);
      } else {
        StepUndisturbed(s, a, u);
        assert ProcOk(s, u);
        OthersKept(s, s', u);
      }
    }
  }

  ghost predicate DistinctCalls(procs: map<nat, Proc>) {
    forall t, u :: t in procs && u in procs && t != u ==> procs[t].call != procs[u].call
  }

  lemma CallsKept(s: State, a: Action)
    requires Inv(s) && Step(s, a).Some?
    ensures DistinctCalls(Step(s, a).value.procs)
  {
    forall t | t in s.procs ensures s.procs[t].call < s.calls {
      assert ProcOk(s, t);
    }
  }

  ghost predicate StoreOk(s: State) {
    && (s.lease.Some? ==> s.lease.value.token < s.calls && s.now < s.lease.value.expiry)
    && (s.cell.Some? ==> s.cell.value.value in s.produced)
  }

  lemma StoreKept(s: State, a: Action)
    requires Inv(s) && Step(s, a).Some?
    ensures StoreOk(Step(s, a).value)
  {
    if a.Obtain? || a.ObtainFail? || a.Set? || a.SetFail? {
      assert ProcOk(s, a.t);
    }
  }

  lemma StepKeepsInv(s: State, a: Action)
    requires Inv(s) && Step(s, a).Some?
    ensures Inv(Step(s, a).value)
  {
    var s' := Step(s, a).value;
    ProcsKept(s, a);
    CallsKept(s, a);
    StoreKept(s, a);
    forall i | 0 <= i < |s'.returned| ensures FromFactory(s', s'.returned[i]) {
      ReturnedKept(s, a, i);
    }
  }

  lemma Reachable(acts: seq<Action>)
    requires After(acts).Some?
    ensures Inv(After(acts).value)
  {
    forall s, a | Inv(s) && Step(s, a).Some? ensures Inv(Step(s, a).value) {
      StepKeepsInv(s, a);
    }
    Invariance(Init, Step, acts, s => Inv(s));
  }

  /** In every run, at most one process is past the lock with an unexpired lease; in particular at
      most one is in the factory with one, whatever failed or crashed before. */
  lemma OneUnexpiredHolder(acts: seq<Action>, t: nat, u: nat)
    requires After(acts).Some?
    requires t in After(acts).value.procs && u in After(acts).value.procs
    requires HoldsUnexpired(After(acts).value, t) && HoldsUnexpired(After(acts).value, u)
    ensures t == u
  {
    Reachable(acts);
    assert ProcOk(After(acts).value, t) && ProcOk(After(acts).value, u);
  }

  /** No process releases the lease of another: while a holder's lease is unexpired, only that holder's
      own release, or time, ends it. */
  lemma OnlyHolderReleases(acts: seq<Action>, a: Action, t: nat)
    requires After(acts).Some? && Step(After(acts).value, a).Some?
    requires t in After(acts).value.procs && HoldsUnexpired(After(acts).value, t)
    requires Step(After(acts).value, a).value.now < After(acts).value.procs[t].obtained.value + LOCK_TTL
    requires a != Release(t)
    ensures Step(After(acts).value, a).value.lease == After(acts).value.lease
  {
    Reachable(acts);
    assert ProcOk(After(acts).value, t);
    if a.Release? && a.t in After(acts).value.procs {
      assert ProcOk(After(acts).value, a.t);
    }
  }

  /** Every returned value, with or without an error beside it, came from a factory call for the key. */
  lemma ReturnedFromFactory(acts: seq<Action>, i: nat)
    requires After(acts).Some? && i < |After(acts).value.returned|
    ensures FromFactory(After(acts).value, After(acts).value.returned[i])
  {
    Reachable(acts);
  }

  // ---- Calm runs ----

  /** No lease expires, no entry expires or is evicted, and neither a lock request nor the second look nor
      a write fails; first looks, releases and factories may still fail and processes may still crash. */
  predicate Calm(s: State, a: Action) {
    match a
    case Tick(d) => LeaseAfter(s, s.now + d) == s.lease && CellAfter(s, s.now + d) == s.cell
    case Evict => false
    case ObtainFail(_, _) => false
    case RegetFail(_) => false
    case SetFail(_, _) => false
    case _ => true
  }

  function CalmStep(s: State, a: Action): Option<State> {
    if Calm(s, a) then Step(s, a) else None
  }

  function AfterCalm(acts: seq<Action>): Option<State> { Run(Init, CalmStep, acts) }

  ghost predicate OwnsLease(s: State, p: Proc) {
    s.lease.Some? && s.lease.value.token == p.call
  }

  /** Whoever is past the lock owns the lease. */
  ghost predicate LeaseOwned(s: State) {
    forall t :: t in s.procs && !s.procs[t].pc.AtGet? && !s.procs[t].pc.AtLock? ==>
      s.procs[t].obtained.Some? && OwnsLease(s, s.procs[t])
  }

  /** Nothing has been produced while somebody is in the factory, and what has been is stored, or about
      to be by the owner of the lease. */
  ghost predicate ProducedOnce(s: State) {
    && |s.produced| <= 1
    && (forall t :: t in s.procs && s.procs[t].pc.InFactory? ==> s.produced == [])
    && (s.produced != [] && s.cell.None? ==>
          s.lease.Some? && forall t :: t in s.procs && OwnsLease(s, s.procs[t]) ==> s.procs[t].pc.AtSet?)
  }

  ghost predicate CalmInv(s: State) { Inv(s) && LeaseOwned(s) && ProducedOnce(s) }

  lemma CalmStepKeepsLease(s: State, a: Action)
    requires CalmInv(s) && CalmStep(s, a).Some?
    ensures LeaseOwned(Step(s, a).value)
  {
    if a.Release? {
      assert ProcOk(s, a.t);
    }
  }

  lemma CalmStepKeepsProduced(s: State, a: Action)
    requires CalmInv(s) && CalmStep(s, a).Some?
    ensures ProducedOnce(Step(s, a).value)
  {
    forall t | t in s.procs ensures ProcOk(s, t) {
    }
  }

  lemma CalmStepKeepsInv(s: State, a: Action)
    requires CalmInv(s) && CalmStep(s, a).Some?
    ensures CalmInv(Step(s, a).value)
  {
    StepKeepsInv(s, a);
    CalmStepKeepsLease(s, a);
    CalmStepKeepsProduced(s, a);
  }

  lemma CalmReachable(acts: seq<Action>)
    requires AfterCalm(acts).Some?
    ensures CalmInv(AfterCalm(acts).value)
  {
    forall s, a | CalmInv(s) && CalmStep(s, a).Some? ensures CalmInv(CalmStep(s, a).value) {
      CalmStepKeepsInv(s, a);
    }
    Invariance(Init, CalmStep, acts, s => CalmInv(s));
  }

  /** Neither the lease nor the entry runs out within d. */
  predicate OutlivedBy(s: State, d: nat) {
    && (s.lease.Some? ==> s.now + d < s.lease.value.expiry)
    && (s.cell.Some? && s.cell.value.expiry.Some? ==> s.now + d < s.cell.value.expiry.value)
  }

  lemma {:induction false} CalmIfQuiet(acts: seq<Action>)
    requires After(acts).Some?
    requires forall k :: 0 <= k < |acts| ==>
      !acts[k].Evict? && !acts[k].ObtainFail? && !acts[k].RegetFail? && !acts[k].SetFail?
    requires forall k :: 0 <= k < |acts| && acts[k].Tick? && After(acts[..k]).Some? ==>
      OutlivedBy(After(acts[..k]).value, acts[k].d)
    ensures AfterCalm(acts) == After(acts)
  {
    if acts != [] {
      var front, last := acts[..|acts| - 1], acts[|acts| - 1];
      forall k | 0 <= k < |front| ensures acts[..k] == front[..k] {
      }
      CalmIfQuiet(front);
    }
  }

  /** In every run in which no lease and no entry runs out or is evicted, and no lock request, second look
      or write fails, at most one factory call succeeds, because the value is stored before the lock is
      released and every waiter looks again; so all calls that return a value return the same one. */
  lemma CalmRunProducesOnce(acts: seq<Action>, i: nat, j: nat)
    requires After(acts).Some?
    requires forall k :: 0 <= k < |acts| ==>
      !acts[k].Evict? && !acts[k].ObtainFail? && !acts[k].RegetFail? && !acts[k].SetFail?
    requires forall k :: 0 <= k < |acts| && acts[k].Tick? && After(acts[..k]).Some? ==>
      OutlivedBy(After(acts[..k]).value, acts[k].d)
    ensures |After(acts).value.produced| <= 1
    ensures var r := After(acts).value.returned;
      i < |r| && j < |r| && r[i].Value? && r[j].Value? ==> r[i].value == r[j].value
  {
    CalmIfQuiet(acts);
    CalmReachable(acts);
    var s := After(acts).value;
    if i < |s.returned| && j < |s.returned| {
      assert FromFactory(s, s.returned[i]) && FromFactory(s, s.returned[j]);
    }
  }
}
