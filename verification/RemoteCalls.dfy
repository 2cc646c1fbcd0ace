/** backend/remotecache, `GetOrCreate` as its callers see it: how fresh the values are that it reads, and
    what a call does that runs alone. */
module RemoteCalls {
  import opened Runs
  import opened RemoteCache

  // ---- Freshness ----

  /** Action k puts the value into the store, or tries to and is only told that it failed. */
  predicate Writes(a: Action) { a.Set? || (a.SetFail? && a.applied) }

  ghost predicate StoredAt(acts: seq<Action>, k: nat, value: int, ttl: int, at: int) {
    && k < |acts| && Writes(acts[k]) && After(acts[..k]).Some?
    && At(After(acts[..k]).value, acts[k].t, AtSet(value, ttl))
    && at == After(acts[..k]).value.now
  }

  /** The entry lives at the time `now`: it has no time to live, or that is not over. */
  predicate Alive(ttl: int, at: int, now: int) { ttl <= 0 || now < at + ttl }

  /** The entry in the store, as the action that stored it says. */
  ghost predicate Entry(acts: seq<Action>, k: nat, ttl: int, at: int) {
    var s := After(acts);
    && s.Some? && s.value.cell.Some?
    && StoredAt(acts, k, s.value.cell.value.value, ttl, at)
    && s.value.cell.value.expiry == (if ttl > 0 then Some(at + ttl) else None)
    && Alive(ttl, at, s.value.now)
  }

  lemma WrittenEntry(s: State, a: Action, value: int, ttl: int)
    requires Step(s, a).Some? && Writes(a) && At(s, a.t, AtSet(value, ttl))
    ensures var s' := Step(s, a).value;
      s'.now == s.now && s'.cell == Some(Cell(value, if ttl > 0 then Some(s.now + ttl) else None))
  {
  }

  predicate TimeIsOver(s: State, now: int) {
    s.cell.Some? && s.cell.value.expiry.Some? && s.cell.value.expiry.value <= now
  }

  /** Nothing else changes the entry; it goes when its time is over. */
  lemma EntryElse(s: State, a: Action)
    requires Step(s, a).Some? && !Writes(a)
    ensures var s' := Step(s, a).value;
      && (a.Tick? ==> s'.now == s.now + a.d) && (!a.Tick? ==> s'.now == s.now)
      && (a.Evict? ==> s'.cell.None?)
      && (!a.Evict? && TimeIsOver(s, s'.now) && a.Tick? ==> s'.cell.None?)
      && (!a.Evict? && !(TimeIsOver(s, s'.now) && a.Tick?) ==> s'.cell == s.cell)
  {
  }

  lemma {:induction false} FindEntry(acts: seq<Action>) returns (k: nat, ttl: int, at: int)
    requires After(acts).Some? && After(acts).value.cell.Some?
    ensures Entry(acts, k, ttl, at)
  {
    var front, a := acts[..|acts| - 1], acts[|acts| - 1];
    var s := After(front).value;
    if Writes(a) {
      k, at := |front|, s.now;
      ttl := s.procs[a.t].pc.ttl;
      WrittenEntry(s, a, s.procs[a.t].pc.value, ttl);
    } else {
      EntryElse(s, a);
      k, ttl, at := FindEntry(front);
      assert acts[..k] == front[..k];
    }
  }

  /** Where the value at hand of a process comes from: a factory call with this value and time to live. */
  lemma {:induction false} SetFollowsFactory(acts: seq<Action>, t: nat, value: int, ttl: int) returns (j: nat)
    requires After(acts).Some? && At(After(acts).value, t, AtSet(value, ttl))
    ensures j < |acts| && acts[j] == FactoryOk(t, value, ttl)
  {
    var front, a := acts[..|acts| - 1], acts[|acts| - 1];
    if a == FactoryOk(t, value, ttl) {
      j := |front|;
    } else {
      j := SetFollowsFactory(front, t, value, ttl);
    }
  }

  /** What Get or the second look reads from the store is fresh: the value came from a factory call that
      gave it this time to live, was stored by that call at some time, and its time is not over. */
  lemma ReadsAreFresh(acts: seq<Action>, a: Action) returns (j: nat, k: nat, value: int, ttl: int, at: int)
    requires After(acts).Some? && (a.Get? || a.Reget?) && Step(After(acts).value, a).Some?
    requires After(acts).value.cell.Some?
    ensures j < k && k < |acts| && StoredAt(acts, k, value, ttl, at)
    ensures acts[j] == FactoryOk(acts[k].t, value, ttl)
    ensures ttl <= 0 || After(acts).value.now < at + ttl
    ensures var s, s' := After(acts).value, Step(After(acts).value, a).value;
      && (a.Get? ==> a.t !in s'.procs && s'.returned == s.returned + [Value(value, false)])
      && (a.Reget? ==> At(s', a.t, AtRelease(Value(value, false))))
  {
    k, ttl, at := FindEntry(acts);
    value := After(acts).value.cell.value.value;
    j := SetFollowsFactory(acts[..k], acts[k].t, value, ttl);
    assert acts[..k][j] == acts[j];
  }

  /** And it is there as long: a stored value is read until its time is over, unless it is evicted or
      another is stored. */
  lemma {:induction false} StoredStays(s: State, more: seq<Action>)
    requires s.cell.Some? && Run(s, Step, more).Some?
    requires forall i :: 0 <= i < |more| ==> !Writes(more[i]) && !more[i].Evict?
    requires s.cell.value.expiry.Some? ==> Run(s, Step, more).value.now < s.cell.value.expiry.value
    ensures Run(s, Step, more).value.cell == s.cell
  {
    if more != [] {
      var front, a := more[..|more| - 1], more[|more| - 1];
      EntryElse(Run(s, Step, front).value, a);
      StoredStays(s, front);
    }
  }

  // ---- The lease ----

  /** Obtaining takes a free lock for five seconds; from then on time or a release frees it. */
  lemma LeaseLastsFiveSeconds(s: State, t: nat)
    requires Step(s, Obtain(t)).Some?
    ensures s.lease.None?
    ensures Step(s, Obtain(t)).value.lease == Some(Lease(s.procs[t].call, s.now + 5000))
  {
  }

  lemma LeaseRunsOut(s: State, d: nat)
    requires s.lease.Some?
    ensures Step(s, Tick(d)).value.lease == if s.lease.value.expiry <= s.now + d then None else s.lease
  {
  }

  // ---- A call that runs alone ----

  /** A stored value is returned at once. */
  lemma CallOnStoredValue(s: State, t: nat) returns (s1: State, s2: State)
    requires t !in s.procs && s.cell.Some?
    ensures Step(s, Begin(t)) == Some(s1) && Step(s1, Get(t)) == Some(s2)
    ensures s2 == s.(calls := s.calls + 1, returned := s.returned + [Value(s.cell.value.value, false)])
  {
    s1 := Step(s, Begin(t)).value;
    s2 := Step(s1, Get(t)).value;
    assert s2.procs == s.procs;
  }

  /** Without a stored value the call takes the lock, looks again, and asks the factory. */
  lemma CallUpToFactory(s: State, t: nat) returns (s1: State, s2: State, s3: State, s4: State)
    requires t !in s.procs && s.cell.None? && s.lease.None?
    ensures Step(s, Begin(t)) == Some(s1) && Step(s1, Get(t)) == Some(s2)
    ensures Step(s2, Obtain(t)) == Some(s3) && Step(s3, Reget(t)) == Some(s4)
    ensures s4 == s.(calls := s.calls + 1, lease := Some(Lease(s.calls, s.now + 5000)),
                     procs := s.procs[t := Proc(s.calls, InFactory, Some(s.now))])
  {
    s1 := Step(s, Begin(t)).value;
    s2 := Step(s1, Get(t)).value;
    s3 := Step(s2, Obtain(t)).value;
    s4 := Step(s3, Reget(t)).value;
    assert s4.procs == s.procs[t := Proc(s.calls, InFactory, Some(s.now))];
  }

  /** What the factory made is stored with its time to live and returned, and the lock is released. */
  lemma CallWithFactory(s: State, t: nat, value: int, ttl: int) returns (s1: State, s2: State, s3: State)
    requires t in s.procs && s.procs[t].pc == InFactory && s.procs[t].obtained.Some?
    requires s.lease.Some? && s.lease.value.token == s.procs[t].call
    ensures Step(s, FactoryOk(t, value, ttl)) == Some(s1) && Step(s1, Set(t)) == Some(s2)
    ensures Step(s2, Release(t)) == Some(s3)
    ensures s3 == s.(produced := s.produced + [value], lease := None, procs := s.procs - {t},
                     cell := Some(Cell(value, if ttl > 0 then Some(s.now + ttl) else None)),
                     returned := s.returned + [Value(value, false)])
  {
    s1 := Step(s, FactoryOk(t, value, ttl)).value;
    s2 := Step(s1, Set(t)).value;
    s3 := Step(s2, Release(t)).value;
    assert s3.procs == s.procs - {t};
  }

  /** A failing factory stores nothing, and the lock is released all the same. */
  lemma CallWithFailingFactory(s: State, t: nat) returns (s1: State, s2: State)
    requires t in s.procs && s.procs[t].pc == InFactory && s.procs[t].obtained.Some?
    requires s.lease.Some? && s.lease.value.token == s.procs[t].call
    ensures Step(s, FactoryFail(t)) == Some(s1) && Step(s1, Release(t)) == Some(s2)
    ensures s2 == s.(lease := None, procs := s.procs - {t}, returned := s.returned + [Failure])
  {
    s1 := Step(s, FactoryFail(t)).value;
    s2 := Step(s1, Release(t)).value;
    assert s2.procs == s.procs - {t};
  }

  /** A call that does not get the lock does the work without it, and releases nobody's lock. */
  lemma CallWithoutLock(s: State, t: nat, value: int, ttl: int)
    returns (s1: State, s2: State, s3: State, s4: State, s5: State)
    requires At(s, t, AtLock) && s.procs[t].obtained.None? && s.cell.None?
    ensures Step(s, ObtainFail(t, false)) == Some(s1) && Step(s1, Reget(t)) == Some(s2)
    ensures Step(s2, FactoryOk(t, value, ttl)) == Some(s3) && Step(s3, Set(t)) == Some(s4)
    ensures Step(s4, Release(t)) == Some(s5)
    ensures s5.lease == s.lease && s5.returned == s.returned + [Value(value, false)]
    ensures s5.cell == Some(Cell(value, if ttl > 0 then Some(s.now + ttl) else None))
  {
    s1 := Step(s, ObtainFail(t, false)).value;
    s2 := Step(s1, Reget(t)).value;
    s3 := Step(s2, FactoryOk(t, value, ttl)).value;
    s4 := Step(s3, Set(t)).value;
    s5 := Step(s4, Release(t)).value;
  }

  /** While another holds the lease, the lock is not to be had. */
  lemma LockIsExclusive(s: State, t: nat)
    requires s.lease.Some?
    ensures Step(s, Obtain(t)).None?
  {
  }

  /** A failed read is an error of the call, a failed second read is not. */
  lemma FailedReads(s: State, t: nat)
    ensures At(s, t, AtGet) ==>
      Step(s, GetFail(t)) == Some(s.(procs := s.procs - {t}, returned := s.returned + [Failure]))
    ensures At(s, t, AtReget) ==> Step(s, RegetFail(t)).Some? && At(Step(s, RegetFail(t)).value, t, InFactory)
    ensures t in s.procs && s.procs[t].pc.AtSet? ==>
      Step(s, SetFail(t, false)).Some?
      && At(Step(s, SetFail(t, false)).value, t, AtRelease(Value(s.procs[t].pc.value, true)))
      && Step(s, SetFail(t, false)).value.cell == s.cell
  {
  }

  /** A process makes one call at a time, and may die at any point of it, with its lease left to run out. */
  lemma CrashesAndEviction(s: State, t: nat)
    ensures t in s.procs ==> Step(s, Begin(t)).None? && Step(s, Crash(t)) == Some(s.(procs := s.procs - {t}))
    ensures t !in s.procs ==> Step(s, Crash(t)).None?
    ensures Step(s, Evict) == Some(s.(cell := None))
    ensures t in s.procs && s.procs[t].pc.AtRelease? ==>
      Step(s, ReleaseFail(t)) ==
        Some(s.(procs := s.procs - {t}, returned := s.returned + [s.procs[t].pc.outcome]))
  {
  }

  /** A lock request that fails after it was applied leaves a lease that nobody releases. */
  lemma LostLease(s: State, t: nat)
    requires At(s, t, AtLock) && s.lease.None?
    ensures Step(s, ObtainFail(t, true)).Some?
    ensures var s' := Step(s, ObtainFail(t, true)).value;
      && s'.lease == Some(Lease(s.procs[t].call, s.now + 5000))
      && s'.procs == s.procs[t := s.procs[t].(pc := AtReget)] && s'.cell == s.cell && s'.returned == s.returned
  {
  }

  /** A write that fails may have been applied. */
  lemma LostWrite(s: State, t: nat)
    requires t in s.procs && s.procs[t].pc.AtSet?
    ensures Step(s, SetFail(t, true)).Some? && Step(s, Set(t)).Some?
    ensures Step(s, SetFail(t, true)).value.cell == Step(s, Set(t)).value.cell
    ensures At(Step(s, SetFail(t, true)).value, t, AtRelease(Value(s.procs[t].pc.value, true)))
  {
  }
}
