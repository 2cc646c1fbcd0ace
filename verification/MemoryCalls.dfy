/** backend/memorycache, `GetOrSet` as its callers see it: how fresh the values are that it reads, and
    what a call does that runs alone. */
module MemoryCalls {
  import opened Runs
  import opened MemoryCache

  // ---- Freshness ----

  /** Action k stores the value, for a call or for other code, with this time to live. */
  ghost predicate StoredAt(acts: seq<Action>, k: nat, value: Any, ttl: Option<nat>, at: int) {
    && k < |acts| && After(acts[..k]).Some? && at == After(acts[..k]).value.now
    && (acts[k] == OtherSet(value, ttl)
        || (acts[k].Set? && acts[k].ttl == ttl && At(After(acts[..k]).value, acts[k].t, AtSet(value))))
  }

  ghost predicate Entry(acts: seq<Action>, k: nat, ttl: Option<nat>, at: int) {
    var s := After(acts);
    && s.Some? && s.value.cell.Some?
    && StoredAt(acts, k, s.value.cell.value.value, ttl, at)
    && s.value.cell.value.expiry == (if ttl.Some? then Some(at + ttl.value) else None)
  }

  lemma StepOnEntry(s: State, a: Action)
    requires Step(s, a).Some?
    ensures var s' := Step(s, a).value;
      && (a.Tick? ==> s'.now == s.now + a.d) && (!a.Tick? ==> s'.now == s.now)
      && (a.OtherSet? ==> s'.cell == Some(Cell(a.value, if a.ttl.Some? then Some(s.now + a.ttl.value) else None)))
      && (a.Set? ==> a.t in s.procs && s.procs[a.t].pc.AtSet?)
      && (a.Set? ==> s'.cell.Some? && s'.cell.value.value == s.procs[a.t].pc.value)
      && (a.Set? ==> s'.cell.value.expiry == (if a.ttl.Some? then Some(s.now + a.ttl.value) else None))
      && (a.Evict? ==> s'.cell.None?)
      && (!a.OtherSet? && !a.Set? && !a.Evict? ==> s'.cell == s.cell)
  {
  }

  lemma {:induction false} FindEntry(acts: seq<Action>) returns (k: nat, ttl: Option<nat>, at: int)
    requires After(acts).Some? && After(acts).value.cell.Some?
    ensures Entry(acts, k, ttl, at)
  {
    var front, a := acts[..|acts| - 1], acts[|acts| - 1];
    var s := After(front).value;
    StepOnEntry(s, a);
    if a.OtherSet? || a.Set? {
      k, ttl, at := |front|, a.ttl, s.now;
    } else {
      k, ttl, at := FindEntry(front);
      assert acts[..k] == front[..k];
    }
  }

  /** What a look at the cache finds is fresh: it was stored, with the type that is wanted, and its time
      to live is not over. */
  lemma ReadsAreFresh(acts: seq<Action>, a: Action) returns (k: nat, value: Any, ttl: Option<nat>, at: int)
    requires After(acts).Some? && ((a.Get? && a.found) || (a.Reget? && a.found)) && Step(After(acts).value, a).Some?
    ensures StoredAt(acts, k, value, ttl, at)
    ensures ttl.Some? ==> After(acts).value.now <= at + ttl.value
    ensures var s, s' := After(acts).value, Step(After(acts).value, a).value;
      && a.t in s.procs && value.kind == s.procs[a.t].kind
      && (a.Get? ==> a.t !in s'.procs && s'.returned == s.returned + [Done(value.kind, Value(value))])
      && (a.Reget? ==> At(s', a.t, AtUnlock(Value(value))))
  {
    k, ttl, at := FindEntry(acts);
    value := After(acts).value.cell.value.value;
  }

  /** And it is found as long: a look misses only if there is no entry, it has another type, or its time
      to live is over. */
  lemma MissesHaveCause(acts: seq<Action>, a: Action) returns (k: nat, ttl: Option<nat>, at: int)
    requires After(acts).Some? && ((a.Get? && !a.found) || (a.Reget? && !a.found)) && Step(After(acts).value, a).Some?
    ensures var s := After(acts).value;
      s.cell.Some? && s.cell.value.value.kind == s.procs[a.t].kind ==>
        && StoredAt(acts, k, s.cell.value.value, ttl, at)
        && ttl.Some? && at + ttl.value <= s.now
  {
    k, ttl, at := 0, None, 0;
    if After(acts).value.cell.Some? {
      k, ttl, at := FindEntry(acts);
    }
  }

  // ---- A call that runs alone ----

  lemma CallOnStoredValue(s: State, t: nat, kind: nat) returns (s1: State, s2: State)
    requires t !in s.procs && s.cell.Some? && s.cell.value.value.kind == kind
    requires s.cell.value.expiry.Some? ==> s.now < s.cell.value.expiry.value
    ensures Step(s, Begin(t, kind)) == Some(s1) && Step(s1, Get(t, true)) == Some(s2) && Step(s1, Get(t, false)).None?
    ensures s2 == s.(returned := s.returned + [Done(kind, Value(s.cell.value.value))])
  {
    s1 := Step(s, Begin(t, kind)).value;
    s2 := Step(s1, Get(t, true)).value;
    assert s2.procs == s.procs;
  }

  /** There is no live value of the type. */
  predicate Misses(s: State, kind: nat) {
    s.cell.Some? && s.cell.value.value.kind == kind ==>
      s.cell.value.expiry.Some? && s.cell.value.expiry.value < s.now
  }

  lemma CallUpToFactory(s: State, t: nat, kind: nat) returns (s1: State, s2: State, s3: State, s4: State)
    requires t !in s.procs && s.holder.None? && Misses(s, kind)
    ensures Step(s, Begin(t, kind)) == Some(s1) && Step(s1, Get(t, false)) == Some(s2)
    ensures Step(s2, Lock(t)) == Some(s3) && Step(s3, Reget(t, false)) == Some(s4)
    ensures s4 == s.(holder := Some(t), procs := s.procs[t := Proc(kind, InFactory)])
  {
    s1 := Step(s, Begin(t, kind)).value;
    s2 := Step(s1, Get(t, false)).value;
    s3 := Step(s2, Lock(t)).value;
    s4 := Step(s3, Reget(t, false)).value;
    assert s4.procs == s.procs[t := Proc(kind, InFactory)];
  }

  lemma CallWithFactory(s: State, t: nat, payload: int, ttl: Option<nat>) returns (s1: State, s2: State, s3: State)
    requires At(s, t, InFactory) && s.holder == Some(t)
    ensures Step(s, FactoryOk(t, payload)) == Some(s1) && Step(s1, Set(t, ttl)) == Some(s2)
    ensures Step(s2, Unlock(t)) == Some(s3)
    ensures var value := Any(s.procs[t].kind, payload);
      s3 == s.(made := s.made + [value], holder := None, procs := s.procs - {t},
               cell := Some(Cell(value, if ttl.Some? then Some(s.now + ttl.value) else None)),
               returned := s.returned + [Done(s.procs[t].kind, Value(value))])
  {
    s1 := Step(s, FactoryOk(t, payload)).value;
    s2 := Step(s1, Set(t, ttl)).value;
    s3 := Step(s2, Unlock(t)).value;
    assert s3.procs == s.procs - {t};
  }

  /** A failing factory stores nothing, its error is returned, and the key is freed all the same. */
  lemma CallWithFailingFactory(s: State, t: nat) returns (s1: State, s2: State)
    requires At(s, t, InFactory) && s.holder == Some(t)
    ensures Step(s, FactoryFail(t)) == Some(s1) && Step(s1, Unlock(t)) == Some(s2)
    ensures s2 == s.(holder := None, procs := s.procs - {t},
                     returned := s.returned + [Done(s.procs[t].kind, Failure)])
  {
    s1 := Step(s, FactoryFail(t)).value;
    s2 := Step(s1, Unlock(t)).value;
    assert s2.procs == s.procs - {t};
  }

  /** A goroutine makes one call at a time, waits while another holds the key, and at the instant of
      expiry may find the value or not. */
  lemma WaitsAndTies(s: State, t: nat, kind: nat)
    ensures t in s.procs ==> Step(s, Begin(t, kind)).None?
    ensures s.holder.Some? ==> Step(s, Lock(t)).None?
    ensures At(s, t, AtGet) && s.cell.Some? && s.cell.value.value.kind == s.procs[t].kind
            && s.cell.value.expiry == Some(s.now) ==>
      Step(s, Get(t, true)).Some? && Step(s, Get(t, false)).Some?
    ensures Step(s, Evict) == Some(s.(cell := None))
  {
  }

  /** A second look that finds a live value returns it and frees the key, without the factory. */
  lemma RegetFinds(s: State, t: nat) returns (s1: State, s2: State)
    requires At(s, t, AtReget) && s.holder == Some(t) && s.cell.Some? && s.cell.value.value.kind == s.procs[t].kind
    requires s.cell.value.expiry.Some? ==> s.now < s.cell.value.expiry.value
    ensures Step(s, Reget(t, true)) == Some(s1) && Step(s1, Unlock(t)) == Some(s2)
    ensures s2 == s.(holder := None, procs := s.procs - {t},
                     returned := s.returned + [Done(s.procs[t].kind, Value(s.cell.value.value))])
  {
    s1 := Step(s, Reget(t, true)).value;
    s2 := Step(s1, Unlock(t)).value;
    assert s2.procs == s.procs - {t};
  }
}
