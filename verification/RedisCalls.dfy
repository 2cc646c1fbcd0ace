/** backend/ratelimit/limit.go, `Key`, as its callers see it: what a call passed, what it gets when it
    runs alone, and what all calls on one counter get in every run. */
module RedisCalls {
  import opened Runs
  import opened RedisLimiter

  // ---- Which call a result belongs to ----

  predicate Passed(a: Action, limit: int, window: int) { a.Begin? && a.limit == limit && a.window == window }

  /** `of` and `at` give the beginnings of the returned calls and of the calls on the way, all different. */
  ghost predicate Origins(acts: seq<Action>, s: State, of: seq<nat>, at: map<nat, nat>) {
    && |of| == |s.log| && at.Keys == s.procs.Keys
    && (forall i :: 0 <= i < |of| ==> of[i] < |acts| && acts[of[i]].Begin? && acts[of[i]].limit == s.log[i].limit)
    && (forall t :: t in at ==>
          at[t] < |acts| && Passed(acts[at[t]], s.procs[t].limit, s.procs[t].window) && acts[at[t]].t == t)
    && (forall i, j :: 0 <= i < j < |of| ==> of[i] != of[j])
    && (forall i, t :: 0 <= i < |of| && t in at ==> of[i] != at[t])
  }

  /** A process keeps what its call passed from one step to the next. */
  lemma CallKept(s: State, a: Action)
    requires Step(s, a).Some?
    ensures var s' := Step(s, a).value;
      && (a.Begin? ==> a.t !in s.procs && s'.procs.Keys == s.procs.Keys + {a.t})
      && (a.Begin? ==> s'.procs[a.t].limit == a.limit && s'.procs[a.t].window == a.window)
      && (!a.Begin? ==> s'.procs.Keys <= s.procs.Keys)
      && (!a.Return? ==> s'.log == s.log)
      && (a.Return? ==> a.t in s.procs && a.t !in s'.procs)
      && (a.Return? ==> |s'.log| == |s.log| + 1 && s'.log[..|s.log|] == s.log)
      && (a.Return? ==> s'.log[|s.log|].limit == s.procs[a.t].limit)
      && (forall t :: t in s.procs && t in s'.procs ==>
            s'.procs[t].limit == s.procs[t].limit && s'.procs[t].window == s.procs[t].window)
  {
  }

  /** How the beginnings are carried over a step. */
  lemma OriginsBegin(acts: seq<Action>, s: State, a: Action, of: seq<nat>, at: map<nat, nat>)
    requires Origins(acts, s, of, at) && a.Begin? && Step(s, a).Some?
    ensures Origins(acts + [a], Step(s, a).value, of, at[a.t := |acts|])
  {
    CallKept(s, a);
  }

  lemma OriginsReturn(acts: seq<Action>, s: State, a: Action, of: seq<nat>, at: map<nat, nat>)
    requires Origins(acts, s, of, at) && a.Return? && Step(s, a).Some?
    ensures var s' := Step(s, a).value;
      a.t in at && Origins(acts + [a], s', of + [at[a.t]], map t | t in at && t in s'.procs :: at[t])
  {
    CallKept(s, a);
    var s' := Step(s, a).value;
    forall i | 0 <= i < |of| ensures s'.log[i] == s.log[i] {
      assert s'.log[..|s.log|][i] == s.log[i];
    }
    forall t | t in at && t != a.t ensures at[t] != at[a.t] {
      assert acts[at[t]].t == t && acts[at[a.t]].t == a.t;
    }
  }

  lemma OriginsElse(acts: seq<Action>, s: State, a: Action, of: seq<nat>, at: map<nat, nat>)
    requires Origins(acts, s, of, at) && !a.Begin? && !a.Return? && Step(s, a).Some?
    ensures var s' := Step(s, a).value;
      Origins(acts + [a], s', of, map t | t in at && t in s'.procs :: at[t])
  {
    CallKept(s, a);
  }

  lemma {:induction false} FindOrigins(acts: seq<Action>) returns (of: seq<nat>, at: map<nat, nat>)
    requires After(acts).Some?
    ensures Origins(acts, After(acts).value, of, at)
  {
    if acts == [] {
      of, at := [], map[];
    } else {
      var front, a := acts[..|acts| - 1], acts[|acts| - 1];
      var s, s' := After(front).value, After(acts).value;
      of, at := FindOrigins(front);
      assert front + [a] == acts;
      if a.Begin? {
        OriginsBegin(front, s, a, of, at);
        at := at[a.t := |front|];
      } else if a.Return? {
        OriginsReturn(front, s, a, of, at);
        of, at := of + [at[a.t]], map t | t in at && t in s'.procs :: at[t];
      } else {
        OriginsElse(front, s, a, of, at);
        at := map t | t in at && t in s'.procs :: at[t];
      }
    }
  }

  /** Every returned call is the call of one Begin, with the limit that was passed there, and no two are
      of the same. */
  lemma ResultsBelongToCalls(acts: seq<Action>) returns (of: seq<nat>)
    requires After(acts).Some?
    ensures |of| == |After(acts).value.log|
    ensures forall i :: 0 <= i < |of| ==>
              of[i] < |acts| && acts[of[i]].Begin? && acts[of[i]].limit == After(acts).value.log[i].limit
    ensures forall i, j :: 0 <= i < j < |of| ==> of[i] != of[j]
  {
    var at;
    of, at := FindOrigins(acts);
  }

  // ---- A call that runs alone ----

  /** On an absent key: the call makes a counter of one hit that expires when the window is over. */
  lemma KeyOnAbsentKey(s: State, t: nat, limit: int, window: int) returns (s1: State, s2: State, s3: State, s4: State)
    requires t !in s.procs && s.cell.None?
    ensures Step(s, Begin(t, limit, window)) == Some(s1) && Step(s1, Incr(t)) == Some(s2)
    ensures Step(s2, Expire(t)) == Some(s3) && Step(s3, Return(t)) == Some(s4)
    ensures s4.cell == if window > 0 then Some(Cell(|s.issued|, 1, Some(s.now + window))) else None
    ensures s4.log == s.log + [Done(|s.issued|, 1, limit, 1 <= limit, true)]
    ensures s4.procs == s.procs && s4.now == s.now && s4.issued == s.issued + [1]
  {
    s1 := Step(s, Begin(t, limit, window)).value;
    s2 := Step(s1, Incr(t)).value;
    s3 := Step(s2, Expire(t)).value;
    s4 := Step(s3, Return(t)).value;
    assert s4.procs == s.procs;
  }

  /** On a counter with an expiry: one more hit, and the expiry stays as it is. */
  lemma KeyOnDatedCounter(s: State, t: nat, limit: int, window: int)
    returns (s1: State, s2: State, s3: State, s4: State)
    requires t !in s.procs && CellOk(s) && s.cell.Some? && s.cell.value.expiry.Some?
    ensures Step(s, Begin(t, limit, window)) == Some(s1) && Step(s1, Incr(t)) == Some(s2)
    ensures Step(s2, Ttl(t)) == Some(s3) && Step(s3, Return(t)) == Some(s4)
    ensures var c := s.cell.value;
      && s4.cell == Some(Cell(c.gen, c.count + 1, c.expiry))
      && s4.log == s.log + [Done(c.gen, c.count + 1, limit, c.count + 1 <= limit, true)]
    ensures s4.procs == s.procs && s4.now == s.now
  {
    s1 := Step(s, Begin(t, limit, window)).value;
    s2 := Step(s1, Incr(t)).value;
    s3 := Step(s2, Ttl(t)).value;
    s4 := Step(s3, Return(t)).value;
    assert s4.procs == s.procs;
  }

  /** On a counter whose creator died before its EXPIRE: one more hit, and the expiry is repaired. */
  lemma KeyOnUndatedCounter(s: State, t: nat, limit: int, window: int)
    returns (s1: State, s2: State, s3: State, s4: State, s5: State)
    requires t !in s.procs && CellOk(s) && s.cell.Some? && s.cell.value.expiry.None?
    ensures Step(s, Begin(t, limit, window)) == Some(s1) && Step(s1, Incr(t)) == Some(s2)
    ensures Step(s2, Ttl(t)) == Some(s3) && Step(s3, Expire(t)) == Some(s4) && Step(s4, Return(t)) == Some(s5)
    ensures var c := s.cell.value;
      && s5.cell == (if window > 0 then Some(Cell(c.gen, c.count + 1, Some(s.now + window))) else None)
      && s5.log == s.log + [Done(c.gen, c.count + 1, limit, c.count + 1 <= limit, true)]
    ensures s5.procs == s.procs && s5.now == s.now
  {
    s1 := Step(s, Begin(t, limit, window)).value;
    s2 := Step(s1, Incr(t)).value;
    s3 := Step(s2, Ttl(t)).value;
    s4 := Step(s3, Expire(t)).value;
    s5 := Step(s4, Return(t)).value;
    assert s5.procs == s.procs;
  }

  /** A counter is there until its expiry, and gone from then on. */
  lemma ExpiryIsKept(s: State, d: nat)
    requires CellOk(s) && s.cell.Some?
    ensures Step(s, Tick(d)).Some? && Step(s, Tick(d)).value.now == s.now + d
    ensures Step(s, Tick(d)).value.cell ==
      if s.cell.value.expiry.Some? && s.cell.value.expiry.value <= s.now + d then None else s.cell
  {
  }

  // ---- All calls on one counter ----

  /** The calls that returned from a counter, and those of them that returned nil. */
  function ReturnedFrom(log: seq<Done>, gen: nat): set<int> { Places(log, (d: Done) => d.gen == gen) }

  function PassedBy(log: seq<Done>, gen: nat): set<int> { Places(log, (d: Done) => d.gen == gen && d.ok) }

  lemma {:induction false} Sizes(log: seq<Done>, gen: nat)
    ensures |ReturnedFrom(log, gen)| == Returned(log, gen, false)
    ensures |PassedBy(log, gen)| == Returned(log, gen, true)
  {
    if log != [] {
      var front, last := log[..|log| - 1], log[|log| - 1];
      Sizes(front, gen);
      PlacesSnoc(front, last, (d: Done) => d.gen == gen);
      PlacesSnoc(front, last, (d: Done) => d.gen == gen && d.ok);
      assert front + [last] == log;
    }
  }

  /** During the life of one counter at most `limit` calls return nil, whatever crashes or fails, if no
      caller passes more than `limit`. */
  lemma PassedAtMostLimit(acts: seq<Action>, gen: nat, limit: int)
    requires After(acts).Some?
    requires forall j :: 0 <= j < |acts| && acts[j].Begin? ==> acts[j].limit <= limit
    ensures |PassedBy(After(acts).value.log, gen)| <= Max(limit, 0)
  {
    Reachable(acts);
    var log := After(acts).value.log;
    var of := ResultsBelongToCalls(acts);
    DistinctCounts(log, gen, true);
    forall i | 0 <= i < |log| && Answers(log[i], gen, true) ensures log[i].count as int in UpTo(limit) {
      assert DoneOk(After(acts).value, log[i]);
      assert acts[of[i]].limit == log[i].limit;
    }
    SubsetSize(CountsOf(log, gen, true), UpTo(limit));
    Sizes(log, gen);
  }

  /** When every call that incremented a counter has returned, and all passed `limit`, exactly
      min(hits, limit) of them returned nil. */
  lemma ExactWhenAllReturned(acts: seq<Action>, gen: nat, limit: int)
    requires After(acts).Some? && gen < |After(acts).value.issued|
    requires forall j :: 0 <= j < |acts| && acts[j].Begin? ==> acts[j].limit == limit
    requires |ReturnedFrom(After(acts).value.log, gen)| == After(acts).value.issued[gen]
    ensures |PassedBy(After(acts).value.log, gen)| == Min(After(acts).value.issued[gen], Max(limit, 0))
  {
    Reachable(acts);
    var s := After(acts).value;
    var log, n := s.log, s.issued[gen];
    Sizes(log, gen);
    AllCountsReturned(s, gen);
    DistinctCounts(log, gen, true);
    var of := ResultsBelongToCalls(acts);
    var least := UpTo(Min(n, Max(limit, 0)));
    forall x | x in least ensures x in CountsOf(log, gen, true) {
      assert x in CountsOf(log, gen, false);
      var i :| 0 <= i < |log| && Answers(log[i], gen, false) && log[i].count as int == x;
      assert DoneOk(s, log[i]) && acts[of[i]].limit == log[i].limit;
    }
    forall x | x in CountsOf(log, gen, true) ensures x in least {
      var i :| 0 <= i < |log| && Answers(log[i], gen, true) && log[i].count as int == x;
      assert DoneOk(s, log[i]) && acts[of[i]].limit == log[i].limit;
    }
    assert CountsOf(log, gen, true) == least;
  }

  /** `issued` counts the INCR commands that reached each counter. */
  lemma IncrReaches(s: State, t: nat)
    requires CellOk(s) && Step(s, Incr(t)).Some?
    ensures var s' := Step(s, Incr(t)).value;
      && s'.cell.Some?
      && (s.cell.Some? ==> s'.cell == Some(s.cell.value.(count := s.cell.value.count + 1)))
      && (s.cell.None? ==> s'.cell == Some(Cell(|s.issued|, 1, None)))
      && s'.issued[s'.cell.value.gen] == s'.cell.value.count
      && (forall g :: 0 <= g < |s.issued| && s.cell != None && g != s.cell.value.gen ==> s'.issued[g] == s.issued[g])
      && (!s'.procs[t].AtIncr? && s'.procs[t].gen == s'.cell.value.gen && s'.procs[t].count == s'.cell.value.count)
  {
  }

  // ---- Failures ----

  /** A failed INCR ends the call, and may have counted all the same. */
  lemma FailedIncr(s: State, t: nat)
    requires t in s.procs && s.procs[t].AtIncr?
    ensures Step(s, IncrFail(t, false)) == Some(s.(procs := s.procs - {t}))
    ensures Step(s, IncrFail(t, true)).Some?
    ensures var s', s'' := Step(s, IncrFail(t, true)).value, Step(s, Incr(t)).value;
      s'.cell == s''.cell && s'.issued == s''.issued && s'.procs == s.procs - {t} && s'.log == s.log && s'.now == s.now
  {
  }

  /** Each command is sent at its own place in the code and nowhere else. */
  lemma CommandsInPlace(s: State, t: nat, applied: bool)
    ensures Step(s, Incr(t)).Some? <==> t in s.procs && s.procs[t].AtIncr?
    ensures Step(s, IncrFail(t, applied)).Some? <==> t in s.procs && s.procs[t].AtIncr?
    ensures Step(s, Ttl(t)).Some? <==> t in s.procs && s.procs[t].AtTtl?
    ensures Step(s, TtlFail(t)).Some? <==> t in s.procs && s.procs[t].AtTtl?
    ensures Step(s, Expire(t)).Some? <==> t in s.procs && s.procs[t].AtExpire?
    ensures Step(s, ExpireFail(t, applied)).Some? <==> t in s.procs && s.procs[t].AtExpire?
    ensures Step(s, Return(t)).Some? <==> t in s.procs && s.procs[t].AtReturn?
  {
  }

  /** A failed TTL or EXPIRE does not end the call; the EXPIRE may have been applied all the same. */
  lemma FailedTtlAndExpire(s: State, t: nat)
    requires t in s.procs
    ensures s.procs[t].AtTtl? ==> Step(s, TtlFail(t)) == Some(s.(procs := s.procs[t := Unclean(s.procs[t])]))
    ensures s.procs[t].AtExpire? ==>
      Step(s, ExpireFail(t, false)) == Some(s.(procs := s.procs[t := Unclean(s.procs[t])]))
    ensures s.procs[t].AtExpire? ==> Step(s, ExpireFail(t, true)).Some? && Step(s, Expire(t)).Some?
    ensures s.procs[t].AtExpire? ==>
      var s', s'' := Step(s, ExpireFail(t, true)).value, Step(s, Expire(t)).value;
      s'.cell == s''.cell && s'.procs == s.procs[t := Unclean(s.procs[t])] && s'.log == s.log && s'.now == s.now
  {
  }

  function Unclean(pc: Pc): Pc
    requires pc.AtTtl? || pc.AtExpire?
  {
    AtReturn(pc.limit, pc.window, pc.gen, pc.count, false)
  }

  /** A process may die at any point, and the key may be evicted at any time. */
  lemma CrashAndEviction(s: State, t: nat)
    ensures t in s.procs ==> Step(s, Crash(t)) == Some(s.(procs := s.procs - {t}))
    ensures t !in s.procs ==> Step(s, Crash(t)).None?
    ensures t in s.procs ==> forall limit, window :: Step(s, Begin(t, limit, window)).None?
    ensures Step(s, Evict) == Some(s.(cell := None))
  {
  }
}
