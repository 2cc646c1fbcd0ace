/** backend/ratelimit/limit.go, `allow`, as its callers see it: what a call passed, what it gets when it
    runs alone, and what all calls together get under any interleaving. */
module LimiterCalls {
  import opened Runs
  import opened LocalLimiter

  // ---- Which call a hit belongs to ----

  /** Action j begins this call, and the call started at the time of that action. */
  ghost predicate Begun(acts: seq<Action>, j: nat, call: Call) {
    && j < |acts| && acts[j].Begin? && acts[j].key == call.key && acts[j].limit == call.limit
    && After(acts[..j]).Some? && call.start == After(acts[..j]).value.now
  }

  /** `of` and `at` give the beginnings of the logged hits and of the calls on the way, all different. */
  ghost predicate Origins(acts: seq<Action>, s: State, of: seq<nat>, at: map<nat, nat>) {
    && |of| == |s.log| && at.Keys == s.gos.Keys
    && (forall i :: 0 <= i < |of| ==> Begun(acts, of[i], s.log[i].call))
    && (forall t :: t in at ==> Begun(acts, at[t], s.gos[t].call) && acts[at[t]].t == t)
    && (forall i, j :: 0 <= i < j < |of| ==> of[i] != of[j])
    && (forall i, t :: 0 <= i < |of| && t in at ==> of[i] != at[t])
  }

  lemma BegunLonger(acts: seq<Action>, a: Action, j: nat, call: Call)
    requires Begun(acts, j, call)
    ensures Begun(acts + [a], j, call)
  {
    assert (acts + [a])[..j] == acts[..j];
  }

  lemma OriginsLonger(acts: seq<Action>, a: Action, s: State, of: seq<nat>, at: map<nat, nat>)
    requires Origins(acts, s, of, at)
    ensures Origins(acts + [a], s, of, at)
  {
    forall i | 0 <= i < |of| ensures Begun(acts + [a], of[i], s.log[i].call) {
      BegunLonger(acts, a, of[i], s.log[i].call);
    }
    forall t | t in at ensures Begun(acts + [a], at[t], s.gos[t].call) && (acts + [a])[at[t]].t == t {
      BegunLonger(acts, a, at[t], s.gos[t].call);
    }
  }

  /** A goroutine keeps its call from one step to the next. */
  lemma CallKept(s: State, a: Action)
    requires Step(s, a).Some?
    ensures var s' := Step(s, a).value;
      && (!a.Begin? && !a.Add? ==> s'.gos.Keys == s.gos.Keys && s'.log == s.log)
      && (a.Begin? ==> a.t !in s.gos && s'.gos.Keys == s.gos.Keys + {a.t} && s'.log == s.log)
      && (a.Begin? ==> s'.gos[a.t].call == Call(a.key, a.limit, s.now))
      && (a.Add? ==> a.t in s.gos && s'.gos.Keys == s.gos.Keys - {a.t})
      && (a.Add? ==> |s'.log| == |s.log| + 1 && s'.log[..|s.log|] == s.log && s'.log[|s.log|].call == s.gos[a.t].call)
      && (forall t :: t in s.gos && t in s'.gos ==> s'.gos[t].call == s.gos[t].call)
  {
  }

  /** How the beginnings are carried over a step. */
  lemma OriginsBegin(acts: seq<Action>, s: State, a: Action, of: seq<nat>, at: map<nat, nat>)
    requires Origins(acts, s, of, at) && After(acts) == Some(s) && a.Begin? && Step(s, a).Some?
    ensures Origins(acts + [a], Step(s, a).value, of, at[a.t := |acts|])
  {
    OriginsLonger(acts, a, s, of, at);
    CallKept(s, a);
    assert (acts + [a])[..|acts|] == acts;
    assert Begun(acts + [a], |acts|, Step(s, a).value.gos[a.t].call);
    forall i | 0 <= i < |of| ensures of[i] < |acts| {
      assert Begun(acts, of[i], s.log[i].call);
    }
  }

  lemma OriginsAdd(acts: seq<Action>, s: State, a: Action, of: seq<nat>, at: map<nat, nat>)
    requires Origins(acts, s, of, at) && a.Add? && Step(s, a).Some?
    ensures a.t in at && Origins(acts + [a], Step(s, a).value, of + [at[a.t]], at - {a.t})
  {
    OriginsLonger(acts, a, s, of, at);
    CallKept(s, a);
    var s', of' := Step(s, a).value, of + [at[a.t]];
    forall i | 0 <= i < |of'| ensures Begun(acts + [a], of'[i], s'.log[i].call) {
      if i < |of| {
        assert s'.log[..|s.log|][i] == s.log[i];
      }
    }
    forall t | t in at && t != a.t ensures at[t] != at[a.t] {
      assert acts[at[t]].t == t && acts[at[a.t]].t == a.t;
    }
  }

  lemma OriginsElse(acts: seq<Action>, s: State, a: Action, of: seq<nat>, at: map<nat, nat>)
    requires Origins(acts, s, of, at) && !a.Begin? && !a.Add? && Step(s, a).Some?
    ensures Origins(acts + [a], Step(s, a).value, of, at)
  {
    OriginsLonger(acts, a, s, of, at);
    CallKept(s, a);
  }

  lemma {:induction false} FindOrigins(acts: seq<Action>) returns (of: seq<nat>, at: map<nat, nat>)
    requires After(acts).Some?
    ensures Origins(acts, After(acts).value, of, at)
  {
    if acts == [] {
      of, at := [], map[];
    } else {
      var front, a := acts[..|acts| - 1], acts[|acts| - 1];
      var s := After(front).value;
      of, at := FindOrigins(front);
      assert front + [a] == acts;
      if a.Begin? {
        OriginsBegin(front, s, a, of, at);
        at := at[a.t := |front|];
      } else if a.Add? {
        OriginsAdd(front, s, a, of, at);
        of, at := of + [at[a.t]], at - {a.t};
      } else {
        OriginsElse(front, s, a, of, at);
      }
    }
  }

  /** Every finished call is the call of one Begin, with the key and the limit that were passed there
      and the time of it, and no two are of the same. */
  lemma HitsBelongToCalls(acts: seq<Action>) returns (of: seq<nat>)
    requires After(acts).Some?
    ensures |of| == |After(acts).value.log|
    ensures forall i :: 0 <= i < |of| ==> Begun(acts, of[i], After(acts).value.log[i].call)
    ensures forall i, j :: 0 <= i < j < |of| ==> of[i] != of[j]
  {
    var at;
    of, at := FindOrigins(acts);
  }

  lemma LimitsPassed(acts: seq<Action>, key: string, limit: int)
    requires After(acts).Some?
    requires forall j :: 0 <= j < |acts| && acts[j].Begin? && acts[j].key == key ==> acts[j].limit <= limit
    ensures forall i :: 0 <= i < |After(acts).value.log| && After(acts).value.log[i].call.key == key ==>
              After(acts).value.log[i].call.limit <= limit
  {
    var of := HitsBelongToCalls(acts);
    forall i | 0 <= i < |of| && After(acts).value.log[i].call.key == key
      ensures After(acts).value.log[i].call.limit <= limit
    {
      assert Begun(acts, of[i], After(acts).value.log[i].call);
    }
  }

  // ---- A call that runs alone ----

  /** While a counter is live, a call that runs alone hits it, and is admitted if its hit is within the
      limit that was passed. */
  lemma AllowOnLiveCounter(s: State, t: nat, key: string, limit: int) returns (s1: State, s2: State, s3: State)
    requires Inv(s) && t !in s.gos && key in s.cache && s.now < s.cache[key].expiry
    ensures Step(s, Begin(t, key, limit)) == Some(s1) && Step(s1, Get(t, true)) == Some(s2)
    ensures Step(s2, Add(t)) == Some(s3) && Step(s1, Get(t, false)).None?
    ensures var id, hits := s.cache[key].id, s.counters[s.cache[key].id].hits + 1;
      && s3.counters == s.counters[id := s.counters[id].(hits := hits)]
      && s3.log == s.log + [Hit(Call(key, limit, s.now), id, s.now, s.now, hits, hits <= limit)]
      && s3.cache == s.cache && s3.owner == s.owner && s3.gos == s.gos && s3.now == s.now
  {
    s1 := Step(s, Begin(t, key, limit)).value;
    s2 := Step(s1, Get(t, true)).value;
    s3 := Step(s2, Add(t)).value;
    assert s3.gos == s.gos;
  }

  /** The way of a call that runs alone to the point where it makes a counter. */
  lemma AllowUpToCreating(s: State, t: nat, key: string, limit: int)
    returns (s1: State, s2: State, s3: State, s4: State)
    requires Inv(s) && t !in s.gos && key !in s.owner && (key in s.cache ==> s.cache[key].expiry < s.now)
    ensures Step(s, Begin(t, key, limit)) == Some(s1)
    ensures Step(s1, Get(t, false)) == Some(s2) && Step(s1, Get(t, true)).None?
    ensures Step(s2, Acquire(t)) == Some(s3)
    ensures Step(s3, Recheck(t, false)) == Some(s4) && Step(s3, Recheck(t, true)).None?
    ensures s4 == s.(gos := s.gos[t := Creating(Call(key, limit, s.now))], owner := s.owner[key := t])
  {
    s1 := s.(gos := s.gos[t := Reading(Call(key, limit, s.now))]);
    s2 := s.(gos := s.gos[t := Waiting(Call(key, limit, s.now))]);
    s3 := s.(gos := s.gos[t := Rechecking(Call(key, limit, s.now))], owner := s.owner[key := t]);
    s4 := s.(gos := s.gos[t := Creating(Call(key, limit, s.now))], owner := s.owner[key := t]);
    assert s1.gos[t := s2.gos[t]] == s2.gos;
    assert s2.gos[t := s3.gos[t]] == s3.gos;
    assert s3.gos[t := s4.gos[t]] == s4.gos;
  }

  /** When the key has no counter, or one whose five minutes have passed, a call that runs alone makes a
      new one, hits it first, and is admitted if the limit is positive. */
  lemma AllowWithoutCounter(s: State, t: nat, key: string, limit: int) returns (s5: State, s6: State, s7: State)
    requires Inv(s) && t !in s.gos && key !in s.owner && (key in s.cache ==> s.cache[key].expiry < s.now)
    ensures var s4 := s.(gos := s.gos[t := Creating(Call(key, limit, s.now))], owner := s.owner[key := t]);
      Step(s4, Store(t)) == Some(s5) && Step(s5, Unlock(t)) == Some(s6) && Step(s6, Add(t)) == Some(s7)
    ensures s7.counters == s.counters + [Counter(key, s.now, 1)]
    ensures s7.cache == s.cache[key := Entry(|s.counters|, s.now + 300_000_000_000)]
    ensures s7.log == s.log + [Hit(Call(key, limit, s.now), |s.counters|, s.now, s.now, 1, 1 <= limit)]
    ensures s7.owner == s.owner && s7.gos == s.gos && s7.now == s.now
  {
    var s4 := s.(gos := s.gos[t := Creating(Call(key, limit, s.now))], owner := s.owner[key := t]);
    s5 := Step(s4, Store(t)).value;
    s6 := Step(s5, Unlock(t)).value;
    s7 := Step(s6, Add(t)).value;
    assert s7.gos == s.gos;
    assert s7.owner == s.owner;
  }

  /** At the very instant of expiry a look may find the counter or not; before, it finds it, and after,
      it does not. */
  lemma LooksAndSweeps(s: State, t: nat)
    requires t in s.gos && (s.gos[t].Reading? || s.gos[t].Rechecking?) && s.gos[t].call.key in s.cache
    ensures var found, missed := if s.gos[t].Reading? then Get(t, true) else Recheck(t, true),
                                 if s.gos[t].Reading? then Get(t, false) else Recheck(t, false);
      && (Step(s, found).Some? <==> s.now <= s.cache[s.gos[t].call.key].expiry)
      && (Step(s, missed).Some? <==> s.cache[s.gos[t].call.key].expiry <= s.now)
  {
  }

  /** The cache's own sweeper takes out what has expired, and nothing else. */
  lemma SweepTakesExpired(s: State, key: string)
    ensures Step(s, Sweep(key)).Some? <==> key in s.cache && s.cache[key].expiry <= s.now
    ensures Step(s, Sweep(key)).Some? ==> Step(s, Sweep(key)).value == s.(cache := s.cache - {key})
  {
  }

  /** A second look that finds the counter of another goroutine takes that one and frees the key. */
  lemma RecheckFinds(s: State, t: nat) returns (s1: State, s2: State)
    requires Inv(s) && t in s.gos && s.gos[t].Rechecking?
    requires s.gos[t].call.key in s.cache && s.now < s.cache[s.gos[t].call.key].expiry
    ensures Step(s, Recheck(t, true)) == Some(s1) && Step(s1, Unlock(t)) == Some(s2)
    ensures var c := s.gos[t].call;
      s2 == s.(owner := s.owner - {c.key}, gos := s.gos[t := Adding(c, s.cache[c.key].id, s.now)])
  {
    assert PcOk(s, t, s.gos[t]);
    s1 := Step(s, Recheck(t, true)).value;
    s2 := Step(s1, Unlock(t)).value;
    assert s2.gos == s.gos[t := Adding(s.gos[t].call, s.cache[s.gos[t].call.key].id, s.now)];
  }

  /** The time that the ticks of a run add up to. */
  function Elapsed(acts: seq<Action>): nat {
    if acts == [] then 0
    else Elapsed(acts[..|acts| - 1]) + if acts[|acts| - 1].Tick? then acts[|acts| - 1].d else 0
  }

  lemma {:induction false} Clock(acts: seq<Action>)
    requires After(acts).Some?
    ensures After(acts).value.now == Elapsed(acts)
  {
    if acts != [] {
      Clock(acts[..|acts| - 1]);
    }
  }

  // ---- All calls together ----

  /** The admitted calls on a key that fetched their counter in the five minutes from `from` on. */
  function AdmittedIn5Minutes(log: seq<Hit>, key: string, from: int): set<int> {
    Places(log, (h: Hit) => h.call.key == key && from <= h.fetched < from + 300_000_000_000 && h.admitted)
  }

  lemma {:induction false} AdmittedInSize(log: seq<Hit>, key: string, from: int)
    ensures |AdmittedIn5Minutes(log, key, from)| == AdmittedIn(log, key, from, from + WINDOW)
  {
    if log != [] {
      var front, last := log[..|log| - 1], log[|log| - 1];
      AdmittedInSize(front, key, from);
      var p := (h: Hit) => h.call.key == key && from <= h.fetched < from + 300_000_000_000 && h.admitted;
      PlacesSnoc(front, last, p);
      assert front + [last] == log;
    }
  }

  /** The fixed-window bound: if no caller passes more than `limit` for a key, then of the calls on it
      that fetched their counter within any five minutes at most 2 * limit are admitted. */
  lemma WindowBound(acts: seq<Action>, key: string, limit: int, from: int)
    requires After(acts).Some?
    requires forall j :: 0 <= j < |acts| && acts[j].Begin? && acts[j].key == key ==> acts[j].limit <= limit
    ensures |AdmittedIn5Minutes(After(acts).value.log, key, from)| <= 2 * Max(limit, 0)
  {
    Reachable(acts);
    ReachableCounted(acts);
    LimitsPassed(acts, key, limit);
    var s := After(acts).value;
    AdmittedInSize(s.log, key, from);
    if i :| 0 <= i < |s.log| && FetchedIn(s.log[i], key, from, from + WINDOW) {
      var x, y := TwoCountersPerWindow(s, key, from, i);
      AdmittedAtMostLimit(s, key, limit, x);
      AdmittedAtMostLimit(s, key, limit, y);
      AdmittedInPair(s.log, key, from, from + WINDOW, x, y);
    } else {
      NoneAdmittedIn(s.log, key, from, from + WINDOW);
    }
  }

  /** The admitted calls of a counter, and all of its calls. */
  function AdmittedOf(log: seq<Hit>, id: nat): set<int> { Places(log, (h: Hit) => h.id == id && h.admitted) }

  function HitsOf(log: seq<Hit>, id: nat): set<int> { Places(log, (h: Hit) => h.id == id) }

  lemma {:induction false} SizesOf(log: seq<Hit>, id: nat)
    ensures |AdmittedOf(log, id)| == AdmittedBy(log, id)
    ensures |HitsOf(log, id)| == HitsOn(log, id)
  {
    if log != [] {
      var front, last := log[..|log| - 1], log[|log| - 1];
      SizesOf(front, id);
      PlacesSnoc(front, last, (h: Hit) => h.id == id && h.admitted);
      PlacesSnoc(front, last, (h: Hit) => h.id == id);
      assert front + [last] == log;
    }
  }

  /** If all callers pass `limit` for the key of a counter, the counter admits exactly min(hits, limit)
      of its calls under any interleaving: no hit is lost and none is admitted past the limit. */
  lemma CounterAdmitsExactly(acts: seq<Action>, id: nat, limit: int)
    requires After(acts).Some? && id < |After(acts).value.counters|
    requires forall j :: 0 <= j < |acts| && acts[j].Begin? && acts[j].key == After(acts).value.counters[id].key ==>
               acts[j].limit == limit
    ensures var s := After(acts).value;
      && s.counters[id].hits == |HitsOf(s.log, id)|
      && |AdmittedOf(s.log, id)| == Min(|HitsOf(s.log, id)|, Max(limit, 0))
  {
    Reachable(acts);
    ReachableCounted(acts);
    var s := After(acts).value;
    var of := HitsBelongToCalls(acts);
    forall i | 0 <= i < |s.log| && s.log[i].id == id ensures s.log[i].call.limit == limit {
      assert HitOk(s, i);
      assert Begun(acts, of[i], s.log[i].call);
    }
    AdmitsMin(s.log, id, limit);
    SizesOf(s.log, id);
  }

  /** The calls on a key that fetched their counter within five minutes of `from`. */
  function CallsIn5Minutes(log: seq<Hit>, key: string, from: int): set<int> {
    set i | 0 <= i < |log| && log[i].call.key == key && from <= log[i].fetched <= from + 300_000_000_000
  }

  /** The limiter refuses nobody without cause: when call `i` is refused, more than its limit of calls
      on its key, itself included, fetched their counter within five minutes, so a client that keeps
      within the limit is never refused, however long it was refused before. */
  lemma RefusalHasCause(acts: seq<Action>, i: nat)
    requires After(acts).Some? && i < |After(acts).value.log| && !After(acts).value.log[i].admitted
    ensures var s, h := After(acts).value, After(acts).value.log[i];
      && h.id < |s.counters|
      && i in CallsIn5Minutes(s.log[..i + 1], h.call.key, s.counters[h.id].created)
      && |CallsIn5Minutes(s.log[..i + 1], h.call.key, s.counters[h.id].created)| > h.call.limit
  {
    Reachable(acts);
    var s := After(acts).value;
    var h := s.log[i];
    assert HitOk(s, i);
    var upto := s.log[..i + 1];
    var calls := CallsIn5Minutes(upto, h.call.key, s.counters[h.id].created);
    forall k | k in HitsOf(upto, h.id) ensures k in calls {
      assert HitOk(s, k);
    }
    SizesOf(upto, h.id);
    SubsetSize(HitsOf(upto, h.id), calls);
  }

  /** A goroutine makes one call at a time, and waits while another holds its key. */
  lemma OneCallAtATime(s: State, t: nat, key: string, limit: int)
    ensures t in s.gos ==> Step(s, Begin(t, key, limit)).None?
    ensures t in s.gos && s.gos[t].Waiting? ==> (Step(s, Acquire(t)).Some? <==> s.gos[t].call.key !in s.owner)
  {
  }
}
