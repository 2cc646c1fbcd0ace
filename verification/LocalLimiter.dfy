/** backend/ratelimit/limit.go, `allow`: the per-process fixed-window limiter.

    Any number of goroutines call `allow` on any keys; an action is one atomic access to the shared
    cache, to the keyed mutex or to a counter, and time may pass between any two of them.
    Counters live in a heap (`counters`), the cache maps a key to a counter and its expiry. */
module LocalLimiter {
  import opened Runs
  import KeyedLock

  /** Five minutes in nanoseconds. */
  const WINDOW: int := 5 * 60 * 1_000_000_000

  datatype Call = Call(key: string, limit: int, start: int)

  /** Where a goroutine stands inside `allow`. */
  datatype Pc =
    | Reading(call: Call)
    | Waiting(call: Call)
    | Rechecking(call: Call)
    | Creating(call: Call)
    | Unlocking(call: Call, id: nat, fetched: int)
    | Adding(call: Call, id: nat, fetched: int)

  datatype Counter = Counter(key: string, created: int, hits: int)

  datatype Entry = Entry(id: nat, expiry: int)

  /** A finished call: the counter it hit, when it fetched it, and the answer. */
  datatype Hit = Hit(call: Call, id: nat, fetched: int, at: int, count: int, admitted: bool)

  datatype State = State(
    now: int,
    cache: map<string, Entry>,
    counters: seq<Counter>,
    owner: map<string, nat>,
    gos: map<nat, Pc>,
    log: seq<Hit>)

  datatype Action =
    | Tick(d: nat)
    | Sweep(key: string)
    | Begin(t: nat, key: string, limit: int)
    | Get(t: nat, found: bool)
    | Acquire(t: nat)
    | Recheck(t: nat, found: bool)
    | Store(t: nat)
    | Unlock(t: nat)
    | Add(t: nat)

  const Init := State(0, map[], [], map[], map[], [])

  /** The cache treats an expired entry as absent. At the very instant of expiry both answers are
      allowed, so that nothing below depends on how the library breaks that tie. */
  predicate Sees(s: State, key: string, found: bool) {
    if found then key in s.cache && s.now <= s.cache[key].expiry
    else key !in s.cache || s.cache[key].expiry <= s.now
  }

  function Step(s: State, a: Action): Option<State> {
    match a
    case Tick(d) => Some(s.(now := s.now + d))
    case Sweep(k) =>
      if k in s.cache && s.cache[k].expiry <= s.now then Some(s.(cache := s.cache - {k})) else None
    case Begin(t, key, limit) =>
      if t in s.gos then None
      else Some(s.(gos := s.gos[t := Reading(Call(key, limit, s.now))]))
    case Get(t, found) =>
      if t in s.gos && s.gos[t].Reading? && Sees(s, s.gos[t].call.key, found) then
        var c := s.gos[t].call;
        Some(s.(gos := s.gos[t := if found then Adding(c, s.cache[c.key].id, s.now) else Waiting(c)]))
      else None
    case Acquire(t) =>
      if t in s.gos && s.gos[t].Waiting? && s.gos[t].call.key !in s.owner then
        var c := s.gos[t].call;
        Some(s.(owner := s.owner[c.key := t], gos := s.gos[t := Rechecking(c)]))
      else None
    case Recheck(t, found) =>
      if t in s.gos && s.gos[t].Rechecking? && Sees(s, s.gos[t].call.key, found) then
        var c := s.gos[t].call;
        Some(s.(gos := s.gos[t := if found then Unlocking(c, s.cache[c.key].id, s.now) else Creating(c)]))
      else None
    case Store(t) =>
      if t in s.gos && s.gos[t].Creating? then
        var c := s.gos[t].call;
        var id := |s.counters|;
        Some(s.(counters := s.counters + [Counter(c.key, s.now, 0)],
                cache := s.cache[c.key := Entry(id, s.now + WINDOW)],
                gos := s.gos[t := Unlocking(c, id, s.now)]))
      else None
    case Unlock(t) =>
      if t in s.gos && s.gos[t].Unlocking? then
        var Unlocking(c, id, fetched) := s.gos[t];
        Some(s.(owner := s.owner - {c.key}, gos := s.gos[t := Adding(c, id, fetched)]))
      else None
    case Add(t) =>
      if t in s.gos && s.gos[t].Adding? && s.gos[t].id < |s.counters| then
        var Adding(c, id, fetched) := s.gos[t];
        var n := s.counters[id].hits + 1;
        Some(s.(counters := s.counters[id := s.counters[id].(hits := n)],
                gos := s.gos - {t},
                log := s.log + [Hit(c, id, fetched, s.now, n, n <= c.limit)]))
      else None
  }

  function After(acts: seq<Action>): Option<State> { Run(Init, Step, acts) }

  /** The number of finished calls that hit counter `id`. */
  function HitsOn(log: seq<Hit>, id: nat): nat {
    if |log| == 0 then 0
    else HitsOn(log[..|log| - 1], id) + if log[|log| - 1].id == id then 1 else 0
  }

  /** The number of finished calls that counter `id` admitted. */
  function AdmittedBy(log: seq<Hit>, id: nat): nat {
    if |log| == 0 then 0
    else AdmittedBy(log[..|log| - 1], id) + if log[|log| - 1].id == id && log[|log| - 1].admitted then 1 else 0
  }

  predicate FetchedIn(h: Hit, key: string, from: int, to: int) {
    h.call.key == key && from <= h.fetched < to
  }

  /** The number of admitted calls on `key` that fetched their counter in [from, to). */
  function AdmittedIn(log: seq<Hit>, key: string, from: int, to: int): nat {
    if |log| == 0 then 0
    else
      AdmittedIn(log[..|log| - 1], key, from, to)
      + if FetchedIn(log[|log| - 1], key, from, to) && log[|log| - 1].admitted then 1 else 0
  }

  // ---- The invariant ----

  /** Counter `id` was created for the key of `c` and was live when fetched, within the call. */
  ghost predicate LiveWhenFetched(s: State, c: Call, id: nat, fetched: int) {
    && id < |s.counters|
    && s.counters[id].key == c.key
    && s.counters[id].created <= fetched <= s.counters[id].created + WINDOW
    && c.start <= fetched <= s.now
  }

  ghost predicate CountersSpaced(s: State) {
    && (forall i :: 0 <= i < |s.counters| ==> s.counters[i].created <= s.now)
    && (forall i, j :: 0 <= i < j < |s.counters| && s.counters[i].key == s.counters[j].key ==>
          s.counters[i].created + WINDOW <= s.counters[j].created)
  }

  ghost predicate CacheCurrent(s: State) {
    && (forall k :: k in s.cache ==>
          && s.cache[k].id < |s.counters|
          && s.counters[s.cache[k].id].key == k
          && s.cache[k].expiry == s.counters[s.cache[k].id].created + WINDOW)
    && (forall i :: 0 <= i < |s.counters| ==>
          || s.counters[i].created + WINDOW <= s.now
          || (s.counters[i].key in s.cache && s.cache[s.counters[i].key].id == i))
  }

  ghost predicate Owns(s: State, t: nat, c: Call) {
    c.key in s.owner && s.owner[c.key] == t
  }

  ghost predicate PcOk(s: State, t: nat, pc: Pc) {
    && pc.call.start <= s.now
    && match pc {
         case Reading(_) => true
         case Waiting(_) => true
         case Rechecking(c) => Owns(s, t, c)
         case Creating(c) => Owns(s, t, c) && (c.key in s.cache ==> s.cache[c.key].expiry <= s.now)
         case Unlocking(c, id, fetched) => Owns(s, t, c) && LiveWhenFetched(s, c, id, fetched)
         case Adding(c, id, fetched) => LiveWhenFetched(s, c, id, fetched)
       }
  }

  ghost predicate PcsOk(s: State) {
    forall t :: t in s.gos ==> PcOk(s, t, s.gos[t])
  }

  ghost predicate HitOk(s: State, i: nat)
    requires i < |s.log|
  {
    var h := s.log[i];
    && LiveWhenFetched(s, h.call, h.id, h.fetched)
    && h.fetched <= h.at <= s.now
    && h.count == HitsOn(s.log[..i + 1], h.id)
    && h.admitted == (h.count <= h.call.limit)
  }

  ghost predicate LogOk(s: State) {
    && (forall i :: 0 <= i < |s.log| ==> HitOk(s, i))
    && (forall id :: 0 <= id < |s.counters| ==> s.counters[id].hits == HitsOn(s.log, id))
    && (forall i :: 0 <= i < |s.log| ==> s.log[i].id < |s.counters|)
  }

  ghost predicate Inv(s: State) {
    CountersSpaced(s) && CacheCurrent(s) && PcsOk(s) && LogOk(s)
  }

  lemma HitsOnAbsent(log: seq<Hit>, id: nat)
    requires forall i :: 0 <= i < |log| ==> log[i].id != id
    ensures HitsOn(log, id) == 0
  {
  }

  lemma LogKept(s: State, s': State)
    requires LogOk(s) && s'.log == s.log && s.now <= s'.now
    requires |s.counters| <= |s'.counters|
    requires forall i :: 0 <= i < |s.counters| ==> s'.counters[i] == s.counters[i]
    requires forall i :: |s.counters| <= i < |s'.counters| ==> s'.counters[i].hits == 0
    ensures LogOk(s')
  {
    forall i | 0 <= i < |s'.log| ensures HitOk(s', i) {
      assert HitOk(s, i);
    }
    forall id | 0 <= id < |s'.counters| ensures s'.counters[id].hits == HitsOn(s'.log, id) {
      if id >= |s.counters| {
        HitsOnAbsent(s.log, id);
      }
    }
  }

  /** What a step must leave alone for the facts about another goroutine to stay true. */
  ghost predicate Undisturbed(s: State, s': State, t: nat, c: Call) {
    && s.now <= s'.now
    && |s.counters| <= |s'.counters|
    && (forall i :: 0 <= i < |s.counters| ==>
          s'.counters[i].key == s.counters[i].key && s'.counters[i].created == s.counters[i].created)
    && (Owns(s, t, c) ==>
          Owns(s', t, c) && (c.key in s'.cache ==> c.key in s.cache && s'.cache[c.key] == s.cache[c.key]))
  }

  lemma OtherKept(s: State, s': State, t: nat, pc: Pc)
    requires PcOk(s, t, pc) && Undisturbed(s, s', t, pc.call)
    ensures PcOk(s', t, pc)
  {
  }

  lemma StoreKeepsCounters(s: State, t: nat)
    requires Inv(s) && Step(s, Store(t)).Some?
    ensures CountersSpaced(Step(s, Store(t)).value) && CacheCurrent(Step(s, Store(t)).value)
  {
    assert PcOk(s, t, s.gos[t]);
  }

  lemma StoreKeepsInv(s: State, t: nat)
    requires Inv(s) && Step(s, Store(t)).Some?
    ensures Inv(Step(s, Store(t)).value)
  {
    var s' := Step(s, Store(t)).value;
    StoreKeepsCounters(s, t);
    LogKept(s, s');
    assert PcOk(s, t, s.gos[t]);
    forall u | u in s'.gos ensures PcOk(s', u, s'.gos[u]) {
      if u != t { OtherKept(s, s', u, s.gos[u]); }
    }
  }

  lemma AddKeepsLog(s: State, t: nat)
    requires Inv(s) && Step(s, Add(t)).Some?
    ensures LogOk(Step(s, Add(t)).value)
  {
    var s' := Step(s, Add(t)).value;
    assert s'.log[..|s'.log| - 1] == s.log;
    forall i | 0 <= i < |s'.log| ensures HitOk(s', i) {
      if i < |s.log| {
        OldHitKept(s, t, i);
      } else {
        NewHitOk(s, t);
      }
    }
  }

  lemma OldHitKept(s: State, t: nat, i: nat)
    requires Inv(s) && Step(s, Add(t)).Some? && i < |s.log|
    ensures HitOk(Step(s, Add(t)).value, i)
  {
    var s' := Step(s, Add(t)).value;
    assert HitOk(s, i);
    assert s'.log[..i + 1] == s.log[..i + 1];
  }

  lemma NewHitOk(s: State, t: nat)
    requires Inv(s) && Step(s, Add(t)).Some?
    ensures HitOk(Step(s, Add(t)).value, |s.log|)
  {
    var s' := Step(s, Add(t)).value;
    assert PcOk(s, t, s.gos[t]);
    assert s'.log[..|s.log| + 1] == s'.log;
    assert s'.log[..|s'.log| - 1] == s.log;
  }

  lemma AddKeepsInv(s: State, t: nat)
    requires Inv(s) && Step(s, Add(t)).Some?
    ensures Inv(Step(s, Add(t)).value)
  {
    var s' := Step(s, Add(t)).value;
    AddKeepsLog(s, t);
    forall u | u in s'.gos ensures PcOk(s', u, s'.gos[u]) {
      OtherKept(s, s', u, s.gos[u]);
    }
  }

  /** The steps that touch no counter: the acting goroutine moves on. */
  lemma QuietActorKept(s: State, a: Action)
    requires Inv(s) && !a.Tick? && !a.Sweep? && !a.Store? && !a.Add? && Step(s, a).Some?
    ensures PcOk(Step(s, a).value, a.t, Step(s, a).value.gos[a.t])
  {
    if a.t in s.gos {
      assert PcOk(s, a.t, s.gos[a.t]);
    }
  }

  lemma QuietStepKeepsPcs(s: State, a: Action)
    requires Inv(s) && !a.Store? && !a.Add? && Step(s, a).Some?
    ensures PcsOk(Step(s, a).value)
  {
    var s' := Step(s, a).value;
    forall u | u in s'.gos ensures PcOk(s', u, s'.gos[u]) {
      if !a.Tick? && !a.Sweep? && u == a.t {
        QuietActorKept(s, a);
      } else {
        if a.Unlock? { assert PcOk(s, a.t, s.gos[a.t]); }
        OtherKept(s, s', u, s.gos[u]);
      }
    }
  }

  lemma QuietStepKeepsCounters(s: State, a: Action)
    requires Inv(s) && !a.Store? && !a.Add? && Step(s, a).Some?
    ensures CountersSpaced(Step(s, a).value) && CacheCurrent(Step(s, a).value)
  {
  }

  lemma StepKeepsInv(s: State, a: Action)
    requires Inv(s) && Step(s, a).Some?
    ensures Inv(Step(s, a).value)
  {
    match a
    case Store(t) => StoreKeepsInv(s, t);
    case Add(t) => AddKeepsInv(s, t);
    case _ =>
      QuietStepKeepsPcs(s, a);
      QuietStepKeepsCounters(s, a);
      LogKept(s, Step(s, a).value);
  }

  lemma Reachable(acts: seq<Action>)
    requires After(acts).Some?
    ensures Inv(After(acts).value)
  {
    forall s, a | Inv(s) && Step(s, a).Some? ensures Inv(Step(s, a).value) {
      StepKeepsInv(s, a);
    }
    Invariance(Init, Step, acts, s => Inv(s));
  }

  // ---- Results over every run ----

  /** No step except the passing of time takes away a live counter or moves its expiry; in particular
      neither a refused hit nor a racing creation does. */
  lemma LiveCounterKept(acts: seq<Action>, a: Action, key: string)
    requires After(acts).Some? && Step(After(acts).value, a).Some?
    requires key in After(acts).value.cache
    requires Step(After(acts).value, a).value.now < After(acts).value.cache[key].expiry
    ensures key in Step(After(acts).value, a).value.cache
    ensures Step(After(acts).value, a).value.cache[key] == After(acts).value.cache[key]
  {
    Reachable(acts);
    var s := After(acts).value;
    if a.Store? {
      assert PcOk(s, a.t, s.gos[a.t]);
    }
  }

  /** The limiter uses the mutex as KeyedLock provides it: it takes a key that is free, frees a key its
      own goroutine holds, and touches no owner otherwise. */
  lemma FollowsKeyedMutex(acts: seq<Action>, a: Action)
    requires After(acts).Some? && Step(After(acts).value, a).Some?
    ensures var s, s' := After(acts).value, Step(After(acts).value, a).value;
      match a {
        case Acquire(t) =>
          t in s.gos && KeyedLock.AbstractStep(s.owner, s'.owner, KeyedLock.LockMu(t), s.gos[t].call.key)
        case Unlock(t) =>
          t in s.gos && KeyedLock.AbstractStep(s.owner, s'.owner, KeyedLock.UnlockMu(t), s.gos[t].call.key)
        case _ => s'.owner == s.owner
      }
  {
    Reachable(acts);
    if a.Unlock? {
      assert PcOk(After(acts).value, a.t, After(acts).value.gos[a.t]);
    }
  }

  /** Every hit lands on a counter of its own key that was live when the call fetched it, inside the
      call. */
  lemma HitsLandOnLiveCounters(acts: seq<Action>, i: nat)
    requires After(acts).Some? && i < |After(acts).value.log|
    ensures var s, h := After(acts).value, After(acts).value.log[i];
      && h.id < |s.counters| && s.counters[h.id].key == h.call.key
      && s.counters[h.id].created <= h.fetched <= s.counters[h.id].created + 300_000_000_000
      && h.call.start <= h.fetched <= h.at
  {
    Reachable(acts);
    assert HitOk(After(acts).value, i);
  }

  lemma CreationsAWindowApart(acts: seq<Action>, i: nat, j: nat)
    requires After(acts).Some? && i < j < |After(acts).value.counters|
    requires After(acts).value.counters[i].key == After(acts).value.counters[j].key
    ensures After(acts).value.counters[i].created + 300_000_000_000 <= After(acts).value.counters[j].created
  {
    Reachable(acts);
  }

  /** The counts read on each counter are 1, 2, 3, ... and decide the answers. */
  ghost predicate Counted(log: seq<Hit>) {
    forall i :: 0 <= i < |log| ==>
      && log[i].count == HitsOn(log[..i + 1], log[i].id)
      && log[i].admitted == (log[i].count <= log[i].call.limit)
  }

  lemma {:induction false} CountedPrefix(log: seq<Hit>)
    requires Counted(log) && |log| > 0
    ensures Counted(log[..|log| - 1])
    ensures log[|log| - 1].count == HitsOn(log, log[|log| - 1].id)
  {
    var front := log[..|log| - 1];
    forall i | 0 <= i < |front|
      ensures front[i].count == HitsOn(front[..i + 1], front[i].id)
    {
      assert front[..i + 1] == log[..i + 1];
    }
    assert log[..|log| - 1 + 1] == log;
  }

  lemma ReachableCounted(acts: seq<Action>)
    requires After(acts).Some?
    ensures Counted(After(acts).value.log)
  {
    Reachable(acts);
    var s := After(acts).value;
    forall i | 0 <= i < |s.log|
      ensures s.log[i].count == HitsOn(s.log[..i + 1], s.log[i].id)
      ensures s.log[i].admitted == (s.log[i].count <= s.log[i].call.limit)
    {
      assert HitOk(s, i);
    }
  }

  lemma {:induction false} AdmitsMin(log: seq<Hit>, id: nat, limit: int)
    requires Counted(log)
    requires forall i :: 0 <= i < |log| && log[i].id == id ==> log[i].call.limit == limit
    ensures AdmittedBy(log, id) == Min(HitsOn(log, id), Max(limit, 0))
  {
    if |log| > 0 {
      CountedPrefix(log);
      AdmitsMin(log[..|log| - 1], id, limit);
    }
  }

  /** Whatever limits the calls on a counter pass, it admits no more than the largest of them. */
  lemma {:induction false} AdmitsAtMost(log: seq<Hit>, id: nat, limit: int)
    requires Counted(log)
    requires forall i :: 0 <= i < |log| && log[i].id == id ==> log[i].call.limit <= limit
    ensures AdmittedBy(log, id) <= Min(HitsOn(log, id), Max(limit, 0))
  {
    if |log| > 0 {
      CountedPrefix(log);
      AdmitsAtMost(log[..|log| - 1], id, limit);
    }
  }

  ghost predicate UsedOnKey(log: seq<Hit>, key: string, id: nat) {
    exists i :: 0 <= i < |log| && log[i].call.key == key && log[i].id == id
  }

  /** At most two counters of a key can be fetched within an interval of length WINDOW. */
  lemma TwoCountersPerWindow(s: State, key: string, from: int, i: nat) returns (x: nat, y: nat)
    requires Inv(s) && i < |s.log| && FetchedIn(s.log[i], key, from, from + WINDOW)
    ensures UsedOnKey(s.log, key, x) && UsedOnKey(s.log, key, y)
    ensures forall k :: 0 <= k < |s.log| && FetchedIn(s.log[k], key, from, from + WINDOW) ==>
              s.log[k].id == x || s.log[k].id == y
  {
    x := s.log[i].id;
    y := x;
    if j :| 0 <= j < |s.log| && FetchedIn(s.log[j], key, from, from + WINDOW) && s.log[j].id != x {
      y := s.log[j].id;
      forall k | 0 <= k < |s.log| && FetchedIn(s.log[k], key, from, from + WINDOW)
        ensures s.log[k].id == x || s.log[k].id == y
      {
        assert HitOk(s, i) && HitOk(s, j) && HitOk(s, k);
      }
    }
  }

  lemma {:induction false} AdmittedInPair(log: seq<Hit>, key: string, from: int, to: int, x: nat, y: nat)
    requires forall i :: 0 <= i < |log| && FetchedIn(log[i], key, from, to) ==> log[i].id == x || log[i].id == y
    ensures AdmittedIn(log, key, from, to) <= AdmittedBy(log, x) + AdmittedBy(log, y)
  {
    if |log| > 0 {
      AdmittedInPair(log[..|log| - 1], key, from, to, x, y);
    }
  }

  lemma {:induction false} NoneAdmittedIn(log: seq<Hit>, key: string, from: int, to: int)
    requires forall i :: 0 <= i < |log| ==> !FetchedIn(log[i], key, from, to)
    ensures AdmittedIn(log, key, from, to) == 0
  {
    if |log| > 0 {
      NoneAdmittedIn(log[..|log| - 1], key, from, to);
    }
  }

  lemma AdmittedAtMostLimit(s: State, key: string, limit: int, id: nat)
    requires Inv(s) && Counted(s.log) && UsedOnKey(s.log, key, id)
    requires forall i :: 0 <= i < |s.log| && s.log[i].call.key == key ==> s.log[i].call.limit <= limit
    ensures AdmittedBy(s.log, id) <= Max(limit, 0)
  {
    var k :| 0 <= k < |s.log| && s.log[k].call.key == key && s.log[k].id == id;
    assert HitOk(s, k);
    forall i | 0 <= i < |s.log| && s.log[i].id == id ensures s.log[i].call.limit <= limit {
      assert HitOk(s, i);
    }
    AdmitsAtMost(s.log, id, limit);
  }
}
