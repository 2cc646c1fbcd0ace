/** backend/ratelimit/limit.go, `Key`: the limiter shared by all replicas through one Redis key.

    Each Redis command is one atomic action; a process may die between any two of them, a command may
    fail, and a failed command may or may not have been applied. `cell` is the key as Redis sees it:
    an expired or evicted key is gone, and the next INCR starts a counter of a new generation. */
module RedisLimiter {
  import opened Runs

  datatype Cell = Cell(gen: nat, count: nat, expiry: Option<int>)

  /** The position of a process; `gen` and `count` are what its INCR reached, and `clean` says that
      none of its commands failed so far. */
  datatype Pc =
    | AtIncr(limit: int, window: int)
    | AtExpire(limit: int, window: int, gen: nat, count: nat)
    | AtTtl(limit: int, window: int, gen: nat, count: nat)
    | AtReturn(limit: int, window: int, gen: nat, count: nat, clean: bool)

  /** A call that returned: `ok` stands for a nil error, its negation for ErrRateLimited. */
  datatype Done = Done(gen: nat, count: nat, limit: int, ok: bool, clean: bool)

  /** `issued[g]` is the number of INCR commands applied to the counter of generation g. */
  datatype State = State(now: int, cell: Option<Cell>, issued: seq<nat>, procs: map<nat, Pc>, log: seq<Done>)

  datatype Action =
    | Tick(d: nat)
    | Evict
    | Begin(t: nat, limit: int, window: int)
    | Incr(t: nat)
    | IncrFail(t: nat, applied: bool)
    | Ttl(t: nat)
    | TtlFail(t: nat)
    | Expire(t: nat)
    | ExpireFail(t: nat, applied: bool)
    | Return(t: nat)
    | Crash(t: nat)

  const Init := State(0, None, [], map[], [])

  function ApplyIncr(s: State): State {
    match s.cell
    case None => s.(cell := Some(Cell(|s.issued|, 1, None)), issued := s.issued + [1])
    case Some(c) =>
      s.(cell := Some(c.(count := c.count + 1)),
         issued := if c.gen < |s.issued| then s.issued[c.gen := c.count + 1] else s.issued)
  }

  /** EXPIRE does nothing to an absent key and deletes the key when the time is not positive. */
  function ApplyExpire(s: State, window: int): State {
    if s.cell.None? then s
    else if window <= 0 then s.(cell := None)
    else s.(cell := Some(s.cell.value.(expiry := Some(s.now + window))))
  }

  /** TTL answers a negative number for a key without expiry (-1) and for an absent key (-2). */
  predicate TtlNegative(s: State) {
    s.cell.None? || s.cell.value.expiry.None?
  }

  function Step(s: State, a: Action): Option<State> {
    match a
    case Tick(d) =>
      var now := s.now + d;
      var gone := s.cell.Some? && s.cell.value.expiry.Some? && s.cell.value.expiry.value <= now;
      Some(s.(now := now, cell := if gone then None else s.cell))
    case Evict => Some(s.(cell := None))
    case Begin(t, limit, window) =>
      if t in s.procs then None else Some(s.(procs := s.procs[t := AtIncr(limit, window)]))
    case Incr(t) =>
      if t in s.procs && s.procs[t].AtIncr? then
        var AtIncr(limit, window) := s.procs[t];
        var s1 := ApplyIncr(s);
        var c := s1.cell.value;
        Some(s1.(procs := s.procs[t := if c.count == 1 then AtExpire(limit, window, c.gen, c.count)
                                       else AtTtl(limit, window, c.gen, c.count)]))
      else None
    case IncrFail(t, applied) =>
      if t in s.procs && s.procs[t].AtIncr? then
        Some((if applied then ApplyIncr(s) else s).(procs := s.procs - {t}))
      else None
    case Ttl(t) =>
      if t in s.procs && s.procs[t].AtTtl? then
        var AtTtl(limit, window, gen, count) := s.procs[t];
        Some(s.(procs := s.procs[t := if TtlNegative(s) then AtExpire(limit, window, gen, count)
                                      else AtReturn(limit, window, gen, count, true)]))
      else None
    case TtlFail(t) =>
      if t in s.procs && s.procs[t].AtTtl? then
        var AtTtl(limit, window, gen, count) := s.procs[t];
        Some(s.(procs := s.procs[t := AtReturn(limit, window, gen, count, false)]))
      else None
    case Expire(t) =>
      if t in s.procs && s.procs[t].AtExpire? then
        var AtExpire(limit, window, gen, count) := s.procs[t];
        Some(ApplyExpire(s, window).(procs := s.procs[t := AtReturn(limit, window, gen, count, true)]))
      else None
    case ExpireFail(t, applied) =>
      if t in s.procs && s.procs[t].AtExpire? then
        var AtExpire(limit, window, gen, count) := s.procs[t];
        Some((if applied then ApplyExpire(s, window) else s)
             .(procs := s.procs[t := AtReturn(limit, window, gen, count, false)]))
      else None
    case Return(t) =>
      if t in s.procs && s.procs[t].AtReturn? then
        var AtReturn(limit, _, gen, count, clean) := s.procs[t];
        Some(s.(procs := s.procs - {t}, log := s.log + [Done(gen, count, limit, count <= limit, clean)]))
      else None
    case Crash(t) =>
      if t in s.procs then Some(s.(procs := s.procs - {t})) else None
  }

  function After(acts: seq<Action>): Option<State> { Run(Init, Step, acts) }

  predicate Answers(d: Done, gen: nat, okOnly: bool) {
    d.gen == gen && (okOnly ==> d.ok)
  }

  /** The number of calls on generation `gen` that returned; with `okOnly`, that returned nil. */
  function Returned(log: seq<Done>, gen: nat, okOnly: bool): nat {
    if |log| == 0 then 0
    else Returned(log[..|log| - 1], gen, okOnly) + if Answers(log[|log| - 1], gen, okOnly) then 1 else 0
  }

  // ---- The invariant ----

  predicate Claims(pc: Pc, gen: nat, count: nat) {
    !pc.AtIncr? && pc.gen == gen && pc.count == count
  }

  /** The counter of generation `gen`, if it is still there, has an expiry. */
  predicate WillExpire(s: State, gen: nat) {
    s.cell.Some? && s.cell.value.gen == gen ==> s.cell.value.expiry.Some?
  }

  ghost predicate CellOk(s: State) {
    s.cell.Some? ==>
      && s.cell.value.gen == |s.issued| - 1
      && s.cell.value.count == s.issued[s.cell.value.gen]
      && s.cell.value.count > 0
      && (s.cell.value.expiry.Some? ==> s.now < s.cell.value.expiry.value)
  }

  ghost predicate PcOk(s: State, pc: Pc) {
    && (!pc.AtIncr? ==> pc.gen < |s.issued| && 1 <= pc.count <= s.issued[pc.gen])
    && (pc.AtReturn? && pc.clean ==> WillExpire(s, pc.gen))
  }

  ghost predicate DoneOk(s: State, d: Done) {
    && d.gen < |s.issued| && 1 <= d.count <= s.issued[d.gen]
    && d.ok == (d.count <= d.limit)
    && (d.clean ==> WillExpire(s, d.gen))
  }

  ghost predicate CountsDistinct(s: State) {
    && (forall t, u :: t in s.procs && u in s.procs && t != u && !s.procs[t].AtIncr? ==>
          !Claims(s.procs[u], s.procs[t].gen, s.procs[t].count))
    && (forall t, i :: t in s.procs && 0 <= i < |s.log| ==> !Claims(s.procs[t], s.log[i].gen, s.log[i].count))
    && LogDistinct(s.log)
  }

  ghost predicate LogDistinct(log: seq<Done>) {
    forall i, j :: 0 <= i < j < |log| && log[i].gen == log[j].gen ==> log[i].count != log[j].count
  }

  ghost predicate Inv(s: State) {
    && CellOk(s)
    && (forall t :: t in s.procs ==> PcOk(s, s.procs[t]))
    && (forall i :: 0 <= i < |s.log| ==> DoneOk(s, s.log[i]))
    && CountsDistinct(s)
  }

  /** A new count exceeds all that were handed out on its counter. */
  lemma IncrementKeepsCounts(s: State, t: nat)
    requires Inv(s) && Step(s, Incr(t)).Some?
    ensures CountsDistinct(Step(s, Incr(t)).value)
  {
    var p := Step(s, Incr(t)).value.procs[t];
    forall u | u in s.procs ensures !Claims(s.procs[u], p.gen, p.count) {
      assert PcOk(s, s.procs[u]);
    }
    forall i | 0 <= i < |s.log| ensures s.log[i].gen != p.gen || s.log[i].count != p.count {
      assert DoneOk(s, s.log[i]);
    }
  }

  lemma StepKeepsCounts(s: State, a: Action)
    requires Inv(s) && Step(s, a).Some?
    ensures CountsDistinct(Step(s, a).value)
  {
    if a.Incr? {
      IncrementKeepsCounts(s, a.t);
    }
  }

  /** The counters only grow, and an expiry once set stays with its counter. */
  ghost predicate CountersGrow(s: State, s': State) {
    && |s.issued| <= |s'.issued|
    && (forall g :: 0 <= g < |s.issued| ==> s.issued[g] <= s'.issued[g])
    && (forall g :: 0 <= g < |s.issued| && WillExpire(s, g) ==> WillExpire(s', g))
  }

  lemma StepGrows(s: State, a: Action)
    requires CellOk(s) && Step(s, a).Some?
    ensures CellOk(Step(s, a).value) && CountersGrow(s, Step(s, a).value)
  {
  }

  lemma ActorKept(s: State, a: Action)
    requires Inv(s) && !a.Tick? && !a.Evict? && Step(s, a).Some?
    ensures a.t in Step(s, a).value.procs ==> PcOk(Step(s, a).value, Step(s, a).value.procs[a.t])
  {
    if a.t in s.procs {
      assert PcOk(s, s.procs[a.t]);
    }
  }

  lemma ProcsKept(s: State, a: Action)
    requires Inv(s) && Step(s, a).Some?
    ensures forall t :: t in Step(s, a).value.procs ==> PcOk(Step(s, a).value, Step(s, a).value.procs[t])
  {
    var s' := Step(s, a).value;
    StepGrows(s, a);
    forall t | t in s'.procs ensures PcOk(s', s'.procs[t]) {
      if !a.Tick? && !a.Evict? && t == a.t {
        ActorKept(s, a);
      } else {
        assert PcOk(s, s.procs[t]);
      }
    }
  }

  lemma LogKept(s: State, a: Action)
    requires Inv(s) && Step(s, a).Some?
    ensures forall i :: 0 <= i < |Step(s, a).value.log| ==> DoneOk(Step(s, a).value, Step(s, a).value.log[i])
  {
    var s' := Step(s, a).value;
    StepGrows(s, a);
    forall i | 0 <= i < |s'.log| ensures DoneOk(s', s'.log[i]) {
      if i < |s.log| {
        assert DoneOk(s, s.log[i]);
      } else {
        assert PcOk(s, s.procs[a.t]);
      }
    }
  }

  lemma StepKeepsInv(s: State, a: Action)
    requires Inv(s) && Step(s, a).Some?
    ensures Inv(Step(s, a).value)
  {
    StepKeepsCounts(s, a);
    StepGrows(s, a);
    ProcsKept(s, a);
    LogKept(s, a);
  }

  lemma Reachable(acts: seq<Action>)
    requires After(acts).Some?
    ensures Inv(After(acts).value)
  {
    forall s, a | Inv(s) && Step(s, a).Some? ensures Inv(Step(s, a).value) {
      StepKeepsInv(s, a);
    }
    Invariance(Init, Step, acts, s => Inv(s));
  }

  // ---- Counting distinct counts ----

  function UpTo(n: int): (r: set<int>)
    ensures n >= 0 ==> |r| == n
    ensures forall x :: x in r <==> 1 <= x <= n
  {
    if n <= 0 then {} else UpTo(n - 1) + {n}
  }

  function CountsOf(log: seq<Done>, gen: nat, okOnly: bool): set<int> {
    set i | 0 <= i < |log| && Answers(log[i], gen, okOnly) :: log[i].count
  }

  lemma CountsOfSnoc(front: seq<Done>, last: Done, gen: nat, okOnly: bool)
    ensures CountsOf(front + [last], gen, okOnly)
         == CountsOf(front, gen, okOnly) + if Answers(last, gen, okOnly) then {last.count as int} else {}
  {
    var log := front + [last];
    forall x | x in CountsOf(front, gen, okOnly) ensures x in CountsOf(log, gen, okOnly) {
      var i :| 0 <= i < |front| && Answers(front[i], gen, okOnly) && front[i].count as int == x;
      assert log[i] == front[i];
    }
    assert log[|front|] == last;
  }

  lemma LastIsNew(log: seq<Done>, gen: nat, okOnly: bool)
    requires LogDistinct(log) && log != [] && log[|log| - 1].gen == gen
    ensures log[|log| - 1].count as int !in CountsOf(log[..|log| - 1], gen, okOnly)
  {
    var front := log[..|log| - 1];
    forall i | 0 <= i < |front| && front[i].gen == gen ensures front[i].count != log[|log| - 1].count {
      assert front[i] == log[i];
    }
  }

  lemma {:induction false} DistinctCounts(log: seq<Done>, gen: nat, okOnly: bool)
    requires LogDistinct(log)
    ensures |CountsOf(log, gen, okOnly)| == Returned(log, gen, okOnly)
  {
    if |log| > 0 {
      var front, last := log[..|log| - 1], log[|log| - 1];
      DistinctCounts(front, gen, okOnly);
      assert log == front + [last];
      CountsOfSnoc(front, last, gen, okOnly);
      if Answers(last, gen, okOnly) {
        LastIsNew(log, gen, okOnly);
      }
    }
  }

  // ---- Results over every run ----

  /** When every call that incremented a counter has returned, their counts are 1 to the number of hits. */
  lemma AllCountsReturned(s: State, gen: nat)
    requires Inv(s) && gen < |s.issued| && Returned(s.log, gen, false) == s.issued[gen]
    ensures CountsOf(s.log, gen, false) == UpTo(s.issued[gen])
  {
    DistinctCounts(s.log, gen, false);
    forall i | 0 <= i < |s.log| && Answers(s.log[i], gen, false) ensures s.log[i].count as int in UpTo(s.issued[gen]) {
      assert DoneOk(s, s.log[i]);
    }
    SubsetSize(CountsOf(s.log, gen, false), UpTo(s.issued[gen]));
  }

  /** No counter is stuck: once a call on it has returned with none of its commands failing, the
      counter has an expiry or is gone. A live counter without expiry is one that no such call has
      returned from, even if the process that created it died before its EXPIRE. */
  lemma CleanReturnLeavesExpiry(acts: seq<Action>, i: nat)
    requires After(acts).Some? && i < |After(acts).value.log| && After(acts).value.log[i].clean
    ensures WillExpire(After(acts).value, After(acts).value.log[i].gen)
  {
    Reachable(acts);
    assert DoneOk(After(acts).value, After(acts).value.log[i]);
  }

  lemma {:induction false} CleanWithoutFailure(acts: seq<Action>, t: nat)
    requires After(acts).Some?
    requires forall i :: 0 <= i < |acts| && (acts[i].IncrFail? || acts[i].TtlFail? || acts[i].ExpireFail?) ==>
               acts[i].t != t
    ensures var s := After(acts).value; t in s.procs && s.procs[t].AtReturn? ==> s.procs[t].clean
  {
    if |acts| > 0 {
      CleanWithoutFailure(acts[..|acts| - 1], t);
    }
  }

  /** The recovery: whatever state the counter was in and whatever the others do meanwhile, a call
      that completes without a Redis failure of its own leaves the counter it hit with an expiry. */
  lemma CompletedCallRecovers(acts: seq<Action>, t: nat)
    requires After(acts).Some? && Step(After(acts).value, Return(t)).Some?
    requires forall i :: 0 <= i < |acts| && (acts[i].IncrFail? || acts[i].TtlFail? || acts[i].ExpireFail?) ==>
               acts[i].t != t
    ensures WillExpire(Step(After(acts).value, Return(t)).value, After(acts).value.procs[t].gen)
  {
    Reachable(acts);
    CleanWithoutFailure(acts, t);
    assert PcOk(After(acts).value, After(acts).value.procs[t]);
  }

  /** An expiry, once set, is never removed while its counter lives. */
  lemma ExpiryStays(acts: seq<Action>, a: Action)
    requires After(acts).Some? && Step(After(acts).value, a).Some?
    requires After(acts).value.cell.Some? && After(acts).value.cell.value.expiry.Some?
    ensures WillExpire(Step(After(acts).value, a).value, After(acts).value.cell.value.gen)
  {
    Reachable(acts);
  }

  // ---- When the window is fixed ----

  predicate Dated(s: State) { s.cell.Some? && s.cell.value.expiry.Some? }

  /** While the counter of s lives, its expiry is the one it has in s. */
  predicate SameWindow(s: State, s': State)
    requires Dated(s)
  {
    s'.cell.Some? && s'.cell.value.gen == s.cell.value.gen ==> s'.cell.value.expiry == s.cell.value.expiry
  }

  /** A straggler: process t is about to send an EXPIRE, and d later, while the counter still lives,
      this would give it another expiry. */
  predicate CanMove(s: State, t: nat, d: nat)
    requires Dated(s)
  {
    && t in s.procs && s.procs[t].AtExpire? && s.procs[t].window > 0
    && s.now + d < s.cell.value.expiry.value
    && s.now + d + s.procs[t].window != s.cell.value.expiry.value
  }

  /** While the counter that was dated in `start` lives, nobody new is about to send an EXPIRE. */
  ghost predicate NoNewStragglers(start: State, s: State)
    requires Dated(start)
  {
    && CellOk(s) && start.now <= s.now && start.cell.value.gen < |s.issued|
    && SameWindow(start, s)
    && (s.cell.Some? && s.cell.value.gen == start.cell.value.gen ==>
          forall t :: t in s.procs && s.procs[t].AtExpire? ==> t in start.procs && start.procs[t] == s.procs[t])
  }

  lemma StepAddsNoStragglers(start: State, s: State, a: Action)
    requires Dated(start) && forall t, d :: !CanMove(start, t, d)
    requires NoNewStragglers(start, s) && Step(s, a).Some?
    ensures NoNewStragglers(start, Step(s, a).value)
  {
    if a.Expire? || a.ExpireFail? {
      assert !CanMove(start, a.t, s.now - start.now);
    }
  }

  lemma WindowStays(start: State, more: seq<Action>)
    requires CellOk(start) && Dated(start) && forall t, d :: !CanMove(start, t, d)
    requires Run(start, Step, more).Some?
    ensures SameWindow(start, Run(start, Step, more).value)
  {
    forall s, a | NoNewStragglers(start, s) && Step(s, a).Some? ensures NoNewStragglers(start, Step(s, a).value) {
      StepAddsNoStragglers(start, s, a);
    }
    Invariance(start, Step, more, s => NoNewStragglers(start, s));
  }

  lemma RunOfTwo(s: State, a: Action, b: Action)
    requires Step(s, a).Some?
    ensures Run(s, Step, [a, b]) == Step(Step(s, a).value, b)
  {
    assert [a, b][..1] == [a];
    assert [a][..0] == [];
    assert Run(s, Step, [a]) == Step(s, a);
  }

  lemma StragglerMoves(s: State, t: nat, d: nat)
    requires Dated(s) && CanMove(s, t, d)
    ensures var later := s.(now := s.now + d);
      && Step(s, Tick(d)) == Some(later)
      && Step(later, Expire(t)).Some?
      && Step(later, Expire(t)).value.cell == Some(s.cell.value.(expiry := Some(later.now + s.procs[t].window)))
  {
  }

  /** The window of a counter that has an expiry is fixed from then on, in every continuation, if and
      only if no process is about to send an EXPIRE that would move it. Such a process has come there
      before the counter had an expiry: nobody new does. */
  lemma WindowFixedIff(acts: seq<Action>)
    requires After(acts).Some? && Dated(After(acts).value)
    ensures var s := After(acts).value;
      (forall more :: Run(s, Step, more).Some? ==> SameWindow(s, Run(s, Step, more).value))
      <==> forall t, d :: !CanMove(s, t, d)
  {
    Reachable(acts);
    var s := After(acts).value;
    if t, d :| CanMove(s, t, d) {
      StragglerMoves(s, t, d);
      RunOfTwo(s, Tick(d), Expire(t));
      assert !SameWindow(s, Run(s, Step, [Tick(d), Expire(t)]).value);
    } else {
      forall more | Run(s, Step, more).Some? ensures SameWindow(s, Run(s, Step, more).value) {
        WindowStays(s, more);
      }
    }
  }

  lemma Extend(acts: seq<Action>, s: State, a: Action) returns (longer: seq<Action>)
    requires After(acts) == Some(s) && Step(s, a).Some?
    ensures After(longer) == Step(s, a)
  {
    longer := acts + [a];
    assert longer[..|acts|] == acts;
  }

  /** A call that saw the counter without an expiry sends its own EXPIRE late: with a window of 100, the
      expiry of a live counter moves from 100 to 199. */
  lemma StragglerWitness() returns (before: seq<Action>)
    ensures After(before).Some? && Dated(After(before).value) && After(before).value.cell.value.expiry == Some(100)
    ensures var s := Run(After(before).value, Step, [Tick(99), Expire(2)]);
      s.Some? && s.value.cell == Some(Cell(0, 2, Some(199)))
  {
    before := Extend([], Init, Begin(1, 5, 100));
    before := Extend(before, After(before).value, Begin(2, 5, 100));
    before := Extend(before, After(before).value, Incr(1));
    before := Extend(before, After(before).value, Incr(2));
    before := Extend(before, After(before).value, Ttl(2));
    before := Extend(before, After(before).value, Expire(1));
    StragglerMoves(After(before).value, 2, 99);
    RunOfTwo(After(before).value, Tick(99), Expire(2));
  }
}
