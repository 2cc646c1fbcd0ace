/** backend/utils/locks.go, `Lock`: a table of reference-counted mutexes, one per key in use.

    `locksMu` makes each access to the table one atomic action (Register, Deregister); the mutex of an
    entry is taken and freed in between (LockMu, UnlockMu), so a goroutine can be overtaken between
    any two of the four. The limiter and the memory cache rely on the keyed mutex proved here. */
module KeyedLock {
  import opened Runs

  datatype KeyLock = KeyLock(key: string, refs: int, holder: Option<nat>)

  datatype Pc =
    | Blocked(key: string, id: nat)
    | Holding(key: string, id: nat)
    | Freed(key: string, id: nat)

  datatype State = State(heap: seq<KeyLock>, table: map<string, nat>, gos: map<nat, Pc>)

  datatype Action =
    | Register(t: nat, key: string)
    | LockMu(t: nat)
    | UnlockMu(t: nat)
    | Deregister(t: nat)

  const Init := State([], map[], map[])

  function Step(s: State, a: Action): Option<State> {
    match a
    case Register(t, key) =>
      if t in s.gos then None
      else if key in s.table then
        var id := s.table[key];
        if id >= |s.heap| then None
        else Some(s.(heap := s.heap[id := s.heap[id].(refs := s.heap[id].refs + 1)],
                     gos := s.gos[t := Blocked(key, id)]))
      else
        var id := |s.heap|;
        Some(State(s.heap + [KeyLock(key, 1, None)], s.table[key := id], s.gos[t := Blocked(key, id)]))
    case LockMu(t) =>
      if t in s.gos && s.gos[t].Blocked? && s.gos[t].id < |s.heap| && s.heap[s.gos[t].id].holder.None? then
        var Blocked(key, id) := s.gos[t];
        Some(s.(heap := s.heap[id := s.heap[id].(holder := Some(t))], gos := s.gos[t := Holding(key, id)]))
      else None
    case UnlockMu(t) =>
      if t in s.gos && s.gos[t].Holding? && s.gos[t].id < |s.heap| then
        var Holding(key, id) := s.gos[t];
        Some(s.(heap := s.heap[id := s.heap[id].(holder := None)], gos := s.gos[t := Freed(key, id)]))
      else None
    case Deregister(t) =>
      if t in s.gos && s.gos[t].Freed? && s.gos[t].id < |s.heap| then
        var Freed(key, id) := s.gos[t];
        var refs := s.heap[id].refs - 1;
        Some(State(s.heap[id := s.heap[id].(refs := refs)],
                   if refs == 0 then s.table - {key} else s.table,
                   s.gos - {t}))
      else None
  }

  function After(acts: seq<Action>): Option<State> { Run(Init, Step, acts) }

  function Users(gos: map<nat, Pc>, id: nat): set<nat> {
    set t | t in gos && gos[t].id == id
  }

  /** The goroutine that holds each key: the state of the abstract keyed mutex. */
  function Owners(s: State): map<string, nat> {
    map k | k in s.table && s.table[k] < |s.heap| && s.heap[s.table[k]].holder.Some? ::
      s.heap[s.table[k]].holder.value
  }

  ghost predicate GoOk(s: State, t: nat)
    requires t in s.gos
  {
    var pc := s.gos[t];
    && pc.id < |s.heap|
    && pc.key in s.table && s.table[pc.key] == pc.id
    && (pc.Holding? <==> s.heap[pc.id].holder == Some(t))
  }

  ghost predicate LockOk(s: State, id: nat)
    requires id < |s.heap|
  {
    var l := s.heap[id];
    && l.refs == |Users(s.gos, id)|
    && (l.holder.Some? ==> l.holder.value in s.gos && s.gos[l.holder.value] == Holding(l.key, id))
  }

  ghost predicate Inv(s: State) {
    && (forall t :: t in s.gos ==> GoOk(s, t))
    && (forall id :: 0 <= id < |s.heap| ==> LockOk(s, id))
    && (forall k :: k in s.table ==>
          s.table[k] < |s.heap| && s.heap[s.table[k]].key == k && s.heap[s.table[k]].refs > 0)
  }

  lemma UsersAdded(gos: map<nat, Pc>, t: nat, pc: Pc, id: nat)
    requires t !in gos
    ensures |Users(gos[t := pc], id)| == |Users(gos, id)| + if pc.id == id then 1 else 0
  {
    assert Users(gos[t := pc], id) == if pc.id == id then Users(gos, id) + {t} else Users(gos, id);
  }

  lemma UsersMoved(gos: map<nat, Pc>, t: nat, pc: Pc, id: nat)
    requires t in gos && gos[t].id == pc.id
    ensures Users(gos[t := pc], id) == Users(gos, id)
  {
  }

  lemma UsersRemoved(gos: map<nat, Pc>, t: nat, id: nat)
    requires t in gos
    ensures |Users(gos - {t}, id)| == |Users(gos, id)| - if gos[t].id == id then 1 else 0
  {
    UsersAdded(gos - {t}, t, gos[t], id);
    assert (gos - {t})[t := gos[t]] == gos;
  }

  lemma RegisterKeepsInv(s: State, t: nat, key: string)
    requires Inv(s) && Step(s, Register(t, key)).Some?
    ensures Inv(Step(s, Register(t, key)).value)
  {
    var s' := Step(s, Register(t, key)).value;
    forall id | 0 <= id < |s.heap| ensures s.heap[id].holder != Some(t) {
      assert LockOk(s, id);
    }
    forall u | u in s'.gos ensures GoOk(s', u) {
      if u != t { assert GoOk(s, u); }
    }
    forall id | 0 <= id < |s'.heap| ensures LockOk(s', id) {
      UsersAdded(s.gos, t, s'.gos[t], id);
      if id < |s.heap| {
        assert LockOk(s, id);
      } else {
        assert Users(s.gos, id) == {} by {
          forall u | u in s.gos ensures s.gos[u].id != id { assert GoOk(s, u); }
        }
      }
    }
  }

  lemma MutexStepKeepsInv(s: State, a: Action)
    requires Inv(s) && (a.LockMu? || a.UnlockMu?) && Step(s, a).Some?
    ensures Inv(Step(s, a).value)
  {
    var s' := Step(s, a).value;
    assert GoOk(s, a.t);
    forall u | u in s'.gos ensures GoOk(s', u) {
      assert GoOk(s, u);
    }
    forall id | 0 <= id < |s'.heap| ensures LockOk(s', id) {
      assert LockOk(s, id);
      UsersMoved(s.gos, a.t, s'.gos[a.t], id);
    }
  }

  lemma DeregisterKeepsInv(s: State, t: nat)
    requires Inv(s) && Step(s, Deregister(t)).Some?
    ensures Inv(Step(s, Deregister(t)).value)
  {
    var s' := Step(s, Deregister(t)).value;
    assert GoOk(s, t);
    var gone := s.gos[t].id;
    forall id | 0 <= id < |s'.heap| ensures LockOk(s', id) {
      assert LockOk(s, id);
      UsersRemoved(s.gos, t, id);
    }
    forall u | u in s'.gos ensures GoOk(s', u) {
      assert GoOk(s, u);
      if s.gos[u].id == gone {
        assert u in Users(s'.gos, gone);
        assert LockOk(s', gone);
      }
    }
  }

  lemma Reachable(acts: seq<Action>)
    requires After(acts).Some?
    ensures Inv(After(acts).value)
  {
    forall s, a | Inv(s) && Step(s, a).Some? ensures Inv(Step(s, a).value) {
      match a
      case Register(t, key) => RegisterKeepsInv(s, t, key);
      case Deregister(t) => DeregisterKeepsInv(s, t);
      case _ => MutexStepKeepsInv(s, a);
    }
    Invariance(Init, Step, acts, s => Inv(s));
  }

  /** Two goroutines never hold the same key at once. */
  lemma MutualExclusion(acts: seq<Action>, t: nat, u: nat)
    requires After(acts).Some?
    requires t in After(acts).value.gos && u in After(acts).value.gos
    requires After(acts).value.gos[t].Holding? && After(acts).value.gos[u].Holding?
    requires After(acts).value.gos[t].key == After(acts).value.gos[u].key
    ensures t == u
  {
    Reachable(acts);
    assert GoOk(After(acts).value, t) && GoOk(After(acts).value, u);
  }

  /** The table holds exactly the keys somebody uses, so it is empty when nobody does. */
  lemma TableIsKeysInUse(acts: seq<Action>)
    requires After(acts).Some?
    ensures var s := After(acts).value; s.table.Keys == set t | t in s.gos :: s.gos[t].key
  {
    Reachable(acts);
    var s := After(acts).value;
    forall k | k in s.table ensures exists t :: t in s.gos && s.gos[t].key == k {
      var id := s.table[k];
      assert LockOk(s, id);
      var t :| t in Users(s.gos, id);
      assert GoOk(s, t);
      assert s.heap[s.table[s.gos[t].key]].key == s.gos[t].key;
    }
    forall t | t in s.gos ensures s.gos[t].key in s.table {
      assert GoOk(s, t);
    }
  }

  /** A waiting goroutine can proceed exactly when nobody holds its key: other keys never block it. */
  lemma BlockedOnlyByOwnKey(acts: seq<Action>, t: nat)
    requires After(acts).Some?
    requires t in After(acts).value.gos && After(acts).value.gos[t].Blocked?
    ensures var s := After(acts).value;
      Step(s, LockMu(t)).Some? <==> s.gos[t].key !in Owners(s)
  {
    Reachable(acts);
    assert GoOk(After(acts).value, t);
  }

  /** One step of the abstract keyed mutex, or none: LockMu takes a free key, UnlockMu frees the key
      its goroutine owns, and the bookkeeping steps change no owner. */
  ghost predicate AbstractStep(owners: map<string, nat>, owners': map<string, nat>, a: Action, key: string) {
    match a
    case LockMu(t) => key !in owners && owners' == owners[key := t]
    case UnlockMu(t) => key in owners && owners[key] == t && owners' == owners - {key}
    case _ => owners' == owners
  }

  lemma MutexStepRefines(s: State, a: Action)
    requires Inv(s) && (a.LockMu? || a.UnlockMu?) && Step(s, a).Some?
    ensures a.t in s.gos && AbstractStep(Owners(s), Owners(Step(s, a).value), a, s.gos[a.t].key)
  {
    var s' := Step(s, a).value;
    assert GoOk(s, a.t);
    var key := s.gos[a.t].key;
    forall k | k in s.table && k != key ensures s'.heap[s.table[k]] == s.heap[s.table[k]] {
      assert s.heap[s.table[k]].key == k;
    }
  }

  lemma RegisterRefines(s: State, t: nat, key: string)
    requires Inv(s) && Step(s, Register(t, key)).Some?
    ensures Owners(Step(s, Register(t, key)).value) == Owners(s)
  {
  }

  lemma DeregisterRefines(s: State, t: nat)
    requires Inv(s) && Step(s, Deregister(t)).Some?
    ensures Owners(Step(s, Deregister(t)).value) == Owners(s)
  {
    var s' := Step(s, Deregister(t)).value;
    assert GoOk(s, t);
    var id := s.gos[t].id;
    assert LockOk(s, id);
    DeregisterKeepsInv(s, t);
    assert LockOk(s', id);
    assert s'.heap[id].holder.Some? ==> s'.heap[id].holder.value in Users(s'.gos, id);
  }

  /** Every step of the table is a step of the abstract keyed mutex on the key of its goroutine. */
  lemma {:induction false} RefinesKeyedMutex(acts: seq<Action>, a: Action)
    requires After(acts).Some? && Step(After(acts).value, a).Some?
    ensures var s, s' := After(acts).value, Step(After(acts).value, a).value;
      && a.t in s'.gos + s.gos
      && AbstractStep(Owners(s), Owners(s'), a, (s'.gos + s.gos)[a.t].key)
  {
    Reachable(acts);
    match a
    case Register(t, key) => RegisterRefines(After(acts).value, t, key);
    case Deregister(t) => DeregisterRefines(After(acts).value, t);
    case _ => MutexStepRefines(After(acts).value, a);
  }

  // ---- A goroutine that runs alone ----

  /** On a key that nobody uses: an entry is made, held, freed and dropped again. */
  lemma LockAlone(s: State, t: nat, key: string) returns (s1: State, s2: State, s3: State, s4: State)
    requires t !in s.gos && key !in s.table
    ensures Step(s, Register(t, key)) == Some(s1) && Step(s1, LockMu(t)) == Some(s2)
    ensures s2.gos == s.gos[t := Holding(key, |s.heap|)] && s2.table == s.table[key := |s.heap|]
    ensures s2.heap == s.heap + [KeyLock(key, 1, Some(t))]
    ensures Step(s2, UnlockMu(t)) == Some(s3) && Step(s3, Deregister(t)) == Some(s4)
    ensures s4.table == s.table && s4.gos == s.gos && s4.heap == s.heap + [KeyLock(key, 0, None)]
  {
    s1 := Step(s, Register(t, key)).value;
    s2 := Step(s1, LockMu(t)).value;
    s3 := Step(s2, UnlockMu(t)).value;
    s4 := Step(s3, Deregister(t)).value;
    assert s4.gos == s.gos && s4.table == s.table;
  }

  /** On a key in use: the entry is shared, and its mutex can be taken once nobody holds it. */
  lemma LockShared(s: State, t: nat, key: string)
    requires Inv(s) && t !in s.gos && key in s.table
    ensures var id, s1 := s.table[key], Step(s, Register(t, key));
      && s1.Some? && s1.value.table == s.table && s1.value.gos == s.gos[t := Blocked(key, id)]
      && s1.value.heap == s.heap[id := s.heap[id].(refs := s.heap[id].refs + 1)]
      && (Step(s1.value, LockMu(t)).Some? <==> s.heap[id].holder.None?)
  {
  }

  /** Freeing a shared key leaves its entry to the others, who can then take it. */
  lemma UnlockShared(s: State, t: nat) returns (s1: State, s2: State)
    requires Inv(s) && t in s.gos && s.gos[t].Holding? && s.heap[s.gos[t].id].refs > 1
    ensures Step(s, UnlockMu(t)) == Some(s1) && Step(s1, Deregister(t)) == Some(s2)
    ensures s2.table == s.table && s2.gos == s.gos - {t}
    ensures var id := s.gos[t].id;
      s2.heap == s.heap[id := s.heap[id].(refs := s.heap[id].refs - 1, holder := None)]
  {
    assert GoOk(s, t);
    s1 := Step(s, UnlockMu(t)).value;
    s2 := Step(s1, Deregister(t)).value;
    assert s2.gos == s.gos - {t};
  }
}
