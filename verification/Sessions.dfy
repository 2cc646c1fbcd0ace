/** backend/sqlc/admin-sessions.sql.go: refresh-token sessions of the admin API.

    Each query is one atomic change of the table users.admin_sessions, whose id is the primary key and
    whose token_hash is UNIQUE (migrations/00360_admin_sessions.sql). `now()` is a parameter. */
module Sessions {
  import opened Runs

  datatype Row = Row(userId: string, tokenHash: string, expiresAt: int)

  /** The rows by id. */
  type Table = map<nat, Row>

  predicate HasHash(t: Table, h: string) { exists id :: id in t && t[id].tokenHash == h }

  /** token_hash is UNIQUE. */
  predicate UniqueHashes(t: Table) {
    forall i, j :: i in t && j in t && t[i].tokenHash == t[j].tokenHash ==> i == j
  }

  /** UPDATE ... WHERE token_hash = oldHash AND expires_at > now(). */
  predicate Rotatable(r: Row, oldHash: string, now: int) {
    r.tokenHash == oldHash && r.expiresAt > now
  }

  function WithoutHash(t: Table, h: string): Table { map id | id in t && t[id].tokenHash != h :: t[id] }

  function Unexpired(t: Table, now: int): Table { map id | id in t && !(t[id].expiresAt < now) :: t[id] }

  function Rotated(t: Table, id: nat, newHash: string, expiresAt: int): Table
    requires id in t
  {
    t[id := Row(t[id].userId, newHash, expiresAt)]
  }

  /** The table with the history of the queries that changed it. Every method extends the history by a
      query of the run model, so what is proved of runs holds of every table. */
  class AdminSessions {
    var rows: Table
    ghost var history: seq<Query>

    ghost predicate Valid()
      reads this
    {
      After(history).Some? && After(history).value.rows == rows
    }

    constructor ()
      ensures Valid() && rows == map[] && history == []
    {
      rows, history := map[], [];
    }

    /** A hash that is stored already violates the constraint. The id is a fresh random one. */
    method Create(id: nat, userId: string, tokenHash: string, expiresAt: int) returns (ok: bool)
      requires Valid() && id !in rows
      modifies this
      ensures Valid()
      ensures ok <==> forall i :: i in old(rows) ==> old(rows)[i].tokenHash != tokenHash
      ensures rows == if ok then old(rows)[id := Row(userId, tokenHash, expiresAt)] else old(rows)
      ensures history == old(history) + if ok then [Query.Create(id, userId, tokenHash, expiresAt)] else []
    {
      ok := !HasHash(rows, tokenHash);
      if ok {
        rows := rows[id := Row(userId, tokenHash, expiresAt)];
        Extends(history, Query.Create(id, userId, tokenHash, expiresAt));
        history := history + [Query.Create(id, userId, tokenHash, expiresAt)];
      }
    }

    method DeleteById(id: nat)
      requires Valid()
      modifies this
      ensures Valid() && history == old(history) + [Query.DeleteById(id)]
      ensures rows == old(rows) - {id}
    {
      rows := rows - {id};
      Extends(history, Query.DeleteById(id));
      history := history + [Query.DeleteById(id)];
    }

    method DeleteByTokenHash(tokenHash: string)
      requires Valid()
      modifies this
      ensures Valid() && history == old(history) + [Query.DeleteByTokenHash(tokenHash)]
      ensures forall i :: i in rows <==> i in old(rows) && old(rows)[i].tokenHash != tokenHash
      ensures forall i :: i in rows ==> rows[i] == old(rows)[i]
    {
      rows := WithoutHash(rows, tokenHash);
      Extends(history, Query.DeleteByTokenHash(tokenHash));
      history := history + [Query.DeleteByTokenHash(tokenHash)];
    }

    method DeleteExpired(now: int)
      requires Valid()
      modifies this
      ensures Valid() && history == old(history) + [Query.DeleteExpired(now)]
      ensures forall i :: i in rows <==> i in old(rows) && now <= old(rows)[i].expiresAt
      ensures forall i :: i in rows ==> rows[i] == old(rows)[i]
    {
      rows := Unexpired(rows, now);
      Extends(history, Query.DeleteExpired(now));
      history := history + [Query.DeleteExpired(now)];
    }

    /** The compare-and-swap: at most one row matches the old hash; its id and user are returned and
        kept. No match is sql.ErrNoRows; a new hash that another row has violates the constraint. */
    method Rotate(newHash: string, expiresAt: int, oldHash: string, now: int)
      returns (result: Option<(nat, string)>)
      requires Valid()
      modifies this
      ensures Valid()
      ensures result.Some? <==>
        && (exists i :: i in old(rows) && old(rows)[i].tokenHash == oldHash && old(rows)[i].expiresAt > now)
        && (newHash == oldHash || forall i :: i in old(rows) ==> old(rows)[i].tokenHash != newHash)
      ensures result.None? ==> rows == old(rows) && history == old(history)
      ensures result.Some? ==>
        && result.value.0 in old(rows)
        && old(rows)[result.value.0].tokenHash == oldHash && old(rows)[result.value.0].expiresAt > now
        && result.value.1 == old(rows)[result.value.0].userId
        && (forall i :: i in old(rows) && old(rows)[i].tokenHash == oldHash ==> i == result.value.0)
        && rows == old(rows)[result.value.0 := Row(result.value.1, newHash, expiresAt)]
        && history == old(history) + [Query.Rotate(result.value.0, newHash, expiresAt, oldHash, now)]
    {
      ConsumedAtMostIssued(history, oldHash);
      var matching := set id | id in rows && Rotatable(rows[id], oldHash, now);
      assert forall id :: id in rows && Rotatable(rows[id], oldHash, now) ==> id in matching;
      if matching == {} || (newHash != oldHash && HasHash(rows, newHash)) {
        return None;
      }
      var id :| id in matching;
      result := Some((id, rows[id].userId));
      rows := Rotated(rows, id, newHash, expiresAt);
      Extends(history, Query.Rotate(id, newHash, expiresAt, oldHash, now));
      history := history + [Query.Rotate(id, newHash, expiresAt, oldHash, now)];
    }

    /** Whatever was called on a table, its hashes are distinct and no hash was consumed more often than
        it was issued. */
    lemma LedgerHolds(h: string)
      requires Valid()
      ensures UniqueHashes(rows)
      ensures After(history).value.consumed[h] <= After(history).value.issued[h]
    {
      ConsumedAtMostIssued(history, h);
    }
  }

  // ---- Runs ----

  datatype Query =
    | Create(id: nat, userId: string, tokenHash: string, expiresAt: int)
    | DeleteById(id: nat)
    | DeleteByTokenHash(tokenHash: string)
    | DeleteExpired(now: int)
    | Rotate(id: nat, newHash: string, expiresAt: int, oldHash: string, now: int)

  /** The table with three histories: how often each hash was issued, consumed by a rotation, and
      removed by a delete. */
  datatype State = State(rows: Table, issued: multiset<string>, consumed: multiset<string>, removed: multiset<string>)

  const Init := State(map[], multiset{}, multiset{}, multiset{})

  function Hashes(t: Table): set<string> { set id | id in t :: t[id].tokenHash }

  function Shrunk(s: State, rows: Table): State {
    s.(rows := rows, removed := s.removed + multiset(Hashes(s.rows) - Hashes(rows)))
  }

  /** The successful queries; `id` of Rotate is the row that the update matches. A query that fails
      changes nothing. */
  function Step(s: State, q: Query): Option<State> {
    match q
    case Create(id, user, h, expires) =>
      if id in s.rows || HasHash(s.rows, h) then None
      else Some(s.(rows := s.rows[id := Row(user, h, expires)], issued := s.issued + multiset{h}))
    case DeleteById(id) => Some(Shrunk(s, s.rows - {id}))
    case DeleteByTokenHash(h) => Some(Shrunk(s, WithoutHash(s.rows, h)))
    case DeleteExpired(now) => Some(Shrunk(s, Unexpired(s.rows, now)))
    case Rotate(id, newHash, expires, oldHash, now) =>
      if id in s.rows && Rotatable(s.rows[id], oldHash, now) && (newHash == oldHash || !HasHash(s.rows, newHash)) then
        Some(s.(rows := Rotated(s.rows, id, newHash, expires),
                issued := s.issued + multiset{newHash}, consumed := s.consumed + multiset{oldHash}))
      else None
  }

  function After(qs: seq<Query>): Option<State> { Run(Init, Step, qs) }

  lemma Extends(qs: seq<Query>, q: Query)
    ensures After(qs + [q]) == if After(qs).None? then None else Step(After(qs).value, q)
  {
    assert (qs + [q])[..|qs|] == qs;
  }

  /** The ledger: every issue of a hash is stored, consumed or removed, and never two of these. */
  ghost predicate Balanced(s: State, h: string) {
    s.issued[h] == s.consumed[h] + s.removed[h] + if h in Hashes(s.rows) then 1 else 0
  }

  ghost predicate Inv(s: State) {
    UniqueHashes(s.rows) && forall h :: Balanced(s, h)
  }

  lemma ShrunkKeepsInv(s: State, rows: Table)
    requires Inv(s) && forall id :: id in rows ==> id in s.rows && rows[id] == s.rows[id]
    ensures Inv(Shrunk(s, rows))
  {
    forall h ensures Balanced(Shrunk(s, rows), h) {
      assert Balanced(s, h);
      assert Hashes(rows) <= Hashes(s.rows);
    }
  }

  lemma RotateKeepsInv(s: State, q: Query)
    requires Inv(s) && q.Rotate? && Step(s, q).Some?
    ensures Inv(Step(s, q).value)
  {
    var s' := Step(s, q).value;
    assert s.rows[q.id].tokenHash == q.oldHash;
    assert Hashes(s'.rows) == Hashes(s.rows) - {q.oldHash} + {q.newHash} by {
      assert s'.rows[q.id].tokenHash == q.newHash;
      forall id | id in s.rows && id != q.id
        ensures s'.rows[id] == s.rows[id] && s.rows[id].tokenHash != q.oldHash {
      }
    }
    forall h ensures Balanced(s', h) {
      assert Balanced(s, h);
      assert q.oldHash in Hashes(s.rows);
      assert q.newHash in Hashes(s.rows) ==> HasHash(s.rows, q.newHash);
    }
  }

  lemma CreateKeepsInv(s: State, q: Query)
    requires Inv(s) && q.Create? && Step(s, q).Some?
    ensures Inv(Step(s, q).value)
  {
    var s' := Step(s, q).value;
    assert Hashes(s'.rows) == Hashes(s.rows) + {q.tokenHash} by {
      assert s'.rows[q.id].tokenHash == q.tokenHash;
      forall id | id in s.rows ensures s'.rows[id] == s.rows[id] {
      }
    }
    forall h ensures Balanced(s', h) {
      assert Balanced(s, h);
      assert q.tokenHash !in Hashes(s.rows);
    }
  }

  lemma Reachable(qs: seq<Query>)
    requires After(qs).Some?
    ensures Inv(After(qs).value)
  {
    forall s, q | Inv(s) && Step(s, q).Some? ensures Inv(Step(s, q).value) {
      match q
      case Create(_, _, _, _) => CreateKeepsInv(s, q);
      case Rotate(_, _, _, _, _) => RotateKeepsInv(s, q);
      case _ => ShrunkKeepsInv(s, Step(s, q).value.rows);
    }
    Invariance(Init, Step, qs, s => Inv(s));
  }

  /** In every run the stored hashes are pairwise distinct, and a hash is consumed by successful
      rotations at most as often as it was issued: once, if hashes are issued fresh. */
  lemma ConsumedAtMostIssued(qs: seq<Query>, h: string)
    requires After(qs).Some?
    ensures UniqueHashes(After(qs).value.rows)
    ensures After(qs).value.consumed[h] <= After(qs).value.issued[h]
    ensures HasHash(After(qs).value.rows, h) ==> After(qs).value.consumed[h] < After(qs).value.issued[h]
  {
    Reachable(qs);
    assert Balanced(After(qs).value, h);
    if HasHash(After(qs).value.rows, h) {
      var id :| id in After(qs).value.rows && After(qs).value.rows[id].tokenHash == h;
      assert h in Hashes(After(qs).value.rows);
    }
  }

  /** Of several refreshes with one cookie at most one wins: after a successful rotation of a hash that
      was issued once, no rotation of it succeeds. */
  lemma SecondRotationLoses(qs: seq<Query>, q: Query)
    requires After(qs).Some? && q.Rotate?
    requires After(qs).value.issued[q.oldHash] <= 1 && q.oldHash in After(qs).value.consumed
    ensures Step(After(qs).value, q).None?
  {
    ConsumedAtMostIssued(qs, q.oldHash);
    assert !HasHash(After(qs).value.rows, q.oldHash);
  }

  /** Rotation keeps the row's id and user, and every other row. */
  lemma RotationKeepsSession(qs: seq<Query>, q: Query)
    requires After(qs).Some? && q.Rotate? && Step(After(qs).value, q).Some?
    ensures var t, t' := After(qs).value.rows, Step(After(qs).value, q).value.rows;
      && t'.Keys == t.Keys
      && forall id :: id in t ==> t'[id].userId == t[id].userId && (id != q.id ==> t'[id] == t[id])
  {
  }

  /** No rotation of a row that is not unexpired succeeds, in any reachable state, and none by a hash
      that the row does not have. */
  lemma ExpiredSessionsDoNotRotate(qs: seq<Query>, q: Query)
    requires After(qs).Some? && q.Rotate? && q.id in After(qs).value.rows
    requires After(qs).value.rows[q.id].expiresAt <= q.now || After(qs).value.rows[q.id].tokenHash != q.oldHash
    ensures Step(After(qs).value, q).None?
  {
  }

  /** A live session rotates in every reachable state: to a new hash and a new expiry. */
  lemma LiveSessionsRotate(qs: seq<Query>, q: Query)
    requires After(qs).Some? && q.Rotate? && q.id in After(qs).value.rows
    requires After(qs).value.rows[q.id].tokenHash == q.oldHash && q.now < After(qs).value.rows[q.id].expiresAt
    requires forall i :: i in After(qs).value.rows ==> After(qs).value.rows[i].tokenHash != q.newHash
    ensures var t := After(qs).value.rows;
      && Step(After(qs).value, q).Some?
      && Step(After(qs).value, q).value.rows == t[q.id := Row(t[q.id].userId, q.newHash, q.expiresAt)]
  {
  }

  /** A hash that was replaced, deleted or swept does not rotate: the last issued one alone does. */
  lemma OnlyStoredHashesRotate(qs: seq<Query>, q: Query)
    requires After(qs).Some? && q.Rotate? && Step(After(qs).value, q).Some?
    ensures HasHash(After(qs).value.rows, q.oldHash)
    ensures q.newHash != q.oldHash ==> !HasHash(Step(After(qs).value, q).value.rows, q.oldHash)
    ensures HasHash(Step(After(qs).value, q).value.rows, q.newHash)
  {
    Reachable(qs);
    var t' := Step(After(qs).value, q).value.rows;
    assert t'[q.id].tokenHash == q.newHash;
  }
}
