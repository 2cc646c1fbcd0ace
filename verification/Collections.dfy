/** backend/loaders/collection.go: a map of entries with a sliding time to live, swept in the
    background by the janitor (backend/loaders/janitor.go).

    A callback registered with WithOnDelete is known by a number; running it appends the number to
    `fired`. `time.Now()` is a parameter of every operation. */
module Collections {
  import opened Runs

  // ---- The specification: a table of items ----

  datatype Item<V> = Item(value: V, expiresAt: int, onDelete: Option<nat>)

  datatype Table<K, V> = Table(items: map<K, Item<V>>, fired: seq<nat>)

  /** A sweep visits the map in an arbitrary order; `order` lists the expired keys as it met them. */
  datatype Op<K, V> =
    | Set(key: K, value: V, onDelete: Option<nat>)
    | Get(key: K)
    | Delete(key: K)
    | Sweep(order: seq<K>)

  datatype Event<K, V> = Event(now: int, op: Op<K, V>)

  function Fire(fired: seq<nat>, callback: Option<nat>): seq<nat> {
    if callback.Some? then fired + [callback.value] else fired
  }

  function Deleted<K(==), V>(t: Table<K, V>, k: K): Table<K, V> {
    if k in t.items then Table(t.items - {k}, Fire(t.fired, t.items[k].onDelete)) else t
  }

  function DeletedAll<K(==), V>(t: Table<K, V>, order: seq<K>): Table<K, V>
    decreases |order|
  {
    if order == [] then t
    else Deleted(DeletedAll(t, order[..|order| - 1]), order[|order| - 1])
  }

  predicate Expired<K(==), V>(t: Table<K, V>, k: K, now: int) {
    k in t.items && t.items[k].expiresAt < now
  }

  /** What Get answers. */
  function Answer<K(==), V>(t: Table<K, V>, k: K, now: int): Option<V> {
    if k in t.items && !Expired(t, k, now) then Some(t.items[k].value) else None
  }

  /** What Get leaves behind: an expired entry is deleted, a live one starts its time anew. */
  function Touched<K(==), V>(t: Table<K, V>, ttl: int, k: K, now: int): Table<K, V> {
    if Expired(t, k, now) then Deleted(t, k)
    else if k in t.items then t.(items := t.items[k := t.items[k].(expiresAt := now + ttl)])
    else t
  }

  function Applied<K(==), V>(t: Table<K, V>, ttl: int, e: Event<K, V>): Table<K, V> {
    match e.op
    case Set(k, v, callback) => t.(items := t.items[k := Item(v, e.now + ttl, callback)])
    case Get(k) => Touched(t, ttl, k, e.now)
    case Delete(k) => Deleted(t, k)
    case Sweep(order) => DeletedAll(t, order)
  }

  /** `order` lists every expired key once and nothing else. */
  ghost predicate ListsExpired<K, V>(t: Table<K, V>, now: int, order: seq<K>) {
    && (forall i :: 0 <= i < |order| ==> Expired(t, order[i], now))
    && (forall k :: k in t.items && Expired(t, k, now) ==> k in order)
    && (forall i, j :: 0 <= i < j < |order| ==> order[i] != order[j])
  }

  // ---- The collection ----

  class Entry<K, V> {
    const key: K
    const value: V
    const onDelete: Option<nat>
    var expiresAt: int

    constructor (key: K, value: V, expiresAt: int, onDelete: Option<nat>)
      ensures this.key == key && this.value == value && this.expiresAt == expiresAt && this.onDelete == onDelete
    {
      this.key, this.value, this.expiresAt, this.onDelete := key, value, expiresAt, onDelete;
    }
  }

  class Collection<K(==), V> {
    var values: map<K, Entry<K, V>>
    var fired: seq<nat>
    const expiry: int

    constructor (expiration: int)
      ensures Valid() && View() == Table(map[], []) && expiry == expiration
    {
      values, fired, expiry := map[], [], expiration;
    }

    /** Every entry is stored under its own key, so no two keys share an entry. */
    ghost predicate Valid()
      reads this, values.Values
    {
      forall k :: k in values ==> values[k].key == k
    }

    ghost function View(): Table<K, V>
      reads this, values.Values
    {
      Table(map k | k in values :: Item(values[k].value, values[k].expiresAt, values[k].onDelete), fired)
    }

    method Set(key: K, value: V, onDelete: Option<nat>, now: int)
      requires Valid()
      modifies this
      ensures Valid() && fresh(values.Values - old(values.Values))
      ensures View() == Applied(old(View()), expiry, Event(now, Op.Set(key, value, onDelete)))
    {
      var e := new Entry(key, value, now + expiry, onDelete);
      values := values[key := e];
    }

    method Get(key: K, now: int) returns (result: Option<V>)
      requires Valid()
      modifies this, values.Values
      ensures Valid() && values.Values <= old(values.Values)
      ensures result == Answer(old(View()), key, now)
      ensures View() == Touched(old(View()), expiry, key, now)
    {
      if key !in values {
        return None;
      }
      var e := values[key];
      if e.expiresAt < now {
        values := values - {key};
        fired := Fire(fired, e.onDelete);
        return None;
      }
      e.expiresAt := now + expiry;
      return Some(e.value);
    }

    method Delete(key: K)
      requires Valid()
      modifies this
      ensures Valid() && values.Values <= old(values.Values)
      ensures View() == Deleted(old(View()), key)
    {
      if key !in values {
        return;
      }
      var e := values[key];
      values := values - {key};
      fired := Fire(fired, e.onDelete);
    }

    /** Collects the keys of the expired entries, then deletes them. */
    method DeleteExpired(now: int) returns (ghost order: seq<K>)
      requires Valid()
      modifies this
      ensures Valid()
      ensures ListsExpired(old(View()), now, order)
      ensures View() == DeletedAll(old(View()), order)
    {
      var deleteKeys: seq<K> := [];
      var rest := values.Keys;
      while rest != {}
        invariant rest <= values.Keys
        invariant forall i :: 0 <= i < |deleteKeys| ==> Expired(View(), deleteKeys[i], now) && deleteKeys[i] !in rest
        invariant forall k :: k in values && k !in rest && Expired(View(), k, now) ==> k in deleteKeys
        invariant forall i, j :: 0 <= i < j < |deleteKeys| ==> deleteKeys[i] != deleteKeys[j]
        decreases rest
      {
        var key :| key in rest;
        if values[key].expiresAt < now {
          deleteKeys := deleteKeys + [values[key].key];
        }
        rest := rest - {key};
      }
      order := deleteKeys;
      for i := 0 to |deleteKeys|
        invariant Valid() && values.Values <= old(values.Values)
        invariant View() == DeletedAll(old(View()), deleteKeys[..i])
      {
        Delete(deleteKeys[i]);
        assert deleteKeys[..i + 1][..i] == deleteKeys[..i];
      }
      assert deleteKeys[..|deleteKeys|] == deleteKeys;
    }
  }

  // ---- Histories ----

  function Replay<K(==), V>(h: seq<Event<K, V>>, ttl: int): Table<K, V> {
    if h == [] then Table(map[], []) else Applied(Replay(h[..|h| - 1], ttl), ttl, h[|h| - 1])
  }

  /** The times do not decrease and end no later than `now`, and every sweep lists what had expired. */
  ghost predicate Legal<K, V>(h: seq<Event<K, V>>, ttl: int, now: int) {
    h == [] ||
    var e := h[|h| - 1];
    && Legal(h[..|h| - 1], ttl, e.now)
    && e.now <= now
    && (e.op.Sweep? ==> ListsExpired(Replay(h[..|h| - 1], ttl), e.now, e.op.order))
  }

  function WithoutSweeps<K, V>(h: seq<Event<K, V>>): seq<Event<K, V>> {
    if h == [] then []
    else WithoutSweeps(h[..|h| - 1]) + if h[|h| - 1].op.Sweep? then [] else [h[|h| - 1]]
  }

  /** The sliding-TTL specification of one key, read off the history: the value of the last Set and the
      time up to which it lives, moved on by every Get in time; sweeps play no part in it. */
  function Lookup<K(==), V>(h: seq<Event<K, V>>, ttl: int, k: K): Option<(V, int)> {
    if h == [] then None
    else
      var before, e := Lookup(h[..|h| - 1], ttl, k), h[|h| - 1];
      match e.op
      case Set(key, v, _) => if key == k then Some((v, e.now + ttl)) else before
      case Delete(key) => if key == k then None else before
      case Get(key) =>
        if key != k || before.None? then before
        else if before.value.1 < e.now then None
        else Some((before.value.0, e.now + ttl))
      case Sweep(_) => before
  }

  /** The table holds what the specification says, except that what has expired may be gone. */
  ghost predicate Agrees<K, V>(t: Table<K, V>, h: seq<Event<K, V>>, ttl: int, k: K, now: int) {
    var spec := Lookup(h, ttl, k);
    && (k in t.items ==> spec == Some((t.items[k].value, t.items[k].expiresAt)))
    && (k !in t.items && spec.Some? ==> spec.value.1 < now)
  }

  lemma {:induction false} DeletedAllItems<K, V>(t: Table<K, V>, order: seq<K>)
    ensures DeletedAll(t, order).items == t.items - set i | 0 <= i < |order| :: order[i]
  {
    if order != [] {
      DeletedAllItems(t, order[..|order| - 1]);
      var front := order[..|order| - 1];
      assert (set i | 0 <= i < |order| :: order[i])
          == (set i | 0 <= i < |front| :: front[i]) + {order[|order| - 1]};
    }
  }

  lemma {:induction false} ReplayAgrees<K, V>(h: seq<Event<K, V>>, ttl: int, k: K, now: int)
    requires Legal(h, ttl, now)
    ensures Agrees(Replay(h, ttl), h, ttl, k, now)
  {
    if h != [] {
      var front, e := h[..|h| - 1], h[|h| - 1];
      ReplayAgrees(front, ttl, k, e.now);
      if e.op.Sweep? {
        DeletedAllItems(Replay(front, ttl), e.op.order);
      }
    }
  }

  lemma {:induction false} LookupIgnoresSweeps<K, V>(h: seq<Event<K, V>>, ttl: int, k: K)
    ensures Lookup(WithoutSweeps(h), ttl, k) == Lookup(h, ttl, k)
  {
    if h != [] {
      LookupIgnoresSweeps(h[..|h| - 1], ttl, k);
      var w := WithoutSweeps(h);
      if h[|h| - 1].op.Sweep? {
        assert w == WithoutSweeps(h[..|h| - 1]);
      } else {
        assert w[..|w| - 1] == WithoutSweeps(h[..|h| - 1]);
      }
    }
  }

  lemma {:induction false} WithoutSweepsLegal<K, V>(h: seq<Event<K, V>>, ttl: int, now: int)
    requires Legal(h, ttl, now)
    ensures Legal(WithoutSweeps(h), ttl, now)
  {
    if h != [] {
      var front, e := h[..|h| - 1], h[|h| - 1];
      WithoutSweepsLegal(front, ttl, e.now);
      var w := WithoutSweeps(h);
      if e.op.Sweep? {
        assert w == WithoutSweeps(front);
        LegalLater(WithoutSweeps(front), ttl, e.now, now);
      } else {
        assert w[..|w| - 1] == WithoutSweeps(front);
      }
    }
  }

  lemma LegalLater<K, V>(h: seq<Event<K, V>>, ttl: int, now: int, later: int)
    requires Legal(h, ttl, now) && now <= later
    ensures Legal(h, ttl, later)
  {
  }

  /** Get follows the sliding-TTL specification after any history of sets, gets, deletes and sweeps. */
  lemma GetMeetsSpecification<K, V>(h: seq<Event<K, V>>, ttl: int, k: K, now: int)
    requires Legal(h, ttl, now)
    ensures var spec := Lookup(h, ttl, k);
      Answer(Replay(h, ttl), k, now) == if spec.Some? && now <= spec.value.1 then Some(spec.value.0) else None
  {
    ReplayAgrees(h, ttl, k, now);
  }

  /** The sweeper is transparent: leaving out all sweeps, wherever they stand, changes no answer. */
  lemma SweepsTransparent<K, V>(h: seq<Event<K, V>>, ttl: int, k: K, now: int)
    requires Legal(h, ttl, now)
    ensures Answer(Replay(h, ttl), k, now) == Answer(Replay(WithoutSweeps(h), ttl), k, now)
  {
    WithoutSweepsLegal(h, ttl, now);
    GetMeetsSpecification(h, ttl, k, now);
    GetMeetsSpecification(WithoutSweeps(h), ttl, k, now);
    LookupIgnoresSweeps(h, ttl, k);
  }

  // ---- Callbacks ----

  /** The callbacks that the sets of a history registered. */
  function Issued<K, V>(h: seq<Event<K, V>>): multiset<nat> {
    if h == [] then multiset{}
    else
      var op := h[|h| - 1].op;
      Issued(h[..|h| - 1]) + if op.Set? && op.onDelete.Some? then multiset{op.onDelete.value} else multiset{}
  }

  /** The callbacks of entries that a later Set of the same key replaced; they never run. */
  function Overwritten<K(==), V>(h: seq<Event<K, V>>, ttl: int): multiset<nat> {
    if h == [] then multiset{}
    else
      var op, t := h[|h| - 1].op, Replay(h[..|h| - 1], ttl);
      Overwritten(h[..|h| - 1], ttl)
      + if op.Set? && op.key in t.items && t.items[op.key].onDelete.Some? then multiset{t.items[op.key].onDelete.value}
        else multiset{}
  }

  ghost predicate Stored<K, V>(items: map<K, Item<V>>, c: nat) {
    exists k :: k in items && items[k].onDelete == Some(c)
  }

  ghost predicate OneKeyEach<K, V>(items: map<K, Item<V>>) {
    forall k, l :: k in items && l in items && k != l && items[k].onDelete.Some? ==>
      items[k].onDelete != items[l].onDelete
  }

  function Weight(b: bool): nat { if b then 1 else 0 }

  lemma DeletedMovesCallback<K, V>(t: Table<K, V>, k: K, c: nat)
    requires OneKeyEach(t.items)
    ensures var t' := Deleted(t, k);
      && OneKeyEach(t'.items)
      && multiset(t'.fired)[c] + Weight(Stored(t'.items, c)) == multiset(t.fired)[c] + Weight(Stored(t.items, c))
  {
    if k in t.items {
      var t' := Deleted(t, k);
      if Stored(t.items, c) {
        var l :| l in t.items && t.items[l].onDelete == Some(c);
        if l != k {
          assert l in t'.items && t'.items[l].onDelete == Some(c);
        }
      }
    }
  }

  lemma {:induction false} DeletedAllMovesCallbacks<K, V>(t: Table<K, V>, order: seq<K>, c: nat)
    requires OneKeyEach(t.items)
    ensures var t' := DeletedAll(t, order);
      && OneKeyEach(t'.items)
      && multiset(t'.fired)[c] + Weight(Stored(t'.items, c)) == multiset(t.fired)[c] + Weight(Stored(t.items, c))
  {
    if order != [] {
      DeletedAllMovesCallbacks(t, order[..|order| - 1], c);
      DeletedMovesCallback(DeletedAll(t, order[..|order| - 1]), order[|order| - 1], c);
    }
  }

  lemma SetMovesCallbacks<K, V>(t: Table<K, V>, ttl: int, e: Event<K, V>, c: nat)
    requires e.op.Set? && OneKeyEach(t.items)
    requires e.op.onDelete.Some? ==> !Stored(t.items, e.op.onDelete.value)
    ensures var t', replaced := Applied(t, ttl, e), if e.op.key in t.items then t.items[e.op.key].onDelete else None;
      && OneKeyEach(t'.items)
      && Weight(Stored(t'.items, c)) + Weight(replaced == Some(c))
         == Weight(Stored(t.items, c)) + Weight(e.op.onDelete == Some(c))
  {
    var t' := Applied(t, ttl, e);
    assert e.op.key in t'.items;
    if Stored(t.items, c) {
      var l :| l in t.items && t.items[l].onDelete == Some(c);
      if l != e.op.key {
        assert l in t'.items && t'.items[l].onDelete == Some(c);
      }
    }
    if Stored(t'.items, c) {
      var l :| l in t'.items && t'.items[l].onDelete == Some(c);
      if l != e.op.key {
        assert l in t.items && t.items[l].onDelete == Some(c);
      }
    }
  }

  lemma TouchedMovesCallback<K, V>(t: Table<K, V>, ttl: int, k: K, now: int, c: nat)
    requires OneKeyEach(t.items)
    ensures var t' := Touched(t, ttl, k, now);
      && OneKeyEach(t'.items)
      && multiset(t'.fired)[c] + Weight(Stored(t'.items, c)) == multiset(t.fired)[c] + Weight(Stored(t.items, c))
  {
    DeletedMovesCallback(t, k, c);
    var t' := Touched(t, ttl, k, now);
    if k in t.items && !Expired(t, k, now) {
      assert forall l :: l in t.items ==> t'.items[l].onDelete == t.items[l].onDelete;
      if Stored(t.items, c) {
        var l :| l in t.items && t.items[l].onDelete == Some(c);
        assert l in t'.items && t'.items[l].onDelete == Some(c);
      }
    }
  }

  ghost predicate Distinct<K, V>(h: seq<Event<K, V>>) {
    forall c :: Issued(h)[c] <= 1
  }

  /** Every registered callback is accounted for: it has run, or its entry is stored, or was replaced. */
  lemma {:induction false} CallbackLedger<K, V>(h: seq<Event<K, V>>, ttl: int, c: nat)
    requires Distinct(h)
    ensures var t := Replay(h, ttl);
      && OneKeyEach(t.items)
      && multiset(t.fired)[c] + Weight(Stored(t.items, c)) + Overwritten(h, ttl)[c] == Issued(h)[c]
  {
    if h != [] {
      var front, e := h[..|h| - 1], h[|h| - 1];
      assert Distinct(front) by {
        forall x ensures Issued(front)[x] <= 1 { assert Issued(h)[x] <= 1; }
      }
      var t := Replay(front, ttl);
      CallbackLedger(front, ttl, c);
      match e.op
      case Set(_, _, callback) =>
        if callback.Some? {
          CallbackLedger(front, ttl, callback.value);
          assert Issued(h)[callback.value] <= 1;
        }
        SetMovesCallbacks(t, ttl, e, c);
      case Get(k) => TouchedMovesCallback(t, ttl, k, e.now, c);
      case Delete(k) => DeletedMovesCallback(t, k, c);
      case Sweep(order) => DeletedAllMovesCallbacks(t, order, c);
    }
  }

  /** With distinct callbacks, the callback of a removed entry has run exactly once, and that of an
      entry that is still stored or was overwritten has not run. */
  lemma RemovedFiresOnce<K, V>(h: seq<Event<K, V>>, ttl: int, c: nat)
    requires Distinct(h) && Issued(h)[c] == 1
    ensures var t := Replay(h, ttl);
      multiset(t.fired)[c] == if Stored(t.items, c) || c in Overwritten(h, ttl) then 0 else 1
  {
    CallbackLedger(h, ttl, c);
  }
}
