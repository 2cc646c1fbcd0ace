/** backend/loaders/loader.go and list.go: batch loaders, and backend/sqlc/collection-queries.go, the
    row source that pads its result with zero rows. */
module Loaders {
  import opened Runs

  /** dataloader.Result: data and error. */
  datatype Result<T> = Result(data: T, error: Option<string>)

  /** What a factory answers to a batch of keys. */
  datatype Fetched<V> = Rows(rows: seq<V>) | FetchError(error: string)

  // ---- Specification: looking one key up ----

  /** The last row of a key. */
  function LastWith<K(==), V>(rows: seq<V>, getKey: V -> K, k: K): Option<V> {
    if rows == [] then None
    else if getKey(rows[|rows| - 1]) == k then Some(rows[|rows| - 1])
    else LastWith(rows[..|rows| - 1], getKey, k)
  }

  /** All rows of a key, in order. */
  function RowsWith<K(==), V>(rows: seq<V>, getKey: V -> K, k: K): seq<V> {
    if rows == [] then []
    else RowsWith(rows[..|rows| - 1], getKey, k) + if getKey(rows[|rows| - 1]) == k then [rows[|rows| - 1]] else []
  }

  /** The row of a key is one of its rows and no later row is; it has none exactly if there is no row. */
  lemma {:induction false} LastWithIff<K, V>(rows: seq<V>, getKey: V -> K, k: K)
    ensures LastWith(rows, getKey, k).None? <==> forall i :: 0 <= i < |rows| ==> getKey(rows[i]) != k
    ensures LastWith(rows, getKey, k).Some? ==>
      exists i :: 0 <= i < |rows| && getKey(rows[i]) == k && LastWith(rows, getKey, k) == Some(rows[i])
                  && forall j :: i < j < |rows| ==> getKey(rows[j]) != k
  {
    if rows != [] && getKey(rows[|rows| - 1]) != k {
      LastWithIff(rows[..|rows| - 1], getKey, k);
      assert forall i :: 0 <= i < |rows| - 1 ==> rows[i] == rows[..|rows| - 1][i];
    }
  }

  ghost predicate Increasing(at: seq<nat>) { forall i, j :: 0 <= i < j < |at| ==> at[i] < at[j] }

  /** `at` gives the places in `all` of the elements that `picked` lists, in order. */
  ghost predicate Picks<T>(all: seq<T>, at: seq<nat>, picked: seq<T>) {
    && |at| == |picked| && Increasing(at)
    && forall j :: 0 <= j < |at| ==> at[j] < |all| && all[at[j]] == picked[j]
  }

  lemma PicksLonger<T>(front: seq<T>, last: T, at: seq<nat>, picked: seq<T>)
    requires Picks(front, at, picked)
    ensures Picks(front + [last], at, picked)
    ensures Picks(front + [last], at + [|front|], picked + [last])
  {
  }

  /** The rows of a key are all rows that have it, each once, in the order of the rows. */
  lemma {:induction false} RowsWithPositions<K, V>(rows: seq<V>, getKey: V -> K, k: K) returns (at: seq<nat>)
    ensures Picks(rows, at, RowsWith(rows, getKey, k))
    ensures forall i: nat :: i in at <==> i < |rows| && getKey(rows[i]) == k
  {
    at := [];
    if rows != [] {
      var front, last := rows[..|rows| - 1], rows[|rows| - 1];
      at := RowsWithPositions(front, getKey, k);
      PicksLonger(front, last, at, RowsWith(front, getKey, k));
      assert front + [last] == rows;
      if getKey(last) == k {
        at := at + [|front|];
      }
    }
  }

  /** The items that are there are all of them, each once, in order. */
  lemma {:induction false} PresentPositions<V>(found: seq<Option<V>>) returns (at: seq<nat>, items: seq<Option<V>>)
    ensures Picks(found, at, items) && |items| == |Present(found)|
    ensures forall j :: 0 <= j < |items| ==> items[j] == Some(Present(found)[j])
    ensures forall i: nat :: i in at <==> i < |found| && found[i].Some?
  {
    at, items := [], [];
    if found != [] {
      var front, last := found[..|found| - 1], found[|found| - 1];
      at, items := PresentPositions(front);
      PicksLonger(front, last, at, items);
      assert front + [last] == found;
      if last.Some? {
        at, items := at + [|front|], items + [last];
      }
    }
  }

  // ---- The batch functions ----

  /** One result per key, in the order of the keys; `zero` is the Go zero value of missing data. */
  method AssembleBatch<K(==), T>(keys: seq<K>, resMap: map<K, T>, error: Option<string>, zero: T)
    returns (results: seq<Result<T>>)
    ensures |results| == |keys|
    ensures forall i :: 0 <= i < |keys| ==>
      results[i] == Result(if keys[i] in resMap then resMap[keys[i]] else zero, error)
  {
    results := [];
    for n := 0 to |keys|
      invariant |results| == n
      invariant forall i :: 0 <= i < n ==>
        results[i] == Result(if keys[i] in resMap then resMap[keys[i]] else zero, error)
    {
      results := results + [Result(if keys[n] in resMap then resMap[keys[n]] else zero, error)];
    }
  }

  /** The batch function of New: the data of a key is its last row, or nil. */
  method BatchItems<K(==), V>(keys: seq<K>, fetched: Fetched<V>, getKey: V -> K)
    returns (results: seq<Result<Option<V>>>)
    ensures |results| == |keys|
    ensures fetched.Rows? ==> forall i :: 0 <= i < |keys| ==>
      results[i] == Result(LastWith(fetched.rows, getKey, keys[i]), None)
    ensures fetched.FetchError? ==> forall i :: 0 <= i < |keys| ==> results[i] == Result(None, Some(fetched.error))
  {
    var resMap: map<K, Option<V>> := map[];
    if fetched.FetchError? {
      results := AssembleBatch(keys, resMap, Some(fetched.error), None);
      return;
    }
    var rows := fetched.rows;
    for n := 0 to |rows|
      invariant forall k :: (if k in resMap then resMap[k] else None) == LastWith(rows[..n], getKey, k)
    {
      resMap := resMap[getKey(rows[n]) := Some(rows[n])];
      assert rows[..n + 1][..n] == rows[..n];
    }
    assert rows[..|rows|] == rows;
    results := AssembleBatch(keys, resMap, None, None);
  }

  /** The batch function of NewListLoader: the data of a key is the list of its rows. */
  method BatchLists<K(==), V>(keys: seq<K>, fetched: Fetched<V>, getKey: V -> K)
    returns (results: seq<Result<seq<V>>>)
    ensures |results| == |keys|
    ensures fetched.Rows? ==> forall i :: 0 <= i < |keys| ==>
      results[i] == Result(RowsWith(fetched.rows, getKey, keys[i]), None)
    ensures fetched.FetchError? ==> forall i :: 0 <= i < |keys| ==> results[i] == Result([], Some(fetched.error))
  {
    var resMap: map<K, seq<V>> := map[];
    if fetched.FetchError? {
      results := AssembleBatch(keys, resMap, Some(fetched.error), []);
      return;
    }
    var rows := fetched.rows;
    for n := 0 to |rows|
      invariant forall k :: (if k in resMap then resMap[k] else []) == RowsWith(rows[..n], getKey, k)
    {
      var key := getKey(rows[n]);
      resMap := resMap[key := (if key in resMap then resMap[key] else []) + [rows[n]]];
      assert rows[..n + 1][..n] == rows[..n];
    }
    assert rows[..|rows|] == rows;
    results := AssembleBatch(keys, resMap, None, []);
  }

  function Present<V>(found: seq<Option<V>>): seq<V> {
    if found == [] then []
    else Present(found[..|found| - 1]) + if found[|found| - 1].Some? then [found[|found| - 1].value] else []
  }

  predicate Failed<T>(results: seq<Result<T>>) {
    exists i :: 0 <= i < |results| && results[i].error.Some?
  }

  /** The errors of LoadMany: no slice at all when no key failed, else a slice with a slot for every
      key, empty for the keys that succeeded. */
  function ErrorsOf<T>(results: seq<Result<T>>): (errs: seq<Option<string>>)
    ensures errs != [] <==> Failed(results)
  {
    if Failed(results) then seq(|results|, i requires 0 <= i < |results| => results[i].error) else []
  }

  function DataOf<T>(results: seq<Result<T>>): seq<T> {
    seq(|results|, i requires 0 <= i < |results| => results[i].data)
  }

  /** The error that GetMany returns: it looks at the first slot only. */
  function ErrorOf<T>(results: seq<Result<T>>): Option<string> {
    if Failed(results) then results[0].error else None
  }

  /** GetMany over the results of its keys: nothing when a key failed, else the items that are there. */
  method GetMany<V>(results: seq<Result<Option<V>>>) returns (items: seq<V>, error: Option<string>)
    ensures error == ErrorOf(results)
    ensures items == if Failed(results) then [] else Present(DataOf(results))
  {
    var errs := ErrorsOf(results);
    if |errs| > 0 {
      return [], errs[0];
    }
    var data := DataOf(results);
    items, error := [], None;
    for n := 0 to |data|
      invariant items == Present(data[..n])
    {
      if data[n].Some? {
        items := items + [data[n].value];
      }
      assert data[..n + 1][..n] == data[..n];
    }
    assert data[..|data|] == data;
  }

  /** Failures are reported faithfully exactly when there are none or the first key is one of them. */
  lemma FailureReportedIff<T>(results: seq<Result<T>>)
    ensures (ErrorOf(results).Some? <==> Failed(results)) <==> (Failed(results) ==> results[0].error.Some?)
    ensures ErrorOf(results).Some? ==> Failed(results)
  {
    if results != [] && results[0].error.Some? {
      assert Failed(results);
    }
  }

  /** A first key that is cached and a second that fails: no items and no error. */
  lemma LostFailure<T>(data: T, zero: T, failure: string)
    ensures var results := [Result(data, None), Result(zero, Some(failure))];
      Failed(results) && ErrorOf(results).None?
  {
    assert [Result(data, None), Result(zero, Some(failure))][1].error.Some?;
  }

  /** All keys of one batch fail together, so a failure is lost only across batches: when the keys are
      loaded by one batch, GetMany reports it, and otherwise gives the items of the rows. */
  method GetManyOfOneBatch<K(==), V>(keys: seq<K>, fetched: Fetched<V>, getKey: V -> K)
    returns (items: seq<V>, error: Option<string>)
    ensures fetched.FetchError? && keys != [] ==> items == [] && error == Some(fetched.error)
    ensures fetched.Rows? ==> error.None?
    ensures fetched.Rows? ==>
      items == Present(seq(|keys|, i requires 0 <= i < |keys| => LastWith(fetched.rows, getKey, keys[i])))
  {
    var results := BatchItems(keys, fetched, getKey);
    assert fetched.FetchError? && keys != [] ==> results[0].error.Some?;
    assert fetched.Rows? ==>
      DataOf(results) == seq(|keys|, i requires 0 <= i < |keys| => LastWith(fetched.rows, getKey, keys[i]));
    items, error := GetMany(results);
  }

  // ---- Batching equals loading one by one ----

  /** A row source that answers a request with the rows of the requested keys, in an order of its own. */
  function Requested<K(==), V>(table: seq<V>, getKey: V -> K, ids: seq<K>): seq<V> {
    if table == [] then []
    else
      Requested(table[..|table| - 1], getKey, ids)
      + if getKey(table[|table| - 1]) in ids then [table[|table| - 1]] else []
  }

  lemma {:induction false} RequestedLookup<K, V>(table: seq<V>, getKey: V -> K, ids: seq<K>, k: K)
    requires k in ids
    ensures LastWith(Requested(table, getKey, ids), getKey, k) == LastWith(table, getKey, k)
    ensures RowsWith(Requested(table, getKey, ids), getKey, k) == RowsWith(table, getKey, k)
  {
    if table != [] {
      var front, last := table[..|table| - 1], table[|table| - 1];
      RequestedLookup(front, getKey, ids, k);
      var r := Requested(table, getKey, ids);
      if getKey(last) in ids {
        assert r[..|r| - 1] == Requested(front, getKey, ids);
      } else {
        assert r == Requested(front, getKey, ids);
      }
    }
  }

  /** In a batch, every key gets what it gets when it is loaded alone, for items and for lists. */
  lemma BatchEqualsPointwise<K, V>(table: seq<V>, getKey: V -> K, ids: seq<K>, i: nat)
    requires i < |ids|
    ensures LastWith(Requested(table, getKey, ids), getKey, ids[i])
         == LastWith(Requested(table, getKey, [ids[i]]), getKey, ids[i])
    ensures RowsWith(Requested(table, getKey, ids), getKey, ids[i])
         == RowsWith(Requested(table, getKey, [ids[i]]), getKey, ids[i])
  {
    RequestedLookup(table, getKey, ids, ids[i]);
    RequestedLookup(table, getKey, [ids[i]], ids[i]);
  }

  // ---- The padded row source ----

  /** A row of the collections_entries query; the Go zero value is ZERO_ENTRY. */
  datatype CollectionsEntry = CollectionsEntry(
    id: int, sort: Option<int>, collectionsId: int, item: Option<string>, collection: string)

  datatype CollectionItem = CollectionItem(id: int, sort: int, collectionId: int, kind: string, item: Option<string>)

  const ZERO_ENTRY := CollectionsEntry(0, None, 0, None, "")

  function ToItem(parse: string -> Option<string>, e: CollectionsEntry): CollectionItem {
    CollectionItem(e.id, if e.sort.Some? then e.sort.value else 0, e.collectionsId,
                   if parse(e.collection).Some? then parse(e.collection).value else "unknown", e.item)
  }

  function ToItems(parse: string -> Option<string>, entries: seq<CollectionsEntry>): (r: seq<CollectionItem>)
    ensures |r| == |entries|
  {
    seq(|entries|, i requires 0 <= i < |entries| => ToItem(parse, entries[i]))
  }

  function CollectionId(item: CollectionItem): int { item.collectionId }

  function Zeros(n: nat): seq<CollectionsEntry> { seq(n, _ => ZERO_ENTRY) }

  /** The item has these columns; a missing sort is 0 and a collection of another name is "unknown". */
  predicate ConvertedFrom(parse: string -> Option<string>, id: int, sort: Option<int>, collectionsId: int,
                          item: Option<string>, collection: string, r: CollectionItem) {
    && r.id == id && r.collectionId == collectionsId && r.item == item
    && (sort == None ==> r.sort == 0) && (sort.Some? ==> sort == Some(r.sort))
    && (parse(collection) == None ==> r.kind == "unknown")
    && (parse(collection).Some? ==> parse(collection) == Some(r.kind))
  }

  /** The rows are appended to a slice that already has as many zero rows. */
  method GetItemsForCollections(items: seq<CollectionsEntry>, parse: string -> Option<string>)
    returns (r: seq<CollectionItem>)
    ensures r == ToItems(parse, Zeros(|items|) + items)
    ensures |r| == 2 * |items|
    ensures forall i :: 0 <= i < |items| ==> ConvertedFrom(parse, 0, None, 0, None, "", r[i])
    ensures forall i :: 0 <= i < |items| ==> var e := items[i];
      ConvertedFrom(parse, e.id, e.sort, e.collectionsId, e.item, e.collection, r[|items| + i])
  {
    var colEnts := Zeros(|items|);
    for n := 0 to |items|
      invariant colEnts == Zeros(|items|) + items[..n]
    {
      var i := items[n];
      colEnts := colEnts + [CollectionsEntry(i.id, i.sort, i.collectionsId, i.item, i.collection)];
    }
    assert items[..|items|] == items;
    r := ToItems(parse, colEnts);
  }

  lemma {:induction false} RowsWithAppend<K, V>(a: seq<V>, b: seq<V>, getKey: V -> K, k: K)
    ensures RowsWith(a + b, getKey, k) == RowsWith(a, getKey, k) + RowsWith(b, getKey, k)
  {
    if b == [] {
      assert a + b == a;
    } else {
      assert (a + b)[..|a + b| - 1] == a + b[..|b| - 1];
      RowsWithAppend(a, b[..|b| - 1], getKey, k);
    }
  }

  lemma {:induction false} RowsOfZeros(n: nat, parse: string -> Option<string>, k: int)
    ensures RowsWith(ToItems(parse, Zeros(n)), CollectionId, k) == if k == 0 then ToItems(parse, Zeros(n)) else []
  {
    if n > 0 {
      var zeros := ToItems(parse, Zeros(n));
      assert zeros[..n - 1] == ToItems(parse, Zeros(n - 1));
      assert zeros == zeros[..n - 1] + [zeros[n - 1]];
      RowsOfZeros(n - 1, parse, k);
    }
  }

  /** The padding reaches the list of a key exactly when the key is 0 and there are rows at all: the
      list of any other key is that of the rows without padding. */
  lemma PaddingVisibleIff(entries: seq<CollectionsEntry>, parse: string -> Option<string>, k: int)
    ensures (RowsWith(ToItems(parse, Zeros(|entries|) + entries), CollectionId, k)
             == RowsWith(ToItems(parse, entries), CollectionId, k))
            <==> k != 0 || entries == []
  {
    var zeros, rows := ToItems(parse, Zeros(|entries|)), ToItems(parse, entries);
    assert ToItems(parse, Zeros(|entries|) + entries) == zeros + rows;
    RowsWithAppend(zeros, rows, CollectionId, k);
    RowsOfZeros(|entries|, parse, k);
    assert k == 0 ==> |RowsWith(zeros + rows, CollectionId, k)| == |entries| + |RowsWith(rows, CollectionId, k)|;
  }

  function EntryCollection(e: CollectionsEntry): int { e.collectionsId }

  lemma {:induction false} ItemsOfKey(entries: seq<CollectionsEntry>, parse: string -> Option<string>, k: int)
    ensures RowsWith(ToItems(parse, entries), CollectionId, k) == ToItems(parse, RowsWith(entries, EntryCollection, k))
  {
    if entries != [] {
      var front := entries[..|entries| - 1];
      ItemsOfKey(front, parse, k);
      var items := ToItems(parse, entries);
      assert items[..|items| - 1] == ToItems(parse, front);
    }
  }

  /** A batch of the list loader over the padded source equals loading each key alone, for every key
      but 0, although the amount of padding depends on the batch. */
  lemma {:induction false} PaddedBatchEqualsPointwise(
    table: seq<CollectionsEntry>, parse: string -> Option<string>, ids: seq<int>, i: nat)
    requires i < |ids| && ids[i] != 0
    ensures var batch, alone := Requested(table, EntryCollection, ids), Requested(table, EntryCollection, [ids[i]]);
      RowsWith(ToItems(parse, Zeros(|batch|) + batch), CollectionId, ids[i])
      == RowsWith(ToItems(parse, Zeros(|alone|) + alone), CollectionId, ids[i])
  {
    var batch, alone := Requested(table, EntryCollection, ids), Requested(table, EntryCollection, [ids[i]]);
    PaddingVisibleIff(batch, parse, ids[i]);
    PaddingVisibleIff(alone, parse, ids[i]);
    ItemsOfKey(batch, parse, ids[i]);
    ItemsOfKey(alone, parse, ids[i]);
    BatchEqualsPointwise(table, EntryCollection, ids, i);
  }
}
