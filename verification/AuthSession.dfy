/** The calls of the auth state as the factory performs them (src/factory.ts). */
module AuthSession {
  // `keys.set` has nested loops over its data, one database batch each way, and the
  // cache updates after it. Each method is proved to be a step of the stored side in
  // `AuthState`.

  import opened Wrappers
  import opened Records
  import opened CacheKeys
  import opened Categories
  import opened MemoryCache
  import opened SqliteWorker
  import opened CacheManager
  import opened Retention
  import opened AuthState
  import B = WriteBatcher

  /** One category of the data passed to `keys.set`; a falsy value is a deletion. */
  datatype Item<+V> = Item(id: string, value: Option<V>)
  datatype Bucket<+V> = Bucket(category: string, items: Option<seq<Item<V>>>)

  function ItemChanges<V>(category: string, items: seq<Item<V>>): seq<Change<V>> {
    if items == [] then []
    else ItemChanges(category, items[..|items| - 1]) +
         [Change(Key(category, items[|items| - 1].id), items[|items| - 1].value)]
  }

  /** The data of one `keys.set` call as a list of changes, in iteration order. */
  function ChangesOf<V>(data: seq<Bucket<V>>): seq<Change<V>> {
    if data == [] then []
    else
      var b := data[|data| - 1];
      ChangesOf(data[..|data| - 1]) + (if b.items.Some? then ItemChanges(b.category, b.items.value) else [])
  }

  // ---------------------------------------------------------------- what `keys.set` stores

  predicate InData<V>(data: seq<Bucket<V>>, i: int, j: int) {
    0 <= i < |data| && data[i].items.Some? && 0 <= j < |data[i].items.value|
  }

  /** The j-th item of the i-th category, as a change. */
  function ChangeAt<V>(data: seq<Bucket<V>>, i: int, j: int): Change<V>
    requires InData(data, i, j)
  {
    Change(Key(data[i].category, data[i].items.value[j].id), data[i].items.value[j].value)
  }

  /** Known categories, no colliding id, and each name once. */
  ghost predicate ProperData<V(!new)>(data: seq<Bucket<V>>) {
    && (forall i, j :: InData(data, i, j) ==> Proper(ChangeAt(data, i, j).name))
    && (forall i, j, k, l ::
          InData(data, i, j) && InData(data, k, l) && ChangeAt(data, i, j).name == ChangeAt(data, k, l).name ==>
            i == k && j == l)
  }

  lemma {:induction false} ItemChangesMembers<V(!new)>(category: string, items: seq<Item<V>>)
    ensures forall c :: c in ItemChanges(category, items) <==>
              exists j :: 0 <= j < |items| && c == Change(Key(category, items[j].id), items[j].value)
  {
    if items != [] {
      var n := |items| - 1;
      ItemChangesMembers(category, items[..n]);
      assert items == items[..n] + [items[n]];
    }
  }

  ghost predicate HasItem<V(!new)>(data: seq<Bucket<V>>, c: Change<V>) {
    exists i, j :: InData(data, i, j) && c == ChangeAt(data, i, j)
  }

  /** The changes of a call are exactly its items: no category and no item is lost. */
  lemma {:induction false} ChangesAreItems<V(!new)>(data: seq<Bucket<V>>)
    ensures forall c :: c in ChangesOf(data) <==> HasItem(data, c)
  {
    if data != [] {
      var n := |data| - 1;
      ChangesAreItems(data[..n]);
      forall c ensures c in ChangesOf(data) <==> HasItem(data, c) {
        LastChanges(data, c);
        LastBucket(data, c);
      }
    }
  }

  lemma LastChanges<V(!new)>(data: seq<Bucket<V>>, c: Change<V>)
    requires data != []
    ensures c in ChangesOf(data) <==> c in ChangesOf(data[..|data| - 1]) || exists j :: InLast(data, j, c)
  {
    var b := data[|data| - 1];
    if b.items.Some? {
      ItemChangesMembers(b.category, b.items.value);
      if c in ItemChanges(b.category, b.items.value) {
        var j :| 0 <= j < |b.items.value| && c == Change(Key(b.category, b.items.value[j].id), b.items.value[j].value);
        assert InLast(data, j, c);
      }
    }
  }

  /** An item is in a category before the last one or in the last one. */
  lemma LastBucket<V(!new)>(data: seq<Bucket<V>>, c: Change<V>)
    requires data != []
    ensures HasItem(data, c) <==> HasItem(data[..|data| - 1], c) || exists j :: InLast(data, j, c)
  {
    var n := |data| - 1;
    if i, j :| InData(data, i, j) && c == ChangeAt(data, i, j) {
      assert i < n ==> InData(data[..n], i, j) && c == ChangeAt(data[..n], i, j);
      assert i == n ==> InLast(data, j, c);
    }
    if i, j :| InData(data[..n], i, j) && c == ChangeAt(data[..n], i, j) {
      assert InData(data, i, j) && c == ChangeAt(data, i, j);
    }
    if j :| InLast(data, j, c) {
      assert InData(data, n, j) && c == ChangeAt(data, n, j);
    }
  }

  ghost predicate InLast<V(!new)>(data: seq<Bucket<V>>, j: int, c: Change<V>)
    requires data != []
  {
    var b := data[|data| - 1];
    && b.items.Some? && 0 <= j < |b.items.value|
    && c == Change(Key(b.category, b.items.value[j].id), b.items.value[j].value)
  }

  /** All changes of a row key agree: then the batch stores that value, or deletes the row, or does not touch it. */
  lemma {:induction false} BatchHolds<V(!new)>(codec: Codec<V>, changes: seq<Change<V>>, key: string, value: Option<V>)
    requires forall c :: c in changes && RowKey(c.name) == key ==> c.value == value
    ensures if exists c :: c in changes && RowKey(c.name) == key then
              && LastValue(Entries(codec, changes), key) == (if value.Some? then Some(codec.enc(value.value)) else None)
              && (key in Deletions(changes) <==> value.None?)
            else
              LastValue(Entries(codec, changes), key).None? && key !in Deletions(changes)
    decreases |changes|
  {
    if changes != [] {
      var c, before := changes[|changes| - 1], changes[..|changes| - 1];
      assert changes == before + [c];
      BatchHolds(codec, before, key, value);
      EntriesLast(codec, changes, key);
    }
  }

  /** What such a batch leaves of the row. */
  lemma BatchRow<V(!new)>(codec: Codec<V>, rows: Rows, sid: string, changes: seq<Change<V>>, now: int, key: string,
                          value: Option<V>)
    requires forall c :: c in changes && RowKey(c.name) == key ==> c.value == value
    ensures var t := RemoveAll(UpsertAll(rows, sid, Entries(codec, changes), now), sid, Deletions(changes));
            var p := Pair(sid, key);
            if !exists c :: c in changes && RowKey(c.name) == key then
              (p in t <==> p in rows) && (p in t ==> t[p] == rows[p])
            else if value.Some? then
              p in t && t[p].value == codec.enc(value.value) && t[p].updatedAt == now
            else
              p !in t
  {
    BatchHolds(codec, changes, key, value);
    UpsertAllEffect(rows, sid, Entries(codec, changes), now, Pair(sid, key));
  }

  /**
   After `keys.set` the row of each item of each category holds its encoded value
   and the time of the call, or is gone if the item has no value.
   */
  lemma KeysSetStores<V(!new)>(codec: Codec<V>, s: Store, sid: string, data: seq<Bucket<V>>, now: int, limits: Limits,
                               i: int, j: int)
    requires ProperData(data) && InData(data, i, j)
    ensures var t := StoreStep(codec, s, sid, Call(Action.KeysSet(ChangesOf(data)), now), limits).1;
            var item := data[i].items.value[j];
            var p := Pair(sid, data[i].category + "-" + item.id);
            if item.value.Some? then
              p in t.rows && t.rows[p].value == codec.enc(item.value.value) && t.rows[p].updatedAt == now
            else
              p !in t.rows
  {
    var c := ChangeAt(data, i, j);
    ChangesAreItems(data);
    assert HasItem(data, c);
    AgreeOnRow(data, i, j);
    BatchRow(codec, s.rows, sid, ChangesOf(data), now, RowKey(c.name), c.value);
  }

  /** With proper data all changes of an item's row are that item. */
  lemma AgreeOnRow<V(!new)>(data: seq<Bucket<V>>, i: int, j: int)
    requires ProperData(data) && InData(data, i, j)
    ensures forall d :: d in ChangesOf(data) && RowKey(d.name) == RowKey(ChangeAt(data, i, j).name) ==>
              d.value == ChangeAt(data, i, j).value
  {
    var c := ChangeAt(data, i, j);
    ChangesAreItems(data);
    forall d | d in ChangesOf(data) && RowKey(d.name) == RowKey(c.name) ensures d.value == c.value {
      assert HasItem(data, d);
      var k, l :| InData(data, k, l) && d == ChangeAt(data, k, l);
      RowKeyInjective(d.name, c.name);
    }
  }

  /** And every other row, of this session or another, is as before. */
  lemma KeysSetSpares<V(!new)>(codec: Codec<V>, s: Store, sid: string, data: seq<Bucket<V>>, now: int, limits: Limits,
                               p: Pair)
    requires p.sid == sid ==> forall i, j :: InData(data, i, j) ==>
               p.key != data[i].category + "-" + data[i].items.value[j].id
    ensures var t := StoreStep(codec, s, sid, Call(Action.KeysSet(ChangesOf(data)), now), limits).1;
            (p in t.rows <==> p in s.rows) && (p in t.rows ==> t.rows[p] == s.rows[p])
  {
    var changes := ChangesOf(data);
    ChangesAreItems(data);
    if p.sid == sid {
      forall d | d in changes ensures RowKey(d.name) != p.key {
        assert HasItem(data, d);
        var k, l :| InData(data, k, l) && d == ChangeAt(data, k, l);
      }
      BatchRow<V>(codec, s.rows, sid, changes, now, p.key, None);
    } else {
      UpsertAllEffect(s.rows, sid, Entries(codec, changes), now, p);
    }
  }

  // ---------------------------------------------------------------- the loops

  /** One more change at the end of a list adds to one of the two lists. */
  lemma EntriesPush<V>(codec: Codec<V>, changes: seq<Change<V>>, c: Change<V>)
    ensures Entries(codec, changes + [c]) ==
            Entries(codec, changes) + if c.value.Some? then [KeyValue(RowKey(c.name), codec.enc(c.value.value))] else []
    ensures Deletions(changes + [c]) == Deletions(changes) + if c.value.None? then [RowKey(c.name)] else []
  {
    assert (changes + [c])[..|changes + [c]| - 1] == changes;
  }

  /** One more item of a category, after the changes collected before it. */
  lemma ItemNext<V>(done: seq<Change<V>>, category: string, items: seq<Item<V>>, j: nat)
    requires j < |items|
    ensures done + ItemChanges(category, items[..j + 1]) ==
            (done + ItemChanges(category, items[..j])) + [Change(Key(category, items[j].id), items[j].value)]
  {
    assert items[..j + 1][..j] == items[..j];
  }

  /** The batcher has nothing pending, queued, running or settling, and nobody waits. */
  ghost predicate Drained(s: B.State) {
    && s.pending == [] && s.queue == [] && s.running.Idle? && s.settling == []
    && s.flushWaiters == [] && !s.timerArmed
  }

  /** A batch as the flush passes it to the database. */
  function EntriesOf(items: seq<B.Item>): seq<KeyValue> {
    seq(|items|, i requires 0 <= i < |items| => KeyValue(items[i].key, items[i].value))
  }

  /** Storing the credentials is storing one entry. */
  lemma SaveCredsStores<V>(codec: Codec<V>, s: Store, sid: string, creds: V, now: int, limits: Limits)
    ensures var entries := [KeyValue(CREDS_KEY, codec.enc(creds))];
            StoreStep(codec, s, sid, Call(Action.SaveCreds(creds), now), limits).1 ==
            Store(UpsertAll(s.rows, sid, entries, now), Written(s.l1, sid, entries, now, limits))
  {
    var entries, one := [KeyValue(CREDS_KEY, codec.enc(creds))], [Change(Creds, Some(creds))];
    EntriesPush(codec, [], one[0]);
    assert [] + one == one;
    DropNothing(Written(s.l1, sid, entries, now, limits));
    assert CacheKeysOf(sid, SetOf([])) == {};
    assert RemoveAll(UpsertAll(s.rows, sid, entries, now), sid, []) == UpsertAll(s.rows, sid, entries, now);
  }

  class Session<V> {
    const sid: string
    const codec: Codec<V>
    const cache: Manager
    const batcher: B.Batcher

    /** The stored side is in order, and there is no Redis. */
    ghost predicate Ready()
      reads cache, cache.l1
    {
      cache.Valid() && cache.mode == NoRedis
    }

    /** Between calls the batcher has nothing to do either. */
    ghost predicate Valid()
      reads cache, cache.l1, batcher
    {
      Ready() && batcher.Valid() && Drained(batcher.View())
    }

    ghost function View(): Store
      reads cache, cache.l1, cache.table
    {
      Store(cache.table.rows, cache.l1.store)
    }

    constructor (sid: string, codec: Codec<V>, cache: Manager, debounceMs: int)
      requires cache.Valid() && cache.mode == NoRedis
      ensures Valid() && this.sid == sid && this.codec == codec && this.cache == cache
      ensures fresh(batcher) && batcher.View() == B.START && batcher.debounceMs == debounceMs
    {
      this.sid, this.codec, this.cache := sid, codec, cache;
      batcher := new B.Batcher(debounceMs);
    }

    /** The collecting loops of `keys.set`. */
    method Collect(data: seq<Bucket<V>>) returns (entries: seq<KeyValue>, deletions: seq<string>)
      ensures entries == Entries(codec, ChangesOf(data)) && deletions == Deletions(ChangesOf(data))
    {
      entries, deletions := [], [];
      for i := 0 to |data|
        invariant entries == Entries(codec, ChangesOf(data[..i])) && deletions == Deletions(ChangesOf(data[..i]))
      {
        ghost var done := ChangesOf(data[..i]);
        assert data[..i + 1][..i] == data[..i];
        if data[i].items.Some? {
          entries, deletions := CollectBucket(data[i].category, data[i].items.value, entries, deletions, done);
          assert ChangesOf(data[..i + 1]) == done + ItemChanges(data[i].category, data[i].items.value);
        } else {
          assert ChangesOf(data[..i + 1]) == done;
        }
      }
      assert data[..|data|] == data;
    }

    /** The inner loop, over one category: pushes onto the two lists collected from `done`. */
    method CollectBucket(category: string, items: seq<Item<V>>, e: seq<KeyValue>, d: seq<string>,
                         ghost done: seq<Change<V>>)
      returns (entries: seq<KeyValue>, deletions: seq<string>)
      requires e == Entries(codec, done) && d == Deletions(done)
      ensures entries == Entries(codec, done + ItemChanges(category, items))
      ensures deletions == Deletions(done + ItemChanges(category, items))
    {
      entries, deletions := e, d;
      assert done + [] == done;
      for j := 0 to |items|
        invariant entries == Entries(codec, done + ItemChanges(category, items[..j]))
        invariant deletions == Deletions(done + ItemChanges(category, items[..j]))
      {
        ItemNext(done, category, items, j);
        EntriesPush(codec, done + ItemChanges(category, items[..j]),
                    Change(Key(category, items[j].id), items[j].value));
        var name := StoredKey(category, items[j].id);
        if items[j].value.Some? {
          entries := entries + [KeyValue(name, codec.enc(items[j].value.value))];
        } else {
          deletions := deletions + [name];
        }
      }
      assert items[..|items|] == items;
    }

    /** One locked write: the batch goes to the database, then every entry to the cache. */
    method WriteBatch(entries: seq<KeyValue>, now: int)
      requires Ready()
      modifies cache.table`rows, cache.l1`store, cache.l1`currentBytes, cache.l2
      ensures Ready()
      ensures View() == Store(UpsertAll(old(View()).rows, sid, entries, now),
                              Written(old(View()).l1, sid, entries, now, cache.l1.limits))
    {
      cache.table.SetMany(sid, entries, now);
      for i := 0 to |entries|
        invariant Ready()
        invariant cache.table.rows == UpsertAll(old(View()).rows, sid, entries, now)
        invariant cache.l1.store == Written(old(View()).l1, sid, entries[..i], now, cache.l1.limits)
      {
        assert entries[..i + 1][..i] == entries[..i];
        cache.OnWritten(sid, entries[i].key, entries[i].value, now, now, ALL_SENT);
      }
      assert entries[..|entries|] == entries;
    }

    method DeleteBatch(deletions: seq<string>)
      requires Ready()
      modifies cache.table`rows, cache.l1`store, cache.l1`currentBytes, cache.l2
      ensures Ready()
      ensures View() == Store(RemoveAll(old(View()).rows, sid, deletions),
                              Filter(old(View()).l1, NotIn(CacheKeysOf(sid, SetOf(deletions)))))
    {
      cache.table.DeleteMany(sid, deletions);
      DropFromCaches(cache, sid, deletions, ALL_SENT);
    }

    method KeysSet(data: seq<Bucket<V>>, now: int)
      requires Valid()
      modifies cache.table`rows, cache.l1`store, cache.l1`currentBytes, cache.l2
      ensures Valid()
      ensures View() == StoreStep(codec, old(View()), sid, Call(Action.KeysSet(ChangesOf(data)), now),
                                  cache.l1.limits).1
    {
      var entries, deletions := Collect(data);
      if |entries| > 0 {
        WriteBatch(entries, now);
      }
      ghost var rows, l1 := cache.table.rows, cache.l1.store;
      if |deletions| > 0 {
        DeleteBatch(deletions);
      } else {
        DropNothing(l1);
        assert CacheKeysOf(sid, SetOf([])) == {};
        assert RemoveAll(rows, sid, []) == rows;
      }
    }

    method KeysGet(category: string, ids: seq<string>, now: int) returns (data: map<string, V>)
      requires Valid()
      modifies cache.l1`store, cache.l1`currentBytes, cache.l2`store
      ensures Valid()
      ensures (Values(data), View()) == StoreStep(codec, old(View()), sid, Call(Action.KeysGet(category, ids), now),
                                                  cache.l1.limits)
    {
      data := map[];
      for i := 0 to |ids|
        invariant Valid() && cache.table.rows == old(View()).rows
        invariant (data, View()) == StoreGet(codec, old(View()), sid, category, ids[..i], now, cache.l1.limits)
      {
        assert ids[..i + 1][..i] == ids[..i];
        var raw := ReadOne(StoredKey(category, ids[i]), now);
        if raw.Some? && raw.value != "" {
          data := data[ids[i] := Shown(codec, category, codec.dec(raw.value))];
        }
      }
      assert ids[..|ids|] == ids;
    }

    method ReadOne(key: string, now: int) returns (raw: Option<string>)
      requires Valid()
      modifies cache.l1`store, cache.l1`currentBytes, cache.l2`store
      ensures Valid() && cache.table.rows == old(cache.table.rows)
      ensures (raw, View()) == StoreRead(old(View()), sid, key, now, cache.l1.limits)
    {
      ghost var l1, l2 := cache.l1.store, cache.l2.store;
      raw := cache.Read(sid, key, now, ALL_OK);
    }

    /**
     `saveCreds` with nothing else going on: the write waits for the timer unless
     there is no debounce window, the flush stores the batch under the lock, the
     write's promise resolves, and the second flush finds nothing pending.
     */
    method SaveCreds(creds: V, now: int)
      requires Valid()
      modifies cache.table`rows, cache.l1`store, cache.l1`currentBytes, cache.l2, batcher
      ensures Valid()
      ensures View() == StoreStep(codec, old(View()), sid, Call(Action.SaveCreds(creds), now), cache.l1.limits).1
      ensures var item := B.Item(CREDS_KEY, codec.enc(creds), old(|batcher.writes|));
              && batcher.writes == old(batcher.writes) + [item]
              && batcher.completed == old(batcher.completed) + [[item]]
              && batcher.resolved == old(batcher.resolved) + [item.id]
    {
      SaveCredsStores(codec, View(), sid, creds, now, cache.l1.limits);
      var entries := FlushBegins(codec.enc(creds));
      WriteBatch(entries, now);
      FlushEnds();
    }

    /** The flush is over and its waiters resolve; then `flushNow` finds nothing pending. */
    method FlushEnds()
      requires batcher.Valid() && batcher.running.Flushing?
      requires Drained(batcher.View().(running := B.Idle))
      modifies batcher
      ensures batcher.Valid() && Drained(batcher.View())
      ensures batcher.writes == old(batcher.writes)
      ensures batcher.completed == old(batcher.completed) + [old(batcher.running.batch)]
      ensures batcher.resolved == old(batcher.resolved) + old(batcher.running.task.waiters)
    {
      batcher.FinishFlush(true);
      batcher.Settle();
      ghost var resolved := batcher.resolved;
      batcher.FlushNow([]);
      batcher.StartTask();
      batcher.Settle();
      assert resolved + [] == resolved;
    }

    /** The write reaches its flush, which gets the batch to store. */
    method FlushBegins(text: string) returns (entries: seq<KeyValue>)
      requires Valid()
      modifies batcher
      ensures batcher.Valid() && entries == [KeyValue(CREDS_KEY, text)]
      ensures var s, item := old(batcher.View()), B.Item(CREDS_KEY, text, |old(batcher.View()).writes|);
              batcher.View() == s.(running := B.Flushing(B.Task([item.id]), [item]), writes := s.writes + [item])
    {
      ghost var s, item := batcher.View(), B.Item(CREDS_KEY, text, batcher.calls);
      batcher.Write(CREDS_KEY, text);
      assert s.flushWaiters + [item.id] == [item.id] == [item.id] + [];
      if batcher.debounceMs > 0 {
        assert batcher.flushWaiters == [item.id] && batcher.queue == [];
        batcher.FlushNow([]);
      }
      assert batcher.queue == [B.Task([item.id])] && batcher.pending == [item];
      batcher.StartTask();
      entries := EntriesOf(batcher.running.batch);
    }

    method LoadCreds(now: int) returns (creds: Option<V>)
      requires Valid()
      modifies cache.l1`store, cache.l1`currentBytes, cache.l2`store
      ensures Valid()
      ensures (LoadedCreds(creds), View()) == StoreStep(codec, old(View()), sid, Call(Action.LoadCreds, now),
                                                        cache.l1.limits)
    {
      var raw := ReadOne(CREDS_KEY, now);
      creds := if raw.Some? && raw.value != "" then Some(codec.dec(raw.value)) else None;
    }

    method Prune(target: string, options: Options, now: int) returns (pruned: seq<string>)
      requires Valid()
      modifies cache.table`rows, cache.l1`store, cache.l1`currentBytes, cache.l2
      ensures Valid()
      ensures View() == StoreStep(codec, old(View()), sid, Call(Action.Prune(target, options), now),
                                  cache.l1.limits).1
      ensures forall k :: k in pruned <==> Stale(old(View()).rows, target, k, options, now)
    {
      ghost var rows := cache.table.rows;
      var allKeys := cache.table.GetAllKeys(target);
      pruned := PruneExpiredKeys(cache, target, options, allKeys, now, ALL_SENT);
      PrunedKeys(rows, target, options, now, pruned);
    }

    method DeleteSession(target: string)
      requires Valid()
      modifies cache.table`rows, cache.l1`store, cache.l1`currentBytes
      ensures Valid()
      ensures forall now, limits :: View() == StoreStep(codec, old(View()), sid,
                                                        Call(Action.DeleteSession(target), now), limits).1
    {
      cache.table.DeleteSession(target);
      cache.ClearSession(target);
    }

    /** `entries` are the object's properties. */
    method ImportSession(target: string, entries: seq<KeyValue>, now: int)
      requires Valid()
      modifies cache.table`rows, cache.l1`store, cache.l1`currentBytes
      ensures Valid()
      ensures View() == StoreStep(codec, old(View()), sid, Call(Action.ImportSession(target, entries), now),
                                  cache.l1.limits).1
    {
      cache.table.SetMany(target, entries, now);
      cache.ClearSession(target);
    }

    /** Without a session id, or with an empty one, everything goes. */
    method ClearCache(target: Option<string>)
      requires Valid()
      modifies cache.l1`store, cache.l1`currentBytes
      ensures Valid()
      ensures forall now, limits :: View() == StoreStep(codec, old(View()), sid,
                                                        Call(Action.ClearCache(target), now), limits).1
    {
      if target.Some? && target.value != "" {
        cache.ClearSession(target.value);
      } else {
        cache.ClearAll();
      }
    }
  }

  lemma PrunedKeys(rows: Rows, sid: string, options: Options, now: int, pruned: seq<string>)
    requires forall k :: k in pruned <==> Stale(rows, sid, k, options, now)
    ensures SetOf(pruned) == set p | p in rows && p.sid == sid && Stale(rows, sid, p.key, options, now) :: p.key
  {
    forall k | k in pruned
      ensures k in (set p | p in rows && p.sid == sid && Stale(rows, sid, p.key, options, now) :: p.key)
    {
      assert Pair(sid, k) in rows && Pair(sid, k).key == k;
    }
  }
}
