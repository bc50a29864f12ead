/** The auth state a bot sees (src/factory.ts, src/session-manager.ts), without Redis. */
module AuthState {
  // The calls do not overlap. Any sequence of calls answers as one plain map from
  // names to values would.

  import opened Wrappers
  import opened Records
  import opened CacheKeys
  import opened Categories
  import opened MemoryCache
  import opened SqliteWorker
  import opened CacheManager
  import opened Retention

  /** What a value is stored under: the credentials, or one id of one category. */
  datatype Name = Creds | Key(category: string, id: string)

  /** One value to store, or (without a value) one to delete. */
  datatype Change<+V> = Change(name: Name, value: Option<V>)

  const SYNC_KEY := "app-state-sync-key"

  /**
   `encode` and `decode` of the factory (serialisation and, if enabled, encryption),
   and the conversion that `keys.get` applies to values of one category.
   */
  datatype Codec<!V> = Codec(enc: V -> string, dec: string -> V, fromObject: V -> V)

  /** A stored value as `keys.get` hands it out. */
  function Shown<V>(codec: Codec<V>, category: string, value: V): V {
    if category == SYNC_KEY then codec.fromObject(value) else value
  }

  ghost predicate Faithful<V(!new)>(codec: Codec<V>) {
    forall v: V :: codec.dec(codec.enc(v)) == v && codec.enc(v) != ""
  }

  function RowKey(n: Name): string {
    match n
    case Creds => CREDS_KEY
    case Key(category, id) => StoredKey(category, id)
  }

  predicate Proper(n: Name) {
    n.Key? ==> n.category in LISTED && !Collides(n.category, n.id)
  }

  lemma RowKeyInjective(a: Name, b: Name)
    requires Proper(a) && Proper(b) && RowKey(a) == RowKey(b)
    ensures a == b
  {
    if a.Key? && b.Key? {
      StoredKeyInjective(a.category, a.id, b.category, b.id);
    }
  }

  // ---------------------------------------------------------------- the stored side

  datatype Store = Store(rows: Rows, l1: seq<Slot>)

  function Entries<V>(codec: Codec<V>, changes: seq<Change<V>>): seq<KeyValue> {
    if changes == [] then []
    else
      var c := changes[|changes| - 1];
      Entries(codec, changes[..|changes| - 1]) +
      (if c.value.Some? then [KeyValue(RowKey(c.name), codec.enc(c.value.value))] else [])
  }

  function Deletions<V>(changes: seq<Change<V>>): seq<string> {
    if changes == [] then []
    else
      var c := changes[|changes| - 1];
      Deletions(changes[..|changes| - 1]) + (if c.value.None? then [RowKey(c.name)] else [])
  }

  /** L1 after `onWritten` for each entry, in order; the version is the time. */
  function Written(l1: seq<Slot>, sid: string, entries: seq<KeyValue>, now: int, limits: Limits): seq<Slot> {
    if entries == [] then l1
    else
      var e := entries[|entries| - 1];
      AfterSet(Written(l1, sid, entries[..|entries| - 1], now, limits), CacheKey(Pair(sid, e.key)), e.value, now,
               now, limits)
  }

  function StoreSet<V>(codec: Codec<V>, s: Store, sid: string, changes: seq<Change<V>>, now: int,
                       limits: Limits): Store {
    var entries, deletions := Entries(codec, changes), Deletions(changes);
    var l1 := Written(s.l1, sid, entries, now, limits);
    Store(RemoveAll(UpsertAll(s.rows, sid, entries, now), sid, deletions),
          Filter(l1, NotIn(CacheKeysOf(sid, SetOf(deletions)))))
  }

  function StoreRead(s: Store, sid: string, key: string, now: int, limits: Limits): (Option<string>, Store) {
    var (raw, t) := GetOutcome(NoRedis, Levels(s.l1, map[]), Find(s.rows, sid, key), CacheKey(Pair(sid, key)), now,
                               limits, ALL_OK);
    (raw, s.(l1 := t.l1))
  }

  function StoreGet<V>(codec: Codec<V>, s: Store, sid: string, category: string, ids: seq<string>, now: int,
                       limits: Limits)
    : (map<string, V>, Store)
  {
    if ids == [] then (map[], s)
    else
      var id := ids[|ids| - 1];
      var (data, t) := StoreGet(codec, s, sid, category, ids[..|ids| - 1], now, limits);
      var (raw, u) := StoreRead(t, sid, StoredKey(category, id), now, limits);
      (if raw.Some? && raw.value != "" then data[id := Shown(codec, category, codec.dec(raw.value))] else data, u)
  }

  function StoreCreds<V>(codec: Codec<V>, s: Store, sid: string, now: int, limits: Limits): (Option<V>, Store) {
    var (raw, t) := StoreRead(s, sid, CREDS_KEY, now, limits);
    (if raw.Some? && raw.value != "" then Some(codec.dec(raw.value)) else None, t)
  }

  /** L1 after `clearSession`. */
  function Cleared(l1: seq<Slot>, target: string): seq<Slot> {
    Filter(l1, OutsidePrefix(target + ":"))
  }

  /** L1 after `clearCache`, which takes an empty session id for none. */
  function AfterClear(l1: seq<Slot>, target: Option<string>): seq<Slot> {
    if target.Some? && target.value != "" then Cleared(l1, target.value) else []
  }

  function StorePrune(s: Store, sid: string, options: Options, now: int): Store {
    var pruned := set p | p in s.rows && p.sid == sid && Stale(s.rows, sid, p.key, options, now) :: p.key;
    Store(AfterPrune(s.rows, sid, options, now), Filter(s.l1, NotIn(CacheKeysOf(sid, pruned))))
  }

  // ---------------------------------------------------------------- the calls

  datatype Action<+V> =
    | KeysSet(changes: seq<Change<V>>)
    | KeysGet(category: string, ids: seq<string>)
    | SaveCreds(creds: V)
    | LoadCreds
    | Prune(target: string, options: Options)
    | DeleteSession(target: string)
    | ImportSession(target: string, data: seq<KeyValue>)
    | ClearCache(only: Option<string>)
    | Sweep

  datatype Call<+V> = Call(op: Action<V>, now: int)

  datatype Answer<+V> = Done | Values(data: map<string, V>) | LoadedCreds(creds: Option<V>)

  function StoreStep<V>(codec: Codec<V>, s: Store, sid: string, call: Call<V>, limits: Limits): (Answer<V>, Store) {
    match call.op
    case KeysSet(changes) => (Done, StoreSet(codec, s, sid, changes, call.now, limits))
    case KeysGet(category, ids) =>
      var (data, t) := StoreGet(codec, s, sid, category, ids, call.now, limits);
      (Values(data), t)
    case SaveCreds(creds) => (Done, StoreSet(codec, s, sid, [Change(Creds, Some(creds))], call.now, limits))
    case LoadCreds =>
      var (creds, t) := StoreCreds(codec, s, sid, call.now, limits);
      (LoadedCreds(creds), t)
    case Prune(target, options) => (Done, StorePrune(s, target, options, call.now))
    case DeleteSession(target) => (Done, Store(RemoveSession(s.rows, target), Cleared(s.l1, target)))
    case ImportSession(target, data) =>
      (Done, Store(UpsertAll(s.rows, target, data, call.now), Cleared(s.l1, target)))
    case ClearCache(only) => (Done, s.(l1 := AfterClear(s.l1, only)))
    case Sweep => (Done, s.(l1 := Filter(s.l1, LiveAt(call.now))))
  }

  function StoreRun<V>(codec: Codec<V>, s: Store, sid: string, calls: seq<Call<V>>, limits: Limits)
    : (seq<Answer<V>>, Store)
  {
    if calls == [] then ([], s)
    else
      var (answers, t) := StoreRun(codec, s, sid, calls[..|calls| - 1], limits);
      var (answer, u) := StoreStep(codec, t, sid, calls[|calls| - 1], limits);
      (answers + [answer], u)
  }

  // ---------------------------------------------------------------- the plain map

  datatype Held<+V> = Held(value: V, updatedAt: int)

  function PlainSet<V>(plain: map<Name, Held<V>>, changes: seq<Change<V>>, now: int): map<Name, Held<V>>
    decreases |changes|
  {
    if changes == [] then plain
    else
      var c, before := changes[|changes| - 1], PlainSet(plain, changes[..|changes| - 1], now);
      if c.value.Some? then before[c.name := Held(c.value.value, now)] else before - {c.name}
  }

  /** The category whose age limit a name is under: that of its stored key. */
  function PrunedAs(n: Name): string
    requires n.Key?
  {
    if n == Key("sender-key", "memory") then "sender-key-memory" else n.category
  }

  predicate PlainTooOld<V>(n: Name, h: Held<V>, options: Options, now: int) {
    && options.enabled && n.Key? && PrunedAs(n) in options.maxAgeMs
    && now - h.updatedAt >= options.maxAgeMs[PrunedAs(n)]
  }

  function PlainPrune<V>(plain: map<Name, Held<V>>, options: Options, now: int): map<Name, Held<V>> {
    map n | n in plain && !PlainTooOld(n, plain[n], options, now) :: plain[n]
  }

  function PlainGet<V>(codec: Codec<V>, plain: map<Name, Held<V>>, category: string,
                       ids: seq<string>): map<string, V> {
    map id | id in ids && Key(category, id) in plain :: Shown(codec, category, plain[Key(category, id)].value)
  }

  /** The name a stored key stands for. */
  function NameOf(key: string): Option<Name> {
    if key == CREDS_KEY then Some(Creds)
    else if key == StoredKey("sender-key", "memory") then Some(Key("sender-key", "memory"))
    else
      match Resolve(key)
      case None => None
      case Some(c) => if Matches(c, key) && key != c then Some(Key(c, key[|c| + 1..])) else None
  }

  /** An import puts each string, decoded, under the name of its key; an empty string reads as nothing. */
  function PlainImport<V>(codec: Codec<V>, plain: map<Name, Held<V>>, data: seq<KeyValue>,
                          now: int): map<Name, Held<V>>
    decreases |data|
  {
    if data == [] then plain
    else
      var e, before := data[|data| - 1], PlainImport(codec, plain, data[..|data| - 1], now);
      match NameOf(e.key)
      case None => before
      case Some(n) => if e.value != "" then before[n := Held(codec.dec(e.value), now)] else before - {n}
  }

  /** The plain map holds the values of session `sid`; calls on another session leave it alone. */
  function PlainStep<V>(codec: Codec<V>, plain: map<Name, Held<V>>, sid: string, call: Call<V>)
    : (Answer<V>, map<Name, Held<V>>)
  {
    match call.op
    case KeysSet(changes) => (Done, PlainSet(plain, changes, call.now))
    case KeysGet(category, ids) =>
      (Values(PlainGet(codec, plain, category, ids)), plain)
    case SaveCreds(creds) => (Done, plain[Creds := Held(creds, call.now)])
    case LoadCreds => (LoadedCreds(if Creds in plain then Some(plain[Creds].value) else None), plain)
    case Prune(target, options) =>
      (Done, if target == sid then PlainPrune(plain, options, call.now) else plain)
    case DeleteSession(target) => (Done, if target == sid then map[] else plain)
    case ImportSession(target, data) =>
      (Done, if target == sid then PlainImport(codec, plain, data, call.now) else plain)
    case ClearCache(_) => (Done, plain)
    case Sweep => (Done, plain)
  }

  function PlainRun<V>(codec: Codec<V>, plain: map<Name, Held<V>>, sid: string, calls: seq<Call<V>>)
    : (seq<Answer<V>>, map<Name, Held<V>>)
    decreases |calls|
  {
    if calls == [] then ([], plain)
    else
      var (answers, p) := PlainRun(codec, plain, sid, calls[..|calls| - 1]);
      var (answer, q) := PlainStep(codec, p, sid, calls[|calls| - 1]);
      (answers + [answer], q)
  }

  // ---------------------------------------------------------------- the relation

  ghost predicate RowsMatch<V>(codec: Codec<V>, plain: map<Name, Held<V>>, rows: Rows, sid: string) {
    forall n :: Proper(n) ==> RowMatches(codec, plain, rows, sid, n)
  }

  ghost predicate RowMatches<V>(codec: Codec<V>, plain: map<Name, Held<V>>, rows: Rows, sid: string, n: Name) {
    var p := Pair(sid, RowKey(n));
    && (n in plain <==> p in rows && rows[p].value != "")
    && (n in plain ==> plain[n] == Held(codec.dec(rows[p].value), rows[p].updatedAt))
  }

  ghost predicate L1Matches(s: Store, sid: string) {
    && Distinct(s.l1)
    && (forall k :: Lookup(s.l1, CacheKey(Pair(sid, k))).Some? ==>
          Pair(sid, k) in s.rows && s.rows[Pair(sid, k)].value == Lookup(s.l1, CacheKey(Pair(sid, k))).value.value)
  }

  ghost predicate Refines<V>(codec: Codec<V>, plain: map<Name, Held<V>>, s: Store, sid: string) {
    RowsMatch(codec, plain, s.rows, sid) && L1Matches(s, sid)
  }

  ghost predicate ProperChanges<V>(changes: seq<Change<V>>) {
    && (forall i :: 0 <= i < |changes| ==> Proper(changes[i].name))
    && (forall i, j :: 0 <= i < j < |changes| ==> changes[i].name != changes[j].name)
  }

  /** What the bot may pass: known categories, no colliding id, each name once per call. Imports may be anything. */
  ghost predicate ProperCall<V>(call: Call<V>) {
    match call.op
    case KeysSet(changes) => ProperChanges(changes)
    case KeysGet(category, ids) => forall id :: id in ids ==> Proper(Key(category, id))
    case _ => true
  }

  // ---------------------------------------------------------------- writing

  /** The change a batch makes to a name, if it makes one. */
  function ChangeOf<V>(changes: seq<Change<V>>, n: Name): Option<Change<V>> {
    if changes == [] then None
    else if changes[|changes| - 1].name == n then Some(changes[|changes| - 1])
    else ChangeOf(changes[..|changes| - 1], n)
  }

  lemma {:induction false} ChangeOfMember<V>(changes: seq<Change<V>>, n: Name)
    ensures ChangeOf(changes, n).None? <==> forall i :: 0 <= i < |changes| ==> changes[i].name != n
  {
    if changes != [] {
      ChangeOfMember(changes[..|changes| - 1], n);
    }
  }

  lemma {:induction false} PlainSetAt<V>(plain: map<Name, Held<V>>, changes: seq<Change<V>>, now: int, n: Name)
    ensures var t, c := PlainSet(plain, changes, now), ChangeOf(changes, n);
            if c.None? then (n in t <==> n in plain) && (n in t ==> t[n] == plain[n])
            else if c.value.value.Some? then n in t && t[n] == Held(c.value.value.value, now)
            else n !in t
    decreases |changes|
  {
    if changes != [] {
      PlainSetAt(plain, changes[..|changes| - 1], now, n);
    }
  }

  /** A row key is among the entries or the deletions exactly as its name is among the changes. */
  lemma {:induction false} BatchAt<V>(codec: Codec<V>, changes: seq<Change<V>>, n: Name)
    requires ProperChanges(changes) && Proper(n)
    ensures var c := ChangeOf(changes, n);
            && LastValue(Entries(codec, changes), RowKey(n)) ==
               (if c.Some? && c.value.value.Some? then Some(codec.enc(c.value.value.value)) else None)
            && (RowKey(n) in Deletions(changes) <==> c.Some? && c.value.value.None?)
    decreases |changes|
  {
    if changes != [] {
      var c, before := changes[|changes| - 1], changes[..|changes| - 1];
      BatchAt(codec, before, n);
      if RowKey(c.name) == RowKey(n) {
        RowKeyInjective(c.name, n);
        forall i | 0 <= i < |before| ensures before[i].name != n {
          assert before[i] == changes[i];
        }
        ChangeOfMember(before, n);
      }
      EntriesLast(codec, changes, RowKey(n));
    }
  }

  lemma EntriesLast<V>(codec: Codec<V>, changes: seq<Change<V>>, key: string)
    requires changes != []
    ensures var c, before := changes[|changes| - 1], changes[..|changes| - 1];
            LastValue(Entries(codec, changes), key) ==
            if c.value.Some? && RowKey(c.name) == key then Some(codec.enc(c.value.value))
            else LastValue(Entries(codec, before), key)
  {
    var c, before := changes[|changes| - 1], Entries(codec, changes[..|changes| - 1]);
    if c.value.Some? {
      var e := KeyValue(RowKey(c.name), codec.enc(c.value.value));
      assert Entries(codec, changes) == before + [e];
      assert (before + [e])[..|before|] == before && (before + [e])[|before|] == e;
    } else {
      assert Entries(codec, changes) == before + [] == before;
    }
  }

  lemma {:induction false} WrittenLookup(l1: seq<Slot>, sid: string, entries: seq<KeyValue>, now: int,
                                         limits: Limits, key: string)
    requires Distinct(l1)
    ensures var t := Written(l1, sid, entries, now, limits);
            && Distinct(t)
            && (Lookup(t, CacheKey(Pair(sid, key))).Some? ==>
                  if LastValue(entries, key).Some?
                  then Lookup(t, CacheKey(Pair(sid, key))).value.value == LastValue(entries, key).value
                  else Lookup(t, CacheKey(Pair(sid, key))) == Lookup(l1, CacheKey(Pair(sid, key))))
  {
    if entries != [] {
      var e, before := entries[|entries| - 1], entries[..|entries| - 1];
      WrittenLookup(l1, sid, before, now, limits, key);
      OneSessionKeys(sid, e.key, key);
      SetLookup(Written(l1, sid, before, now, limits), CacheKey(Pair(sid, e.key)), e.value, now, now, limits,
                CacheKey(Pair(sid, key)));
    }
  }

  /** One name after a batch. */
  lemma SetRow<V(!new)>(codec: Codec<V>, plain: map<Name, Held<V>>, rows: Rows, sid: string, changes: seq<Change<V>>,
                        now: int, n: Name)
    requires Faithful(codec) && RowMatches(codec, plain, rows, sid, n) && ProperChanges(changes) && Proper(n)
    ensures RowMatches(codec, PlainSet(plain, changes, now),
                       RemoveAll(UpsertAll(rows, sid, Entries(codec, changes), now), sid, Deletions(changes)), sid, n)
  {
    var entries, deletions, p := Entries(codec, changes), Deletions(changes), Pair(sid, RowKey(n));
    PlainSetAt(plain, changes, now, n);
    BatchAt(codec, changes, n);
    UpsertAllEffect(rows, sid, entries, now, p);
  }

  lemma SetKeepsRows<V(!new)>(codec: Codec<V>, plain: map<Name, Held<V>>, s: Store, sid: string,
                              changes: seq<Change<V>>, now: int, limits: Limits)
    requires Faithful(codec) && RowsMatch(codec, plain, s.rows, sid) && ProperChanges(changes)
    ensures RowsMatch(codec, PlainSet(plain, changes, now), StoreSet(codec, s, sid, changes, now, limits).rows, sid)
  {
    var t := StoreSet(codec, s, sid, changes, now, limits);
    forall n | Proper(n) ensures RowMatches(codec, PlainSet(plain, changes, now), t.rows, sid, n) {
      SetRow(codec, plain, s.rows, sid, changes, now, n);
    }
  }

  lemma SetKeepsL1<V>(codec: Codec<V>, s: Store, sid: string, changes: seq<Change<V>>, now: int, limits: Limits)
    requires L1Matches(s, sid)
    ensures L1Matches(StoreSet(codec, s, sid, changes, now, limits), sid)
  {
    var entries, deletions := Entries(codec, changes), Deletions(changes);
    var rows, l1 := UpsertAll(s.rows, sid, entries, now), Written(s.l1, sid, entries, now, limits);
    var drop := NotIn(CacheKeysOf(sid, SetOf(deletions)));
    WrittenLookup(s.l1, sid, entries, now, limits, "");
    FilterKeepsDistinct(l1, drop);
    var t := StoreSet(codec, s, sid, changes, now, limits);
    forall k | Lookup(t.l1, CacheKey(Pair(sid, k))).Some?
      ensures Pair(sid, k) in t.rows && t.rows[Pair(sid, k)].value == Lookup(t.l1, CacheKey(Pair(sid, k))).value.value
    {
      WrittenLookup(s.l1, sid, entries, now, limits, k);
      LookupFilter(l1, drop, CacheKey(Pair(sid, k)));
      CacheKeyListed(sid, SetOf(deletions), k);
      UpsertAllEffect(s.rows, sid, entries, now, Pair(sid, k));
    }
  }

  // ---------------------------------------------------------------- reading

  /** A read answers with the row, if there is one, and leaves L1 in agreement with the rows. */
  lemma ReadIsRow(s: Store, sid: string, key: string, now: int, limits: Limits)
    requires L1Matches(s, sid)
    ensures var (raw, t) := StoreRead(s, sid, key, now, limits);
            && raw == (if Pair(sid, key) in s.rows then Some(s.rows[Pair(sid, key)].value) else None)
            && t.rows == s.rows && L1Matches(t, sid)
  {
    var ck := CacheKey(Pair(sid, key));
    var (raw, t) := StoreRead(s, sid, key, now, limits);
    var touched := AfterGet(s.l1, ck, now);
    GetLookup(s.l1, ck, now, ck);
    forall k ensures Distinct(t.l1) && (Lookup(t.l1, CacheKey(Pair(sid, k))).Some? ==>
              Pair(sid, k) in t.rows && t.rows[Pair(sid, k)].value == Lookup(t.l1, CacheKey(Pair(sid, k))).value.value)
    {
      OneSessionKeys(sid, k, key);
      GetLookup(s.l1, ck, now, CacheKey(Pair(sid, k)));
      if Pair(sid, key) in s.rows {
        var r := s.rows[Pair(sid, key)];
        SetLookup(touched, ck, r.value, r.version, now, limits, CacheKey(Pair(sid, k)));
      }
    }
  }

  lemma {:induction false} GetIsPlain<V(!new)>(codec: Codec<V>, plain: map<Name, Held<V>>, s: Store, sid: string,
                                               category: string, ids: seq<string>, now: int, limits: Limits)
    requires Faithful(codec) && Refines(codec, plain, s, sid)
    requires forall id :: id in ids ==> Proper(Key(category, id))
    ensures var (data, t) := StoreGet(codec, s, sid, category, ids, now, limits);
            && data == PlainGet(codec, plain, category, ids)
            && Refines(codec, plain, t, sid)
    decreases |ids|
  {
    if ids != [] {
      var id, before := ids[|ids| - 1], ids[..|ids| - 1];
      assert ids == before + [id];
      GetIsPlain(codec, plain, s, sid, category, before, now, limits);
      var (data, t) := StoreGet(codec, s, sid, category, before, now, limits);
      ReadIsRow(t, sid, StoredKey(category, id), now, limits);
      assert RowMatches(codec, plain, t.rows, sid, Key(category, id));
    }
  }

  lemma CredsArePlain<V(!new)>(codec: Codec<V>, plain: map<Name, Held<V>>, s: Store, sid: string, now: int,
                               limits: Limits)
    requires Faithful(codec) && Refines(codec, plain, s, sid)
    ensures var (creds, t) := StoreCreds(codec, s, sid, now, limits);
            && creds == (if Creds in plain then Some(plain[Creds].value) else None)
            && Refines(codec, plain, t, sid)
  {
    ReadIsRow(s, sid, CREDS_KEY, now, limits);
    assert RowMatches(codec, plain, s.rows, sid, Creds);
  }

  /** What a call with a single change does to its row. */
  lemma OneChangeRow<V>(codec: Codec<V>, rows: Rows, sid: string, c: Change<V>, now: int)
    ensures var t := RemoveAll(UpsertAll(rows, sid, Entries(codec, [c]), now), sid, Deletions([c]));
            var p := Pair(sid, RowKey(c.name));
            if c.value.Some? then p in t && t[p].value == codec.enc(c.value.value) && t[p].updatedAt == now else p !in t
  {
    assert [c][..0] == [];
    EntriesLast(codec, [c], RowKey(c.name));
    UpsertAllEffect(rows, sid, Entries(codec, [c]), now, Pair(sid, RowKey(c.name)));
  }

  /** The credentials are saved under "creds", */
  lemma CredsSaved<V>(codec: Codec<V>, s: Store, sid: string, creds: V, now: int, limits: Limits)
    ensures var t := StoreStep(codec, s, sid, Call(Action.SaveCreds(creds), now), limits).1;
            && Pair(sid, "creds") in t.rows && t.rows[Pair(sid, "creds")].value == codec.enc(creds)
            && t.rows[Pair(sid, "creds")].updatedAt == now
  {
    OneChangeRow(codec, s.rows, sid, Change(Creds, Some(creds)), now);
  }

  /** and read from there. */
  lemma CredsLoaded<V>(codec: Codec<V>, s: Store, sid: string, now: int, limits: Limits)
    requires L1Matches(s, sid)
    ensures var p := Pair(sid, "creds");
            StoreStep(codec, s, sid, Call(Action.LoadCreds, now), limits).0 ==
            LoadedCreds(if p in s.rows && s.rows[p].value != "" then Some(codec.dec(s.rows[p].value)) else None)
  {
    ReadIsRow(s, sid, "creds", now, limits);
  }

  lemma GetOneKey<V>(codec: Codec<V>, s: Store, sid: string, category: string, id: string, now: int, limits: Limits)
    requires L1Matches(s, sid)
    ensures var p := Pair(sid, StoredKey(category, id));
            StoreGet(codec, s, sid, category, [id], now, limits).0 ==
            if p in s.rows && s.rows[p].value != ""
            then map[id := Shown(codec, category, codec.dec(s.rows[p].value))] else map[]
  {
    assert [id][..0] == [];
    ReadIsRow(s, sid, StoredKey(category, id), now, limits);
  }

  /**
   What is set under one name is what is then read, converted for the one category;
   a deletion reads as nothing.
   */
  lemma SetThenGetKey<V(!new)>(codec: Codec<V>, s: Store, sid: string, category: string, id: string, value: Option<V>,
                               now: int, later: int, limits: Limits)
    requires Faithful(codec) && L1Matches(s, sid)
    ensures var t := StoreStep(codec, s, sid, Call(Action.KeysSet([Change(Key(category, id), value)]), now), limits).1;
            StoreStep(codec, t, sid, Call(Action.KeysGet(category, [id]), later), limits).0 ==
            Values(if value.None? then map[]
                   else if category == "app-state-sync-key" then map[id := codec.fromObject(value.value)]
                   else map[id := value.value])
  {
    var c := Change(Key(category, id), value);
    SetKeepsL1(codec, s, sid, [c], now, limits);
    OneChangeRow(codec, s.rows, sid, c, now);
    GetOneKey(codec, StoreSet(codec, s, sid, [c], now, limits), sid, category, id, later, limits);
  }

  // ---------------------------------------------------------------- clearing

  /** What the calls that clear a session leave in L1: nothing of that session, and everything outside its prefix. */
  lemma ClearingCalls<V>(codec: Codec<V>, s: Store, sid: string, target: string, data: seq<KeyValue>, now: int,
                         limits: Limits)
    requires Distinct(s.l1)
    ensures var calls := [Action<V>.DeleteSession(target), Action<V>.ImportSession(target, data),
                          Action<V>.ClearCache(Some(target))];
            forall n :: 0 <= n < (if target == "" then 2 else 3) ==>
              var t := StoreStep(codec, s, sid, Call(calls[n], now), limits).1;
              && (forall k :: Lookup(t.l1, CacheKey(Pair(target, k))).None?)
              && (forall ck :: !StartsWith(ck, target + ":") ==> Lookup(t.l1, ck) == Lookup(s.l1, ck))
    ensures forall only: Option<string> :: only.None? || only == Some("") ==>
              StoreStep(codec, s, sid, Call(Action<V>.ClearCache(only), now), limits).1.l1 == []
  {
    forall k ensures Lookup(Cleared(s.l1, target), CacheKey(Pair(target, k))).None? {
      ClearedPrefix(s.l1, target, k);
    }
    forall ck | !StartsWith(ck, target + ":") ensures Lookup(Cleared(s.l1, target), ck) == Lookup(s.l1, ck) {
      LookupFilter(s.l1, OutsidePrefix(target + ":"), ck);
    }
  }

  /** A sweep leaves no expired entry and every live one. */
  lemma SweepCall<V>(codec: Codec<V>, s: Store, sid: string, now: int, limits: Limits, ck: string)
    requires Distinct(s.l1)
    ensures var t := StoreStep(codec, s, sid, Call(Action<V>.Sweep, now), limits).1;
            && t.rows == s.rows
            && Lookup(t.l1, ck) == (if Lookup(s.l1, ck).Some? && Lookup(s.l1, ck).value.expiresAt <= now then None
                                    else Lookup(s.l1, ck))
  {
    RemovalsAreExact(s.l1, "", "", now, ck);
  }

  /** The last entry of a batch is in L1 afterwards, with the time as its version, if it fits there at all. */
  lemma WrittenHolds(l1: seq<Slot>, sid: string, entries: seq<KeyValue>, now: int, limits: Limits)
    requires Distinct(l1) && entries != []
    ensures var e, t := entries[|entries| - 1], Written(l1, sid, entries, now, limits);
            FreshlyHeld(Written(l1, sid, entries[..|entries| - 1], now, limits), t, CacheKey(Pair(sid, e.key)), e.value,
                        now, now, limits)
  {
    var e, before := entries[|entries| - 1], entries[..|entries| - 1];
    WrittenLookup(l1, sid, before, now, limits, e.key);
    SetHolds(Written(l1, sid, before, now, limits), Written(l1, sid, before, now, limits), CacheKey(Pair(sid, e.key)),
             e.value, now, now, limits);
  }

  // ---------------------------------------------------------------- the other calls

  lemma FilterKeepsL1(s: Store, rows: Rows, sid: string, keep: Slot -> bool)
    requires L1Matches(s, sid)
    requires forall k :: Pair(sid, k) in s.rows && Lookup(Filter(s.l1, keep), CacheKey(Pair(sid, k))).Some? ==>
               Pair(sid, k) in rows && rows[Pair(sid, k)].value == s.rows[Pair(sid, k)].value
    ensures L1Matches(Store(rows, Filter(s.l1, keep)), sid)
  {
    FilterKeepsDistinct(s.l1, keep);
    forall k ensures Lookup(Filter(s.l1, keep), CacheKey(Pair(sid, k))).Some? ==>
                       Lookup(Filter(s.l1, keep), CacheKey(Pair(sid, k))) == Lookup(s.l1, CacheKey(Pair(sid, k)))
    {
      LookupFilter(s.l1, keep, CacheKey(Pair(sid, k)));
    }
  }

  /** Clearing a session's prefix leaves none of its keys in L1. */
  lemma ClearedPrefix(l1: seq<Slot>, sid: string, k: string)
    requires Distinct(l1)
    ensures Lookup(Filter(l1, OutsidePrefix(sid + ":")), CacheKey(Pair(sid, k))).None?
  {
    assert CacheKey(Pair(sid, k))[..|sid + ":"|] == sid + ":";
    LookupFilter(l1, OutsidePrefix(sid + ":"), CacheKey(Pair(sid, k)));
  }

  /** Clearing any session's prefix, when only that session's rows may have changed. */
  lemma ClearKeepsL1(s: Store, rows: Rows, sid: string, target: string)
    requires L1Matches(s, sid)
    requires target != sid ==> forall k :: Pair(sid, k) in s.rows ==>
               Pair(sid, k) in rows && rows[Pair(sid, k)] == s.rows[Pair(sid, k)]
    ensures L1Matches(Store(rows, Cleared(s.l1, target)), sid)
  {
    if target == sid {
      forall k ensures Lookup(Cleared(s.l1, target), CacheKey(Pair(sid, k))).None? {
        ClearedPrefix(s.l1, sid, k);
      }
    }
    FilterKeepsL1(s, rows, sid, OutsidePrefix(target + ":"));
  }

  /** The rule for rows and the rule for names agree, because the category is recovered from the key. */
  lemma SameVerdict<V>(codec: Codec<V>, plain: map<Name, Held<V>>, rows: Rows, sid: string, options: Options,
                       now: int, n: Name)
    requires Proper(n) && RowMatches(codec, plain, rows, sid, n) && n in plain
    ensures Stale(rows, sid, RowKey(n), options, now) <==> PlainTooOld(n, plain[n], options, now)
  {
    if n.Key? {
      CategoryRecovered(n.category, n.id);
    }
  }

  lemma PruneKeepsRows<V>(codec: Codec<V>, plain: map<Name, Held<V>>, rows: Rows, sid: string, options: Options,
                          now: int)
    requires RowsMatch(codec, plain, rows, sid)
    ensures RowsMatch(codec, PlainPrune(plain, options, now), AfterPrune(rows, sid, options, now), sid)
  {
    var after := PlainPrune(plain, options, now);
    forall n | Proper(n) ensures RowMatches(codec, after, AfterPrune(rows, sid, options, now), sid, n) {
      assert RowMatches(codec, plain, rows, sid, n);
      if n in plain {
        SameVerdict(codec, plain, rows, sid, options, now, n);
      }
    }
  }

  /** A pruned row's cache entry goes with it, whichever session is pruned. */
  lemma PruneKeepsL1(s: Store, sid: string, target: string, options: Options, now: int)
    requires L1Matches(s, sid)
    ensures L1Matches(StorePrune(s, target, options, now), sid)
  {
    var t := StorePrune(s, target, options, now);
    var pruned := set p | p in s.rows && p.sid == target && Stale(s.rows, target, p.key, options, now) :: p.key;
    var drop := NotIn(CacheKeysOf(target, pruned));
    forall k | Pair(sid, k) in s.rows && Lookup(Filter(s.l1, drop), CacheKey(Pair(sid, k))).Some?
      ensures Pair(sid, k) in t.rows && t.rows[Pair(sid, k)].value == s.rows[Pair(sid, k)].value
    {
      if target == sid && Stale(s.rows, sid, k, options, now) {
        assert Pair(sid, k).key in pruned;
        LookupFilter(s.l1, drop, CacheKey(Pair(sid, k)));
        CacheKeyListed(sid, pruned, k);
      }
    }
    FilterKeepsL1(s, t.rows, sid, drop);
  }

  lemma PruneRefines<V>(codec: Codec<V>, plain: map<Name, Held<V>>, s: Store, sid: string, target: string,
                        options: Options, now: int)
    requires Refines(codec, plain, s, sid)
    ensures Refines(codec, PlainStep(codec, plain, sid, Call(Action.Prune(target, options), now)).1,
                    StorePrune(s, target, options, now), sid)
  {
    PruneKeepsL1(s, sid, target, options, now);
    if target == sid {
      PruneKeepsRows(codec, plain, s.rows, sid, options, now);
    }
  }

  // ---------------------------------------------------------------- imports

  /** Names and stored keys correspond: the name of a proper name's key is that name, and a key's name has that key. */
  lemma NameOfRowKey(n: Name)
    requires Proper(n)
    ensures NameOf(RowKey(n)) == Some(n)
  {
    if n.Key? {
      CategoryRecovered(n.category, n.id);
      var key := RowKey(n);
      assert key[..|n.category| + 1] == n.category + "-" && key[|n.category| + 1..] == n.id;
      if key == StoredKey("sender-key", "memory") {
        StoredKeyInjective(n.category, n.id, "sender-key", "memory");
      }
    }
  }

  lemma KeyOfName(key: string)
    requires NameOf(key).Some?
    ensures RowKey(NameOf(key).value) == key
  {
    var n := NameOf(key).value;
    if n.Key? && key != StoredKey("sender-key", "memory") {
      assert key == key[..|n.category| + 1] + key[|n.category| + 1..];
    }
  }

  lemma {:induction false} PlainImportAt<V>(codec: Codec<V>, plain: map<Name, Held<V>>, data: seq<KeyValue>,
                                            now: int, n: Name)
    requires Proper(n)
    ensures var t, v := PlainImport(codec, plain, data, now), LastValue(data, RowKey(n));
            if v.None? then (n in t <==> n in plain) && (n in t ==> t[n] == plain[n])
            else if v.value != "" then n in t && t[n] == Held(codec.dec(v.value), now)
            else n !in t
    decreases |data|
  {
    if data != [] {
      var e := data[|data| - 1];
      PlainImportAt(codec, plain, data[..|data| - 1], now, n);
      NameOfRowKey(n);
      if NameOf(e.key).Some? {
        KeyOfName(e.key);
      }
    }
  }

  /** Any strings, under any keys, into any session. */
  lemma ImportRefines<V>(codec: Codec<V>, plain: map<Name, Held<V>>, s: Store, sid: string, target: string,
                         data: seq<KeyValue>, now: int)
    requires Refines(codec, plain, s, sid)
    ensures Refines(codec, PlainStep(codec, plain, sid, Call(Action.ImportSession(target, data), now)).1,
                    Store(UpsertAll(s.rows, target, data, now), Cleared(s.l1, target)), sid)
  {
    var after := PlainStep(codec, plain, sid, Call(Action.ImportSession(target, data), now)).1;
    var rows := UpsertAll(s.rows, target, data, now);
    forall n | Proper(n) ensures RowMatches(codec, after, rows, sid, n) {
      assert RowMatches(codec, plain, s.rows, sid, n);
      PlainImportAt(codec, plain, data, now, n);
      UpsertAllEffect(s.rows, target, data, now, Pair(sid, RowKey(n)));
    }
    forall k | target != sid && Pair(sid, k) in s.rows
      ensures Pair(sid, k) in rows && rows[Pair(sid, k)] == s.rows[Pair(sid, k)]
    {
      UpsertAllEffect(s.rows, target, data, now, Pair(sid, k));
    }
    ClearKeepsL1(s, rows, sid, target);
  }

  lemma SaveCredsRefines<V(!new)>(codec: Codec<V>, plain: map<Name, Held<V>>, s: Store, sid: string, creds: V,
                                  now: int, limits: Limits)
    requires Faithful(codec) && Refines(codec, plain, s, sid)
    ensures Refines(codec, plain[Creds := Held(creds, now)],
                    StoreSet(codec, s, sid, [Change(Creds, Some(creds))], now, limits), sid)
  {
    var one := [Change(Creds, Some(creds))];
    assert one[..0] == [];
    assert PlainSet(plain, one, now) == plain[Creds := Held(creds, now)];
    SetKeepsRows(codec, plain, s, sid, one, now, limits);
    SetKeepsL1(codec, s, sid, one, now, limits);
  }

  lemma DeleteSessionRefines<V>(codec: Codec<V>, plain: map<Name, Held<V>>, s: Store, sid: string, target: string)
    requires Refines(codec, plain, s, sid)
    ensures Refines<V>(codec, if target == sid then map[] else plain,
                       Store(RemoveSession(s.rows, target), Cleared(s.l1, target)), sid)
  {
    var after: map<Name, Held<V>> := if target == sid then map[] else plain;
    forall n | Proper(n) ensures RowMatches(codec, after, RemoveSession(s.rows, target), sid, n) {
      assert RowMatches(codec, plain, s.rows, sid, n);
    }
    ClearKeepsL1(s, RemoveSession(s.rows, target), sid, target);
  }

  lemma ClearCacheRefines(s: Store, sid: string, target: Option<string>)
    requires L1Matches(s, sid)
    ensures L1Matches(s.(l1 := AfterClear(s.l1, target)), sid)
  {
    if target.Some? && target.value != "" {
      ClearKeepsL1(s, s.rows, sid, target.value);
    }
  }

  /** Each call gives the plain map's answer and keeps the relation. */
  lemma StepRefines<V(!new)>(codec: Codec<V>, plain: map<Name, Held<V>>, s: Store, sid: string, call: Call<V>,
                             limits: Limits)
    requires Faithful(codec) && Refines(codec, plain, s, sid) && ProperCall(call)
    ensures StoreStep(codec, s, sid, call, limits).0 == PlainStep(codec, plain, sid, call).0
    ensures Refines(codec, PlainStep(codec, plain, sid, call).1, StoreStep(codec, s, sid, call, limits).1, sid)
  {
    match call.op
    case KeysSet(changes) =>
      SetKeepsRows(codec, plain, s, sid, changes, call.now, limits);
      SetKeepsL1(codec, s, sid, changes, call.now, limits);
    case KeysGet(category, ids) => GetIsPlain(codec, plain, s, sid, category, ids, call.now, limits);
    case SaveCreds(creds) => SaveCredsRefines(codec, plain, s, sid, creds, call.now, limits);
    case LoadCreds => CredsArePlain(codec, plain, s, sid, call.now, limits);
    case Prune(target, options) => PruneRefines(codec, plain, s, sid, target, options, call.now);
    case DeleteSession(target) => DeleteSessionRefines(codec, plain, s, sid, target);
    case ImportSession(target, data) => ImportRefines(codec, plain, s, sid, target, data, call.now);
    case ClearCache(only) => ClearCacheRefines(s, sid, only);
    case Sweep => FilterKeepsL1(s, s.rows, sid, LiveAt(call.now));
  }

  /**
   End-to-end refinement: from an empty L1 and any matching database, every
   sequence of proper calls gets the answers of the plain map, whatever the cache
   limits and clock readings are.
   */
  lemma {:induction false} AnswersAsPlainMap<V(!new)>(codec: Codec<V>, plain: map<Name, Held<V>>, s: Store, sid: string,
                                                calls: seq<Call<V>>, limits: Limits)
    requires Faithful(codec) && Refines(codec, plain, s, sid)
    requires forall i :: 0 <= i < |calls| ==> ProperCall(calls[i])
    ensures StoreRun(codec, s, sid, calls, limits).0 == PlainRun(codec, plain, sid, calls).0
    ensures Refines(codec, PlainRun(codec, plain, sid, calls).1, StoreRun(codec, s, sid, calls, limits).1, sid)
    decreases |calls|
  {
    if calls != [] {
      var before := calls[..|calls| - 1];
      AnswersAsPlainMap(codec, plain, s, sid, before, limits);
      StepRefines(codec, PlainRun(codec, plain, sid, before).1, StoreRun(codec, s, sid, before, limits).1, sid,
                  calls[|calls| - 1], limits);
    }
  }
}
