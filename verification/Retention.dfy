/** Age-based pruning (src/retention.ts), one pass run without interruption. */
module Retention {
  import opened Wrappers
  import opened Records
  import opened CacheKeys
  import opened Categories
  import opened MemoryCache
  import opened SqliteWorker
  import opened CacheManager

  datatype Options = Options(enabled: bool, maxAgeMs: map<string, int>)

  /** A key other than the credentials whose category is configured. */
  predicate Candidate(key: string, options: Options) {
    key != CREDS_KEY && Resolve(key).Some? && Resolve(key).value in options.maxAgeMs
  }

  /** A candidate whose row is at least its category's age. */
  predicate TooOld(key: string, row: Row, options: Options, now: int) {
    Candidate(key, options) && now - row.updatedAt >= options.maxAgeMs[Resolve(key).value]
  }

  predicate Stale(rows: Rows, sid: string, key: string, options: Options, now: int) {
    options.enabled && Pair(sid, key) in rows && TooOld(key, rows[Pair(sid, key)], options, now)
  }

  function AfterPrune(rows: Rows, sid: string, options: Options, now: int): Rows {
    map p | p in rows && !(p.sid == sid && Stale(rows, sid, p.key, options, now)) :: rows[p]
  }

  /** The category is configured and the row is at least that old. */
  predicate OldEnough(category: string, row: Row, options: Options, now: int) {
    category in options.maxAgeMs && now - row.updatedAt >= options.maxAgeMs[category]
  }

  /** A category is the longest match exactly when the source's search finds it. */
  lemma FoundIsLongest(key: string)
    requires key != CREDS_KEY
    ensures forall c :: Resolve(key) == Some(c) <==> IsLongestMatch(LISTED, key, c)
  {
    ResolveIsLongestMatch(key, CATEGORIES);
  }

  lemma TooOldByCategory(key: string, row: Row, options: Options, now: int)
    ensures TooOld(key, row, options, now) <==>
            key != CREDS_KEY && exists c :: Resolve(key) == Some(c) && OldEnough(c, row, options, now)
  {
    if TooOld(key, row, options, now) {
      assert OldEnough(Resolve(key).value, row, options, now);
    }
  }

  /**
   A row is pruned exactly when it is one of the session's, is not the credentials,
   and its longest matching category is configured and it is at least that old; all
   other rows stay as they were.
   */
  lemma PruneIsExact(rows: Rows, sid: string, options: Options, now: int, p: Pair)
    requires p in rows
    ensures var t := AfterPrune(rows, sid, options, now);
            && (p !in t <==> p.sid == sid && options.enabled && p.key != CREDS_KEY
                             && exists c :: IsLongestMatch(LISTED, p.key, c) && OldEnough(c, rows[p], options, now))
            && (p in t ==> t[p] == rows[p])
  {
    TooOldByCategory(p.key, rows[p], options, now);
    if p.key != CREDS_KEY {
      FoundIsLongest(p.key);
    }
    assert p.sid == sid ==> Pair(sid, p.key) == p;
  }

  /** The row under "creds" is never pruned, whatever is configured. */
  lemma CredsStay(rows: Rows, sid: string, options: Options, now: int)
    ensures var p, t := Pair(sid, "creds"), AfterPrune(rows, sid, options, now);
            (p in t <==> p in rows) && (p in t ==> t[p] == rows[p])
  {
  }

  /** A second pass at the same moment removes nothing. */
  lemma PruneTwice(rows: Rows, sid: string, options: Options, now: int)
    ensures AfterPrune(AfterPrune(rows, sid, options, now), sid, options, now) == AfterPrune(rows, sid, options, now)
  {
    var t := AfterPrune(rows, sid, options, now);
    forall p | p in t && p.sid == sid ensures !Stale(t, sid, p.key, options, now) {
      assert Pair(sid, p.key) == p && t[p] == rows[p];
    }
  }

  /** Later passes prune at least as much, so passes compose. */
  lemma PruneLater(rows: Rows, sid: string, options: Options, now: int, later: int)
    requires now <= later
    ensures AfterPrune(AfterPrune(rows, sid, options, now), sid, options, later) ==
            AfterPrune(rows, sid, options, later)
  {
    var t := AfterPrune(rows, sid, options, now);
    forall p | p in rows && p.sid == sid && Stale(rows, sid, p.key, options, now)
      ensures Stale(rows, sid, p.key, options, later)
    {
    }
    forall p | p in t && p.sid == sid
      ensures Stale(t, sid, p.key, options, later) <==> Stale(rows, sid, p.key, options, later)
    {
      assert Pair(sid, p.key) == p && t[p] == rows[p];
    }
  }

  // ---------------------------------------------------------------- dropping several keys from L1

  function SetOf(keys: seq<string>): set<string> {
    set k | k in keys
  }

  function CacheKeysOf(sid: string, keys: set<string>): set<string> {
    set k | k in keys :: CacheKey(Pair(sid, k))
  }

  function NotIn(cks: set<string>): Slot -> bool {
    (x: Slot) => x.key !in cks
  }

  lemma {:induction false} DropOneMore(s: seq<Slot>, cks: set<string>, ck: string)
    ensures Without(Filter(s, NotIn(cks)), ck) == Filter(s, NotIn(cks + {ck}))
  {
    if s != [] {
      DropOneMore(s[1..], cks, ck);
      if NotIn(cks)(s[0]) {
        assert Filter(s, NotIn(cks))[1..] == Filter(s[1..], NotIn(cks));
      }
    }
  }

  lemma CacheKeyListed(sid: string, keys: set<string>, key: string)
    ensures CacheKey(Pair(sid, key)) in CacheKeysOf(sid, keys) <==> key in keys
  {
    if CacheKey(Pair(sid, key)) in CacheKeysOf(sid, keys) {
      var k :| k in keys && CacheKey(Pair(sid, k)) == CacheKey(Pair(sid, key));
      OneSessionKeys(sid, k, key);
    }
  }

  lemma DropNothing(s: seq<Slot>)
    ensures Filter(s, NotIn({})) == s
  {
    FilterAll(s, NotIn({}));
  }

  // ---------------------------------------------------------------- the pass

  /** What one `onDeleted` per key leaves of L1 and L2, and what it publishes. */
  function LevelsWithout(mode: Mode, s: Levels, sid: string, keys: seq<string>, ok: bool): Levels {
    Levels(Filter(s.l1, NotIn(CacheKeysOf(sid, SetOf(keys)))),
           if mode == NoRedis || !ok then s.l2 else s.l2 - CacheKeysOf(sid, SetOf(keys)))
  }

  function Invalidations(mode: Mode, sid: string, keys: seq<string>, ok: bool): seq<string> {
    if keys == [] then []
    else
      Invalidations(mode, sid, keys[..|keys| - 1], ok) + Invalidation(mode, CacheKey(Pair(sid, keys[|keys| - 1])), ok)
  }

  /** One message per key, in order, in TCP mode if the channel works, and otherwise none. */
  lemma {:induction false} InvalidationsAt(mode: Mode, sid: string, keys: seq<string>, ok: bool)
    ensures if mode == Tcp && ok then
              && |Invalidations(mode, sid, keys, ok)| == |keys|
              && forall i :: 0 <= i < |keys| ==> Invalidations(mode, sid, keys, ok)[i] == sid + ":" + keys[i]
            else
              Invalidations(mode, sid, keys, ok) == []
  {
    if keys != [] {
      InvalidationsAt(mode, sid, keys[..|keys| - 1], ok);
    }
  }

  /** The results of dropping one key after the others. */
  lemma OneMoreDropped(mode: Mode, s: Levels, sid: string, keys: seq<string>, i: nat, ok: Sends)
    requires i < |keys|
    ensures var ck, before, after := CacheKey(Pair(sid, keys[i])), keys[..i], keys[..i + 1];
            && LevelsWithout(mode, s, sid, after, ok.write) ==
               AfterDeleted(mode, LevelsWithout(mode, s, sid, before, ok.write), ck, ok.write)
            && Invalidations(mode, sid, after, ok.publish) ==
               Invalidations(mode, sid, before, ok.publish) + Invalidation(mode, ck, ok.publish)
  {
    var ck, before, after := CacheKey(Pair(sid, keys[i])), keys[..i], keys[..i + 1];
    assert after == before + [keys[i]] && after[..|after| - 1] == before;
    assert SetOf(after) == SetOf(before) + {keys[i]};
    assert CacheKeysOf(sid, SetOf(after)) == CacheKeysOf(sid, SetOf(before)) + {ck};
    DropOneMore(s.l1, CacheKeysOf(sid, SetOf(before)), ck);
  }

  lemma NoneDropped(mode: Mode, s: Levels, sid: string, ok: bool)
    ensures LevelsWithout(mode, s, sid, [], ok) == s && Invalidations(mode, sid, [], ok) == []
  {
    assert CacheKeysOf(sid, SetOf([])) == {};
    DropNothing(s.l1);
  }

  /** What dropping the keys leaves under the cache key of one of the session's rows. */
  lemma DroppedLookup(mode: Mode, s: Levels, sid: string, keys: seq<string>, ok: bool, key: string)
    requires Distinct(s.l1)
    ensures var t, ck := LevelsWithout(mode, s, sid, keys, ok), CacheKey(Pair(sid, key));
            && Distinct(t.l1)
            && Lookup(t.l1, ck) == (if key in keys then None else Lookup(s.l1, ck))
            && RedisGet(mode, t.l2, ck, true) == (if key in keys && ok then None else RedisGet(mode, s.l2, ck, true))
  {
    FilterKeepsDistinct(s.l1, NotIn(CacheKeysOf(sid, SetOf(keys))));
    LookupFilter(s.l1, NotIn(CacheKeysOf(sid, SetOf(keys))), CacheKey(Pair(sid, key)));
    CacheKeyListed(sid, SetOf(keys), key);
  }

  /** One `onDeleted` per key. */
  method DropFromCaches(cache: Manager, sid: string, keys: seq<string>, ok: Sends)
    requires cache.Valid()
    modifies cache.l1`store, cache.l1`currentBytes, cache.l2
    ensures cache.Valid() && cache.View() == LevelsWithout(cache.mode, old(cache.View()), sid, keys, ok.write)
    ensures cache.l2.published == old(cache.l2.published) + Invalidations(cache.mode, sid, keys, ok.publish)
  {
    ghost var before, published := cache.View(), cache.l2.published;
    NoneDropped(cache.mode, before, sid, ok.write);
    for i := 0 to |keys|
      invariant cache.Valid() && cache.View() == LevelsWithout(cache.mode, before, sid, keys[..i], ok.write)
      invariant cache.l2.published == published + Invalidations(cache.mode, sid, keys[..i], ok.publish)
    {
      OneMoreDropped(cache.mode, before, sid, keys, i, ok);
      cache.OnDeleted(sid, keys[i], ok);
    }
    assert keys[..|keys|] == keys;
  }

  ghost predicate NoRepeats(keys: seq<string>) {
    forall i, j :: 0 <= i < j < |keys| ==> keys[i] != keys[j]
  }

  /** The keys are those of the session's rows, as a store lists them that keeps keys as they are. */
  ghost predicate ListsRows(keys: seq<string>, rows: Rows, sid: string) {
    forall k :: k in keys <==> Pair(sid, k) in rows
  }

  /**
   `allKeys` is the answer of `getAllKeys`. The pass returns the listed keys that
   are stale, each once if it was listed once; they leave the database and L1, and
   Redis if it can be reached, and nothing else changes. If the list names exactly
   the session's rows, all that are stale are gone.
   */
  method PruneExpiredKeys(cache: Manager, sid: string, options: Options, allKeys: seq<string>, now: int, ok: Sends)
    returns (pruned: seq<string>)
    requires cache.Valid()
    modifies cache.table`rows, cache.l1`store, cache.l1`currentBytes, cache.l2
    ensures cache.Valid()
    ensures forall k :: k in pruned <==> k in allKeys && Stale(old(cache.table.rows), sid, k, options, now)
    ensures NoRepeats(allKeys) ==> NoRepeats(pruned)
    ensures cache.table.rows == RemoveAll(old(cache.table.rows), sid, pruned)
    ensures ListsRows(allKeys, old(cache.table.rows), sid) ==>
              cache.table.rows == AfterPrune(old(cache.table.rows), sid, options, now)
    ensures cache.View() == LevelsWithout(cache.mode, old(cache.View()), sid, pruned, ok.write)
    ensures cache.l2.published == old(cache.l2.published) + Invalidations(cache.mode, sid, pruned, ok.publish)
  {
    NoneDropped(cache.mode, cache.View(), sid, ok.write);
    NoneDropped(cache.mode, cache.View(), sid, ok.publish);
    pruned := [];
    if options.enabled {
      var candidates := FindCandidates(options, allKeys);
      pruned := FindStale(options, candidates, Select(cache.table.rows, sid, candidates), now);
    }
    if |pruned| == 0 {
      return;
    }
    cache.table.DeleteMany(sid, pruned);
    DropFromCaches(cache, sid, pruned, ok);
  }

  lemma NextIsFresh(keys: seq<string>, i: nat)
    requires i < |keys|
    ensures NoRepeats(keys) ==> keys[i] !in keys[..i]
  {
  }

  /** The candidate filter; `wanted` are the candidates among the keys. */
  method FindCandidates(options: Options, allKeys: seq<string>) returns (candidates: seq<string>)
    ensures forall k :: k in candidates <==> k in allKeys && Candidate(k, options)
    ensures NoRepeats(allKeys) ==> NoRepeats(candidates)
  {
    candidates := [];
    ghost var wanted := set k | k in allKeys && Candidate(k, options);
    for i := 0 to |allKeys|
      invariant forall k :: k in candidates <==> k in allKeys[..i] && k in wanted
      invariant NoRepeats(allKeys) ==> NoRepeats(candidates)
    {
      assert allKeys[..i + 1] == allKeys[..i] + [allKeys[i]];
      NextIsFresh(allKeys, i);
      var candidate := IsCandidate(allKeys[i], options);
      if candidate {
        candidates := candidates + [allKeys[i]];
      }
    }
    assert allKeys[..|allKeys|] == allKeys;
  }

  method IsCandidate(key: string, options: Options) returns (candidate: bool)
    ensures candidate == Candidate(key, options)
  {
    if key == CREDS_KEY {
      return false;
    }
    var category := ResolveCategory(key);
    return category.Some? && category.value in options.maxAgeMs;
  }

  /** The age check over the rows found; a candidate without a row is passed over. `wanted` are the keys to keep. */
  method FindStale(options: Options, candidates: seq<string>, records: map<string, Row>, now: int)
    returns (staleKeys: seq<string>)
    ensures forall k :: k in staleKeys <==> k in candidates && k in records && TooOld(k, records[k], options, now)
    ensures NoRepeats(candidates) ==> NoRepeats(staleKeys)
  {
    staleKeys := [];
    ghost var wanted := set k | k in candidates && k in records && TooOld(k, records[k], options, now);
    for i := 0 to |candidates|
      invariant forall k :: k in staleKeys <==> k in candidates[..i] && k in wanted
      invariant NoRepeats(candidates) ==> NoRepeats(staleKeys)
    {
      var key := candidates[i];
      assert candidates[..i + 1] == candidates[..i] + [key];
      NextIsFresh(candidates, i);
      if key in records {
        var stale := IsTooOld(key, records[key], options, now);
        if stale {
          staleKeys := staleKeys + [key];
        }
      }
    }
    assert candidates[..|candidates|] == candidates;
  }

  method IsTooOld(key: string, row: Row, options: Options, now: int) returns (stale: bool)
    ensures stale == TooOld(key, row, options, now)
  {
    var candidate := IsCandidate(key, options);
    if !candidate {
      return false;
    }
    var category := ResolveCategory(key);
    return now - row.updatedAt >= options.maxAgeMs[category.value];
  }
}
