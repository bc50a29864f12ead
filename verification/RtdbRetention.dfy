/** The pruning pass (src/retention.ts) over the Realtime Database. */
module RtdbRetention {
  // There `getAllKeys` (src/adapters/firebase-realtime-adapter.ts) lists escaped
  // segments. A segment reaches its key's row, but it is not the key's cache key when
  // the key had to be escaped, so the caches keep such rows after a prune.

  import opened Wrappers
  import opened Records
  import opened CacheKeys
  import opened MemoryCache
  import opened CacheManager
  import Retention
  import opened RtdbKeys

  ghost predicate StaleSegment(nodes: map<string, Row>, sid: string, segment: string, options: Retention.Options,
                               now: int) {
    && options.enabled && Path(sid, segment) in nodes
    && Retention.TooOld(segment, nodes[Path(sid, segment)], options, now)
  }

  method PruneExpiredKeys(adapter: Adapter, cache: Manager, sid: string, options: Retention.Options,
                          allKeys: seq<string>, now: int, ok: Sends) returns (pruned: seq<string>)
    requires cache.Valid()
    modifies adapter`nodes, cache.l1`store, cache.l1`currentBytes, cache.l2
    ensures cache.Valid()
    ensures forall k :: k in pruned <==> k in allKeys && StaleSegment(old(adapter.nodes), sid, k, options, now)
    ensures Retention.NoRepeats(allKeys) ==> Retention.NoRepeats(pruned)
    ensures adapter.nodes == old(adapter.nodes) - PathsOf(sid, pruned)
    ensures cache.View() == Retention.LevelsWithout(cache.mode, old(cache.View()), sid, pruned, ok.write)
    ensures cache.l2.published == old(cache.l2.published) + Retention.Invalidations(cache.mode, sid, pruned, ok.publish)
  {
    Retention.NoneDropped(cache.mode, cache.View(), sid, ok.write);
    Retention.NoneDropped(cache.mode, cache.View(), sid, ok.publish);
    pruned := [];
    if options.enabled {
      var candidates := Retention.FindCandidates(options, allKeys);
      var records := adapter.GetMany(sid, candidates);
      pruned := Retention.FindStale(options, candidates, records, now);
    }
    if |pruned| == 0 {
      return;
    }
    adapter.DeleteMany(sid, pruned);
    Retention.DropFromCaches(cache, sid, pruned, ok);
  }

  function PathsOf(sid: string, keys: seq<string>): set<string> {
    set k | k in keys :: Path(sid, k)
  }

  /** The pruned segments, when the list is the one `getAllKeys` gives. */
  ghost predicate PrunesListed(nodes: map<string, Row>, sid: string, options: Retention.Options, now: int,
                               pruned: seq<string>) {
    forall k :: k in pruned <==> Listed(nodes, sid, k) && StaleSegment(nodes, sid, k, options, now)
  }

  /** A segment is its key's name in the caches exactly when nothing had to be escaped. */
  lemma SegmentIsCacheKey(sid: string, key: string)
    ensures CacheKey(Pair(sid, Escape(key))) == CacheKey(Pair(sid, key)) <==> Legal(key)
  {
    OneSessionKeys(sid, Escape(key), key);
    EscapeFixesLegal(key);
  }

  /** A listed segment with a key's path is the key's segment. */
  lemma ListedSegment(nodes: map<string, Row>, sid: string, segment: string, key: string)
    requires Listed(nodes, sid, segment) && key != "" && Path(sid, segment) == Path(sid, key)
    ensures segment == Escape(key)
  {
    EscapeFixesLegal(segment);
    PathShape(ROOT, Escape(sid), Escape(segment));
    PathShape(ROOT, Escape(sid), Escape(key));
    DropPrefix(ROOT, Escape(sid) + "/" + Escape(segment), Escape(sid) + "/" + Escape(key), Path(sid, key));
    EscapeIsLegal(sid);
    SplitAtSlash(Escape(sid), Escape(segment), Escape(sid), Escape(key));
  }

  /** In the database the pass is exact: a stored key's row goes exactly when the key itself is stale. */
  lemma RowsArePruned(nodes: map<string, Row>, sid: string, options: Retention.Options, now: int,
                      pruned: seq<string>, key: string)
    requires PrunesListed(nodes, sid, options, now, pruned) && key != "" && Path(sid, key) in nodes
    ensures Path(sid, key) !in nodes - PathsOf(sid, pruned) <==>
            options.enabled && Retention.TooOld(key, nodes[Path(sid, key)], options, now)
  {
    ListedKeysAreHandles(nodes, sid, key);
    assert Escape(key) in pruned <==> StaleSegment(nodes, sid, Escape(key), options, now);
    forall k | k in pruned && Path(sid, k) == Path(sid, key) ensures k == Escape(key) {
      ListedSegment(nodes, sid, k, key);
    }
    assert Path(sid, Escape(key)) == Path(sid, key);
  }

  /** In the caches a stored key's entries go exactly when the key is stale and needed no escaping. */
  lemma CachesArePruned(nodes: map<string, Row>, mode: Mode, s: Levels, sid: string, options: Retention.Options,
                        now: int, pruned: seq<string>, key: string)
    requires PrunesListed(nodes, sid, options, now, pruned) && key != "" && Path(sid, key) in nodes && Distinct(s.l1)
    ensures var t, ck := Retention.LevelsWithout(mode, s, sid, pruned, true), CacheKey(Pair(sid, key));
            var gone := Legal(key) && options.enabled && Retention.TooOld(key, nodes[Path(sid, key)], options, now);
            && Distinct(t.l1)
            && Lookup(t.l1, ck) == (if gone then None else Lookup(s.l1, ck))
            && RedisGet(mode, t.l2, ck, true) == (if gone then None else RedisGet(mode, s.l2, ck, true))
  {
    Retention.DroppedLookup(mode, s, sid, pruned, true, key);
    ListedKeysAreHandles(nodes, sid, key);
    EscapeFixesLegal(key);
  }

  /**
   So a pruned row is really gone for a reader exactly when its key needed no
   escaping, or no level held a live entry of it.
   */
  lemma PrunedRowRead(nodes: map<string, Row>, mode: Mode, s: Levels, sid: string, options: Retention.Options,
                      now: int, pruned: seq<string>, key: string, later: int, limits: Limits)
    requires PrunesListed(nodes, sid, options, now, pruned) && key != "" && Path(sid, key) in nodes && Distinct(s.l1)
    requires options.enabled && Retention.TooOld(key, nodes[Path(sid, key)], options, now)
    ensures var t, ck := Retention.LevelsWithout(mode, s, sid, pruned, true), CacheKey(Pair(sid, key));
            && Path(sid, key) !in nodes - PathsOf(sid, pruned)
            && (GetOutcome(mode, t, None, ck, later, limits, ALL_OK).0.None? <==>
                Legal(key) || (GetResult(s.l1, ck, later).None? && RedisGet(mode, s.l2, ck, true).None?))
  {
    RowsArePruned(nodes, sid, options, now, pruned, key);
    CachesArePruned(nodes, mode, s, sid, options, now, pruned, key);
  }
}
