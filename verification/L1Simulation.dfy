/**
 The step system's L1, a map that may shrink at any moment, stands for the real
 LRU cache: each operation of the cache is matched by a write or nothing,
 followed by one shrink.
 */
module L1Simulation {
  import opened MemoryCache
  import Protocol = StorageProtocol

  /** The map holds what the cache holds: same keys, values and expiry. */
  ghost predicate Same(m: map<string, Protocol.L1Entry>, s: seq<Slot>) {
    && Distinct(s)
    && (forall k :: k in m <==> Lookup(s, k).Some?)
    && (forall k :: k in m ==> m[k].value == Lookup(s, k).value.value && m[k].expiresAt == Lookup(s, k).value.expiresAt)
  }

  /** A cache whose lookups are among the map's is matched by the map without the other keys. */
  lemma ShrinkMatches(m: map<string, Protocol.L1Entry>, s: seq<Slot>, t: seq<Slot>) returns (gone: set<string>)
    requires Same(m, s) && Distinct(t)
    requires forall k :: Lookup(t, k).Some? ==> Lookup(t, k) == Lookup(s, k)
    ensures Same(m - gone, t)
  {
    gone := set k | k in m && Lookup(t, k).None?;
  }

  /** `set` is a write of the entry and then a shrink. */
  lemma SetIsWriteThenShrink(m: map<string, Protocol.L1Entry>, s: seq<Slot>, key: string, value: string, version: int,
                             now: int, limits: Limits, seenAt: int) returns (gone: set<string>)
    requires Same(m, s)
    ensures Same(m[key := Protocol.L1Entry(value, now + limits.ttlMs, seenAt)] - gone,
                 AfterSet(s, key, value, version, now, limits))
  {
    var t := AfterSet(s, key, value, version, now, limits);
    var m' := m[key := Protocol.L1Entry(value, now + limits.ttlMs, seenAt)];
    gone := set k | k in m' && Lookup(t, k).None?;
    forall k ensures Lookup(t, k).Some? ==>
                       && k in m' && m'[k].value == Lookup(t, k).value.value
                       && m'[k].expiresAt == Lookup(t, k).value.expiresAt
    {
      SetLookup(s, key, value, version, now, limits, k);
    }
    SetLookup(s, key, value, version, now, limits, key);
  }

  /** Reading an entry, live or expired, is at most a shrink; a hit is live in the map too, with the same value. */
  lemma GetIsShrink(m: map<string, Protocol.L1Entry>, s: seq<Slot>, key: string, now: int) returns (gone: set<string>)
    requires Same(m, s)
    ensures Same(m - gone, AfterGet(s, key, now))
    ensures GetResult(s, key, now).Some? <==> key in m && now < m[key].expiresAt
    ensures GetResult(s, key, now).Some? ==> GetResult(s, key, now).value.value == m[key].value
  {
    forall k ensures Lookup(AfterGet(s, key, now), k).Some? ==> Lookup(AfterGet(s, key, now), k) == Lookup(s, k) {
      GetLookup(s, key, now, k);
    }
    GetLookup(s, key, now, key);
    gone := ShrinkMatches(m, s, AfterGet(s, key, now));
  }

  /** Deleting, clearing a session and sweeping are shrinks. */
  lemma FilterIsShrink(m: map<string, Protocol.L1Entry>, s: seq<Slot>, keep: Slot -> bool) returns (gone: set<string>)
    requires Same(m, s)
    ensures Same(m - gone, Filter(s, keep))
  {
    FilterKeepsDistinct(s, keep);
    forall k ensures Lookup(Filter(s, keep), k).Some? ==> Lookup(Filter(s, keep), k) == Lookup(s, k) {
      LookupFilter(s, keep, k);
    }
    gone := ShrinkMatches(m, s, Filter(s, keep));
  }
}
