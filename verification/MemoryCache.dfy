/** The L1 cache (src/cache/memory-cache.ts). */
module MemoryCache {
  // A JavaScript Map iterates in insertion order, so its content is a sequence of
  // slots with distinct keys, oldest first. The functions of the first part say what
  // one operation does to that sequence; the class does it step by step.

  import opened Wrappers

  datatype Entry = Entry(value: string, version: int, expiresAt: int, byteSize: nat)
  datatype Slot = Slot(key: string, entry: Entry)
  datatype Hit = Hit(value: string, version: int)
  datatype Limits = Limits(ttlMs: int, maxEntries: int, maxBytes: int)

  /** Length in bytes of the UTF-8 encoding. */
  function Utf8Length(s: string): nat {
    if s == [] then 0 else Utf8Length(s[..|s| - 1]) + CharBytes(s[|s| - 1])
  }

  function CharBytes(c: char): nat {
    if c < '\U{80}' then 1 else if c < '\U{800}' then 2 else if c < '\U{10000}' then 3 else 4
  }

  // ---------------------------------------------------------------- ordered maps

  ghost predicate Distinct(s: seq<Slot>) {
    forall i, j :: 0 <= i < j < |s| ==> s[i].key != s[j].key
  }

  ghost predicate HasKey(s: seq<Slot>, key: string) {
    exists i :: 0 <= i < |s| && s[i].key == key
  }

  function Lookup(s: seq<Slot>, key: string): Option<Entry> {
    if s == [] then None
    else if s[0].key == key then Some(s[0].entry)
    else Lookup(s[1..], key)
  }

  function Filter(s: seq<Slot>, keep: Slot -> bool): seq<Slot> {
    if s == [] then []
    else if keep(s[0]) then [s[0]] + Filter(s[1..], keep)
    else Filter(s[1..], keep)
  }

  function Bytes(s: seq<Slot>): nat {
    if s == [] then 0 else s[0].entry.byteSize + Bytes(s[1..])
  }

  function OtherThan(key: string): Slot -> bool {
    (x: Slot) => x.key != key
  }

  function OutsidePrefix(prefix: string): Slot -> bool {
    (x: Slot) => !StartsWith(x.key, prefix)
  }

  function LiveAt(now: int): Slot -> bool {
    (x: Slot) => now < x.entry.expiresAt
  }

  function Without(s: seq<Slot>, key: string): seq<Slot> {
    Filter(s, OtherThan(key))
  }

  // ---------------------------------------------------------------- operations

  predicate Fits(s: seq<Slot>, limits: Limits) {
    |s| <= limits.maxEntries && Bytes(s) <= limits.maxBytes
  }

  /** Drops the oldest slots until the rest fits; an empty key at the front stops it. */
  function Evict(s: seq<Slot>, limits: Limits): seq<Slot> {
    if Fits(s, limits) || s == [] || s[0].key == "" then s else Evict(s[1..], limits)
  }

  function NewSlot(key: string, value: string, version: int, now: int, limits: Limits): Slot {
    Slot(key, Entry(value, version, now + limits.ttlMs, Utf8Length(value)))
  }

  function AfterSet(s: seq<Slot>, key: string, value: string, version: int, now: int, limits: Limits): seq<Slot> {
    Evict(Without(s, key) + [NewSlot(key, value, version, now, limits)], limits)
  }

  function GetResult(s: seq<Slot>, key: string, now: int): Option<Hit> {
    match Lookup(s, key)
    case None => None
    case Some(e) => if e.expiresAt <= now then None else Some(Hit(e.value, e.version))
  }

  function AfterGet(s: seq<Slot>, key: string, now: int): seq<Slot> {
    match Lookup(s, key)
    case None => s
    case Some(e) => if e.expiresAt <= now then Without(s, key) else Without(s, key) + [Slot(key, e)]
  }

  // ---------------------------------------------------------------- lemmas on ordered maps

  lemma {:induction false} FilterAppend(a: seq<Slot>, b: seq<Slot>, keep: Slot -> bool)
    ensures Filter(a + b, keep) == Filter(a, keep) + Filter(b, keep)
  {
    if a == [] {
      assert a + b == b;
    } else {
      assert (a + b)[1..] == a[1..] + b;
      FilterAppend(a[1..], b, keep);
    }
  }

  lemma {:induction false} FilterMembers(s: seq<Slot>, keep: Slot -> bool)
    ensures forall x :: x in Filter(s, keep) <==> x in s && keep(x)
    ensures |Filter(s, keep)| <= |s|
  {
    if s != [] {
      FilterMembers(s[1..], keep);
      assert s == [s[0]] + s[1..];
    }
  }

  lemma {:induction false} FilterKeepsDistinct(s: seq<Slot>, keep: Slot -> bool)
    requires Distinct(s)
    ensures Distinct(Filter(s, keep))
  {
    if s != [] {
      FilterKeepsDistinct(s[1..], keep);
      FilterMembers(s[1..], keep);
      var rest := Filter(s[1..], keep);
      forall j | 0 <= j < |rest| ensures rest[j].key != s[0].key {
        assert rest[j] in s[1..];
      }
    }
  }

  lemma {:induction false} FilterAll(s: seq<Slot>, keep: Slot -> bool)
    requires forall x :: x in s ==> keep(x)
    ensures Filter(s, keep) == s
  {
    if s != [] {
      FilterAll(s[1..], keep);
    }
  }

  lemma {:induction false} LookupMember(s: seq<Slot>, key: string)
    ensures Lookup(s, key).None? <==> !HasKey(s, key)
    ensures Lookup(s, key).Some? ==> Slot(key, Lookup(s, key).value) in s
  {
    if s != [] {
      LookupMember(s[1..], key);
      if HasKey(s, key) && s[0].key != key {
        var i :| 0 <= i < |s| && s[i].key == key;
        assert s[1..][i - 1].key == key;
      }
      if HasKey(s[1..], key) {
        var i :| 0 <= i < |s[1..]| && s[1..][i].key == key;
        assert s[i + 1].key == key;
      }
    }
  }

  lemma {:induction false} LookupOf(s: seq<Slot>, x: Slot)
    requires Distinct(s) && x in s
    ensures Lookup(s, x.key) == Some(x.entry)
  {
    if s[0] != x {
      assert x in s[1..];
      LookupOf(s[1..], x);
    }
  }

  lemma {:induction false} LookupAppend(a: seq<Slot>, b: seq<Slot>, key: string)
    ensures Lookup(a + b, key) == if Lookup(a, key).Some? then Lookup(a, key) else Lookup(b, key)
  {
    if a == [] {
      assert a + b == b;
    } else {
      assert (a + b)[1..] == a[1..] + b;
      LookupAppend(a[1..], b, key);
    }
  }

  /** Filtering keeps exactly the looked-up slots that pass. */
  lemma {:induction false} LookupFilter(s: seq<Slot>, keep: Slot -> bool, key: string)
    requires Distinct(s)
    ensures Lookup(Filter(s, keep), key) ==
            match Lookup(s, key) {
              case None => None
              case Some(e) => if keep(Slot(key, e)) then Some(e) else None
            }
  {
    FilterKeepsDistinct(s, keep);
    FilterMembers(s, keep);
    LookupMember(s, key);
    LookupMember(Filter(s, keep), key);
    if Lookup(Filter(s, keep), key).Some? {
      LookupOf(s, Slot(key, Lookup(Filter(s, keep), key).value));
    }
    if Lookup(s, key).Some? && keep(Slot(key, Lookup(s, key).value)) {
      LookupOf(Filter(s, keep), Slot(key, Lookup(s, key).value));
    }
  }

  lemma {:induction false} BytesAppend(a: seq<Slot>, b: seq<Slot>)
    ensures Bytes(a + b) == Bytes(a) + Bytes(b)
  {
    if a == [] {
      assert a + b == b;
    } else {
      assert (a + b)[1..] == a[1..] + b;
      BytesAppend(a[1..], b);
    }
  }

  lemma {:induction false} WithoutAbsent(s: seq<Slot>, key: string)
    requires Lookup(s, key).None?
    ensures Without(s, key) == s
  {
    LookupMember(s, key);
    FilterAll(s, OtherThan(key));
  }

  /** Removing a key gives back exactly its bytes. */
  lemma {:induction false} BytesWithout(s: seq<Slot>, key: string)
    requires Distinct(s)
    ensures Bytes(s) == Bytes(Without(s, key)) + (if Lookup(s, key).Some? then Lookup(s, key).value.byteSize else 0)
  {
    if s != [] {
      if s[0].key == key {
        forall x | x in s[1..] ensures OtherThan(key)(x) {}
        FilterAll(s[1..], OtherThan(key));
      } else {
        BytesWithout(s[1..], key);
      }
    }
  }

  lemma {:induction false} TouchKeeps(s: seq<Slot>, key: string, x: Slot)
    requires Distinct(s) && x.key == key
    ensures Distinct(Without(s, key) + [x])
  {
    FilterKeepsDistinct(s, OtherThan(key));
    FilterMembers(s, OtherThan(key));
    var w := Without(s, key);
    forall j | 0 <= j < |w| ensures w[j].key != key {
      assert w[j] in w;
    }
  }

  // ---------------------------------------------------------------- eviction

  /** What `Evict` leaves is a suffix, and it is the whole sequence exactly when that already fits or cannot move. */
  lemma {:induction false} EvictIsSuffix(s: seq<Slot>, limits: Limits) returns (d: nat)
    ensures d <= |s| && Evict(s, limits) == s[d..]
    ensures forall e :: 0 <= e < d ==> !Fits(s[e..], limits) && s[e].key != ""
    ensures Fits(s[d..], limits) || d == |s| || s[d].key == ""
  {
    if Fits(s, limits) || s == [] || s[0].key == "" {
      d := 0;
      assert s[0..] == s;
    } else {
      var d' := EvictIsSuffix(s[1..], limits);
      d := d' + 1;
      assert s[1..][d'..] == s[d..];
      forall e | 0 <= e < d ensures !Fits(s[e..], limits) && s[e].key != "" {
        if e == 0 {
          assert s[0..] == s;
        } else {
          assert s[1..][e - 1..] == s[e..];
        }
      }
    }
  }

  /**
   Minimal eviction: with limits that are not negative, some shortest oldest-first
   prefix makes the rest fit, and `Evict` removes exactly that prefix if and only
   if no slot of it has the empty key.
   */
  lemma EvictIsMinimal(s: seq<Slot>, limits: Limits) returns (d: nat)
    requires limits.maxEntries >= 0 && limits.maxBytes >= 0
    ensures d <= |s| && Fits(s[d..], limits)
    ensures forall e :: 0 <= e < d ==> !Fits(s[e..], limits)
    ensures Evict(s, limits) == s[d..] <==> forall e :: 0 <= e < d ==> s[e].key != ""
    ensures Fits(Evict(s, limits), limits) <==> forall e :: 0 <= e < d ==> s[e].key != ""
  {
    d := 0;
    while d < |s| && !Fits(s[d..], limits)
      invariant d <= |s|
      invariant forall e :: 0 <= e < d ==> !Fits(s[e..], limits)
    {
      d := d + 1;
    }
    assert s[|s|..] == [];
    var k := EvictIsSuffix(s, limits);
    if k < d {
      assert s[k].key == "";
      assert |s[k..]| > |s[d..]|;
    }
  }

  /** With the empty key at the front an over-full cache stays over-full. */
  lemma EmptyKeyBlocksEviction(e: Entry)
    ensures var s := [Slot("", e), Slot("k", e)];
            Evict(s, Limits(0, 1, 1_000_000 + Bytes(s))) == s && !Fits(s, Limits(0, 1, 1_000_000 + Bytes(s)))
  {
  }

  /**
   A freshly written key is in the cache afterwards exactly when its value fits
   the byte budget alone and one entry is allowed; whatever else is left kept its
   entry, and nothing appeared.
   */
  lemma SetOutcome(s: seq<Slot>, key: string, value: string, version: int, now: int, limits: Limits)
    requires Distinct(s) && limits.maxEntries >= 0 && limits.maxBytes >= 0
    requires key != "" && !HasKey(s, "")
    ensures var t := AfterSet(s, key, value, version, now, limits);
            && Fits(t, limits)
            && (HasKey(t, key) <==> Utf8Length(value) <= limits.maxBytes && limits.maxEntries >= 1)
  {
    var x := NewSlot(key, value, version, now, limits);
    var w := Without(s, key);
    var full := w + [x];
    FilterMembers(s, OtherThan(key));
    forall e | 0 <= e < |full| ensures full[e].key != "" {
      if e < |w| {
        assert w[e] in s;
      }
    }
    var d := EvictIsMinimal(full, limits);
    var t := full[d..];
    TouchKeeps(s, key, x);
    if d <= |w| {
      assert full[|w|..] == [x];
      assert full[d..] == full[d..][..|w| - d] + [x];
      BytesAppend(full[d..][..|w| - d], [x]);
      assert t[|w| - d].key == key;
    } else {
      assert t == [];
      assert !Fits(full[|w|..], limits) && full[|w|..] == [x];
    }
  }

  /** A suffix maps a key as the whole sequence does, or not at all. */
  lemma SuffixLookup(s: seq<Slot>, d: nat, k: string)
    requires Distinct(s) && d <= |s|
    ensures Distinct(s[d..])
    ensures Lookup(s[d..], k).None? || Lookup(s[d..], k) == Lookup(s, k)
  {
    LookupMember(s[d..], k);
    if Lookup(s[d..], k).Some? {
      LookupOf(s, Slot(k, Lookup(s[d..], k).value));
    }
  }

  /** The next state of a `set` is the old map with the new entry, minus whatever was evicted. */
  lemma SetLookup(s: seq<Slot>, key: string, value: string, version: int, now: int, limits: Limits, k: string)
    requires Distinct(s)
    ensures Distinct(AfterSet(s, key, value, version, now, limits))
    ensures var found := Lookup(AfterSet(s, key, value, version, now, limits), k);
            || found.None?
            || found == (if k == key then Some(NewSlot(key, value, version, now, limits).entry) else Lookup(s, k))
  {
    var x := NewSlot(key, value, version, now, limits);
    var full := Without(s, key) + [x];
    TouchKeeps(s, key, x);
    var d := EvictIsSuffix(full, limits);
    SuffixLookup(full, d, k);
    LookupAppend(Without(s, key), [x], k);
    LookupFilter(s, OtherThan(key), k);
  }

  /** A `get` never changes what any key maps to, except that an expired entry it met is gone. */
  lemma GetLookup(s: seq<Slot>, key: string, now: int, k: string)
    requires Distinct(s)
    ensures Distinct(AfterGet(s, key, now))
    ensures Lookup(AfterGet(s, key, now), k) ==
            if k == key && Lookup(s, key).Some? && Lookup(s, key).value.expiresAt <= now then None else Lookup(s, k)
  {
    FilterKeepsDistinct(s, OtherThan(key));
    LookupFilter(s, OtherThan(key), k);
    match Lookup(s, key) {
      case None =>
      case Some(e) =>
        TouchKeeps(s, key, Slot(key, e));
        LookupAppend(Without(s, key), [Slot(key, e)], k);
    }
  }

  /** What is found after a `set`: the value and version given, until the lifetime is over, if they fit at all. */
  lemma SetThenGet(s: seq<Slot>, key: string, value: string, version: int, now: int, limits: Limits, later: int)
    requires Distinct(s) && limits.maxEntries >= 0 && limits.maxBytes >= 0
    requires key != "" && !HasKey(s, "")
    ensures GetResult(AfterSet(s, key, value, version, now, limits), key, later) ==
            if Utf8Length(value) <= limits.maxBytes && limits.maxEntries >= 1 && later < now + limits.ttlMs
            then Some(Hit(value, version)) else None
  {
    var t := AfterSet(s, key, value, version, now, limits);
    SetOutcome(s, key, value, version, now, limits);
    SetLookup(s, key, value, version, now, limits, key);
    LookupMember(t, key);
  }

  /** Deleting, clearing a prefix and sweeping remove exactly what they should, and leave every other entry. */
  lemma RemovalsAreExact(s: seq<Slot>, key: string, prefix: string, now: int, k: string)
    requires Distinct(s)
    ensures Lookup(Without(s, key), k) == if k == key then None else Lookup(s, k)
    ensures Lookup(Filter(s, OutsidePrefix(prefix)), k) ==
            if |prefix| <= |k| && k[..|prefix|] == prefix then None else Lookup(s, k)
    ensures Lookup(Filter(s, LiveAt(now)), k) ==
            if Lookup(s, k).Some? && Lookup(s, k).value.expiresAt <= now then None else Lookup(s, k)
  {
    LookupFilter(s, OtherThan(key), k);
    LookupFilter(s, OutsidePrefix(prefix), k);
    LookupFilter(s, LiveAt(now), k);
  }

  /** One to four bytes a character, and one exactly for ASCII. */
  lemma {:induction false} Utf8Bounds(s: string)
    ensures |s| <= Utf8Length(s) <= 4 * |s|
    ensures Utf8Length(s) == |s| <==> forall i :: 0 <= i < |s| ==> s[i] as int < 128
  {
    if s != [] {
      var n := |s| - 1;
      Utf8Bounds(s[..n]);
      assert forall i :: 0 <= i < n ==> s[..n][i] == s[i];
    }
  }

  /** The four ranges of the encoding, by an example of each end. */
  lemma Utf8Examples()
    ensures Utf8Length("\U{7F}") == 1 && Utf8Length("\U{80}") == 2 && Utf8Length("\U{7FF}") == 2
    ensures Utf8Length("\U{800}") == 3 && Utf8Length("\U{FFFF}") == 3 && Utf8Length("\U{10000}") == 4
  {
  }

  // ---------------------------------------------------------------- the class

  class Cache {
    var store: seq<Slot>
    var currentBytes: int
    var sweeping: bool
    const limits: Limits

    /** Distinct keys, and the running byte count is the sum of the stored sizes. */
    ghost predicate Valid()
      reads this
    {
      Distinct(store) && currentBytes == Bytes(store)
    }

    constructor (limits: Limits)
      ensures Valid() && store == [] && this.limits == limits
    {
      this.limits := limits;
      store, currentBytes, sweeping := [], 0, true;
    }

    method Get(key: string, now: int) returns (hit: Option<Hit>)
      requires Valid()
      modifies this`store, this`currentBytes
      ensures Valid()
      ensures hit == GetResult(old(store), key, now)
      ensures store == AfterGet(old(store), key, now)
    {
      match Lookup(store, key)
      case None =>
        return None;
      case Some(entry) =>
        BytesWithout(store, key);
        FilterKeepsDistinct(store, OtherThan(key));
        if entry.expiresAt <= now {
          store := Without(store, key);
          currentBytes := currentBytes - entry.byteSize;
          return None;
        }
        TouchKeeps(store, key, Slot(key, entry));
        store := Without(store, key);
        BytesAppend(store, [Slot(key, entry)]);
        store := store + [Slot(key, entry)];
        return Some(Hit(entry.value, entry.version));
    }

    method Set(key: string, value: string, version: int, now: int)
      requires Valid()
      modifies this`store, this`currentBytes
      ensures Valid()
      ensures store == AfterSet(old(store), key, value, version, now, limits)
    {
      var x := NewSlot(key, value, version, now, limits);
      TouchKeeps(store, key, x);
      BytesWithout(store, key);
      match Lookup(store, key) {
        case Some(existing) =>
          currentBytes := currentBytes - existing.byteSize;
          store := Without(store, key);
        case None =>
          WithoutAbsent(store, key);
      }
      BytesAppend(store, [x]);
      store := store + [x];
      currentBytes := currentBytes + x.entry.byteSize;
      EvictIfNeeded();
    }

    method Delete(key: string)
      requires Valid()
      modifies this`store, this`currentBytes
      ensures Valid() && store == Without(old(store), key)
    {
      BytesWithout(store, key);
      FilterKeepsDistinct(store, OtherThan(key));
      match Lookup(store, key)
      case Some(entry) =>
        currentBytes := currentBytes - entry.byteSize;
        store := Without(store, key);
      case None =>
        WithoutAbsent(store, key);
    }

    method EvictIfNeeded()
      requires Valid()
      modifies this`store, this`currentBytes
      ensures Valid() && store == Evict(old(store), limits)
    {
      while (|store| > limits.maxEntries || currentBytes > limits.maxBytes) && |store| > 0
        invariant Valid()
        invariant Evict(store, limits) == Evict(old(store), limits)
        decreases |store|
      {
        var oldestKey := store[0].key;
        if oldestKey == "" {
          break;
        }
        FirstRemoved(store);
        Delete(oldestKey);
      }
    }

    method DeleteByPrefix(prefix: string)
      requires Valid()
      modifies this`store, this`currentBytes
      ensures Valid() && store == Filter(old(store), OutsidePrefix(prefix))
    {
      var i := 0;
      ghost var seen := 0;
      while i < |store|
        invariant Valid() && 0 <= i <= |store| && 0 <= seen <= |old(store)|
        invariant store[..i] == Filter(old(store)[..seen], OutsidePrefix(prefix))
        invariant store[i..] == old(store)[seen..]
        decreases |store| - i
      {
        FilterNext(old(store), seen, OutsidePrefix(prefix));
        assert store[i] == store[i..][0] == old(store)[seen];
        if StartsWith(store[i].key, prefix) {
          MiddleRemoved(store, i);
          Delete(store[i].key);
        } else {
          i := i + 1;
        }
        seen := seen + 1;
      }
      assert old(store)[..seen] == old(store) && store[..i] == store;
    }

    method SweepExpired(now: int)
      requires Valid()
      modifies this`store, this`currentBytes
      ensures Valid() && store == Filter(old(store), LiveAt(now))
    {
      var i := 0;
      ghost var seen := 0;
      while i < |store|
        invariant Valid() && 0 <= i <= |store| && 0 <= seen <= |old(store)|
        invariant store[..i] == Filter(old(store)[..seen], LiveAt(now))
        invariant store[i..] == old(store)[seen..]
        decreases |store| - i
      {
        FilterNext(old(store), seen, LiveAt(now));
        assert store[i] == store[i..][0] == old(store)[seen];
        if store[i].entry.expiresAt <= now {
          MiddleRemoved(store, i);
          Delete(store[i].key);
        } else {
          i := i + 1;
        }
        seen := seen + 1;
      }
      assert old(store)[..seen] == old(store) && store[..i] == store;
    }

    method Clear()
      modifies this`store, this`currentBytes
      ensures Valid() && store == []
    {
      store, currentBytes := [], 0;
    }

    method Destroy()
      modifies this
      ensures Valid() && store == [] && !sweeping
    {
      sweeping := false;
      Clear();
    }
  }

  lemma MiddleRemoved(s: seq<Slot>, i: nat)
    requires Distinct(s) && i < |s|
    ensures Without(s, s[i].key) == s[..i] + s[i + 1..]
  {
    var p := OtherThan(s[i].key);
    assert s == s[..i] + ([s[i]] + s[i + 1..]);
    FilterAppend(s[..i], [s[i]] + s[i + 1..], p);
    FilterAppend([s[i]], s[i + 1..], p);
    FilterAll(s[..i], p);
    FilterAll(s[i + 1..], p);
  }

  lemma FirstRemoved(s: seq<Slot>)
    requires Distinct(s) && s != []
    ensures Without(s, s[0].key) == s[1..]
  {
    MiddleRemoved(s, 0);
  }

  lemma FilterNext(s: seq<Slot>, n: nat, keep: Slot -> bool)
    requires n < |s|
    ensures Filter(s[..n + 1], keep) == Filter(s[..n], keep) + (if keep(s[n]) then [s[n]] else [])
  {
    assert s[..n + 1] == s[..n] + [s[n]];
    FilterAppend(s[..n], [s[n]], keep);
  }
}
