/** Whole traces of one L1 cache. */
module LruInclusion {
  // Accounting and limits hold throughout, the entries stand in the order of their
  // last use, and a larger entry limit never turns a hit into a miss (the LRU
  // inclusion property).

  import opened Wrappers
  import opened MemoryCache

  /** One call on the cache, with the reading of the clock it saw. */
  datatype Op =
    | Get(key: string, now: int)
    | Set(key: string, value: string, version: int, now: int)
    | Delete(key: string)
    | DeleteByPrefix(prefix: string)
    | Sweep(now: int)
    | Clear

  function Step(s: seq<Slot>, op: Op, limits: Limits): seq<Slot> {
    match op
    case Get(key, now) => AfterGet(s, key, now)
    case Set(key, value, version, now) => AfterSet(s, key, value, version, now, limits)
    case Delete(key) => Without(s, key)
    case DeleteByPrefix(prefix) => Filter(s, OutsidePrefix(prefix))
    case Sweep(now) => Filter(s, LiveAt(now))
    case Clear => []
  }

  function Run(ops: seq<Op>, limits: Limits): seq<Slot> {
    if ops == [] then [] else Step(Run(ops[..|ops| - 1], limits), ops[|ops| - 1], limits)
  }

  ghost predicate NonEmptyKeys(ops: seq<Op>) {
    forall i :: 0 <= i < |ops| && ops[i].Set? ==> ops[i].key != ""
  }

  /** The class performs a step of the trace, for every operation. */
  method Perform(cache: Cache, op: Op) returns (hit: Option<Hit>)
    requires cache.Valid()
    modifies cache`store, cache`currentBytes
    ensures cache.Valid() && cache.store == Step(old(cache.store), op, cache.limits)
    ensures op.Get? ==> hit == GetResult(old(cache.store), op.key, op.now)
  {
    hit := None;
    match op
    case Get(key, now) => hit := cache.Get(key, now);
    case Set(key, value, version, now) => cache.Set(key, value, version, now);
    case Delete(key) => cache.Delete(key);
    case DeleteByPrefix(prefix) => cache.DeleteByPrefix(prefix);
    case Sweep(now) => cache.SweepExpired(now);
    case Clear => cache.Clear();
  }

  // ---------------------------------------------------------------- limits on every trace

  lemma {:induction false} FilterShrinks(s: seq<Slot>, keep: Slot -> bool)
    ensures |Filter(s, keep)| <= |s| && Bytes(Filter(s, keep)) <= Bytes(s)
  {
    if s != [] {
      FilterShrinks(s[1..], keep);
      if keep(s[0]) {
        assert Filter(s, keep)[1..] == Filter(s[1..], keep);
      }
    }
  }

  lemma FilterKeepsAbsence(s: seq<Slot>, keep: Slot -> bool, key: string)
    requires !HasKey(s, key)
    ensures !HasKey(Filter(s, keep), key)
  {
    FilterMembers(s, keep);
    var t := Filter(s, keep);
    forall i | 0 <= i < |t| ensures t[i].key != key {
      assert t[i] in s;
    }
  }

  lemma GetShape(s: seq<Slot>, key: string, now: int)
    requires Distinct(s)
    ensures |AfterGet(s, key, now)| <= |s| && Bytes(AfterGet(s, key, now)) <= Bytes(s)
    ensures !HasKey(s, "") ==> !HasKey(AfterGet(s, key, now), "")
  {
    FilterShrinks(s, OtherThan(key));
    BytesWithout(s, key);
    LookupMember(s, key);
    if !HasKey(s, "") {
      FilterKeepsAbsence(s, OtherThan(key), "");
    }
    if Lookup(s, key).Some? {
      var x := Slot(key, Lookup(s, key).value);
      BytesAppend(Without(s, key), [x]);
      FilterDropsMember(s, OtherThan(key), x);
    }
  }

  lemma {:induction false} FilterDropsMember(s: seq<Slot>, keep: Slot -> bool, x: Slot)
    requires x in s && !keep(x)
    ensures |Filter(s, keep)| < |s|
  {
    if s[0] == x {
      FilterShrinks(s[1..], keep);
    } else {
      FilterDropsMember(s[1..], keep, x);
    }
  }

  /** On every trace that stores no empty key the keys stay distinct and both limits hold after every operation. */
  lemma {:induction false} LimitsHold(ops: seq<Op>, limits: Limits)
    requires limits.maxEntries >= 0 && limits.maxBytes >= 0 && NonEmptyKeys(ops)
    ensures Distinct(Run(ops, limits)) && !HasKey(Run(ops, limits), "")
    ensures Fits(Run(ops, limits), limits)
  {
    if ops != [] {
      var before := ops[..|ops| - 1];
      LimitsHold(before, limits);
      StepKeepsLimits(Run(before, limits), ops[|ops| - 1], limits);
    }
  }

  lemma StepKeepsLimits(s: seq<Slot>, op: Op, limits: Limits)
    requires limits.maxEntries >= 0 && limits.maxBytes >= 0
    requires Distinct(s) && !HasKey(s, "") && Fits(s, limits) && (op.Set? ==> op.key != "")
    ensures var t := Step(s, op, limits); Distinct(t) && !HasKey(t, "") && Fits(t, limits)
  {
    match op
    case Get(key, now) =>
      GetLookup(s, key, now, key);
      GetShape(s, key, now);
    case Set(key, value, version, now) =>
      SetLookup(s, key, value, version, now, limits, "");
      SetOutcome(s, key, value, version, now, limits);
      LookupMember(AfterSet(s, key, value, version, now, limits), "");
      LookupMember(s, "");
    case Delete(key) =>
      FilterKeepsDistinct(s, OtherThan(key));
      FilterShrinks(s, OtherThan(key));
      FilterKeepsAbsence(s, OtherThan(key), "");
    case DeleteByPrefix(prefix) =>
      FilterKeepsDistinct(s, OutsidePrefix(prefix));
      FilterShrinks(s, OutsidePrefix(prefix));
      FilterKeepsAbsence(s, OutsidePrefix(prefix), "");
    case Sweep(now) =>
      FilterKeepsDistinct(s, LiveAt(now));
      FilterShrinks(s, LiveAt(now));
      FilterKeepsAbsence(s, LiveAt(now), "");
    case Clear =>
  }

  // ---------------------------------------------------------------- least recently used first

  /** The last call of the trace uses the key: it stores it, or reads it and finds it live. */
  predicate Uses(ops: seq<Op>, key: string, limits: Limits)
    requires ops != []
  {
    match ops[|ops| - 1]
    case Set(k, _, _, _) => k == key
    case Get(k, now) => k == key && GetResult(Run(ops[..|ops| - 1], limits), k, now).Some?
    case _ => false
  }

  /** The position in the trace of a key's last use, -1 for none. */
  function LastUse(ops: seq<Op>, key: string, limits: Limits): int
    decreases |ops|
  {
    if ops == [] then -1
    else if Uses(ops, key, limits) then |ops| - 1
    else LastUse(ops[..|ops| - 1], key, limits)
  }

  ghost predicate InOrderOfUse(s: seq<Slot>, ops: seq<Op>, limits: Limits) {
    && (forall i :: 0 <= i < |s| ==> 0 <= LastUse(ops, s[i].key, limits))
    && (forall i, j :: 0 <= i < j < |s| ==> LastUse(ops, s[i].key, limits) < LastUse(ops, s[j].key, limits))
  }

  lemma {:induction false} LastUseInTrace(ops: seq<Op>, key: string, limits: Limits)
    ensures -1 <= LastUse(ops, key, limits) < |ops|
    decreases |ops|
  {
    if ops != [] {
      LastUseInTrace(ops[..|ops| - 1], key, limits);
    }
  }

  lemma {:induction false} FilterKeepsOrder(s: seq<Slot>, keep: Slot -> bool, ops: seq<Op>, limits: Limits)
    requires InOrderOfUse(s, ops, limits)
    ensures InOrderOfUse(Filter(s, keep), ops, limits)
  {
    if s != [] {
      FilterKeepsOrder(s[1..], keep, ops, limits);
      FilterMembers(s[1..], keep);
      var rest := Filter(s[1..], keep);
      forall j | 0 <= j < |rest| ensures LastUse(ops, s[0].key, limits) < LastUse(ops, rest[j].key, limits) {
        assert rest[j] in s[1..];
      }
    }
  }

  /** A call that uses none of these keys leaves their order as it is. */
  lemma OtherUsesKeepOrder(s: seq<Slot>, ops: seq<Op>, limits: Limits)
    requires ops != [] && InOrderOfUse(s, ops[..|ops| - 1], limits)
    requires forall i :: 0 <= i < |s| ==> !Uses(ops, s[i].key, limits)
    ensures InOrderOfUse(s, ops, limits)
  {
    forall i | 0 <= i < |s| ensures LastUse(ops, s[i].key, limits) == LastUse(ops[..|ops| - 1], s[i].key, limits) {
    }
  }

  /** The key just used goes behind all others. */
  lemma UsedLast(s: seq<Slot>, x: Slot, ops: seq<Op>, limits: Limits)
    requires ops != [] && InOrderOfUse(s, ops[..|ops| - 1], limits) && Uses(ops, x.key, limits)
    ensures InOrderOfUse(Without(s, x.key) + [x], ops, limits)
  {
    var w := Without(s, x.key);
    FilterKeepsOrder(s, OtherThan(x.key), ops[..|ops| - 1], limits);
    FilterMembers(s, OtherThan(x.key));
    forall i | 0 <= i < |w| ensures !Uses(ops, w[i].key, limits) && LastUse(ops, w[i].key, limits) < |ops| - 1 {
      assert w[i] in w;
      LastUseInTrace(ops[..|ops| - 1], w[i].key, limits);
    }
    OtherUsesKeepOrder(w, ops, limits);
  }

  lemma SuffixKeepsOrder(s: seq<Slot>, d: nat, ops: seq<Op>, limits: Limits)
    requires d <= |s| && InOrderOfUse(s, ops, limits)
    ensures InOrderOfUse(s[d..], ops, limits)
  {
  }

  lemma StepKeepsOrder(ops: seq<Op>, limits: Limits)
    requires ops != [] && InOrderOfUse(Run(ops[..|ops| - 1], limits), ops[..|ops| - 1], limits)
    ensures InOrderOfUse(Run(ops, limits), ops, limits)
  {
    var before := ops[..|ops| - 1];
    var s := Run(before, limits);
    match ops[|ops| - 1]
    case Get(key, now) =>
      LookupMember(s, key);
      if Lookup(s, key).Some? && now < Lookup(s, key).value.expiresAt {
        UsedLast(s, Slot(key, Lookup(s, key).value), ops, limits);
      } else {
        OtherUsesKeepOrder(s, ops, limits);
        FilterKeepsOrder(s, OtherThan(key), ops, limits);
      }
    case Set(key, value, version, now) =>
      var x := NewSlot(key, value, version, now, limits);
      UsedLast(s, x, ops, limits);
      var d := EvictIsSuffix(Without(s, key) + [x], limits);
      SuffixKeepsOrder(Without(s, key) + [x], d, ops, limits);
    case Delete(key) =>
      OtherUsesKeepOrder(s, ops, limits);
      FilterKeepsOrder(s, OtherThan(key), ops, limits);
    case DeleteByPrefix(prefix) =>
      OtherUsesKeepOrder(s, ops, limits);
      FilterKeepsOrder(s, OutsidePrefix(prefix), ops, limits);
    case Sweep(now) =>
      OtherUsesKeepOrder(s, ops, limits);
      FilterKeepsOrder(s, LiveAt(now), ops, limits);
    case Clear =>
  }

  /** On every trace the slots stand in the order of their keys' last uses. */
  lemma {:induction false} OrderedByUse(ops: seq<Op>, limits: Limits)
    ensures InOrderOfUse(Run(ops, limits), ops, limits)
  {
    if ops != [] {
      OrderedByUse(ops[..|ops| - 1], limits);
      StepKeepsOrder(ops, limits);
    }
  }

  /** So when a `set` evicts a key, every key that is left was used later. */
  lemma EvictsLeastRecentlyUsed(ops: seq<Op>, limits: Limits, a: string, b: string)
    requires ops != [] && ops[|ops| - 1].Set? && a != ops[|ops| - 1].key
    requires HasKey(Run(ops[..|ops| - 1], limits), a) && !HasKey(Run(ops, limits), a) && HasKey(Run(ops, limits), b)
    ensures LastUse(ops, a, limits) < LastUse(ops, b, limits)
  {
    var s, op := Run(ops[..|ops| - 1], limits), ops[|ops| - 1];
    var x := NewSlot(op.key, op.value, op.version, op.now, limits);
    OrderedByUse(ops[..|ops| - 1], limits);
    UsedLast(s, x, ops, limits);
    var d := EvictIsSuffix(Without(s, x.key) + [x], limits);
    StaysInFull(s, x, a);
    DroppedFirst(Without(s, x.key) + [x], d, ops, limits, a, b);
  }

  lemma StaysInFull(s: seq<Slot>, x: Slot, a: string)
    requires HasKey(s, a) && a != x.key
    ensures HasKey(Without(s, x.key) + [x], a)
  {
    FilterMembers(s, OtherThan(x.key));
    var w := Without(s, x.key);
    var i :| 0 <= i < |s| && s[i].key == a;
    assert s[i] in w;
    var m :| 0 <= m < |w| && w[m] == s[i];
    assert (w + [x])[m].key == a;
  }

  lemma SuffixKeys(s: seq<Slot>, d: nat)
    requires d <= |s|
    ensures forall i :: d <= i < |s| ==> HasKey(s[d..], s[i].key)
  {
    forall i | d <= i < |s| ensures HasKey(s[d..], s[i].key) {
      assert s[d..][i - d] == s[i];
    }
  }

  /** What is cut off in front was used before all that is left. */
  lemma DroppedFirst(full: seq<Slot>, d: nat, ops: seq<Op>, limits: Limits, a: string, b: string)
    requires d <= |full| && InOrderOfUse(full, ops, limits)
    requires HasKey(full, a) && !HasKey(full[d..], a) && HasKey(full[d..], b)
    ensures LastUse(ops, a, limits) < LastUse(ops, b, limits)
  {
    var i :| 0 <= i < |full| && full[i].key == a;
    var j :| 0 <= j < |full[d..]| && full[d..][j].key == b;
    SuffixKeys(full, d);
    assert full[d + j].key == b;
  }

  // ---------------------------------------------------------------- subsequences

  /** `a` is obtained from `b` by leaving slots out. */
  ghost predicate Subsequence(a: seq<Slot>, b: seq<Slot>) {
    if a == [] then true
    else if b == [] then false
    else if a[0] == b[0] then Subsequence(a[1..], b[1..])
    else Subsequence(a, b[1..])
  }

  lemma {:induction false} SubsequenceMembers(a: seq<Slot>, b: seq<Slot>)
    requires Subsequence(a, b)
    ensures forall x :: x in a ==> x in b
    ensures |a| <= |b| && Bytes(a) <= Bytes(b)
  {
    if a != [] {
      if a[0] == b[0] {
        SubsequenceMembers(a[1..], b[1..]);
        assert a == [a[0]] + a[1..];
      } else {
        SubsequenceMembers(a, b[1..]);
      }
    }
  }

  /** Dropping the first slot of the shorter sequence keeps it a subsequence. */
  lemma {:induction false} SubsequenceTail(a: seq<Slot>, b: seq<Slot>)
    requires Subsequence(a, b) && a != []
    ensures b != [] && Subsequence(a[1..], b[1..])
  {
    if a[0] != b[0] {
      SubsequenceTail(a, b[1..]);
      SubsequenceWiden(a[1..], b[1..]);
    }
  }

  lemma {:induction false} SubsequenceWiden(a: seq<Slot>, b: seq<Slot>)
    requires b != [] && Subsequence(a, b[1..])
    ensures Subsequence(a, b)
  {
    if a != [] && a[0] == b[0] {
      SubsequenceTail(a, b[1..]);
      SubsequenceWiden(a[1..], b[1..]);
    }
  }

  lemma {:induction false} SubsequenceFilter(a: seq<Slot>, b: seq<Slot>, keep: Slot -> bool)
    requires Subsequence(a, b)
    ensures Subsequence(Filter(a, keep), Filter(b, keep))
  {
    if a != [] {
      if a[0] == b[0] {
        SubsequenceFilter(a[1..], b[1..], keep);
        if keep(b[0]) {
          assert Filter(a, keep)[1..] == Filter(a[1..], keep);
          assert Filter(b, keep)[1..] == Filter(b[1..], keep);
        }
      } else {
        SubsequenceFilter(a, b[1..], keep);
        if keep(b[0]) {
          assert Filter(b, keep)[1..] == Filter(b[1..], keep);
          SubsequenceWiden(Filter(a, keep), Filter(b, keep));
        }
      }
    }
  }

  lemma {:induction false} SubsequenceAppend(a: seq<Slot>, b: seq<Slot>, x: Slot)
    requires Subsequence(a, b)
    ensures Subsequence(a + [x], b + [x])
    ensures Subsequence(a, b + [x])
  {
    if b != [] {
      assert (b + [x])[1..] == b[1..] + [x];
      if a != [] && a[0] == b[0] {
        assert (a + [x])[1..] == a[1..] + [x];
        SubsequenceAppend(a[1..], b[1..], x);
      } else if a == [] {
        SubsequenceAppend([], b[1..], x);
        assert a + [x] == [x] && [] + [x] == [x];
        SubsequenceWiden([x], b + [x]);
      } else {
        SubsequenceAppend(a, b[1..], x);
      }
    }
  }

  /** A larger removal on the larger side is fine: whatever `a` loses, `b` loses as well. */
  lemma {:induction false} FilterLosesNoMore(a: seq<Slot>, b: seq<Slot>, keep: Slot -> bool)
    requires Subsequence(a, b)
    ensures |Filter(b, keep)| - |Filter(a, keep)| <= |b| - |a|
  {
    if a == [] {
      FilterShrinks(b, keep);
    } else if a[0] == b[0] {
      FilterLosesNoMore(a[1..], b[1..], keep);
    } else {
      FilterLosesNoMore(a, b[1..], keep);
    }
  }

  // ---------------------------------------------------------------- inclusion

  /**
   The relation two runs keep: the smaller cache is a subsequence of the larger
   one, and the larger one has at most `m - n` slots the smaller one lacks.
   */
  ghost predicate Included(a: seq<Slot>, b: seq<Slot>, n: int, m: int) {
    && Distinct(a) && Distinct(b) && !HasKey(a, "") && !HasKey(b, "")
    && |a| <= n && |b| <= m
    && Subsequence(a, b)
    && |b| - |a| <= m - n
  }

  lemma FilterKeepsIncluded(a: seq<Slot>, b: seq<Slot>, n: int, m: int, keep: Slot -> bool)
    requires Included(a, b, n, m)
    ensures Included(Filter(a, keep), Filter(b, keep), n, m)
  {
    FilterKeepsDistinct(a, keep);
    FilterKeepsDistinct(b, keep);
    FilterKeepsAbsence(a, keep, "");
    FilterKeepsAbsence(b, keep, "");
    FilterShrinks(a, keep);
    FilterShrinks(b, keep);
    SubsequenceFilter(a, b, keep);
    FilterLosesNoMore(a, b, keep);
  }

  /** A slot of the smaller cache is the slot of the larger one. */
  lemma IncludedLookup(a: seq<Slot>, b: seq<Slot>, key: string)
    requires Distinct(b) && Subsequence(a, b) && Lookup(a, key).Some?
    ensures Lookup(b, key) == Lookup(a, key)
  {
    LookupMember(a, key);
    SubsequenceMembers(a, b);
    LookupOf(b, Slot(key, Lookup(a, key).value));
  }

  /** Without the byte limit, evicting after one insertion drops at most the oldest slot. */
  lemma EvictOne(s: seq<Slot>, limits: Limits)
    requires s != [] && s[0].key != "" && 0 <= limits.maxEntries && |s| <= limits.maxEntries + 1
    requires Bytes(s) <= limits.maxBytes
    ensures Evict(s, limits) == if |s| <= limits.maxEntries then s else s[1..]
  {
    if |s| > limits.maxEntries {
      assert Bytes(s[1..]) <= Bytes(s);
      assert Evict(s, limits) == Evict(s[1..], limits);
      assert Fits(s[1..], limits);
    }
  }

  lemma SetKeepsIncluded(a: seq<Slot>, b: seq<Slot>, small: Limits, large: Limits,
                         key: string, value: string, version: int, now: int)
    requires 0 <= small.maxEntries <= large.maxEntries
    requires small.ttlMs == large.ttlMs && small.maxBytes == large.maxBytes
    requires Included(a, b, small.maxEntries, large.maxEntries) && key != ""
    requires Bytes(Without(b, key) + [NewSlot(key, value, version, now, large)]) <= large.maxBytes
    ensures Included(AfterSet(a, key, value, version, now, small), AfterSet(b, key, value, version, now, large),
                     small.maxEntries, large.maxEntries)
  {
    PutKeepsIncluded(a, b, small.maxEntries, large.maxEntries, NewSlot(key, value, version, now, large));
    EvictKeepsIncluded(Without(a, key) + [NewSlot(key, value, version, now, small)],
                       Without(b, key) + [NewSlot(key, value, version, now, large)], small, large);
  }

  /** Before the eviction both may hold one slot too many. */
  lemma PutKeepsIncluded(a: seq<Slot>, b: seq<Slot>, n: int, m: int, x: Slot)
    requires Included(a, b, n, m) && x.key != "" && n <= m
    ensures Included(Without(a, x.key) + [x], Without(b, x.key) + [x], n + 1, m + 1)
  {
    FilterKeepsIncluded(a, b, n, m, OtherThan(x.key));
    TouchKeeps(a, x.key, x);
    TouchKeeps(b, x.key, x);
    SubsequenceAppend(Without(a, x.key), Without(b, x.key), x);
  }

  lemma EvictKeepsIncluded(a: seq<Slot>, b: seq<Slot>, small: Limits, large: Limits)
    requires 0 <= small.maxEntries <= large.maxEntries && small.maxBytes == large.maxBytes
    requires Included(a, b, small.maxEntries + 1, large.maxEntries + 1) && a != [] && Bytes(b) <= large.maxBytes
    ensures Included(Evict(a, small), Evict(b, large), small.maxEntries, large.maxEntries)
  {
    SubsequenceMembers(a, b);
    EvictOne(a, small);
    EvictOne(b, large);
    SubsequenceTail(a, b);
    SubsequenceWiden(a[1..], b);
  }

  lemma GetKeepsIncluded(a: seq<Slot>, b: seq<Slot>, n: int, m: int, key: string, now: int)
    requires Included(a, b, n, m)
    ensures Included(AfterGet(a, key, now), AfterGet(b, key, now), n, m)
  {
    FilterKeepsIncluded(a, b, n, m, OtherThan(key));
    GetLookup(a, key, now, key);
    GetLookup(b, key, now, key);
    GetShape(a, key, now);
    GetShape(b, key, now);
    if Lookup(a, key).Some? {
      IncludedLookup(a, b, key);
      SubsequenceAppend(Without(a, key), Without(b, key), Slot(key, Lookup(a, key).value));
    } else {
      WithoutAbsent(a, key);
      if Lookup(b, key).Some? {
        SubsequenceAppend(a, Without(b, key), Slot(key, Lookup(b, key).value));
      }
    }
  }

  lemma StepKeepsIncluded(a: seq<Slot>, b: seq<Slot>, small: Limits, large: Limits, op: Op)
    requires 0 <= small.maxEntries <= large.maxEntries
    requires small.ttlMs == large.ttlMs && small.maxBytes == large.maxBytes
    requires Included(a, b, small.maxEntries, large.maxEntries)
    requires op.Set? ==> op.key != "" && BytesAfter(b, op, large) <= large.maxBytes
    ensures Included(Step(a, op, small), Step(b, op, large), small.maxEntries, large.maxEntries)
  {
    match op
    case Get(key, now) => GetKeepsIncluded(a, b, small.maxEntries, large.maxEntries, key, now);
    case Set(key, value, version, now) => SetKeepsIncluded(a, b, small, large, key, value, version, now);
    case Delete(key) => FilterKeepsIncluded(a, b, small.maxEntries, large.maxEntries, OtherThan(key));
    case DeleteByPrefix(prefix) => FilterKeepsIncluded(a, b, small.maxEntries, large.maxEntries, OutsidePrefix(prefix));
    case Sweep(now) => FilterKeepsIncluded(a, b, small.maxEntries, large.maxEntries, LiveAt(now));
    case Clear =>
  }

  /** Bytes held right after the insertion of a `set`, before any eviction. */
  function BytesAfter(s: seq<Slot>, op: Op, limits: Limits): nat
    requires op.Set?
  {
    Bytes(Without(s, op.key) + [NewSlot(op.key, op.value, op.version, op.now, limits)])
  }

  /** The byte budget never forces an eviction in the larger cache. */
  ghost predicate BytesNeverBind(ops: seq<Op>, limits: Limits) {
    forall i :: 0 <= i < |ops| && ops[i].Set? ==> BytesAfter(Run(ops[..i], limits), ops[i], limits) <= limits.maxBytes
  }

  /**
   LRU inclusion: two caches that differ only in `maxEntries`, run on the same
   timed trace with the byte budget never binding, stay included in one another.
   */
  lemma {:induction false} Inclusion(ops: seq<Op>, small: Limits, large: Limits)
    requires 0 <= small.maxEntries <= large.maxEntries
    requires small.ttlMs == large.ttlMs && small.maxBytes == large.maxBytes
    requires NonEmptyKeys(ops) && BytesNeverBind(ops, large)
    ensures Included(Run(ops, small), Run(ops, large), small.maxEntries, large.maxEntries)
  {
    if ops != [] {
      var k := |ops| - 1;
      forall i | 0 <= i < k && ops[..k][i].Set?
        ensures BytesAfter(Run(ops[..k][..i], large), ops[..k][i], large) <= large.maxBytes
      {
        assert ops[..k][..i] == ops[..i];
      }
      Inclusion(ops[..k], small, large);
      StepKeepsIncluded(Run(ops[..k], small), Run(ops[..k], large), small, large, ops[k]);
    }
  }

  /** Raising `memoryMaxEntries` never turns a hit into a miss, and the answer is the same. */
  lemma HitsAreMonotone(ops: seq<Op>, small: Limits, large: Limits, key: string, now: int)
    requires 0 <= small.maxEntries <= large.maxEntries
    requires small.ttlMs == large.ttlMs && small.maxBytes == large.maxBytes
    requires NonEmptyKeys(ops) && BytesNeverBind(ops, large)
    ensures GetResult(Run(ops, small), key, now).Some? ==>
              GetResult(Run(ops, large), key, now) == GetResult(Run(ops, small), key, now)
  {
    Inclusion(ops, small, large);
    if GetResult(Run(ops, small), key, now).Some? {
      IncludedLookup(Run(ops, small), Run(ops, large), key);
    }
  }
}
