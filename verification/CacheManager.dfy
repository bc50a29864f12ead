/** One cache manager (src/cache/cache-manager.ts) when its calls do not overlap. */
module CacheManager {
  // It says what each call does to L1, to Redis and to the database. Overlapping
  // calls are the subject of the storage protocol.

  import opened Wrappers
  import opened Records
  import opened CacheKeys
  import opened MemoryCache
  import opened SqliteWorker

  datatype Stored = Stored(value: string, version: int)

  /** Which of the Redis requests of one `get` succeed: the version check, the read, the backfill. */
  datatype Replies = Replies(check: bool, read: bool, write: bool)

  /** Which of the Redis requests of one cache update succeed: the write or deletion, the publication. */
  datatype Sends = Sends(write: bool, publish: bool)

  const ALL_SENT := Sends(true, true)

  datatype Levels = Levels(l1: seq<Slot>, l2: map<string, Stored>)

  function RedisGet(mode: Mode, l2: map<string, Stored>, ck: string, ok: bool): Option<Stored> {
    if mode != NoRedis && ok && ck in l2 then Some(l2[ck]) else None
  }

  function RedisSet(mode: Mode, l2: map<string, Stored>, ck: string, e: Stored, ok: bool): map<string, Stored> {
    if mode != NoRedis && ok then l2[ck := e] else l2
  }

  /** The messages one cache update sends out. */
  function Invalidation(mode: Mode, ck: string, ok: bool): seq<string> {
    if mode == Tcp && ok then [ck] else []
  }

  // ---------------------------------------------------------------- get

  /** Both levels after a value was put into L1 and, if Redis can be reached, into L2. */
  function AfterWritten(mode: Mode, s: Levels, ck: string, value: string, version: int, now: int, limits: Limits,
                        ok: bool): Levels {
    Levels(AfterSet(s.l1, ck, value, version, now, limits), RedisSet(mode, s.l2, ck, Stored(value, version), ok))
  }

  /** Both levels after the backfill of one row. */
  function WithRow(mode: Mode, s: Levels, ck: string, r: Row, now: int, limits: Limits, ok: bool): Levels {
    AfterWritten(mode, s, ck, r.value, r.version, now, limits, ok)
  }

  /** Both levels after a deletion; `ok`: Redis can be reached. */
  function AfterDeleted(mode: Mode, s: Levels, ck: string, ok: bool): Levels {
    Levels(Without(s.l1, ck), if mode != NoRedis && ok then s.l2 - {ck} else s.l2)
  }

  /** The part of `get` after L1 gave no usable answer. */
  function GetBelowL1(mode: Mode, s: Levels, row: Option<Row>, ck: string, now: int, limits: Limits, ok: Replies)
    : (Option<string>, Levels)
  {
    match RedisGet(mode, s.l2, ck, ok.read)
    case Some(e) => (Some(e.value), s.(l1 := AfterSet(s.l1, ck, e.value, e.version, now, limits)))
    case None =>
      match row
      case None => (None, s)
      case Some(r) =>
        (Some(r.value), WithRow(mode, s, ck, r, now, limits, ok.write))
  }

  function GetOutcome(mode: Mode, s: Levels, row: Option<Row>, ck: string, now: int, limits: Limits, ok: Replies)
    : (Option<string>, Levels)
  {
    var touched := s.(l1 := AfterGet(s.l1, ck, now));
    match GetResult(s.l1, ck, now)
    case None => GetBelowL1(mode, touched, row, ck, now, limits, ok)
    case Some(hit) =>
      if mode != Http then (Some(hit.value), touched)
      else
        match RedisGet(mode, s.l2, ck, ok.check)
        case Some(e) =>
          if e.version != hit.version
          then GetBelowL1(mode, touched.(l1 := Without(touched.l1, ck)), row, ck, now, limits, ok)
          else (Some(hit.value), touched)
        case None => (Some(hit.value), touched)
  }

  /** Reading with a fixed priority: L2, then a live L1 entry, then the database. */
  function PriorityRead(l1: seq<Slot>, l2: map<string, Stored>, row: Option<Row>, ck: string,
                        now: int): Option<string> {
    if ck in l2 then Some(l2[ck].value)
    else if GetResult(l1, ck, now).Some? then Some(GetResult(l1, ck, now).value.value)
    else if row.Some? then Some(row.value.value)
    else None
  }

  const ALL_OK := Replies(true, true, true)

  /**
   In HTTP mode, when the Redis requests succeed, `get` answers as the priority
   read does, provided equal versions of a key mean equal values. The proviso is
   exactly what is needed for the one case in which L1 answers against L2.
   */
  lemma HttpGetIsPriorityRead(s: Levels, row: Option<Row>, ck: string, now: int, limits: Limits)
    ensures GetOutcome(Http, s, row, ck, now, limits, ALL_OK).0 == PriorityRead(s.l1, s.l2, row, ck, now) <==>
            !(&& GetResult(s.l1, ck, now).Some? && ck in s.l2
              && GetResult(s.l1, ck, now).value.version == s.l2[ck].version
              && GetResult(s.l1, ck, now).value.value != s.l2[ck].value)
  {
  }

  /** While no Redis request succeeds a read does exactly what it does without Redis. */
  lemma FailingRedisIsNone(mode: Mode, s: Levels, row: Option<Row>, ck: string, now: int, limits: Limits)
    ensures GetOutcome(mode, s, row, ck, now, limits, Replies(false, false, false)) ==
            GetOutcome(NoRedis, s, row, ck, now, limits, Replies(false, false, false))
  {
  }

  /**
   Writes take the clock as their version. When one instance writes a value and
   another one writes a newer value of the row in the same millisecond, the first
   goes on answering its own value for as long as its entry lives, although Redis
   and the database hold the newer one.
   */
  lemma SameMillisecondHidesWrite(s: Levels, ck: string, older: string, newer: string, written: int, now: int,
                                  limits: Limits, version: nat)
    requires Distinct(s.l1) && !HasKey(s.l1, "") && ck != "" && older != newer
    requires limits.maxEntries >= 1 && Utf8Length(older) <= limits.maxBytes && written <= now < written + limits.ttlMs
    ensures var mine := AfterWritten(Http, s, ck, older, written, written, limits, true);
            var shared := AfterWritten(Http, Levels([], mine.l2), ck, newer, written, written, limits, true).l2;
            var row := Some(Row(newer, written, version));
            && shared[ck].value == newer
            && GetOutcome(Http, Levels(mine.l1, shared), row, ck, now, limits, ALL_OK).0 == Some(older)
  {
    var t := AfterSet(s.l1, ck, older, written, written, limits);
    SetOutcome(s.l1, ck, older, written, written, limits);
    SetLookup(s.l1, ck, older, written, written, limits, ck);
    LookupMember(t, ck);
  }

  /** A read that reached the database leaves its row in both levels, up to eviction from L1. */
  lemma HttpGetBackfills(s: Levels, r: Row, ck: string, now: int, limits: Limits)
    requires Distinct(s.l1) && ck !in s.l2 && GetResult(s.l1, ck, now).None?
    ensures var (value, t) := GetOutcome(Http, s, Some(r), ck, now, limits, ALL_OK);
            && value == Some(r.value)
            && t.l2 == s.l2[ck := Stored(r.value, r.version)]
            && (Lookup(t.l1, ck).None? || Lookup(t.l1, ck) == Some(NewSlot(ck, r.value, r.version, now, limits).entry))
  {
    GetLookup(s.l1, ck, now, ck);
    SetLookup(AfterGet(s.l1, ck, now), ck, r.value, r.version, now, limits, ck);
  }

  /** Nothing but this key changed, except that entries may have been evicted from L1. */
  ghost predicate OnlyTouches(s: Levels, t: Levels, other: string) {
    && Distinct(t.l1)
    && (Lookup(t.l1, other).None? || Lookup(t.l1, other) == Lookup(s.l1, other))
    && (other in t.l2 <==> other in s.l2) && (other in s.l2 ==> t.l2[other] == s.l2[other])
  }

  lemma BelowL1Frame(mode: Mode, s: Levels, row: Option<Row>, ck: string, now: int, limits: Limits, ok: Replies,
                     other: string)
    requires Distinct(s.l1) && other != ck
    ensures OnlyTouches(s, GetBelowL1(mode, s, row, ck, now, limits, ok).1, other)
  {
    var found := RedisGet(mode, s.l2, ck, ok.read);
    if found.Some? {
      SetLookup(s.l1, ck, found.value.value, found.value.version, now, limits, other);
    } else if row.Some? {
      SetLookup(s.l1, ck, row.value.value, row.value.version, now, limits, other);
    }
  }

  /** Reading changes no other key, in any mode and with any Redis failures. */
  lemma GetFrame(mode: Mode, s: Levels, row: Option<Row>, ck: string, now: int, limits: Limits, ok: Replies,
                 other: string)
    requires Distinct(s.l1) && other != ck
    ensures OnlyTouches(s, GetOutcome(mode, s, row, ck, now, limits, ok).1, other)
  {
    var touched := s.(l1 := AfterGet(s.l1, ck, now));
    GetLookup(s.l1, ck, now, other);
    LookupFilter(touched.l1, OtherThan(ck), other);
    FilterKeepsDistinct(touched.l1, OtherThan(ck));
    BelowL1Frame(mode, touched, row, ck, now, limits, ok, other);
    BelowL1Frame(mode, touched.(l1 := Without(touched.l1, ck)), row, ck, now, limits, ok, other);
  }

  // ---------------------------------------------------------------- the law of reading

  /** L1 has a live entry, and in HTTP mode Redis does not name another version. */
  predicate Trusted(mode: Mode, s: Levels, ck: string, now: int, ok: Replies) {
    && GetResult(s.l1, ck, now).Some?
    && !(mode == Http && ok.check && ck in s.l2 && s.l2[ck].version != GetResult(s.l1, ck, now).value.version)
  }

  predicate RedisAnswers(mode: Mode, s: Levels, ck: string, ok: Replies) {
    mode != NoRedis && ok.read && ck in s.l2
  }

  /** In every mode and with any Redis failures: a trusted L1 value, else what Redis returns, else the row. */
  lemma ReadIsPriority(mode: Mode, s: Levels, row: Option<Row>, ck: string, now: int, limits: Limits, ok: Replies)
    ensures GetOutcome(mode, s, row, ck, now, limits, ok).0 ==
            if Trusted(mode, s, ck, now, ok) then Some(GetResult(s.l1, ck, now).value.value)
            else if RedisAnswers(mode, s, ck, ok) then Some(s.l2[ck].value)
            else if row.Some? then Some(row.value.value)
            else None
  {
  }

  /** A fresh entry with this content, or none because it was evicted; none only if it does not fit by itself. */
  ghost predicate FreshlyHeld(before: seq<Slot>, l1: seq<Slot>, ck: string, value: string, version: int, now: int,
                              limits: Limits) {
    && (Lookup(l1, ck).None? || Lookup(l1, ck) == Some(Entry(value, version, now + limits.ttlMs, Utf8Length(value))))
    && (ck != "" && !HasKey(before, "") && 1 <= limits.maxEntries && Utf8Length(value) <= limits.maxBytes ==>
          Lookup(l1, ck).Some?)
  }

  lemma SetHolds(before: seq<Slot>, l1: seq<Slot>, ck: string, value: string, version: int, now: int, limits: Limits)
    requires Distinct(l1) && (HasKey(l1, "") ==> HasKey(before, ""))
    ensures FreshlyHeld(before, AfterSet(l1, ck, value, version, now, limits), ck, value, version, now, limits)
  {
    SetLookup(l1, ck, value, version, now, limits, ck);
    if ck != "" && !HasKey(before, "") && 1 <= limits.maxEntries && Utf8Length(value) <= limits.maxBytes {
      SetOutcome(l1, ck, value, version, now, limits);
      LookupMember(AfterSet(l1, ck, value, version, now, limits), ck);
    }
  }

  /** Looking at a key, or deleting it, brings no empty key in. */
  lemma MissBringsNothing(l1: seq<Slot>, ck: string, now: int)
    requires Distinct(l1)
    ensures Distinct(AfterGet(l1, ck, now)) && Distinct(Without(AfterGet(l1, ck, now), ck))
    ensures HasKey(AfterGet(l1, ck, now), "") ==> HasKey(l1, "")
    ensures HasKey(Without(AfterGet(l1, ck, now), ck), "") ==> HasKey(l1, "")
    ensures Lookup(Without(AfterGet(l1, ck, now), ck), ck).None?
    ensures GetResult(l1, ck, now).None? ==> Lookup(AfterGet(l1, ck, now), ck).None?
  {
    var a := AfterGet(l1, ck, now);
    GetLookup(l1, ck, now, "");
    GetLookup(l1, ck, now, ck);
    LookupMember(l1, "");
    LookupMember(a, "");
    RemovalsAreExact(a, ck, "", 0, "");
    RemovalsAreExact(a, ck, "", 0, ck);
    LookupMember(Without(a, ck), "");
    FilterKeepsDistinct(a, OtherThan(ck));
  }

  /**
   What a read leaves behind. An L1 answer only makes its entry the most recently
   used one. A Redis answer leaves Redis as it is and its value and version in L1.
   A row goes to both levels. A read that finds nothing leaves nothing.
   */
  lemma ReadLeaves(mode: Mode, s: Levels, row: Option<Row>, ck: string, now: int, limits: Limits, ok: Replies)
    requires Distinct(s.l1)
    ensures var t := GetOutcome(mode, s, row, ck, now, limits, ok).1;
            if Trusted(mode, s, ck, now, ok) then
              t.l2 == s.l2 && Lookup(t.l1, ck) == Lookup(s.l1, ck) && t.l1 != [] && t.l1[|t.l1| - 1].key == ck
            else if RedisAnswers(mode, s, ck, ok) then
              t.l2 == s.l2 && FreshlyHeld(s.l1, t.l1, ck, s.l2[ck].value, s.l2[ck].version, now, limits)
            else if row.Some? then
              && t.l2 == (if mode != NoRedis && ok.write
                          then s.l2[ck := Stored(row.value.value, row.value.version)] else s.l2)
              && FreshlyHeld(s.l1, t.l1, ck, row.value.value, row.value.version, now, limits)
            else
              t.l2 == s.l2 && Lookup(t.l1, ck).None?
  {
    var a := AfterGet(s.l1, ck, now);
    MissBringsNothing(s.l1, ck, now);
    GetLookup(s.l1, ck, now, ck);
    if RedisAnswers(mode, s, ck, ok) {
      SetHolds(s.l1, a, ck, s.l2[ck].value, s.l2[ck].version, now, limits);
      SetHolds(s.l1, Without(a, ck), ck, s.l2[ck].value, s.l2[ck].version, now, limits);
    } else if row.Some? {
      SetHolds(s.l1, a, ck, row.value.value, row.value.version, now, limits);
      SetHolds(s.l1, Without(a, ck), ck, row.value.value, row.value.version, now, limits);
    }
  }

  /**
   After `onWritten` every read of the key gives the value written, in every mode
   and with any failures of the read, unless the write to Redis failed and left an
   older entry there.
   */
  lemma WrittenIsRead(mode: Mode, s: Levels, ck: string, value: string, version: int, now: int, limits: Limits,
                      ok: bool, row: Row, later: int, replies: Replies)
    requires Distinct(s.l1) && row.value == value && (mode == NoRedis || ok || ck !in s.l2)
    ensures GetOutcome(mode, AfterWritten(mode, s, ck, value, version, now, limits, ok), Some(row), ck, later, limits,
                       replies).0 == Some(value)
  {
    var t := AfterWritten(mode, s, ck, value, version, now, limits, ok);
    SetLookup(s.l1, ck, value, version, now, limits, ck);
    ReadIsPriority(mode, t, Some(row), ck, later, limits, replies);
  }

  /** After `onDeleted` a read finds nothing exactly if Redis was reached or has nothing to answer. */
  lemma DeletedIsGone(mode: Mode, s: Levels, ck: string, ok: bool, later: int, limits: Limits, replies: Replies)
    requires Distinct(s.l1)
    ensures GetOutcome(mode, AfterDeleted(mode, s, ck, ok), None, ck, later, limits, replies).0.None? <==>
            ok || !RedisAnswers(mode, s, ck, replies)
  {
    RemovalsAreExact(s.l1, ck, "", 0, ck);
    ReadIsPriority(mode, AfterDeleted(mode, s, ck, ok), None, ck, later, limits, replies);
  }

  /** Neither changes anything for another key. */
  lemma UpdateFrame(mode: Mode, s: Levels, ck: string, value: string, version: int, now: int, limits: Limits, ok: bool,
                    other: string)
    requires Distinct(s.l1) && other != ck
    ensures OnlyTouches(s, AfterWritten(mode, s, ck, value, version, now, limits, ok), other)
    ensures OnlyTouches(s, AfterDeleted(mode, s, ck, ok), other)
  {
    SetLookup(s.l1, ck, value, version, now, limits, other);
    RemovalsAreExact(s.l1, ck, "", 0, other);
    FilterKeepsDistinct(s.l1, OtherThan(ck));
  }

  // ---------------------------------------------------------------- getMany

  function FromL1(mode: Mode, l1: seq<Slot>, sid: string, key: string, now: int): Option<string> {
    match GetResult(l1, CacheKey(Pair(sid, key)), now)
    case Some(hit) => if mode != Http then Some(hit.value) else None
    case None => None
  }

  /** What the batched read answers for one key: Redis is not asked. */
  function BatchAnswer(mode: Mode, l1: seq<Slot>, rows: Rows, sid: string, key: string, now: int): Option<string> {
    match FromL1(mode, l1, sid, key, now)
    case Some(value) => Some(value)
    case None => if Pair(sid, key) in rows then Some(rows[Pair(sid, key)].value) else None
  }

  /** That is: a live L1 value outside HTTP mode, and otherwise the row. */
  lemma BatchAnswerIs(mode: Mode, l1: seq<Slot>, rows: Rows, sid: string, key: string, now: int)
    ensures var ck := CacheKey(Pair(sid, key));
            BatchAnswer(mode, l1, rows, sid, key, now) ==
            if mode != Http && GetResult(l1, ck, now).Some? then Some(GetResult(l1, ck, now).value.value)
            else if Pair(sid, key) in rows then Some(rows[Pair(sid, key)].value)
            else None
  {
  }

  /** Looking at one key changes no answer of L1 at that moment. */
  lemma GetKeepsResults(l1: seq<Slot>, ck: string, now: int)
    requires Distinct(l1)
    ensures forall k :: GetResult(AfterGet(l1, ck, now), k, now) == GetResult(l1, k, now)
  {
    forall k ensures GetResult(AfterGet(l1, ck, now), k, now) == GetResult(l1, k, now) {
      GetLookup(l1, ck, now, k);
    }
  }

  lemma SomeMiss(listed: seq<string>, misses: seq<string>)
    requires forall k :: k in listed ==> k in misses
    ensures listed != [] ==> misses != []
  {
    if listed != [] {
      assert listed[0] in misses;
    }
  }

  /** L1 after a look at each key in turn. */
  function Touched(l1: seq<Slot>, sid: string, keys: seq<string>, now: int): seq<Slot> {
    if keys == [] then l1
    else AfterGet(Touched(l1, sid, keys[..|keys| - 1], now), CacheKey(Pair(sid, keys[|keys| - 1])), now)
  }

  lemma {:induction false} TouchedKeepsResults(l1: seq<Slot>, sid: string, keys: seq<string>, now: int)
    requires Distinct(l1)
    ensures Distinct(Touched(l1, sid, keys, now))
    ensures forall k :: GetResult(Touched(l1, sid, keys, now), k, now) == GetResult(l1, k, now)
  {
    if keys != [] {
      var before, ck := keys[..|keys| - 1], CacheKey(Pair(sid, keys[|keys| - 1]));
      TouchedKeepsResults(l1, sid, before, now);
      GetKeepsResults(Touched(l1, sid, before, now), ck, now);
      GetLookup(Touched(l1, sid, before, now), ck, now, ck);
    }
  }

  /** A live key that was looked at last is the most recently used one. */
  lemma TouchedLast(l1: seq<Slot>, sid: string, keys: seq<string>, now: int)
    requires Distinct(l1) && keys != [] && GetResult(l1, CacheKey(Pair(sid, keys[|keys| - 1])), now).Some?
    ensures var t := Touched(l1, sid, keys, now); t != [] && t[|t| - 1].key == CacheKey(Pair(sid, keys[|keys| - 1]))
  {
    TouchedKeepsResults(l1, sid, keys[..|keys| - 1], now);
  }

  /** Both levels after the listed rows were backfilled in order; only writes of keys in `redisOk` reach Redis. */
  function Backfilled(mode: Mode, s: Levels, sid: string, listed: seq<string>, rows: Rows, now: int, limits: Limits,
                      redisOk: set<string>): Levels
    requires forall k :: k in listed ==> Pair(sid, k) in rows
  {
    if listed == [] then s
    else
      var key := listed[|listed| - 1];
      WithRow(mode, Backfilled(mode, s, sid, listed[..|listed| - 1], rows, now, limits, redisOk),
              CacheKey(Pair(sid, key)), rows[Pair(sid, key)], now, limits, key in redisOk)
  }

  function RowValues(rows: Rows, sid: string, listed: seq<string>): map<string, string>
    requires forall k :: k in listed ==> Pair(sid, k) in rows
  {
    map k | k in listed :: rows[Pair(sid, k)].value
  }

  lemma OneMoreRow(hits: map<string, string>, rows: Rows, sid: string, listed: seq<string>, i: nat)
    requires i < |listed| && forall k :: k in listed ==> Pair(sid, k) in rows
    ensures hits + RowValues(rows, sid, listed[..i + 1]) ==
            (hits + RowValues(rows, sid, listed[..i]))[listed[i] := rows[Pair(sid, listed[i])].value]
  {
    assert listed[..i + 1] == listed[..i] + [listed[i]];
  }

  /**
   The batched read leaves every listed row in Redis, unless that write failed, and
   in L1, unless it was evicted; other keys keep their entries, up to eviction.
   */
  lemma {:induction false} BackfilledLookup(mode: Mode, s: Levels, sid: string, listed: seq<string>, rows: Rows,
                                            now: int, limits: Limits, redisOk: set<string>, key: string)
    requires Distinct(s.l1) && forall k :: k in listed ==> Pair(sid, k) in rows
    ensures var t, ck := Backfilled(mode, s, sid, listed, rows, now, limits, redisOk), CacheKey(Pair(sid, key));
            && Distinct(t.l1)
            && (Lookup(t.l1, ck).None? || Lookup(t.l1, ck) ==
                (if key in listed
                 then Some(NewSlot(ck, rows[Pair(sid, key)].value, rows[Pair(sid, key)].version, now, limits).entry)
                 else Lookup(s.l1, ck)))
            && RedisGet(mode, t.l2, ck, true) ==
               (if key in listed && key in redisOk && mode != NoRedis
                then Some(Stored(rows[Pair(sid, key)].value, rows[Pair(sid, key)].version))
                else RedisGet(mode, s.l2, ck, true))
  {
    if listed != [] {
      var last, before := listed[|listed| - 1], listed[..|listed| - 1];
      assert listed == before + [last];
      BackfilledLookup(mode, s, sid, before, rows, now, limits, redisOk, key);
      OneSessionKeys(sid, last, key);
      var t := Backfilled(mode, s, sid, before, rows, now, limits, redisOk);
      var r := rows[Pair(sid, last)];
      SetLookup(t.l1, CacheKey(Pair(sid, last)), r.value, r.version, now, limits, CacheKey(Pair(sid, key)));
    }
  }

  // ---------------------------------------------------------------- deleteSession and L2

  /**
   `deleteSession` clears the rows and L1 but not Redis. A read of one of the
   session's keys afterwards finds nothing exactly when Redis had no entry of it.
   */
  lemma DeletedSessionRead(mode: Mode, s: Levels, rows: Rows, sid: string, key: string, now: int, limits: Limits)
    requires Distinct(s.l1)
    ensures var cleared := s.(l1 := Filter(s.l1, OutsidePrefix(sid + ":")));
            var row := Find(RemoveSession(rows, sid), sid, key);
            var ck := CacheKey(Pair(sid, key));
            GetOutcome(mode, cleared, row, ck, now, limits, ALL_OK).0.None? <==> mode == NoRedis || ck !in s.l2
  {
    var ck := CacheKey(Pair(sid, key));
    assert ck[..|sid + ":"|] == sid + ":";
    LookupFilter(s.l1, OutsidePrefix(sid + ":"), ck);
  }

  // ---------------------------------------------------------------- the class

  class Redis {
    var store: map<string, Stored>
    var published: seq<string>

    constructor ()
      ensures store == map[] && published == []
    {
      store, published := map[], [];
    }
  }

  class Manager {
    const mode: Mode
    const l1: Cache
    const l2: Redis
    const table: Table

    ghost predicate Valid()
      reads this, l1
    {
      l1.Valid()
    }

    ghost function View(): Levels
      reads this, l1, l2
    {
      Levels(l1.store, l2.store)
    }

    constructor (mode: Mode, limits: Limits, l2: Redis, table: Table)
      ensures Valid() && fresh(l1) && l1.store == [] && l1.limits == limits
      ensures this.mode == mode && this.l2 == l2 && this.table == table
    {
      this.mode, this.l2, this.table := mode, l2, table;
      l1 := new Cache(limits);
    }

    method SafeL2Get(ck: string, ok: bool) returns (found: Option<Stored>)
      ensures found == RedisGet(mode, l2.store, ck, ok)
    {
      if mode == NoRedis || !ok || ck !in l2.store {
        return None;
      }
      return Some(l2.store[ck]);
    }

    method SafeL2Set(ck: string, value: string, version: int, ok: bool)
      modifies l2`store
      ensures l2.store == RedisSet(mode, old(l2.store), ck, Stored(value, version), ok)
    {
      if mode != NoRedis && ok {
        l2.store := l2.store[ck := Stored(value, version)];
      }
    }

    method Read(sid: string, key: string, now: int, ok: Replies) returns (value: Option<string>)
      requires Valid()
      modifies l1`store, l1`currentBytes, l2`store
      ensures Valid()
      ensures (value, View()) == GetOutcome(mode, old(View()), Find(table.rows, sid, key), CacheKey(Pair(sid, key)),
                                            now, l1.limits, ok)
    {
      var ck := CacheKey(Pair(sid, key));
      var hit := l1.Get(ck, now);
      if hit.Some? {
        if mode != Http {
          return Some(hit.value.value);
        }
        var check := SafeL2Get(ck, ok.check);
        if check.Some? && check.value.version != hit.value.version {
          l1.Delete(ck);
        } else {
          return Some(hit.value.value);
        }
      }
      var found := SafeL2Get(ck, ok.read);
      if found.Some? {
        l1.Set(ck, found.value.value, found.value.version, now);
        return Some(found.value.value);
      }
      var row := Find(table.rows, sid, key);
      if row.None? {
        return None;
      }
      BackfillRow(ck, row.value, now, ok.write);
      return Some(row.value.value);
    }

    method BackfillRow(ck: string, r: Row, now: int, ok: bool)
      requires Valid()
      modifies l1`store, l1`currentBytes, l2`store
      ensures Valid() && View() == WithRow(mode, old(View()), ck, r, now, l1.limits, ok)
    {
      l1.Set(ck, r.value, r.version, now);
      SafeL2Set(ck, r.value, r.version, ok);
    }

    /** The first loop of the batched read: live L1 entries answer, except in HTTP mode. */
    method ReadHits(sid: string, keys: seq<string>, now: int) returns (data: map<string, string>, misses: seq<string>)
      requires Valid()
      modifies l1`store, l1`currentBytes
      ensures Valid() && l1.store == Touched(old(l1.store), sid, keys, now)
      ensures forall k :: k in data <==> k in keys && FromL1(mode, old(l1.store), sid, k, now).Some?
      ensures forall k :: k in data ==> data[k] == FromL1(mode, old(l1.store), sid, k, now).value
      ensures forall k :: k in misses <==> k in keys && FromL1(mode, old(l1.store), sid, k, now).None?
    {
      data, misses := map[], [];
      for i := 0 to |keys|
        invariant Valid() && l1.store == Touched(old(l1.store), sid, keys[..i], now)
        invariant forall ck :: GetResult(l1.store, ck, now) == GetResult(old(l1.store), ck, now)
        invariant forall k :: k in data <==> k in keys[..i] && FromL1(mode, old(l1.store), sid, k, now).Some?
        invariant forall k :: k in data ==> data[k] == FromL1(mode, old(l1.store), sid, k, now).value
        invariant forall k :: k in misses <==> k in keys[..i] && FromL1(mode, old(l1.store), sid, k, now).None?
      {
        var ck := CacheKey(Pair(sid, keys[i]));
        GetKeepsResults(l1.store, ck, now);
        assert keys[..i + 1] == keys[..i] + [keys[i]];
        var hit := l1.Get(ck, now);
        if hit.Some? && mode != Http {
          data := data[keys[i] := hit.value.value];
        } else {
          misses := misses + [keys[i]];
        }
      }
      assert keys[..|keys|] == keys;
    }

    /**
     The batched read: what L1 does not answer is asked of the database at once and
     backfilled. `listed` gives the found rows in the order the database lists them.
     */
    method ReadMany(sid: string, keys: seq<string>, listed: seq<string>, now: int, redisOk: set<string>)
      returns (data: map<string, string>)
      requires Valid()
      requires forall k :: k in listed <==>
                 k in keys && FromL1(mode, l1.store, sid, k, now).None? && Pair(sid, k) in table.rows
      modifies l1`store, l1`currentBytes, l2`store
      ensures Valid()
      ensures forall k :: k in data <==> k in keys && BatchAnswer(mode, old(l1.store), table.rows, sid, k, now).Some?
      ensures forall k :: k in data ==> data[k] == BatchAnswer(mode, old(l1.store), table.rows, sid, k, now).value
      ensures View() == Backfilled(mode, Levels(Touched(old(l1.store), sid, keys, now), old(l2.store)), sid, listed,
                                   table.rows, now, l1.limits, redisOk)
    {
      var hits, misses := ReadHits(sid, keys, now);
      SomeMiss(listed, misses);
      if |misses| == 0 {
        return hits;
      }
      data := Backfill(sid, hits, listed, now, redisOk);
    }

    /** The second loop: each row found goes to L1, to Redis and into the answer. */
    method Backfill(sid: string, hits: map<string, string>, listed: seq<string>, now: int, redisOk: set<string>)
      returns (data: map<string, string>)
      requires Valid() && forall k :: k in listed ==> Pair(sid, k) in table.rows
      modifies l1`store, l1`currentBytes, l2`store
      ensures Valid()
      ensures data == hits + RowValues(table.rows, sid, listed)
      ensures View() == Backfilled(mode, old(View()), sid, listed, table.rows, now, l1.limits, redisOk)
    {
      data := hits;
      ghost var rows := table.rows;
      for i := 0 to |listed|
        invariant Valid() && table.rows == rows
        invariant data == hits + RowValues(rows, sid, listed[..i])
        invariant View() == Backfilled(mode, old(View()), sid, listed[..i], rows, now, l1.limits, redisOk)
      {
        var key := listed[i];
        assert listed[..i + 1][..i] == listed[..i];
        BackfillRow(CacheKey(Pair(sid, key)), table.rows[Pair(sid, key)], now, key in redisOk);
        OneMoreRow(hits, rows, sid, listed, i);
        data := data[key := table.rows[Pair(sid, key)].value];
      }
      assert listed[..|listed|] == listed;
    }

    method OnWritten(sid: string, key: string, value: string, version: int, now: int, ok: Sends)
      requires Valid()
      modifies l1`store, l1`currentBytes, l2
      ensures Valid()
      ensures View() == AfterWritten(mode, old(View()), CacheKey(Pair(sid, key)), value, version, now, l1.limits,
                                     ok.write)
      ensures l2.published == old(l2.published) + Invalidation(mode, CacheKey(Pair(sid, key)), ok.publish)
    {
      var ck := CacheKey(Pair(sid, key));
      l1.Set(ck, value, version, now);
      SafeL2Set(ck, value, version, ok.write);
      if mode == Tcp && ok.publish {
        l2.published := l2.published + [ck];
      }
    }

    method OnDeleted(sid: string, key: string, ok: Sends)
      requires Valid()
      modifies l1`store, l1`currentBytes, l2
      ensures Valid()
      ensures View() == AfterDeleted(mode, old(View()), CacheKey(Pair(sid, key)), ok.write)
      ensures l2.published == old(l2.published) + Invalidation(mode, CacheKey(Pair(sid, key)), ok.publish)
    {
      var ck := CacheKey(Pair(sid, key));
      l1.Delete(ck);
      if mode != NoRedis && ok.write {
        l2.store := l2.store - {ck};
      }
      if mode == Tcp && ok.publish {
        l2.published := l2.published + [ck];
      }
    }

    method ClearSession(sid: string)
      requires Valid()
      modifies l1`store, l1`currentBytes
      ensures Valid() && l1.store == Filter(old(l1.store), OutsidePrefix(sid + ":"))
    {
      l1.DeleteByPrefix(sid + ":");
    }

    method ClearAll()
      modifies l1`store, l1`currentBytes
      ensures Valid() && l1.store == []
    {
      l1.Clear();
    }
  }
}
