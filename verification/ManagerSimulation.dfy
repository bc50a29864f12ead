/**
 The step system of `StorageProtocol` does what the code does. The calls of a cache
 manager that nothing interrupts (`get`, `getMany`, `onWritten`, `onDeleted`,
 `clearSession`, `clearAll`) and each row of a batch that reaches the database are
 matched by some steps of the protocol, with the same answers and the same contents
 of all levels.
 */
module ManagerSimulation {
  import opened Wrappers
  import opened Records
  import opened CacheKeys
  import opened MemoryCache
  import opened SqliteWorker
  import opened CacheManager
  import opened L1Simulation
  import P = StorageProtocol

  // ---------------------------------------------------------------- matching states

  ghost predicate SameL2(m: map<string, P.L2Entry>, l2: map<string, Stored>) {
    forall k :: (k in m <==> k in l2) && (k in m ==> m[k].value == l2[k].value)
  }

  ghost predicate SameRows(db: map<Pair, string>, rows: Rows) {
    forall p: Pair :: (p in db <==> p in rows) && (p in db ==> db[p] == rows[p].value)
  }

  /** Instance i of the protocol has the manager's L1, and Redis and the database hold the same. */
  ghost predicate Matches(s: P.State, i: nat, levels: Levels, rows: Rows) {
    i in s.l1 && Same(s.l1[i], levels.l1) && SameL2(s.l2, levels.l2) && SameRows(s.db, rows)
  }

  /** Nothing but L1 and L2 differs. */
  ghost predicate Quiet(s: P.State, t: P.State) {
    && t.now == s.now && t.db == s.db && t.fetching == s.fetching && t.writes == s.writes && t.inbox == s.inbox
    && t.l1.Keys == s.l1.Keys
  }

  ghost predicate Reaches(c: P.Config, s: P.State, steps: seq<P.Step>, t: P.State, answers: seq<(Pair, string)>)
    decreases |steps|
  {
    if steps == [] then s == t && answers == []
    else
      P.Enabled(c, s, steps[0]) &&
      var u, answer := P.Apply(c, s, steps[0]), P.Answer(c, s, steps[0]);
      if answer.Some? then answers != [] && answers[0] == answer.value && Reaches(c, u, steps[1..], t, answers[1..])
      else Reaches(c, u, steps[1..], t, answers)
  }

  lemma {:induction false} Join(c: P.Config, s: P.State, a: seq<P.Step>, u: P.State, b: seq<P.Step>, t: P.State,
                                x: seq<(Pair, string)>, y: seq<(Pair, string)>)
    requires Reaches(c, s, a, u, x) && Reaches(c, u, b, t, y)
    ensures Reaches(c, s, a + b, t, x + y)
    decreases |a|
  {
    if a == [] {
      assert a + b == b && x + y == y;
    } else {
      var v := P.Apply(c, s, a[0]);
      assert (a + b)[1..] == a[1..] + b;
      if P.Answer(c, s, a[0]).Some? {
        assert (x + y)[1..] == x[1..] + y;
        Join(c, v, a[1..], u, b, t, x[1..], y);
      } else {
        Join(c, v, a[1..], u, b, t, x, y);
      }
    }
  }

  lemma JoinSilent(c: P.Config, s: P.State, a: seq<P.Step>, u: P.State, b: seq<P.Step>, t: P.State)
    requires Reaches(c, s, a, u, []) && Reaches(c, u, b, t, [])
    ensures Reaches(c, s, a + b, t, [])
  {
    Join(c, s, a, u, b, t, [], []);
    var none: seq<(Pair, string)> := [];
    assert none + none == none;
  }

  // ---------------------------------------------------------------- parts of a read

  /** The real L1 lost entries: one `ShrinkL1`. */
  lemma Shrinks(c: P.Config, s: P.State, i: nat, levels: Levels, rows: Rows, l1: seq<Slot>, gone: set<string>)
    returns (t: P.State)
    requires i in s.l1 && SameL2(s.l2, levels.l2) && SameRows(s.db, rows) && Same(s.l1[i] - gone, l1)
    ensures Reaches(c, s, [P.ShrinkL1(i, gone)], t, []) && t == s.(l1 := t.l1) && t.l1.Keys == s.l1.Keys
    ensures Matches(t, i, levels.(l1 := l1), rows)
  {
    t := P.Apply(c, s, P.ShrinkL1(i, gone));
  }

  /** L1 answers. */
  lemma HitIsRun(c: P.Config, s: P.State, i: nat, levels: Levels, rows: Rows, pair: Pair)
    returns (steps: seq<P.Step>, t: P.State)
    requires Matches(s, i, levels, rows) && GetResult(levels.l1, CacheKey(pair), s.now).Some?
    ensures Reaches(c, s, steps, t, [(pair, GetResult(levels.l1, CacheKey(pair), s.now).value.value)]) && Quiet(s, t)
    ensures Matches(t, i, levels.(l1 := AfterGet(levels.l1, CacheKey(pair), s.now)), rows)
  {
    var gone := GetIsShrink(s.l1[i], levels.l1, CacheKey(pair), s.now);
    var hit := P.Hit(i, pair);
    t := Shrinks(c, s, i, levels, rows, AfterGet(levels.l1, CacheKey(pair), s.now), gone);
    steps := [hit] + [P.ShrinkL1(i, gone)];
    Join(c, s, [hit], s, [P.ShrinkL1(i, gone)], t, [P.Answer(c, s, hit).value], []);
    assert [P.Answer(c, s, hit).value] + [] == [P.Answer(c, s, hit).value];
  }

  /** L1 is looked at and gives no answer. */
  lemma LookIsRun(c: P.Config, s: P.State, i: nat, levels: Levels, rows: Rows, ck: string)
    returns (steps: seq<P.Step>, t: P.State)
    requires Matches(s, i, levels, rows)
    ensures Reaches(c, s, steps, t, []) && Quiet(s, t)
    ensures Matches(t, i, levels.(l1 := AfterGet(levels.l1, ck, s.now)), rows)
  {
    var gone := GetIsShrink(s.l1[i], levels.l1, ck, s.now);
    t := Shrinks(c, s, i, levels, rows, AfterGet(levels.l1, ck, s.now), gone);
    steps := [P.ShrinkL1(i, gone)];
  }

  /** L1 drops a key. */
  lemma DropIsRun(c: P.Config, s: P.State, i: nat, levels: Levels, rows: Rows, ck: string)
    returns (steps: seq<P.Step>, t: P.State)
    requires Matches(s, i, levels, rows)
    ensures Reaches(c, s, steps, t, []) && Quiet(s, t)
    ensures Matches(t, i, levels.(l1 := Without(levels.l1, ck)), rows)
  {
    var gone := FilterIsShrink(s.l1[i], levels.l1, OtherThan(ck));
    t := Shrinks(c, s, i, levels, rows, Without(levels.l1, ck), gone);
    steps := [P.ShrinkL1(i, gone)];
  }

  /** Whatever was fetched is put into L1, and the real L1 evicts. */
  lemma FillIsRun(c: P.Config, s: P.State, i: nat, levels: Levels, rows: Rows, r: nat, version: int, limits: Limits)
    returns (steps: seq<P.Step>, t: P.State)
    requires Matches(s, i, levels, rows) && c.ttlMs == limits.ttlMs
    requires r in s.fetching && s.fetching[r].inst == i && !s.fetching[r].l1Done
    ensures var q := s.fetching[r];
            && t.now == s.now && t.db == s.db && t.writes == s.writes && t.inbox == s.inbox && t.l1.Keys == s.l1.Keys
            && Matches(t, i, levels.(l1 := AfterSet(levels.l1, CacheKey(q.pair), q.value, version, s.now, limits)),
                       rows)
            && if q.fromDb && c.mode != NoRedis
               then Reaches(c, s, steps, t, []) && t.fetching == s.fetching[r := q.(l1Done := true)]
               else Reaches(c, s, steps, t, [(q.pair, q.value)]) && t.fetching == s.fetching - {r}
  {
    var q := s.fetching[r];
    var ck, fill := CacheKey(q.pair), P.FillL1(r);
    var gone := SetIsWriteThenShrink(s.l1[i], levels.l1, ck, q.value, version, s.now, limits, q.seenAt);
    var u := P.Apply(c, s, fill);
    var l1 := AfterSet(levels.l1, ck, q.value, version, s.now, limits);
    t := Shrinks(c, u, i, levels, rows, l1, gone);
    steps := [fill] + [P.ShrinkL1(i, gone)];
    var x := if P.Answer(c, s, fill).Some? then [P.Answer(c, s, fill).value] else [];
    Join(c, s, [fill], u, [P.ShrinkL1(i, gone)], t, x, []);
    assert x + [] == x;
  }

  /** L2 answers. */
  lemma L2ReadIsRun(c: P.Config, s: P.State, i: nat, levels: Levels, rows: Rows, pair: Pair, limits: Limits, r: nat)
    returns (steps: seq<P.Step>, t: P.State)
    requires Matches(s, i, levels, rows) && c.ttlMs == limits.ttlMs && r !in s.fetching
    requires c.mode != NoRedis && CacheKey(pair) in levels.l2
    ensures var e := levels.l2[CacheKey(pair)];
            && Reaches(c, s, steps, t, [(pair, e.value)]) && Quiet(s, t)
            && Matches(t, i, levels.(l1 := AfterSet(levels.l1, CacheKey(pair), e.value, e.version, s.now, limits)),
                       rows)
  {
    var fetch := P.FetchL2(r, i, pair);
    var u := P.Apply(c, s, fetch);
    assert u.fetching - {r} == s.fetching;
    var more;
    more, t := FillIsRun(c, u, i, levels, rows, r, levels.l2[CacheKey(pair)].version, limits);
    steps := [fetch] + more;
    var x := [(pair, levels.l2[CacheKey(pair)].value)];
    Join(c, s, [fetch], u, more, t, [], x);
    assert [] + x == x;
  }

  lemma FetchDbStep(c: P.Config, s: P.State, i: nat, pair: Pair, r: nat) returns (t: P.State)
    requires i in s.l1 && pair in s.db && r !in s.fetching
    ensures Reaches(c, s, [P.FetchDb(r, i, pair)], t, [])
    ensures t == s.(fetching := s.fetching[r := P.Read(i, pair, s.db[pair], s.now, true, false, false)])
    ensures t.fetching - {r} == s.fetching
  {
    t := P.Apply(c, s, P.FetchDb(r, i, pair));
  }

  /** The database answers, and both levels are backfilled. */
  lemma DbReadIsRun(c: P.Config, s: P.State, i: nat, levels: Levels, rows: Rows, pair: Pair, limits: Limits,
                    ok: bool, r: nat) returns (steps: seq<P.Step>, t: P.State)
    requires Matches(s, i, levels, rows) && c.ttlMs == limits.ttlMs && r !in s.fetching && pair in rows
    ensures Reaches(c, s, steps, t, [(pair, rows[pair].value)]) && Quiet(s, t)
    ensures Matches(t, i, WithRow(c.mode, levels, CacheKey(pair), rows[pair], s.now, limits, ok), rows)
  {
    var fetch, x := P.FetchDb(r, i, pair), [(pair, rows[pair].value)];
    var u := FetchDbStep(c, s, i, pair, r);
    var more, v := FillIsRun(c, u, i, levels, rows, r, rows[pair].version, limits);
    steps := [fetch] + more;
    assert [] + x == x;
    if c.mode == NoRedis {
      t := v;
      Join(c, s, [fetch], u, more, v, [], x);
    } else {
      JoinSilent(c, s, [fetch], u, more, v);
      var l1 := AfterSet(levels.l1, CacheKey(pair), rows[pair].value, rows[pair].version, s.now, limits);
      t := L2FillIsRun(c, v, i, levels.(l1 := l1), rows, r, rows[pair].version, ok);
      assert v.fetching - {r} == s.fetching;
      Join(c, s, steps, v, [P.FillL2(r, ok)], t, [], x);
      steps := steps + [P.FillL2(r, ok)];
    }
  }

  lemma L2FillIsRun(c: P.Config, s: P.State, i: nat, levels: Levels, rows: Rows, r: nat, version: int, ok: bool)
    returns (t: P.State)
    requires Matches(s, i, levels, rows) && c.mode != NoRedis && r in s.fetching && s.fetching[r].l1Done
    ensures var q := s.fetching[r];
            var l2 := RedisSet(c.mode, levels.l2, CacheKey(q.pair), Stored(q.value, version), ok);
            && Reaches(c, s, [P.FillL2(r, ok)], t, [(q.pair, q.value)])
            && t == s.(l2 := t.l2, fetching := s.fetching - {r})
            && Matches(t, i, levels.(l2 := l2), rows)
  {
    t := P.Apply(c, s, P.FillL2(r, ok));
  }

  // ---------------------------------------------------------------- a whole read

  /** The part of `get` below L1. */
  lemma BelowL1IsRun(c: P.Config, s: P.State, i: nat, levels: Levels, rows: Rows, sid: string, key: string,
                     limits: Limits, ok: Replies, r: nat) returns (steps: seq<P.Step>, t: P.State)
    requires Matches(s, i, levels, rows) && c.ttlMs == limits.ttlMs && r !in s.fetching
    ensures var (value, after) :=
              GetBelowL1(c.mode, levels, Find(rows, sid, key), CacheKey(Pair(sid, key)), s.now, limits, ok);
            && Reaches(c, s, steps, t, if value.Some? then [(Pair(sid, key), value.value)] else [])
            && Quiet(s, t) && Matches(t, i, after, rows)
  {
    var pair := Pair(sid, key);
    if RedisGet(c.mode, levels.l2, CacheKey(pair), ok.read).Some? {
      steps, t := L2ReadIsRun(c, s, i, levels, rows, pair, limits, r);
    } else if pair in rows {
      steps, t := DbReadIsRun(c, s, i, levels, rows, pair, limits, ok.write, r);
    } else {
      steps, t := [], s;
    }
  }

  /** The look at L1, and in HTTP mode the removal of an entry whose version Redis does not confirm. */
  lemma MissIsRun(c: P.Config, s: P.State, i: nat, levels: Levels, rows: Rows, ck: string, stale: bool)
    returns (steps: seq<P.Step>, t: P.State)
    requires Matches(s, i, levels, rows)
    ensures Reaches(c, s, steps, t, []) && Quiet(s, t)
    ensures Matches(t, i, levels.(l1 := AfterMiss(levels.l1, ck, s.now, stale)), rows)
  {
    steps, t := LookIsRun(c, s, i, levels, rows, ck);
    if stale {
      var looked, first, u := levels.(l1 := AfterGet(levels.l1, ck, s.now)), steps, t;
      var drop;
      drop, t := DropIsRun(c, u, i, looked, rows, ck);
      steps := first + drop;
      JoinSilent(c, s, first, u, drop, t);
    }
  }

  function AfterMiss(l1: seq<Slot>, ck: string, now: int, stale: bool): seq<Slot> {
    if stale then Without(AfterGet(l1, ck, now), ck) else AfterGet(l1, ck, now)
  }

  /** Redis names another version than the live L1 entry has. */
  predicate VersionDiffers(mode: Mode, levels: Levels, ck: string, now: int, ok: bool) {
    var hit, check := GetResult(levels.l1, ck, now), RedisGet(mode, levels.l2, ck, ok);
    hit.Some? && mode == Http && check.Some? && check.value.version != hit.value.version
  }

  /** `get` is a hit, or it goes below L1. */
  lemma GetCases(mode: Mode, levels: Levels, row: Option<Row>, ck: string, now: int, limits: Limits, ok: Replies)
    ensures var stale := VersionDiffers(mode, levels, ck, now, ok.check);
            GetOutcome(mode, levels, row, ck, now, limits, ok) ==
            if GetResult(levels.l1, ck, now).Some? && !stale
            then (Some(GetResult(levels.l1, ck, now).value.value), levels.(l1 := AfterGet(levels.l1, ck, now)))
            else GetBelowL1(mode, levels.(l1 := AfterMiss(levels.l1, ck, now, stale)), row, ck, now, limits, ok)
  {
  }

  /**
   A read that nothing interrupts is a run of the protocol, in every mode and with
   any Redis failures: it ends in matching states and hands back the same answer.
   */
  lemma ReadIsRun(c: P.Config, s: P.State, i: nat, levels: Levels, rows: Rows, sid: string, key: string, limits: Limits,
                  ok: Replies, r: nat) returns (steps: seq<P.Step>, t: P.State)
    requires Matches(s, i, levels, rows) && c.ttlMs == limits.ttlMs && r !in s.fetching
    ensures var (value, after) :=
              GetOutcome(c.mode, levels, Find(rows, sid, key), CacheKey(Pair(sid, key)), s.now, limits, ok);
            && Reaches(c, s, steps, t, if value.Some? then [(Pair(sid, key), value.value)] else [])
            && Quiet(s, t) && Matches(t, i, after, rows)
  {
    var pair, ck := Pair(sid, key), CacheKey(Pair(sid, key));
    var stale := VersionDiffers(c.mode, levels, ck, s.now, ok.check);
    GetCases(c.mode, levels, Find(rows, sid, key), ck, s.now, limits, ok);
    if GetResult(levels.l1, ck, s.now).Some? && !stale {
      steps, t := HitIsRun(c, s, i, levels, rows, pair);
    } else {
      var missed := levels.(l1 := AfterMiss(levels.l1, ck, s.now, stale));
      var first, u := MissIsRun(c, s, i, levels, rows, ck, stale);
      var rest;
      rest, t := BelowL1IsRun(c, u, i, missed, rows, sid, key, limits, ok, r);
      steps := first + rest;
      var value := GetBelowL1(c.mode, missed, Find(rows, sid, key), ck, s.now, limits, ok).0;
      var x := if value.Some? then [(pair, value.value)] else [];
      Join(c, s, first, u, rest, t, [], x);
      assert [] + x == x;
    }
  }

  // ---------------------------------------------------------------- a batched read

  /** What L1 answers for one key, as the protocol hands it out. */
  function HitAnswer(mode: Mode, l1: seq<Slot>, sid: string, key: string, now: int): seq<(Pair, string)> {
    match FromL1(mode, l1, sid, key, now)
    case None => []
    case Some(value) => [(Pair(sid, key), value)]
  }

  function HitAnswers(mode: Mode, l1: seq<Slot>, sid: string, keys: seq<string>, now: int): seq<(Pair, string)> {
    if keys == [] then []
    else HitAnswers(mode, l1, sid, keys[..|keys| - 1], now) + HitAnswer(mode, l1, sid, keys[|keys| - 1], now)
  }

  function RowAnswers(rows: Rows, sid: string, listed: seq<string>): seq<(Pair, string)>
    requires forall k :: k in listed ==> Pair(sid, k) in rows
  {
    seq(|listed|, n requires 0 <= n < |listed| => (Pair(sid, listed[n]), rows[Pair(sid, listed[n])].value))
  }

  /** One key is looked at: a hit outside HTTP mode, and otherwise no answer. */
  lemma TouchIsRun(c: P.Config, s: P.State, i: nat, levels: Levels, rows: Rows, sid: string, key: string)
    returns (steps: seq<P.Step>, t: P.State)
    requires Matches(s, i, levels, rows)
    ensures Reaches(c, s, steps, t, HitAnswer(c.mode, levels.l1, sid, key, s.now)) && Quiet(s, t)
    ensures Matches(t, i, levels.(l1 := AfterGet(levels.l1, CacheKey(Pair(sid, key)), s.now)), rows)
  {
    if FromL1(c.mode, levels.l1, sid, key, s.now).Some? {
      steps, t := HitIsRun(c, s, i, levels, rows, Pair(sid, key));
    } else {
      steps, t := LookIsRun(c, s, i, levels, rows, CacheKey(Pair(sid, key)));
    }
  }

  /** The first loop. */
  lemma {:induction false} TouchAllIsRun(c: P.Config, s: P.State, i: nat, levels: Levels, rows: Rows, sid: string,
                                         keys: seq<string>) returns (steps: seq<P.Step>, t: P.State)
    requires Matches(s, i, levels, rows)
    ensures Reaches(c, s, steps, t, HitAnswers(c.mode, levels.l1, sid, keys, s.now)) && Quiet(s, t)
    ensures Matches(t, i, levels.(l1 := Touched(levels.l1, sid, keys, s.now)), rows)
    decreases |keys|
  {
    if keys == [] {
      steps, t := [], s;
    } else {
      var before, key := keys[..|keys| - 1], keys[|keys| - 1];
      var first, u := TouchAllIsRun(c, s, i, levels, rows, sid, before);
      TouchedKeepsResults(levels.l1, sid, before, s.now);
      var last;
      last, t := TouchIsRun(c, u, i, levels.(l1 := Touched(levels.l1, sid, before, s.now)), rows, sid, key);
      steps := first + last;
      Join(c, s, first, u, last, t, HitAnswers(c.mode, levels.l1, sid, before, s.now),
           HitAnswer(c.mode, levels.l1, sid, key, s.now));
    }
  }

  /** The second loop; only the Redis writes of keys in `redisOk` succeed. */
  lemma {:induction false} BackfillIsRun(c: P.Config, s: P.State, i: nat, levels: Levels, rows: Rows, sid: string,
                                         listed: seq<string>, limits: Limits, redisOk: set<string>, r: nat)
    returns (steps: seq<P.Step>, t: P.State)
    requires Matches(s, i, levels, rows) && c.ttlMs == limits.ttlMs && r !in s.fetching
    requires forall k :: k in listed ==> Pair(sid, k) in rows
    ensures Reaches(c, s, steps, t, RowAnswers(rows, sid, listed)) && Quiet(s, t)
    ensures Matches(t, i, Backfilled(c.mode, levels, sid, listed, rows, s.now, limits, redisOk), rows)
    decreases |listed|
  {
    if listed == [] {
      steps, t := [], s;
    } else {
      var before, key := listed[..|listed| - 1], listed[|listed| - 1];
      var first, u := BackfillIsRun(c, s, i, levels, rows, sid, before, limits, redisOk, r);
      var filled := Backfilled(c.mode, levels, sid, before, rows, s.now, limits, redisOk);
      var last;
      last, t := DbReadIsRun(c, u, i, filled, rows, Pair(sid, key), limits, key in redisOk, r);
      steps := first + last;
      var x, y := RowAnswers(rows, sid, before), [(Pair(sid, key), rows[Pair(sid, key)].value)];
      Join(c, s, first, u, last, t, x, y);
      assert x + y == RowAnswers(rows, sid, listed);
    }
  }

  /**
   A batched read that nothing interrupts is a run of the protocol: first the keys
   that L1 answers, then the rows found, in the order the database lists them, each
   with its value, and the levels end as `getMany` leaves them.
   */
  lemma ReadManyIsRun(c: P.Config, s: P.State, i: nat, levels: Levels, rows: Rows, sid: string, keys: seq<string>,
                      listed: seq<string>, limits: Limits, redisOk: set<string>, r: nat)
    returns (steps: seq<P.Step>, t: P.State)
    requires Matches(s, i, levels, rows) && c.ttlMs == limits.ttlMs && r !in s.fetching
    requires forall k :: k in listed <==>
               k in keys && FromL1(c.mode, levels.l1, sid, k, s.now).None? && Pair(sid, k) in rows
    ensures Reaches(c, s, steps, t, HitAnswers(c.mode, levels.l1, sid, keys, s.now) + RowAnswers(rows, sid, listed))
    ensures var touched := levels.(l1 := Touched(levels.l1, sid, keys, s.now));
            && Quiet(s, t)
            && Matches(t, i, Backfilled(c.mode, touched, sid, listed, rows, s.now, limits, redisOk), rows)
  {
    var touched := levels.(l1 := Touched(levels.l1, sid, keys, s.now));
    var first, u := TouchAllIsRun(c, s, i, levels, rows, sid, keys);
    var rest;
    rest, t := BackfillIsRun(c, u, i, touched, rows, sid, listed, limits, redisOk, r);
    steps := first + rest;
    Join(c, s, first, u, rest, t, HitAnswers(c.mode, levels.l1, sid, keys, s.now), RowAnswers(rows, sid, listed));
  }

  // ---------------------------------------------------------------- clearing

  /** `clearSession` and `clearAll` are losses of L1 entries. */
  lemma ClearIsRun(c: P.Config, s: P.State, i: nat, levels: Levels, rows: Rows, prefix: string)
    returns (steps: seq<P.Step>, t: P.State, all: seq<P.Step>, v: P.State)
    requires Matches(s, i, levels, rows)
    ensures Reaches(c, s, steps, t, []) && Quiet(s, t)
    ensures Matches(t, i, levels.(l1 := Filter(levels.l1, OutsidePrefix(prefix))), rows)
    ensures Reaches(c, s, all, v, []) && Quiet(s, v) && Matches(v, i, levels.(l1 := []), rows)
  {
    var gone := FilterIsShrink(s.l1[i], levels.l1, OutsidePrefix(prefix));
    t := Shrinks(c, s, i, levels, rows, Filter(levels.l1, OutsidePrefix(prefix)), gone);
    steps := [P.ShrinkL1(i, gone)];
    v := Shrinks(c, s, i, levels, rows, [], s.l1[i].Keys);
    all := [P.ShrinkL1(i, s.l1[i].Keys)];
  }

  // ---------------------------------------------------------------- a write

  function PutOrRemove(rows: Rows, sid: string, key: string, value: Option<string>, now: int): Rows {
    if value.Some? then Upsert(rows, sid, KeyValue(key, value.value), now) else RemoveAll(rows, sid, [key])
  }

  /** A row of a batch that reaches the database is one step of the protocol. */
  lemma LandingIsRun(c: P.Config, s: P.State, i: nat, levels: Levels, rows: Rows, w: nat,
                     key: string) returns (t: P.State)
    requires Matches(s, i, levels, rows) && P.Enabled(c, s, P.RowLands(w, key))
    ensures Reaches(c, s, [P.RowLands(w, key)], t, [])
    ensures var j := s.writes[w]; Matches(t, i, levels, PutOrRemove(rows, j.sid, key, j.batch[key], s.now))
  {
    t := P.Apply(c, s, P.RowLands(w, key));
  }

  /** One row of an open write is through: no step is left for it. */
  function WithoutKey(j: P.Write, key: string): P.Write {
    j.(l1Left := j.l1Left - {key}, l2Left := j.l2Left - {key}, pubLeft := j.pubLeft - {key})
  }

  /** What the L1 part of a cache update leaves of the write: without Redis the row is through. */
  function AfterL1Write(mode: Mode, j: P.Write, key: string): P.Write {
    if mode == NoRedis then WithoutKey(j, key) else j.(l1Left := j.l1Left - {key})
  }

  /** L1 after the L1 part of `onWritten` or `onDeleted`. */
  function L1Updated(l1: seq<Slot>, ck: string, value: Option<string>, version: int, now: int,
                     limits: Limits): seq<Slot> {
    if value.Some? then AfterSet(l1, ck, value.value, version, now, limits) else Without(l1, ck)
  }

  /** L2 after the Redis part. */
  function L2Updated(mode: Mode, l2: map<string, Stored>, ck: string, value: Option<string>, version: int, ok: bool)
    : map<string, Stored>
  {
    if mode == NoRedis || !ok then l2
    else if value.Some? then l2[ck := Stored(value.value, version)]
    else l2 - {ck}
  }

  /** Both levels after `onWritten` or `onDeleted`. */
  function AfterUpdate(mode: Mode, s: Levels, ck: string, value: Option<string>, version: int, now: int,
                       limits: Limits, ok: bool): Levels {
    if value.Some? then AfterWritten(mode, s, ck, value.value, version, now, limits, ok)
    else AfterDeleted(mode, s, ck, ok)
  }

  /** The protocol's L1 after the write, and then the loss of some entries, is the real one. */
  lemma L1UpdateMatches(m: map<string, P.L1Entry>, l1: seq<Slot>, ck: string, value: Option<string>, version: int,
                        now: int, limits: Limits, landed: int) returns (gone: set<string>)
    requires Same(m, l1)
    ensures Same((if value.Some? then m[ck := P.L1Entry(value.value, now + limits.ttlMs, landed)] else m - {ck}) - gone,
                 L1Updated(l1, ck, value, version, now, limits))
  {
    if value.Some? {
      gone := SetIsWriteThenShrink(m, l1, ck, value.value, version, now, limits, landed);
    } else {
      gone := FilterIsShrink(m, l1, OtherThan(ck));
      LookupFilter(l1, OtherThan(ck), ck);
      assert (m - {ck}) - gone == m - gone;
    }
  }

  lemma L1Step(c: P.Config, s: P.State, w: nat, key: string) returns (t: P.State)
    requires P.Enabled(c, s, P.L1Write(w, key))
    ensures Reaches(c, s, [P.L1Write(w, key)], t, [])
    ensures var j := s.writes[w];
            var ck, level := CacheKey(Pair(j.sid, key)), s.l1[j.inst];
            t == s.(l1 := s.l1[j.inst := if j.batch[key].Some?
                                         then level[ck := P.L1Entry(j.batch[key].value, s.now + c.ttlMs, j.landed[key])]
                                         else level - {ck}],
                    writes := s.writes[w := AfterL1Write(c.mode, j, key)])
  {
    t := P.Apply(c, s, P.L1Write(w, key));
  }

  /** The L1 part of `onWritten` or `onDeleted`. */
  lemma L1UpdateIsRun(c: P.Config, s: P.State, i: nat, levels: Levels, rows: Rows, w: nat, key: string, version: int,
                      limits: Limits) returns (steps: seq<P.Step>, t: P.State)
    requires Matches(s, i, levels, rows) && c.ttlMs == limits.ttlMs
    requires P.Enabled(c, s, P.L1Write(w, key)) && s.writes[w].inst == i
    ensures Reaches(c, s, steps, t, [])
    ensures var j := s.writes[w];
            var l1 := L1Updated(levels.l1, CacheKey(Pair(j.sid, key)), j.batch[key], version, s.now, limits);
            && t == s.(l1 := t.l1, writes := s.writes[w := AfterL1Write(c.mode, j, key)])
            && Matches(t, i, levels.(l1 := l1), rows)
  {
    var j := s.writes[w];
    var ck := CacheKey(Pair(j.sid, key));
    var u := L1Step(c, s, w, key);
    var gone := L1UpdateMatches(s.l1[i], levels.l1, ck, j.batch[key], version, s.now, limits, j.landed[key]);
    t := Shrinks(c, u, i, levels, rows, L1Updated(levels.l1, ck, j.batch[key], version, s.now, limits), gone);
    steps := [P.L1Write(w, key)] + [P.ShrinkL1(i, gone)];
    JoinSilent(c, s, [P.L1Write(w, key)], u, [P.ShrinkL1(i, gone)], t);
  }

  /** The Redis part: the write or deletion. */
  lemma L2UpdateIsRun(c: P.Config, s: P.State, i: nat, levels: Levels, rows: Rows, w: nat, key: string, version: int,
                      ok: bool) returns (t: P.State)
    requires Matches(s, i, levels, rows) && P.Enabled(c, s, P.L2Write(w, key, ok))
    ensures Reaches(c, s, [P.L2Write(w, key, ok)], t, [])
    ensures var j := s.writes[w];
            var ck := CacheKey(Pair(j.sid, key));
            var j' := if c.mode == Tcp then j.(l2Left := j.l2Left - {key})
                      else j.(l2Left := j.l2Left - {key}, pubLeft := j.pubLeft - {key});
            var l2 := L2Updated(c.mode, levels.l2, ck, j.batch[key], version, ok);
            && t == s.(l2 := t.l2, fetching := t.fetching, writes := s.writes[w := j'])
            && Matches(t, i, levels.(l2 := l2), rows)
  {
    t := P.Apply(c, s, P.L2Write(w, key, ok));
  }

  /** The publication. */
  lemma PublishIsRun(c: P.Config, s: P.State, i: nat, levels: Levels, rows: Rows, w: nat, key: string, ok: bool)
    returns (t: P.State)
    requires Matches(s, i, levels, rows) && P.Enabled(c, s, P.Publish(w, key, ok))
    ensures Reaches(c, s, [P.Publish(w, key, ok)], t, []) && Matches(t, i, levels, rows) && t.now == s.now
    ensures t.writes == s.writes[w := s.writes[w].(pubLeft := s.writes[w].pubLeft - {key})]
    ensures t.inbox.Keys == s.inbox.Keys
    ensures forall n :: n in s.inbox ==>
              t.inbox[n] == s.inbox[n] + Invalidation(c.mode, CacheKey(Pair(s.writes[w].sid, key)), ok)
  {
    t := P.Apply(c, s, P.Publish(w, key, ok));
  }

  /** The Redis part of a cache update: nothing, a write, or a write and a publication. */
  lemma RedisUpdateIsRun(c: P.Config, s: P.State, i: nat, levels: Levels, rows: Rows, w: nat, key: string,
                         version: int, ok: Sends) returns (steps: seq<P.Step>, t: P.State)
    requires c.mode != NoRedis && Matches(s, i, levels, rows) && P.Enabled(c, s, P.L2Write(w, key, ok.write))
    requires key in s.writes[w].pubLeft
    ensures Reaches(c, s, steps, t, []) && t.now == s.now
    ensures var j := s.writes[w];
            var ck := CacheKey(Pair(j.sid, key));
            && Matches(t, i, levels.(l2 := L2Updated(c.mode, levels.l2, ck, j.batch[key], version, ok.write)), rows)
            && t.writes == s.writes[w := j.(l2Left := j.l2Left - {key}, pubLeft := j.pubLeft - {key})]
            && t.inbox.Keys == s.inbox.Keys
            && (forall n :: n in s.inbox ==> t.inbox[n] == s.inbox[n] + Invalidation(c.mode, ck, ok.publish))
  {
    var j := s.writes[w];
    var l2 := L2Updated(c.mode, levels.l2, CacheKey(Pair(j.sid, key)), j.batch[key], version, ok.write);
    var u := L2UpdateIsRun(c, s, i, levels, rows, w, key, version, ok.write);
    if c.mode == Tcp {
      t := PublishIsRun(c, u, i, levels.(l2 := l2), rows, w, key, ok.publish);
      steps := [P.L2Write(w, key, ok.write)] + [P.Publish(w, key, ok.publish)];
      JoinSilent(c, s, [P.L2Write(w, key, ok.write)], u, [P.Publish(w, key, ok.publish)], t);
    } else {
      steps, t := [P.L2Write(w, key, ok.write)], u;
    }
  }

  /** A cache update is its L1 part and its Redis part. */
  lemma UpdateParts(mode: Mode, s: Levels, ck: string, value: Option<string>, version: int, now: int, limits: Limits,
                    ok: bool)
    ensures AfterUpdate(mode, s, ck, value, version, now, limits, ok) ==
            Levels(L1Updated(s.l1, ck, value, version, now, limits), L2Updated(mode, s.l2, ck, value, version, ok))
  {
  }

  lemma PutTwice(writes: map<nat, P.Write>, w: nat, a: P.Write, b: P.Write)
    ensures writes[w := a][w := b] == writes[w := b]
  {
  }

  /**
   `onWritten` or `onDeleted` of one row of an open, landed batch is a run of the
   protocol, in every mode and with any Redis failures: it ends in matching states,
   nothing is left to do for the row, and every instance got the same message.
   */
  lemma UpdateIsRun(c: P.Config, s: P.State, i: nat, levels: Levels, rows: Rows, w: nat, key: string, version: int,
                    limits: Limits, ok: Sends) returns (steps: seq<P.Step>, t: P.State)
    requires Matches(s, i, levels, rows) && c.ttlMs == limits.ttlMs
    requires P.Enabled(c, s, P.L1Write(w, key)) && s.writes[w].inst == i
    requires key in s.writes[w].l2Left && key in s.writes[w].pubLeft
    ensures Reaches(c, s, steps, t, []) && t.now == s.now
    ensures var j := s.writes[w];
            var ck := CacheKey(Pair(j.sid, key));
            && Matches(t, i, AfterUpdate(c.mode, levels, ck, j.batch[key], version, s.now, limits, ok.write), rows)
            && t.writes == s.writes[w := WithoutKey(j, key)]
            && t.inbox.Keys == s.inbox.Keys
            && (forall n :: n in s.inbox ==> t.inbox[n] == s.inbox[n] + Invalidation(c.mode, ck, ok.publish))
  {
    var j := s.writes[w];
    var ck := CacheKey(Pair(j.sid, key));
    UpdateParts(c.mode, levels, ck, j.batch[key], version, s.now, limits, ok.write);
    var first, u := L1UpdateIsRun(c, s, i, levels, rows, w, key, version, limits);
    if c.mode == NoRedis {
      steps, t := first, u;
      forall n | n in s.inbox ensures s.inbox[n] + Invalidation(c.mode, ck, ok.publish) == s.inbox[n] {}
    } else {
      var l1 := L1Updated(levels.l1, ck, j.batch[key], version, s.now, limits);
      var rest;
      rest, t := RedisUpdateIsRun(c, u, i, levels.(l1 := l1), rows, w, key, version, ok);
      steps := first + rest;
      PutTwice(s.writes, w, AfterL1Write(c.mode, j, key), WithoutKey(j, key));
      JoinSilent(c, s, first, u, rest, t);
    }
  }
}
