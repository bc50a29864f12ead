/** Where cached values come from, over every run of the storage protocol. */
module Provenance {
  // The runs have overlapping reads and writes, Redis failures, lost entries, and
  // other processes that write the database.

  import opened Wrappers
  import opened CacheKeys
  import opened StorageProtocol

  /** At moment `time`, in one of the states up to number `n`, the database held this value for the row. */
  ghost predicate WasInDatabase(states: seq<State>, n: int, pair: Pair, value: string, time: int) {
    exists j :: 0 <= j <= n && j < |states| && HeldAt(states[j], pair, value, time)
  }

  predicate HeldAt(s: State, pair: Pair, value: string, time: int) {
    s.now == time && pair in s.db && s.db[pair] == value
  }

  ghost predicate L1Sourced(sids: SessionIds, states: seq<State>, n: int, s: State) {
    forall i, p: Pair :: i in s.l1 && p.sid in sids && CacheKey(p) in s.l1[i] ==>
      WasInDatabase(states, n, p, s.l1[i][CacheKey(p)].value, s.l1[i][CacheKey(p)].seenAt)
  }

  ghost predicate L2Sourced(sids: SessionIds, states: seq<State>, n: int, s: State) {
    forall p: Pair :: p.sid in sids && CacheKey(p) in s.l2 ==>
      WasInDatabase(states, n, p, s.l2[CacheKey(p)].value, s.l2[CacheKey(p)].seenAt)
  }

  ghost predicate ReadsSourced(sids: SessionIds, states: seq<State>, n: int, s: State) {
    forall r :: r in s.fetching ==>
      && s.fetching[r].pair.sid in sids
      && WasInDatabase(states, n, s.fetching[r].pair, s.fetching[r].value, s.fetching[r].seenAt)
  }

  ghost predicate WriteSourced(sids: SessionIds, states: seq<State>, n: int, j: Write) {
    && j.sid in sids
    && j.landed.Keys <= j.batch.Keys
    && (forall k :: k in j.landed && j.batch[k].Some? ==>
          WasInDatabase(states, n, Pair(j.sid, k), j.batch[k].value, j.landed[k]))
  }

  ghost predicate Sourced(sids: SessionIds, states: seq<State>, n: int, s: State) {
    && L1Sourced(sids, states, n, s)
    && L2Sourced(sids, states, n, s)
    && ReadsSourced(sids, states, n, s)
    && (forall w :: w in s.writes ==> WriteSourced(sids, states, n, s.writes[w]))
  }

  /** Putting one sourced value under the cache key of its row keeps L1 sourced. */
  lemma L1Put(sids: SessionIds, states: seq<State>, n: int, s: State, t: State, i: nat, p: Pair, e: L1Entry)
    requires L1Sourced(sids, states, n, s) && i in s.l1 && p.sid in sids
    requires WasInDatabase(states, n, p, e.value, e.seenAt)
    requires t.l1 == s.l1[i := s.l1[i][CacheKey(p) := e]]
    ensures L1Sourced(sids, states, n, t)
  {
    forall i', q: Pair | i' in t.l1 && q.sid in sids && CacheKey(q) in t.l1[i']
      ensures WasInDatabase(states, n, q, t.l1[i'][CacheKey(q)].value, t.l1[i'][CacheKey(q)].seenAt)
    {
      if i' == i && CacheKey(q) == CacheKey(p) {
        CacheKeyInjective(sids, p, q);
      }
    }
  }

  lemma L2Put(sids: SessionIds, states: seq<State>, n: int, s: State, t: State, p: Pair, e: L2Entry)
    requires L2Sourced(sids, states, n, s) && p.sid in sids
    requires WasInDatabase(states, n, p, e.value, e.seenAt)
    requires t.l2 == s.l2[CacheKey(p) := e]
    ensures L2Sourced(sids, states, n, t)
  {
    forall q: Pair | q.sid in sids && CacheKey(q) in t.l2
      ensures WasInDatabase(states, n, q, t.l2[CacheKey(q)].value, t.l2[CacheKey(q)].seenAt)
    {
      if CacheKey(q) == CacheKey(p) {
        CacheKeyInjective(sids, p, q);
      }
    }
  }

  lemma StepL1(sids: SessionIds, c: Config, states: seq<State>, n: int, s: State, step: Step)
    requires Sourced(sids, states, n, s) && Enabled(c, s, step)
    ensures L1Sourced(sids, states, n, Apply(c, s, step))
  {
    var t := Apply(c, s, step);
    match step
    case L1Write(w, key) =>
      var j := s.writes[w];
      assert WriteSourced(sids, states, n, j);
      if j.batch[key].Some? {
        L1Put(sids, states, n, s, t, j.inst, Pair(j.sid, key),
              L1Entry(j.batch[key].value, s.now + c.ttlMs, j.landed[key]));
      }
    case FillL1(r) =>
      var q := s.fetching[r];
      L1Put(sids, states, n, s, t, q.inst, q.pair, L1Entry(q.value, s.now + c.ttlMs, q.seenAt));
    case _ =>
  }

  lemma StepL2(sids: SessionIds, c: Config, states: seq<State>, n: int, s: State, step: Step)
    requires Sourced(sids, states, n, s) && Enabled(c, s, step)
    ensures L2Sourced(sids, states, n, Apply(c, s, step))
  {
    var t := Apply(c, s, step);
    match step
    case L2Write(w, key, ok) =>
      var j := s.writes[w];
      assert WriteSourced(sids, states, n, j);
      if ok && j.batch[key].Some? {
        L2Put(sids, states, n, s, t, Pair(j.sid, key), L2Entry(j.batch[key].value, j.landed[key]));
      }
    case FillL2(r, ok) =>
      if ok {
        L2Put(sids, states, n, s, t, s.fetching[r].pair, L2Entry(s.fetching[r].value, s.fetching[r].seenAt));
      }
    case _ =>
  }

  lemma StepReads(sids: SessionIds, c: Config, states: seq<State>, n: int, s: State, step: Step)
    requires Sourced(sids, states, n, s) && Enabled(c, s, step) && StepIn(sids, step)
    requires 0 <= n < |states| && (s == states[n] || (n > 0 && s == states[n - 1]))
    ensures ReadsSourced(sids, states, n, Apply(c, s, step))
  {
    var t := Apply(c, s, step);
    forall r | r in t.fetching
      ensures t.fetching[r].pair.sid in sids
      ensures WasInDatabase(states, n, t.fetching[r].pair, t.fetching[r].value, t.fetching[r].seenAt)
    {
      if r !in s.fetching && step.FetchDb? {
        assert HeldAt(s, step.pair, s.db[step.pair], s.now);
      }
    }
  }

  /** One step keeps everything sourced. */
  lemma StepSourced(sids: SessionIds, c: Config, run: Run, n: nat)
    requires ValidRun(c, run) && RunIn(sids, run) && n < |run.steps|
    requires Sourced(sids, run.states, n, run.states[n])
    ensures Sourced(sids, run.states, n + 1, run.states[n + 1])
  {
    var states, s, step := run.states, run.states[n], run.steps[n];
    assert StepIn(sids, step) && Enabled(c, s, step) && states[n + 1] == Apply(c, s, step);
    StepL1(sids, c, states, n + 1, s, step);
    StepL2(sids, c, states, n + 1, s, step);
    StepReads(sids, c, states, n + 1, s, step);
  }

  lemma {:induction false} RunSourced(sids: SessionIds, c: Config, run: Run, n: nat)
    requires ValidRun(c, run) && RunIn(sids, run) && n < |run.states|
    ensures Sourced(sids, run.states, n, run.states[n])
  {
    if n > 0 {
      RunSourced(sids, c, run, n - 1);
      StepSourced(sids, c, run, n - 1);
    }
  }

  /**
   No value out of thin air: in every reachable state each entry of an L1 or of
   L2, and each answer of a read, was the database's value for that same row at
   an earlier moment of the run.
   */
  lemma NoThinAir(sids: SessionIds, c: Config, run: Run, n: nat)
    requires ValidRun(c, run) && RunIn(sids, run) && n < |run.states|
    ensures forall i, p: Pair :: i in run.states[n].l1 && p.sid in sids && CacheKey(p) in run.states[n].l1[i] ==>
              exists j :: 0 <= j <= n && p in run.states[j].db
                          && run.states[j].db[p] == run.states[n].l1[i][CacheKey(p)].value
    ensures forall p: Pair :: p.sid in sids && CacheKey(p) in run.states[n].l2 ==>
              exists j :: 0 <= j <= n && p in run.states[j].db
                          && run.states[j].db[p] == run.states[n].l2[CacheKey(p)].value
    ensures n < |run.steps| && Answer(c, run.states[n], run.steps[n]).Some? ==>
              var (p, v) := Answer(c, run.states[n], run.steps[n]).value;
              exists j :: 0 <= j <= n && p in run.states[j].db && run.states[j].db[p] == v
  {
    RunSourced(sids, c, run, n);
    if n < |run.steps| {
      assert StepIn(sids, run.steps[n]);
    }
  }

  /** In two steps a row of session "a:x" is cached under the cache key of a row of session "a" that never existed. */
  lemma NestedSessionsMixRows(c: Config, a: string, x: string, key: string) returns (run: Run)
    ensures ValidRun(c, run) && RunIn(iset{a + ":" + x}, run) && |run.states| == 3 && 0 in run.states[2].l1
    ensures CacheKey(Pair(a, x + ":" + key)) in run.states[2].l1[0]
    ensures forall j :: 0 <= j < |run.states| ==> Pair(a, x + ":" + key) !in run.states[j].db
  {
    var p := Pair(a + ":" + x, key);
    var s0 := State(0, map[p := "v"], map[0 := map[]], map[], map[0 := []], map[], map[]);
    var s1 := Apply(c, s0, FetchDb(0, 0, p));
    var s2 := Apply(c, s1, FillL1(0));
    run := Run([s0, s1, s2], [FetchDb(0, 0, p), FillL1(0)]);
    NestedSessionsShare(a, x, key);
    assert |p.sid| > |a|;
  }

  /** A run that only reads leaves the database as it was. */
  ghost predicate AlwaysHolds(run: Run, db: map<Pair, string>) {
    forall j :: 0 <= j < |run.states| ==> run.states[j].db == db
  }

  /** One instance reads a row and backfills its L1. */
  lemma ReadIntoL1(c: Config, p: Pair) returns (run: Run)
    requires c.mode != NoRedis
    ensures ValidRun(c, run) && RunIn(iset{p.sid}, run) && |run.steps| == 2 && AlwaysHolds(run, map[p := "v"])
    ensures var t := Last(run);
            && t.l2 == map[] && 1 in t.l1
            && t.fetching == map[0 := Read(0, p, "v", 0, true, true, false)]
  {
    var start := State(0, map[p := "v"], map[0 := map[], 1 := map[]], map[], map[0 := [], 1 := []], map[], map[]);
    var none := Run([start], []);
    var fetched := Extend(c, none, FetchDb(0, 0, p));
    run := Extend(c, fetched, FillL1(0));
  }

  /** And then L2. */
  lemma ReadIntoL2(c: Config, p: Pair) returns (run: Run)
    requires c.mode != NoRedis
    ensures ValidRun(c, run) && RunIn(iset{p.sid}, run) && |run.steps| == 3 && AlwaysHolds(run, map[p := "v"])
    ensures Last(run).l2 == map[CacheKey(p) := L2Entry("v", 0)] && Last(run).fetching == map[] && 1 in Last(run).l1
  {
    var filled := ReadIntoL1(c, p);
    run := Extend(c, filled, FillL2(0, true));
  }

  /**
   With Redis the value gets to a reader: session "a" reads what "a:x" left in L2 as
   a row of its own that never existed.
   */
  lemma NestedSessionsMisread(c: Config, a: string, x: string, key: string) returns (run: Run)
    requires c.mode != NoRedis
    ensures ValidRun(c, run) && RunIn(iset{a, a + ":" + x}, run) && |run.steps| == 5
    ensures Answer(c, run.states[4], run.steps[4]) == Some((Pair(a, x + ":" + key), "v"))
    ensures forall j :: 0 <= j < |run.states| ==> Pair(a, x + ":" + key) !in run.states[j].db
  {
    var p, q := Pair(a + ":" + x, key), Pair(a, x + ":" + key);
    NestedSessionsShare(a, x, key);
    assert |p.sid| > |a|;
    var backfilled := ReadIntoL2(c, p);
    var fetched := Extend(c, backfilled, FetchL2(0, 1, q));
    run := Extend(c, fetched, FillL1(0));
    assert AlwaysHolds(run, map[p := "v"]);
  }

  /** An L1 entry under the cache key of a row that was never in the database. */
  ghost predicate OutOfThinAir(run: Run, n: nat, p: Pair)
    requires n < |run.states|
  {
    && (exists i :: i in run.states[n].l1 && CacheKey(p) in run.states[n].l1[i])
    && (forall j :: 0 <= j < |run.states| ==> p !in run.states[j].db)
  }

  /**
   So separate session ids are exactly what is needed: among any others some run
   caches a value out of thin air, and with Redis some run answers with one.
   */
  lemma SeparateIsNeeded(c: Config, sids: iset<string>) returns (run: Run, misread: Run, p: Pair)
    requires !Separate(sids)
    ensures ValidRun(c, run) && RunIn(sids, run) && |run.states| == 3 && p.sid in sids
    ensures OutOfThinAir(run, 2, p)
    ensures c.mode != NoRedis ==>
              && ValidRun(c, misread) && RunIn(sids, misread) && |misread.steps| == 5
              && Answer(c, misread.states[4], misread.steps[4]) == Some((p, "v"))
              && forall j :: 0 <= j < |misread.states| ==> p !in misread.states[j].db
  {
    var b, a :| a in sids && b in sids && a != b && StartsWith(b, a + ":");
    var x := b[|a| + 1..];
    assert b == a + ":" + x;
    run := NestedSessionsMixRows(c, a, x, "");
    misread := run;
    p := Pair(a, x + ":" + "");
    if c.mode != NoRedis {
      misread := NestedSessionsMisread(c, a, x, "");
    }
  }

  // ---------------------------------------------------------------- bounded staleness

  /** Every value reaches L1 at most `d` after the database call that produced it. */
  ghost predicate Prompt(run: Run, d: int) {
    forall i :: 0 <= i < |run.steps| && i < |run.states| ==>
      match run.steps[i] {
        case FillL1(r) => r in run.states[i].fetching ==> run.states[i].now <= run.states[i].fetching[r].seenAt + d
        case L1Write(w, key) =>
          w in run.states[i].writes && key in run.states[i].writes[w].landed ==>
            run.states[i].now <= run.states[i].writes[w].landed[key] + d
        case _ => true
      }
  }

  /** An entry of L1 expires at most one lifetime and `d` after the database held its value. */
  lemma {:induction false} EntriesExpire(c: Config, run: Run, d: int, n: nat)
    requires ValidRun(c, run) && Prompt(run, d) && n < |run.states|
    ensures forall i, k :: i in run.states[n].l1 && k in run.states[n].l1[i] ==>
              run.states[n].l1[i][k].expiresAt <= run.states[n].l1[i][k].seenAt + d + c.ttlMs
  {
    if n > 0 {
      EntriesExpire(c, run, d, n - 1);
      var s, step := run.states[n - 1], run.steps[n - 1];
      assert Enabled(c, s, step) && run.states[n] == Apply(c, s, step);
    }
  }

  /**
   Bounded staleness without Redis: a value answered at time t was the database's
   value for that row at a moment later than t - ttl - d (for a hit) or no earlier
   than t - d (for a miss), whatever else reads or writes meanwhile.
   */
  lemma BoundedStaleness(sids: SessionIds, c: Config, run: Run, d: int, n: nat) returns (j: nat)
    requires c.mode == NoRedis
    requires ValidRun(c, run) && RunIn(sids, run) && Prompt(run, d) && n < |run.steps|
    requires Answer(c, run.states[n], run.steps[n]).Some?
    ensures j <= n
    ensures var (p, v) := Answer(c, run.states[n], run.steps[n]).value;
            p in run.states[j].db && run.states[j].db[p] == v
    ensures run.steps[n].Hit? ==> run.states[n].now - c.ttlMs - d < run.states[j].now
    ensures run.steps[n].FillL1? ==> run.states[n].now - d <= run.states[j].now
    ensures run.steps[n].Hit? || run.steps[n].FillL1?
  {
    RunSourced(sids, c, run, n);
    EntriesExpire(c, run, d, n);
    NoFillsWithoutRedis(c, run, n);
    var s, step := run.states[n], run.steps[n];
    assert StepIn(sids, step) && Enabled(c, s, step);
    var (p, v) := Answer(c, s, step).value;
    var time := if step.Hit? then s.l1[step.inst][CacheKey(p)].seenAt else s.fetching[step.r].seenAt;
    assert WasInDatabase(run.states, n, p, v, time);
    j :| 0 <= j <= n && j < |run.states| && HeldAt(run.states[j], p, v, time);
  }

  lemma {:induction false} NoFillsWithoutRedis(c: Config, run: Run, n: nat)
    requires c.mode == NoRedis && ValidRun(c, run) && n < |run.states|
    ensures forall r :: r in run.states[n].fetching ==> !run.states[n].fetching[r].l1Done
  {
    if n > 0 {
      NoFillsWithoutRedis(c, run, n - 1);
      assert Enabled(c, run.states[n - 1], run.steps[n - 1]);
    }
  }
}
