/** Coherence of the three levels in TCP mode, for any number of instances. */
module Coherence {
  // The hypotheses are conditions on single steps (`Disciplined`): writes of one
  // session are serialised, Redis does not fail to replace an entry or to announce a
  // write that some instance still holds an older entry of, nobody writes the
  // database behind the protocol's back, and no backfill comes late. A backfill is
  // late if a write of its row overlapped the read and no landed write of the row has
  // its own cache update still to come at that level. Lost cache entries, all other
  // Redis failures, and all other interleavings of reads and writes are allowed.

  import opened Wrappers
  import opened CacheKeys
  import opened StorageProtocol

  ghost predicate Disciplined(sids: SessionIds, s: State, step: Step) {
    && StepIn(sids, step)
    && match step {
         case BeginWrite(_, _, sid, _) => forall w :: w in s.writes ==> s.writes[w].sid != sid
         case L2Write(w, key, ok) => ok || (w in s.writes ==> CacheKey(Pair(s.writes[w].sid, key)) !in s.l2)
         case Publish(w, key, ok) => ok || (w in s.writes ==> NothingToDrop(s, Pair(s.writes[w].sid, key)))
         case FillL1(r) => r in s.fetching ==> !LateForL1(s, s.fetching[r])
         case FillL2(r, ok) => ok && r in s.fetching ==> !LateForL2(s, s.fetching[r])
         case External(_, _) => false
         case _ => true
       }
  }

  /** No instance has an entry of the row that differs from the database, unless its invalidation is on the way. */
  ghost predicate NothingToDrop(s: State, p: Pair) {
    forall i :: i in s.l1 && CacheKey(p) in s.l1[i] ==>
      InDb(s.db, p, s.l1[i][CacheKey(p)].value) || (i in s.inbox && CacheKey(p) in s.inbox[i])
  }

  /** A write overlapped the read, none is unpublished, and the instance has no invalidation of the row to come. */
  ghost predicate LateForL1(s: State, q: Read) {
    q.overlapped && !Unpublished(s, q.pair) && !(q.inst in s.inbox && CacheKey(q.pair) in s.inbox[q.inst])
  }

  /** A write overlapped the read, and none is on its way to L2. */
  ghost predicate LateForL2(s: State, q: Read) {
    q.overlapped && !NotInL2(s, q.pair)
  }

  ghost predicate DisciplinedRun(sids: SessionIds, run: Run) {
    forall i :: 0 <= i < |run.steps| && i < |run.states| ==> Disciplined(sids, run.states[i], run.steps[i])
  }

  // ---------------------------------------------------------------- the claims

  predicate InDb(db: map<Pair, string>, p: Pair, value: string) {
    p in db && db[p] == value
  }

  /** A write of the row has reached the database and has not been published yet. */
  ghost predicate Unpublished(s: State, p: Pair) {
    exists w :: w in s.writes && Shows(s.writes[w], p) && p.key in s.writes[w].pubLeft
  }

  /** A write of the row has reached the database and has not reached L2 yet. */
  ghost predicate NotInL2(s: State, p: Pair) {
    exists w :: w in s.writes && Shows(s.writes[w], p) && p.key in s.writes[w].l2Left
  }

  predicate Shows(j: Write, p: Pair) {
    j.sid == p.sid && p.key in j.landed
  }

  ghost predicate L1Coherent(sids: SessionIds, s: State) {
    forall i, p: Pair :: i in s.l1 && p.sid in sids && CacheKey(p) in s.l1[i] ==>
      L1EntryOk(s, i, p)
  }

  ghost predicate L1EntryOk(s: State, i: nat, p: Pair)
    requires i in s.l1 && CacheKey(p) in s.l1[i]
  {
    || InDb(s.db, p, s.l1[i][CacheKey(p)].value)
    || Unpublished(s, p)
    || (i in s.inbox && CacheKey(p) in s.inbox[i])
  }

  ghost predicate L2Coherent(sids: SessionIds, s: State) {
    forall p: Pair :: p.sid in sids && CacheKey(p) in s.l2 ==>
      InDb(s.db, p, s.l2[CacheKey(p)].value) || NotInL2(s, p)
  }

  // ---------------------------------------------------------------- the invariant

  ghost predicate WriteOk(sids: SessionIds, s: State, j: Write) {
    && j.sid in sids
    && j.landed.Keys <= j.batch.Keys
    && j.l1Left <= j.l2Left <= j.pubLeft <= j.batch.Keys
    && (j.landed.Keys != j.batch.Keys ==> j.l1Left == j.batch.Keys)
    && (forall k :: k in j.landed ==> RowOk(s.db, Pair(j.sid, k), j.batch[k]))
  }

  predicate RowOk(db: map<Pair, string>, p: Pair, row: Option<string>) {
    if row.Some? then InDb(db, p, row.value) else p !in db
  }

  ghost predicate FetchOk(sids: SessionIds, s: State, q: Read) {
    && q.pair.sid in sids
    && (q.l1Done ==> q.fromDb)
    && (q.overlapped || InDb(s.db, q.pair, q.value) || (!q.fromDb && NotInL2(s, q.pair)))
  }

  ghost predicate OneWritePerSession(s: State) {
    forall v, w :: v in s.writes && w in s.writes && s.writes[v].sid == s.writes[w].sid ==> v == w
  }

  ghost predicate Inv(sids: SessionIds, s: State) {
    && s.inbox.Keys == s.l1.Keys
    && OneWritePerSession(s)
    && (forall w :: w in s.writes ==> WriteOk(sids, s, s.writes[w]))
    && (forall r :: r in s.fetching ==> FetchOk(sids, s, s.fetching[r]))
    && L1Coherent(sids, s)
    && L2Coherent(sids, s)
  }

  // ---------------------------------------------------------------- preservation

  /** What a step leaves of an open write. */
  lemma WriteAfter(c: Config, s: State, step: Step, w: nat)
    requires c.mode == Tcp && Enabled(c, s, step) && w in s.writes
    ensures var j, t := s.writes[w], Apply(c, s, step);
            if w in t.writes then
              var j' := t.writes[w];
              && j'.sid == j.sid && j'.batch == j.batch
              && j'.landed == (if step.RowLands? && step.w == w then j.landed[step.key := s.now] else j.landed)
              && j'.l1Left == (if step.L1Write? && step.w == w then j.l1Left - {step.key} else j.l1Left)
              && j'.l2Left == (if step.L2Write? && step.w == w then j.l2Left - {step.key} else j.l2Left)
              && j'.pubLeft == (if step.Publish? && step.w == w then j.pubLeft - {step.key} else j.pubLeft)
            else
              j.landed == map[] || (j.l2Left == {} && j.pubLeft == {})
  {
  }

  predicate Publishes(s: State, step: Step, p: Pair) {
    step.Publish? && step.w in s.writes && p == Pair(s.writes[step.w].sid, step.key)
  }

  predicate ReachesL2(s: State, step: Step, p: Pair) {
    step.L2Write? && step.w in s.writes && p == Pair(s.writes[step.w].sid, step.key)
  }

  lemma UnpublishedAfter(c: Config, s: State, step: Step, p: Pair)
    requires c.mode == Tcp && Enabled(c, s, step) && Unpublished(s, p)
    ensures Unpublished(Apply(c, s, step), p) || Publishes(s, step, p)
  {
    var w :| w in s.writes && Shows(s.writes[w], p) && p.key in s.writes[w].pubLeft;
    WriteAfter(c, s, step, w);
  }

  lemma NotInL2After(c: Config, s: State, step: Step, p: Pair)
    requires c.mode == Tcp && Enabled(c, s, step) && NotInL2(s, p)
    ensures NotInL2(Apply(c, s, step), p) || ReachesL2(s, step, p)
  {
    var w :| w in s.writes && Shows(s.writes[w], p) && p.key in s.writes[w].l2Left;
    WriteAfter(c, s, step, w);
  }

  /** What the step may do to the two kinds of excuse of a row. */
  lemma ExcusesAfter(sids: SessionIds, c: Config, s: State, step: Step, p: Pair)
    requires c.mode == Tcp && Inv(sids, s) && Enabled(c, s, step)
    ensures NotInL2(s, p) ==> Unpublished(s, p)
    ensures Unpublished(s, p) ==> Unpublished(Apply(c, s, step), p) || Publishes(s, step, p)
    ensures NotInL2(s, p) ==> NotInL2(Apply(c, s, step), p) || ReachesL2(s, step, p)
  {
    if NotInL2(s, p) {
      NotInL2After(c, s, step, p);
    }
    if Unpublished(s, p) {
      UnpublishedAfter(c, s, step, p);
    }
  }

  /** Only a landing row changes the database, and from then on its write excuses the caches. */
  lemma DbAfter(sids: SessionIds, c: Config, s: State, step: Step, p: Pair)
    requires c.mode == Tcp && Inv(sids, s) && Enabled(c, s, step) && Disciplined(sids, s, step)
    ensures var t := Apply(c, s, step);
            || ((p in s.db <==> p in t.db) && (p in s.db ==> s.db[p] == t.db[p])
                && !(step.RowLands? && step.w in s.writes && p == Pair(s.writes[step.w].sid, step.key)))
            || (step.RowLands? && step.w in s.writes && p == Pair(s.writes[step.w].sid, step.key)
                && Unpublished(t, p) && NotInL2(t, p))
  {
    if step.RowLands? {
      var t, w := Apply(c, s, step), step.w;
      assert WriteOk(sids, s, s.writes[w]);
      if p == Pair(s.writes[w].sid, step.key) {
        assert w in t.writes && Shows(t.writes[w], p) && p.key in t.writes[w].pubLeft && p.key in t.writes[w].l2Left;
      }
    }
  }

  lemma StepL1Coherent(sids: SessionIds, c: Config, s: State, step: Step)
    requires c.mode == Tcp && Inv(sids, s) && Enabled(c, s, step) && Disciplined(sids, s, step)
    ensures L1Coherent(sids, Apply(c, s, step))
  {
    var t := Apply(c, s, step);
    forall i, p: Pair | i in t.l1 && p.sid in sids && CacheKey(p) in t.l1[i]
      ensures L1EntryOk(t, i, p)
    {
      ExcusesAfter(sids, c, s, step, p);
      DbAfter(sids, c, s, step, p);
      if step.L1Write? && i == s.writes[step.w].inst && CacheKey(p) == CacheKey(Pair(s.writes[step.w].sid, step.key)) {
        assert WriteOk(sids, s, s.writes[step.w]);
        CacheKeyInjective(sids, p, Pair(s.writes[step.w].sid, step.key));
      } else if step.FillL1? && i == s.fetching[step.r].inst && CacheKey(p) == CacheKey(s.fetching[step.r].pair) {
        assert FetchOk(sids, s, s.fetching[step.r]);
        CacheKeyInjective(sids, p, s.fetching[step.r].pair);
      } else {
        L1EntryStays(sids, c, s, step, i, p);
      }
    }
  }

  lemma L1EntryWasThere(c: Config, s: State, step: Step, i: nat, ck: string)
    requires c.mode == Tcp && Enabled(c, s, step)
    requires i in Apply(c, s, step).l1 && ck in Apply(c, s, step).l1[i]
    requires !(step.L1Write? && i == s.writes[step.w].inst && ck == CacheKey(Pair(s.writes[step.w].sid, step.key)))
    requires !(step.FillL1? && i == s.fetching[step.r].inst && ck == CacheKey(s.fetching[step.r].pair))
    ensures i in s.l1 && ck in s.l1[i] && Apply(c, s, step).l1[i][ck] == s.l1[i][ck]
    ensures step.Deliver? && step.inst == i ==> ck != s.inbox[i][0]
  {
  }

  /** An entry the step did not write was there before. */
  lemma L1EntryStays(sids: SessionIds, c: Config, s: State, step: Step, i: nat, p: Pair)
    requires c.mode == Tcp && Inv(sids, s) && Enabled(c, s, step) && Disciplined(sids, s, step) && p.sid in sids
    requires i in Apply(c, s, step).l1 && CacheKey(p) in Apply(c, s, step).l1[i]
    requires !(&& step.L1Write? && i == s.writes[step.w].inst
               && CacheKey(p) == CacheKey(Pair(s.writes[step.w].sid, step.key)))
    requires !(step.FillL1? && i == s.fetching[step.r].inst && CacheKey(p) == CacheKey(s.fetching[step.r].pair))
    ensures L1EntryOk(Apply(c, s, step), i, p)
  {
    L1EntryWasThere(c, s, step, i, CacheKey(p));
    assert L1EntryOk(s, i, p);
    ExcusesAfter(sids, c, s, step, p);
    DbAfter(sids, c, s, step, p);
    if (i in s.inbox && CacheKey(p) in s.inbox[i]) || (Publishes(s, step, p) && step.ok) {
      MessageStays(c, s, step, i, p);
    }
  }

  /** A message stays in the inbox until it has dropped the entry; a publication reaches every inbox. */
  lemma MessageStays(c: Config, s: State, step: Step, i: nat, p: Pair)
    requires c.mode == Tcp && Enabled(c, s, step) && i in s.inbox
    requires CacheKey(p) in s.inbox[i] || (Publishes(s, step, p) && step.ok)
    requires step.Deliver? && step.inst == i ==> CacheKey(p) != s.inbox[i][0]
    ensures i in Apply(c, s, step).inbox && CacheKey(p) in Apply(c, s, step).inbox[i]
  {
    if step.Deliver? && step.inst == i {
      assert s.inbox[i] == [s.inbox[i][0]] + s.inbox[i][1..];
    }
  }

  lemma StepL2Coherent(sids: SessionIds, c: Config, s: State, step: Step)
    requires c.mode == Tcp && Inv(sids, s) && Enabled(c, s, step) && Disciplined(sids, s, step)
    ensures L2Coherent(sids, Apply(c, s, step))
  {
    var t := Apply(c, s, step);
    forall p: Pair | p.sid in sids && CacheKey(p) in t.l2
      ensures InDb(t.db, p, t.l2[CacheKey(p)].value) || NotInL2(t, p)
    {
      ExcusesAfter(sids, c, s, step, p);
      DbAfter(sids, c, s, step, p);
      if step.L2Write? && CacheKey(p) == CacheKey(Pair(s.writes[step.w].sid, step.key)) {
        assert WriteOk(sids, s, s.writes[step.w]);
        CacheKeyInjective(sids, p, Pair(s.writes[step.w].sid, step.key));
      } else if step.FillL2? && CacheKey(p) == CacheKey(s.fetching[step.r].pair) {
        assert FetchOk(sids, s, s.fetching[step.r]);
        CacheKeyInjective(sids, p, s.fetching[step.r].pair);
      }
    }
  }

  lemma StepFetches(sids: SessionIds, c: Config, s: State, step: Step)
    requires c.mode == Tcp && Inv(sids, s) && Enabled(c, s, step) && Disciplined(sids, s, step)
    ensures var t := Apply(c, s, step); forall r :: r in t.fetching ==> FetchOk(sids, t, t.fetching[r])
  {
    var t := Apply(c, s, step);
    forall r | r in t.fetching ensures FetchOk(sids, t, t.fetching[r]) {
      var q := t.fetching[r];
      ExcusesAfter(sids, c, s, step, q.pair);
      DbAfter(sids, c, s, step, q.pair);
      if r in s.fetching {
        FetchKept(sids, c, s, step, r);
        assert FetchOk(sids, s, s.fetching[r]);
      }
    }
  }

  /** A fetch is marked exactly by a landing of its row, and one from L2 also when the row reaches L2. */
  lemma FetchKept(sids: SessionIds, c: Config, s: State, step: Step, r: nat)
    requires c.mode == Tcp && Enabled(c, s, step) && Disciplined(sids, s, step)
    requires r in s.fetching && r in Apply(c, s, step).fetching
    ensures var q, q' := s.fetching[r], Apply(c, s, step).fetching[r];
            && q'.pair == q.pair && q'.value == q.value && q'.fromDb == q.fromDb
            && (q'.l1Done ==> q.l1Done || q.fromDb)
            && q'.overlapped ==
               (|| q.overlapped
                || (step.RowLands? && q.pair == Pair(s.writes[step.w].sid, step.key))
                || (step.L2Write? && !q.fromDb && q.pair == Pair(s.writes[step.w].sid, step.key)))
  {
  }

  lemma OneWriteStays(sids: SessionIds, c: Config, s: State, step: Step)
    requires c.mode == Tcp && OneWritePerSession(s) && Enabled(c, s, step) && Disciplined(sids, s, step)
    ensures OneWritePerSession(Apply(c, s, step))
  {
    forall w | w in s.writes {
      WriteAfter(c, s, step, w);
    }
  }

  lemma WriteStaysOk(sids: SessionIds, c: Config, s: State, step: Step, w: nat)
    requires c.mode == Tcp && Inv(sids, s) && Enabled(c, s, step) && Disciplined(sids, s, step)
    requires w in s.writes && w in Apply(c, s, step).writes
    ensures WriteOk(sids, Apply(c, s, step), Apply(c, s, step).writes[w])
  {
    var t := Apply(c, s, step);
    assert WriteOk(sids, s, s.writes[w]);
    WriteAfter(c, s, step, w);
    forall k | k in t.writes[w].landed ensures RowOk(t.db, Pair(t.writes[w].sid, k), t.writes[w].batch[k]) {
      DbAfter(sids, c, s, step, Pair(t.writes[w].sid, k));
    }
  }

  lemma StepKeepsInv(sids: SessionIds, c: Config, s: State, step: Step)
    requires c.mode == Tcp && Inv(sids, s) && Enabled(c, s, step) && Disciplined(sids, s, step)
    ensures Inv(sids, Apply(c, s, step))
  {
    OneWriteStays(sids, c, s, step);
    forall w | w in s.writes && w in Apply(c, s, step).writes
      ensures WriteOk(sids, Apply(c, s, step), Apply(c, s, step).writes[w])
    {
      WriteStaysOk(sids, c, s, step, w);
    }
    StepFetches(sids, c, s, step);
    StepL1Coherent(sids, c, s, step);
    StepL2Coherent(sids, c, s, step);
  }

  lemma {:induction false} RunKeepsInv(sids: SessionIds, c: Config, run: Run, n: nat)
    requires c.mode == Tcp && ValidRun(c, run) && DisciplinedRun(sids, run) && n < |run.states|
    ensures Inv(sids, run.states[n])
  {
    if n > 0 {
      RunKeepsInv(sids, c, run, n - 1);
      StepKeepsInv(sids, c, run.states[n - 1], run.steps[n - 1]);
    }
  }

  /**
   Coherence: in every state of every disciplined run, an L1 entry is the
   database's row unless a write of that row has landed and is not yet published
   or the instance has an undelivered invalidation of it; an L2 entry is the
   database's row unless a write of that row has landed and not yet reached L2.
   */
  lemma AlwaysCoherent(sids: SessionIds, c: Config, run: Run, n: nat)
    requires c.mode == Tcp && ValidRun(c, run) && DisciplinedRun(sids, run) && n < |run.states|
    ensures L1Coherent(sids, run.states[n]) && L2Coherent(sids, run.states[n])
  {
    RunKeepsInv(sids, c, run, n);
  }

  /** Once no write is open and every message is delivered, every cached entry is the database's row. */
  lemma SettledMeansEqual(sids: SessionIds, c: Config, run: Run, n: nat)
    requires c.mode == Tcp && ValidRun(c, run) && DisciplinedRun(sids, run) && n < |run.states|
    requires run.states[n].writes == map[]
    requires forall i :: i in run.states[n].inbox ==> run.states[n].inbox[i] == []
    ensures var s := run.states[n];
            forall p: Pair :: p.sid in sids ==>
              && (forall i :: i in s.l1 && CacheKey(p) in s.l1[i] ==> InDb(s.db, p, s.l1[i][CacheKey(p)].value))
              && (CacheKey(p) in s.l2 ==> InDb(s.db, p, s.l2[CacheKey(p)].value))
  {
    AlwaysCoherent(sids, c, run, n);
  }

  // ---------------------------------------------------------------- what the code does not give

  /** A late backfill makes its L1 entry incoherent exactly when the fetched value is no longer the database's. */
  lemma LateFillIsStale(c: Config, s: State, r: nat)
    requires c.mode == Tcp && Enabled(c, s, FillL1(r)) && LateForL1(s, s.fetching[r])
    ensures var q, t := s.fetching[r], Apply(c, s, FillL1(r));
            L1EntryOk(t, q.inst, q.pair) <==> InDb(s.db, q.pair, q.value)
  {
    var t := Apply(c, s, FillL1(r));
    assert t.writes == s.writes && t.db == s.db && t.inbox == s.inbox;
  }

  /** And so for L2. */
  lemma LateL2FillIsStale(c: Config, s: State, r: nat)
    requires c.mode == Tcp && Enabled(c, s, FillL2(r, true)) && LateForL2(s, s.fetching[r])
    ensures var q, t := s.fetching[r], Apply(c, s, FillL2(r, true));
            InDb(t.db, q.pair, t.l2[CacheKey(q.pair)].value) || NotInL2(t, q.pair) <==> InDb(s.db, q.pair, q.value)
  {
    var t := Apply(c, s, FillL2(r, true));
    assert t.writes == s.writes && t.db == s.db;
  }

  /** `longer` goes n disciplined steps further. */
  ghost predicate Grows(sids: SessionIds, c: Config, run: Run, longer: Run, n: nat) {
    && |run.states| == |run.steps| + 1 && |longer.states| == |longer.steps| + 1
    && |longer.steps| == |run.steps| + n && run.states <= longer.states
    && (ValidRun(c, run) && DisciplinedRun(sids, run) ==> ValidRun(c, longer) && DisciplinedRun(sids, longer))
  }

  lemma GrowsOn(sids: SessionIds, c: Config, run: Run, longer: Run, longest: Run, n: nat, m: nat)
    requires Grows(sids, c, run, longer, n) && Grows(sids, c, longer, longest, m)
    ensures Grows(sids, c, run, longest, n + m)
  {
  }

  lemma Then(sids: SessionIds, c: Config, run: Run, step: Step) returns (longer: Run)
    requires |run.states| == |run.steps| + 1
    requires Enabled(c, Last(run), step) && Disciplined(sids, Last(run), step)
    ensures Grows(sids, c, run, longer, 1) && Last(longer) == Apply(c, Last(run), step)
  {
    longer := Run(run.states + [Apply(c, Last(run), step)], run.steps + [step]);
  }

  /**
   Between the landing of write w and the backfill of read r: the read holds the
   value the row had in state s, the database the new one.
   */
  ghost predicate Racing(s: State, t: State, q: Read, value: string, r: nat, w: nat, j: Write) {
    && t.db == s.db[q.pair := value] && r in t.fetching && t.fetching[r] == q && t.writes == s.writes[w := j]
    && t.l1.Keys == s.l1.Keys && t.inbox.Keys == s.inbox.Keys
    && w !in s.writes && q.inst in s.l1 && j.inst == q.inst && j.sid == q.pair.sid
    && j.batch == map[q.pair.key := Some(value)] && j.landed.Keys == {q.pair.key} == j.batch.Keys
  }

  /** The instance can read the row, and no write of its session is open. */
  ghost predicate Untouched(s: State, i: nat, pair: Pair) {
    i in s.l1 && pair in s.db && forall v :: v in s.writes ==> s.writes[v].sid != pair.sid
  }

  /** The read fetches, and the write begins. */
  lemma RaceBegins(sids: SessionIds, c: Config, run: Run, i: nat, pair: Pair, value: string, r: nat, w: nat)
    returns (longer: Run)
    requires |run.states| == |run.steps| + 1 && pair.sid in sids
    requires Untouched(Last(run), i, pair) && r !in Last(run).fetching && w !in Last(run).writes
    ensures Grows(sids, c, run, longer, 2)
    ensures var s, batch, keys := Last(run), map[pair.key := Some(value)], {pair.key};
            Last(longer) == s.(fetching := s.fetching[r := Read(i, pair, s.db[pair], s.now, true, false, false)],
                               writes := s.writes[w := Write(i, pair.sid, batch, map[], keys, keys, keys)])
  {
    var batch := map[pair.key := Some(value)];
    assert batch.Keys == {pair.key};
    var fetched := Then(sids, c, run, FetchDb(r, i, pair));
    longer := Then(sids, c, fetched, BeginWrite(w, i, pair.sid, batch));
  }

  /** And then the write lands. */
  lemma RaceLands(sids: SessionIds, c: Config, run: Run, i: nat, pair: Pair, value: string)
    returns (longer: Run, q: Read, r: nat, w: nat, j: Write)
    requires |run.states| == |run.steps| + 1 && pair.sid in sids
    requires Untouched(Last(run), i, pair)
    ensures Grows(sids, c, run, longer, 3) && Last(longer).inbox == Last(run).inbox
    ensures q == Read(i, pair, Last(run).db[pair], Last(run).now, true, false, true)
    ensures Racing(Last(run), Last(longer), q, value, r, w, j)
    ensures j.l1Left == j.l2Left == j.pubLeft == {pair.key}
  {
    r := UnusedNumber(Last(run).fetching.Keys);
    w := UnusedNumber(Last(run).writes.Keys);
    var begun := RaceBegins(sids, c, run, i, pair, value, r, w);
    longer := Then(sids, c, begun, RowLands(w, pair.key));
    q := Last(longer).fetching[r];
    j := Last(longer).writes[w];
  }

  lemma RaceL1(sids: SessionIds, c: Config, run: Run, s: State, q: Read, value: string, r: nat, w: nat, j: Write)
    returns (longer: Run)
    requires c.mode == Tcp && |run.states| == |run.steps| + 1 && Racing(s, Last(run), q, value, r, w, j)
    requires j.l1Left == {q.pair.key}
    ensures Grows(sids, c, run, longer, 1) && Racing(s, Last(longer), q, value, r, w, j.(l1Left := {}))
    ensures Last(longer).inbox == Last(run).inbox
  {
    assert j.l1Left - {q.pair.key} == {};
    longer := Then(sids, c, run, L1Write(w, q.pair.key));
  }

  lemma RaceL2(sids: SessionIds, c: Config, run: Run, s: State, q: Read, value: string, r: nat, w: nat, j: Write)
    returns (longer: Run)
    requires c.mode == Tcp && |run.states| == |run.steps| + 1 && Racing(s, Last(run), q, value, r, w, j)
    requires q.fromDb && j.l1Left == {} && j.l2Left == {q.pair.key}
    ensures Grows(sids, c, run, longer, 1) && Racing(s, Last(longer), q, value, r, w, j.(l2Left := {}))
    ensures Last(longer).inbox == Last(run).inbox
  {
    assert j.l2Left - {q.pair.key} == {};
    longer := Then(sids, c, run, L2Write(w, q.pair.key, true));
  }

  lemma RaceChannel(sids: SessionIds, c: Config, run: Run, s: State, q: Read, value: string, r: nat, w: nat, j: Write)
    returns (longer: Run)
    requires c.mode == Tcp && |run.states| == |run.steps| + 1 && Racing(s, Last(run), q, value, r, w, j)
    requires j.l1Left == j.l2Left == {} && j.pubLeft == {q.pair.key}
    ensures Grows(sids, c, run, longer, 1) && Racing(s, Last(longer), q, value, r, w, j.(pubLeft := {}))
    ensures forall n :: n in s.inbox ==> Last(longer).inbox[n] == Last(run).inbox[n] + [CacheKey(q.pair)]
  {
    assert j.pubLeft - {q.pair.key} == {};
    longer := Then(sids, c, run, Publish(w, q.pair.key, true));
  }

  /** The write goes through L1, L2 and the channel. */
  lemma RacePublishes(sids: SessionIds, c: Config, run: Run, s: State, q: Read, value: string, r: nat, w: nat, j: Write)
    returns (longer: Run, sent: Write)
    requires c.mode == Tcp && |run.states| == |run.steps| + 1 && Racing(s, Last(run), q, value, r, w, j)
    requires q.fromDb && j.l1Left == j.l2Left == j.pubLeft == {q.pair.key}
    ensures Grows(sids, c, run, longer, 3) && Racing(s, Last(longer), q, value, r, w, sent)
    ensures sent.l1Left == sent.l2Left == sent.pubLeft == {}
    ensures forall n :: n in s.inbox ==> Last(longer).inbox[n] == Last(run).inbox[n] + [CacheKey(q.pair)]
  {
    var one := RaceL1(sids, c, run, s, q, value, r, w, j);
    var two := RaceL2(sids, c, one, s, q, value, r, w, j.(l1Left := {}));
    GrowsOn(sids, c, run, one, two, 1, 1);
    longer := RaceChannel(sids, c, two, s, q, value, r, w, j.(l1Left := {}, l2Left := {}));
    GrowsOn(sids, c, run, two, longer, 2, 1);
    sent := j.(l1Left := {}, l2Left := {}, pubLeft := {});
  }

  /** The write ends and its message reaches the reading instance, which had none before. */
  lemma RaceSettles(sids: SessionIds, c: Config, run: Run, s: State, q: Read, value: string, r: nat, w: nat, j: Write)
    returns (longer: Run)
    requires c.mode == Tcp && |run.states| == |run.steps| + 1 && Racing(s, Last(run), q, value, r, w, j)
    requires j.l1Left == j.l2Left == j.pubLeft == {}
    requires q.inst in s.inbox && Last(run).inbox[q.inst] == [CacheKey(q.pair)]
    ensures Grows(sids, c, run, longer, 2)
    ensures var t := Last(longer);
            && t.db == s.db[q.pair := value] && r in t.fetching && t.fetching[r] == q && t.writes == s.writes
            && q.inst in t.l1 && q.inst in t.inbox && t.inbox[q.inst] == []
  {
    var ended := Then(sids, c, run, EndWrite(w));
    assert Last(ended).writes == s.writes;
    longer := Then(sids, c, ended, Deliver(q.inst));
  }

  /**
   Late backfills do happen, and last: from every state a disciplined run reaches,
   an instance without messages may fetch a row that no open write touches, a whole write of
   it goes through all levels and its message is delivered, and then the read
   backfills the old value. Only this last step breaks a condition, the write and
   its message are done with, and the entry is not the database's.
   */
  lemma LateBackfillLeavesStaleEntry(sids: SessionIds, c: Config, run: Run, i: nat, pair: Pair, value: string)
    returns (longer: Run, late: Run)
    requires c.mode == Tcp && ValidRun(c, run) && DisciplinedRun(sids, run) && pair.sid in sids
    requires Untouched(Last(run), i, pair) && Last(run).db[pair] != value
    requires i in Last(run).inbox && Last(run).inbox[i] == []
    ensures ValidRun(c, longer) && DisciplinedRun(sids, longer) && run.states <= longer.states
    ensures ValidRun(c, late) && longer.states <= late.states
    ensures |late.steps| == |longer.steps| + 1 && longer.steps <= late.steps && late.steps[|longer.steps|].FillL1?
    ensures var s, t := Last(run), Last(late);
            && t.writes == s.writes && i in t.inbox && t.inbox[i] == [] && t.db == s.db[pair := value]
            && i in t.l1 && CacheKey(pair) in t.l1[i] && t.l1[i][CacheKey(pair)].value == s.db[pair]
            && !L1EntryOk(t, i, pair)
  {
    var s := Last(run);
    var landed, q, r, w, j := RaceLands(sids, c, run, i, pair, value);
    var published, sent := RacePublishes(sids, c, landed, s, q, value, r, w, j);
    assert [] + [CacheKey(pair)] == [CacheKey(pair)];
    longer := RaceSettles(sids, c, published, s, q, value, r, w, sent);
    LateFillIsStale(c, Last(longer), r);
    late := Extend(c, longer, FillL1(r));
  }
}
