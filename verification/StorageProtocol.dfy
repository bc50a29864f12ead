/** The storage protocol as a step system: any number of instances, one Redis, one database. */
module StorageProtocol {
  // Each instance has its own L1; invalidation messages are in flight between them.
  // Every stretch of code between two awaits is one step, and every request to Redis
  // or to the database takes effect as a step of its own, so all interleavings of
  // reads and writes are runs of this system.
  //
  // A `set` into L1 may evict other entries; here that is a write followed by
  // `ShrinkL1`, which also stands for expiry, sweeps and cleared sessions. The
  // modules L1Simulation and ManagerSimulation show that this covers every operation
  // of the real L1 and of the cache manager.

  import opened Wrappers
  import opened CacheKeys

  datatype Config = Config(mode: Mode, ttlMs: int)

  /** `seenAt` is the moment at which the database held the value. */
  datatype L1Entry = L1Entry(value: string, expiresAt: int, seenAt: int)
  datatype L2Entry = L2Entry(value: string, seenAt: int)

  /**
   One locked section of the write path: rows go to the database, then each row
   to L1, then to L2, then its invalidation is published. `None` deletes a row.
   `landed` gives the moment a row reached the database; the three sets hold the
   keys whose later steps are still to come.
   */
  datatype Write = Write(
    inst: nat, sid: string, batch: map<string, Option<string>>,
    landed: map<string, int>, l1Left: set<string>, l2Left: set<string>, pubLeft: set<string>)

  /**
   A read that missed L1 and has fetched its value. `overlapped` becomes true when
   a write of the same row lands in the database meanwhile, or reaches L2 after the
   read took its value from there.
   */
  datatype Read = Read(
    inst: nat, pair: Pair, value: string, seenAt: int, fromDb: bool, l1Done: bool, overlapped: bool)

  datatype State = State(
    now: int,
    db: map<Pair, string>,
    l1: map<nat, map<string, L1Entry>>,
    l2: map<string, L2Entry>,
    inbox: map<nat, seq<string>>,
    fetching: map<nat, Read>,
    writes: map<nat, Write>)

  datatype Step =
    | Tick(d: nat)
    | BeginWrite(w: nat, inst: nat, sid: string, batch: map<string, Option<string>>)
    | RowLands(w: nat, key: string)
    | AbandonWrite(w: nat)
    | L1Write(w: nat, key: string)
    | L2Write(w: nat, key: string, ok: bool)
    | Publish(w: nat, key: string, ok: bool)
    | EndWrite(w: nat)
    | Hit(inst: nat, pair: Pair)
    | FetchL2(r: nat, inst: nat, pair: Pair)
    | FetchDb(r: nat, inst: nat, pair: Pair)
    | FillL1(r: nat)
    | FillL2(r: nat, ok: bool)
    | Deliver(inst: nat)
    | ShrinkL1(inst: nat, gone: set<string>)
    | LoseL2(key: string)
    | External(pair: Pair, row: Option<string>)

  ghost predicate Initial(s: State) {
    && s.l2 == map[] && s.fetching == map[] && s.writes == map[]
    && s.inbox.Keys == s.l1.Keys
    && (forall i :: i in s.l1 ==> s.l1[i] == map[] && s.inbox[i] == [])
  }

  ghost predicate Enabled(c: Config, s: State, step: Step) {
    match step
    case Tick(_) => true
    case BeginWrite(w, inst, _, batch) => w !in s.writes && inst in s.l1 && batch != map[]
    case RowLands(w, key) => w in s.writes && key in s.writes[w].batch && key !in s.writes[w].landed
    case AbandonWrite(w) => w in s.writes && s.writes[w].landed == map[]
    case L1Write(w, key) =>
      && w in s.writes && s.writes[w].inst in s.l1
      && s.writes[w].landed.Keys == s.writes[w].batch.Keys && key in s.writes[w].l1Left && key in s.writes[w].batch
    case L2Write(w, key, _) =>
      && c.mode != NoRedis && w in s.writes && key in s.writes[w].batch && key in s.writes[w].landed
      && key in s.writes[w].l2Left && key !in s.writes[w].l1Left
    case Publish(w, key, _) =>
      && c.mode == Tcp && w in s.writes
      && key in s.writes[w].pubLeft && key !in s.writes[w].l2Left && key !in s.writes[w].l1Left
    case EndWrite(w) =>
      && w in s.writes && s.writes[w].landed.Keys == s.writes[w].batch.Keys
      && s.writes[w].l1Left == {} && s.writes[w].l2Left == {} && s.writes[w].pubLeft == {}
    case Hit(inst, pair) =>
      inst in s.l1 && CacheKey(pair) in s.l1[inst] && s.now < s.l1[inst][CacheKey(pair)].expiresAt
    case FetchL2(r, inst, pair) => c.mode != NoRedis && r !in s.fetching && inst in s.l1 && CacheKey(pair) in s.l2
    case FetchDb(r, inst, pair) => r !in s.fetching && inst in s.l1 && pair in s.db
    case FillL1(r) => r in s.fetching && !s.fetching[r].l1Done && s.fetching[r].inst in s.l1
    case FillL2(r, _) => r in s.fetching && s.fetching[r].l1Done
    case Deliver(inst) => inst in s.l1 && inst in s.inbox && s.inbox[inst] != []
    case ShrinkL1(inst, _) => inst in s.l1
    case LoseL2(_) => true
    case External(_, _) => true
  }

  function PutRow(db: map<Pair, string>, pair: Pair, row: Option<string>): map<Pair, string> {
    if row.Some? then db[pair := row.value] else db - {pair}
  }

  /** Marks the reads in flight for a row. */
  function Overlap(fetching: map<nat, Read>, pair: Pair): map<nat, Read> {
    map r | r in fetching :: if fetching[r].pair == pair then fetching[r].(overlapped := true) else fetching[r]
  }

  /** Marks the reads in flight that took the row from L2. */
  function OverlapL2(fetching: map<nat, Read>, pair: Pair): map<nat, Read> {
    map r | r in fetching ::
      if fetching[r].pair == pair && !fetching[r].fromDb then fetching[r].(overlapped := true) else fetching[r]
  }

  function WithL1(s: State, inst: nat, l1: map<string, L1Entry>): State {
    s.(l1 := s.l1[inst := l1])
  }

  ghost function Apply(c: Config, s: State, step: Step): State
    requires Enabled(c, s, step)
  {
    match step
    case Tick(d) => s.(now := s.now + d)
    case BeginWrite(w, inst, sid, batch) =>
      s.(writes := s.writes[w := Write(inst, sid, batch, map[], batch.Keys, batch.Keys, batch.Keys)])
    case RowLands(w, key) =>
      var j := s.writes[w];
      var pair := Pair(j.sid, key);
      s.(db := PutRow(s.db, pair, j.batch[key]),
         fetching := Overlap(s.fetching, pair),
         writes := s.writes[w := j.(landed := j.landed[key := s.now])])
    case AbandonWrite(w) => s.(writes := s.writes - {w})
    case L1Write(w, key) =>
      var j := s.writes[w];
      var ck := CacheKey(Pair(j.sid, key));
      var level := s.l1[j.inst];
      var j' := j.(l1Left := j.l1Left - {key});
      WithL1(s, j.inst,
             if j.batch[key].Some?
             then level[ck := L1Entry(j.batch[key].value, s.now + c.ttlMs, j.landed[key])]
             else level - {ck})
      .(writes := s.writes[w := if c.mode == NoRedis
                                then j'.(l2Left := j.l2Left - {key}, pubLeft := j.pubLeft - {key})
                                else j'])
    case L2Write(w, key, ok) =>
      var j := s.writes[w];
      var ck := CacheKey(Pair(j.sid, key));
      var j' := j.(l2Left := j.l2Left - {key});
      s.(l2 := if !ok then s.l2
               else if j.batch[key].Some? then s.l2[ck := L2Entry(j.batch[key].value, j.landed[key])]
               else s.l2 - {ck},
         fetching := OverlapL2(s.fetching, Pair(j.sid, key)),
         writes := s.writes[w := if c.mode == Tcp then j' else j'.(pubLeft := j.pubLeft - {key})])
    case Publish(w, key, ok) =>
      var j := s.writes[w];
      s.(inbox := if ok then map i | i in s.inbox :: s.inbox[i] + [CacheKey(Pair(j.sid, key))] else s.inbox,
         writes := s.writes[w := j.(pubLeft := j.pubLeft - {key})])
    case EndWrite(w) => s.(writes := s.writes - {w})
    case Hit(_, _) => s
    case FetchL2(r, inst, pair) =>
      var e := s.l2[CacheKey(pair)];
      s.(fetching := s.fetching[r := Read(inst, pair, e.value, e.seenAt, false, false, false)])
    case FetchDb(r, inst, pair) =>
      s.(fetching := s.fetching[r := Read(inst, pair, s.db[pair], s.now, true, false, false)])
    case FillL1(r) =>
      var q := s.fetching[r];
      WithL1(s, q.inst, s.l1[q.inst][CacheKey(q.pair) := L1Entry(q.value, s.now + c.ttlMs, q.seenAt)])
      .(fetching := if q.fromDb && c.mode != NoRedis then s.fetching[r := q.(l1Done := true)] else s.fetching - {r})
    case FillL2(r, ok) =>
      var q := s.fetching[r];
      s.(l2 := if ok then s.l2[CacheKey(q.pair) := L2Entry(q.value, q.seenAt)] else s.l2,
         fetching := s.fetching - {r})
    case Deliver(inst) =>
      WithL1(s, inst, s.l1[inst] - {s.inbox[inst][0]}).(inbox := s.inbox[inst := s.inbox[inst][1..]])
    case ShrinkL1(inst, gone) => WithL1(s, inst, s.l1[inst] - gone)
    case LoseL2(key) => s.(l2 := s.l2 - {key})
    case External(pair, row) => s.(db := PutRow(s.db, pair, row), fetching := Overlap(s.fetching, pair))
  }

  /** What a step hands back to the caller of `get`, if it ends one with a value. */
  ghost function Answer(c: Config, s: State, step: Step): Option<(Pair, string)>
    requires Enabled(c, s, step)
  {
    match step
    case Hit(inst, pair) => Some((pair, s.l1[inst][CacheKey(pair)].value))
    case FillL1(r) =>
      if s.fetching[r].fromDb && c.mode != NoRedis then None else Some((s.fetching[r].pair, s.fetching[r].value))
    case FillL2(r, _) => Some((s.fetching[r].pair, s.fetching[r].value))
    case _ => None
  }

  /** The session a step names, if any. */
  function SessionOf(step: Step): Option<string> {
    match step
    case BeginWrite(_, _, sid, _) => Some(sid)
    case Hit(_, pair) => Some(pair.sid)
    case FetchL2(_, _, pair) => Some(pair.sid)
    case FetchDb(_, _, pair) => Some(pair.sid)
    case _ => None
  }

  ghost predicate StepIn(sids: iset<string>, step: Step) {
    SessionOf(step).Some? ==> SessionOf(step).value in sids
  }

  /** The environment is free: time passes, L2 loses entries and others write the database at any moment. */
  lemma EnvironmentIsFree(c: Config, s: State, d: nat, key: string, pair: Pair, row: Option<string>)
    ensures Enabled(c, s, Tick(d)) && Apply(c, s, Tick(d)) == s.(now := s.now + d)
    ensures Enabled(c, s, LoseL2(key)) && Apply(c, s, LoseL2(key)) == s.(l2 := s.l2 - {key})
    ensures Enabled(c, s, External(pair, row))
    ensures var t := Apply(c, s, External(pair, row));
            && (forall p :: p != pair ==> (p in t.db <==> p in s.db) && (p in t.db ==> t.db[p] == s.db[p]))
            && (if row.Some? then pair in t.db && t.db[pair] == row.value else pair !in t.db)
            && t.l1 == s.l1 && t.l2 == s.l2 && t.inbox == s.inbox
  {
  }

  /** A write that fails before any row has landed is gone without a trace. */
  lemma FailedWriteLeavesNothing(c: Config, s: State, w: nat)
    requires w in s.writes && s.writes[w].landed == map[]
    ensures Enabled(c, s, AbandonWrite(w)) && Apply(c, s, AbandonWrite(w)) == s.(writes := s.writes - {w})
  {
  }

  // ---------------------------------------------------------------- runs

  /** `states[i + 1]` is the result of `steps[i]` in `states[i]`. */
  datatype Run = Run(states: seq<State>, steps: seq<Step>)

  ghost predicate ValidRun(c: Config, run: Run) {
    && |run.states| == |run.steps| + 1
    && Initial(run.states[0])
    && (forall i :: 0 <= i < |run.steps| ==>
          Enabled(c, run.states[i], run.steps[i]) && run.states[i + 1] == Apply(c, run.states[i], run.steps[i]))
  }

  /** The state a run has reached. */
  function Last(run: Run): State
    requires |run.states| == |run.steps| + 1
  {
    run.states[|run.steps|]
  }

  lemma Extend(c: Config, run: Run, step: Step) returns (longer: Run)
    requires ValidRun(c, run) && Enabled(c, Last(run), step)
    ensures ValidRun(c, longer) && longer.steps == run.steps + [step]
    ensures longer.states == run.states + [Apply(c, Last(run), step)]
  {
    longer := Run(run.states + [Apply(c, Last(run), step)], run.steps + [step]);
  }

  /** All reads and writes of the run are for these sessions. */
  ghost predicate RunIn(sids: iset<string>, run: Run) {
    forall i :: 0 <= i < |run.steps| ==> StepIn(sids, run.steps[i])
  }
}
