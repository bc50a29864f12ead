/** The write path under its lock: lock and storage protocol side by side, in any interleaving. */
module LockedWrites {
  // A write of a session begins inside that session's lock and its lock call leaves
  // only when the write is over, as `withLock(sessionId, ...)` around the batch and
  // its cache updates does it. The two protocols keep separate clocks, so nothing
  // depends on how they relate.

  import opened Wrappers
  import opened CacheKeys
  import Lock = RedisLock
  import Protocol = StorageProtocol
  import opened Coherence

  function LockKey(sid: string): string {
    "baileys-auth:lock:" + sid
  }

  /** Different sessions have different locks. */
  lemma SessionsLockApart(a: string, b: string)
    ensures LockKey(a) == LockKey(b) <==> a == b
  {
    var prefix := "baileys-auth:lock:";
    assert LockKey(a)[|prefix|..] == a && LockKey(b)[|prefix|..] == b;
  }

  datatype Step = OfLock(lockStep: Lock.Step) | OfStorage(step: Protocol.Step)
  datatype State = State(lock: Lock.State, storage: Protocol.State)

  /** Write number w of the storage protocol runs inside call number w of the lock. */
  ghost predicate InsideItsLock(lock: Lock.State, w: nat, sid: string) {
    w in lock.calls && lock.calls[w].phase == Lock.Inside && lock.calls[w].key == LockKey(sid)
  }

  ghost predicate Enabled(c: Protocol.Config, s: State, step: Step) {
    match step
    case OfLock(lockStep) => Lock.Enabled(s.lock, lockStep) && (lockStep.Leave? ==> lockStep.c !in s.storage.writes)
    case OfStorage(step) =>
      && Protocol.Enabled(c, s.storage, step)
      && (step.BeginWrite? ==> InsideItsLock(s.lock, step.w, step.sid))
  }

  ghost function Apply(c: Protocol.Config, s: State, step: Step, ttlMs: int): State
    requires Enabled(c, s, step)
  {
    match step
    case OfLock(lockStep) => s.(lock := Lock.Apply(s.lock, lockStep, ttlMs))
    case OfStorage(step) => s.(storage := Protocol.Apply(c, s.storage, step))
  }

  /** Nothing else is restricted: a write waits only for its lock, and a lock call only for its write. */
  lemma OnlyWritesWait(c: Protocol.Config, s: State, step: Protocol.Step, lockStep: Lock.Step)
    requires Protocol.Enabled(c, s.storage, step) && Lock.Enabled(s.lock, lockStep)
    ensures Enabled(c, s, OfStorage(step)) <==>
            (step.BeginWrite? ==> step.w in s.lock.calls && s.lock.calls[step.w].phase == Lock.Inside
                                  && s.lock.calls[step.w].key == "baileys-auth:lock:" + step.sid)
    ensures Enabled(c, s, OfLock(lockStep)) <==> (lockStep.Leave? ==> lockStep.c !in s.storage.writes)
  {
  }

  datatype Run = Run(states: seq<State>, steps: seq<Step>)

  ghost predicate ValidRun(c: Protocol.Config, run: Run, ttlMs: int) {
    && |run.states| == |run.steps| + 1
    && run.states[0].lock.redis == map[] && run.states[0].lock.calls == map[]
    && Protocol.Initial(run.states[0].storage)
    && (forall i :: 0 <= i < |run.steps| ==>
          Enabled(c, run.states[i], run.steps[i]) && run.states[i + 1] == Apply(c, run.states[i], run.steps[i], ttlMs))
  }

  /** What is still assumed of single steps: everything `Disciplined` asks, except that writes are serialised. */
  ghost predicate Tame(sids: SessionIds, s: Protocol.State, step: Protocol.Step) {
    if step.BeginWrite? then Protocol.StepIn(sids, step) else Disciplined(sids, s, step)
  }

  /** No section outlives its lease, and the storage steps are tame. */
  ghost predicate TameRun(sids: SessionIds, run: Run) {
    && (forall i :: 0 <= i < |run.states| ==> Lock.InsideLease(run.states[i].lock))
    && (forall i :: 0 <= i < |run.steps| && i < |run.states| && run.steps[i].OfStorage? ==>
          Tame(sids, run.states[i].storage, run.steps[i].step))
  }

  // ---------------------------------------------------------------- the invariant

  ghost predicate AllLocked(s: State) {
    forall w :: w in s.storage.writes ==> InsideItsLock(s.lock, w, s.storage.writes[w].sid)
  }

  ghost predicate LockedInv(sids: SessionIds, s: State) {
    Lock.Inv(s.lock) && AllLocked(s) && Coherence.Inv(sids, s.storage)
  }

  /** A write that begins inside its lock finds no other open write of its session. */
  lemma BeginInsideLockIsDisciplined(sids: SessionIds, s: State, w: nat, inst: nat, sid: string,
                                     batch: map<string, Option<string>>)
    requires Lock.Inv(s.lock) && Lock.InsideLease(s.lock) && AllLocked(s)
    requires InsideItsLock(s.lock, w, sid) && w !in s.storage.writes
    requires Protocol.StepIn(sids, Protocol.BeginWrite(w, inst, sid, batch))
    ensures Disciplined(sids, s.storage, Protocol.BeginWrite(w, inst, sid, batch))
  {
    forall v | v in s.storage.writes ensures s.storage.writes[v].sid != sid {
      assert InsideItsLock(s.lock, v, s.storage.writes[v].sid);
      if s.storage.writes[v].sid == sid {
        assert Lock.Leased(s.lock, v) && Lock.Leased(s.lock, w);
      }
    }
  }

  lemma StepKeepsInv(sids: SessionIds, c: Protocol.Config, s: State, step: Step, ttlMs: int)
    requires c.mode == Tcp && LockedInv(sids, s) && Lock.InsideLease(s.lock) && Enabled(c, s, step)
    requires step.OfStorage? ==> Tame(sids, s.storage, step.step)
    ensures LockedInv(sids, Apply(c, s, step, ttlMs))
  {
    match step
    case OfLock(lockStep) =>
      Lock.StepKeepsInv(s.lock, lockStep, ttlMs);
    case OfStorage(step) =>
      if step.BeginWrite? {
        BeginInsideLockIsDisciplined(sids, s, step.w, step.inst, step.sid, step.batch);
      }
      Coherence.StepKeepsInv(sids, c, s.storage, step);
  }

  lemma {:induction false} RunKeepsInv(sids: SessionIds, c: Protocol.Config, run: Run, ttlMs: int, n: nat)
    requires c.mode == Tcp && ValidRun(c, run, ttlMs) && TameRun(sids, run) && n < |run.states|
    ensures LockedInv(sids, run.states[n])
  {
    if n > 0 {
      RunKeepsInv(sids, c, run, ttlMs, n - 1);
      StepKeepsInv(sids, c, run.states[n - 1], run.steps[n - 1], ttlMs);
    }
  }

  /**
   Coherence of locked writes: in every state of every joint run in which no
   section outlives its lease, each cached entry is the database's row unless a
   write of it is on its way up, and no two writes of one session are open at once.
   */
  lemma LockedRunsAreCoherent(sids: SessionIds, c: Protocol.Config, run: Run, ttlMs: int, n: nat)
    requires c.mode == Tcp && ValidRun(c, run, ttlMs) && TameRun(sids, run) && n < |run.states|
    ensures L1Coherent(sids, run.states[n].storage) && L2Coherent(sids, run.states[n].storage)
    ensures OneWritePerSession(run.states[n].storage)
  {
    RunKeepsInv(sids, c, run, ttlMs, n);
  }
}
