/** The distributed lock (src/lock/redis-lock.ts), for any number of callers. */
module RedisLock {
  // SET NX PX to acquire, polling every 50 ms, and a compare-and-delete script to
  // release. Requests and replies travel: a caller enters its section some time after
  // its SET took effect and its release takes effect some time after it left.

  import opened Wrappers

  const RETRY_DELAY_MS := 50

  /** What Redis holds under a lock key: the token and when it expires. */
  datatype Row = Row(token: nat, expiresAt: int)

  /**
   One `withLock` call; its token is its own number. `Trying` until a SET
   succeeds at Redis, `Granted` until the reply arrives, `Inside` while `fn`
   runs, `Leaving` until the release script has run at Redis or was lost.
   */
  datatype Phase = Trying | Granted | Inside | Leaving | Done
  datatype Call = Call(key: string, phase: Phase, leaseEnd: int)

  datatype State = State(now: int, redis: map<string, Row>, calls: map<nat, Call>)

  datatype Step =
    | Tick(d: nat)
    | Begin(c: nat, key: string)
    | TrySet(c: nat)
    | GiveUp(c: nat)
    | Enter(c: nat)
    | Leave(c: nat)
    | Release(c: nat, lost: bool)

  predicate Held(s: State, key: string) {
    key in s.redis && s.now < s.redis[key].expiresAt
  }

  predicate Enabled(s: State, step: Step) {
    match step
    case Tick(_) => true
    case Begin(c, _) => c !in s.calls
    case TrySet(c) => c in s.calls && s.calls[c].phase == Trying
    case GiveUp(c) => c in s.calls && s.calls[c].phase == Trying
    case Enter(c) => c in s.calls && s.calls[c].phase == Granted
    case Leave(c) => c in s.calls && s.calls[c].phase == Inside
    case Release(c, _) => c in s.calls && s.calls[c].phase == Leaving
  }

  /** The Lua script: delete only if the stored token is ours. */
  function CompareAndDelete(redis: map<string, Row>, key: string, token: nat, now: int): map<string, Row> {
    if key in redis && now < redis[key].expiresAt && redis[key].token == token then redis - {key} else redis
  }

  function Apply(s: State, step: Step, ttlMs: int): State
    requires Enabled(s, step)
  {
    match step
    case Tick(d) => s.(now := s.now + d)
    case Begin(c, key) => s.(calls := s.calls[c := Call(key, Trying, 0)])
    case TrySet(c) =>
      var call := s.calls[c];
      if Held(s, call.key) then s
      else s.(redis := s.redis[call.key := Row(c, s.now + ttlMs)],
              calls := s.calls[c := call.(phase := Granted, leaseEnd := s.now + ttlMs)])
    case GiveUp(c) => s.(calls := s.calls[c := s.calls[c].(phase := Done)])
    case Enter(c) => s.(calls := s.calls[c := s.calls[c].(phase := Inside)])
    case Leave(c) => s.(calls := s.calls[c := s.calls[c].(phase := Leaving)])
    case Release(c, lost) =>
      s.(redis := if lost then s.redis else CompareAndDelete(s.redis, s.calls[c].key, c, s.now),
         calls := s.calls[c := s.calls[c].(phase := Done)])
  }

  datatype Run = Run(states: seq<State>, steps: seq<Step>)

  ghost predicate ValidRun(run: Run, ttlMs: int) {
    && |run.states| == |run.steps| + 1
    && run.states[0].redis == map[] && run.states[0].calls == map[]
    && (forall i :: 0 <= i < |run.steps| ==>
          Enabled(run.states[i], run.steps[i]) && run.states[i + 1] == Apply(run.states[i], run.steps[i], ttlMs))
  }

  // ---------------------------------------------------------------- lease safety

  predicate Leased(s: State, c: nat) {
    c in s.calls && s.calls[c].phase in {Granted, Inside, Leaving} && s.now < s.calls[c].leaseEnd
  }

  /** A caller with an unexpired lease is exactly the caller whose row Redis holds. */
  ghost predicate Inv(s: State) {
    && (forall c :: Leased(s, c) ==>
          s.calls[c].key in s.redis && s.redis[s.calls[c].key] == Row(c, s.calls[c].leaseEnd))
    && (forall k :: k in s.redis ==> s.redis[k].token in s.calls && s.calls[s.redis[k].token].phase != Trying)
  }

  lemma StepKeepsInv(s: State, step: Step, ttlMs: int)
    requires Inv(s) && Enabled(s, step)
    ensures Inv(Apply(s, step, ttlMs))
  {
    var t := Apply(s, step, ttlMs);
    forall c | Leased(t, c)
      ensures t.calls[c].key in t.redis && t.redis[t.calls[c].key] == Row(c, t.calls[c].leaseEnd)
    {
      if !(step.TrySet? && step.c == c) {
        assert Leased(s, c);
      }
    }
  }

  lemma {:induction false} RunKeepsInv(run: Run, ttlMs: int, n: nat)
    requires ValidRun(run, ttlMs) && n < |run.states|
    ensures Inv(run.states[n])
  {
    if n > 0 {
      RunKeepsInv(run, ttlMs, n - 1);
      StepKeepsInv(run.states[n - 1], run.steps[n - 1], ttlMs);
    }
  }

  /** At every moment of every run at most one call holds an unexpired lease of a key. */
  lemma OneLeasePerKey(run: Run, ttlMs: int, n: nat, c: nat, d: nat)
    requires ValidRun(run, ttlMs) && n < |run.states|
    requires Leased(run.states[n], c) && Leased(run.states[n], d)
    requires run.states[n].calls[c].key == run.states[n].calls[d].key
    ensures c == d
  {
    RunKeepsInv(run, ttlMs, n);
  }

  /** A release, however late, leaves every other call's lease and Redis row in place. */
  lemma ReleaseSparesSuccessors(run: Run, ttlMs: int, n: nat, d: nat)
    requires ValidRun(run, ttlMs) && n < |run.steps| && run.steps[n].Release? && run.steps[n].c != d
    requires Leased(run.states[n], d)
    ensures Leased(run.states[n + 1], d)
    ensures var key := run.states[n].calls[d].key;
            key in run.states[n + 1].redis && run.states[n + 1].redis[key] == run.states[n].redis[key]
    ensures run.states[n + 1].redis[run.states[n].calls[d].key].token == d
  {
    RunKeepsInv(run, ttlMs, n);
    RunKeepsInv(run, ttlMs, n + 1);
  }

  /** A SET takes the key, for a whole lifetime, exactly if nothing is stored there or what is stored has expired. */
  lemma SetOutcome(s: State, c: nat, ttlMs: int)
    requires Enabled(s, TrySet(c))
    ensures var key, t := s.calls[c].key, Apply(s, TrySet(c), ttlMs);
            if key !in s.redis || s.redis[key].expiresAt <= s.now then
              && t.calls[c] == Call(key, Granted, s.now + ttlMs)
              && key in t.redis && t.redis[key] == Row(c, s.now + ttlMs)
            else
              t == s
  {
  }

  /**
   A release frees: if it reaches Redis before the lease is over, the key is gone
   from Redis, and whoever tries it next, with no time between, gets it.
   */
  lemma ReleaseFrees(run: Run, ttlMs: int, n: nat, c: nat)
    requires ValidRun(run, ttlMs) && n < |run.steps| && run.steps[n] == Release(c, false)
    requires c in run.states[n].calls && run.states[n].now < run.states[n].calls[c].leaseEnd
    ensures run.states[n].calls[c].key !in run.states[n + 1].redis
    ensures run.states[n + 1].now == run.states[n].now
    ensures forall d :: d in run.states[n + 1].calls && run.states[n + 1].calls[d].phase == Trying
                        && run.states[n + 1].calls[d].key == run.states[n].calls[c].key ==>
              Apply(run.states[n + 1], TrySet(d), ttlMs).calls[d].phase == Granted
  {
    RunKeepsInv(run, ttlMs, n);
    assert Leased(run.states[n], c);
  }

  /**
   The end of a call: leaving the section makes the release possible, the release
   ends the call and, in time and not lost, frees the key; giving up touches nothing.
   */
  lemma CallEnds(s: State, c: nat, lost: bool, ttlMs: int)
    requires Inv(s) && c in s.calls
    ensures s.calls[c].phase == Inside ==>
              && Enabled(s, Leave(c)) && Enabled(Apply(s, Leave(c), ttlMs), Release(c, lost))
              && var t := Apply(Apply(s, Leave(c), ttlMs), Release(c, lost), ttlMs);
                 && t.calls[c].phase == Done
                 && (lost ==> t.redis == s.redis)
                 && (!lost && s.now < s.calls[c].leaseEnd ==> t.redis == s.redis - {s.calls[c].key})
    ensures s.calls[c].phase == Trying ==>
              && Enabled(s, GiveUp(c))
              && Apply(s, GiveUp(c), ttlMs) == s.(calls := s.calls[c := s.calls[c].(phase := Done)])
  {
    if s.calls[c].phase == Inside && s.now < s.calls[c].leaseEnd {
      assert Leased(s, c);
    }
  }

  /** And a lost release frees no later than the lifetime does: once the lease of a caller is over, its row is too. */
  lemma ExpiryFrees(run: Run, ttlMs: int, n: nat, c: nat, key: string)
    requires ValidRun(run, ttlMs) && n < |run.states|
    requires key in run.states[n].redis && run.states[n].redis[key].token == c
    ensures c in run.states[n].calls
    ensures run.states[n].calls[c].key == key && run.states[n].redis[key].expiresAt == run.states[n].calls[c].leaseEnd
  {
    RunKeepsRows(run, ttlMs, n);
  }

  /** Each row of Redis is its caller's, with the end of its lease. */
  ghost predicate RowsAreLeases(s: State) {
    forall k :: k in s.redis ==>
      && s.redis[k].token in s.calls && s.calls[s.redis[k].token].phase != Trying
      && s.calls[s.redis[k].token].key == k && s.calls[s.redis[k].token].leaseEnd == s.redis[k].expiresAt
  }

  lemma {:induction false} RunKeepsRows(run: Run, ttlMs: int, n: nat)
    requires ValidRun(run, ttlMs) && n < |run.states|
    ensures RowsAreLeases(run.states[n])
  {
    if n > 0 {
      RunKeepsRows(run, ttlMs, n - 1);
      assert Enabled(run.states[n - 1], run.steps[n - 1]);
    }
  }

  ghost predicate InsideLease(s: State) {
    forall c :: c in s.calls && s.calls[c].phase == Inside ==> s.now < s.calls[c].leaseEnd
  }

  /** If no section outlives its lease, sections of one key never overlap. */
  lemma MutualExclusion(run: Run, ttlMs: int, n: nat, c: nat, d: nat)
    requires ValidRun(run, ttlMs) && n < |run.states| && InsideLease(run.states[n])
    requires c in run.states[n].calls && run.states[n].calls[c].phase == Inside
    requires d in run.states[n].calls && run.states[n].calls[d].phase == Inside
    requires run.states[n].calls[c].key == run.states[n].calls[d].key
    ensures c == d
  {
    OneLeasePerKey(run, ttlMs, n, c, d);
  }

  /** `longer` begins with the first n steps of `run`. */
  ghost predicate Continues(longer: Run, run: Run, n: nat) {
    && n <= |run.steps| && n + 1 <= |run.states|
    && run.steps[..n] <= longer.steps && run.states[..n + 1] <= longer.states
  }

  lemma Extend(run: Run, ttlMs: int, step: Step) returns (longer: Run)
    requires ValidRun(run, ttlMs) && Enabled(run.states[|run.steps|], step)
    ensures ValidRun(longer, ttlMs) && |longer.steps| == |run.steps| + 1
    ensures run.steps <= longer.steps && run.states <= longer.states
    ensures longer.states[|longer.steps|] == Apply(run.states[|run.steps|], step, ttlMs)
  {
    longer := Run(run.states + [Apply(run.states[|run.steps|], step, ttlMs)], run.steps + [step]);
  }

  lemma Truncated(run: Run, ttlMs: int, n: nat) returns (short: Run)
    requires ValidRun(run, ttlMs) && n < |run.states|
    ensures ValidRun(short, ttlMs) && |short.steps| == n && short.states[n] == run.states[n]
    ensures short.steps == run.steps[..n] && short.states == run.states[..n + 1]
  {
    short := Run(run.states[..n + 1], run.steps[..n]);
  }

  /**
   The condition of mutual exclusion is needed in every reachable state: as soon
   as a section has outlived its lease, the run can go on so that a fresh call is
   inside beside it, with a lease of its own.
   */
  lemma SlowSectionsOverlap(run: Run, ttlMs: int, n: nat, c: nat) returns (longer: Run, d: nat)
    requires ttlMs > 0 && ValidRun(run, ttlMs) && n < |run.states|
    requires c in run.states[n].calls && run.states[n].calls[c].phase == Inside
    requires run.states[n].calls[c].leaseEnd <= run.states[n].now
    ensures ValidRun(longer, ttlMs) && Continues(longer, run, n) && d !in run.states[n].calls && c != d
    ensures var s := longer.states[|longer.steps|];
            && c in s.calls && s.calls[c] == run.states[n].calls[c]
            && d in s.calls && s.calls[d].key == s.calls[c].key && s.calls[d].phase == Inside && Leased(s, d)
  {
    var s, key := run.states[n], run.states[n].calls[c].key;
    var wait: nat := if Held(s, key) then s.redis[key].expiresAt - s.now else 0;
    d := UnusedNumber(s.calls.Keys);
    var short := Truncated(run, ttlMs, n);
    var waited := Extend(short, ttlMs, Tick(wait));
    var begun := Extend(waited, ttlMs, Begin(d, key));
    assert !Held(begun.states[|begun.steps|], key);
    var granted := Extend(begun, ttlMs, TrySet(d));
    longer := Extend(granted, ttlMs, Enter(d));
    assert short.steps <= waited.steps <= begun.steps <= granted.steps <= longer.steps;
    assert short.states <= waited.states <= begun.states <= granted.states <= longer.states;
  }

  /** Nobody can take a key while a lease on it runs: a caller that enters first waited for expiry or release. */
  lemma LeaseExcludes(run: Run, ttlMs: int, n: nat, c: nat)
    requires ValidRun(run, ttlMs) && n < |run.steps| && run.steps[n].TrySet? && run.steps[n].c != c
    requires Leased(run.states[n], c) && run.steps[n].c in run.states[n].calls
    requires run.states[n].calls[run.steps[n].c].key == run.states[n].calls[c].key
    ensures run.states[n + 1] == run.states[n]
  {
    RunKeepsInv(run, ttlMs, n);
  }

  // ---------------------------------------------------------------- the polling loop

  /** Attempts the loop needs at most: one, and one more for every 50 ms it may wait. */
  function MaxAttempts(maxWaitMs: int): nat {
    if maxWaitMs <= 0 then 1 else (maxWaitMs + RETRY_DELAY_MS - 1) / RETRY_DELAY_MS + 1
  }

  /**
   The loop of `withLock`. `replies(i)` is what Redis answers to the i-th SET and
   `clock(i)` is the time read after it; a sleep lasts at least 50 ms.
   */
  method Acquire(replies: nat -> bool, clock: nat -> int, start: int, maxWaitMs: int)
    returns (acquired: bool, attempts: nat)
    requires start <= clock(0) && forall i: nat :: clock(i) + RETRY_DELAY_MS <= clock(i + 1)
    ensures 1 <= attempts <= MaxAttempts(maxWaitMs)
    ensures acquired == replies(attempts - 1)
    ensures forall i: nat :: i < attempts - 1 ==> !replies(i) && clock(i) < start + maxWaitMs
    ensures !acquired ==> start + maxWaitMs <= clock(attempts - 1)
  {
    var deadline := start + maxWaitMs;
    attempts := 0;
    while true
      invariant attempts <= MaxAttempts(maxWaitMs) - 1
      invariant forall i: nat :: i < attempts ==> !replies(i) && clock(i) < deadline
      invariant start + RETRY_DELAY_MS * attempts <= clock(attempts)
      decreases MaxAttempts(maxWaitMs) - attempts
    {
      acquired := replies(attempts);
      attempts := attempts + 1;
      if acquired {
        return;
      }
      if clock(attempts - 1) >= deadline {
        return;
      }
      assert RETRY_DELAY_MS * (attempts - 1) < maxWaitMs;
    }
  }
}
