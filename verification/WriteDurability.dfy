/** When a resolved `write` of the batcher (src/utils/write-batcher.ts) is stored, if flushes may fail. */
module WriteDurability {
  // It is exactly when no queued task was waiting to start as `write` was called.
  // Such a task may take the value, fail, and leave the task that owns the promise
  // with nothing to flush.

  import opened WriteBatcher

  // ---------------------------------------------------------------- no task waits

  /**
   Where the value of the i-th `write` is, together with its promise: the first task
   that will start owns the promise and will take the value; or the running task has
   both; or the value is stored; or the promise went with a flush that failed.
   */
  ghost predicate Owned(s: State, i: nat) {
    || (i in s.flushWaiters && s.queue == [] && Covered(s.writes, i, multiset(s.pending)))
    || (s.queue != [] && i in s.queue[0].waiters && Covered(s.writes, i, multiset(s.pending)))
    || (s.running.Flushing? && i in s.running.task.waiters && Covered(s.writes, i, multiset(s.running.batch)))
    || Covered(s.writes, i, Bag(s.completed))
    || InTasks(s.dropped, i)
  }

  lemma PutKeepsPending(s: State, item: Item, i: nat)
    requires DistinctKeys(s.pending) && item.id == |s.writes| && Covered(s.writes, i, multiset(s.pending))
    ensures Covered(AfterPut(s, item).writes, i, multiset(AfterPut(s, item).pending))
  {
    var t := AfterPut(s, item);
    UpsertKeys(s.pending, item);
    UpsertConserves(s.pending, item);
    DisplacedItem(s.pending, item.key);
    var x :| x in multiset(s.pending) && x in s.writes && x.key == s.writes[i].key && i <= x.id;
    assert t.writes[|s.writes|] == item && t.writes[i] == s.writes[i];
    if x.key != item.key {
      assert x in multiset(t.pending) + multiset(Displaced(s.pending, item.key));
      assert x in t.pending && x in t.writes;
    } else {
      assert item in t.pending && item in t.writes;
    }
  }

  lemma FlushKeepsOwned(s: State, callers: seq<nat>, i: nat)
    requires Owned(s, i)
    ensures Owned(AfterFlushNow(s, callers), i)
  {
    if i in s.flushWaiters && s.queue == [] {
      assert AfterFlushNow(s, callers).queue == [Task(s.flushWaiters + callers)];
    }
  }

  lemma PutKeepsOwned(s: State, item: Item, i: nat)
    requires Owned(s, i) && DistinctKeys(s.pending) && item.id == |s.writes|
    ensures Owned(AfterPut(s, item), i)
  {
    if Covered(s.writes, i, multiset(s.pending)) {
      PutKeepsPending(s, item, i);
    }
  }

  lemma WriteKeepsOwned(s: State, key: string, value: string, debounceMs: int, i: nat)
    requires Owned(s, i) && DistinctKeys(s.pending)
    ensures Owned(AfterWrite(s, key, value, debounceMs), i)
  {
    var item := Item(key, value, |s.writes|);
    PutKeepsOwned(s, item, i);
    if debounceMs <= 0 {
      FlushKeepsOwned(AfterPut(s, item), [|s.writes|], i);
    }
  }

  lemma FinishKeepsOwned(s: State, ok: bool, i: nat)
    requires Owned(s, i) && s.running.Flushing?
    ensures Owned(AfterFinish(s, ok), i)
  {
    TasksSplit(s.dropped, [s.running.task]);
    OneTask(s.running.task);
  }

  lemma StepKeepsOwned(s: State, step: Step, debounceMs: int, i: nat)
    requires Owned(s, i) && DistinctKeys(s.pending) && Enabled(s, step)
    ensures Owned(Apply(s, step, debounceMs), i)
  {
    match step
    case Write(key, value) => WriteKeepsOwned(s, key, value, debounceMs, i);
    case FlushNow => FlushKeepsOwned(s, [], i);
    case TimerFires => FlushKeepsOwned(s, [], i);
    case StartTask =>
    case FinishFlush(ok) => FinishKeepsOwned(s, ok, i);
    case Settle =>
  }

  lemma {:induction false} RunKeepsOwned(s: State, steps: seq<Step>, t: State, debounceMs: int, i: nat)
    requires Inv(s) && Owned(s, i) && Reaches(s, steps, t, debounceMs)
    ensures Owned(t, i)
    decreases |steps|
  {
    if steps != [] {
      StepKeepsInv(s, steps[0], debounceMs);
      StepKeepsOwned(s, steps[0], debounceMs, i);
      RunKeepsOwned(Apply(s, steps[0], debounceMs), steps[1..], t, debounceMs, i);
    }
  }

  /** A promise that has resolved, and so is nowhere else, owns a stored value. */
  lemma ResolvedIsStored(s: State, i: nat)
    requires Owned(s, i) && Places(s, i) == 1 && i in s.resolved
    ensures Covered(s.writes, i, Bag(s.completed))
  {
    WaitingMeansInTasks(s.queue, i);
    WaitingMeansInTasks(s.dropped, i);
    assert s.queue != [] && i in s.queue[0].waiters ==> InTasks(s.queue, i);
  }

  lemma FirstOwned(s: State, key: string, value: string, debounceMs: int)
    requires DistinctKeys(s.pending) && s.queue == []
    ensures Owned(AfterWrite(s, key, value, debounceMs), |s.writes|)
  {
    var item, t := Item(key, value, |s.writes|), AfterWrite(s, key, value, debounceMs);
    UpsertKeys(s.pending, item);
    assert item in multiset(t.pending) && t.writes[|s.writes|] == item && item in t.writes;
    assert Covered(t.writes, |s.writes|, multiset(t.pending));
  }

  /**
   If no task waits at the call, then in every run, failed flushes included, a
   resolved value or a later one of its key is stored.
   */
  lemma StoredIfNoTaskWaits(before: seq<Step>, s: State, key: string, value: string, debounceMs: int,
                            steps: seq<Step>, t: State)
    requires Reaches(START, before, s, debounceMs) && s.queue == []
    requires Reaches(AfterWrite(s, key, value, debounceMs), steps, t, debounceMs) && |s.writes| in t.resolved
    ensures Covered(t.writes, |s.writes|, Bag(t.completed))
  {
    CallIsOwned(before, s, key, value, debounceMs);
    StoredWhileOwned(AfterWrite(s, key, value, debounceMs), steps, t, debounceMs, |s.writes|);
  }

  /** Right after the call the value is owned and its promise is in one place. */
  lemma CallIsOwned(before: seq<Step>, s: State, key: string, value: string, debounceMs: int)
    requires Reaches(START, before, s, debounceMs) && s.queue == []
    ensures var i, u := |s.writes|, AfterWrite(s, key, value, debounceMs);
            Inv(u) && Owned(u, i) && i < |u.writes| && Places(u, i) == 1
  {
    RunKeepsInv(START, before, s, debounceMs);
    WriteKeepsInv(s, key, value, debounceMs);
    FirstOwned(s, key, value, debounceMs);
    EachPromiseOnce(before, s, debounceMs, |s.writes|);
    WriteAddsPromise(s, key, value, debounceMs, |s.writes|);
  }

  lemma StoredWhileOwned(u: State, steps: seq<Step>, t: State, debounceMs: int, i: nat)
    requires Inv(u) && Owned(u, i) && i < |u.writes| && Places(u, i) == 1
    requires Reaches(u, steps, t, debounceMs) && i in t.resolved
    ensures Covered(t.writes, i, Bag(t.completed))
  {
    RunKeepsOwned(u, steps, t, debounceMs, i);
    RunKeepsPromises(u, steps, t, debounceMs, i);
    ResolvedIsStored(t, i);
  }

  // ---------------------------------------------------------------- a task waits

  /** The queue starts a task as soon as it can: nothing else happens while it is idle and not empty. */
  ghost predicate PromptlyReaches(s: State, steps: seq<Step>, t: State, debounceMs: int)
    decreases |steps|
  {
    if steps == [] then s == t
    else
      && Enabled(s, steps[0]) && (steps[0].StartTask? || s.running.Flushing? || s.queue == [])
      && PromptlyReaches(Apply(s, steps[0], debounceMs), steps[1..], t, debounceMs)
  }

  lemma {:induction false} PromptReaches(s: State, steps: seq<Step>, t: State, debounceMs: int)
    requires PromptlyReaches(s, steps, t, debounceMs)
    ensures Reaches(s, steps, t, debounceMs)
    decreases |steps|
  {
    if steps != [] {
      PromptReaches(Apply(s, steps[0], debounceMs), steps[1..], t, debounceMs);
    }
  }

  lemma Prepend(s: State, step: Step, steps: seq<Step>, t: State, debounceMs: int) returns (longer: seq<Step>)
    requires Enabled(s, step) && (step.StartTask? || s.running.Flushing? || s.queue == [])
    requires PromptlyReaches(Apply(s, step, debounceMs), steps, t, debounceMs)
    ensures PromptlyReaches(s, longer, t, debounceMs)
  {
    longer := [step] + steps;
    assert longer[1..] == steps;
  }

  lemma {:induction false} Join(s: State, a: seq<Step>, u: State, b: seq<Step>, t: State, debounceMs: int)
    requires PromptlyReaches(s, a, u, debounceMs) && PromptlyReaches(u, b, t, debounceMs)
    ensures PromptlyReaches(s, a + b, t, debounceMs)
    decreases |a|
  {
    if a == [] {
      assert a + b == b;
    } else {
      assert (a + b)[1..] == a[1..] + b;
      Join(Apply(s, a[0], debounceMs), a[1..], u, b, t, debounceMs);
    }
  }

  /** What stays as it is while the queue runs dry. */
  ghost predicate Settles(s: State, t: State) {
    && t.queue == [] && t.pending == [] && t.running.Idle?
    && t.flushWaiters == s.flushWaiters && t.timerArmed == s.timerArmed
    && t.writes == s.writes && t.completed == s.completed
    && (forall i: nat :: InTasks(s.queue, i) || InTasks(s.settling, i) || i in s.resolved ==> i in t.resolved)
  }

  lemma StartedWaiters(s: State)
    requires s.running.Idle? && s.pending == [] && s.queue != []
    ensures var u := AfterStart(s);
            forall i: nat :: InTasks(s.queue, i) || InTasks(s.settling, i) || i in s.resolved ==>
              InTasks(u.queue, i) || InTasks(u.settling, i) || i in u.resolved
  {
    assert s.queue == [s.queue[0]] + s.queue[1..];
    TasksSplit([s.queue[0]], s.queue[1..]);
    TasksSplit(s.settling, [s.queue[0]]);
  }

  /** With nothing pending the queued tasks are over one after the other, and all their waiters resolve. */
  lemma {:induction false} Drain(s: State, debounceMs: int) returns (steps: seq<Step>, t: State)
    requires s.running.Idle? && s.pending == []
    ensures PromptlyReaches(s, steps, t, debounceMs) && Settles(s, t)
    decreases Load(s)
  {
    if s.queue != [] {
      StartedWaiters(s);
      steps, t := Drain(AfterStart(s), debounceMs);
      steps := Prepend(s, StartTask, steps, t, debounceMs);
    } else if s.settling != [] {
      steps, t := Drain(AfterSettle(s), debounceMs);
      steps := Prepend(s, Settle, steps, t, debounceMs);
    } else {
      steps, t := [], s;
    }
  }

  /** The running flush succeeds, and the waiting task takes everything pending and fails. */
  lemma TakenByWaitingTask(s: State, debounceMs: int) returns (steps: seq<Step>, t: State)
    requires s.queue != [] && s.pending != []
    ensures PromptlyReaches(s, steps, t, debounceMs) && t.running.Idle? && t.pending == []
    ensures t.queue == s.queue[1..] && t.flushWaiters == s.flushWaiters && t.timerArmed == s.timerArmed
    ensures t.writes == s.writes
    ensures forall x :: x in Bag(t.completed) ==> x in Bag(s.completed) + multiset(InFlight(s.running))
  {
    var u := if s.running.Flushing? then AfterFinish(s, true) else s;
    var v := AfterStart(u);
    t := AfterFinish(v, false);
    steps := Prepend(v, FinishFlush(false), [], t, debounceMs);
    steps := Prepend(u, StartTask, steps, t, debounceMs);
    if s.running.Flushing? {
      steps := Prepend(s, FinishFlush(true), steps, t, debounceMs);
    }
  }

  /** The queue runs dry, the timer fires if the promise still waits for it, and its task finds nothing pending. */
  lemma ResolvedWithNothing(s: State, i: nat, debounceMs: int) returns (steps: seq<Step>, t: State)
    requires s.running.Idle? && s.pending == []
    requires InTasks(s.queue, i) || (i in s.flushWaiters && s.timerArmed)
    ensures PromptlyReaches(s, steps, t, debounceMs)
    ensures i in t.resolved && t.writes == s.writes && t.completed == s.completed
  {
    steps, t := Drain(s, debounceMs);
    if !InTasks(s.queue, i) {
      var first, u := steps, t;
      var v := AfterFlushNow(u, []);
      assert u.flushWaiters + [] == u.flushWaiters;
      assert v.queue == [Task(u.flushWaiters)] && i in v.queue[0].waiters;
      steps, t := Drain(v, debounceMs);
      assert InTasks(v.queue, i);
      steps := Prepend(u, TimerFires, steps, t, debounceMs);
      Join(s, first, u, steps, t, debounceMs);
      steps := first + steps;
    }
  }

  /** If a task waits at the call, some run resolves the promise with neither the value nor a later one stored. */
  lemma LostIfTaskWaits(s: State, key: string, value: string, debounceMs: int) returns (steps: seq<Step>, t: State)
    requires Inv(s) && s.queue != []
    ensures PromptlyReaches(AfterWrite(s, key, value, debounceMs), steps, t, debounceMs)
    ensures |s.writes| in t.resolved && !Covered(t.writes, |s.writes|, Bag(t.completed))
  {
    var i, item, u := |s.writes|, Item(key, value, |s.writes|), AfterWrite(s, key, value, debounceMs);
    UpsertKeys(s.pending, item);
    var first, v := TakenByWaitingTask(u, debounceMs);
    if debounceMs <= 0 {
      assert u.queue[1..] == s.queue[1..] + [Task(s.flushWaiters + [i])];
      TasksSplit(s.queue[1..], [Task(s.flushWaiters + [i])]);
      OneTask(Task(s.flushWaiters + [i]));
    }
    var rest;
    rest, t := ResolvedWithNothing(v, i, debounceMs);
    Join(u, first, v, rest, t, debounceMs);
    steps := first + rest;
    OnlyEarlierStored(s, Bag(t.completed), item);
    assert t.writes == s.writes + [item];
  }

  /** What was handed over before the call holds no later value than the call's. */
  lemma OnlyEarlierStored(s: State, stored: multiset<Item>, item: Item)
    requires Accounted(s) && forall x :: x in stored ==> x in Handed(s)
    ensures !Covered(s.writes + [item], |s.writes|, stored)
  {
    forall x | x in stored ensures x.id < |s.writes| {
      assert x in Handed(s) && x in multiset(s.writes);
    }
  }

  // ---------------------------------------------------------------- the condition

  /**
   In every run from s, failed flushes included: if the i-th promise has resolved,
   its value or a later one is stored.
   */
  ghost predicate ResolvesOnlyStored(s: State, i: nat, debounceMs: int) {
    forall steps, t :: Reaches(s, steps, t, debounceMs) && i in t.resolved ==> Covered(t.writes, i, Bag(t.completed))
  }

  /**
   `write` resolves only once its value, or a later one of its key, has been stored,
   if and only if no task waits in the queue at the call; and what can go wrong
   otherwise goes wrong with a queue that starts its tasks at once.
   */
  lemma ResolvedMeansStored(before: seq<Step>, s: State, key: string, value: string, debounceMs: int)
    requires Reaches(START, before, s, debounceMs)
    ensures ResolvesOnlyStored(AfterWrite(s, key, value, debounceMs), |s.writes|, debounceMs) <==> s.queue == []
    ensures s.queue != [] ==>
              exists steps, t :: PromptlyReaches(AfterWrite(s, key, value, debounceMs), steps, t, debounceMs)
                                 && |s.writes| in t.resolved && !Covered(t.writes, |s.writes|, Bag(t.completed))
  {
    var u := AfterWrite(s, key, value, debounceMs);
    if s.queue == [] {
      forall steps, t | Reaches(u, steps, t, debounceMs) && |s.writes| in t.resolved
        ensures Covered(t.writes, |s.writes|, Bag(t.completed))
      {
        StoredIfNoTaskWaits(before, s, key, value, debounceMs, steps, t);
      }
    } else {
      RunKeepsInv(START, before, s, debounceMs);
      var steps, t := LostIfTaskWaits(s, key, value, debounceMs);
      PromptReaches(u, steps, t, debounceMs);
    }
  }

  /** Such a state is reached from the start: a flush runs, and `flushNow` has queued a task behind it. */
  lemma TaskCanWait(debounceMs: int) returns (steps: seq<Step>, s: State)
    requires debounceMs > 0
    ensures PromptlyReaches(START, steps, s, debounceMs) && s.running.Flushing? && s.queue != []
  {
    var a := AfterWrite(START, "a", "1", debounceMs);
    var b := AfterFlushNow(a, []);
    var c := AfterStart(b);
    s := AfterFlushNow(c, []);
    assert b.queue == [Task(a.flushWaiters + [])];
    assert b.queue[1..] == [];
    steps := Prepend(c, FlushNow, [], s, debounceMs);
    steps := Prepend(b, StartTask, steps, s, debounceMs);
    steps := Prepend(a, TimerFires, steps, s, debounceMs);
    steps := Prepend(START, Write("a", "1"), steps, s, debounceMs);
  }
}
