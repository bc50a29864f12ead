/** The debounced write batcher (src/utils/write-batcher.ts) over all interleavings. */
module WriteBatcher {
  // The steps are `write` calls, timer firings, `flushNow` calls, and those of a
  // queue that runs one task at a time in order.
  //
  // `State` is what one batcher looks like between two stretches of its code. Items
  // carry the number of the `write` call that produced them, and `writes`,
  // `replaced`, `completed`, `failed`, `resolved` and `dropped` (the tasks whose
  // flush failed) are the history of the run.

  datatype Item = Item(key: string, value: string, id: nat)
  datatype Task = Task(waiters: seq<nat>)
  datatype Running = Idle | Flushing(task: Task, batch: seq<Item>)

  datatype State = State(
    pending: seq<Item>,
    timerArmed: bool,
    flushWaiters: seq<nat>,
    queue: seq<Task>,
    running: Running,
    settling: seq<Task>,
    writes: seq<Item>,
    replaced: seq<Item>,
    completed: seq<seq<Item>>,
    failed: seq<seq<Item>>,
    resolved: seq<nat>,
    dropped: seq<Task>)

  const START := State([], false, [], [], Idle, [], [], [], [], [], [], [])

  datatype Step =
    | Write(key: string, value: string)
    | FlushNow
    | TimerFires
    | StartTask
    | FinishFlush(ok: bool)
    | Settle

  // ---------------------------------------------------------------- the steps

  /** `Map.set`: an existing key keeps its place and loses its old value. */
  function Upsert(pending: seq<Item>, item: Item): seq<Item> {
    if pending == [] then [item]
    else if pending[0].key == item.key then [item] + pending[1..]
    else [pending[0]] + Upsert(pending[1..], item)
  }

  /** The item that `Upsert` pushes out, if any. */
  function Displaced(pending: seq<Item>, key: string): seq<Item> {
    if pending == [] then []
    else if pending[0].key == key then [pending[0]]
    else Displaced(pending[1..], key)
  }

  function AfterFlushNow(s: State, callers: seq<nat>): State {
    s.(timerArmed := false, flushWaiters := [], queue := s.queue + [Task(s.flushWaiters + callers)])
  }

  function AfterPut(s: State, item: Item): State {
    s.(pending := Upsert(s.pending, item), writes := s.writes + [item],
       replaced := s.replaced + Displaced(s.pending, item.key))
  }

  function AfterWrite(s: State, key: string, value: string, debounceMs: int): State {
    var id := |s.writes|;
    var t := AfterPut(s, Item(key, value, id));
    if debounceMs <= 0 then AfterFlushNow(t, [id])
    else t.(flushWaiters := t.flushWaiters + [id], timerArmed := true)
  }

  /** The first queued task starts; with nothing pending it is over at once. */
  function AfterStart(s: State): State
    requires s.running.Idle? && s.queue != []
  {
    var t := s.(queue := s.queue[1..]);
    if s.pending == [] then t.(settling := t.settling + [s.queue[0]])
    else t.(running := Flushing(s.queue[0], s.pending), pending := [])
  }

  /** A failed flush rejects its own `flushNow`, so nobody who waited for it is resolved. */
  function AfterFinish(s: State, ok: bool): State
    requires s.running.Flushing?
  {
    var t := s.(running := Idle);
    if ok then t.(completed := t.completed + [s.running.batch], settling := t.settling + [s.running.task])
    else t.(failed := t.failed + [s.running.batch], dropped := t.dropped + [s.running.task])
  }

  function AfterSettle(s: State): State
    requires s.settling != []
  {
    s.(settling := s.settling[1..], resolved := s.resolved + s.settling[0].waiters)
  }

  predicate Enabled(s: State, step: Step) {
    match step
    case Write(_, _) => true
    case FlushNow => true
    case TimerFires => s.timerArmed
    case StartTask => s.running.Idle? && s.queue != []
    case FinishFlush(_) => s.running.Flushing?
    case Settle => s.settling != []
  }

  function Apply(s: State, step: Step, debounceMs: int): State
    requires Enabled(s, step)
  {
    match step
    case Write(key, value) => AfterWrite(s, key, value, debounceMs)
    case FlushNow => AfterFlushNow(s, [])
    case TimerFires => AfterFlushNow(s, [])
    case StartTask => AfterStart(s)
    case FinishFlush(ok) => AfterFinish(s, ok)
    case Settle => AfterSettle(s)
  }

  // ---------------------------------------------------------------- the class

  class Batcher {
    const debounceMs: int
    var pending: seq<Item>
    var timer: bool
    var flushWaiters: seq<nat>
    var queue: seq<Task>
    var running: Running
    var settling: seq<Task>
    ghost var writes: seq<Item>
    ghost var replaced: seq<Item>
    ghost var completed: seq<seq<Item>>
    ghost var failed: seq<seq<Item>>
    ghost var resolved: seq<nat>
    ghost var dropped: seq<Task>
    var calls: nat

    ghost function View(): State
      reads this
    {
      State(pending, timer, flushWaiters, queue, running, settling, writes, replaced, completed, failed, resolved,
            dropped)
    }

    ghost predicate Valid()
      reads this
    {
      calls == |writes|
    }

    constructor (debounceMs: int)
      ensures Valid() && View() == START && this.debounceMs == debounceMs
    {
      this.debounceMs := debounceMs;
      pending, timer, flushWaiters, queue, running, settling, calls := [], false, [], [], Idle, [], 0;
      writes, replaced, completed, failed, resolved, dropped := [], [], [], [], [], [];
    }

    method Write(key: string, value: string)
      requires Valid()
      modifies this
      ensures Valid() && View() == AfterWrite(old(View()), key, value, debounceMs)
    {
      var item := Item(key, value, calls);
      replaced := replaced + Displaced(pending, key);
      writes := writes + [item];
      calls := calls + 1;
      SetPending(item);
      if debounceMs <= 0 {
        FlushNow([item.id]);
      } else {
        flushWaiters := flushWaiters + [item.id];
        timer := true;
      }
    }

    /** The insertion-ordered `Map.set`, by position. */
    method SetPending(item: Item)
      modifies this`pending
      ensures pending == Upsert(old(pending), item)
    {
      var i := 0;
      while i < |pending| && pending[i].key != item.key
        invariant 0 <= i <= |pending|
        invariant Upsert(pending, item) == pending[..i] + Upsert(pending[i..], item)
      {
        assert pending[i..][1..] == pending[i + 1..];
        assert pending[..i] + [pending[i]] == pending[..i + 1];
        i := i + 1;
      }
      if i < |pending| {
        assert pending[i..][1..] == pending[i + 1..];
        pending := pending[..i] + [item] + pending[i + 1..];
      } else {
        pending := pending + [item];
      }
    }

    /** `callers` is the `write` call that awaits this flush itself, when there is no debounce window. */
    method FlushNow(callers: seq<nat>)
      modifies this`timer, this`flushWaiters, this`queue
      ensures View() == AfterFlushNow(old(View()), callers)
    {
      timer := false;
      var waiters := flushWaiters;
      flushWaiters := [];
      queue := queue + [Task(waiters + callers)];
    }

    method StartTask()
      requires running.Idle? && queue != []
      modifies this`queue, this`running, this`settling, this`pending
      ensures View() == AfterStart(old(View()))
    {
      var task := queue[0];
      queue := queue[1..];
      if |pending| == 0 {
        settling := settling + [task];
        return;
      }
      var entries := pending;
      pending := [];
      running := Flushing(task, entries);
    }

    method FinishFlush(ok: bool)
      requires running.Flushing?
      modifies this`running, this`settling, this`completed, this`failed, this`dropped
      ensures View() == AfterFinish(old(View()), ok)
    {
      if ok {
        completed := completed + [running.batch];
        settling := settling + [running.task];
      } else {
        failed := failed + [running.batch];
        dropped := dropped + [running.task];
      }
      running := Idle;
    }

    method Settle()
      requires settling != []
      modifies this`settling, this`resolved
      ensures View() == AfterSettle(old(View()))
    {
      resolved := resolved + settling[0].waiters;
      settling := settling[1..];
    }
  }

  // ---------------------------------------------------------------- runs

  ghost predicate Reaches(s: State, steps: seq<Step>, t: State, debounceMs: int)
    decreases |steps|
  {
    if steps == [] then s == t
    else Enabled(s, steps[0]) && Reaches(Apply(s, steps[0], debounceMs), steps[1..], t, debounceMs)
  }

  predicate NoFailure(steps: seq<Step>) {
    forall i :: 0 <= i < |steps| ==> steps[i] != FinishFlush(false)
  }

  function Flatten(batches: seq<seq<Item>>): seq<Item> {
    if batches == [] then [] else Flatten(batches[..|batches| - 1]) + batches[|batches| - 1]
  }

  function InFlight(r: Running): seq<Item> {
    if r.Idle? then [] else r.batch
  }

  function Bag(batches: seq<seq<Item>>): multiset<Item> {
    if batches == [] then multiset{} else Bag(batches[..|batches| - 1]) + multiset(batches[|batches| - 1])
  }

  /** The items of the batches whose flush is over, well or badly. */
  function Ended(s: State): multiset<Item> {
    Bag(s.completed) + Bag(s.failed)
  }

  /** Everything ever handed to `flush`. */
  function Handed(s: State): multiset<Item> {
    Ended(s) + multiset(InFlight(s.running))
  }

  // ---------------------------------------------------------------- helper lemmas on sequences

  ghost predicate DistinctKeys(items: seq<Item>) {
    forall i, j :: 0 <= i < j < |items| ==> items[i].key != items[j].key
  }

  lemma {:induction false} UpsertKeys(pending: seq<Item>, item: Item)
    requires DistinctKeys(pending)
    ensures DistinctKeys(Upsert(pending, item)) && item in Upsert(pending, item)
    ensures forall x :: x in Upsert(pending, item) ==> x == item || (x in pending && x.key != item.key)
  {
    if pending != [] {
      var rest := pending[1..];
      assert pending == [pending[0]] + rest;
      if pending[0].key != item.key {
        UpsertKeys(rest, item);
        var u := Upsert(rest, item);
        assert Upsert(pending, item) == [pending[0]] + u;
        forall j | 0 <= j < |u| ensures u[j].key != pending[0].key {
          assert u[j] in u;
        }
      }
    }
  }

  /** `Map.set` on the pending map: an existing key keeps its place, a new one goes to the end. */
  lemma {:induction false} UpsertPlaces(pending: seq<Item>, item: Item, i: nat)
    requires DistinctKeys(pending)
    ensures (exists k :: 0 <= k < |pending| && pending[k].key == item.key) ==> |Upsert(pending, item)| == |pending|
    ensures (forall k :: 0 <= k < |pending| ==> pending[k].key != item.key) ==>
              Upsert(pending, item) == pending + [item]
    ensures i < |pending| ==> |pending| <= |Upsert(pending, item)|
                              && Upsert(pending, item)[i] == if pending[i].key == item.key then item else pending[i]
  {
    if pending != [] && pending[0].key != item.key {
      UpsertPlaces(pending[1..], item, if i > 0 then i - 1 else 0);
      if exists k :: 0 <= k < |pending| && pending[k].key == item.key {
        var k :| 0 <= k < |pending| && pending[k].key == item.key;
        assert pending[1..][k - 1].key == item.key;
      }
    }
  }

  lemma {:induction false} UpsertConserves(pending: seq<Item>, item: Item)
    ensures multiset(Upsert(pending, item)) + multiset(Displaced(pending, item.key)) ==
            multiset(pending) + multiset{item}
  {
    if pending != [] {
      var rest := pending[1..];
      assert pending == [pending[0]] + rest;
      assert multiset(pending) == multiset{pending[0]} + multiset(rest);
      if pending[0].key != item.key {
        UpsertConserves(rest, item);
        var u, d := Upsert(rest, item), Displaced(rest, item.key);
        assert multiset(Upsert(pending, item)) == multiset{pending[0]} + multiset(u);
        assert multiset(Upsert(pending, item)) + multiset(d) == multiset{pending[0]} + (multiset(u) + multiset(d));
      } else {
        assert multiset(Upsert(pending, item)) == multiset{item} + multiset(rest);
      }
    }
  }

  lemma {:induction false} DisplacedItem(pending: seq<Item>, key: string)
    ensures forall x :: x in Displaced(pending, key) ==> x.key == key && x in pending
    ensures DistinctKeys(pending) ==> forall x :: x in pending && x.key == key ==> x in Displaced(pending, key)
  {
    if pending != [] {
      assert pending == [pending[0]] + pending[1..];
      DisplacedItem(pending[1..], key);
    }
  }

  // ---------------------------------------------------------------- nothing is lost or handed over twice

  /**
   The state invariant, failures included: the timer is armed exactly while
   someone waits for it, pending items have a flush on the way, and the `write`
   calls made so far are, each exactly once, pending, replaced while pending, or
   in one batch handed to `flush`.
   */
  ghost predicate Inv(s: State) {
    && (s.timerArmed <==> s.flushWaiters != [])
    && (s.pending != [] ==> s.timerArmed || s.queue != [])
    && (s.running.Flushing? ==> s.running.batch != [])
    && Accounted(s)
  }

  ghost predicate Accounted(s: State) {
    && DistinctKeys(s.pending)
    && (forall i :: 0 <= i < |s.writes| ==> s.writes[i].id == i)
    && multiset(s.writes) == multiset(s.pending) + multiset(s.replaced) + Handed(s)
    && (forall x :: x in s.replaced ==> Superseded(s.writes, x))
  }

  ghost predicate Superseded(writes: seq<Item>, x: Item) {
    exists y :: y in writes && y.key == x.key && x.id < y.id
  }

  lemma PutConserves(s: State, item: Item)
    requires multiset(s.writes) == multiset(s.pending) + multiset(s.replaced) + Handed(s)
    ensures var t := AfterPut(s, item);
            multiset(t.writes) == multiset(t.pending) + multiset(t.replaced) + Handed(t)
  {
    var t, d := AfterPut(s, item), Displaced(s.pending, item.key);
    UpsertConserves(s.pending, item);
    assert multiset(t.writes) == multiset(s.writes) + multiset{item};
    assert multiset(t.replaced) == multiset(s.replaced) + multiset(d);
    assert Handed(t) == Handed(s);
    assert multiset(t.pending) + (multiset(s.replaced) + multiset(d)) ==
           (multiset(t.pending) + multiset(d)) + multiset(s.replaced);
  }

  lemma PutKeepsAccounted(s: State, item: Item)
    requires Accounted(s) && item.id == |s.writes|
    ensures Accounted(AfterPut(s, item))
  {
    var t := AfterPut(s, item);
    PutConserves(s, item);
    UpsertKeys(s.pending, item);
    DisplacedItem(s.pending, item.key);
    forall x | x in t.replaced ensures Superseded(t.writes, x) {
      if x in s.replaced {
        var y :| y in s.writes && y.key == x.key && x.id < y.id;
        assert y in t.writes;
      } else {
        assert x in multiset(s.pending) && x in multiset(s.writes);
        assert item in t.writes;
      }
    }
  }

  lemma FlushKeepsInv(s: State, callers: seq<nat>)
    requires Accounted(s) && (s.running.Flushing? ==> s.running.batch != [])
    ensures Inv(AfterFlushNow(s, callers))
  {
    assert Handed(AfterFlushNow(s, callers)) == Handed(s);
  }

  lemma WriteKeepsInv(s: State, key: string, value: string, debounceMs: int)
    requires Inv(s)
    ensures Inv(AfterWrite(s, key, value, debounceMs))
  {
    var t := AfterPut(s, Item(key, value, |s.writes|));
    PutKeepsAccounted(s, Item(key, value, |s.writes|));
    if debounceMs <= 0 {
      FlushKeepsInv(t, [|s.writes|]);
    } else {
      assert Handed(AfterWrite(s, key, value, debounceMs)) == Handed(t);
    }
  }

  lemma SettleKeepsInv(s: State)
    requires Inv(s) && s.settling != []
    ensures Inv(AfterSettle(s))
  {
    assert Handed(AfterSettle(s)) == Handed(s);
  }

  lemma StepKeepsInv(s: State, step: Step, debounceMs: int)
    requires Inv(s) && Enabled(s, step)
    ensures Inv(Apply(s, step, debounceMs))
  {
    match step
    case Write(key, value) => WriteKeepsInv(s, key, value, debounceMs);
    case FlushNow => FlushKeepsInv(s, []);
    case TimerFires => FlushKeepsInv(s, []);
    case StartTask => StartKeepsAccounted(s);
    case FinishFlush(ok) =>
      FinishKeepsHanded(s, ok);
    case Settle => SettleKeepsInv(s);
  }

  lemma StartKeepsAccounted(s: State)
    requires Accounted(s) && s.running.Idle? && s.queue != []
    ensures Accounted(AfterStart(s))
  {
    if s.pending != [] {
      assert Handed(AfterStart(s)) == Handed(s) + multiset(s.pending);
    }
  }

  lemma FinishKeepsHanded(s: State, ok: bool)
    requires s.running.Flushing?
    ensures Handed(AfterFinish(s, ok)) == Handed(s)
  {
  }

  function Count(items: seq<Item>, x: Item): nat {
    multiset(items)[x]
  }

  /**
   Hand-over, over every run and with failing flushes: the i-th written value is
   pending, or was replaced by a later value of its key, or is in a batch handed
   to `flush`; exactly one of these, and exactly once.
   */
  lemma HandedOverOnce(steps: seq<Step>, s: State, debounceMs: int, i: nat)
    requires Reaches(START, steps, s, debounceMs) && i < |s.writes|
    ensures Count(s.pending, s.writes[i]) + Count(s.replaced, s.writes[i]) + Handed(s)[s.writes[i]] == 1
    ensures s.writes[i] in s.replaced ==> exists j :: i < j < |s.writes| && s.writes[j].key == s.writes[i].key
    ensures s.timerArmed <==> s.flushWaiters != []
    ensures s.pending != [] ==> s.timerArmed || s.queue != []
  {
    RunKeepsInv(START, steps, s, debounceMs);
    CountDistinct(s.writes, i);
    if s.writes[i] in s.replaced {
      var y :| y in s.writes && y.key == s.writes[i].key && s.writes[i].id < y.id;
    }
  }

  lemma {:induction false} CountDistinct(items: seq<Item>, i: nat)
    requires i < |items| && forall k :: 0 <= k < |items| ==> items[k].id == k
    ensures multiset(items)[items[i]] == 1
  {
    var n := |items| - 1;
    assert items == items[..n] + [items[n]];
    if i < n {
      CountDistinct(items[..n], i);
    } else {
      assert items[n] !in items[..n];
    }
  }

  // ---------------------------------------------------------------- draining

  /** Steps the system takes on its own. */
  predicate Internal(step: Step) {
    !step.Write? && !step.FlushNow?
  }

  function Load(s: State): nat {
    (if s.timerArmed then 4 else 0) + 3 * |s.queue| + (if s.running.Idle? then 0 else 2) + |s.settling|
  }

  /** Without new calls only `Load(s)` more steps are possible. */
  lemma {:induction false} DrainingTerminates(s: State, steps: seq<Step>, t: State, debounceMs: int)
    requires Reaches(s, steps, t, debounceMs)
    requires forall i :: 0 <= i < |steps| ==> Internal(steps[i])
    ensures |steps| + Load(t) <= Load(s)
    decreases |steps|
  {
    if steps != [] {
      DrainingTerminates(Apply(s, steps[0], debounceMs), steps[1..], t, debounceMs);
    }
  }

  /** And when no step is possible any more, everything written has been handed to a flush that is over. */
  lemma DrainedMeansEmpty(steps: seq<Step>, s: State, debounceMs: int)
    requires Reaches(START, steps, s, debounceMs)
    requires forall step :: Internal(step) ==> !Enabled(s, step)
    ensures s.pending == [] && s.flushWaiters == [] && s.queue == [] && s.running.Idle? && s.settling == []
    ensures multiset(s.writes) == multiset(s.replaced) + Ended(s)
  {
    RunKeepsInv(START, steps, s, debounceMs);
    assert !Enabled(s, TimerFires) && !Enabled(s, StartTask) && !Enabled(s, FinishFlush(true)) && !Enabled(s, Settle);
  }

  // ---------------------------------------------------------------- every promise, once

  function Times(ids: seq<nat>, i: nat): nat {
    multiset(ids)[i]
  }

  /** How often a promise is among the waiters of some tasks. */
  function Waiting(tasks: seq<Task>, i: nat): nat {
    if tasks == [] then 0 else Waiting(tasks[..|tasks| - 1], i) + Times(tasks[|tasks| - 1].waiters, i)
  }

  function WaitingFor(r: Running, i: nat): nat {
    if r.Idle? then 0 else Times(r.task.waiters, i)
  }

  /** How often the promise of the i-th `write` is anywhere. */
  function Places(s: State, i: nat): nat {
    Times(s.flushWaiters, i) + Waiting(s.queue, i) + WaitingFor(s.running, i) + Waiting(s.settling, i)
    + Times(s.resolved, i) + Waiting(s.dropped, i)
  }

  lemma {:induction false} WaitingAppend(a: seq<Task>, b: seq<Task>, i: nat)
    ensures Waiting(a + b, i) == Waiting(a, i) + Waiting(b, i)
    decreases |b|
  {
    if b == [] {
      assert a + b == a;
    } else {
      WaitingAppend(a, b[..|b| - 1], i);
      assert (a + b)[..|a + b| - 1] == a + b[..|b| - 1];
    }
  }

  lemma WaitingFirst(tasks: seq<Task>, i: nat)
    requires tasks != []
    ensures Waiting(tasks, i) == Times(tasks[0].waiters, i) + Waiting(tasks[1..], i)
  {
    WaitingAppend([tasks[0]], tasks[1..], i);
    assert [] + [tasks[0]] == [tasks[0]] && [tasks[0]] + tasks[1..] == tasks;
  }

  lemma FlushMovesPromises(s: State, callers: seq<nat>, i: nat)
    ensures Places(AfterFlushNow(s, callers), i) == Places(s, i) + Times(callers, i)
  {
  }

  lemma WriteAddsPromise(s: State, key: string, value: string, debounceMs: int, i: nat)
    ensures Places(AfterWrite(s, key, value, debounceMs), i) == Places(s, i) + (if i == |s.writes| then 1 else 0)
  {
    var id := |s.writes|;
    var t := AfterPut(s, Item(key, value, id));
    assert Places(t, i) == Places(s, i);
    FlushMovesPromises(t, [id], i);
  }

  lemma StartMovesPromises(s: State, i: nat)
    requires s.running.Idle? && s.queue != []
    ensures Places(AfterStart(s), i) == Places(s, i)
  {
    WaitingFirst(s.queue, i);
  }

  lemma FinishMovesPromises(s: State, ok: bool, i: nat)
    requires s.running.Flushing?
    ensures Places(AfterFinish(s, ok), i) == Places(s, i)
  {
  }

  lemma SettleMovesPromises(s: State, i: nat)
    requires s.settling != []
    ensures Places(AfterSettle(s), i) == Places(s, i)
  {
    WaitingFirst(s.settling, i);
  }

  /** A `write` adds its promise; every other step moves promises about and neither adds nor loses one. */
  lemma StepKeepsPromises(s: State, step: Step, debounceMs: int, i: nat)
    requires Enabled(s, step)
    ensures Places(Apply(s, step, debounceMs), i) == Places(s, i) + (if step.Write? && i == |s.writes| then 1 else 0)
  {
    match step
    case Write(key, value) => WriteAddsPromise(s, key, value, debounceMs, i);
    case FlushNow => FlushMovesPromises(s, [], i);
    case TimerFires => FlushMovesPromises(s, [], i);
    case StartTask => StartMovesPromises(s, i);
    case FinishFlush(ok) => FinishMovesPromises(s, ok, i);
    case Settle => SettleMovesPromises(s, i);
  }

  lemma StepHistory(s: State, step: Step, debounceMs: int)
    requires Enabled(s, step)
    ensures |Apply(s, step, debounceMs).writes| == |s.writes| + (if step.Write? then 1 else 0)
    ensures step != FinishFlush(false) ==> Apply(s, step, debounceMs).dropped == s.dropped
  {
  }

  lemma {:induction false} RunKeepsPromises(s: State, steps: seq<Step>, t: State, debounceMs: int, i: nat)
    requires Reaches(s, steps, t, debounceMs) && Places(s, i) == if i < |s.writes| then 1 else 0
    ensures Places(t, i) == if i < |t.writes| then 1 else 0
    ensures NoFailure(steps) ==> t.dropped == s.dropped
    decreases |steps|
  {
    if steps != [] {
      StepKeepsPromises(s, steps[0], debounceMs, i);
      StepHistory(s, steps[0], debounceMs);
      RunKeepsPromises(Apply(s, steps[0], debounceMs), steps[1..], t, debounceMs, i);
    }
  }

  /**
   Settlement, failures included: the promise of each `write` is in exactly one
   place and there once: with the waiters of the timer, with a queued, running or
   finished task, resolved, or with a task whose flush failed. From there a
   debounced `write` never hears again, and one without a debounce window is rejected.
   */
  lemma EachPromiseOnce(steps: seq<Step>, s: State, debounceMs: int, i: nat)
    requires Reaches(START, steps, s, debounceMs)
    ensures Places(s, i) == if i < |s.writes| then 1 else 0
    ensures NoFailure(steps) ==> s.dropped == []
  {
    RunKeepsPromises(START, steps, s, debounceMs, i);
  }

  /**
   Once drained, a promise has resolved, and once, exactly when no failed flush
   took it; so without failures every promise has resolved.
   */
  lemma DrainedMeansSettled(steps: seq<Step>, s: State, debounceMs: int, i: nat)
    requires Reaches(START, steps, s, debounceMs) && i < |s.writes|
    requires forall step :: Internal(step) ==> !Enabled(s, step)
    ensures i in s.resolved <==> !InTasks(s.dropped, i)
    ensures Times(s.resolved, i) <= 1
    ensures NoFailure(steps) ==> i in s.resolved
  {
    DrainedMeansEmpty(steps, s, debounceMs);
    EachPromiseOnce(steps, s, debounceMs, i);
    WaitingMeansInTasks(s.dropped, i);
  }

  lemma {:induction false} WaitingMeansInTasks(tasks: seq<Task>, i: nat)
    ensures Waiting(tasks, i) > 0 <==> InTasks(tasks, i)
  {
    if tasks != [] {
      var before, last := tasks[..|tasks| - 1], tasks[|tasks| - 1];
      WaitingMeansInTasks(before, i);
      assert tasks == before + [last];
      TasksSplit(before, [last]);
      OneTask(last);
    }
  }

  // ---------------------------------------------------------------- last write wins

  function Replay(m: map<string, string>, items: seq<Item>): map<string, string>
    decreases |items|
  {
    if items == [] then m else Replay(m[items[0].key := items[0].value], items[1..])
  }

  lemma {:induction false} ReplayAppend(m: map<string, string>, a: seq<Item>, b: seq<Item>)
    ensures Replay(m, a + b) == Replay(Replay(m, a), b)
    decreases |a|
  {
    if a == [] {
      assert a + b == b;
    } else {
      assert (a + b)[1..] == a[1..] + b;
      ReplayAppend(m[a[0].key := a[0].value], a[1..], b);
    }
  }

  /** The last value of a key is what it holds in the end. */
  lemma {:induction false} ReplayIsLastWrite(m: map<string, string>, items: seq<Item>, i: nat)
    requires i < |items| && forall k :: i < k < |items| ==> items[k].key != items[i].key
    ensures items[i].key in Replay(m, items) && Replay(m, items)[items[i].key] == items[i].value
    decreases |items|
  {
    var m' := m[items[0].key := items[0].value];
    if i > 0 {
      assert forall k :: i - 1 < k < |items| - 1 ==> items[1..][k] == items[k + 1];
      ReplayIsLastWrite(m', items[1..], i - 1);
    } else {
      assert forall x :: x in items[1..] ==> x.key != items[0].key;
      ReplayIgnoresEarlier(m, items[1..], items[0].key, items[0].value);
    }
  }

  /** Writing a key first makes no difference when it is written again later. */
  lemma {:induction false} ReplayIgnoresEarlier(m: map<string, string>, items: seq<Item>, key: string, value: string)
    requires forall x :: x in items ==> x.key != key
    ensures Replay(m[key := value], items) == Replay(m, items)[key := value]
    decreases |items|
  {
    if items != [] {
      var x := items[0];
      assert m[key := value][x.key := x.value] == m[x.key := x.value][key := value];
      ReplayIgnoresEarlier(m[x.key := x.value], items[1..], key, value);
    }
  }

  lemma {:induction false} ReplayUpsert(m: map<string, string>, pending: seq<Item>, item: Item)
    requires DistinctKeys(pending)
    ensures Replay(m, Upsert(pending, item)) == Replay(m, pending)[item.key := item.value]
    decreases |pending|
  {
    if pending != [] {
      var x, rest := pending[0], pending[1..];
      assert pending == [x] + rest;
      if x.key == item.key {
        forall y | y in rest ensures y.key != x.key {}
        ReplayIgnoresEarlier(m, rest, item.key, item.value);
        ReplayIgnoresEarlier(m, rest, x.key, x.value);
        assert ([item] + rest)[1..] == rest;
        assert Replay(m, rest)[x.key := x.value][item.key := item.value] == Replay(m, rest)[item.key := item.value];
      } else {
        ReplayUpsert(m[x.key := x.value], rest, item);
        assert Upsert(pending, item)[1..] == Upsert(rest, item);
      }
    }
  }

  /** What the database will hold: completed batches, then the running one, then the pending items. */
  function Outcome(s: State): map<string, string> {
    Replay(Replay(Replay(map[], Flatten(s.completed)), InFlight(s.running)), s.pending)
  }

  lemma WriteKeepsOutcome(s: State, key: string, value: string, debounceMs: int)
    requires DistinctKeys(s.pending)
    ensures Outcome(AfterWrite(s, key, value, debounceMs)) == Outcome(s)[key := value]
    ensures AfterWrite(s, key, value, debounceMs).writes == s.writes + [Item(key, value, |s.writes|)]
  {
    var m := Replay(Replay(map[], Flatten(s.completed)), InFlight(s.running));
    ReplayUpsert(m, s.pending, Item(key, value, |s.writes|));
  }

  lemma FinishKeepsOutcome(s: State)
    requires s.running.Flushing?
    ensures Outcome(AfterFinish(s, true)) == Outcome(s)
  {
    ReplayAppend(map[], Flatten(s.completed), s.running.batch);
  }

  /** A write adds its value to the outcome; no other step that is not a failure changes it. */
  lemma StepKeepsOutcome(s: State, step: Step, debounceMs: int)
    requires Inv(s) && Enabled(s, step) && step != FinishFlush(false)
    ensures var t := Apply(s, step, debounceMs);
            if step.Write? then
              && t.writes == s.writes + [Item(step.key, step.value, |s.writes|)]
              && Outcome(t) == Outcome(s)[step.key := step.value]
            else
              t.writes == s.writes && Outcome(t) == Outcome(s)
  {
    match step
    case Write(key, value) => WriteKeepsOutcome(s, key, value, debounceMs);
    case FinishFlush(ok) => FinishKeepsOutcome(s);
    case _ =>
  }

  lemma StepKeepsRefinement(s: State, step: Step, debounceMs: int)
    requires Inv(s) && Enabled(s, step) && step != FinishFlush(false)
    requires Outcome(s) == Replay(map[], s.writes)
    ensures var t := Apply(s, step, debounceMs); Outcome(t) == Replay(map[], t.writes)
  {
    StepKeepsOutcome(s, step, debounceMs);
    if step.Write? {
      ReplayAppend(map[], s.writes, [Item(step.key, step.value, |s.writes|)]);
    }
  }

  /** The batcher refines direct writes in every failure-free run. */
  lemma {:induction false} LastWriteWins(s: State, steps: seq<Step>, t: State, debounceMs: int)
    requires Inv(s) && Outcome(s) == Replay(map[], s.writes)
    requires Reaches(s, steps, t, debounceMs) && NoFailure(steps)
    ensures Outcome(t) == Replay(map[], t.writes)
    decreases |steps|
  {
    if steps != [] {
      StepKeepsInv(s, steps[0], debounceMs);
      StepKeepsRefinement(s, steps[0], debounceMs);
      LastWriteWins(Apply(s, steps[0], debounceMs), steps[1..], t, debounceMs);
    }
  }

  /**
   From the start; and once drained the database has exactly the outcome of writing
   every value directly, in call order.
   */
  lemma RefinesDirectWrites(steps: seq<Step>, s: State, debounceMs: int)
    requires Reaches(START, steps, s, debounceMs) && NoFailure(steps)
    ensures Outcome(s) == Replay(map[], s.writes)
    ensures s.pending == [] && s.running.Idle? ==> Replay(map[], Flatten(s.completed)) == Replay(map[], s.writes)
  {
    LastWriteWins(START, steps, s, debounceMs);
  }

  // ---------------------------------------------------------------- resolved means flushed

  /** The i-th value, or a later one of its key, is among these items. */
  ghost predicate Covered(writes: seq<Item>, i: nat, items: multiset<Item>) {
    i < |writes| && exists x :: x in items && x in writes && x.key == writes[i].key && i <= x.id
  }

  ghost predicate InTasks(tasks: seq<Task>, i: nat) {
    exists n :: 0 <= n < |tasks| && i in tasks[n].waiters
  }

  /**
   Where a written value is, given where the promise of its `write` call is: a
   waiter of the running task has its value in that batch or an ended one, a
   waiter of a task that is over has it in an ended one.
   */
  ghost predicate FlushedInv(s: State) {
    && (forall i: nat :: i in s.flushWaiters || InTasks(s.queue, i) ==> i < |s.writes|)
    && (forall i: nat :: i < |s.writes| ==> Covered(s.writes, i, Handed(s) + multiset(s.pending)))
    && EndedCovered(s)
  }

  lemma CoveredByAll(writes: seq<Item>, writes': seq<Item>, a: multiset<Item>, b: multiset<Item>)
    requires writes <= writes' && forall x :: x in a ==> x in b
    ensures forall i: nat :: Covered(writes, i, a) ==> Covered(writes', i, b)
  {
    forall i: nat | Covered(writes, i, a) ensures Covered(writes', i, b) {
    }
  }

  lemma TasksSplit(first: seq<Task>, second: seq<Task>)
    ensures forall i: nat :: InTasks(first + second, i) <==> InTasks(first, i) || InTasks(second, i)
  {
    forall i: nat ensures InTasks(first + second, i) <==> InTasks(first, i) || InTasks(second, i) {
      if n :| 0 <= n < |first| && i in first[n].waiters {
        assert i in (first + second)[n].waiters;
      }
      if n :| 0 <= n < |second| && i in second[n].waiters {
        assert i in (first + second)[|first| + n].waiters;
      }
    }
  }

  lemma OneTask(task: Task)
    ensures forall i: nat :: InTasks([task], i) <==> i in task.waiters
  {
    forall i: nat ensures InTasks([task], i) <==> i in task.waiters {
      if i in task.waiters {
        assert i in [task][0].waiters;
      }
    }
  }

  lemma PutKeepsCovered(s: State, item: Item, i: nat)
    requires Accounted(s) && item.id == |s.writes| && i <= |s.writes|
    requires i < |s.writes| ==> Covered(s.writes, i, Handed(s) + multiset(s.pending))
    ensures var t := AfterPut(s, item); Covered(t.writes, i, Handed(t) + multiset(t.pending))
  {
    var t := AfterPut(s, item);
    UpsertKeys(s.pending, item);
    assert t.writes[|s.writes|] == item && item in Handed(t) + multiset(t.pending);
    if i < |s.writes| {
      var x :| x in Handed(s) + multiset(s.pending) && x in s.writes && x.key == s.writes[i].key && i <= x.id;
      assert x in t.writes && t.writes[i] == s.writes[i];
      if x in s.pending && x.key != item.key {
        UpsertConserves(s.pending, item);
        DisplacedItem(s.pending, item.key);
        assert x in multiset(t.pending) + multiset(Displaced(s.pending, item.key));
        assert x in t.pending;
      }
    }
  }

  /** The part of `FlushedInv` that does not speak of what waits or is pending. */
  ghost predicate EndedCovered(s: State) {
    && (forall i: nat :: s.running.Flushing? && i in s.running.task.waiters ==>
          Covered(s.writes, i, Ended(s) + multiset(s.running.batch)))
    && (forall i: nat :: i in s.resolved || InTasks(s.settling, i) ==> Covered(s.writes, i, Ended(s)))
  }

  lemma MoreWritesKeepEnded(s: State, t: State)
    requires EndedCovered(s) && s.writes <= t.writes
    requires t.running == s.running && t.settling == s.settling && t.resolved == s.resolved && Ended(t) == Ended(s)
    ensures EndedCovered(t)
  {
    CoveredByAll(s.writes, t.writes, Ended(s), Ended(s));
    if s.running.Flushing? {
      var a := Ended(s) + multiset(s.running.batch);
      CoveredByAll(s.writes, t.writes, a, a);
    }
  }

  lemma WriteKeepsAllCovered(s: State, key: string, value: string, debounceMs: int)
    requires Inv(s) && FlushedInv(s)
    ensures var t := AfterWrite(s, key, value, debounceMs);
            forall i: nat :: i < |t.writes| ==> Covered(t.writes, i, Handed(t) + multiset(t.pending))
  {
    var t := AfterWrite(s, key, value, debounceMs);
    var u := AfterPut(s, Item(key, value, |s.writes|));
    assert t.writes == u.writes && t.pending == u.pending && Handed(t) == Handed(u);
    forall i: nat | i < |t.writes| ensures Covered(t.writes, i, Handed(t) + multiset(t.pending)) {
      PutKeepsCovered(s, Item(key, value, |s.writes|), i);
    }
  }

  lemma WriteKeepsWaiters(s: State, key: string, value: string, debounceMs: int)
    requires FlushedInv(s)
    ensures var t := AfterWrite(s, key, value, debounceMs);
            forall i: nat :: i in t.flushWaiters || InTasks(t.queue, i) ==> i < |t.writes|
  {
    var id := |s.writes|;
    TasksSplit(s.queue, [Task(s.flushWaiters + [id])]);
    OneTask(Task(s.flushWaiters + [id]));
  }

  lemma FlushKeepsFlushed(s: State)
    requires FlushedInv(s)
    ensures FlushedInv(AfterFlushNow(s, []))
  {
    assert Handed(AfterFlushNow(s, [])) == Handed(s) && Ended(AfterFlushNow(s, [])) == Ended(s);
    TasksSplit(s.queue, [Task(s.flushWaiters + [])]);
    OneTask(Task(s.flushWaiters + []));
  }

  lemma StartKeepsFlushed(s: State)
    requires FlushedInv(s) && s.running.Idle? && s.queue != []
    ensures FlushedInv(AfterStart(s))
  {
    var t := AfterStart(s);
    assert s.queue == [s.queue[0]] + s.queue[1..];
    TasksSplit([s.queue[0]], s.queue[1..]);
    TasksSplit(s.settling, [s.queue[0]]);
    OneTask(s.queue[0]);
    CoveredByAll(s.writes, s.writes, Handed(s) + multiset(s.pending), Handed(t) + multiset(t.pending));
    CoveredByAll(s.writes, s.writes, Handed(s) + multiset(s.pending), Ended(s) + multiset(s.pending));
    if s.pending == [] {
      assert Ended(s) + multiset(s.pending) == Ended(s);
    }
  }

  lemma FinishKeepsFlushed(s: State, ok: bool)
    requires FlushedInv(s) && s.running.Flushing?
    ensures FlushedInv(AfterFinish(s, ok))
  {
    var t := AfterFinish(s, ok);
    TasksSplit(s.settling, [s.running.task]);
    OneTask(s.running.task);
    CoveredByAll(s.writes, s.writes, Handed(s) + multiset(s.pending), Handed(t) + multiset(t.pending));
    CoveredByAll(s.writes, s.writes, Ended(s) + multiset(s.running.batch), Ended(t));
    CoveredByAll(s.writes, s.writes, Ended(s), Ended(t));
  }

  lemma SettleKeepsFlushed(s: State)
    requires FlushedInv(s) && s.settling != []
    ensures FlushedInv(AfterSettle(s))
  {
    assert Handed(AfterSettle(s)) == Handed(s) && Ended(AfterSettle(s)) == Ended(s);
    assert s.settling == [s.settling[0]] + s.settling[1..];
    TasksSplit([s.settling[0]], s.settling[1..]);
    OneTask(s.settling[0]);
  }

  lemma StepKeepsFlushed(s: State, step: Step, debounceMs: int)
    requires Inv(s) && FlushedInv(s) && Enabled(s, step)
    ensures FlushedInv(Apply(s, step, debounceMs))
    ensures step != FinishFlush(false) ==> Apply(s, step, debounceMs).failed == s.failed
  {
    match step
    case Write(key, value) =>
      WriteKeepsAllCovered(s, key, value, debounceMs);
      WriteKeepsWaiters(s, key, value, debounceMs);
      MoreWritesKeepEnded(s, AfterWrite(s, key, value, debounceMs));
    case FlushNow => FlushKeepsFlushed(s);
    case TimerFires => FlushKeepsFlushed(s);
    case StartTask => StartKeepsFlushed(s);
    case FinishFlush(ok) => FinishKeepsFlushed(s, ok);
    case Settle => SettleKeepsFlushed(s);
  }

  lemma {:induction false} RunKeepsInv(s: State, steps: seq<Step>, t: State, debounceMs: int)
    requires Inv(s) && FlushedInv(s) && Reaches(s, steps, t, debounceMs)
    ensures Inv(t) && FlushedInv(t)
    ensures NoFailure(steps) ==> t.failed == s.failed
    decreases |steps|
  {
    if steps != [] {
      StepKeepsInv(s, steps[0], debounceMs);
      StepKeepsFlushed(s, steps[0], debounceMs);
      RunKeepsInv(Apply(s, steps[0], debounceMs), steps[1..], t, debounceMs);
    }
  }

  /**
   Resolved means flushed: when the promise of the i-th `write` has resolved, a
   flush that is over held its value or a later one of the same key, even if
   another queued task took the item; in a run without failed flushes that flush
   was a completed one.
   */
  lemma ResolvedIsDurable(steps: seq<Step>, s: State, debounceMs: int, i: nat)
    requires Reaches(START, steps, s, debounceMs) && i in s.resolved
    ensures Covered(s.writes, i, Bag(s.completed) + Bag(s.failed))
    ensures NoFailure(steps) ==> Covered(s.writes, i, Bag(s.completed))
  {
    RunKeepsInv(START, steps, s, debounceMs);
    if NoFailure(steps) {
      assert Bag(s.completed) + Bag(s.failed) == Bag(s.completed);
    }
  }
}
