/** The request/response protocol between the SQLite adapter and its worker. */
module SqliteRpc {
  // The main thread (src/adapters/sqlite-adapter.ts) numbers its requests and keeps a
  // table of the calls that wait for an answer; two channels keep messages in order.

  import opened Wrappers
  import opened SqliteWorker

  datatype Request = Request(id: nat, op: Op)
  datatype Response = Response(id: nat, result: Result<Reply>)

  /** How the promise of a call ended. */
  datatype Outcome = Answer(result: Result<Reply>) | WorkerError
  datatype Settlement = Settlement(id: nat, outcome: Outcome)

  /** The main thread: `pending` is in insertion order, `settled` is the history of settled promises. */
  datatype Main = Main(ready: bool, nextId: nat, pending: seq<nat>, settled: seq<Settlement>)

  /**
   The whole system. `posted` lists every request in posting order; for those the
   worker has executed, `times` is the clock reading it saw and `results` its
   answer; `delivered` counts the answers that have reached the main thread.
   */
  datatype State = State(
    main: Main, toWorker: seq<Request>, toMain: seq<Response>, db: Db, alive: bool,
    posted: seq<Op>, times: seq<int>, results: seq<Result<Reply>>, delivered: nat)

  datatype Step =
    | Started
    | Call(op: Op)
    | Handle(now: int)
    | Deliver
    | Crash

  const START := State(Main(false, 1, [], []), [], [], EMPTY_DB, true, [], [], [], 0)

  // ---------------------------------------------------------------- the main thread

  function Remove(ids: seq<nat>, id: nat): seq<nat> {
    if ids == [] then []
    else if ids[0] == id then ids[1..]
    else [ids[0]] + Remove(ids[1..], id)
  }

  function AfterCall(m: Main): Main {
    m.(nextId := m.nextId + 1, pending := m.pending + [m.nextId])
  }

  function AfterMessage(m: Main, msg: Response): Main {
    if msg.id == 0 then m.(ready := m.ready || msg.result.Ok?)
    else if msg.id !in m.pending then m
    else m.(pending := Remove(m.pending, msg.id), settled := m.settled + [Settlement(msg.id, Answer(msg.result))])
  }

  function Rejected(ids: seq<nat>): seq<Settlement> {
    if ids == [] then [] else Rejected(ids[..|ids| - 1]) + [Settlement(ids[|ids| - 1], WorkerError)]
  }

  function AfterError(m: Main): Main {
    m.(pending := [], settled := m.settled + Rejected(m.pending))
  }

  class Adapter {
    var ready: bool
    var nextRequestId: nat
    var pending: seq<nat>
    ghost var settled: seq<Settlement>

    ghost function View(): Main
      reads this
    {
      Main(ready, nextRequestId, pending, settled)
    }

    constructor ()
      ensures View() == START.main
    {
      ready, nextRequestId, pending, settled := false, 1, [], [];
    }

    method Call(op: Op) returns (request: Request)
      requires ready
      modifies this`nextRequestId, this`pending
      ensures View() == AfterCall(old(View())) && request == Request(old(nextRequestId), op)
    {
      var id := nextRequestId;
      nextRequestId := nextRequestId + 1;
      pending := pending + [id];
      request := Request(id, op);
    }

    method OnMessage(msg: Response)
      modifies this`ready, this`pending, this`settled
      ensures View() == AfterMessage(old(View()), msg)
    {
      if msg.id == 0 {
        if msg.result.Ok? {
          ready := true;
        }
        return;
      }
      if msg.id !in pending {
        return;
      }
      pending := Remove(pending, msg.id);
      settled := settled + [Settlement(msg.id, Answer(msg.result))];
    }

    method OnError()
      modifies this`pending, this`settled
      ensures View() == AfterError(old(View()))
    {
      var i := 0;
      while i < |pending|
        invariant 0 <= i <= |pending|
        invariant pending == old(pending) && ready == old(ready) && nextRequestId == old(nextRequestId)
        invariant settled == old(settled) + Rejected(pending[..i])
      {
        assert pending[..i + 1][..i] == pending[..i];
        settled := settled + [Settlement(pending[i], WorkerError)];
        i := i + 1;
      }
      assert pending[..i] == pending;
      pending := [];
    }
  }

  // ---------------------------------------------------------------- the system

  predicate Enabled(s: State, step: Step) {
    match step
    case Started => !s.main.ready
    case Call(_) => s.main.ready
    case Handle(_) => s.alive && s.toWorker != []
    case Deliver => s.toMain != []
    case Crash => s.alive
  }

  function Apply(s: State, step: Step): State
    requires Enabled(s, step)
  {
    match step
    case Started => s.(main := AfterMessage(s.main, Response(0, Ok(Nothing))))
    case Call(op) =>
      s.(main := AfterCall(s.main), toWorker := s.toWorker + [Request(s.main.nextId, op)], posted := s.posted + [op])
    case Handle(now) =>
      var (db, result) := Exec(s.db, s.toWorker[0].op, now);
      s.(db := db, toWorker := s.toWorker[1..], toMain := s.toMain + [Response(s.toWorker[0].id, result)],
         times := s.times + [now], results := s.results + [result])
    case Deliver =>
      s.(main := AfterMessage(s.main, s.toMain[0]), toMain := s.toMain[1..], delivered := s.delivered + 1)
    case Crash => s.(main := AfterError(s.main), alive := false)
  }

  ghost predicate Reaches(s: State, steps: seq<Step>, t: State)
    decreases |steps|
  {
    if steps == [] then s == t else Enabled(s, steps[0]) && Reaches(Apply(s, steps[0]), steps[1..], t)
  }

  // ---------------------------------------------------------------- the sequential reference

  /** The table after the first n requests, executed one after another. */
  function Table(posted: seq<Op>, times: seq<int>, n: nat): Db
    requires n <= |posted| && n <= |times|
  {
    if n == 0 then EMPTY_DB else Exec(Table(posted, times, n - 1), posted[n - 1], times[n - 1]).0
  }

  /** The result of request number i (counting from 0) in that execution. */
  function ResultOf(posted: seq<Op>, times: seq<int>, i: nat): Result<Reply>
    requires i < |posted| && i < |times|
  {
    Exec(Table(posted, times, i), posted[i], times[i]).1
  }

  lemma {:induction false} TableStable(posted: seq<Op>, times: seq<int>, posted': seq<Op>, times': seq<int>, n: nat)
    requires n <= |posted| && n <= |times| && posted <= posted' && times <= times'
    ensures Table(posted, times, n) == Table(posted', times', n)
  {
    if n > 0 {
      TableStable(posted, times, posted', times', n - 1);
    }
  }

  // ---------------------------------------------------------------- the invariant

  /** The worker's answers and table are those of the sequential execution. */
  ghost predicate Sequential(s: State) {
    && |s.results| == |s.times| <= |s.posted|
    && (forall i :: 0 <= i < |s.results| ==> s.results[i] == ResultOf(s.posted, s.times, i))
    && s.db == Table(s.posted, s.times, |s.times|)
  }

  /** What travels in the two channels, by request number. */
  ghost predicate Wired(s: State) {
    && s.main.nextId == |s.posted| + 1
    && s.delivered <= |s.results| == |s.times| <= |s.posted|
    && |s.toWorker| == |s.posted| - |s.results|
    && (forall j :: 0 <= j < |s.toWorker| ==> s.toWorker[j] == Request(|s.results| + 1 + j, s.posted[|s.results| + j]))
    && |s.toMain| == |s.results| - s.delivered
    && (forall j :: 0 <= j < |s.toMain| ==> s.toMain[j] == Response(s.delivered + 1 + j, s.results[s.delivered + j]))
  }

  /** Before a crash, the waiting calls are exactly the requests without a delivered answer, in order. */
  ghost predicate InStep(s: State) {
    && s.delivered <= |s.results| <= |s.posted|
    && |s.main.pending| == |s.posted| - s.delivered
    && (forall j :: 0 <= j < |s.main.pending| ==> s.main.pending[j] == s.delivered + 1 + j)
    && |s.main.settled| == s.delivered
    && (forall j :: 0 <= j < s.delivered ==> s.main.settled[j] == Settlement(j + 1, Answer(s.results[j])))
  }

  ghost predicate Increasing(ids: seq<nat>) {
    forall i, j :: 0 <= i < j < |ids| ==> ids[i] < ids[j]
  }

  /** Always: nothing settles twice, and an answer is the answer to that call. */
  ghost predicate Sound(s: State) {
    && Increasing(s.main.pending)
    && (forall x :: x in s.main.pending ==> s.delivered < x <= |s.posted|)
    && SettledSound(s.main, |s.posted|, s.results)
  }

  ghost predicate SettledSound(m: Main, posted: nat, results: seq<Result<Reply>>) {
    && (forall j :: 0 <= j < |m.settled| ==> 1 <= m.settled[j].id <= posted && m.settled[j].id !in m.pending)
    && (forall i, j :: 0 <= i < j < |m.settled| ==> m.settled[i].id != m.settled[j].id)
    && (forall j :: 0 <= j < |m.settled| && m.settled[j].outcome.Answer? ==>
          m.settled[j].id <= |results| && m.settled[j].outcome.result == results[m.settled[j].id - 1])
  }

  ghost predicate Inv(s: State) {
    Sequential(s) && Wired(s) && Sound(s) && (s.alive ==> InStep(s))
  }

  lemma {:induction false} RemoveEffect(ids: seq<nat>, id: nat)
    requires Increasing(ids)
    ensures Increasing(Remove(ids, id)) && forall x :: x in Remove(ids, id) <==> x in ids && x != id
    ensures ids != [] && id == ids[0] ==> Remove(ids, id) == ids[1..]
  {
    if ids != [] {
      assert ids == [ids[0]] + ids[1..];
      if ids[0] != id {
        RemoveEffect(ids[1..], id);
        IncreasingFirst(ids[0], Remove(ids[1..], id));
      }
    }
  }

  lemma IncreasingFirst(first: nat, rest: seq<nat>)
    requires Increasing(rest) && forall x :: x in rest ==> first < x
    ensures Increasing([first] + rest)
  {
    forall j | 0 <= j < |rest| ensures first < rest[j] {
      assert rest[j] in rest;
    }
  }

  lemma {:induction false} RejectedEffect(ids: seq<nat>)
    ensures |Rejected(ids)| == |ids|
    ensures forall j :: 0 <= j < |ids| ==> Rejected(ids)[j] == Settlement(ids[j], WorkerError)
  {
    if ids != [] {
      RejectedEffect(ids[..|ids| - 1]);
    }
  }

  lemma StepKeepsSequential(s: State, step: Step)
    requires Sequential(s) && Wired(s) && Enabled(s, step)
    ensures Sequential(Apply(s, step))
  {
    var t := Apply(s, step);
    assert s.posted <= t.posted && s.times <= t.times;
    forall i | 0 <= i < |s.results| ensures ResultOf(t.posted, t.times, i) == s.results[i] {
      TableStable(s.posted, s.times, t.posted, t.times, i);
    }
    TableStable(s.posted, s.times, t.posted, t.times, |s.times|);
  }

  lemma CallKeepsSound(s: State, op: Op)
    requires Wired(s) && Sound(s) && Enabled(s, Call(op))
    ensures Sound(Apply(s, Call(op)))
    ensures InStep(s) ==> InStep(Apply(s, Call(op)))
  {
    var t := Apply(s, Call(op));
    forall i, j | 0 <= i < j < |t.main.pending| ensures t.main.pending[i] < t.main.pending[j] {
      assert t.main.pending[i] in s.main.pending;
    }
  }

  lemma HandleKeepsRest(s: State, now: int)
    requires Wired(s) && Sound(s) && Enabled(s, Handle(now))
    ensures Wired(Apply(s, Handle(now))) && Sound(Apply(s, Handle(now)))
    ensures InStep(s) ==> InStep(Apply(s, Handle(now)))
  {
    assert s.toWorker[0] == Request(|s.results| + 1, s.posted[|s.results|]);
  }

  lemma DeliverKeepsSettled(m: Main, posted: nat, results: seq<Result<Reply>>, msg: Response)
    requires Increasing(m.pending) && SettledSound(m, posted, results)
    requires 1 <= msg.id <= posted && msg.id <= |results| && msg.result == results[msg.id - 1]
    ensures SettledSound(AfterMessage(m, msg), posted, results)
  {
    RemoveEffect(m.pending, msg.id);
  }

  lemma DeliverKeepsSound(s: State)
    requires Wired(s) && Sound(s) && s.toMain != []
    ensures Sound(Apply(s, Deliver))
  {
    assert s.toMain[0] == Response(s.delivered + 1, s.results[s.delivered]);
    DeliverKeepsSettled(s.main, |s.posted|, s.results, s.toMain[0]);
    RemoveEffect(s.main.pending, s.delivered + 1);
  }

  lemma DeliverKeepsInStep(s: State)
    requires Wired(s) && Sound(s) && InStep(s) && s.toMain != []
    ensures InStep(Apply(s, Deliver))
  {
    assert s.toMain[0] == Response(s.delivered + 1, s.results[s.delivered]);
    assert s.main.pending[0] == s.delivered + 1;
    RemoveEffect(s.main.pending, s.delivered + 1);
  }

  lemma DeliverKeepsWired(s: State)
    requires Wired(s) && s.toMain != []
    ensures Wired(Apply(s, Deliver))
  {
    assert s.toMain[0].id == s.delivered + 1;
  }

  lemma CrashKeepsSettled(m: Main, posted: nat, results: seq<Result<Reply>>)
    requires Increasing(m.pending) && SettledSound(m, posted, results)
    requires forall x :: x in m.pending ==> 1 <= x <= posted
    ensures SettledSound(AfterError(m), posted, results)
  {
    RejectedEffect(m.pending);
    var t, n := AfterError(m).settled, |m.settled|;
    forall j | n <= j < |t| ensures t[j].outcome == WorkerError && t[j].id == m.pending[j - n] && t[j].id in m.pending {
      assert t[j] == Rejected(m.pending)[j - n];
    }
  }

  lemma CallKeepsWired(s: State, op: Op)
    requires Wired(s) && Enabled(s, Call(op))
    ensures Wired(Apply(s, Call(op)))
  {
  }

  lemma StepKeepsInv(s: State, step: Step)
    requires Inv(s) && Enabled(s, step)
    ensures Inv(Apply(s, step))
  {
    StepKeepsSequential(s, step);
    match step
    case Started => assert Apply(s, step).main == s.main.(ready := true);
    case Call(op) =>
      CallKeepsWired(s, op);
      CallKeepsSound(s, op);
    case Handle(now) => HandleKeepsRest(s, now);
    case Deliver =>
      DeliverKeepsWired(s);
      DeliverKeepsSound(s);
      if s.alive {
        DeliverKeepsInStep(s);
      }
    case Crash => CrashKeepsSettled(s.main, |s.posted|, s.results);
  }

  lemma {:induction false} RunKeepsInv(s: State, steps: seq<Step>, t: State)
    requires Inv(s) && Reaches(s, steps, t)
    ensures Inv(t)
    ensures s.alive && (forall i :: 0 <= i < |steps| ==> !steps[i].Crash?) ==> t.alive
    decreases |steps|
  {
    if steps != [] {
      StepKeepsInv(s, steps[0]);
      RunKeepsInv(Apply(s, steps[0]), steps[1..], t);
    }
  }

  // ---------------------------------------------------------------- the claims

  /**
   Linearizability, in every run without a worker error: the waiting calls are
   exactly those posted and not yet answered, the calls settle in posting order
   each with the result its request has in the sequential execution of all
   requests in posting order, and the worker's table is the one of that execution.
   */
  lemma Linearizable(steps: seq<Step>, s: State)
    requires Reaches(START, steps, s) && forall i :: 0 <= i < |steps| ==> !steps[i].Crash?
    ensures |s.times| <= |s.posted| && s.db == Table(s.posted, s.times, |s.times|)
    ensures forall id :: id in s.main.pending <==> s.delivered < id <= |s.posted|
    ensures s.delivered <= |s.times| && |s.main.settled| == s.delivered
    ensures forall j :: 0 <= j < s.delivered ==>
              s.main.settled[j] == Settlement(j + 1, Answer(ResultOf(s.posted, s.times, j)))
  {
    RunKeepsInv(START, steps, s);
    forall id | s.delivered < id <= |s.posted| ensures id in s.main.pending {
      assert s.main.pending[id - s.delivered - 1] == id;
    }
  }

  /** In every run, errors included: each call settles at most once, and an answer is its own request's result. */
  lemma SettlesOnce(steps: seq<Step>, s: State)
    requires Reaches(START, steps, s)
    ensures forall i, j :: 0 <= i < j < |s.main.settled| ==> s.main.settled[i].id != s.main.settled[j].id
    ensures forall j :: 0 <= j < |s.main.settled| ==>
              && 1 <= s.main.settled[j].id <= |s.posted| && s.main.settled[j].id !in s.main.pending
              && (s.main.settled[j].outcome.Answer? ==>
                    && s.main.settled[j].id <= |s.times|
                    && s.main.settled[j].outcome.result == ResultOf(s.posted, s.times, s.main.settled[j].id - 1))
  {
    RunKeepsInv(START, steps, s);
  }

  /** Once the channels are empty in a run without a worker error, every call has been answered. */
  lemma QuietMeansAnswered(steps: seq<Step>, s: State)
    requires Reaches(START, steps, s) && forall i :: 0 <= i < |steps| ==> !steps[i].Crash?
    requires s.toWorker == [] && s.toMain == []
    ensures s.main.pending == [] && |s.main.settled| == |s.posted|
  {
    RunKeepsInv(START, steps, s);
  }

  // ---------------------------------------------------------------- what a caller reads

  /** From request i + 1 up to request j the row stays as request i left it. */
  lemma {:induction false} RowStays(posted: seq<Op>, times: seq<int>, i: nat, j: nat, sid: string, key: string,
                                    value: Option<string>)
    requires i < j <= |posted| && j <= |times|
    requires Usable(Table(posted, times, i)) && Leaves(posted[i], sid, key, value)
    requires forall n :: i < n < j ==> Spares(posted[n], sid, key) && !posted[n].Close?
    ensures Usable(Table(posted, times, j)) && RowIs(Table(posted, times, j).rows, sid, key, value)
    decreases j
  {
    if j == i + 1 {
      WriteLeaves(Table(posted, times, i), posted[i], sid, key, value, times[i]);
    } else {
      RowStays(posted, times, i, j - 1, sid, key, value);
      OtherSpares(Table(posted, times, j - 1), posted[j - 1], sid, key, times[j - 1]);
    }
  }

  /**
   Read your writes: if a write that was answered without an error is followed by a
   `get` of its row, with nothing between that writes the row or closes the handle,
   the promise of the `get` settles with the value written, or with no row after a
   deletion.
   */
  lemma ReadYourWrites(steps: seq<Step>, s: State, i: nat, j: nat, sid: string, key: string, value: Option<string>)
    requires Reaches(START, steps, s) && forall n :: 0 <= n < |steps| ==> !steps[n].Crash?
    requires i < j < s.delivered && j < |s.main.settled| && j < |s.posted|
    requires Leaves(s.posted[i], sid, key, value) && s.posted[j] == Get(sid, key)
    requires s.main.settled[i].outcome == Answer(Ok(Nothing))
    requires forall n :: i < n < j ==> Spares(s.posted[n], sid, key) && !s.posted[n].Close?
    ensures var outcome := s.main.settled[j].outcome;
            && s.main.settled[j].id == j + 1
            && outcome.Answer? && outcome.result.Ok? && outcome.result.value.OneRow?
            && (outcome.result.value.row.Some? <==> value.Some?)
            && (value.Some? ==> outcome.result.value.row.value.value == value.value)
  {
    Linearizable(steps, s);
    AnsweredMeansUsable(Table(s.posted, s.times, i), s.posted[i], sid, key, value, s.times[i]);
    RowStays(s.posted, s.times, i, j, sid, key, value);
    GetAnswersRow(Table(s.posted, s.times, j), sid, key, s.times[j]);
  }

  /** Only an empty deletion succeeds without a table, and it deletes nothing. */
  lemma AnsweredMeansUsable(db: Db, op: Op, sid: string, key: string, value: Option<string>, now: int)
    requires Leaves(op, sid, key, value) && Exec(db, op, now).1.Ok?
    ensures Usable(db)
  {
  }

  /**
   A call is answered: with a ready worker and quiet channels it can be posted,
   handled and delivered, and then its promise has the result of its request.
   */
  lemma CallIsAnswered(s: State, op: Op, now: int)
    requires Inv(s) && s.alive && s.main.ready && s.toWorker == [] && s.toMain == []
    ensures Enabled(s, Call(op)) && Enabled(Apply(s, Call(op)), Handle(now))
    ensures Enabled(Apply(Apply(s, Call(op)), Handle(now)), Deliver)
    ensures var t := Apply(Apply(Apply(s, Call(op)), Handle(now)), Deliver);
            && t.main.settled == s.main.settled + [Settlement(|s.posted| + 1, Answer(Exec(s.db, op, now).1))]
            && t.db == Exec(s.db, op, now).0 && t.toWorker == [] && t.toMain == []
  {
    var t := Apply(Apply(s, Call(op)), Handle(now));
    assert s.main.pending == [];
    assert t.toMain == [Response(|s.posted| + 1, Exec(s.db, op, now).1)];
  }

  /** And the worker becomes ready by its first message, unless that reports a failure. */
  lemma StartMakesReady(error: string)
    ensures Enabled(START, Started) && Apply(START, Started) == START.(main := START.main.(ready := true))
    ensures AfterMessage(START.main, Response(0, Err(error))) == START.main
  {
  }

  // ---------------------------------------------------------------- no call is forgotten

  /** Every posted call waits or has settled. */
  ghost predicate NoneForgotten(s: State) {
    forall id: nat :: 1 <= id < s.main.nextId ==> id in s.main.pending || HasSettled(s.main, id)
  }

  ghost predicate HasSettled(m: Main, id: nat) {
    exists j :: 0 <= j < |m.settled| && m.settled[j].id == id
  }

  lemma SettledStays(m: Main, t: Main, id: nat)
    requires m.settled <= t.settled && HasSettled(m, id)
    ensures HasSettled(t, id)
  {
    var j :| 0 <= j < |m.settled| && m.settled[j].id == id;
    assert t.settled[j].id == id;
  }

  lemma StepForgetsNone(s: State, step: Step)
    requires Inv(s) && NoneForgotten(s) && Enabled(s, step)
    ensures NoneForgotten(Apply(s, step))
  {
    var t := Apply(s, step);
    forall id: nat | 1 <= id < t.main.nextId ensures id in t.main.pending || HasSettled(t.main, id) {
      if id < s.main.nextId && HasSettled(s.main, id) {
        SettledStays(s.main, t.main, id);
      } else if step.Deliver? {
        RemoveEffect(s.main.pending, s.toMain[0].id);
        var n := |s.main.settled|;
        assert s.toMain[0].id in s.main.pending ==> t.main.settled[n].id == s.toMain[0].id;
      } else if step.Crash? {
        CrashRejects(s.main, id);
      }
    }
  }

  /** A worker error rejects every waiting call with that error, once each, and nothing waits any more. */
  lemma CrashRejects(m: Main, id: nat)
    ensures AfterError(m).pending == [] && |AfterError(m).settled| == |m.settled| + |m.pending|
    ensures m.settled <= AfterError(m).settled
    ensures forall j :: 0 <= j < |m.pending| ==>
              AfterError(m).settled[|m.settled| + j] == Settlement(m.pending[j], WorkerError)
    ensures id in m.pending ==> HasSettled(AfterError(m), id)
  {
    RejectedEffect(m.pending);
    if id in m.pending {
      var j :| 0 <= j < |m.pending| && m.pending[j] == id;
      assert AfterError(m).settled[|m.settled| + j].id == id;
    }
  }

  lemma {:induction false} RunForgetsNone(s: State, steps: seq<Step>, t: State)
    requires Inv(s) && NoneForgotten(s) && Reaches(s, steps, t)
    ensures NoneForgotten(t) && Inv(t)
    decreases |steps|
  {
    if steps != [] {
      StepKeepsInv(s, steps[0]);
      StepForgetsNone(s, steps[0]);
      RunForgetsNone(Apply(s, steps[0]), steps[1..], t);
    }
  }

  /** In every run, errors included, each posted call either still waits or has settled, and not both. */
  lemma WaitsOrSettled(steps: seq<Step>, s: State, id: nat)
    requires Reaches(START, steps, s) && 1 <= id <= |s.posted|
    ensures id in s.main.pending <==> !HasSettled(s.main, id)
  {
    RunForgetsNone(START, steps, s);
  }
}
