/** The database worker (src/adapters/sqlite-worker.ts): one table keyed by session and key. */
module SqliteWorker {
  // `Exec` is the sequential meaning of one request; the class performs it.

  import opened Wrappers
  import opened Records
  import opened CacheKeys

  type Rows = map<Pair, Row>

  datatype Op =
    | Init
    | Get(sid: string, key: string)
    | GetMany(sid: string, keys: seq<string>)
    | SetMany(sid: string, entries: seq<KeyValue>)
    | DeleteMany(sid: string, keys: seq<string>)
    | GetAllKeys(sid: string)
    | DeleteSession(sid: string)
    | ListSessions
    | SessionExists(sid: string)
    | Close
    | Unknown(name: string)

  /** Row lists come without an order, so they are maps and sets here. */
  datatype Reply =
    | Nothing
    | OneRow(row: Option<Row>)
    | ManyRows(rows: map<string, Row>)
    | Names(names: set<string>)
    | Flag(flag: bool)

  /** `created`: the table exists. `open`: the handle has not been closed. */
  datatype Db = Db(rows: Rows, created: bool, open: bool)

  const EMPTY_DB := Db(map[], false, true)

  // ---------------------------------------------------------------- the table

  function Find(rows: Rows, sid: string, key: string): Option<Row> {
    if Pair(sid, key) in rows then Some(rows[Pair(sid, key)]) else None
  }

  function Select(rows: Rows, sid: string, keys: seq<string>): map<string, Row> {
    map k | k in keys && Pair(sid, k) in rows :: rows[Pair(sid, k)]
  }

  function Upsert(rows: Rows, sid: string, e: KeyValue, now: int): Rows {
    var p := Pair(sid, e.key);
    rows[p := Row(e.value, now, if p in rows then rows[p].version + 1 else 1)]
  }

  function UpsertAll(rows: Rows, sid: string, entries: seq<KeyValue>, now: int): Rows {
    if entries == [] then rows
    else Upsert(UpsertAll(rows, sid, entries[..|entries| - 1], now), sid, entries[|entries| - 1], now)
  }

  function RemoveAll(rows: Rows, sid: string, keys: seq<string>): Rows {
    map p | p in rows && !(p.sid == sid && p.key in keys) :: rows[p]
  }

  function RemoveSession(rows: Rows, sid: string): Rows {
    map p | p in rows && p.sid != sid :: rows[p]
  }

  function KeysOf(rows: Rows, sid: string): set<string> {
    set p | p in rows && p.sid == sid :: p.key
  }

  function SessionsOf(rows: Rows): set<string> {
    set p | p in rows :: p.sid
  }

  // ---------------------------------------------------------------- what a batch does

  function Occurrences(entries: seq<KeyValue>, key: string): nat {
    if entries == [] then 0
    else Occurrences(entries[..|entries| - 1], key) + (if entries[|entries| - 1].key == key then 1 else 0)
  }

  /**
   A batch stores, for each of its keys, the last value given, the time of the
   batch, and a version raised once per occurrence; every other row is untouched.
   */
  lemma {:induction false} UpsertAllEffect(rows: Rows, sid: string, entries: seq<KeyValue>, now: int, p: Pair)
    ensures var t := UpsertAll(rows, sid, entries, now);
            if p.sid == sid && LastValue(entries, p.key).Some? then
              p in t && t[p] == Row(LastValue(entries, p.key).value, now,
                                    (if p in rows then rows[p].version else 0) + Occurrences(entries, p.key))
            else
              (p in t <==> p in rows) && (p in t ==> t[p] == rows[p])
    ensures LastValue(entries, p.key).None? <==> Occurrences(entries, p.key) == 0
  {
    if entries != [] {
      UpsertAllEffect(rows, sid, entries[..|entries| - 1], now, p);
    }
  }

  // ---------------------------------------------------------------- requests

  /** The driver's own error message is not modelled. */
  const DRIVER_ERROR := "sqlite driver error"

  /** The driver rejects the request: the handle is closed, or the table does not exist yet. */
  predicate Fails(db: Db, op: Op) {
    match op
    case Init => !db.open
    case GetMany(_, keys) => keys != [] && !(db.open && db.created)
    case DeleteMany(_, keys) => keys != [] && !(db.open && db.created)
    case Close => false
    case Unknown(_) => false
    case _ => !(db.open && db.created)
  }

  /** One request, executed at time `now`: the new table and the answer, or an error and no change. */
  function Exec(db: Db, op: Op, now: int): (Db, Result<Reply>) {
    if Fails(db, op) then (db, Err(DRIVER_ERROR))
    else
      match op
      case Init => (db.(created := true), Ok(Nothing))
      case Get(sid, key) => (db, Ok(OneRow(Find(db.rows, sid, key))))
      case GetMany(sid, keys) => (db, Ok(ManyRows(Select(db.rows, sid, keys))))
      case SetMany(sid, entries) => (db.(rows := UpsertAll(db.rows, sid, entries, now)), Ok(Nothing))
      case DeleteMany(sid, keys) => (db.(rows := RemoveAll(db.rows, sid, keys)), Ok(Nothing))
      case GetAllKeys(sid) => (db, Ok(Names(KeysOf(db.rows, sid))))
      case DeleteSession(sid) => (db.(rows := RemoveSession(db.rows, sid)), Ok(Nothing))
      case ListSessions => (db, Ok(Names(SessionsOf(db.rows))))
      case SessionExists(sid) => (db, Ok(Flag(KeysOf(db.rows, sid) != {})))
      case Close => (db.(open := false), Ok(Nothing))
      case Unknown(name) => (db, Err("Unknown sqlite worker op: " + name))
  }

  // ---------------------------------------------------------------- what the answers say

  /** The handle is open and the table exists. */
  predicate Usable(db: Db) {
    db.open && db.created
  }

  /** `get` answers exactly the row of that session and key, and changes nothing. */
  lemma GetAnswersRow(db: Db, sid: string, key: string, now: int)
    requires Usable(db)
    ensures Exec(db, Get(sid, key), now) ==
            (db, Ok(OneRow(if Pair(sid, key) in db.rows then Some(db.rows[Pair(sid, key)]) else None)))
  {
  }

  /** `getMany` answers exactly the rows of the listed keys. */
  lemma GetManyAnswersRows(db: Db, sid: string, keys: seq<string>, now: int)
    requires Usable(db)
    ensures Exec(db, GetMany(sid, keys), now).0 == db && Exec(db, GetMany(sid, keys), now).1.Ok?
    ensures var reply := Exec(db, GetMany(sid, keys), now).1.value;
            && reply.ManyRows?
            && (forall k :: k in reply.rows <==> k in keys && Pair(sid, k) in db.rows)
            && (forall k :: k in reply.rows ==> reply.rows[k] == db.rows[Pair(sid, k)])
  {
  }

  /** The listings answer exactly the session's keys, the sessions with rows, and whether there is a row at all. */
  lemma ListingsAnswerKeys(db: Db, sid: string, now: int)
    requires Usable(db)
    ensures var (t, result) := Exec(db, GetAllKeys(sid), now);
            && t == db && result.Ok? && result.value.Names?
            && forall k :: k in result.value.names <==> Pair(sid, k) in db.rows
    ensures var (t, result) := Exec(db, ListSessions, now);
            && t == db && result.Ok? && result.value.Names?
            && forall x :: x in result.value.names <==> exists k :: Pair(x, k) in db.rows
    ensures Exec(db, SessionExists(sid), now) == (db, Ok(Flag(exists k :: Pair(sid, k) in db.rows)))
  {
    KeysByPair(db.rows, sid);
    forall x ensures x in SessionsOf(db.rows) <==> exists k :: Pair(x, k) in db.rows {
      if p :| p in db.rows && p.sid == x {
        assert Pair(x, p.key) == p;
      }
      if k :| Pair(x, k) in db.rows {
        assert Pair(x, k).sid == x;
      }
    }
    if KeysOf(db.rows, sid) != {} {
      var k :| k in KeysOf(db.rows, sid);
      assert Pair(sid, k) in db.rows;
    }
  }

  lemma KeysByPair(rows: Rows, sid: string)
    ensures forall k :: k in KeysOf(rows, sid) <==> Pair(sid, k) in rows
  {
    forall k ensures k in KeysOf(rows, sid) <==> Pair(sid, k) in rows {
      if Pair(sid, k) in rows {
        assert Pair(sid, k).sid == sid && Pair(sid, k).key == k;
      }
    }
  }

  /** A request after which this value, or without one no row, is what the session has under the key. */
  predicate Leaves(op: Op, sid: string, key: string, value: Option<string>) {
    match op
    case SetMany(x, entries) => x == sid && value.Some? && LastValue(entries, key) == value
    case DeleteMany(x, keys) => x == sid && value.None? && key in keys
    case DeleteSession(x) => x == sid && value.None?
    case _ => false
  }

  /** A request that does not write the row. */
  predicate Spares(op: Op, sid: string, key: string) {
    match op
    case SetMany(x, entries) => x != sid || LastValue(entries, key).None?
    case DeleteMany(x, keys) => x != sid || key !in keys
    case DeleteSession(x) => x != sid
    case _ => true
  }

  /** The row has this value, or without one is not there. */
  predicate RowIs(rows: Rows, sid: string, key: string, value: Option<string>) {
    if value.Some? then Pair(sid, key) in rows && rows[Pair(sid, key)].value == value.value else Pair(sid, key) !in rows
  }

  /** Such a request is answered without a value, and the row is as it says. */
  lemma WriteLeaves(db: Db, op: Op, sid: string, key: string, value: Option<string>, now: int)
    requires Usable(db) && Leaves(op, sid, key, value)
    ensures var (t, result) := Exec(db, op, now); Usable(t) && result == Ok(Nothing) && RowIs(t.rows, sid, key, value)
  {
    if op.SetMany? {
      UpsertAllEffect(db.rows, sid, op.entries, now, Pair(sid, key));
    }
  }

  /** Any other request leaves the row as it is, except that closing the handle ends all access. */
  lemma OtherSpares(db: Db, op: Op, sid: string, key: string, now: int)
    requires Spares(op, sid, key)
    ensures var t := Exec(db, op, now).0;
            && (Pair(sid, key) in t.rows <==> Pair(sid, key) in db.rows)
            && (Pair(sid, key) in t.rows ==> t.rows[Pair(sid, key)] == db.rows[Pair(sid, key)])
            && (Usable(db) && !op.Close? ==> Usable(t))
  {
    if op.SetMany? {
      UpsertAllEffect(db.rows, op.sid, op.entries, now, Pair(sid, key));
    }
  }

  /** Read after write: the next message reads what the write left. */
  lemma ReadAfterWrite(db: Db, op: Op, sid: string, key: string, value: Option<string>, now: int, later: int)
    requires Usable(db) && Leaves(op, sid, key, value)
    ensures var result := Exec(Exec(db, op, now).0, Get(sid, key), later).1;
            && result.Ok? && result.value.OneRow?
            && (result.value.row.Some? <==> value.Some?)
            && (value.Some? ==> result.value.row.value.value == value.value)
  {
    WriteLeaves(db, op, sid, key, value, now);
    GetAnswersRow(Exec(db, op, now).0, sid, key, later);
  }

  /**
   The life of a handle: before `init` and after `close` reads and writes fail and
   change nothing, unless they name no key; `init` makes an open handle usable and
   keeps the rows, and an unknown request is named in its error.
   */
  lemma Lifecycle(db: Db, sid: string, key: string, entries: seq<KeyValue>, name: string, now: int)
    ensures !Usable(db) ==>
              forall op :: op in {Get(sid, key), SetMany(sid, entries), GetAllKeys(sid), DeleteSession(sid)} ==>
                Exec(db, op, now).0 == db && Exec(db, op, now).1.Err?
    ensures db.open ==> Usable(Exec(db, Init, now).0) && Exec(db, Init, now).0.rows == db.rows
    ensures !db.open ==> Exec(db, Init, now) == (db, Err(DRIVER_ERROR))
    ensures !Usable(Exec(db, Close, now).0) && Exec(db, Close, now).0.rows == db.rows && Exec(db, Close, now).1.Ok?
    ensures Exec(db, GetMany(sid, []), now) == (db, Ok(ManyRows(map[])))
    ensures Exec(db, DeleteMany(sid, []), now) == (db, Ok(Nothing))
    ensures Exec(db, Unknown(name), now) == (db, Err("Unknown sqlite worker op: " + name))
  {
    assert RemoveAll(db.rows, sid, []) == db.rows;
  }

  // ---------------------------------------------------------------- the class

  class Table {
    var rows: Rows
    var created: bool
    var open: bool

    ghost function View(): Db
      reads this
    {
      Db(rows, created, open)
    }

    constructor ()
      ensures View() == EMPTY_DB
    {
      rows, created, open := map[], false, true;
    }

    method SetMany(sid: string, entries: seq<KeyValue>, now: int)
      modifies this`rows
      ensures rows == UpsertAll(old(rows), sid, entries, now)
    {
      var i := 0;
      while i < |entries|
        invariant 0 <= i <= |entries|
        invariant rows == UpsertAll(old(rows), sid, entries[..i], now)
      {
        assert entries[..i + 1][..i] == entries[..i];
        rows := Upsert(rows, sid, entries[i], now);
        i := i + 1;
      }
      assert entries[..i] == entries;
    }

    method DeleteMany(sid: string, keys: seq<string>)
      modifies this`rows
      ensures rows == RemoveAll(old(rows), sid, keys)
    {
      rows := rows - (set k | k in keys :: Pair(sid, k));
    }

    /** In some order, each key once. */
    method GetAllKeys(sid: string) returns (keys: seq<string>)
      ensures forall k :: k in keys <==> Pair(sid, k) in rows
      ensures forall i, j :: 0 <= i < j < |keys| ==> keys[i] != keys[j]
    {
      keys := [];
      var left := KeysOf(rows, sid);
      ghost var all := left;
      while left != {}
        invariant left <= all && forall k :: k in keys <==> k in all - left
        invariant forall i, j :: 0 <= i < j < |keys| ==> keys[i] != keys[j]
      {
        var key :| key in left;
        assert key !in keys;
        keys, left := keys + [key], left - {key};
      }
      forall k | Pair(sid, k) in rows ensures k in all {
        assert Pair(sid, k).sid == sid && Pair(sid, k).key == k;
      }
    }

    method DeleteSession(sid: string)
      modifies this`rows
      ensures rows == RemoveSession(old(rows), sid)
    {
      rows := rows - (set p | p in rows && p.sid == sid);
    }

    /** The message handler: dispatch, and answer with the result or the error. */
    method Handle(op: Op, now: int) returns (result: Result<Reply>)
      modifies this
      ensures (View(), result) == Exec(old(View()), op, now)
    {
      if Fails(Db(rows, created, open), op) {
        return Err(DRIVER_ERROR);
      }
      result := Ok(Nothing);
      match op
      case Init => created := true;
      case Get(sid, key) => result := Ok(OneRow(Find(rows, sid, key)));
      case GetMany(sid, keys) => result := Ok(ManyRows(Select(rows, sid, keys)));
      case SetMany(sid, entries) => SetMany(sid, entries, now);
      case DeleteMany(sid, keys) => DeleteMany(sid, keys);
      case GetAllKeys(sid) => result := Ok(Names(KeysOf(rows, sid)));
      case DeleteSession(sid) => DeleteSession(sid);
      case ListSessions => result := Ok(Names(SessionsOf(rows)));
      case SessionExists(sid) => result := Ok(Flag(KeysOf(rows, sid) != {}));
      case Close => open := false;
      case Unknown(name) => result := Err("Unknown sqlite worker op: " + name);
    }
  }
}
