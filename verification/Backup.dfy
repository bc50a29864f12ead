/** Export and import of a session (src/session-manager.ts). */
module Backup {
  import opened Records
  import opened CacheKeys
  import opened SqliteWorker

  function Export(rows: Rows, sid: string): map<string, string> {
    map k | k in KeysOf(rows, sid) && Pair(sid, k) in rows :: rows[Pair(sid, k)].value
  }

  method ExportSessionToObject(table: Table, sid: string) returns (data: map<string, string>)
    ensures data == Export(table.rows, sid)
  {
    var keys := table.GetAllKeys(sid);
    ExportByPair(table.rows, sid);
    data := map[];
    for i := 0 to |keys|
      invariant forall k :: k in data <==> k in keys[..i] && Pair(sid, k) in table.rows
      invariant forall k :: k in data ==> Pair(sid, k) in table.rows && data[k] == table.rows[Pair(sid, k)].value
    {
      assert keys[..i + 1] == keys[..i] + [keys[i]];
      var record := Find(table.rows, sid, keys[i]);
      if record.Some? {
        data := data[keys[i] := record.value.value];
      }
    }
    assert keys[..|keys|] == keys;
  }

  /** `entries` lists an object's properties, each once. */
  ghost predicate Lists(entries: seq<KeyValue>, data: map<string, string>) {
    && (forall e :: e in entries ==> e.key in data && data[e.key] == e.value)
    && (forall k :: k in data ==> exists i :: 0 <= i < |entries| && entries[i].key == k)
  }

  lemma {:induction false} LastListed(entries: seq<KeyValue>, data: map<string, string>, key: string)
    requires forall e :: e in entries ==> e.key in data && data[e.key] == e.value
    ensures LastValue(entries, key).Some? ==> key in data && LastValue(entries, key).value == data[key]
    ensures LastValue(entries, key).None? ==> forall i :: 0 <= i < |entries| ==> entries[i].key != key
  {
    if entries != [] {
      assert entries == entries[..|entries| - 1] + [entries[|entries| - 1]];
      LastListed(entries[..|entries| - 1], data, key);
    }
  }

  /** What an import leaves of one row. */
  lemma ImportedRow(rows: Rows, sid: string, data: map<string, string>, entries: seq<KeyValue>, now: int, k: string)
    requires Lists(entries, data)
    ensures var t, p := UpsertAll(rows, sid, entries, now), Pair(sid, k);
            && (p in t <==> k in data || p in rows)
            && (p in t ==> t[p].value == if k in data then data[k] else rows[p].value)
  {
    UpsertAllEffect(rows, sid, entries, now, Pair(sid, k));
    LastListed(entries, data, k);
  }

  /** Importing overlays the data on what the session holds. */
  lemma ImportOverlays(rows: Rows, sid: string, data: map<string, string>, entries: seq<KeyValue>, now: int)
    requires Lists(entries, data)
    ensures Export(UpsertAll(rows, sid, entries, now), sid) == Export(rows, sid) + data
  {
    var t := UpsertAll(rows, sid, entries, now);
    ExportByPair(rows, sid);
    ExportByPair(t, sid);
    forall k
      ensures k in Export(t, sid) <==> k in Export(rows, sid) + data
      ensures k in Export(t, sid) ==> Export(t, sid)[k] == (Export(rows, sid) + data)[k]
    {
      ImportedRow(rows, sid, data, entries, now, k);
    }
  }

  /** An import touches no other session. */
  lemma ImportSparesOthers(rows: Rows, sid: string, entries: seq<KeyValue>, now: int, other: string)
    requires other != sid
    ensures Export(UpsertAll(rows, sid, entries, now), other) == Export(rows, other)
  {
    var t := UpsertAll(rows, sid, entries, now);
    ExportByPair(rows, other);
    ExportByPair(t, other);
    forall k
      ensures k in Export(t, other) <==> k in Export(rows, other)
      ensures k in Export(t, other) ==> Export(t, other)[k] == Export(rows, other)[k]
    {
      UpsertAllEffect(rows, sid, entries, now, Pair(other, k));
    }
  }

  lemma ExportByPair(rows: Rows, sid: string)
    ensures forall k :: k in Export(rows, sid) <==> Pair(sid, k) in rows
    ensures forall k :: k in Export(rows, sid) ==> Export(rows, sid)[k] == rows[Pair(sid, k)].value
  {
    forall k | Pair(sid, k) in rows ensures k in KeysOf(rows, sid) {
      assert Pair(sid, k).sid == sid && Pair(sid, k).key == k;
    }
  }

  /** A backup restored into a deleted (or never used) session exports as it was. */
  lemma BackupRoundTrip(rows: Rows, source: string, target: string, entries: seq<KeyValue>, now: int)
    requires Lists(entries, Export(rows, source))
    ensures Export(UpsertAll(RemoveSession(rows, target), target, entries, now), target) == Export(rows, source)
  {
    var cleared := RemoveSession(rows, target);
    ExportByPair(cleared, target);
    assert Export(cleared, target) == map[];
    ImportOverlays(cleared, target, Export(rows, source), entries, now);
  }
}
