/** What every database adapter stores and returns (src/types.ts). */
module Records {
  import opened Wrappers

  datatype Row = Row(value: string, updatedAt: int, version: nat)
  datatype KeyValue = KeyValue(key: string, value: string)

  /** The value a batch gives to a key: that of its last entry. */
  function LastValue(entries: seq<KeyValue>, key: string): Option<string> {
    if entries == [] then None
    else if entries[|entries| - 1].key == key then Some(entries[|entries| - 1].value)
    else LastValue(entries[..|entries| - 1], key)
  }
}
