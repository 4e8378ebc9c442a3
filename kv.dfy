/** The key-value store behind the server (`@vercel/kv`): a map from keys to stored
    records. `online` is false while the store is unreachable; then every call fails
    and nothing changes. */
module Kv {
  import opened Types

  /** The kinds of record the application keeps under its keys. */
  datatype Value =
    | UserValue(stored: StoredUser)
    | IdValue(id: string)
    | PrefsValue(prefs: Preferences)
    | NoteValue(note: GameNote)

  class KvStore {
    var entries: map<string, Value>
    var online: bool

    constructor (entries: map<string, Value>, online: bool)
      ensures this.entries == entries && this.online == online
    {
      this.entries := entries;
      this.online := online;
    }

    /** `kv.set(key, value)`; reports whether the store answered. */
    method Set(key: string, value: Value) returns (ok: bool)
      modifies this
      ensures ok == online && online == old(online)
      ensures entries == if ok then old(entries)[key := value] else old(entries)
    {
      ok := online;
      if ok {
        entries := entries[key := value];
      }
    }

    /** `kv.del(key)`; reports whether the store answered. */
    method Del(key: string) returns (ok: bool)
      modifies this
      ensures ok == online && online == old(online)
      ensures entries == if ok then old(entries) - {key} else old(entries)
    {
      ok := online;
      if ok {
        entries := entries - {key};
      }
    }
  }
}
