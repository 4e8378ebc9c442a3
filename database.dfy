/** The server's user and preference records in the key-value store (src/utils/database.ts).
    Each user occupies three keys: `user:<id>` (the record with its password),
    `user_email:<email>` (the id, for lookup by email) and `preferences:<id>`. Writes are
    methods on the store; reads are functions of its contents and reachability. The
    random id and the creation time are inputs. */
module Database {
  import opened Common
  import opened Types
  import opened Kv

  const UserPrefix := "user:"
  const EmailPrefix := "user_email:"
  const PrefsPrefix := "preferences:"

  function UserKey(id: string): string { UserPrefix + id }
  function EmailKey(email: string): string { EmailPrefix + email }
  function PrefsKey(id: string): string { PrefsPrefix + id }

  /** The three key families never collide, each is injective, and only `user:` keys carry
      the `user:` prefix (the email index starts `user_` and not `user:`). */
  lemma KeyScheme(a: string, b: string)
    ensures UserKey(a) != EmailKey(b) && UserKey(a) != PrefsKey(b) && EmailKey(a) != PrefsKey(b)
    ensures UserKey(a) == UserKey(b) ==> a == b
    ensures EmailKey(a) == EmailKey(b) ==> a == b
    ensures PrefsKey(a) == PrefsKey(b) ==> a == b
    ensures StartsWith(UserKey(a), UserPrefix) && StartsWith(PrefsKey(a), PrefsPrefix)
    ensures !StartsWith(EmailKey(a), UserPrefix) && !StartsWith(PrefsKey(a), UserPrefix)
    ensures !StartsWith(UserKey(a), PrefsPrefix) && !StartsWith(EmailKey(a), PrefsPrefix)
  {
    assert UserKey(a)[4] == ':' && EmailKey(b)[4] == '_';
    assert UserKey(a)[0] == 'u' && PrefsKey(b)[0] == 'p';
    assert EmailKey(a)[0] == 'u';
    if UserKey(a) == UserKey(b) { assert a == UserKey(a)[5..] && b == UserKey(b)[5..]; }
    if EmailKey(a) == EmailKey(b) { assert a == EmailKey(a)[11..] && b == EmailKey(b)[11..]; }
    if PrefsKey(a) == PrefsKey(b) { assert a == PrefsKey(a)[12..] && b == PrefsKey(b)[12..]; }
    StartsWithAppend(UserPrefix, a);
    StartsWithAppend(PrefsPrefix, a);
    assert EmailKey(a)[..5][4] == '_';
    assert PrefsKey(a)[..5][0] == 'p';
    assert |UserKey(a)| >= 12 ==> UserKey(a)[..12][0] == 'u';
    assert |EmailKey(a)| >= 12 ==> EmailKey(a)[..12][0] == 'u';
  }

  /** The store after `createUser` wrote its three keys. */
  function Created(entries: map<string, Value>, s: StoredUser): map<string, Value> {
    entries[UserKey(s.user.id) := UserValue(s)]
           [EmailKey(s.user.email) := IdValue(s.user.id)]
           [PrefsKey(s.user.id) := PrefsValue(EmptyPreferences)]
  }

  /** The store after `deleteUser` removed a user's three keys. */
  function Deleted(entries: map<string, Value>, id: string, email: string): map<string, Value> {
    entries - {UserKey(id), EmailKey(email), PrefsKey(id)}
  }

  /** `createUser`: the record is written with its password, then the email index, then
      empty preferences; the result is the record without the password. The first write
      that fails throws, which the model reports as None. */
  method CreateUser(kv: KvStore, id: string, email: string, username: string, password: string, createdAt: string)
    returns (r: Option<User>)
    modifies kv
    ensures kv.online == old(kv.online)
    ensures !kv.online ==> r.None? && kv.entries == old(kv.entries)
    ensures kv.online ==> r == Some(User(id, email, username, createdAt))
    ensures kv.online ==> kv.entries == Created(old(kv.entries), StoredUser(r.value, password))
  {
    var user := User(id, email, username, createdAt);
    var ok := kv.Set(UserKey(id), UserValue(StoredUser(user, password)));
    if !ok {
      return None;
    }
    ok := kv.Set(EmailKey(email), IdValue(id));
    ok := kv.Set(PrefsKey(id), PrefsValue(EmptyPreferences));
    r := Some(user);
  }

  /** The stored record under `user:<id>`, if there is one. */
  function StoredAt(entries: map<string, Value>, id: string): (r: Option<StoredUser>)
    ensures r.Some? <==> UserKey(id) in entries && entries[UserKey(id)].UserValue?
  {
    if UserKey(id) in entries && entries[UserKey(id)].UserValue? then Some(entries[UserKey(id)].stored) else None
  }

  /** `findUserByEmail`: null when the store fails, when the index is missing or holds an
      empty id, or when the indexed record is missing. */
  function FindUserByEmail(entries: map<string, Value>, online: bool, email: string): (r: Option<StoredUser>)
    ensures r.Some? ==> online && EmailKey(email) in entries && entries[EmailKey(email)].IdValue?
    ensures r.Some? ==> var id := entries[EmailKey(email)].id; id != "" && r == StoredAt(entries, id)
    ensures (online && EmailKey(email) in entries && entries[EmailKey(email)].IdValue?
             && entries[EmailKey(email)].id != "") ==> r == StoredAt(entries, entries[EmailKey(email)].id)
  {
    if !online then None
    else if EmailKey(email) !in entries || !entries[EmailKey(email)].IdValue? then None
    else
      var id := entries[EmailKey(email)].id;
      if id == "" then None else StoredAt(entries, id)
  }

  /** `findUserById`: the record without its password, or null. */
  function FindUserById(entries: map<string, Value>, online: bool, id: string): (r: Option<User>)
    ensures r.Some? <==> online && StoredAt(entries, id).Some?
    ensures r.Some? ==> r.value == WithoutPassword(StoredAt(entries, id).value)
  {
    if online && StoredAt(entries, id).Some? then Some(WithoutPassword(StoredAt(entries, id).value)) else None
  }

  /** `getUserPreferences`: `{ ratedGames: [] }` when nothing is stored, null only when the
      store fails. The date conversion and the cache normalisation change nothing in a
      model whose times are numbers and whose cache is present or absent. */
  function GetUserPreferences(entries: map<string, Value>, online: bool, id: string): (r: Option<Preferences>)
    ensures r.None? <==> !online
    ensures online && PrefsKey(id) in entries && entries[PrefsKey(id)].PrefsValue? ==> r == Some(entries[PrefsKey(id)].prefs)
    ensures online && (PrefsKey(id) !in entries || !entries[PrefsKey(id)].PrefsValue?) ==> r == Some(EmptyPreferences)
  {
    if !online then None
    else if PrefsKey(id) in entries && entries[PrefsKey(id)].PrefsValue? then Some(entries[PrefsKey(id)].prefs)
    else Some(EmptyPreferences)
  }

  /** `updateUserPreferences`: the whole record is overwritten and returned as given. */
  method UpdateUserPreferences(kv: KvStore, id: string, prefs: Preferences) returns (r: Option<Preferences>)
    modifies kv
    ensures kv.online == old(kv.online)
    ensures r == if kv.online then Some(prefs) else None
    ensures kv.entries == if kv.online then old(kv.entries)[PrefsKey(id) := PrefsValue(prefs)] else old(kv.entries)
  {
    var ok := kv.Set(PrefsKey(id), PrefsValue(prefs));
    r := if ok then Some(prefs) else None;
  }

  /** A written record is what a later read gives. */
  lemma UpdateThenGet(entries: map<string, Value>, id: string, prefs: Preferences)
    ensures GetUserPreferences(entries[PrefsKey(id) := PrefsValue(prefs)], true, id) == Some(prefs)
  {
  }

  /** `deleteUser`: false and no change when there is no record (or the store fails);
      otherwise the record, the index entry of the record's email and the preferences go,
      and the result is true. */
  method DeleteUser(kv: KvStore, id: string) returns (deleted: bool)
    modifies kv
    ensures kv.online == old(kv.online)
    ensures deleted <==> kv.online && StoredAt(old(kv.entries), id).Some?
    ensures !deleted ==> kv.entries == old(kv.entries)
    ensures deleted ==> kv.entries == Deleted(old(kv.entries), id, StoredAt(old(kv.entries), id).value.user.email)
  {
    if !kv.online {
      return false;
    }
    var found := StoredAt(kv.entries, id);
    if found.None? {
      return false;
    }
    var ok := kv.Del(UserKey(id));
    ok := kv.Del(EmailKey(found.value.user.email));
    ok := kv.Del(PrefsKey(id));
    deleted := true;
  }

  /** Creating a user makes it findable by id (without its password), by email (a non-empty
      id is truthy) and gives it empty preferences. */
  lemma CreateThenFind(entries: map<string, Value>, s: StoredUser)
    requires s.user.id != ""
    ensures FindUserById(Created(entries, s), true, s.user.id) == Some(s.user)
    ensures FindUserByEmail(Created(entries, s), true, s.user.email) == Some(s)
    ensures GetUserPreferences(Created(entries, s), true, s.user.id) == Some(EmptyPreferences)
  {
    KeyScheme(s.user.id, s.user.email);
    KeyScheme(s.user.email, s.user.id);
  }

  /** Deleting a user leaves every other user's record and preferences, and their email
      index whenever their email differs, exactly as they were. */
  lemma DeleteLeavesOthers(entries: map<string, Value>, id: string, email: string, other: string, otherEmail: string)
    requires other != id && otherEmail != email
    ensures var after := Deleted(entries, id, email);
      && (UserKey(other) in after <==> UserKey(other) in entries)
      && (UserKey(other) in after ==> after[UserKey(other)] == entries[UserKey(other)])
      && (PrefsKey(other) in after <==> PrefsKey(other) in entries)
      && (PrefsKey(other) in after ==> after[PrefsKey(other)] == entries[PrefsKey(other)])
      && (EmailKey(otherEmail) in after <==> EmailKey(otherEmail) in entries)
      && FindUserById(after, true, other) == FindUserById(entries, true, other)
      && FindUserById(after, true, id).None?
      && GetUserPreferences(after, true, id) == Some(EmptyPreferences)
  {
    KeyScheme(other, id);
    KeyScheme(id, other);
    KeyScheme(other, email);
    KeyScheme(otherEmail, email);
    KeyScheme(otherEmail, id);
  }

  /** The keys `kv.keys(prefix + "*")` lists. */
  function KeysWithPrefix(entries: map<string, Value>, prefix: string): set<string> {
    set k | k in entries && StartsWith(k, prefix)
  }

  datatype Stats = Stats(totalUsers: nat, totalPreferences: nat)

  /** `getDatabaseStats`: the numbers of `user:` and `preferences:` keys; zeros when the
      store fails. */
  function GetDatabaseStats(entries: map<string, Value>, online: bool): (r: Stats)
    ensures !online ==> r == Stats(0, 0)
    ensures online ==> r.totalUsers == |KeysWithPrefix(entries, UserPrefix)|
    ensures online ==> r.totalPreferences == |KeysWithPrefix(entries, PrefsPrefix)|
  {
    if online then Stats(|KeysWithPrefix(entries, UserPrefix)|, |KeysWithPrefix(entries, PrefsPrefix)|)
    else Stats(0, 0)
  }

  /** Creating a user with a fresh id adds one user and one preference record to the
      statistics; its email index entry is not counted. */
  lemma StatsAfterCreate(entries: map<string, Value>, s: StoredUser)
    requires UserKey(s.user.id) !in entries && PrefsKey(s.user.id) !in entries
    ensures GetDatabaseStats(Created(entries, s), true).totalUsers == GetDatabaseStats(entries, true).totalUsers + 1
    ensures GetDatabaseStats(Created(entries, s), true).totalPreferences == GetDatabaseStats(entries, true).totalPreferences + 1
  {
    var after := Created(entries, s);
    KeyScheme(s.user.id, s.user.email);
    KeyScheme(s.user.email, s.user.id);
    assert after.Keys == entries.Keys + {UserKey(s.user.id), EmailKey(s.user.email), PrefsKey(s.user.id)};
    assert KeysWithPrefix(after, UserPrefix) == KeysWithPrefix(entries, UserPrefix) + {UserKey(s.user.id)};
    assert KeysWithPrefix(after, PrefsPrefix) == KeysWithPrefix(entries, PrefsPrefix) + {PrefsKey(s.user.id)};
  }

  /** The `user:` keys whose value is a user record. */
  function UserRecordKeys(entries: map<string, Value>): set<string> {
    set k | k in KeysWithPrefix(entries, UserPrefix) && entries[k].UserValue?
  }

  /** The users behind those keys, without their passwords. */
  function Users(entries: map<string, Value>): set<User> {
    set k | k in UserRecordKeys(entries) :: WithoutPassword(entries[k].stored)
  }

  /** The users behind the user records among the keys `ks`. */
  function UsersAmong(entries: map<string, Value>, ks: set<string>): set<User> {
    set k | k in ks * UserRecordKeys(entries) :: WithoutPassword(entries[k].stored)
  }

  /** `users` lists, one entry per record, the users of the records among the keys `ks`. */
  ghost predicate Lists(users: seq<User>, entries: map<string, Value>, ks: set<string>) {
    && |users| == |ks * UserRecordKeys(entries)|
    && forall u :: u in users <==> u in UsersAmong(entries, ks)
  }

  /** Reading one more key appends its user when it holds a user record, and nothing else. */
  lemma ListsStep(users: seq<User>, entries: map<string, Value>, ks: set<string>, key: string)
    requires Lists(users, entries, ks) && key in KeysWithPrefix(entries, UserPrefix) && key !in ks
    ensures Lists(users + (if entries[key].UserValue? then [WithoutPassword(entries[key].stored)] else []), entries, ks + {key})
  {
    if entries[key].UserValue? {
      assert (ks + {key}) * UserRecordKeys(entries) == ks * UserRecordKeys(entries) + {key};
      assert UsersAmong(entries, ks + {key}) == UsersAmong(entries, ks) + {WithoutPassword(entries[key].stored)};
    } else {
      assert (ks + {key}) * UserRecordKeys(entries) == ks * UserRecordKeys(entries);
      assert UsersAmong(entries, ks + {key}) == UsersAmong(entries, ks);
    }
  }

  /** Once every `user:` key is read, the list holds exactly the stored users. */
  lemma ListsAll(users: seq<User>, entries: map<string, Value>)
    requires Lists(users, entries, KeysWithPrefix(entries, UserPrefix))
    ensures |users| == |UserRecordKeys(entries)|
    ensures forall u :: u in users <==> u in Users(entries)
  {
    assert KeysWithPrefix(entries, UserPrefix) * UserRecordKeys(entries) == UserRecordKeys(entries);
  }

  /** `getAllUsers`: every `user:` key is read, and each record found contributes its user
      without the password; other values are skipped. The store lists keys in no fixed
      order, so the result is specified up to order. */
  method GetAllUsers(kv: KvStore) returns (users: seq<User>)
    ensures !kv.online ==> users == []
    ensures kv.online ==> |users| == |UserRecordKeys(kv.entries)|
    ensures kv.online ==> forall u :: u in users <==> u in Users(kv.entries)
  {
    users := [];
    if !kv.online {
      return;
    }
    var entries := kv.entries;
    var keys := KeysWithPrefix(entries, UserPrefix);
    ghost var done: set<string> := {};
    while keys != {}
      invariant keys !! done && keys + done == KeysWithPrefix(entries, UserPrefix)
      invariant Lists(users, entries, done)
      decreases |keys|
    {
      var key :| key in keys;
      ListsStep(users, entries, done, key);
      if entries[key].UserValue? {
        users := users + [WithoutPassword(entries[key].stored)];
      }
      keys := keys - {key};
      done := done + {key};
    }
    ListsAll(users, entries);
  }
}
