/** GET and POST /api/user/notes (src/app/api/user/notes/route.ts): one note slot per
    (user, game), keyed `notes:<userId>:<gameId>`, read by GET and overwritten by POST.
    The token verifier is a parameter; the clock is given both as the ISO string and as
    the millisecond count the route reads from it. */
module NotesRoute {
  import opened Common
  import opened Types
  import opened Kv
  import Bearer
  import Database

  const NotesPrefix := "notes:"

  function NoteKey(userId: string, gameId: string): string {
    NotesPrefix + userId + ":" + gameId
  }

  /** User ids never contain ':' (they are base-36 strings), and under that condition a note
      key determines its user and its game: each (user, game) has exactly one slot. */
  lemma NoteKeyInjective(u1: string, g1: string, u2: string, g2: string)
    requires ':' !in u1 && ':' !in u2
    requires NoteKey(u1, g1) == NoteKey(u2, g2)
    ensures u1 == u2 && g1 == g2
  {
    var k1, k2 := NoteKey(u1, g1), NoteKey(u2, g2);
    assert forall i | 0 <= i < |u1| :: k1[6 + i] == u1[i];
    assert forall i | 0 <= i < |u2| :: k2[6 + i] == u2[i];
    assert k1[6 + |u1|] == ':' && k2[6 + |u2|] == ':';
    if |u1| < |u2| {
      assert false;
    } else if |u2| < |u1| {
      assert false;
    }
    assert u1 == k1[6..6 + |u1|] && u2 == k2[6..6 + |u2|];
    assert g1 == k1[7 + |u1|..] && g2 == k2[7 + |u2|..];
  }

  /** Note slots never overwrite the user, email-index or preference records. */
  lemma NoteKeysApart(u: string, g: string, x: string)
    ensures NoteKey(u, g) != Database.UserKey(x)
    ensures NoteKey(u, g) != Database.EmailKey(x)
    ensures NoteKey(u, g) != Database.PrefsKey(x)
  {
    assert NoteKey(u, g)[0] == 'n';
    assert Database.UserKey(x)[0] == 'u' && Database.EmailKey(x)[0] == 'u' && Database.PrefsKey(x)[0] == 'p';
  }

  datatype Reply = Reply(status: int, success: bool, message: Option<string>, note: Option<GameNote>)

  const NoTokenMessage := "No token provided"
  const InvalidTokenMessage := "Invalid token"
  const MissingGameMessage := "Game ID is required"
  const InvalidNoteMessage := "Invalid gameId or note"
  const InternalErrorMessage := "Internal server error"

  function Failure(status: int, message: string): Reply {
    Reply(status, false, Some(message), None)
  }

  /** The stored note in a slot, if any. */
  function NoteAt(entries: map<string, Value>, key: string): (r: Option<GameNote>)
    ensures r.Some? <==> key in entries && entries[key].NoteValue?
  {
    if key in entries && entries[key].NoteValue? then Some(entries[key].note) else None
  }

  /** GET: 401 before anything else, 400 without a truthy `gameId`, 500 when the store
      fails, and otherwise success with the stored note or null. */
  function Get(header: Option<string>, verify: string -> Option<string>, gameId: Option<string>,
               entries: map<string, Value>, online: bool): (r: Reply)
    ensures Bearer.Authenticate(header, verify).None? ==> r.status == 401 && r.note.None?
    ensures Bearer.TokenOf(header).None? ==> r == Failure(401, NoTokenMessage)
    ensures Bearer.Authenticate(header, verify).Some? && !Truthy(gameId) ==> r == Failure(400, MissingGameMessage)
    ensures Bearer.Authenticate(header, verify).Some? && Truthy(gameId) ==>
      r == if online then Reply(200, true, None, NoteAt(entries, NoteKey(Bearer.Authenticate(header, verify).value, gameId.value)))
           else Failure(500, InternalErrorMessage)
  {
    if Bearer.TokenOf(header).None? then Failure(401, NoTokenMessage)
    else if Bearer.Authenticate(header, verify).None? then Failure(401, InvalidTokenMessage)
    else if !Truthy(gameId) then Failure(400, MissingGameMessage)
    else if !online then Failure(500, InternalErrorMessage)
    else Reply(200, true, None, NoteAt(entries, NoteKey(Bearer.Authenticate(header, verify).value, gameId.value)))
  }

  /** The parsed POST body: `gameId` as given, `note` None unless it is a string. */
  datatype NoteBody = NoteBody(gameId: Option<string>, note: Option<string>)

  /** The note POST writes for a user. */
  function NoteFor(userId: string, gameId: string, text: string, nowIso: string, nowMs: int): (n: GameNote)
    ensures n.userId == userId && n.gameId == gameId && n.note == text
    ensures n.createdAt == n.updatedAt == nowIso
  {
    GameNote(userId + "-" + gameId + "-" + IntToDecimal(nowMs), gameId, userId, text, nowIso, nowIso)
  }

  /** POST: the same 401 guard, 500 when the body is not JSON, 400 unless `gameId` is truthy
      and `note` is a string (the empty note is accepted), and otherwise the slot of the
      token's user and the body's game is overwritten with a fresh note. */
  method Post(kv: KvStore, header: Option<string>, verify: string -> Option<string>, body: Option<NoteBody>,
              nowIso: string, nowMs: int) returns (r: Reply)
    modifies kv
    ensures kv.online == old(kv.online)
    ensures Bearer.Authenticate(header, verify).None? ==> r.status == 401 && kv.entries == old(kv.entries)
    ensures Bearer.Authenticate(header, verify).Some? && body.None? ==>
      r == Failure(500, InternalErrorMessage) && kv.entries == old(kv.entries)
    ensures Bearer.Authenticate(header, verify).Some? && body.Some? && !(Truthy(body.value.gameId) && body.value.note.Some?) ==>
      r == Failure(400, InvalidNoteMessage) && kv.entries == old(kv.entries)
    ensures Bearer.Authenticate(header, verify).Some? && body.Some? && Truthy(body.value.gameId) && body.value.note.Some? ==>
      var user := Bearer.Authenticate(header, verify).value;
      var n := NoteFor(user, body.value.gameId.value, body.value.note.value, nowIso, nowMs);
      if kv.online then r == Reply(200, true, None, Some(n)) && kv.entries == old(kv.entries)[NoteKey(user, n.gameId) := NoteValue(n)]
      else r == Failure(500, InternalErrorMessage) && kv.entries == old(kv.entries)
  {
    if Bearer.TokenOf(header).None? {
      return Failure(401, NoTokenMessage);
    }
    var user := Bearer.Authenticate(header, verify);
    if user.None? {
      return Failure(401, InvalidTokenMessage);
    }
    if body.None? {
      return Failure(500, InternalErrorMessage);
    }
    if !Truthy(body.value.gameId) || body.value.note.None? {
      return Failure(400, InvalidNoteMessage);
    }
    var n := NoteFor(user.value, body.value.gameId.value, body.value.note.value, nowIso, nowMs);
    var ok := kv.Set(NoteKey(user.value, n.gameId), NoteValue(n));
    r := if ok then Reply(200, true, None, Some(n)) else Failure(500, InternalErrorMessage);
  }

  /** A GET after a POST for the same user and game returns the posted note, and at most one
      note per (user, game) is kept: every other slot reads as before. */
  lemma GetAfterPost(header: Option<string>, verify: string -> Option<string>, entries: map<string, Value>,
                     gameId: string, n: GameNote, otherUser: string, otherGame: string)
    requires Bearer.Authenticate(header, verify).Some? && gameId != ""
    requires ':' !in Bearer.Authenticate(header, verify).value && ':' !in otherUser
    requires (otherUser, otherGame) != (Bearer.Authenticate(header, verify).value, gameId)
    ensures var user := Bearer.Authenticate(header, verify).value;
      var after := entries[NoteKey(user, gameId) := NoteValue(n)];
      && Get(header, verify, Some(gameId), after, true).note == Some(n)
      && NoteAt(after, NoteKey(otherUser, otherGame)) == NoteAt(entries, NoteKey(otherUser, otherGame))
  {
    var user := Bearer.Authenticate(header, verify).value;
    if NoteKey(otherUser, otherGame) == NoteKey(user, gameId) {
      NoteKeyInjective(otherUser, otherGame, user, gameId);
    }
  }
}
