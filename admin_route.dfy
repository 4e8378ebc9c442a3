/** GET and DELETE /api/admin/database (src/app/api/admin/database/route.ts): the shared
    secret check, the `action` dispatch to the statistics and the user listing, and the
    deletion of one user by id. The environment variable is an input. */
module AdminRoute {
  import opened Common
  import opened Types
  import opened Kv
  import Bearer
  import Database

  const DefaultSecret := "admin-secret-change-this"

  /** `process.env.ADMIN_SECRET || 'admin-secret-change-this'`. */
  function AdminSecret(env: Option<string>): (secret: string)
    ensures secret != ""
    ensures Truthy(env) ==> secret == env.value
  {
    if Truthy(env) then env.value else DefaultSecret
  }

  /** `isAdminAuthenticated`: a missing or empty header fails; otherwise the first
      occurrence of "Bearer " is deleted, wherever it is, and the rest must equal the
      secret. */
  predicate IsAdminAuthenticated(header: Option<string>, secret: string) {
    Truthy(header) && RemoveFirst(header.value, Bearer.Scheme) == secret
  }

  /** The header a client sends, `Bearer <secret>`, is accepted. */
  lemma BearerSecretAccepted(secret: string)
    ensures IsAdminAuthenticated(Some(Bearer.Scheme + secret), secret)
  {
    var h := Bearer.Scheme + secret;
    assert h[0..7] == Bearer.Scheme;
    assert IndexFrom(h, Bearer.Scheme, 0) == Some(0);
    assert h[7..] == secret;
  }

  /** Because the scheme is removed rather than required, the bare secret is accepted as
      well, as long as "Bearer " does not occur in it. */
  lemma BareSecretAccepted(secret: string)
    requires secret != "" && IndexFrom(secret, Bearer.Scheme, 0).None?
    ensures IsAdminAuthenticated(Some(secret), secret)
  {
  }

  /** And the scheme may sit anywhere: its first occurrence is cut out of the middle. */
  lemma InfixSchemeRemoved(a: string, b: string)
    requires forall k | 0 <= k < |a| :: !OccursAt(a + Bearer.Scheme + b, Bearer.Scheme, k)
    ensures RemoveFirst(a + Bearer.Scheme + b, Bearer.Scheme) == a + b
  {
    RemoveFirstSplit(a, Bearer.Scheme, b);
  }

  /** A response body: an error text, the statistics, the user list, or a message. */
  datatype Body = ErrorBody(error: string) | StatsBody(stats: Database.Stats) | UsersBody(users: seq<User>) | MessageBody(message: string)

  datatype Reply = Reply(status: int, body: Body)

  const UnauthorizedMessage := "Unauthorized"
  const InvalidActionMessage := "Invalid action. Use ?action=stats or ?action=users"
  const MissingUserIdMessage := "userId is required"
  const DeletedMessage := "User deleted successfully"
  const UserNotFoundMessage := "User not found"

  /** GET: 401 before any store access; `stats` and `users` are served (both helpers answer
      even when the store fails); any other or no action gives 400. */
  method Get(kv: KvStore, header: Option<string>, secret: string, action: Option<string>)
    returns (r: Reply, storeRead: bool)
    ensures !IsAdminAuthenticated(header, secret) ==> r == Reply(401, ErrorBody(UnauthorizedMessage)) && !storeRead
    ensures storeRead <==> IsAdminAuthenticated(header, secret) && (action == Some("stats") || action == Some("users"))
    ensures storeRead && action == Some("stats") ==>
      r == Reply(200, StatsBody(Database.GetDatabaseStats(kv.entries, kv.online)))
    ensures storeRead && action == Some("users") ==>
      && r.status == 200 && r.body.UsersBody?
      && (!kv.online ==> r.body.users == [])
      && (kv.online ==> |r.body.users| == |Database.UserRecordKeys(kv.entries)|)
      && (kv.online ==> forall u :: u in r.body.users <==> u in Database.Users(kv.entries))
    ensures IsAdminAuthenticated(header, secret) && !storeRead ==> r == Reply(400, ErrorBody(InvalidActionMessage))
  {
    if !IsAdminAuthenticated(header, secret) {
      return Reply(401, ErrorBody(UnauthorizedMessage)), false;
    }
    if action == Some("stats") {
      return Reply(200, StatsBody(Database.GetDatabaseStats(kv.entries, kv.online))), true;
    }
    if action == Some("users") {
      var users := Database.GetAllUsers(kv);
      return Reply(200, UsersBody(users)), true;
    }
    return Reply(400, ErrorBody(InvalidActionMessage)), false;
  }

  /** DELETE: 401 before any store access, 400 without a truthy `userId`, and otherwise the
      answer of `deleteUser`: true gives 200, false (no such user, or a store failure) 404. */
  method Delete(kv: KvStore, header: Option<string>, secret: string, userId: Option<string>) returns (r: Reply)
    modifies kv
    ensures kv.online == old(kv.online)
    ensures !IsAdminAuthenticated(header, secret) ==> r == Reply(401, ErrorBody(UnauthorizedMessage)) && kv.entries == old(kv.entries)
    ensures IsAdminAuthenticated(header, secret) && !Truthy(userId) ==>
      r == Reply(400, ErrorBody(MissingUserIdMessage)) && kv.entries == old(kv.entries)
    ensures IsAdminAuthenticated(header, secret) && Truthy(userId) ==>
      var found := Database.StoredAt(old(kv.entries), userId.value);
      if kv.online && found.Some? then
        r == Reply(200, MessageBody(DeletedMessage))
        && kv.entries == Database.Deleted(old(kv.entries), userId.value, found.value.user.email)
      else
        r == Reply(404, ErrorBody(UserNotFoundMessage)) && kv.entries == old(kv.entries)
  {
    if !IsAdminAuthenticated(header, secret) {
      return Reply(401, ErrorBody(UnauthorizedMessage));
    }
    if !Truthy(userId) {
      return Reply(400, ErrorBody(MissingUserIdMessage));
    }
    var deleted := Database.DeleteUser(kv, userId.value);
    r := if deleted then Reply(200, MessageBody(DeletedMessage)) else Reply(404, ErrorBody(UserNotFoundMessage));
  }
}
