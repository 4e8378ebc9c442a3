/** POST /api/auth/register (src/app/api/auth/register/route.ts): a fixed-order chain of
    checks, the first failure deciding the response, then the creation of the account in
    the in-memory user list and a signed token. Hashing and signing are parameters, and
    so are the random id and the creation time. */
module RegisterRoute {
  import opened Common
  import opened Types
  import Auth

  /** The parsed body; a field is None when it is missing or not a string. */
  datatype RegisterBody = RegisterBody(username: Option<string>, email: Option<string>,
                                       password: Option<string>, confirmPassword: Option<string>)

  const AllFieldsMessage := "All fields are required"
  const ShortUsernameMessage := "Username must be at least 3 characters long"
  const BadEmailMessage := "Invalid email format"
  const MismatchMessage := "Passwords do not match"
  const ExistingUserMessage := "User with this email already exists"
  const SuccessMessage := "Registration successful"
  const InternalErrorMessage := "Internal server error"

  /** What the checks decide: a refusal, or the fields of the account to create. */
  datatype Decision = Refuse(status: int, message: string) | Admit(username: string, email: string, password: string)

  predicate AllPresent(b: RegisterBody) {
    Truthy(b.username) && Truthy(b.email) && Truthy(b.password) && Truthy(b.confirmPassword)
  }

  /** The checks up to the uniqueness test, which need no store. */
  predicate WellFormed(b: RegisterBody) {
    && AllPresent(b)
    && Utf16Length(b.username.value) >= 3
    && Auth.ValidateEmail(b.email.value)
    && Auth.ValidatePassword(b.password.value).isValid
    && b.password.value == b.confirmPassword.value
  }

  /** The checks in the source's order: all fields, username length (in UTF-16 units),
      email format, password strength (with the validator's own message), confirmation,
      and last the existing-email test against the user list. */
  function Decide(b: RegisterBody, users: seq<StoredUser>): (d: Decision)
    ensures !AllPresent(b) ==> d == Refuse(400, AllFieldsMessage)
    ensures d.Admit? <==> WellFormed(b) && Auth.FindUserByEmail(users, b.email.value).None?
    ensures d.Admit? ==> d == Admit(b.username.value, b.email.value, b.password.value)
    ensures d.Refuse? ==> d.status == 400 || d.status == 409
    ensures d.Refuse? && d.status == 409 <==> WellFormed(b) && Auth.FindUserByEmail(users, b.email.value).Some?
    ensures AllPresent(b) && Utf16Length(b.username.value) < 3 ==> d == Refuse(400, ShortUsernameMessage)
    ensures AllPresent(b) && Utf16Length(b.username.value) >= 3 && !Auth.ValidateEmail(b.email.value) ==>
      d == Refuse(400, BadEmailMessage)
    ensures AllPresent(b) && Utf16Length(b.username.value) >= 3 && Auth.ValidateEmail(b.email.value)
            && !Auth.ValidatePassword(b.password.value).isValid ==>
      d == Refuse(400, Auth.ValidatePassword(b.password.value).message)
    ensures AllPresent(b) && Utf16Length(b.username.value) >= 3 && Auth.ValidateEmail(b.email.value)
            && Auth.ValidatePassword(b.password.value).isValid && b.password.value != b.confirmPassword.value ==>
      d == Refuse(400, MismatchMessage)
  {
    if !AllPresent(b) then Refuse(400, AllFieldsMessage)
    else if Utf16Length(b.username.value) < 3 then Refuse(400, ShortUsernameMessage)
    else if !Auth.ValidateEmail(b.email.value) then Refuse(400, BadEmailMessage)
    else if !Auth.ValidatePassword(b.password.value).isValid then Refuse(400, Auth.ValidatePassword(b.password.value).message)
    else if b.password.value != b.confirmPassword.value then Refuse(400, MismatchMessage)
    else if Auth.FindUserByEmail(users, b.email.value).Some? then Refuse(409, ExistingUserMessage)
    else Admit(b.username.value, b.email.value, b.password.value)
  }

  /** The format checks never depend on who is registered: a malformed body gets the same
      400 whatever the user list holds, and only a well-formed one can meet the 409. */
  lemma FormatBeforeUniqueness(b: RegisterBody, users1: seq<StoredUser>, users2: seq<StoredUser>)
    requires !WellFormed(b)
    ensures Decide(b, users1) == Decide(b, users2)
    ensures Decide(b, users1).status == 400
  {
  }

  /** The weak-password refusal carries the validator's message, never the success text. */
  lemma WeakPasswordMessage(b: RegisterBody, users: seq<StoredUser>)
    requires AllPresent(b) && Utf16Length(b.username.value) >= 3 && Auth.ValidateEmail(b.email.value)
    requires !Auth.ValidatePassword(b.password.value).isValid
    ensures Decide(b, users).message != Auth.ValidPasswordMessage
    ensures Decide(b, users).message in {Auth.TooShortMessage, Auth.NoLowerMessage, Auth.NoUpperMessage, Auth.NoDigitMessage}
  {
  }

  /** The response: its status and the `AuthResponse` body. */
  datatype Reply = Reply(status: int, response: AuthResponse)

  /** The handler: `body` is None when the request is not JSON (500). On success the account
      is appended with `id`, `createdAt` and the hashed password, and the token is signed
      for the new id; on every other path the list is left as it was. */
  method Register(table: Auth.UserTable, body: Option<RegisterBody>, id: string, createdAt: string,
                  hash: string -> string, sign: string -> string) returns (r: Reply)
    modifies table
    ensures body.None? ==> r == Reply(500, AuthResponse(false, InternalErrorMessage, None, None)) && table.users == old(table.users)
    ensures body.Some? && Decide(body.value, old(table.users)).Refuse? ==>
      var d := Decide(body.value, old(table.users));
      r == Reply(d.status, AuthResponse(false, d.message, None, None)) && table.users == old(table.users)
    ensures body.Some? && Decide(body.value, old(table.users)).Admit? ==>
      var d := Decide(body.value, old(table.users));
      var u := User(id, d.email, d.username, createdAt);
      && r == Reply(201, AuthResponse(true, SuccessMessage, Some(u), Some(sign(id))))
      && table.users == old(table.users) + [StoredUser(u, hash(d.password))]
  {
    if body.None? {
      return Reply(500, AuthResponse(false, InternalErrorMessage, None, None));
    }
    var d := Decide(body.value, table.users);
    if d.Refuse? {
      return Reply(d.status, AuthResponse(false, d.message, None, None));
    }
    var u := table.CreateUser(d.username, d.email, d.password, id, createdAt, hash);
    r := Reply(201, AuthResponse(true, SuccessMessage, Some(u), Some(sign(u.id))));
  }

  /** A second registration with the same email is refused with 409, whatever the other
      fields: after a success the email is found in the list. */
  lemma RegisterTwiceConflicts(b: RegisterBody, b2: RegisterBody, users: seq<StoredUser>, id: string, createdAt: string,
                               hash: string -> string)
    requires Decide(b, users).Admit? && WellFormed(b2) && b2.email == b.email
    ensures var d := Decide(b, users);
      Decide(b2, users + [StoredUser(User(id, d.email, d.username, createdAt), hash(d.password))]) == Refuse(409, ExistingUserMessage)
  {
    var d := Decide(b, users);
    Auth.FindAfterAppend(users, StoredUser(User(id, d.email, d.username, createdAt), hash(d.password)));
  }
}
