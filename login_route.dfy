/** POST /api/auth/login (src/app/api/auth/login/route.ts): the presence and format
    checks, the lookup in the in-memory user list, the password comparison, and the
    response that carries the user without its password and a signed token. The
    comparison (bcrypt) and the signer are parameters. */
module LoginRoute {
  import opened Common
  import opened Types
  import Auth

  /** The parsed body; a field is None when it is missing or not a string. */
  datatype LoginBody = LoginBody(email: Option<string>, password: Option<string>)

  const MissingFieldsMessage := "Email and password are required"
  const BadEmailMessage := "Invalid email format"
  const BadCredentialsMessage := "Invalid email or password"
  const SuccessMessage := "Login successful"
  const InternalErrorMessage := "Internal server error"

  datatype Reply = Reply(status: int, response: AuthResponse)

  function Failure(status: int, message: string): Reply {
    Reply(status, AuthResponse(false, message, None, None))
  }

  /** Whether the body passes the checks that need no user list. */
  predicate WellFormed(b: LoginBody) {
    Truthy(b.email) && Truthy(b.password) && Auth.ValidateEmail(b.email.value)
  }

  /** The handler. `body` is None when the request is not JSON (500); `compare(password, hash)`
      is the bcrypt comparison, `sign(id)` the token signer. */
  function Login(body: Option<LoginBody>, users: seq<StoredUser>, compare: (string, string) -> bool,
                 sign: string -> string): (r: Reply)
    ensures body.None? ==> r == Failure(500, InternalErrorMessage)
    ensures body.Some? && !(Truthy(body.value.email) && Truthy(body.value.password)) ==> r == Failure(400, MissingFieldsMessage)
    ensures body.Some? && Truthy(body.value.email) && Truthy(body.value.password) && !Auth.ValidateEmail(body.value.email.value) ==>
      r == Failure(400, BadEmailMessage)
    ensures r.status == 401 <==>
      body.Some? && WellFormed(body.value) &&
      match Auth.FindUserByEmail(users, body.value.email.value)
      case None => true
      case Some(s) => !compare(body.value.password.value, s.password)
    ensures r.status == 401 ==> r == Failure(401, BadCredentialsMessage)
    ensures (body.Some? && WellFormed(body.value) && Auth.FindUserByEmail(users, body.value.email.value).Some? &&
             compare(body.value.password.value, Auth.FindUserByEmail(users, body.value.email.value).value.password))
            ==> r.status == 200
    ensures r.status == 200 <==> r.response.success
    ensures r.status == 200 ==>
      var s := Auth.FindUserByEmail(users, body.value.email.value).value;
      r == Reply(200, AuthResponse(true, SuccessMessage, Some(WithoutPassword(s)), Some(sign(s.user.id))))
  {
    match body
    case None => Failure(500, InternalErrorMessage)
    case Some(b) =>
      if !Truthy(b.email) || !Truthy(b.password) then Failure(400, MissingFieldsMessage)
      else if !Auth.ValidateEmail(b.email.value) then Failure(400, BadEmailMessage)
      else
        match Auth.FindUserByEmail(users, b.email.value)
        case None => Failure(401, BadCredentialsMessage)
        case Some(s) =>
          if !compare(b.password.value, s.password) then Failure(401, BadCredentialsMessage)
          else Reply(200, AuthResponse(true, SuccessMessage, Some(WithoutPassword(s)), Some(sign(s.user.id))))
  }

  /** The password is compared only for an existing user: for an unknown email the reply
      does not depend on the comparison, and equals the wrong-password reply, so the two
      cases cannot be told apart. */
  lemma UnknownEmailLooksLikeWrongPassword(b: LoginBody, users: seq<StoredUser>, c1: (string, string) -> bool,
                                           c2: (string, string) -> bool, sign: string -> string,
                                           b2: LoginBody, users2: seq<StoredUser>)
    requires WellFormed(b) && Auth.FindUserByEmail(users, b.email.value).None?
    requires WellFormed(b2) && Auth.FindUserByEmail(users2, b2.email.value).Some?
    requires !c2(b2.password.value, Auth.FindUserByEmail(users2, b2.email.value).value.password)
    ensures Login(Some(b), users, c1, sign) == Login(Some(b), users, c2, sign)
    ensures Login(Some(b), users, c1, sign) == Login(Some(b2), users2, c2, sign)
  {
  }

  /** An account created by registration can log in with its password when the hash
      comparison accepts it, and gets its own id in the token. */
  lemma RegisteredCanLogIn(users: seq<StoredUser>, s: StoredUser, password: string,
                           compare: (string, string) -> bool, sign: string -> string)
    requires Auth.FindUserByEmail(users, s.user.email).None?
    requires Truthy(Some(s.user.email)) && Truthy(Some(password)) && Auth.ValidateEmail(s.user.email)
    requires compare(password, s.password)
    ensures Login(Some(LoginBody(Some(s.user.email), Some(password))), users + [s], compare, sign)
         == Reply(200, AuthResponse(true, SuccessMessage, Some(s.user), Some(sign(s.user.id))))
  {
    Auth.FindAfterAppend(users, s);
  }
}
