/** The account helpers of src/utils/auth.ts: the email and password validators, the
    module-level in-memory user list with `createUser`, and the two finders over it.
    Hashing, token signing and verification, and random ids are parameters or inputs. */
module Auth {
  import opened Common
  import opened Types

  /** `[^\s@]`: any character but white space and '@'. */
  predicate EmailChar(c: char) {
    !IsJsWhitespace(c) && c != '@'
  }

  predicate AllEmailChars(s: string) {
    forall i | 0 <= i < |s| :: EmailChar(s[i])
  }

  /** A match of `^[^\s@]+@[^\s@]+\.[^\s@]+$`: the string splits at an '@' (position `at`) and a
      later '.' (position `dot`) into three non-empty runs of email characters. */
  ghost predicate MatchesEmailPattern(s: string) {
    exists at, dot | 0 < at && at + 1 < dot && dot + 1 < |s| ::
      && s[at] == '@' && s[dot] == '.'
      && AllEmailChars(s[..at]) && AllEmailChars(s[at + 1..dot]) && AllEmailChars(s[dot + 1..])
  }

  /** `validateEmail`, read as: no white space; a first '@' that is not the first character;
      no other '@' after it; and a '.' in the domain that is neither its first nor its last
      character. */
  function ValidateEmail(s: string): (ok: bool)
    ensures ok ==> |s| >= 5
  {
    && (forall i | 0 <= i < |s| :: !IsJsWhitespace(s[i]))
    && match IndexFrom(s, "@", 0)
       case None => false
       case Some(at) =>
         && 0 < at
         && AllEmailChars(s[at + 1..])
         && exists dot | at + 1 < dot < |s| - 1 :: s[dot] == '.'
  }

  lemma OccursAtChar(s: string, c: char, k: nat)
    ensures OccursAt(s, [c], k) <==> k < |s| && s[k] == c
  {
    if k < |s| && s[k] == c { assert s[k..k + 1] == [c]; }
    if OccursAt(s, [c], k) { assert s[k..k + 1][0] == s[k]; }
  }

  /** The validator accepts exactly the strings the regular expression matches. */
  lemma ValidateEmailIsPattern(s: string)
    ensures ValidateEmail(s) <==> MatchesEmailPattern(s)
  {
    if ValidateEmail(s) {
      AcceptedMatches(s);
    }
    if MatchesEmailPattern(s) {
      var at, dot :| 0 < at && at + 1 < dot && dot + 1 < |s| && s[at] == '@' && s[dot] == '.'
        && AllEmailChars(s[..at]) && AllEmailChars(s[at + 1..dot]) && AllEmailChars(s[dot + 1..]);
      MatchAccepted(s, at, dot);
    }
  }

  lemma AcceptedMatches(s: string)
    requires ValidateEmail(s)
    ensures MatchesEmailPattern(s)
  {
    var at := IndexFrom(s, "@", 0).value;
    var dot :| at + 1 < dot < |s| - 1 && s[dot] == '.';
    forall i | 0 <= i < at ensures EmailChar(s[i]) {
      OccursAtChar(s, '@', i);
    }
    assert AllEmailChars(s[..at]);
    var domain, host, top := s[at + 1..], s[at + 1..dot], s[dot + 1..];
    forall i | 0 <= i < |host| ensures EmailChar(host[i]) {
      assert host[i] == domain[i];
    }
    forall i | 0 <= i < |top| ensures EmailChar(top[i]) {
      assert top[i] == domain[i + dot - at];
    }
    OccursAtChar(s, '@', at);
  }

  lemma MatchAccepted(s: string, at: nat, dot: nat)
    requires 0 < at && at + 1 < dot && dot + 1 < |s| && s[at] == '@' && s[dot] == '.'
    requires AllEmailChars(s[..at]) && AllEmailChars(s[at + 1..dot]) && AllEmailChars(s[dot + 1..])
    ensures ValidateEmail(s)
  {
    forall i | 0 <= i < |s| ensures EmailChar(s[i]) || i == at {
      if i < at { assert s[i] == s[..at][i]; }
      else if at < i < dot { assert s[i] == s[at + 1..dot][i - at - 1]; }
      else if dot < i { assert s[i] == s[dot + 1..][i - dot - 1]; }
    }
    OccursAtChar(s, '@', at);
    var k := IndexFrom(s, "@", 0).value;
    OccursAtChar(s, '@', k);
    assert k == at;
    var domain := s[at + 1..];
    forall i | 0 <= i < |domain| ensures EmailChar(domain[i]) {
      assert domain[i] == s[at + 1 + i];
    }
  }

  /** Concrete acceptances and rejections. */
  lemma EmailExamples()
    ensures ValidateEmail("a@b.co")
    ensures !ValidateEmail("a@b.") && !ValidateEmail("@b.co") && !ValidateEmail("a@.co") && !ValidateEmail("a@b@c.d")
  {
    var good := "a@b.co";
    assert good[0] == 'a' && good[1] == '@' && good[2] == 'b' && good[3] == '.';
    assert AllEmailChars(good[..1]) && AllEmailChars(good[2..3]) && AllEmailChars(good[4..]);
    assert MatchesEmailPattern(good);
    ValidateEmailIsPattern(good);
    RejectedEmails();
  }

  lemma RejectedEmails()
    ensures !ValidateEmail("a@b.") && !ValidateEmail("@b.co") && !ValidateEmail("a@.co") && !ValidateEmail("a@b@c.d")
  {
    NoTopLevelDomain();
    NoLocalPart();
    NoHost();
    TwoAts();
  }

  /** A final '.' leaves no domain ending. */
  lemma NoTopLevelDomain()
    ensures !ValidateEmail("a@b.")
  {
    var s := "a@b.";
    assert s[3] == '.' && |s| == 4;
  }

  /** An '@' in first position leaves no local part. */
  lemma NoLocalPart()
    ensures !ValidateEmail("@b.co")
  {
    var s := "@b.co";
    assert s[0] == '@';
    OccursAtChar(s, '@', 0);
    assert IndexFrom(s, "@", 0) == Some(0);
  }

  /** A '.' right after the '@' leaves no host name. */
  lemma NoHost()
    ensures !ValidateEmail("a@.co")
  {
    var s := "a@.co";
    assert s[1] == '@' && s[2] == '.';
    ValidateEmailIsPattern(s);
  }

  /** A second '@' is not an email character. */
  lemma TwoAts()
    ensures !ValidateEmail("a@b@c.d")
  {
    var s := "a@b@c.d";
    assert s[3] == '@';
    ValidateEmailIsPattern(s);
  }

  predicate HasLower(s: string) { exists i | 0 <= i < |s| :: 'a' <= s[i] <= 'z' }
  predicate HasUpper(s: string) { exists i | 0 <= i < |s| :: 'A' <= s[i] <= 'Z' }
  predicate HasDigit(s: string) { exists i | 0 <= i < |s| :: IsDecimalDigit(s[i]) }

  datatype PasswordCheck = PasswordCheck(isValid: bool, message: string)

  const TooShortMessage := "Password must be at least 8 characters long"
  const NoLowerMessage := "Password must contain at least one lowercase letter"
  const NoUpperMessage := "Password must contain at least one uppercase letter"
  const NoDigitMessage := "Password must contain at least one number"
  const ValidPasswordMessage := "Password is valid"

  /** `validatePassword`: the four checks in order, and the message of the first that fails.
      The length is counted in UTF-16 code units. */
  function ValidatePassword(p: string): (r: PasswordCheck)
    ensures r.isValid <==> Utf16Length(p) >= 8 && HasLower(p) && HasUpper(p) && HasDigit(p)
    ensures r.isValid <==> r.message == ValidPasswordMessage
    ensures Utf16Length(p) < 8 ==> r.message == TooShortMessage
    ensures Utf16Length(p) >= 8 && !HasLower(p) ==> r.message == NoLowerMessage
    ensures Utf16Length(p) >= 8 && HasLower(p) && !HasUpper(p) ==> r.message == NoUpperMessage
    ensures Utf16Length(p) >= 8 && HasLower(p) && HasUpper(p) && !HasDigit(p) ==> r.message == NoDigitMessage
  {
    if Utf16Length(p) < 8 then PasswordCheck(false, TooShortMessage)
    else if !HasLower(p) then PasswordCheck(false, NoLowerMessage)
    else if !HasUpper(p) then PasswordCheck(false, NoUpperMessage)
    else if !HasDigit(p) then PasswordCheck(false, NoDigitMessage)
    else PasswordCheck(true, ValidPasswordMessage)
  }

  lemma PasswordExamples()
    ensures ValidatePassword("Passw0rd").isValid
    ensures ValidatePassword("password1").message == NoUpperMessage
    ensures ValidatePassword("Pa1").message == TooShortMessage
  {
    var good, lower, short := "Passw0rd", "password1", "Pa1";
    assert good[0] == 'P' && good[1] == 'a' && good[5] == '0';
    assert Utf16Length(good) == 8;
    assert lower[0] == 'p' && Utf16Length(lower) == 9;
    assert !HasUpper(lower);
  }

  /** The in-memory `users` list of the module. */
  class UserTable {
    var users: seq<StoredUser>

    constructor ()
      ensures users == []
    {
      users := [];
    }

    /** `createUser`: one record, with the hashed password, is appended; the result is the
        user without it. The id and the time are the random id and clock reading. */
    method CreateUser(username: string, email: string, password: string, id: string, createdAt: string,
                      hash: string -> string) returns (u: User)
      modifies this
      ensures u == User(id, email, username, createdAt)
      ensures users == old(users) + [StoredUser(u, hash(password))]
    {
      u := User(id, email, username, createdAt);
      users := users + [StoredUser(u, hash(password))];
    }
  }

  /** The two fields the finders search on. */
  datatype Field = Email | Id

  function FieldOf(s: StoredUser, f: Field): string {
    match f
    case Email => s.user.email
    case Id => s.user.id
  }

  /** `users.find(user => user[f] === v)`: the first record whose field `f` is `v`. */
  function FindFirst(users: seq<StoredUser>, f: Field, v: string): (r: Option<StoredUser>)
    ensures r.None? <==> forall i | 0 <= i < |users| :: FieldOf(users[i], f) != v
    ensures forall i | 0 <= i < |users| && FieldOf(users[i], f) == v ::
      (forall j | 0 <= j < i :: FieldOf(users[j], f) != v) ==> r == Some(users[i])
  {
    if users == [] then None
    else if FieldOf(users[0], f) == v then Some(users[0])
    else
      assert forall i | 1 <= i < |users| :: users[i] == users[1..][i - 1];
      FindFirst(users[1..], f, v)
  }

  /** `findUserByEmail`: the first record with that email, or null. */
  function FindUserByEmail(users: seq<StoredUser>, email: string): (r: Option<StoredUser>)
    ensures r.None? <==> forall i | 0 <= i < |users| :: users[i].user.email != email
    ensures forall i | 0 <= i < |users| && users[i].user.email == email ::
      (forall j | 0 <= j < i :: users[j].user.email != email) ==> r == Some(users[i])
  {
    FindFirst(users, Email, email)
  }

  /** `findUserById`: the first record with that id, without its password, or null. */
  function FindUserById(users: seq<StoredUser>, id: string): (r: Option<User>)
    ensures r.None? <==> forall i | 0 <= i < |users| :: users[i].user.id != id
    ensures forall i | 0 <= i < |users| && users[i].user.id == id ::
      (forall j | 0 <= j < i :: users[j].user.id != id) ==> r == Some(WithoutPassword(users[i]))
  {
    match FindFirst(users, Id, id)
    case None => None
    case Some(s) => Some(WithoutPassword(s))
  }

  /** After an append, a value that no record had finds the new record, and one that a
      record had still finds the earlier record. */
  lemma {:induction false} FindFirstAfterAppend(users: seq<StoredUser>, s: StoredUser, f: Field)
    ensures FindFirst(users, f, FieldOf(s, f)).None? ==> FindFirst(users + [s], f, FieldOf(s, f)) == Some(s)
    ensures forall v :: FindFirst(users, f, v).Some? ==> FindFirst(users + [s], f, v) == FindFirst(users, f, v)
  {
    if users != [] {
      assert (users + [s])[1..] == users[1..] + [s];
      FindFirstAfterAppend(users[1..], s, f);
    } else {
      assert [s][1..] == [];
    }
  }

  /** The same for the two finders, `findUserById` without the password. */
  lemma FindAfterAppend(users: seq<StoredUser>, s: StoredUser)
    ensures FindUserByEmail(users, s.user.email).None? ==> FindUserByEmail(users + [s], s.user.email) == Some(s)
    ensures forall e :: FindUserByEmail(users, e).Some? ==> FindUserByEmail(users + [s], e) == FindUserByEmail(users, e)
    ensures FindUserById(users, s.user.id).None? ==> FindUserById(users + [s], s.user.id) == Some(s.user)
    ensures forall d :: FindUserById(users, d).Some? ==> FindUserById(users + [s], d) == FindUserById(users, d)
  {
    FindFirstAfterAppend(users, s, Email);
    FindFirstAfterAppend(users, s, Id);
  }
}
