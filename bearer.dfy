/** The bearer-token guard that the user routes (recommendations, rate, notes) share:
    a missing header, or one that does not start with "Bearer ", is refused; otherwise
    the token is the header after its first seven characters and is handed to the
    token verifier (JSON Web Token checking is a parameter here). */
module Bearer {
  import opened Common

  const Scheme := "Bearer "

  /** `authHeader.substring(7)` once `authHeader.startsWith('Bearer ')` holds. */
  function TokenOf(header: Option<string>): (t: Option<string>)
    ensures t.Some? <==> header.Some? && StartsWith(header.value, Scheme)
    ensures t.Some? ==> header.value == Scheme + t.value
  {
    if header.Some? && StartsWith(header.value, Scheme) then
      assert header.value == header.value[..7] + header.value[7..];
      Some(header.value[7..])
    else None
  }

  /** The user id carried by a valid token, or None when the request gets 401. */
  function Authenticate(header: Option<string>, verify: string -> Option<string>): (r: Option<string>)
    ensures r.Some? <==> exists t :: TokenOf(header) == Some(t) && verify(t).Some?
    ensures r.Some? ==> r == verify(TokenOf(header).value)
  {
    match TokenOf(header)
    case None => None
    case Some(t) => verify(t)
  }

  /** A header built as the client builds it is accepted exactly when its token verifies. */
  lemma ClientHeaderAccepted(token: string, verify: string -> Option<string>)
    ensures TokenOf(Some(Scheme + token)) == Some(token)
    ensures Authenticate(Some(Scheme + token), verify) == verify(token)
  {
    StartsWithAppend(Scheme, token);
    assert (Scheme + token)[7..] == token;
  }
}
