/** app/deps.py: the request guards the users router depends on. */
module Deps {
  import opened Common
  import opened Models
  import opened Jwt
  import opened Db
  import opened Views

  const INVALID_TOKEN: Raised := HttpException(HTTP_401_UNAUTHORIZED, "Invalid token")

  /** get_current_user at time `now`: decode the bearer token (401 when
      jwt.decode refuses it or it has no subject), then load the first user
      whose email is the subject (404 when there is none). */
  function GetCurrentUser(codec: Codec, rows: seq<User>, token: string, now: int): (r: Result<User>)
    ensures TokenSubject(codec, token, now).None? ==> r == Err(INVALID_TOKEN)
    ensures TokenSubject(codec, token, now).Some? && r.Err? ==> r == Err(USER_NOT_FOUND)
    ensures r.Ok? <==> exists k :: 0 <= k < |rows| && TokenSubject(codec, token, now) == Some(rows[k].email)
    ensures r.Ok? ==> TokenSubject(codec, token, now) == Some(r.value.email)
                      && exists k :: 0 <= k < |rows| && rows[k] == r.value
                                     && forall m :: 0 <= m < k ==> rows[m].email != r.value.email
  {
    match TokenSubject(codec, token, now)
    case None => Err(INVALID_TOKEN)
    case Some(email) =>
      match FirstWithEmail(rows, email)
      case None => Err(USER_NOT_FOUND)
      case Some(user) => Ok(user)
  }

  /** admin_required: 403 unless the current user's role is "admin"; the same
      user otherwise. */
  function AdminRequired(current: User): (r: Result<User>)
    ensures r.Ok? <==> current.role == "admin"
    ensures r.Ok? ==> r.value == current
    ensures r.Err? ==> r.error == HttpException(HTTP_403_FORBIDDEN, "Forbidden")
  {
    if current.role != "admin" then Err(HttpException(HTTP_403_FORBIDDEN, "Forbidden")) else Ok(current)
  }

  /** Depends(admin_required): get_current_user, then admin_required on its user. */
  function CurrentAdmin(codec: Codec, rows: seq<User>, token: string, now: int): (r: Result<User>)
    ensures GetCurrentUser(codec, rows, token, now).Err? ==> r == GetCurrentUser(codec, rows, token, now)
    ensures r.Ok? <==> GetCurrentUser(codec, rows, token, now).Ok? && GetCurrentUser(codec, rows, token, now).value.role == "admin"
    ensures r.Ok? ==> r == GetCurrentUser(codec, rows, token, now)
  {
    match GetCurrentUser(codec, rows, token, now)
    case Err(e) => Err(e)
    case Ok(user) => AdminRequired(user)
  }

  /** An access token minted for a stored email identifies that user, when
      emails are unique, for its 30 minutes; after them it is a 401. */
  lemma MintedTokenIdentifiesUser(codec: Codec, rows: seq<User>, k: nat, issuedAt: int, now: int)
    requires RoundTrips(codec) && UniqueEmails(rows) && k < |rows|
    ensures var token := CreateAccessToken(codec, map["sub" := Str(rows[k].email)], issuedAt, ACCESS_TOKEN_EXPIRE_MINUTES);
            && (now <= issuedAt + ACCESS_TOKEN_EXPIRE_MINUTES ==> GetCurrentUser(codec, rows, token, now) == Ok(rows[k]))
            && (now > issuedAt + ACCESS_TOKEN_EXPIRE_MINUTES ==> GetCurrentUser(codec, rows, token, now) == Err(INVALID_TOKEN))
  {
    EmailLookupUnique(rows, k);
  }

  /** A token whose `sub` is a JSON number or null fails jwt.decode's subject
      check, so the guard answers 401 rather than 404. */
  lemma NonStringSubjectIsUnauthorized(codec: Codec, rows: seq<User>, claims: Claims, now: int)
    requires RoundTrips(codec)
    requires "sub" in claims && !claims["sub"].Str?
    ensures GetCurrentUser(codec, rows, codec.encode(claims), now) == Err(INVALID_TOKEN)
  {
  }
}
