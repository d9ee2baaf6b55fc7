/** app/permissions.py: a second set of guards, the authentication one written
    out again beside the role and verification checks. */
module Permissions {
  import opened Common
  import opened Models
  import opened Jwt
  import opened Db
  import Deps

  /** is_authenticated: the same decode, subject and lookup steps as
      get_current_user, with the same errors. */
  function IsAuthenticated(codec: Codec, rows: seq<User>, token: string, now: int): (r: Result<User>)
    ensures r == Deps.GetCurrentUser(codec, rows, token, now)
    ensures Decode(codec, token, now).None? ==> r == Err(HttpException(HTTP_401_UNAUTHORIZED, "Invalid token"))
  {
    match Decode(codec, token, now)
    case None => Err(HttpException(HTTP_401_UNAUTHORIZED, "Invalid token"))
    case Some(payload) =>
      match Subject(payload)
      case None => Err(HttpException(HTTP_401_UNAUTHORIZED, "Invalid token"))
      case Some(email) =>
        match IndexOfEmail(rows, email)
        case None => Err(USER_NOT_FOUND)
        case Some(k) => Ok(rows[k])
  }

  /** is_admin: 403 unless the role is "admin"; the same user otherwise. */
  function IsAdmin(authUser: User): (r: Result<User>)
    ensures r.Ok? <==> authUser.role == "admin"
    ensures r.Ok? ==> r.value == authUser
    ensures r.Err? ==> r.error == HttpException(HTTP_403_FORBIDDEN, "You are not allowed to perform this action")
  {
    if authUser.role != "admin" then
      Err(HttpException(HTTP_403_FORBIDDEN, "You are not allowed to perform this action"))
    else Ok(authUser)
  }

  /** is_verified: 403 unless the user is verified; the same user otherwise. */
  function IsVerified(authUser: User): (r: Result<User>)
    ensures r.Ok? <==> authUser.is_verified
    ensures r.Ok? ==> r.value == authUser
    ensures r.Err? ==> r.error == HttpException(HTTP_403_FORBIDDEN, "User email not verified")
  {
    if !authUser.is_verified then
      Err(HttpException(HTTP_403_FORBIDDEN, "User email not verified"))
    else Ok(authUser)
  }
}
