/** app/routers/auth.py: the signup, login and verify endpoints. */
module AuthRouter {
  import opened Common
  import opened Models
  import opened Schemas
  import opened Jwt
  import opened Db
  import opened Views
  import UserTasks

  /** POST /auth/signup: 400 when any user already has the email; otherwise
      create_user, answered as UserRead. */
  method Signup(db: UserStore, queue: UserTasks.TaskQueue, bcrypt: Bcrypt, user: UserCreate,
                salt: string, uuidText: string, now: int)
    returns (r: Result<UserRead>)
    requires db.Valid()
    requires |uuidText| == 36
    modifies db, queue
    ensures db.Valid()
    ensures FirstWithEmail(old(db.rows), user.email).Some? ==>
              && r == Err(HttpException(HTTP_400_BAD_REQUEST, "Email already registered"))
              && db.rows == old(db.rows) && db.nextId == old(db.nextId)
              && queue.sent == old(queue.sent)
    ensures FirstWithEmail(old(db.rows), user.email).None? ==>
              && |db.rows| == |old(db.rows)| + 1
              && db.rows == old(db.rows) + [NewUserRecord(user, GetPasswordHash(bcrypt, user.password, salt),
                                                           uuidText[..6], now).(id := old(db.nextId))]
              && VerifyPassword(bcrypt, user.password, db.rows[|old(db.rows)|].hashed_password)
              && r == Ok(ToRead(db.rows[|old(db.rows)|]))
              && r.value == UserRead(old(db.nextId), user.email, user.first_name, user.last_name, false, "user")
              && queue.sent == old(queue.sent) + [UserTasks.VerificationEmail(user.email, uuidText[..6])]
  {
    if FirstWithEmail(db.rows, user.email).Some? {
      return Err(HttpException(HTTP_400_BAD_REQUEST, "Email already registered"));
    }
    var created := CreateUser(db, queue, bcrypt, user, salt, uuidText, now);
    r := Ok(ToRead(created.value));
  }

  const BAD_CREDENTIALS: Raised := HttpException(HTTP_400_BAD_REQUEST, "Incorrect email or password")

  /** POST /auth/login: 400 when no user has the email or the password check
      fails; otherwise an access and a refresh token for the user's email. */
  function Login(bcrypt: Bcrypt, codec: Codec, rows: seq<User>, form: UserCreate, now: int): (r: Result<Token>)
    ensures r.Err? <==> FirstWithEmail(rows, form.email).None?
                        || !VerifyPassword(bcrypt, form.password, FirstWithEmail(rows, form.email).value.hashed_password)
    ensures r.Err? ==> r.error == BAD_CREDENTIALS
    ensures r.Ok? && RoundTrips(codec) ==>
              && codec.decode(r.value.access_token) == Some(map["sub" := Str(form.email), "exp" := Num(now + 30)])
              && codec.decode(r.value.refresh_token) == Some(map["sub" := Str(form.email), "exp" := Num(now + 10080)])
              && TokenSubject(codec, r.value.access_token, now) == Some(form.email)
              && TokenSubject(codec, r.value.refresh_token, now) == Some(form.email)
  {
    match FirstWithEmail(rows, form.email)
    case None => Err(BAD_CREDENTIALS)
    case Some(user) =>
      if !VerifyPassword(bcrypt, form.password, user.hashed_password) then Err(BAD_CREDENTIALS)
      else Ok(TokenPairFor(codec, user.email, now))
  }

  /** Sign up, then log in: the password used at signup logs in and, under a
      collision-free digest, any other password is refused with 400. */
  lemma LoginAfterSignup(bcrypt: Bcrypt, codec: Codec, rows: seq<User>, k: nat, password: string,
                         salt: string, form: UserCreate, now: int)
    requires UniqueEmails(rows) && k < |rows|
    requires rows[k].hashed_password == GetPasswordHash(bcrypt, password, salt)
    requires form.email == rows[k].email
    ensures form.password == password ==> Login(bcrypt, codec, rows, form, now).Ok?
    ensures CollisionFree(bcrypt) && form.password != password ==>
              Login(bcrypt, codec, rows, form, now) == Err(BAD_CREDENTIALS)
  {
    EmailLookupUnique(rows, k);
    if CollisionFree(bcrypt) {
      VerifyPasswordAcceptsOnlyOriginal(bcrypt, form.password, password, salt);
    }
  }

  /** POST /auth/verify: 400 when verify_user returns None; the verified user
      as UserRead otherwise. */
  method VerifyUserEndpoint(db: UserStore, data: VerifySchema) returns (r: Result<UserRead>)
    requires db.Valid()
    modifies db
    ensures db.Valid() && db.nextId == old(db.nextId)
    ensures CodeMatch(old(db.rows), data.email, data.code).None? ==>
              r == Err(HttpException(HTTP_400_BAD_REQUEST, "Invalid verification code"))
              && db.rows == old(db.rows)
    ensures CodeMatch(old(db.rows), data.email, data.code).Some? ==>
              var i := CodeMatch(old(db.rows), data.email, data.code).value;
              && db.rows == old(db.rows)[i := Verified(old(db.rows)[i])]
              && r == Ok(ToRead(db.rows[i]))
              && r.value.is_verified
  {
    var user := VerifyUser(db, data.email, data.code);
    if user.None? {
      return Err(HttpException(HTTP_400_BAD_REQUEST, "Invalid verification code"));
    }
    r := Ok(ToRead(user.value));
  }
}
