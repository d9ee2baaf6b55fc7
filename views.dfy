/** app/views.py: password hashing, token minting and refresh, and the account
    operations on the store (create, verify, set role). */
module Views {
  import opened Common
  import opened Models
  import opened Schemas
  import opened Jwt
  import opened Db
  import UserTasks

  // Passwords

  /** bcrypt's key derivation: the digest of a password under a salt. It is
      uninterpreted; the model relies on nothing about it. */
  datatype Bcrypt = Bcrypt(kdf: (string, string) -> string)

  /** get_password_hash: bcrypt.hashpw(password, gensalt()), with the fresh
      salt passed in. The stored hash embeds its salt, so checking it needs
      no other state. */
  function GetPasswordHash(bcrypt: Bcrypt, password: string, salt: string): (h: PasswordHash)
    ensures h.salt == salt
  {
    PasswordHash(salt, bcrypt.kdf(password, salt))
  }

  /** verify_password: bcrypt.checkpw rehashes the plain password under the
      stored salt and compares digests, so a stored hash accepts a password
      iff hashing that password under the same salt reproduces it. */
  function VerifyPassword(bcrypt: Bcrypt, plain: string, hashed: PasswordHash): (ok: bool)
    ensures ok <==> GetPasswordHash(bcrypt, plain, hashed.salt) == hashed
  {
    bcrypt.kdf(plain, hashed.salt) == hashed.digest
  }

  /** A fresh hash verifies the password it was made from, whatever the digest. */
  lemma HashVerifiesOwnPassword(bcrypt: Bcrypt, password: string, salt: string)
    ensures VerifyPassword(bcrypt, password, GetPasswordHash(bcrypt, password, salt))
  {
  }

  /** A collision-free digest: distinct passwords never share a digest under one salt. */
  ghost predicate CollisionFree(bcrypt: Bcrypt) {
    forall p, q, salt :: bcrypt.kdf(p, salt) == bcrypt.kdf(q, salt) ==> p == q
  }

  /** Under a collision-free digest, a hash accepts exactly the password it was made from. */
  lemma VerifyPasswordAcceptsOnlyOriginal(bcrypt: Bcrypt, plain: string, password: string, salt: string)
    requires CollisionFree(bcrypt)
    ensures VerifyPassword(bcrypt, plain, GetPasswordHash(bcrypt, password, salt)) <==> plain == password
  {
  }

  // Tokens

  /** The default lifetime of an access token. */
  const ACCESS_TOKEN_EXPIRE_MINUTES: int := 30
  /** The default lifetime of a refresh token. */
  const REFRESH_TOKEN_EXPIRE_DAYS: int := 7

  /** to_encode = data.copy(); to_encode.update({"exp": expire}). The caller's
      claims are a value and are not changed. */
  function WithExpiry(data: Claims, expire: int): (c: Claims)
    ensures c.Keys == data.Keys + {"exp"}
    ensures c["exp"] == Num(expire)
    ensures forall k :: k in data && k != "exp" ==> c[k] == data[k]
  {
    data["exp" := Num(expire)]
  }

  /** create_access_token: the claims plus exp = now + expiresMinutes, encoded.
      Claims with a string subject (or none) decode back at every moment up to
      the expiry, and at no moment after it. */
  function CreateAccessToken(codec: Codec, data: Claims, now: int, expiresMinutes: int): (token: string)
    ensures RoundTrips(codec) ==> codec.decode(token) == Some(WithExpiry(data, now + expiresMinutes))
    ensures RoundTrips(codec) && ("sub" in data ==> data["sub"].Str?) ==>
              forall at :: Decode(codec, token, at) == (if at <= now + expiresMinutes
                                                        then Some(WithExpiry(data, now + expiresMinutes)) else None)
  {
    codec.encode(WithExpiry(data, now + expiresMinutes))
  }

  /** create_refresh_token: the claims plus exp = now + expiresDays days, encoded,
      with the same validity window as an access token. */
  function CreateRefreshToken(codec: Codec, data: Claims, now: int, expiresDays: int): (token: string)
    ensures RoundTrips(codec) ==>
      codec.decode(token) == Some(WithExpiry(data, now + expiresDays * MINUTES_PER_DAY))
    ensures RoundTrips(codec) && ("sub" in data ==> data["sub"].Str?) ==>
              forall at :: Decode(codec, token, at) == (if at <= now + expiresDays * MINUTES_PER_DAY
                                                        then Some(WithExpiry(data, now + expiresDays * MINUTES_PER_DAY)) else None)
  {
    codec.encode(WithExpiry(data, now + expiresDays * MINUTES_PER_DAY))
  }

  /** The access/refresh pair minted for a subject with the default lifetimes:
      the access token names the subject for 30 minutes, the refresh token for
      7 days (10080 minutes), and neither afterwards. */
  function TokenPairFor(codec: Codec, sub: string, now: int): (t: Token)
    ensures RoundTrips(codec) ==>
              && codec.decode(t.access_token) == Some(map["sub" := Str(sub), "exp" := Num(now + 30)])
              && codec.decode(t.refresh_token) == Some(map["sub" := Str(sub), "exp" := Num(now + 10080)])
    ensures RoundTrips(codec) ==>
              forall at :: TokenSubject(codec, t.access_token, at) == (if at <= now + 30 then Some(sub) else None)
    ensures RoundTrips(codec) ==>
              forall at :: TokenSubject(codec, t.refresh_token, at) == (if at <= now + 10080 then Some(sub) else None)
  {
    Token(
      CreateAccessToken(codec, map["sub" := Str(sub)], now, ACCESS_TOKEN_EXPIRE_MINUTES),
      CreateRefreshToken(codec, map["sub" := Str(sub)], now, REFRESH_TOKEN_EXPIRE_DAYS))
  }

  /** Between 30 minutes and 7 days after minting, the access token of a pair
      is refused while its refresh token still names the subject. */
  lemma TokenPairLifetimes(codec: Codec, sub: string, now: int, at: int)
    requires RoundTrips(codec)
    requires now + 30 < at <= now + 7 * MINUTES_PER_DAY
    ensures TokenSubject(codec, TokenPairFor(codec, sub, now).access_token, at).None?
    ensures TokenSubject(codec, TokenPairFor(codec, sub, now).refresh_token, at) == Some(sub)
  {
  }

  /** refresh_user_token at time `now`: a token jwt.decode refuses raises
      "Invalid refresh token"; one without a subject raises "... no subject";
      otherwise a new pair is minted at `now` for the same subject. */
  function RefreshUserToken(codec: Codec, refreshToken: string, now: int): (r: Result<Token>)
    ensures Decode(codec, refreshToken, now).None? ==> r == Err(ValueError("Invalid refresh token"))
    ensures Decode(codec, refreshToken, now).Some? && TokenSubject(codec, refreshToken, now).None? ==>
              r == Err(ValueError("Invalid refresh token: no subject"))
    ensures r.Ok? <==> TokenSubject(codec, refreshToken, now).Some?
    ensures r.Ok? && RoundTrips(codec) ==>
              && TokenSubject(codec, r.value.access_token, now) == TokenSubject(codec, refreshToken, now)
              && TokenSubject(codec, r.value.refresh_token, now) == TokenSubject(codec, refreshToken, now)
  {
    match Decode(codec, refreshToken, now)
    case None => Err(ValueError("Invalid refresh token"))
    case Some(payload) =>
      match Subject(payload)
      case None => Err(ValueError("Invalid refresh token: no subject"))
      case Some(email) => Ok(TokenPairFor(codec, email, now))
  }

  /** Rotation: within its 7 days, refreshing a refresh token minted for an
      email yields a pair for that email whose expiries count from `now`. */
  lemma RefreshRotatesIssuedToken(codec: Codec, email: string, issuedAt: int, now: int)
    requires RoundTrips(codec)
    requires now <= issuedAt + REFRESH_TOKEN_EXPIRE_DAYS * MINUTES_PER_DAY
    ensures var r := RefreshUserToken(codec, CreateRefreshToken(codec, map["sub" := Str(email)], issuedAt, 7), now);
            r.Ok?
            && codec.decode(r.value.access_token) == Some(map["sub" := Str(email), "exp" := Num(now + 30)])
            && codec.decode(r.value.refresh_token) == Some(map["sub" := Str(email), "exp" := Num(now + 10080)])
  {
  }

  /** After its 7 days a refresh token is refused by jwt.decode, so refreshing
      raises "Invalid refresh token". */
  lemma RefreshRejectsExpiredToken(codec: Codec, email: string, issuedAt: int, now: int)
    requires RoundTrips(codec)
    requires now > issuedAt + REFRESH_TOKEN_EXPIRE_DAYS * MINUTES_PER_DAY
    ensures RefreshUserToken(codec, CreateRefreshToken(codec, map["sub" := Str(email)], issuedAt, 7), now)
            == Err(ValueError("Invalid refresh token"))
  {
  }

  /** No token type is recorded, so an unexpired access token is accepted for
      refresh just as a refresh token is. */
  lemma AccessTokenAcceptedForRefresh(codec: Codec, email: string, issuedAt: int, now: int)
    requires RoundTrips(codec)
    requires now <= issuedAt + ACCESS_TOKEN_EXPIRE_MINUTES
    ensures RefreshUserToken(codec, CreateAccessToken(codec, map["sub" := Str(email)], issuedAt, 30), now).Ok?
  {
  }

  // Account operations

  /** The row create_user builds, with the column defaults applied; the id is
      assigned by the table. */
  function NewUserRecord(user: UserCreate, hashed: PasswordHash, code: string, now: int): (u: User)
    ensures u.email == user.email && u.hashed_password == hashed
    ensures u.first_name == user.first_name && u.last_name == user.last_name
    ensures u.verification_code == Some(code) && u.created_at == now
    ensures !u.is_verified && u.role == DEFAULT_ROLE && RoleOf(u.role) == Some(UserRole)
    ensures !u.is_deleted && u.deleted_at == None
  {
    User(0, user.email, hashed, user.first_name, user.last_name,
         false, DEFAULT_ROLE, Some(code), now, false, None)
  }

  /** create_user: hash the password, take the first six characters of a
      fresh UUID as the code, insert the row, and queue the verification mail.
      An email already stored violates the unique index. */
  method CreateUser(db: UserStore, queue: UserTasks.TaskQueue, bcrypt: Bcrypt, user: UserCreate,
                    salt: string, uuidText: string, now: int)
    returns (r: Result<User>)
    requires db.Valid()
    requires |uuidText| == 36
    modifies db, queue
    ensures db.Valid() && db.nextId == old(db.nextId) + 1
    ensures IndexOfEmail(old(db.rows), user.email).Some? ==>
              r == Err(IntegrityError("ix_users_email"))
              && db.rows == old(db.rows) && queue.sent == old(queue.sent)
    ensures IndexOfEmail(old(db.rows), user.email).None? ==>
              && r.Ok?
              && db.rows == old(db.rows) + [r.value]
              && r.value == NewUserRecord(user, GetPasswordHash(bcrypt, user.password, salt), uuidText[..6], now).(id := old(db.nextId))
              && r.value.id == old(db.nextId)
              && r.value.email == user.email
              && r.value.first_name == user.first_name && r.value.last_name == user.last_name
              && r.value.hashed_password == GetPasswordHash(bcrypt, user.password, salt)
              && r.value.verification_code == Some(uuidText[..6])
              && |r.value.verification_code.value| == 6
              && !r.value.is_verified && r.value.role == "user"
              && !r.value.is_deleted && r.value.deleted_at == None && r.value.created_at == now
              && queue.sent == old(queue.sent) + [UserTasks.VerificationEmail(user.email, uuidText[..6])]
    ensures KnownRoles(old(db.rows)) ==> KnownRoles(db.rows)
  {
    var hashed := GetPasswordHash(bcrypt, user.password, salt);
    var code := uuidText[..6];
    r := db.Add(NewUserRecord(user, hashed, code, now));
    if r.Ok? {
      queue.SendVerificationEmailDelay(r.value.email, code);
    }
  }

  /** The position of the row verify_user changes: the first row with that
      email, when its stored code equals the given one. */
  function CodeMatch(rows: seq<User>, email: string, code: string): (r: Option<nat>)
    ensures r.Some? ==> r == IndexOfEmail(rows, email) && rows[r.value].verification_code == Some(code)
    ensures r.None? ==> IndexOfEmail(rows, email).None?
                        || rows[IndexOfEmail(rows, email).value].verification_code != Some(code)
  {
    match IndexOfEmail(rows, email)
    case None => None
    case Some(i) => if rows[i].verification_code == Some(code) then Some(i) else None
  }

  /** With unique emails, verification succeeds iff some user has that email
      and that stored code. */
  lemma CodeMatchIff(rows: seq<User>, email: string, code: string)
    requires UniqueEmails(rows)
    ensures CodeMatch(rows, email, code).Some? <==>
            exists k :: 0 <= k < |rows| && rows[k].email == email && rows[k].verification_code == Some(code)
  {
    if k :| 0 <= k < |rows| && rows[k].email == email && rows[k].verification_code == Some(code) {
      EmailLookupUnique(rows, k);
    }
  }

  /** The row after a successful verification. */
  function Verified(u: User): User {
    u.(is_verified := true, verification_code := None)
  }

  /** A code works once: after it succeeds the stored code is None, so the
      same email and code fail the second time. */
  lemma VerificationIsSingleUse(rows: seq<User>, email: string, code: string)
    requires CodeMatch(rows, email, code).Some?
    ensures var i := CodeMatch(rows, email, code).value;
            CodeMatch(rows[i := Verified(rows[i])], email, code).None?
  {
    var i := CodeMatch(rows, email, code).value;
    EmailLookupIgnoresOtherColumns(rows, rows[i := Verified(rows[i])], email);
  }

  /** verify_user: on a match, set is_verified, clear the code, commit and
      return the user; otherwise return None and change nothing. */
  method VerifyUser(db: UserStore, email: string, code: string) returns (r: Option<User>)
    requires db.Valid()
    modifies db
    ensures db.Valid() && db.nextId == old(db.nextId)
    ensures CodeMatch(old(db.rows), email, code).None? ==> r.None? && db.rows == old(db.rows)
    ensures CodeMatch(old(db.rows), email, code).Some? ==>
              var i := CodeMatch(old(db.rows), email, code).value;
              && r == Some(Verified(old(db.rows)[i]))
              && db.rows == old(db.rows)[i := r.value]
  {
    var found := IndexOfEmail(db.rows, email);
    if found.Some? && db.rows[found.value].verification_code == Some(code) {
      var user := Verified(db.rows[found.value]);
      db.Replace(found.value, user);
      r := Some(user);
    } else {
      r := None;
    }
  }

  /** set_user_role: a missing id raises 404, checked first; a role other than
      "admin" or "user" raises 403; otherwise only the role changes. */
  method SetUserRole(db: UserStore, userId: int, data: UserUpdateRole) returns (r: Result<User>)
    requires db.Valid()
    modifies db
    ensures db.Valid() && db.nextId == old(db.nextId)
    ensures IndexOfId(old(db.rows), userId).None? ==>
              r == Err(USER_NOT_FOUND) && db.rows == old(db.rows)
    ensures IndexOfId(old(db.rows), userId).Some? && RoleOf(data.role).None? ==>
              r == Err(HttpException(HTTP_403_FORBIDDEN, "Invalid role")) && db.rows == old(db.rows)
    ensures IndexOfId(old(db.rows), userId).Some? && RoleOf(data.role).Some? ==>
              var i := IndexOfId(old(db.rows), userId).value;
              && r == Ok(old(db.rows)[i].(role := data.role))
              && db.rows == old(db.rows)[i := r.value]
    ensures KnownRoles(old(db.rows)) ==> KnownRoles(db.rows)
  {
    var found := IndexOfId(db.rows, userId);
    if found.None? {
      return Err(USER_NOT_FOUND);
    }
    if data.role != "admin" && data.role != "user" {
      return Err(HttpException(HTTP_403_FORBIDDEN, "Invalid role"));
    }
    var user := db.rows[found.value].(role := data.role);
    db.Replace(found.value, user);
    r := Ok(user);
  }
}
