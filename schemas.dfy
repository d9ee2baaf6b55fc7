/** The request and response bodies (app/schemas.py), the projection of a row
    onto the public user view, and how request bodies are validated into them. */
module Schemas {
  import opened Common
  import opened Models

  /** UserCreate: the signup and login body. */
  datatype UserCreate = UserCreate(
    email: string,
    password: string,
    first_name: Option<string>,
    last_name: Option<string>)

  /** UserRead: the public view of a user. */
  datatype UserRead = UserRead(
    id: int,
    email: string,
    first_name: Option<string>,
    last_name: Option<string>,
    is_verified: bool,
    role: string)

  /** A row serialised through response_model=UserRead. */
  function ToRead(u: User): (v: UserRead)
    ensures v.id == u.id && v.email == u.email && v.role == u.role && v.is_verified == u.is_verified
    ensures v.first_name == u.first_name && v.last_name == u.last_name
  {
    UserRead(u.id, u.email, u.first_name, u.last_name, u.is_verified, u.role)
  }

  /** The public view depends on the six exposed columns only: the password
      hash, the verification code, the timestamps and the soft-delete flag
      never reach a response. */
  lemma ReadHidesSecrets(u: User, v: User)
    requires u.id == v.id && u.email == v.email
    requires u.first_name == v.first_name && u.last_name == v.last_name
    requires u.is_verified == v.is_verified && u.role == v.role
    ensures ToRead(u) == ToRead(v)
  {
  }

  /** A field of a PATCH body: not sent, or sent with a value (possibly null). */
  datatype Field<+T> = Unset | Set(value: T)

  /** UserUpdate: the admin PATCH body; it carries the two name fields only. */
  datatype UserUpdate = UserUpdate(first_name: Field<Option<string>>, last_name: Field<Option<string>>)

  /** The columns a UserUpdate can name. */
  datatype UpdatableField = FirstName | LastName

  /** data.dict(exclude_unset=True).items(): the sent fields with their values,
      in declaration order. */
  function SentItems(d: UserUpdate): (items: seq<(UpdatableField, Option<string>)>)
    ensures |items| <= 2
    ensures d.first_name.Set? <==> (exists j :: 0 <= j < |items| && items[j].0 == FirstName)
    ensures d.last_name.Set? <==> (exists j :: 0 <= j < |items| && items[j].0 == LastName)
    ensures forall j :: 0 <= j < |items| && items[j].0 == FirstName ==> d.first_name == Set(items[j].1)
    ensures forall j :: 0 <= j < |items| && items[j].0 == LastName ==> d.last_name == Set(items[j].1)
  {
    match (d.first_name, d.last_name)
    case (Set(f), Set(l)) =>
      var both := [(FirstName, f), (LastName, l)];
      assert both[0].0 == FirstName && both[1].0 == LastName;
      both
    case (Set(f), Unset) => assert [(FirstName, f)][0].0 == FirstName; [(FirstName, f)]
    case (Unset, Set(l)) => assert [(LastName, l)][0].0 == LastName; [(LastName, l)]
    case (Unset, Unset) => []
  }

  /** UserUpdateRole: the role-change body. */
  datatype UserUpdateRole = UserUpdateRole(role: string)

  /** Token: the login and refresh response. */
  datatype Token = Token(access_token: string, refresh_token: string)

  /** VerifySchema: the verification body. */
  datatype VerifySchema = VerifySchema(email: string, code: string)

  // Request validation. A JSON body is modelled by its string and null members.

  datatype Json = JString(s: string) | JNull

  type Body = map<string, Json>

  const FIELD_REQUIRED: Raised := HttpException(HTTP_422_UNPROCESSABLE_ENTITY, "Field required")

  /** The value of an Optional[str] member. */
  function Nullable(j: Json): Option<string> {
    match j
    case JString(s) => Some(s)
    case JNull => None
  }

  /** A str member is present and not null. */
  predicate HasString(body: Body, key: string) {
    key in body && body[key].JString?
  }

  /** The EmailStr check (email-validator): the normalised address, or None
      when the text is not a valid address. */
  type EmailCheck = string -> Option<string>

  const INVALID_EMAIL: Raised := HttpException(HTTP_422_UNPROCESSABLE_ENTITY, "value is not a valid email address")

  /** UserCreate as the schema declares it, under pydantic 2: a field annotated
      Optional[str] with no default is REQUIRED (it may be null but not
      missing), so a body without the name fields is rejected. The email must
      pass EmailStr and is stored normalised. */
  function ValidateUserCreateAsDeclared(body: Body, emailStr: EmailCheck): (r: Result<UserCreate>)
    ensures r.Ok? <==> && HasString(body, "email") && HasString(body, "password")
                       && "first_name" in body && "last_name" in body
                       && emailStr(body["email"].s).Some?
    ensures !(HasString(body, "email") && HasString(body, "password") && "first_name" in body && "last_name" in body)
            ==> r == Err(FIELD_REQUIRED)
    ensures r.Err? ==> r.error == FIELD_REQUIRED || r.error == INVALID_EMAIL
    ensures r.Ok? ==> && r.value.email == emailStr(body["email"].s).value
                      && r.value.password == body["password"].s
                      && r.value.first_name == Nullable(body["first_name"])
                      && r.value.last_name == Nullable(body["last_name"])
  {
    if !(HasString(body, "email") && HasString(body, "password") && "first_name" in body && "last_name" in body)
    then Err(FIELD_REQUIRED)
    else match emailStr(body["email"].s)
      case None => Err(INVALID_EMAIL)
      case Some(email) =>
        Ok(UserCreate(email, body["password"].s, Nullable(body["first_name"]), Nullable(body["last_name"])))
  }

  /** UserCreate with the names optional (default None), as the signup route
      and its callers use it; the email must still pass EmailStr. */
  function ValidateUserCreate(body: Body, emailStr: EmailCheck): (r: Result<UserCreate>)
    ensures r.Ok? <==> HasString(body, "email") && HasString(body, "password") && emailStr(body["email"].s).Some?
    ensures !(HasString(body, "email") && HasString(body, "password")) ==> r == Err(FIELD_REQUIRED)
    ensures r.Err? ==> r.error == FIELD_REQUIRED || r.error == INVALID_EMAIL
    ensures r.Ok? ==> r.value.email == emailStr(body["email"].s).value && r.value.password == body["password"].s
    ensures r.Ok? ==> r.value.first_name == (if "first_name" in body then Nullable(body["first_name"]) else None)
    ensures r.Ok? ==> r.value.last_name == (if "last_name" in body then Nullable(body["last_name"]) else None)
  {
    if !(HasString(body, "email") && HasString(body, "password")) then Err(FIELD_REQUIRED)
    else match emailStr(body["email"].s)
      case None => Err(INVALID_EMAIL)
      case Some(email) =>
        Ok(UserCreate(
          email, body["password"].s,
          if "first_name" in body then Nullable(body["first_name"]) else None,
          if "last_name" in body then Nullable(body["last_name"]) else None))
  }

  /** UserUpdate as the schema declares it, under pydantic 2: both name fields
      are required, so both are always "set" and a partial PATCH is rejected. */
  function ValidateUserUpdateAsDeclared(body: Body): (r: Result<UserUpdate>)
    ensures r.Ok? <==> "first_name" in body && "last_name" in body
    ensures r.Ok? ==> r.value.first_name == Set(Nullable(body["first_name"]))
                      && r.value.last_name == Set(Nullable(body["last_name"]))
    ensures r.Err? ==> r.error == FIELD_REQUIRED
  {
    if "first_name" in body && "last_name" in body
    then Ok(UserUpdate(Set(Nullable(body["first_name"])), Set(Nullable(body["last_name"]))))
    else Err(FIELD_REQUIRED)
  }

  /** UserUpdate with both fields defaulting to None, as the PATCH handler's
      exclude_unset expects: a field is set exactly when the body sends it. */
  function ValidateUserUpdate(body: Body): (r: UserUpdate)
    ensures r.first_name.Set? <==> "first_name" in body
    ensures r.last_name.Set? <==> "last_name" in body
    ensures r.first_name.Set? ==> r.first_name.value == Nullable(body["first_name"])
    ensures r.last_name.Set? ==> r.last_name.value == Nullable(body["last_name"])
  {
    UserUpdate(
      if "first_name" in body then Set(Nullable(body["first_name"])) else Unset,
      if "last_name" in body then Set(Nullable(body["last_name"])) else Unset)
  }

  /** The body of the partial PATCH the test suite sends. */
  const PATCH_FIRST_NAME_ONLY: Body := map["first_name" := JString("John")]

  /** The signup body the test suite sends. */
  const SIGNUP_WITHOUT_NAMES: Body := map["email" := JString("new@example.com"), "password" := JString("password123")]

  /** As declared, the partial PATCH is rejected before the handler runs; with
      the defaults it becomes an update that sets first_name only. */
  lemma PartialPatchRejectedAsDeclared()
    ensures ValidateUserUpdateAsDeclared(PATCH_FIRST_NAME_ONLY) == Err(FIELD_REQUIRED)
    ensures ValidateUserUpdate(PATCH_FIRST_NAME_ONLY) == UserUpdate(Set(Some("John")), Unset)
  {
  }

  /** As declared, a signup body without the name fields is rejected; with the
      defaults it is accepted with both names None. */
  lemma SignupWithoutNamesRejectedAsDeclared(emailStr: EmailCheck)
    requires emailStr("new@example.com") == Some("new@example.com")
    ensures ValidateUserCreateAsDeclared(SIGNUP_WITHOUT_NAMES, emailStr) == Err(FIELD_REQUIRED)
    ensures ValidateUserCreate(SIGNUP_WITHOUT_NAMES, emailStr) == Ok(UserCreate("new@example.com", "password123", None, None))
  {
  }

  /** A body whose email fails EmailStr is a 422 under either declaration. */
  lemma MalformedEmailRejected(body: Body, emailStr: EmailCheck)
    requires HasString(body, "email") && HasString(body, "password")
    requires emailStr(body["email"].s).None?
    ensures ValidateUserCreate(body, emailStr) == Err(INVALID_EMAIL)
    ensures ValidateUserCreateAsDeclared(body, emailStr).Err?
  {
  }
}
