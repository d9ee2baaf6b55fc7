/** app/routers/users.py: the profile endpoint and the admin CRUD endpoints.
    Each admin endpoint runs the admin guard against the table before its body. */
module UsersRouter {
  import opened Common
  import opened Models
  import opened Schemas
  import opened Jwt
  import opened Db
  import opened Deps

  /** GET /users/me: the current user as UserRead. */
  function GetMe(codec: Codec, rows: seq<User>, token: string, now: int): (r: Result<UserRead>)
    ensures r.Ok? <==> GetCurrentUser(codec, rows, token, now).Ok?
    ensures r.Ok? ==> r.value == ToRead(GetCurrentUser(codec, rows, token, now).value)
    ensures r.Err? ==> r.error == GetCurrentUser(codec, rows, token, now).error
  {
    match GetCurrentUser(codec, rows, token, now)
    case Err(e) => Err(e)
    case Ok(user) => Ok(ToRead(user))
  }

  /** GET /users/: every row, in table order, as UserRead. */
  function GetUsers(codec: Codec, rows: seq<User>, token: string, now: int): (r: Result<seq<UserRead>>)
    ensures r.Err? <==> CurrentAdmin(codec, rows, token, now).Err?
    ensures r.Err? ==> r.error == CurrentAdmin(codec, rows, token, now).error
    ensures r.Ok? ==> |r.value| == |rows| && forall k :: 0 <= k < |rows| ==> r.value[k] == ToRead(rows[k])
  {
    match CurrentAdmin(codec, rows, token, now)
    case Err(e) => Err(e)
    case Ok(_) => Ok(seq(|rows|, k requires 0 <= k < |rows| => ToRead(rows[k])))
  }

  /** GET /users/{user_id}: after the admin guard, 404 when the id is absent. */
  function GetUser(codec: Codec, rows: seq<User>, token: string, now: int, userId: int): (r: Result<UserRead>)
    ensures CurrentAdmin(codec, rows, token, now).Err? ==> r == Err(CurrentAdmin(codec, rows, token, now).error)
    ensures CurrentAdmin(codec, rows, token, now).Ok? && IndexOfId(rows, userId).None? ==> r == Err(USER_NOT_FOUND)
    ensures CurrentAdmin(codec, rows, token, now).Ok? && IndexOfId(rows, userId).Some? ==>
              r == Ok(ToRead(rows[IndexOfId(rows, userId).value])) && r.value.id == userId
  {
    match CurrentAdmin(codec, rows, token, now)
    case Err(e) => Err(e)
    case Ok(_) =>
      match IndexOfId(rows, userId)
      case None => Err(USER_NOT_FOUND)
      case Some(i) => Ok(ToRead(rows[i]))
  }

  /** setattr(user, key, value) for a column a UserUpdate can name: that
      column takes the value and every other column keeps its own. */
  function SetAttr(u: User, field: UpdatableField, value: Option<string>): (r: User)
    ensures field == FirstName ==> r.first_name == value && r.last_name == u.last_name
    ensures field == LastName ==> r.last_name == value && r.first_name == u.first_name
    ensures r == u.(first_name := r.first_name, last_name := r.last_name)
  {
    match field
    case FirstName => u.(first_name := value)
    case LastName => u.(last_name := value)
  }

  /** The row after the setattr loop has run over the given items in order. It
      differs from the original in the name columns only, and a column that no
      item names keeps its value. */
  function SetAll(u: User, items: seq<(UpdatableField, Option<string>)>): (r: User)
    ensures r == u.(first_name := r.first_name, last_name := r.last_name)
    ensures (forall j :: 0 <= j < |items| ==> items[j].0 != FirstName) ==> r.first_name == u.first_name
    ensures (forall j :: 0 <= j < |items| ==> items[j].0 != LastName) ==> r.last_name == u.last_name
    decreases |items|
  {
    if items == [] then u
    else SetAttr(SetAll(u, items[..|items| - 1]), items[|items| - 1].0, items[|items| - 1].1)
  }

  /** What a PATCH means: each sent name field takes the sent value, and every
      other column keeps its value. */
  function Patched(u: User, d: UserUpdate): (r: User)
    ensures d.first_name.Set? ==> r.first_name == d.first_name.value
    ensures d.first_name.Unset? ==> r.first_name == u.first_name
    ensures d.last_name.Set? ==> r.last_name == d.last_name.value
    ensures d.last_name.Unset? ==> r.last_name == u.last_name
    ensures r == u.(first_name := r.first_name, last_name := r.last_name)
  {
    u.(first_name := if d.first_name.Set? then d.first_name.value else u.first_name,
       last_name := if d.last_name.Set? then d.last_name.value else u.last_name)
  }

  /** Running the setattr loop over the sent items is exactly the PATCH meaning. */
  lemma SetAllOverSentItemsIsPatch(u: User, d: UserUpdate)
    ensures SetAll(u, SentItems(d)) == Patched(u, d)
  {
    match (d.first_name, d.last_name)
    case (Set(f), Set(l)) =>
      var items := SentItems(d);
      assert items == [(FirstName, f), (LastName, l)];
      assert items[..1] == [(FirstName, f)];
      assert items[..1][..0] == [];
      assert SetAll(u, items[..1]) == u.(first_name := f);
    case (Set(f), Unset) =>
      assert SentItems(d)[..0] == [];
    case (Unset, Set(l)) =>
      assert SentItems(d)[..0] == [];
    case (Unset, Unset) =>
  }

  /** The partial PATCH of the test suite, validated with the name fields
      optional, changes first_name to "John" and nothing else. */
  lemma PartialPatchChangesOnlyFirstName(u: User)
    ensures Patched(u, ValidateUserUpdate(PATCH_FIRST_NAME_ONLY)) == u.(first_name := Some("John"))
  {
    PartialPatchRejectedAsDeclared();
  }

  /** PATCH /users/{user_id}: after the admin guard, 404 when the id is
      absent; otherwise setattr each sent field, commit, return UserRead. */
  method UpdateUser(db: UserStore, codec: Codec, token: string, now: int, userId: int, data: UserUpdate)
    returns (r: Result<UserRead>)
    requires db.Valid()
    modifies db
    ensures db.Valid() && db.nextId == old(db.nextId)
    ensures CurrentAdmin(codec, old(db.rows), token, now).Err? ==>
              r == Err(CurrentAdmin(codec, old(db.rows), token, now).error) && db.rows == old(db.rows)
    ensures CurrentAdmin(codec, old(db.rows), token, now).Ok? && IndexOfId(old(db.rows), userId).None? ==>
              r == Err(USER_NOT_FOUND) && db.rows == old(db.rows)
    ensures CurrentAdmin(codec, old(db.rows), token, now).Ok? && IndexOfId(old(db.rows), userId).Some? ==>
              var i := IndexOfId(old(db.rows), userId).value;
              && db.rows == old(db.rows)[i := Patched(old(db.rows)[i], data)]
              && r == Ok(ToRead(db.rows[i]))
  {
    var admin := CurrentAdmin(codec, db.rows, token, now);
    if admin.Err? {
      return Err(admin.error);
    }
    var found := IndexOfId(db.rows, userId);
    if found.None? {
      return Err(USER_NOT_FOUND);
    }
    var original := db.rows[found.value];
    var user := original;
    var items := SentItems(data);
    for j := 0 to |items|
      invariant user == SetAll(original, items[..j])
    {
      assert items[..j + 1][..j] == items[..j];
      user := SetAttr(user, items[j].0, items[j].1);
    }
    assert items[..|items|] == items;
    SetAllOverSentItemsIsPatch(original, data);
    db.Replace(found.value, user);
    r := Ok(ToRead(user));
  }

  /** DELETE /users/{user_id}: after the admin guard, 404 when the id is
      absent; otherwise remove exactly that row. */
  method DeleteUser(db: UserStore, codec: Codec, token: string, now: int, userId: int) returns (r: Result<string>)
    requires db.Valid()
    modifies db
    ensures db.Valid() && db.nextId == old(db.nextId)
    ensures CurrentAdmin(codec, old(db.rows), token, now).Err? ==>
              r == Err(CurrentAdmin(codec, old(db.rows), token, now).error) && db.rows == old(db.rows)
    ensures CurrentAdmin(codec, old(db.rows), token, now).Ok? && IndexOfId(old(db.rows), userId).None? ==>
              r == Err(USER_NOT_FOUND) && db.rows == old(db.rows)
    ensures CurrentAdmin(codec, old(db.rows), token, now).Ok? && IndexOfId(old(db.rows), userId).Some? ==>
              var i := IndexOfId(old(db.rows), userId).value;
              && db.rows == old(db.rows)[..i] + old(db.rows)[i + 1..]
              && (forall u :: u in db.rows ==> u.id != userId)
              && r == Ok("User deleted")
  {
    var admin := CurrentAdmin(codec, db.rows, token, now);
    if admin.Err? {
      return Err(admin.error);
    }
    var found := IndexOfId(db.rows, userId);
    if found.None? {
      return Err(USER_NOT_FOUND);
    }
    IdLookupUnique(db.rows, found.value);
    db.Delete(found.value);
    r := Ok("User deleted");
  }
}
