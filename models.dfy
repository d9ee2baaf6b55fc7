/** The users table (app/models.py): the role enumeration, the stored record,
    and the table-wide constraints the database enforces. */
module Models {
  import opened Common

  /** RoleEnum: the roles a user may hold, by their stored string value. */
  datatype Role = UserRole | AdminRole {
    function Value(): string {
      match this
      case UserRole => "user"
      case AdminRole => "admin"
    }
  }

  /** RoleEnum(s): the role whose value is s, if there is one. */
  function RoleOf(s: string): (r: Option<Role>)
    ensures r.Some? <==> s == "user" || s == "admin"
    ensures r.Some? ==> r.value.Value() == s
  {
    if s == "user" then Some(UserRole)
    else if s == "admin" then Some(AdminRole)
    else None
  }

  /** Every role maps back to itself through its stored value. */
  lemma RoleRoundTrip(role: Role)
    ensures RoleOf(role.Value()) == Some(role)
  {
  }

  /** The column default of `role`. */
  const DEFAULT_ROLE: string := UserRole.Value()

  /** A stored bcrypt hash: the salt it was made with and the digest under that
      salt. Its text encoding is not modelled. */
  datatype PasswordHash = PasswordHash(salt: string, digest: string)

  /** A row of the users table. Timestamps are integer minutes. `is_deleted`
      and `deleted_at` are the soft-delete columns the expiry sweep reads and
      writes. */
  datatype User = User(
    id: int,
    email: string,
    hashed_password: PasswordHash,
    first_name: Option<string>,
    last_name: Option<string>,
    is_verified: bool,
    role: string,
    verification_code: Option<string>,
    created_at: int,
    is_deleted: bool,
    deleted_at: Option<int>)

  /** The primary key is unique. */
  ghost predicate UniqueIds(rows: seq<User>) {
    forall i, j :: 0 <= i < j < |rows| ==> rows[i].id != rows[j].id
  }

  /** The unique index on `email`. */
  ghost predicate UniqueEmails(rows: seq<User>) {
    forall i, j :: 0 <= i < j < |rows| ==> rows[i].email != rows[j].email
  }

  /** Every id was drawn from the id sequence before `nextId`. */
  ghost predicate IdsBelow(rows: seq<User>, nextId: int) {
    forall i :: 0 <= i < |rows| ==> rows[i].id < nextId
  }

  /** Every stored role is a RoleEnum value (the column itself is a plain string). */
  ghost predicate KnownRoles(rows: seq<User>) {
    forall i :: 0 <= i < |rows| ==> RoleOf(rows[i].role).Some?
  }

  /** The constraints the users table keeps. */
  ghost predicate WellFormed(rows: seq<User>, nextId: int) {
    UniqueIds(rows) && UniqueEmails(rows) && IdsBelow(rows, nextId)
  }

  /** Two rows agree on the keyed columns. */
  predicate SameKeys(a: User, b: User) {
    a.id == b.id && a.email == b.email
  }
}
