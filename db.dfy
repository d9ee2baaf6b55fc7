/** The database session as the service uses it: lookups by primary key and by
    email, and a store object whose add, update and delete keep the table's
    constraints. */
module Db {
  import opened Common
  import opened Models

  /** session.get(User, id): the position of the row with that primary key. */
  function IndexOfId(rows: seq<User>, id: int): (r: Option<nat>)
    ensures r.Some? ==> r.value < |rows| && rows[r.value].id == id
    ensures r.Some? ==> forall k :: 0 <= k < r.value ==> rows[k].id != id
    ensures r.None? <==> forall k :: 0 <= k < |rows| ==> rows[k].id != id
    decreases |rows|
  {
    if rows == [] then None
    else if rows[0].id == id then Some(0)
    else match IndexOfId(rows[1..], id)
      case None => None
      case Some(k) => Some(k + 1)
  }

  /** select(User).filter(User.email == email) ... .first(): the position of
      the first row with that email. */
  function IndexOfEmail(rows: seq<User>, email: string): (r: Option<nat>)
    ensures r.Some? ==> r.value < |rows| && rows[r.value].email == email
    ensures r.Some? ==> forall k :: 0 <= k < r.value ==> rows[k].email != email
    ensures r.None? <==> forall k :: 0 <= k < |rows| ==> rows[k].email != email
    decreases |rows|
  {
    if rows == [] then None
    else if rows[0].email == email then Some(0)
    else match IndexOfEmail(rows[1..], email)
      case None => None
      case Some(k) => Some(k + 1)
  }

  /** get_user_by_email: the first user with that email, or None. */
  function FirstWithEmail(rows: seq<User>, email: string): (r: Option<User>)
    ensures r.None? <==> forall k :: 0 <= k < |rows| ==> rows[k].email != email
    ensures r.Some? ==> r.value.email == email && r.value in rows
    ensures r.Some? ==> exists k :: 0 <= k < |rows| && rows[k] == r.value
                                    && forall m :: 0 <= m < k ==> rows[m].email != email
  {
    match IndexOfEmail(rows, email)
    case None => None
    case Some(k) => Some(rows[k])
  }

  /** With a unique primary key, the lookup by id finds the one row holding it. */
  lemma IdLookupUnique(rows: seq<User>, k: nat)
    requires UniqueIds(rows) && k < |rows|
    ensures IndexOfId(rows, rows[k].id) == Some(k)
  {
  }

  /** With unique emails, the lookup by email finds the one row holding it. */
  lemma EmailLookupUnique(rows: seq<User>, k: nat)
    requires UniqueEmails(rows) && k < |rows|
    ensures IndexOfEmail(rows, rows[k].email) == Some(k)
    ensures FirstWithEmail(rows, rows[k].email) == Some(rows[k])
  {
  }

  /** Rewriting rows without touching their emails leaves every email lookup as it was. */
  lemma EmailLookupIgnoresOtherColumns(a: seq<User>, b: seq<User>, email: string)
    requires |a| == |b|
    requires forall k :: 0 <= k < |a| ==> a[k].email == b[k].email
    ensures IndexOfEmail(a, email) == IndexOfEmail(b, email)
  {
  }

  /** The rows left after removing the given positions, in table order. */
  function RemoveIndices(rows: seq<User>, doomed: set<nat>): (r: seq<User>)
    ensures |r| <= |rows|
    decreases |rows|
  {
    if rows == [] then []
    else
      var last := |rows| - 1;
      RemoveIndices(rows[..last], doomed) + (if last in doomed then [] else [rows[last]])
  }

  /** Removing rows keeps exactly the rows at positions not removed. */
  lemma {:induction false} RemoveIndicesMembers(rows: seq<User>, doomed: set<nat>)
    ensures forall u :: u in RemoveIndices(rows, doomed) ==> u in rows
    ensures forall k :: 0 <= k < |rows| && k !in doomed ==> rows[k] in RemoveIndices(rows, doomed)
    decreases |rows|
  {
    if rows != [] {
      var last := |rows| - 1;
      var prefix := rows[..last];
      RemoveIndicesMembers(prefix, doomed);
      var kept := RemoveIndices(prefix, doomed);
      var tail := if last in doomed then [] else [rows[last]];
      assert RemoveIndices(rows, doomed) == kept + tail;
      forall u | u in kept + tail
        ensures u in rows
      {
        if u in kept {
          var m :| 0 <= m < |prefix| && prefix[m] == u;
          assert rows[m] == u;
        }
      }
      forall k | 0 <= k < |rows| && k !in doomed
        ensures rows[k] in kept + tail
      {
        if k < last {
          assert prefix[k] == rows[k];
        }
      }
    }
  }

  /** With a unique primary key, no row at a removed position is left. */
  lemma {:induction false} RemoveIndicesDrops(rows: seq<User>, doomed: set<nat>)
    requires UniqueIds(rows)
    ensures forall k :: 0 <= k < |rows| && k in doomed ==> rows[k] !in RemoveIndices(rows, doomed)
    decreases |rows|
  {
    if rows != [] {
      var last := |rows| - 1;
      var prefix := rows[..last];
      assert UniqueIds(prefix);
      RemoveIndicesDrops(prefix, doomed);
      RemoveIndicesMembers(prefix, doomed);
      var kept := RemoveIndices(prefix, doomed);
      forall u | u in kept
        ensures u.id != rows[last].id
      {
        var m :| 0 <= m < |prefix| && prefix[m] == u;
        assert rows[m] == u;
      }
      forall k | 0 <= k < |rows| && k in doomed
        ensures rows[k] !in RemoveIndices(rows, doomed)
      {
        if k < last {
          assert prefix[k] == rows[k];
          assert rows[k] != rows[last];
        }
      }
    }
  }

  /** Removing rows keeps the table's constraints. */
  lemma {:induction false} RemoveIndicesWellFormed(rows: seq<User>, doomed: set<nat>, nextId: int)
    requires WellFormed(rows, nextId)
    ensures WellFormed(RemoveIndices(rows, doomed), nextId)
    decreases |rows|
  {
    if rows != [] {
      var last := |rows| - 1;
      var prefix := rows[..last];
      assert WellFormed(prefix, nextId);
      RemoveIndicesWellFormed(prefix, doomed, nextId);
      RemoveIndicesMembers(prefix, doomed);
      var kept := RemoveIndices(prefix, doomed);
      if last !in doomed {
        var r := kept + [rows[last]];
        forall i | 0 <= i < |kept|
          ensures kept[i].id != rows[last].id && kept[i].email != rows[last].email
        {
          assert kept[i] in prefix;
          var m :| 0 <= m < |prefix| && prefix[m] == kept[i];
          assert rows[m] == kept[i];
        }
        assert r == RemoveIndices(rows, doomed);
      }
    }
  }

  /** The users table behind the session: its rows in table order and the next
      value of the id sequence. */
  class UserStore {
    var rows: seq<User>
    var nextId: int

    ghost predicate Valid()
      reads this
    {
      WellFormed(rows, nextId)
    }

    /** An empty table; the id sequence starts at 1. */
    constructor ()
      ensures Valid() && rows == [] && nextId == 1
    {
      rows := [];
      nextId := 1;
    }

    /** session.add(row) then commit: the id column draws the next sequence
        value (drawn even when the insert then fails); an email already in the
        table violates the unique index and nothing is stored. */
    method Add(draft: User) returns (r: Result<User>)
      requires Valid()
      modifies this
      ensures Valid() && nextId == old(nextId) + 1
      ensures IndexOfEmail(old(rows), draft.email).Some? ==>
                r == Err(IntegrityError("ix_users_email")) && rows == old(rows)
      ensures IndexOfEmail(old(rows), draft.email).None? ==>
                r == Ok(draft.(id := old(nextId))) && rows == old(rows) + [r.value]
    {
      var id := nextId;
      nextId := nextId + 1;
      if IndexOfEmail(rows, draft.email).Some? {
        r := Err(IntegrityError("ix_users_email"));
      } else {
        var saved := draft.(id := id);
        rows := rows + [saved];
        r := Ok(saved);
      }
    }

    /** Attribute assignments on a loaded row, then commit: the row at
        position i becomes u, which keeps its id and email. */
    method Replace(i: nat, u: User)
      requires Valid()
      requires i < |rows| && SameKeys(u, rows[i])
      modifies this
      ensures Valid() && nextId == old(nextId)
      ensures rows == old(rows)[i := u]
    {
      rows := rows[i := u];
    }

    /** session.delete(row) then commit: the row at position i is gone and the
        others keep their order. */
    method Delete(i: nat)
      requires Valid() && i < |rows|
      modifies this
      ensures Valid() && nextId == old(nextId)
      ensures rows == old(rows)[..i] + old(rows)[i + 1..]
    {
      var r := rows[..i] + rows[i + 1..];
      assert forall k :: 0 <= k < |r| ==> r[k] == if k < i then rows[k] else rows[k + 1];
      rows := r;
    }

    /** Several session.delete(row) calls, then one commit. */
    method DeleteAll(doomed: set<nat>)
      requires Valid()
      modifies this
      ensures Valid() && nextId == old(nextId)
      ensures rows == RemoveIndices(old(rows), doomed)
      ensures forall k :: 0 <= k < |old(rows)| && k in doomed ==> old(rows)[k] !in rows
      ensures forall k :: 0 <= k < |old(rows)| && k !in doomed ==> old(rows)[k] in rows
    {
      RemoveIndicesWellFormed(rows, doomed, nextId);
      RemoveIndicesDrops(rows, doomed);
      RemoveIndicesMembers(rows, doomed);
      rows := RemoveIndices(rows, doomed);
    }
  }
}
