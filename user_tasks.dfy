/** The background jobs of app/tasks/user_tasks.py: the deferred verification
    mail, and the current expiry sweep, which soft-deletes stale unverified
    accounts. */
module UserTasks {
  import opened Common
  import opened Models
  import opened Db

  /** The default of UNVERIFIED_USER_LIFETIME_MINUTES (48 hours). */
  const UNVERIFIED_USER_LIFETIME_MINUTES: int := 2880

  /** A verification mail handed to the job queue. */
  datatype VerificationEmail = VerificationEmail(email: string, code: string)

  /** The Celery queue the service hands deferred jobs to. Building and
      sending the mail is not modelled. */
  class TaskQueue {
    var sent: seq<VerificationEmail>

    constructor ()
      ensures sent == []
    {
      sent := [];
    }

    /** send_verification_email.delay(email, code): enqueue and return. */
    method SendVerificationEmailDelay(email: string, code: string)
      modifies this
      ensures sent == old(sent) + [VerificationEmail(email, code)]
    {
      sent := sent + [VerificationEmail(email, code)];
    }
  }

  /** UNVERIFIED_USER_THRESHOLD for a run at `now`. */
  function Threshold(now: int): (t: int)
    ensures t < now
  {
    now - UNVERIFIED_USER_LIFETIME_MINUTES
  }

  /** The sweep's filter: not verified, not yet deleted, created strictly
      before the threshold. */
  predicate Expired(u: User, threshold: int) {
    !u.is_verified && !u.is_deleted && u.created_at < threshold
  }

  /** A swept row: `is_deleted` set and `deleted_at` stamped with the run time. */
  function SoftDeleted(u: User, now: int): User {
    u.(is_deleted := true, deleted_at := Some(now))
  }

  /** The sweep's query: the positions of the rows it selects, in table order. */
  function SelectExpired(rows: seq<User>, threshold: int): (r: seq<nat>)
    ensures forall j :: 0 <= j < |r| ==> r[j] < |rows| && Expired(rows[r[j]], threshold)
    ensures forall k :: 0 <= k < |rows| && Expired(rows[k], threshold) ==> k in r
    ensures forall i, j :: 0 <= i < j < |r| ==> r[i] < r[j]
    decreases |rows|
  {
    if rows == [] then []
    else
      var last := |rows| - 1;
      var before := SelectExpired(rows[..last], threshold);
      if Expired(rows[last], threshold) then before + [last] else before
  }

  /** The table as a sweep with this threshold, run at `now`, leaves it. */
  function Swept(rows: seq<User>, threshold: int, now: int): (r: seq<User>)
    ensures |r| == |rows|
    ensures forall k :: 0 <= k < |rows| ==>
              r[k] == rows[k].(is_deleted := r[k].is_deleted, deleted_at := r[k].deleted_at)
  {
    seq(|rows|, k requires 0 <= k < |rows| =>
      if Expired(rows[k], threshold) then SoftDeleted(rows[k], now) else rows[k])
  }

  /** A row is changed by the sweep iff the filter selects it; a selected row
      ends deleted, stamped with the run time, and otherwise as it was. */
  lemma SweepChangesExactlySelected(rows: seq<User>, threshold: int, now: int, k: nat)
    requires k < |rows|
    ensures |Swept(rows, threshold, now)| == |rows|
    ensures Expired(rows[k], threshold) ==>
      Swept(rows, threshold, now)[k] == SoftDeleted(rows[k], now)
    ensures !Expired(rows[k], threshold) ==> Swept(rows, threshold, now)[k] == rows[k]
    ensures Swept(rows, threshold, now)[k] != rows[k] <==> Expired(rows[k], threshold)
  {
  }

  /** Verified and already-deleted rows, and rows created at or after the
      threshold (a row created exactly at it included), are left alone. */
  lemma SweepSparesOthers(rows: seq<User>, threshold: int, now: int, k: nat)
    requires k < |rows|
    requires rows[k].is_verified || rows[k].is_deleted || rows[k].created_at >= threshold
    ensures Swept(rows, threshold, now)[k] == rows[k]
  {
  }

  /** `is_deleted` only goes from false to true, and a row already deleted
      keeps its `deleted_at`. */
  lemma SweepIsMonotone(rows: seq<User>, threshold: int, now: int, k: nat)
    requires k < |rows|
    ensures rows[k].is_deleted ==> Swept(rows, threshold, now)[k] == rows[k]
    ensures Swept(rows, threshold, now)[k].is_deleted
            <==> rows[k].is_deleted || Expired(rows[k], threshold)
  {
  }

  /** The sweep keeps the table's keys, so its constraints. */
  lemma SweepKeepsKeys(rows: seq<User>, threshold: int, now: int, nextId: int)
    requires WellFormed(rows, nextId)
    ensures WellFormed(Swept(rows, threshold, now), nextId)
  {
  }

  /** A second sweep with the same threshold selects nothing and changes
      nothing: the sweep is idempotent. */
  lemma SweepIdempotent(rows: seq<User>, threshold: int, now: int, later: int)
    ensures SelectExpired(Swept(rows, threshold, now), threshold) == []
    ensures Swept(Swept(rows, threshold, now), threshold, later) == Swept(rows, threshold, now)
  {
    NothingExpiredSelectsNothing(Swept(rows, threshold, now), threshold);
  }

  /** A table with no expired row gives an empty selection. */
  lemma {:induction false} NothingExpiredSelectsNothing(rows: seq<User>, threshold: int)
    requires forall k :: 0 <= k < |rows| ==> !Expired(rows[k], threshold)
    ensures SelectExpired(rows, threshold) == []
    decreases |rows|
  {
    if rows != [] {
      NothingExpiredSelectsNothing(rows[..|rows| - 1], threshold);
    }
  }

  /** A later threshold selects every row an earlier one selects. */
  lemma LaterThresholdSelectsMore(rows: seq<User>, early: int, late: int)
    requires early <= late
    ensures forall k :: k in SelectExpired(rows, early) ==> k in SelectExpired(rows, late)
  {
    forall k | k in SelectExpired(rows, early)
      ensures k in SelectExpired(rows, late)
    {
      var j :| 0 <= j < |SelectExpired(rows, early)| && SelectExpired(rows, early)[j] == k;
    }
  }

  /** An account created at T with the 48-hour lifetime survives a sweep at
      T + 47 h and is soft-deleted by one at T + 49 h. */
  lemma FortyEightHourScenario(u: User, t: int)
    requires !u.is_verified && !u.is_deleted && u.created_at == t
    ensures Swept([u], Threshold(t + 47 * 60), t + 47 * 60) == [u]
    ensures Swept([u], Threshold(t + 49 * 60), t + 49 * 60) == [SoftDeleted(u, t + 49 * 60)]
  {
  }

  /** async_delete_unverified_users: compute the threshold once, select the
      expired rows, mark each one deleted, commit, and report how many were
      selected. */
  method DeleteUnverifiedUsers(db: UserStore, now: int) returns (count: nat)
    requires db.Valid()
    modifies db
    ensures db.Valid() && db.nextId == old(db.nextId)
    ensures db.rows == Swept(old(db.rows), Threshold(now), now)
    ensures count == |SelectExpired(old(db.rows), Threshold(now))|
  {
    var threshold := now - UNVERIFIED_USER_LIFETIME_MINUTES;
    var users := SelectExpired(db.rows, threshold);
    ghost var before := db.rows;
    for j := 0 to |users|
      invariant db.Valid() && db.nextId == old(db.nextId)
      invariant |db.rows| == |before|
      invariant forall k :: 0 <= k < |before| ==> db.rows[k] == MarkedUpTo(before, users, j, now, k)
    {
      var k := users[j];
      ghost var previous := db.rows;
      assert previous[k] == before[k] by {
        assert forall i :: 0 <= i < j ==> users[i] != k;
      }
      db.Replace(k, SoftDeleted(db.rows[k], now));
      forall m | 0 <= m < |before|
        ensures db.rows[m] == MarkedUpTo(before, users, j + 1, now, m)
      {
        if m != k {
          assert db.rows[m] == previous[m];
        }
      }
    }
    MarkedAllIsSwept(before, users, threshold, now, db.rows);
    count := |users|;
  }

  /** Row k of `rows` once the first j selected rows have been marked. */
  ghost function MarkedUpTo(rows: seq<User>, users: seq<nat>, j: nat, now: int, k: nat): User
    requires j <= |users| && k < |rows|
  {
    if exists i :: 0 <= i < j && users[i] == k then SoftDeleted(rows[k], now) else rows[k]
  }

  lemma MarkedAllIsSwept(rows: seq<User>, users: seq<nat>, threshold: int, now: int, table: seq<User>)
    requires users == SelectExpired(rows, threshold)
    requires |table| == |rows|
    requires forall k :: 0 <= k < |rows| ==> table[k] == MarkedUpTo(rows, users, |users|, now, k)
    ensures table == Swept(rows, threshold, now)
  {
    forall k | 0 <= k < |rows|
      ensures table[k] == Swept(rows, threshold, now)[k]
    {
      if Expired(rows[k], threshold) {
        assert k in users;
      }
    }
  }
}
