/** The older expiry job of app/tasks.py: it hard-deletes unverified accounts
    older than two days. */
module Tasks {
  import opened Common
  import opened Models
  import opened Db

  /** The threshold for a run at `now`: two days back. */
  function Threshold(now: int): int {
    now - 2 * MINUTES_PER_DAY
  }

  /** The old job's filter: not verified and created strictly before the
      threshold. It has no `is_deleted` condition. */
  predicate Stale(u: User, threshold: int) {
    !u.is_verified && u.created_at < threshold
  }

  /** The old job's query: the positions of the rows it selects, in table order. */
  function SelectStale(rows: seq<User>, threshold: int): (r: seq<nat>)
    ensures forall j :: 0 <= j < |r| ==> r[j] < |rows| && Stale(rows[r[j]], threshold)
    ensures forall k :: 0 <= k < |rows| && Stale(rows[k], threshold) ==> k in r
    decreases |rows|
  {
    if rows == [] then []
    else
      var last := |rows| - 1;
      var before := SelectStale(rows[..last], threshold);
      if Stale(rows[last], threshold) then before + [last] else before
  }

  /** The table after the old job: the rows it does not select, in order. */
  function Purged(rows: seq<User>, threshold: int): (r: seq<User>)
    ensures |r| <= |rows|
    decreases |rows|
  {
    if rows == [] then []
    else
      var last := |rows| - 1;
      Purged(rows[..last], threshold) + (if Stale(rows[last], threshold) then [] else [rows[last]])
  }

  /** The old job removes exactly the selected rows: a row survives iff it is
      verified or was created at or after the threshold. */
  lemma {:induction false} PurgeRemovesExactlyStale(rows: seq<User>, threshold: int)
    ensures forall u :: u in Purged(rows, threshold) ==> u in rows && !Stale(u, threshold)
    ensures forall u :: u in rows && !Stale(u, threshold) ==> u in Purged(rows, threshold)
    decreases |rows|
  {
    if rows != [] {
      var last := |rows| - 1;
      var prefix := rows[..last];
      PurgeRemovesExactlyStale(prefix, threshold);
      assert rows == prefix + [rows[last]];
    }
  }

  /** Every remaining account is verified or was created at or after the
      threshold, and every verified account is kept unchanged. */
  lemma PurgeLeavesOnlyFreshOrVerified(rows: seq<User>, threshold: int)
    ensures forall u :: u in Purged(rows, threshold) ==> u.is_verified || u.created_at >= threshold
    ensures forall u :: u in rows && u.is_verified ==> u in Purged(rows, threshold)
  {
    PurgeRemovesExactlyStale(rows, threshold);
  }

  /** A soft-deleted stale account is removed too: the filter ignores `is_deleted`. */
  lemma PurgeIgnoresSoftDeleteFlag(u: User, threshold: int)
    requires !u.is_verified && u.is_deleted && u.created_at < threshold
    ensures Purged([u], threshold) == []
  {
  }

  /** The two-day cutoff is strict: an unverified account created at t
      survives a run exactly two days later and is removed by any later run. */
  lemma PurgeBoundary(u: User, t: int, now: int)
    requires !u.is_verified && u.created_at == t
    ensures Purged([u], Threshold(t + 2 * MINUTES_PER_DAY)) == [u]
    ensures now > t + 2 * MINUTES_PER_DAY ==> Purged([u], Threshold(now)) == []
  {
  }

  /** A second run with the same threshold removes nothing. */
  lemma {:induction false} PurgeIdempotent(rows: seq<User>, threshold: int)
    ensures Purged(Purged(rows, threshold), threshold) == Purged(rows, threshold)
    decreases |rows|
  {
    if rows != [] {
      var last := |rows| - 1;
      var prefix := rows[..last];
      PurgeIdempotent(prefix, threshold);
      var p := Purged(prefix, threshold);
      if !Stale(rows[last], threshold) {
        var q := p + [rows[last]];
        assert q[..|q| - 1] == p;
        assert Purged(q, threshold) == Purged(p, threshold) + [rows[last]];
        assert Purged(rows, threshold) == q;
      } else {
        assert Purged(rows, threshold) == p;
      }
    }
  }

  /** Committing the deletion of exactly the selected positions leaves the
      purged table. */
  lemma {:induction false} RemovingStaleIsPurge(rows: seq<User>, doomed: set<nat>, threshold: int)
    requires forall k :: 0 <= k < |rows| ==> (k in doomed <==> Stale(rows[k], threshold))
    ensures RemoveIndices(rows, doomed) == Purged(rows, threshold)
    decreases |rows|
  {
    if rows != [] {
      var last := |rows| - 1;
      RemovingStaleIsPurge(rows[..last], doomed, threshold);
    }
  }

  /** async_delete_unverified_users (old): select the stale rows, stage a
      delete for each, then commit. */
  method DeleteUnverifiedUsers(db: UserStore, now: int)
    requires db.Valid()
    modifies db
    ensures db.Valid() && db.nextId == old(db.nextId)
    ensures db.rows == Purged(old(db.rows), Threshold(now))
  {
    var threshold := Threshold(now);
    var users := SelectStale(db.rows, threshold);
    var doomed: set<nat> := {};
    for j := 0 to |users|
      invariant doomed == set i | 0 <= i < j :: users[i]
    {
      doomed := doomed + {users[j]};
    }
    forall k | 0 <= k < |db.rows|
      ensures k in doomed <==> Stale(db.rows[k], threshold)
    {
      if Stale(db.rows[k], threshold) {
        var i :| 0 <= i < |users| && users[i] == k;
      }
    }
    RemovingStaleIsPurge(db.rows, doomed, threshold);
    db.DeleteAll(doomed);
  }
}
