/** The nightly pruning of actions: batches of two sweeps, repeated while a batch comes back full. */
module ActionPruning {
  import opened Wrappers
  import opened EmailActionTable
  import Lifecycle = ActionLifecycle

  /** `TimestampUtil.subtractDays`, the retention cutoff. */
  function Cutoff(now: int, retentionDays: nat): int {
    now - retentionDays * 86_400
  }

  /** Everything a prune at this instant may act on.  The two sets overlap in old pending rows. */
  function Work(t: Table, now: int, olderThan: int): set<ActionId> {
    ExpirableIds(t, now) + DeletableIds(t, olderThan)
  }

  /** `t` after `expired` were swept and `deleted` removed from `origin`, in whatever batches. */
  predicate Pruned(origin: Table, t: Table, expired: set<ActionId>, deleted: set<ActionId>, now: int, olderThan: int) {
    && expired !! deleted
    && expired <= ExpirableIds(origin, now) && deleted <= DeletableIds(origin, olderThan)
    && t == Expire(Delete(origin, deleted), expired, now)
  }

  /** A swept row was written just now, so the retention sweep no longer wants it. */
  lemma ExpireShrinksWork(t: Table, chosen: set<ActionId>, now: int, olderThan: int)
    requires chosen <= ExpirableIds(t, now) && olderThan <= now
    ensures ExpirableIds(Expire(t, chosen, now), now) == ExpirableIds(t, now) - chosen
    ensures DeletableIds(Expire(t, chosen, now), olderThan) == DeletableIds(t, olderThan) - chosen
  {
  }

  lemma DeleteShrinksWork(t: Table, chosen: set<ActionId>, now: int, olderThan: int)
    ensures ExpirableIds(Delete(t, chosen), now) == ExpirableIds(t, now) - chosen
    ensures DeletableIds(Delete(t, chosen), olderThan) == DeletableIds(t, olderThan) - chosen
  {
  }

  /** What is left to do after part of the work is exactly the rest of it. */
  lemma PrunedWork(origin: Table, t: Table, expired: set<ActionId>, deleted: set<ActionId>, now: int, olderThan: int)
    requires Pruned(origin, t, expired, deleted, now, olderThan) && olderThan <= now
    ensures ExpirableIds(t, now) == ExpirableIds(origin, now) - expired - deleted
    ensures DeletableIds(t, olderThan) == DeletableIds(origin, olderThan) - expired - deleted
  {
    DeleteShrinksWork(origin, deleted, now, olderThan);
    ExpireShrinksWork(Delete(origin, deleted), expired, now, olderThan);
  }

  /** A subselect that came back short returned everything. */
  lemma ShortMeansAll(eligible: set<ActionId>, limit: nat, chosen: set<ActionId>)
    requires Limited(eligible, limit, chosen) && |chosen| < limit
    ensures chosen == eligible
  {
    assert eligible == chosen + (eligible - chosen);
    assert |eligible| == |chosen| + |eligible - chosen|;
  }

  /** `EmailActionPruningTask.pruneBatch`: both sweeps, their changes added up. */
  method PruneBatch(dao: EmailActionDAO, now: int, olderThan: int, batchSize: nat)
    returns (count: nat, ghost expired: set<ActionId>, ghost deleted: set<ActionId>)
    requires olderThan <= now
    modifies dao
    ensures Pruned(old(dao.rows), dao.rows, expired, deleted, now, olderThan)
    ensures count == |expired| + |deleted|
    ensures count < batchSize ==> Work(dao.rows, now, olderThan) == {}
    ensures Work(old(dao.rows), now, olderThan) != {} && batchSize > 0 ==> count > 0
  {
    ghost var before := dao.rows;
    var expiredCount, deletedCount;
    expiredCount, expired := dao.ExpirePendingActions(now, batchSize);
    ghost var middle := dao.rows;
    ExpireShrinksWork(before, expired, now, olderThan);
    deletedCount, deleted := dao.DeleteOlderThan(olderThan, batchSize);
    DeleteShrinksWork(middle, deleted, now, olderThan);
    ExpireThenDelete(before, expired, deleted, now);
    count := expiredCount + deletedCount;
    if |expired| < batchSize { ShortMeansAll(ExpirableIds(before, now), batchSize, expired); }
    if |deleted| < batchSize { ShortMeansAll(DeletableIds(middle, olderThan), batchSize, deleted); }
  }

  lemma ExpireThenDelete(t: Table, expired: set<ActionId>, deleted: set<ActionId>, now: int)
    ensures Delete(Expire(t, expired, now), deleted) == Expire(Delete(t, deleted), expired, now)
  {
    assert (t - deleted).Keys == t.Keys - deleted;
  }

  /** What a complete prune does to each row: executing rows and fresh ones stay, overdue pending ones expire, and old
      ones go. */
  lemma PrunedRows(origin: Table, t: Table, expired: set<ActionId>, deleted: set<ActionId>, now: int, retentionDays: nat)
    requires Pruned(origin, t, expired, deleted, now, Cutoff(now, retentionDays))
    requires expired + deleted == Work(origin, now, Cutoff(now, retentionDays))
    ensures t.Keys <= origin.Keys
    ensures forall id :: id in origin ==>
              var row, aged := origin[id], origin[id].updatedAt < now - retentionDays * 86_400;
              var overdue := row.status.Pending? && row.expiresAt <= now;
              && (row.status.Executing? || (!aged && !overdue) ==> id in t && t[id] == row)
              && (!aged && overdue ==> id in t && t[id] == row.(status := Expired, updatedAt := now))
              && (aged && !overdue && !row.status.Executing? ==> id !in t)
              && (aged && overdue ==> id !in t || t[id] == row.(status := Expired, updatedAt := now))
  {
    forall id | id in origin
      ensures id in expired + deleted <==> Expirable(origin[id], now) || Deletable(origin[id], Cutoff(now, retentionDays))
    {
      assert id in Work(origin, now, Cutoff(now, retentionDays)) <==> id in expired + deleted;
    }
  }

  /** Such a prune is a sweep and a retention event of the actions' life. */
  lemma PruneIsEvents(s: Lifecycle.State, t: Table, expired: set<ActionId>, deleted: set<ActionId>, retentionDays: nat)
    requires Pruned(s.rows, t, expired, deleted, s.clock, Cutoff(s.clock, retentionDays))
    ensures Lifecycle.Step(Lifecycle.Step(s, Lifecycle.SweepExpired(expired)), Lifecycle.Prune(retentionDays, deleted)).rows == t
  {
    var swept := Lifecycle.Step(s, Lifecycle.SweepExpired(expired));
    ExpireShrinksWork(s.rows, expired, s.clock, Cutoff(s.clock, retentionDays));
    ExpireThenDelete(s.rows, expired, deleted, s.clock);
    assert swept.rows == Expire(s.rows, expired, s.clock) && swept.clock == s.clock;
  }

  /** `pruneInBatches` over that batch.  At any positive batch size it terminates, leaves nothing to
      expire and nothing to delete, changes nothing else, and its total counts every row of the union
      of the two eligible sets once. */
  method PruneInBatches(dao: EmailActionDAO, now: int, retentionDays: nat, batchSize: nat) returns (total: nat)
    requires batchSize > 0
    modifies dao
    ensures ExpirableIds(dao.rows, now) == {} && DeletableIds(dao.rows, Cutoff(now, retentionDays)) == {}
    ensures total == |ExpirableIds(old(dao.rows), now) + DeletableIds(old(dao.rows), Cutoff(now, retentionDays))|
    ensures exists expired, deleted ::
              && expired + deleted == Work(old(dao.rows), now, Cutoff(now, retentionDays))
              && Pruned(old(dao.rows), dao.rows, expired, deleted, now, Cutoff(now, retentionDays))
    ensures dao.rows.Keys <= old(dao.rows.Keys)
    ensures forall id :: id in old(dao.rows) ==>
              var row, aged := old(dao.rows)[id], old(dao.rows)[id].updatedAt < now - retentionDays * 86_400;
              var overdue := row.status.Pending? && row.expiresAt <= now;
              && (row.status.Executing? || (!aged && !overdue) ==> id in dao.rows && dao.rows[id] == row)
              && (!aged && overdue ==> id in dao.rows && dao.rows[id] == row.(status := Expired, updatedAt := now))
              && (aged && !overdue && !row.status.Executing? ==> id !in dao.rows)
              && (aged && overdue ==> id !in dao.rows || dao.rows[id] == row.(status := Expired, updatedAt := now))
  {
    var olderThan := Cutoff(now, retentionDays);
    ghost var origin := dao.rows;
    ghost var expired, deleted: set<ActionId> := {}, {};
    total := 0;
    var count := batchSize;
    assert Pruned(origin, dao.rows, expired, deleted, now, olderThan);
    while count >= batchSize
      invariant Pruned(origin, dao.rows, expired, deleted, now, olderThan)
      invariant total == |expired| + |deleted|
      invariant count < batchSize ==> Work(dao.rows, now, olderThan) == {}
      invariant count >= batchSize ==> count > 0
      decreases |Work(origin, now, olderThan)| - total, count
    {
      ghost var before := dao.rows;
      PrunedWork(origin, before, expired, deleted, now, olderThan);
      ghost var moreExpired, moreDeleted;
      count, moreExpired, moreDeleted := PruneBatch(dao, now, olderThan, batchSize);
      PrunedTwice(origin, before, dao.rows, expired, deleted, moreExpired, moreDeleted, now, olderThan);
      expired, deleted := expired + moreExpired, deleted + moreDeleted;
      total := total + count;
      SizeOfParts(expired, deleted, Work(origin, now, olderThan));
    }
    PrunedWork(origin, dao.rows, expired, deleted, now, olderThan);
    assert expired + deleted == Work(origin, now, olderThan);
    PrunedRows(origin, dao.rows, expired, deleted, now, retentionDays);
    assert |expired + deleted| == |expired| + |deleted|;
  }

  lemma SizeOfParts(a: set<ActionId>, b: set<ActionId>, whole: set<ActionId>)
    requires a !! b && a + b <= whole
    ensures |a| + |b| <= |whole|
  {
    assert |a + b| == |a| + |b|;
    assert whole == (a + b) + (whole - (a + b));
  }

  lemma PrunedTwice(
    origin: Table, middle: Table, t: Table,
    expired: set<ActionId>, deleted: set<ActionId>, moreExpired: set<ActionId>, moreDeleted: set<ActionId>,
    now: int, olderThan: int)
    requires olderThan <= now
    requires Pruned(origin, middle, expired, deleted, now, olderThan)
    requires Pruned(middle, t, moreExpired, moreDeleted, now, olderThan)
    ensures Pruned(origin, t, expired + moreExpired, deleted + moreDeleted, now, olderThan)
    ensures moreExpired !! expired && moreDeleted !! deleted
    ensures |expired + moreExpired| == |expired| + |moreExpired|
    ensures |deleted + moreDeleted| == |deleted| + |moreDeleted|
  {
    PrunedWork(origin, middle, expired, deleted, now, olderThan);
    assert t == Expire(Delete(origin, deleted + moreDeleted), expired + moreExpired, now);
  }

  /** The two sweeps do overlap: a pending row can be past both its deadline and the retention cutoff,
      contrary to the comment in `EmailActionPruningTask`. */
  lemma SweepsOverlap(now: int, retentionDays: nat)
    ensures exists t: Table :: ExpirableIds(t, now) * DeletableIds(t, Cutoff(now, retentionDays)) != {}
  {
    var row := Row(Pending, now, None, None, Cutoff(now, retentionDays) - 1, "m", false);
    var t: Table := map["a" := row];
    assert "a" in ExpirableIds(t, now) * DeletableIds(t, Cutoff(now, retentionDays));
  }
}
