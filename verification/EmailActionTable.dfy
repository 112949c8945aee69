/** The `email_summary_actions` table and the SQL statements that touch it, one function per statement,
    and the DAO whose methods run them in place. */
module EmailActionTable {
  import opened Wrappers

  type ActionId = string

  datatype Status = Pending | Executing | Succeeded | Failed | Expired

  datatype Row = Row(
    status: Status, expiresAt: int, snoozedUntil: Option<int>, scheduledFor: Option<int>,
    updatedAt: int, message: string, autoExecutable: bool)

  type Table = map<ActionId, Row>

  function Max(a: int, b: int): int {
    if a < b then b else a
  }

  predicate IsPending(t: Table, id: ActionId) {
    id in t && t[id].status.Pending?
  }

  /** The guard of `claimForExecution`. */
  predicate Claimable(t: Table, id: ActionId, now: int) {
    IsPending(t, id) && t[id].expiresAt > now
  }

  /** The rows the expiry sweep selects, and the rows the retention sweep selects.  The retention list
      names `pending` too, so the two overlap. */
  predicate Expirable(row: Row, now: int) {
    row.status.Pending? && row.expiresAt <= now
  }

  predicate Deletable(row: Row, olderThan: int) {
    row.updatedAt < olderThan && !row.status.Executing?
  }

  /** The filter of `listPendingScheduledActions`. */
  predicate Due(row: Row, now: int) {
    && row.status.Pending?
    && row.scheduledFor.Some? && row.scheduledFor.value <= now
    && (row.snoozedUntil.None? || row.snoozedUntil.value <= now)
  }

  function ExpirableIds(t: Table, now: int): set<ActionId> {
    set id | id in t && Expirable(t[id], now)
  }

  function DeletableIds(t: Table, olderThan: int): set<ActionId> {
    set id | id in t && Deletable(t[id], olderThan)
  }

  function Claim(t: Table, id: ActionId, now: int): Table {
    if Claimable(t, id, now) then t[id := t[id].(status := Executing, updatedAt := now)] else t
  }

  /** `markSucceeded`, `markFailed` and `markExpired`: no condition on the current status. */
  function Mark(t: Table, id: ActionId, status: Status, now: int): Table {
    if id in t then t[id := t[id].(status := status, updatedAt := now)] else t
  }

  function Snooze(t: Table, id: ActionId, until: int, newExpiresAt: int, now: int): Table {
    if !IsPending(t, id) then t
    else t[id := t[id].(snoozedUntil := Some(until), expiresAt := Max(t[id].expiresAt, newExpiresAt), updatedAt := now)]
  }

  function DropSnooze(t: Table, id: ActionId, now: int): Table {
    if !IsPending(t, id) then t else t[id := t[id].(snoozedUntil := None, updatedAt := now)]
  }

  function Schedule(t: Table, id: ActionId, at: int, newExpiresAt: int, now: int): Table {
    if !IsPending(t, id) then t
    else t[id := t[id].(scheduledFor := Some(at), expiresAt := Max(t[id].expiresAt, newExpiresAt), updatedAt := now)]
  }

  function DropSchedule(t: Table, id: ActionId, now: int): Table {
    if !IsPending(t, id) then t else t[id := t[id].(scheduledFor := None, updatedAt := now)]
  }

  /** The sweeps, on the rows their subselect happened to return. */
  function Expire(t: Table, chosen: set<ActionId>, now: int): Table {
    map id | id in t :: if id in chosen then t[id].(status := Expired, updatedAt := now) else t[id]
  }

  function Delete(t: Table, chosen: set<ActionId>): Table {
    t - chosen
  }

  function DropPendingOfMessage(t: Table, message: string): Table {
    map id | id in t && !(t[id].status.Pending? && t[id].message == message) :: t[id]
  }

  /** `ON DELETE CASCADE` from `processed_messages`: whatever their status, the messages' actions go too. */
  function Cascade(t: Table, gone: set<string>): Table {
    map id | id in t && t[id].message !in gone :: t[id]
  }

  /** Any result a `SELECT ... LIMIT` without an order may give. */
  predicate Limited(eligible: set<ActionId>, limit: nat, chosen: set<ActionId>) {
    chosen <= eligible && |chosen| == if |eligible| < limit then |eligible| else limit
  }

  method SelectLimit(eligible: set<ActionId>, limit: nat) returns (chosen: set<ActionId>)
    ensures Limited(eligible, limit, chosen)
    ensures chosen <= eligible && |chosen| <= limit
    ensures |chosen| < limit ==> chosen == eligible
  {
    chosen := {};
    var rest := eligible;
    while |chosen| < limit && rest != {}
      invariant chosen !! rest && chosen + rest == eligible
      invariant |chosen + rest| == |chosen| + |rest|
      invariant |chosen| <= limit
    {
      var id :| id in rest;
      chosen, rest := chosen + {id}, rest - {id};
    }
  }

  class EmailActionDAO {
    var rows: Table

    method Create(id: ActionId, expiresAt: int, message: string, autoExecutable: bool, now: int) returns (created: bool)
      modifies this
      ensures created <==> id !in old(rows)
      ensures rows == if !created then old(rows)
                      else old(rows)[id := Row(Pending, expiresAt, None, None, now, message, autoExecutable)]
    {
      created := id !in rows;
      if created {
        rows := rows[id := Row(Pending, expiresAt, None, None, now, message, autoExecutable)];
      }
    }

    method ClaimForExecution(id: ActionId, now: int) returns (claimed: bool)
      modifies this
      ensures claimed <==> Claimable(old(rows), id, now)
      ensures claimed <==> id in old(rows) && old(rows)[id].status == Pending && now < old(rows)[id].expiresAt
      ensures rows == Claim(old(rows), id, now)
      ensures rows == if !claimed then old(rows)
                      else old(rows)[id := old(rows)[id].(status := Executing, updatedAt := now)]
    {
      claimed := false;
      if id in rows && rows[id].status == Pending && rows[id].expiresAt > now {
        rows := rows[id := rows[id].(status := Executing, updatedAt := now)];
        claimed := true;
      }
    }

    method UpdateStatus(id: ActionId, status: Status, now: int)
      modifies this
      ensures rows == Mark(old(rows), id, status, now)
      ensures rows == if id !in old(rows) then old(rows)
                      else old(rows)[id := old(rows)[id].(status := status, updatedAt := now)]
    {
      if id in rows {
        rows := rows[id := rows[id].(status := status, updatedAt := now)];
      }
    }

    method SnoozeAction(id: ActionId, until: int, newExpiresAt: int, now: int) returns (changed: bool)
      modifies this
      ensures changed <==> IsPending(old(rows), id)
      ensures changed <==> id in old(rows) && old(rows)[id].status == Pending
      ensures rows == Snooze(old(rows), id, until, newExpiresAt, now)
      ensures rows.Keys == old(rows.Keys) && forall x :: x in rows && x != id ==> rows[x] == old(rows)[x]
      ensures !changed ==> rows == old(rows)
      ensures changed ==>
                && rows[id].snoozedUntil == Some(until) && rows[id].updatedAt == now
                && rows[id].expiresAt == (if newExpiresAt <= old(rows)[id].expiresAt then old(rows)[id].expiresAt else newExpiresAt)
                && rows[id].status == Pending && rows[id].scheduledFor == old(rows)[id].scheduledFor
                && rows[id].message == old(rows)[id].message && rows[id].autoExecutable == old(rows)[id].autoExecutable
    {
      changed := id in rows && rows[id].status == Pending;
      if changed {
        var row := rows[id];
        if row.expiresAt < newExpiresAt {
          row := row.(expiresAt := newExpiresAt);
        }
        rows := rows[id := row.(snoozedUntil := Some(until), updatedAt := now)];
      }
    }

    method ScheduleAction(id: ActionId, at: int, newExpiresAt: int, now: int) returns (changed: bool)
      modifies this
      ensures changed <==> IsPending(old(rows), id)
      ensures changed <==> id in old(rows) && old(rows)[id].status == Pending
      ensures rows == Schedule(old(rows), id, at, newExpiresAt, now)
      ensures rows.Keys == old(rows.Keys) && forall x :: x in rows && x != id ==> rows[x] == old(rows)[x]
      ensures !changed ==> rows == old(rows)
      ensures changed ==>
                && rows[id].scheduledFor == Some(at) && rows[id].updatedAt == now
                && rows[id].expiresAt == (if newExpiresAt <= old(rows)[id].expiresAt then old(rows)[id].expiresAt else newExpiresAt)
                && rows[id].status == Pending && rows[id].snoozedUntil == old(rows)[id].snoozedUntil
                && rows[id].message == old(rows)[id].message && rows[id].autoExecutable == old(rows)[id].autoExecutable
    {
      changed := id in rows && rows[id].status == Pending;
      if changed {
        var row := rows[id];
        if row.expiresAt < newExpiresAt {
          row := row.(expiresAt := newExpiresAt);
        }
        rows := rows[id := row.(scheduledFor := Some(at), updatedAt := now)];
      }
    }

    method CancelSnooze(id: ActionId, now: int) returns (changed: bool)
      modifies this
      ensures changed <==> IsPending(old(rows), id)
      ensures changed <==> id in old(rows) && old(rows)[id].status == Pending
      ensures rows == DropSnooze(old(rows), id, now)
      ensures rows == if !changed then old(rows)
                      else old(rows)[id := old(rows)[id].(snoozedUntil := None, updatedAt := now)]
    {
      changed := id in rows && rows[id].status == Pending;
      if changed { rows := rows[id := rows[id].(snoozedUntil := None, updatedAt := now)]; }
    }

    method CancelSchedule(id: ActionId, now: int) returns (changed: bool)
      modifies this
      ensures changed <==> IsPending(old(rows), id)
      ensures changed <==> id in old(rows) && old(rows)[id].status == Pending
      ensures rows == DropSchedule(old(rows), id, now)
      ensures rows == if !changed then old(rows)
                      else old(rows)[id := old(rows)[id].(scheduledFor := None, updatedAt := now)]
    {
      changed := id in rows && rows[id].status == Pending;
      if changed { rows := rows[id := rows[id].(scheduledFor := None, updatedAt := now)]; }
    }

    method ExpirePendingActions(now: int, limit: nat) returns (changes: nat, ghost swept: set<ActionId>)
      modifies this
      ensures Limited(ExpirableIds(old(rows), now), limit, swept)
      ensures rows == Expire(old(rows), swept, now) && changes == |swept|
      ensures changes <= limit && rows.Keys == old(rows.Keys)
      ensures forall id :: id in swept ==> id in rows && old(rows)[id].status == Pending && old(rows)[id].expiresAt <= now
      ensures changes < limit ==>
                forall id :: id in rows && old(rows)[id].status == Pending && old(rows)[id].expiresAt <= now ==> id in swept
      ensures forall id :: id in rows ==>
                rows[id] == if id in swept then old(rows)[id].(status := Expired, updatedAt := now) else old(rows)[id]
    {
      var chosen := SelectLimit(ExpirableIds(rows, now), limit);
      rows := map id | id in rows :: if id in chosen then rows[id].(status := Expired, updatedAt := now) else rows[id];
      changes, swept := |chosen|, chosen;
    }

    method DeleteOlderThan(olderThan: int, limit: nat) returns (changes: nat, ghost removed: set<ActionId>)
      modifies this
      ensures Limited(DeletableIds(old(rows), olderThan), limit, removed)
      ensures rows == Delete(old(rows), removed) && changes == |removed|
      ensures changes <= limit && rows.Keys == old(rows.Keys) - removed
      ensures forall id :: id in removed ==>
                id in old(rows) && old(rows)[id].status != Executing && old(rows)[id].updatedAt < olderThan
      ensures changes < limit ==>
                forall id :: id in rows ==> old(rows)[id].status == Executing || olderThan <= old(rows)[id].updatedAt
      ensures forall id :: id in rows ==> rows[id] == old(rows)[id]
    {
      var chosen := SelectLimit(DeletableIds(rows, olderThan), limit);
      rows := map id | id in rows && id !in chosen :: rows[id];
      assert rows == Delete(old(rows), chosen);
      changes, removed := |chosen|, chosen;
    }

    method DeleteByProcessedMessageId(message: string) returns (changes: nat)
      modifies this
      ensures rows == DropPendingOfMessage(old(rows), message)
      ensures forall id :: id in rows <==>
                id in old(rows) && (old(rows)[id].status == Pending ==> old(rows)[id].message != message)
      ensures forall id :: id in rows ==> rows[id] == old(rows)[id]
      ensures changes == |old(rows.Keys) - rows.Keys|
    {
      var gone := set id | id in rows && rows[id].status == Pending && rows[id].message == message;
      assert rows.Keys - (rows.Keys - gone) == gone;
      changes, rows := |gone|, map id | id in rows && id !in gone :: rows[id];
      assert rows.Keys == old(rows.Keys) - gone;
    }
  }
}
