/** The outbox tables and one dispatcher round, as the server and the triggers perform them. */
module OutboxStores {
  import opened Base
  import opened Outbox
  import Scheduler
  import Tasks

  class OutboxTables {
    var hooks: map<HookId, Hook>
    var rows: map<RowId, Delivery>
    var changes: nat
    /** The sends in progress, the clock and the unrecorded outcomes; no statement reads them. */
    ghost var now: Instant
    ghost var workers: set<Worker>
    ghost var lost: map<RowId, nat>

    ghost function View(): State
      reads this
    {
      State(now, hooks, rows, workers, changes, lost)
    }

    /** enqueue_webhook_deliveries; `Outbox.RowsAreAdded` says how many rows these are, and which. */
    method Enqueue(a: Announcement, stamp: Instant)
      modifies this`rows, this`changes
      ensures rows == old(rows) + NewRows(hooks, a, old(changes), stamp) && changes == old(changes) + 1
    {
      rows := rows + NewRows(hooks, a, changes, stamp);
      changes := changes + 1;
    }

    /** AFTER INSERT ON messages: a direct message returns early. */
    method OnMessageInsert(team: TeamId, direct: bool, channel: Option<string>, stamp: Instant)
      modifies this`rows, this`changes
      ensures View() == Next(old(View()), Commit(MessageInserted(team, direct, channel), stamp))
      ensures direct ==> rows == old(rows)
    {
      if direct { return; }
      Enqueue(Announcement(team, MessageKind, channel), stamp);
    }

    /** AFTER INSERT OR UPDATE ON tasks; `before` is None for an insert. */
    method OnTaskWrite(team: TeamId, before: Option<Tasks.Status>, after: Tasks.Status, stamp: Instant)
      modifies this`rows, this`changes
      ensures View() ==
              Next(old(View()),
                Commit(if before.Some? then TaskUpdated(team, before.value, after) else TaskInserted(team), stamp))
      ensures before == Some(after) ==> rows == old(rows)
    {
      if before.Some? && before.value == after { return; }
      Enqueue(Announcement(team, TaskKind, None), stamp);
    }

    /** AFTER INSERT OR DELETE ON locks. */
    method OnLockInsertOrDelete(team: TeamId, deleted: bool, stamp: Instant)
      modifies this`rows, this`changes
      ensures View() == Next(old(View()), Commit(if deleted then LockDeleted(team) else LockInserted(team), stamp))
    {
      Enqueue(Announcement(team, LockKind, None), stamp);
    }

    method OnNoteWrite(team: TeamId, stamp: Instant)
      modifies this`rows, this`changes
      ensures View() == Next(old(View()), Commit(NoteWritten(team), stamp))
    {
      Enqueue(Announcement(team, NoteKind, None), stamp);
    }

    /** Claim up to 32 due rows, those due longest first, and hold them for 60 seconds. */
    method Claim(stamp: Instant) returns (batch: map<RowId, nat>)
      modifies this`rows, this`workers
      ensures View() == Next(old(View()), Step.Claim(batch.Keys, stamp))
      ensures MayClaim(old(rows), batch.Keys, stamp)
      ensures forall id :: id in batch ==> id in rows && batch[id] == rows[id].attempts
      ensures forall id :: id in batch ==> Worker(id, batch[id], stamp) in workers
    {
      var chosen := ChooseBatch(rows, stamp);
      batch := map id | id in chosen :: rows[id].attempts + 1;
      assert batch.Keys == chosen;
      assert |batch| == |batch.Keys|;
      workers := workers + WorkersFor(View(), chosen, stamp);
      rows := ClaimedRows(rows, chosen, stamp);
    }

    /** UPDATE ... SET status = 'sent' WHERE id = $1: no guard on the status. */
    method MarkSent(id: RowId, ghost worker: Worker, stamp: Instant)
      requires worker.row == id
      modifies this`rows, this`workers
      ensures View() == Next(old(View()), RecordSent(worker, stamp))
    {
      if id in rows {
        rows := rows[id := rows[id].(status := Sent, updatedAt := stamp)];
      }
      workers := workers - {worker};
    }

    /** Schedule a retry with backoff, or park the row once its attempts are used: no guard on the status either. */
    method MarkFailed(id: RowId, attempts: nat, permanent: bool, ghost worker: Worker, stamp: Instant)
      requires worker.row == id && worker.attempts == attempts
      modifies this`rows, this`workers
      ensures View() == Next(old(View()), RecordFailed(worker, permanent, stamp))
      ensures id in rows ==> (rows[id].status == Failed <==> permanent || attempts >= MAX_ATTEMPTS)
      ensures id in rows && rows[id].status == Pending ==> stamp < rows[id].nextAttempt <= stamp + 32 * SECOND
    {
      var charged := if permanent then MAX_ATTEMPTS else attempts;
      CapIsNeverReached(charged);
      if id in rows {
        rows := rows[id := FailedRow(rows[id], charged, stamp)];
      }
      workers := workers - {worker};
    }

    method Prune(stamp: Instant)
      modifies this`rows
      ensures View() == Next(old(View()), Step.Prune(stamp))
      ensures forall id :: id in old(rows) && old(rows)[id].status == Pending ==> id in rows
    {
      rows := map id | id in rows && !Aged(rows[id], stamp) :: rows[id];
    }
  }

  /** ORDER BY next_attempt_at, id LIMIT 32. */
  method ChooseBatch(rows: map<RowId, Delivery>, stamp: Instant) returns (chosen: set<RowId>)
    ensures MayClaim(rows, chosen, stamp)
  {
    var due := set id | id in rows && Due(rows[id], stamp);
    var left := due;
    chosen := {};
    while |chosen| < BATCH && left != {}
      invariant due <= rows.Keys && chosen + left == due && chosen !! left && |chosen| <= BATCH
      invariant forall a, b :: a in chosen && b in left ==> !DueBefore(b, rows[b], a, rows[a])
      decreases left
    {
      var id := FirstDue(rows, left);
      chosen, left := chosen + {id}, left - {id};
    }
  }

  method FirstDue(rows: map<RowId, Delivery>, s: set<RowId>) returns (id: RowId)
    requires s != {} && s <= rows.Keys
    ensures id in s && forall o :: o in s ==> !DueBefore(o, rows[o], id, rows[id])
  {
    EarliestDue(rows, s);
    id :| id in s && forall o :: o in s ==> !DueBefore(o, rows[o], id, rows[id]);
  }

  lemma {:induction false} EarliestDue(rows: map<RowId, Delivery>, s: set<RowId>)
    requires s != {} && s <= rows.Keys
    ensures exists id :: id in s && forall o :: o in s ==> !DueBefore(o, rows[o], id, rows[id])
  {
    var id :| id in s;
    if s != {id} {
      EarliestDue(rows, s - {id});
      var m :| m in s - {id} && forall o :: o in s - {id} ==> !DueBefore(o, rows[o], m, rows[m]);
      var best := if DueBefore(id, rows[id], m, rows[m]) then id else m;
      assert forall o :: o in s ==> !DueBefore(o, rows[o], best, rows[best]);
    }
  }

  /**
   One dispatcher round after a claim with `now()` = `stamp` that was answered within `lag`: every
   outcome is recorded within `lag` plus four longest sends of the stamp. That is the budget of the
   `Outbox` theorems, so they apply whenever `lag + 4 * longest < HOLD`; with the 5-second client
   timeout this leaves 40 seconds for the claim's answer and the recording statements.
   */
  method SendClaimed(durations: seq<nat>, ghost stamp: Instant, answered: Instant, ghost lag: nat, ghost longest: nat)
    returns (finish: seq<Instant>)
    requires |durations| <= BATCH && forall d :: d in durations ==> d <= longest
    requires stamp <= answered <= stamp + lag
    ensures |finish| == |durations|
    ensures forall k :: 0 <= k < |finish| ==> stamp <= finish[k] <= stamp + lag + 4 * longest
    ensures lag + 4 * longest < HOLD ==> forall k :: 0 <= k < |finish| ==> finish[k] < stamp + HOLD
  {
    var start;
    start, finish := Scheduler.SendBatch(durations, answered, longest);
  }
}
