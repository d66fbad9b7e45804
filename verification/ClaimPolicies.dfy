/** The two claims the bus makes with SKIP LOCKED: claim_next_task, and a dispatcher's batch of deliveries. */
module ClaimPolicies {
  import opened Base
  import opened SkipLocked
  import Tasks
  import Outbox

  // ------------------------------------------------------------- claim_next_task --

  /** A task row together with its task_deps rows, whose INSERT locks the task row too. */
  datatype TaskRow = TaskRow(task: Tasks.Task, deps: set<Tasks.Ref>)

  datatype Caller = Caller(who: Auth, secs: Option<int>)

  function PoolOf(rows: map<Tasks.Ref, TaskRow>): Tasks.Pool {
    Tasks.Pool(map r | r in rows :: rows[r].task, map r | r in rows :: rows[r].deps, map[])
  }

  predicate TaskBusy(row: TaskRow, t: Instant) {
    || Tasks.Finished(row.task)
    || (row.task.status == Tasks.Claimed && (row.task.lease == None || row.task.lease.value >= t))
  }

  function TaskPolicy(team: TeamId): Policy<Tasks.Ref, TaskRow, Caller> {
    Policy(
      (rows: map<Tasks.Ref, TaskRow>, r: Tasks.Ref, now: Instant) => Tasks.UpForGrabs(PoolOf(rows), team, r, now),
      (_: Tasks.Ref, a: TaskRow, _: Tasks.Ref, b: TaskRow) => a.task.createdAt < b.task.createdAt,
      (row: TaskRow, c: Caller, now: Instant) => row.(task := Tasks.Taken(row.task, c.who, c.secs, now)),
      (row: TaskRow, t: Instant) => TaskBusy(row, t),
      Tasks.MIN_LEASE_SECS * SECOND,
      1)
  }

  lemma TaskPolicyIsSound(team: TeamId)
    ensures Sound(TaskPolicy(team))
  {
    var pol := TaskPolicy(team);
    forall rows: map<Tasks.Ref, TaskRow>, r: Tasks.Ref, now: Instant | r in rows && pol.eligible(rows, r, now)
      ensures !pol.busy(rows[r], now)
    {
      assert PoolOf(rows).tasks[r] == rows[r].task;
    }
  }

  type TaskState = State<Tasks.Ref, TaskRow, Caller>
  type TaskStep = Step<Tasks.Ref, TaskRow, Caller>

  /** Not a write to the task, unless it is finished or leased for the minimum lease afterwards. */
  predicate KeepsLease(step: TaskStep, r: Tasks.Ref, since: Instant) {
    step.Other? && step.id == r ==>
      step.row.Some? && TaskBusy(step.row.value, since + Tasks.MIN_LEASE_SECS * SECOND)
  }

  /**
   A renewal and a completion are such writes, whoever makes them and whatever lease is asked for; and so
   is every write to another task.
   */
  lemma RenewalsAndCompletionsKeepTheLease(
    row: TaskRow, r: Tasks.Ref, since: Instant, now: Instant, secs: Option<int>, result: Option<string>)
    requires since <= now
    ensures var renewed := row.task.(lease := Some(Tasks.LeaseEnd(secs, now)), updatedAt := now);
            row.task.status == Tasks.Claimed ==> KeepsLease(Other(r, Some(row.(task := renewed))), r, since)
    ensures var done := row.task.(status := Tasks.Done, result := result, lease := None, updatedAt := now);
            KeepsLease(Other(r, Some(row.(task := done))), r, since)
    ensures forall o, written :: o != r ==> KeepsLease(Other(o, written), r, since)
  {}

  /**
   Concurrent claim_next_task calls never receive the same task. If one call was handed a task and
   did not abort, then a later call that gets the same task started more than the minimum lease after
   the first. In between the task may be renewed or completed, and written in any other way that
   leaves it finished or leased for that long; so only a release hands it out earlier.
   */
  lemma ClaimNextCallsDiffer(
    team: TeamId, s: TaskState, steps: seq<TaskStep>, i: nat, j: nat, r: Tasks.Ref, o: Tasks.Ref)
    requires Inv(s) && IsRun(TaskPolicy(team), s, steps)
    requires i < j < |steps| && steps[i].Select? && steps[j].Select?
    requires forall k :: i < k < j ==> steps[k] != Abort(steps[i].tx) && KeepsLease(steps[k], r, steps[i].stamp)
    requires steps[i].batch == {r} && steps[j].batch == {o}
    requires steps[j].stamp <= steps[i].stamp + Tasks.MIN_LEASE_SECS * SECOND
    ensures r != o
  {
    if r == o {
      TaskPolicyIsSound(team);
      ConcurrentClaimsDiffer(TaskPolicy(team), s, steps, i, j, r);
    }
  }

  // ------------------------------------------------------------------ deliveries --

  function DeliveryPolicy(): Policy<Outbox.RowId, Outbox.Delivery, ()> {
    Policy(
      (rows: map<Outbox.RowId, Outbox.Delivery>, id: Outbox.RowId, now: Instant) => id in rows &&
        Outbox.Due(rows[id], now),
      (i: Outbox.RowId, a: Outbox.Delivery, j: Outbox.RowId, b: Outbox.Delivery) => Outbox.DueBefore(i, a, j, b),
      (d: Outbox.Delivery, _: (), now: Instant) => Outbox.ClaimedRow(d, now),
      (d: Outbox.Delivery, t: Instant) => !Outbox.Due(d, t),
      Outbox.HOLD - 1,
      Outbox.BATCH)
  }

  lemma DeliveryPolicyIsSound()
    ensures Sound(DeliveryPolicy())
  {}

  type DeliveryState = State<Outbox.RowId, Outbox.Delivery, ()>
  type DeliveryStep = Step<Outbox.RowId, Outbox.Delivery, ()>

  /**
   Any number of dispatchers receive disjoint batches: two claims that start less than the hold
   apart share no row, as long as the first did not abort and no other statement made one of its rows
   due again in between. Recording that a row was sent or failed for good does not.
   */
  lemma DispatchersGetDisjointBatches(s: DeliveryState, steps: seq<DeliveryStep>, i: nat, j: nat)
    requires Inv(s) && IsRun(DeliveryPolicy(), s, steps)
    requires i < j < |steps| && steps[i].Select? && steps[j].Select?
    requires forall k, id :: i < k < j && id in steps[i].batch ==>
               steps[k] != Abort(steps[i].tx) && LeavesBusy(DeliveryPolicy(), steps[k], id, steps[i].stamp)
    requires steps[j].stamp < steps[i].stamp + Outbox.HOLD
    ensures steps[i].batch !! steps[j].batch
  {
    if id :| id in steps[i].batch && id in steps[j].batch {
      DeliveryPolicyIsSound();
      ConcurrentClaimsDiffer(DeliveryPolicy(), s, steps, i, j, id);
    }
  }

  /** With nothing locked, the rows a dispatcher selects are exactly those the atomic claim of `Outbox` may take. */
  lemma UnlockedBatchIsTheAtomicClaim(s: DeliveryState, now: Instant, batch: set<Outbox.RowId>)
    requires s.open == map[]
    ensures MaySelect(DeliveryPolicy(), s, now, batch) <==> Outbox.MayClaim(s.rows, batch, now)
  {
    var free := Free(DeliveryPolicy(), s, now);
    assert forall id :: id in free <==> id in s.rows && Outbox.Due(s.rows[id], now);
  }

  /** With nothing locked, a SKIP LOCKED selection is exactly what the atomic claim_next step of `Tasks` may answer. */
  lemma UnlockedSelectIsTheAtomicClaim(team: TeamId, s: TaskState, now: Instant, batch: set<Tasks.Ref>)
    requires s.open == map[]
    ensures MaySelect(TaskPolicy(team), s, now, batch) <==>
              || (batch == {} && Tasks.MayPick(PoolOf(s.rows), team, now, None))
              || (|batch| == 1 && exists r :: batch == {r} && Tasks.MayPick(PoolOf(s.rows), team, now, Some(r)))
  {
    var pol := TaskPolicy(team);
    var p := PoolOf(s.rows);
    var free := Free(pol, s, now);
    assert forall r :: r in free <==> r in p.tasks && Tasks.UpForGrabs(p, team, r, now);
    if |batch| == 1 {
      var r :| r in batch;
      OnlyElement(batch, r);
      assert batch == {r};
      assert forall o :: o in s.rows ==> p.tasks[o] == s.rows[o].task;
    }
    assert |batch| == 0 <==> batch == {};
  }

  lemma OnlyElement<T>(s: set<T>, x: T)
    requires |s| == 1 && x in s
    ensures s == {x}
  {
    assert |s - {x}| == 0;
  }
}
