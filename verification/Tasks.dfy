/**
 The task pool: open, claimed and finished tasks, leases that expire, and dependencies.

 A `Pool` is the content of the tables `tasks` and `task_deps`. Each SQL statement is one
 guarded step of `Apply`, evaluated with the `now()` of its own transaction, which may be
 older than the instant it commits. The class `TaskStore` carries the same tables as
 mutable fields, with one method per operation.
 */
module Tasks {
  import opened Base

  const DEFAULT_LEASE_SECS := 900
  const MIN_LEASE_SECS := 30
  const MAX_LEASE_SECS := 86_400
  const MAX_KEY_BYTES := 128
  const MAX_TITLE_BYTES := 512
  const MAX_DESCRIPTION_BYTES := 64 * 1024
  const MAX_RESULT_BYTES := 64 * 1024
  const MAX_DEPENDENCIES := 32

  datatype Status = Open | Claimed | Done | Cancelled

  /** A task is identified by its team and its key (UNIQUE in the table). */
  datatype Ref = Ref(team: TeamId, key: string)

  /** `birth` counts the rows inserted before this one; `createdAt` is only the inserter's clock. */
  datatype Task = Task(
    status: Status,
    claimedBy: Option<AgentId>,
    claimedSession: Option<string>,
    claimedAt: Option<Instant>,
    lease: Option<Instant>,
    result: Option<string>,
    createdAt: Instant,
    updatedAt: Instant,
    birth: nat)

  /** `unwritten` are the task_deps rows a create_task in progress has still to insert. */
  datatype Pool = Pool(tasks: map<Ref, Task>, deps: map<Ref, set<Ref>>, unwritten: map<Ref, set<Ref>>)

  const EMPTY_POOL := Pool(map[], map[], map[])

  predicate Finished(t: Task) {
    t.status == Done || t.status == Cancelled
  }

  /** The claim belongs to this session of this agent; a NULL session counts as the shared one. */
  predicate HeldBy(t: Task, who: Auth) {
    t.claimedBy == Some(who.agent) && SharedIfNull(t.claimedSession) == who.session
  }

  function RowsOf(m: map<Ref, set<Ref>>, r: Ref): set<Ref> {
    if r in m then m[r] else {}
  }

  predicate IsFinished(p: Pool, r: Ref) {
    r in p.tasks && Finished(p.tasks[r])
  }

  /** Some dependency row points at an unfinished task. */
  predicate Blocked(p: Pool, r: Ref) {
    exists d :: d in RowsOf(p.deps, r) && d in p.tasks && !Finished(p.tasks[d])
  }

  /** The WHERE clause of claim_task. */
  predicate Claimable(p: Pool, who: Auth, r: Ref, now: Instant) {
    && r in p.tasks
    && (p.tasks[r].status == Open || p.tasks[r].status == Claimed)
    && (|| p.tasks[r].status == Open
        || HeldBy(p.tasks[r], who)
        || p.tasks[r].lease == None
        || p.tasks[r].lease.value < now)
    && !Blocked(p, r)
  }

  /** The WHERE clause of the candidate query in claim_next_task; `NULL < now()` is not true. */
  predicate UpForGrabs(p: Pool, team: TeamId, r: Ref, now: Instant) {
    && r in p.tasks
    && r.team == team
    && (|| p.tasks[r].status == Open
        || (p.tasks[r].status == Claimed && p.tasks[r].lease.Some? && p.tasks[r].lease.value < now))
    && !Blocked(p, r)
  }

  /** What claim_next_task may answer: an oldest candidate, or nothing when there is none. */
  predicate MayPick(p: Pool, team: TeamId, now: Instant, pick: Option<Ref>) {
    match pick
    case None => forall r :: r in p.tasks ==> !UpForGrabs(p, team, r, now)
    case Some(r) =>
      && UpForGrabs(p, team, r, now)
      && forall o :: o in p.tasks && UpForGrabs(p, team, o, now) ==> p.tasks[r].createdAt <= p.tasks[o].createdAt
  }

  function LeaseSecs(requested: Option<int>): (secs: int)
    ensures MIN_LEASE_SECS <= secs <= MAX_LEASE_SECS
  {
    Clamp(if requested.Some? then requested.value else DEFAULT_LEASE_SECS, MIN_LEASE_SECS, MAX_LEASE_SECS)
  }

  function LeaseEnd(requested: Option<int>, now: Instant): (e: Instant)
    ensures e >= now + MIN_LEASE_SECS * SECOND
  {
    now + LeaseSecs(requested) * SECOND
  }

  /** The row after it is handed to `who`. */
  function Taken(t: Task, who: Auth, requested: Option<int>, now: Instant): Task {
    t.(status := Claimed, claimedBy := Some(who.agent), claimedSession := Some(who.session),
       claimedAt := Some(now), lease := Some(LeaseEnd(requested, now)), updatedAt := now)
  }

  function Freed(t: Task, now: Instant): Task {
    t.(status := Open, claimedBy := None, claimedSession := None, claimedAt := None, lease := None, updatedAt := now)
  }

  function FreshTask(now: Instant, birth: nat): Task {
    Task(Open, None, None, None, None, None, now, now, birth)
  }

  datatype Op =
    | Claim(who: Auth, key: string, secs: Option<int>)
    | ClaimNext(who: Auth, secs: Option<int>, pick: Option<Ref>)
    | Renew(who: Auth, key: string, secs: Option<int>)
    | Release(who: Auth, key: string)
    | Complete(who: Auth, key: string, result: Option<string>)
    // create_task, statement by statement
    | InsertTask(who: Auth, key: string, dependsOn: set<Ref>)
    | InsertDep(task: Ref, dep: Ref)
    | CreatorDies(task: Ref)

  /** When a statement can be executed at all, with this outcome. Refused claims are steps that change nothing. */
  predicate Enabled(p: Pool, op: Op, now: Instant) {
    match op
    case ClaimNext(who, _, pick) => MayPick(p, who.team, now, pick)
    case InsertTask(who, key, dependsOn) =>
      && Ref(who.team, key) !in p.tasks
      && forall d :: d in dependsOn ==> d in p.tasks && d.team == who.team
    case InsertDep(task, dep) => dep in RowsOf(p.unwritten, task)
    case CreatorDies(task) => task in p.unwritten
    case _ => true
  }

  /** The renew and release guard: claimed, and by this very session. */
  predicate MayRenew(p: Pool, who: Auth, key: string) {
    var r := Ref(who.team, key);
    r in p.tasks && p.tasks[r].status == Claimed && HeldBy(p.tasks[r], who)
  }

  predicate MayComplete(p: Pool, who: Auth, key: string) {
    var r := Ref(who.team, key);
    r in p.tasks && !Finished(p.tasks[r])
  }

  function Apply(p: Pool, op: Op, now: Instant): Pool {
    match op
    case Claim(who, key, secs) =>
      var r := Ref(who.team, key);
      if Claimable(p, who, r, now) then p.(tasks := p.tasks[r := Taken(p.tasks[r], who, secs, now)]) else p
    case ClaimNext(who, secs, pick) =>
      if pick.Some? && pick.value in p.tasks then
        p.(tasks := p.tasks[pick.value := Taken(p.tasks[pick.value], who, secs, now)])
      else p
    case Renew(who, key, secs) =>
      var r := Ref(who.team, key);
      if MayRenew(p, who, key) then
        p.(tasks := p.tasks[r := p.tasks[r].(lease := Some(LeaseEnd(secs, now)), updatedAt := now)])
      else p
    case Release(who, key) =>
      var r := Ref(who.team, key);
      if MayRenew(p, who, key) then p.(tasks := p.tasks[r := Freed(p.tasks[r], now)]) else p
    case Complete(who, key, result) =>
      var r := Ref(who.team, key);
      if MayComplete(p, who, key) then
        p.(tasks := p.tasks[r := p.tasks[r].(status := Done, result := result, lease := None, updatedAt := now)])
      else p
    case InsertTask(who, key, dependsOn) =>
      var r := Ref(who.team, key);
      p.(tasks := p.tasks[r := FreshTask(now, |p.tasks|)], unwritten := p.unwritten[r := dependsOn])
    case InsertDep(task, dep) =>
      p.(deps := p.deps[task := RowsOf(p.deps, task) + {dep}],
         unwritten := p.unwritten[task := RowsOf(p.unwritten, task) - {dep}])
    case CreatorDies(task) =>
      p.(unwritten := p.unwritten - {task})
  }

  /** What a statement tells its caller: the task is yours until then. */
  datatype Grant = Grant(task: Ref, who: Auth, until: Instant)

  function Granted(p: Pool, op: Op, now: Instant): Option<Grant> {
    match op
    case Claim(who, key, secs) =>
      if Claimable(p, who, Ref(who.team, key), now) then
        Some(Grant(Ref(who.team, key), who, LeaseEnd(secs, now)))
      else None
    case ClaimNext(who, secs, pick) =>
      if pick.Some? && pick.value in p.tasks then Some(Grant(pick.value, who, LeaseEnd(secs, now))) else None
    case Renew(who, key, secs) =>
      if MayRenew(p, who, key) then Some(Grant(Ref(who.team, key), who, LeaseEnd(secs, now))) else None
    case _ => None
  }

  /** `holder` stops holding the task: it released it, or somebody completed it. */
  predicate GivesUp(p: Pool, op: Op, r: Ref, holder: Auth) {
    match op
    case Release(who, key) => MayRenew(p, who, key) && r == Ref(who.team, key) && SameSession(who, holder)
    case Complete(who, key, _) => MayComplete(p, who, key) && r == Ref(who.team, key)
    case _ => false
  }

  // ------------------------------------------------------------------ invariant --

  predicate PointsBack(p: Pool, r: Ref, d: Ref) {
    r in p.tasks && d in p.tasks && d.team == r.team && p.tasks[d].birth < p.tasks[r].birth
  }

  /** Dependencies point at earlier tasks of the same team, and every claimed task has a holder and a lease. */
  ghost predicate Inv(p: Pool) {
    && (forall r, d :: d in RowsOf(p.deps, r) ==> PointsBack(p, r, d))
    && (forall r, d :: d in RowsOf(p.unwritten, r) ==> PointsBack(p, r, d))
    && (forall r :: r in p.tasks ==> p.tasks[r].birth < |p.tasks|)
    && (forall r :: r in p.tasks && p.tasks[r].status == Claimed ==>
          p.tasks[r].lease.Some? && p.tasks[r].claimedBy.Some? && p.tasks[r].claimedSession.Some?)
  }

  lemma {:induction false} InvHoldsInitially()
    ensures Inv(EMPTY_POOL)
  {}

  lemma {:induction false} OverwritingKeepsSize(tasks: map<Ref, Task>, r: Ref, t: Task)
    requires r in tasks
    ensures |tasks[r := t]| == |tasks| && tasks[r := t].Keys == tasks.Keys
  {
    assert tasks[r := t].Keys == tasks.Keys;
    assert |tasks[r := t]| == |tasks[r := t].Keys| == |tasks.Keys| == |tasks|;
  }

  /** Overwriting a row in place keeps the invariant if the row stays well formed. */
  lemma {:induction false} RowUpdateKeepsInv(p: Pool, r: Ref, t: Task)
    requires Inv(p) && r in p.tasks && t.birth == p.tasks[r].birth
    requires t.status == Claimed ==> t.lease.Some? && t.claimedBy.Some? && t.claimedSession.Some?
    ensures Inv(p.(tasks := p.tasks[r := t]))
  {
    var q := p.(tasks := p.tasks[r := t]);
    OverwritingKeepsSize(p.tasks, r, t);
    forall x, d | d in RowsOf(q.deps, x) || d in RowsOf(q.unwritten, x) ensures PointsBack(q, x, d) {
      OverwritingKeepsOrder(p, r, t, x, d);
    }
  }

  lemma {:induction false} OverwritingKeepsOrder(p: Pool, r: Ref, t: Task, x: Ref, d: Ref)
    requires r in p.tasks && t.birth == p.tasks[r].birth && PointsBack(p, x, d)
    ensures PointsBack(p.(tasks := p.tasks[r := t]), x, d)
  {}

  lemma {:induction false} InsertKeepsInv(p: Pool, r: Ref, dependsOn: set<Ref>, now: Instant)
    requires Inv(p) && r !in p.tasks
    requires forall d :: d in dependsOn ==> d in p.tasks && d.team == r.team
    ensures Inv(p.(tasks := p.tasks[r := FreshTask(now, |p.tasks|)], unwritten := p.unwritten[r := dependsOn]))
  {
    var q := p.(tasks := p.tasks[r := FreshTask(now, |p.tasks|)], unwritten := p.unwritten[r := dependsOn]);
    assert q.tasks.Keys == p.tasks.Keys + {r};
    assert |q.tasks| == |q.tasks.Keys| == |p.tasks| + 1;
    forall x, d | d in RowsOf(q.deps, x) ensures PointsBack(q, x, d) {
      assert PointsBack(p, x, d);
    }
    forall x, d | d in RowsOf(q.unwritten, x) ensures PointsBack(q, x, d) {
      if x != r {
        assert d in RowsOf(p.unwritten, x);
        assert PointsBack(p, x, d);
      }
    }
  }

  lemma {:induction false} DepRowsKeepInv(p: Pool, q: Pool)
    requires Inv(p) && q.tasks == p.tasks
    requires forall x, d :: d in RowsOf(q.deps, x) ==> d in RowsOf(p.deps, x) || d in RowsOf(p.unwritten, x)
    requires forall x, d :: d in RowsOf(q.unwritten, x) ==> d in RowsOf(p.unwritten, x)
    ensures Inv(q)
  {
    forall x, d | d in RowsOf(q.deps, x) ensures PointsBack(q, x, d) {
      assert PointsBack(p, x, d);
    }
    forall x, d | d in RowsOf(q.unwritten, x) ensures PointsBack(q, x, d) {
      assert PointsBack(p, x, d);
    }
  }

  lemma {:induction false} InvIsKept(p: Pool, op: Op, now: Instant)
    requires Inv(p) && Enabled(p, op, now)
    ensures Inv(Apply(p, op, now))
  {
    var q := Apply(p, op, now);
    match op {
      case InsertTask(who, key, dependsOn) => InsertKeepsInv(p, Ref(who.team, key), dependsOn, now);
      case InsertDep(_, _) => DepRowsKeepInv(p, q);
      case CreatorDies(_) => DepRowsKeepInv(p, q);
      case ClaimNext(_, _, pick) => if pick.Some? { RowUpdateKeepsInv(p, pick.value, q.tasks[pick.value]); }
      case _ =>
        var r := Ref(op.who.team, op.key);
        if q != p { RowUpdateKeepsInv(p, r, q.tasks[r]); }
    }
  }
}
