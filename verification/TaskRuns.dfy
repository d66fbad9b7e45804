/**
 What every run of the task pool keeps: exclusive leases, final completion, dependency order,
 and that the pool can always be drained.
 */
module TaskRuns {
  import opened Base
  import opened Tasks

  /** A committed statement: its `now()` is the start of its transaction, so it may lag behind the commit. */
  datatype Event = Event(op: Op, stamp: Instant, commit: Instant)

  /** The events are executed in commit order. */
  ghost predicate IsRun(p: Pool, es: seq<Event>)
    decreases |es|
  {
    es == [] ||
    (&& es[0].stamp <= es[0].commit
     && Enabled(p, es[0].op, es[0].stamp)
     && (|es| > 1 ==> es[0].commit <= es[1].commit)
     && IsRun(Apply(p, es[0].op, es[0].stamp), es[1..]))
  }

  function After(p: Pool, es: seq<Event>): Pool
    decreases |es|
  {
    if es == [] then p else After(Apply(p, es[0].op, es[0].stamp), es[1..])
  }

  /** What the caller of event `k` was told. */
  function GrantAt(p: Pool, es: seq<Event>, k: nat): Option<Grant>
    requires k < |es|
    decreases |es|
  {
    if k == 0 then Granted(p, es[0].op, es[0].stamp)
    else GrantAt(Apply(p, es[0].op, es[0].stamp), es[1..], k - 1)
  }

  /** Event `k` is the holder's release of the task, or its completion. */
  predicate GivesUpAt(p: Pool, es: seq<Event>, k: nat, r: Ref, holder: Auth)
    requires k < |es|
    decreases |es|
  {
    if k == 0 then GivesUp(p, es[0].op, r, holder)
    else GivesUpAt(Apply(p, es[0].op, es[0].stamp), es[1..], k - 1, r, holder)
  }

  predicate GrantsTo(g: Option<Grant>, r: Ref, who: Auth) {
    g.Some? && g.value.task == r && SameSession(g.value.who, who)
  }

  predicate GrantsToAnother(g: Option<Grant>, r: Ref, who: Auth) {
    g.Some? && g.value.task == r && !SameSession(g.value.who, who)
  }

  lemma {:induction false} RunKeepsInv(p: Pool, es: seq<Event>)
    requires Inv(p) && IsRun(p, es)
    ensures Inv(After(p, es))
    decreases |es|
  {
    if es != [] {
      InvIsKept(p, es[0].op, es[0].stamp);
      RunKeepsInv(Apply(p, es[0].op, es[0].stamp), es[1..]);
    }
  }

  // ------------------------------------------------------------------ exclusion --

  /** `who` holds the task until exactly `until`. */
  predicate Holds(p: Pool, r: Ref, who: Auth, until: Instant) {
    r in p.tasks && p.tasks[r].status == Claimed && HeldBy(p.tasks[r], who) && p.tasks[r].lease == Some(until)
  }

  lemma {:induction false} GrantMeansHolding(p: Pool, op: Op, now: Instant)
    requires Enabled(p, op, now) && Granted(p, op, now).Some?
    ensures var g := Granted(p, op, now).value;
            Holds(Apply(p, op, now), g.task, g.who, g.until) && g.until >= now + MIN_LEASE_SECS * SECOND
  {}

  /** One step: a held task stays held, unless it is given up, regranted to its holder, or taken after the lease. */
  lemma {:induction false} HoldingPersists(p: Pool, op: Op, now: Instant, r: Ref, who: Auth, until: Instant)
    requires Holds(p, r, who, until) && Enabled(p, op, now)
    requires !GivesUp(p, op, r, who) && !GrantsTo(Granted(p, op, now), r, who)
    ensures GrantsToAnother(Granted(p, op, now), r, who) ==> now > until
    ensures !GrantsToAnother(Granted(p, op, now), r, who) ==> Holds(Apply(p, op, now), r, who, until)
  {}

  lemma {:induction false} CommitsAreOrdered(p: Pool, es: seq<Event>, k: nat)
    requires IsRun(p, es) && k < |es|
    ensures es[0].commit <= es[k].commit && es[k].stamp <= es[k].commit
    decreases |es|
  {
    if k > 0 {
      CommitsAreOrdered(Apply(p, es[0].op, es[0].stamp), es[1..], k - 1);
    }
  }

  lemma {:induction false} NobodyElseWhileHeld(p: Pool, es: seq<Event>, j: nat, r: Ref, who: Auth, until: Instant)
    requires IsRun(p, es) && j < |es|
    requires Holds(p, r, who, until)
    requires forall k :: 0 <= k < j ==> !GrantsTo(GrantAt(p, es, k), r, who) && !GivesUpAt(p, es, k, r, who)
    requires GrantsToAnother(GrantAt(p, es, j), r, who)
    ensures es[j].commit > until
    decreases |es|
  {
    var q := Apply(p, es[0].op, es[0].stamp);
    assert j > 0 ==> !GrantsTo(GrantAt(p, es, 0), r, who) && !GivesUpAt(p, es, 0, r, who);
    HoldingPersists(p, es[0].op, es[0].stamp, r, who, until);
    if GrantsToAnother(GrantAt(p, es, 0), r, who) {
      CommitsAreOrdered(p, es, j);
    } else {
      forall k | 0 <= k < j - 1
        ensures !GrantsTo(GrantAt(q, es[1..], k), r, who) && !GivesUpAt(q, es[1..], k, r, who)
      {
        assert !GrantsTo(GrantAt(p, es, k + 1), r, who) && !GivesUpAt(p, es, k + 1, r, who);
      }
      NobodyElseWhileHeld(q, es[1..], j - 1, r, who, until);
    }
  }

  /**
   Lease exclusion over whole runs. Event `i` told a session that the task is its own until
   `until`; unless that session was granted it again, released it, or somebody completed it,
   nobody else is granted it by a statement that commits at or before `until`. The stamps of
   the statements in between are arbitrary, as long as none is later than its own commit.
   */
  lemma {:induction false} LeaseExclusion(p: Pool, es: seq<Event>, i: nat, j: nat, r: Ref)
    requires IsRun(p, es) && i < j < |es|
    requires GrantAt(p, es, i).Some? && GrantAt(p, es, i).value.task == r
    requires GrantsToAnother(GrantAt(p, es, j), r, GrantAt(p, es, i).value.who)
    requires forall k :: i < k < j ==>
               !GrantsTo(GrantAt(p, es, k), r, GrantAt(p, es, i).value.who) &&
                 !GivesUpAt(p, es, k, r, GrantAt(p, es, i).value.who)
    ensures es[j].commit > GrantAt(p, es, i).value.until
    decreases |es|
  {
    var q := Apply(p, es[0].op, es[0].stamp);
    var g := GrantAt(p, es, i).value;
    if i > 0 {
      forall k | i - 1 < k < j - 1
        ensures !GrantsTo(GrantAt(q, es[1..], k), r, g.who) && !GivesUpAt(q, es[1..], k, r, g.who)
      {
        assert !GrantsTo(GrantAt(p, es, k + 1), r, g.who) && !GivesUpAt(p, es, k + 1, r, g.who);
      }
      LeaseExclusion(q, es[1..], i - 1, j - 1, r);
    } else {
      GrantMeansHolding(p, es[0].op, es[0].stamp);
      forall k | 0 <= k < j - 1
        ensures !GrantsTo(GrantAt(q, es[1..], k), r, g.who) && !GivesUpAt(q, es[1..], k, r, g.who)
      {
        assert !GrantsTo(GrantAt(p, es, k + 1), r, g.who) && !GivesUpAt(p, es, k + 1, r, g.who);
      }
      NobodyElseWhileHeld(q, es[1..], j - 1, r, g.who, g.until);
    }
  }

  /** Giving up is losing the task: while it is held, exactly the releases and completions it counts end that. */
  lemma {:induction false} GivingUpIsLosing(p: Pool, op: Op, now: Instant, r: Ref, holder: Auth, until: Instant)
    requires Holds(p, r, holder, until) && Enabled(p, op, now) && holder.team == r.team
    ensures GivesUp(p, op, r, holder) <==> Apply(p, op, now).tasks[r].status != Claimed
  {}

  // ----------------------------------------------------------------- completion --

  lemma {:induction false} FinishedStays(p: Pool, op: Op, now: Instant, r: Ref)
    requires IsFinished(p, r) && Enabled(p, op, now)
    ensures IsFinished(Apply(p, op, now), r)
    ensures Apply(p, op, now).tasks[r] == p.tasks[r]
    ensures !(Granted(p, op, now).Some? && Granted(p, op, now).value.task == r)
  {}

  /** A finished task keeps its row, result included, for ever, and is never granted again. */
  lemma {:induction false} FinishedIsFinal(p: Pool, es: seq<Event>, r: Ref)
    requires IsRun(p, es) && IsFinished(p, r)
    ensures r in After(p, es).tasks && After(p, es).tasks[r] == p.tasks[r]
    ensures forall k :: 0 <= k < |es| ==> !(GrantAt(p, es, k).Some? && GrantAt(p, es, k).value.task == r)
    decreases |es|
  {
    if es != [] {
      var q := Apply(p, es[0].op, es[0].stamp);
      FinishedStays(p, es[0].op, es[0].stamp, r);
      FinishedIsFinal(q, es[1..], r);
      forall k | 0 <= k < |es|
        ensures !(GrantAt(p, es, k).Some? && GrantAt(p, es, k).value.task == r)
      {
        if k > 0 {
          assert GrantAt(p, es, k) == GrantAt(q, es[1..], k - 1);
        }
      }
    }
  }

  /**
   Completing is anybody's, and at any time: another session finishes a task whose lease is running, and
   the holder has it no longer.
   */
  lemma {:induction false} AnotherSessionCompletes(
    p: Pool, holder: Auth, who: Auth, key: string, until: Instant, now: Instant, result: Option<string>)
    requires Holds(p, Ref(who.team, key), holder, until) && holder.team == who.team
    requires now <= until && !SameSession(who, holder)
    ensures var r, q := Ref(who.team, key), Apply(p, Complete(who, key, result), now);
            && IsFinished(q, r) && q.tasks[r].status == Done && q.tasks[r].result == result
            && !Holds(q, r, holder, until) && !MayRenew(q, holder, key)
  {}

  /** Nor do dependencies matter to it: a blocked task is finished ahead of what it waits for. */
  lemma {:induction false} BlockedTasksComplete(
    p: Pool, who: Auth, key: string, now: Instant, result: Option<string>)
    requires Inv(p) && Blocked(p, Ref(who.team, key))
    requires var r := Ref(who.team, key); r in p.tasks && !Finished(p.tasks[r])
    ensures var r, q := Ref(who.team, key), Apply(p, Complete(who, key, result), now);
            IsFinished(q, r) && Blocked(q, r)
  {
    var r, q := Ref(who.team, key), Apply(p, Complete(who, key, result), now);
    var d :| d in RowsOf(p.deps, r) && d in p.tasks && !Finished(p.tasks[d]);
    assert PointsBack(p, r, d);
    assert d in q.tasks && !Finished(q.tasks[d]);
  }

  // --------------------------------------------------------------- dependencies --

  /**
   The (task, dependency) pairs of claims made while create_task had not yet written that dependency row and
   the dependency was unfinished.
   */
  function EarlyClaims(p: Pool, es: seq<Event>): set<(Ref, Ref)>
    decreases |es|
  {
    if es == [] then {}
    else
      EarlyClaim(p, es[0].op, es[0].stamp) + EarlyClaims(Apply(p, es[0].op, es[0].stamp), es[1..])
  }

  function EarlyClaim(p: Pool, op: Op, now: Instant): set<(Ref, Ref)> {
    var g := Granted(p, op, now);
    if g.Some? && !op.Renew? then
      set d | d in RowsOf(p.unwritten, g.value.task) && !IsFinished(p, d) :: (g.value.task, d)
    else {}
  }

  /** Claimed tasks have only finished dependencies, written or still to be written, apart from the given pairs. */
  ghost predicate OrderRespected(p: Pool, except: set<(Ref, Ref)>) {
    forall r, d :: r in p.tasks && p.tasks[r].status == Claimed
                   && (d in RowsOf(p.deps, r) || d in RowsOf(p.unwritten, r)) ==>
      IsFinished(p, d) || (r, d) in except
  }

  /** A task that becomes claimed is one that was just granted, and not blocked. */
  lemma {:induction false} NewClaimsAreGrants(p: Pool, op: Op, now: Instant, r: Ref)
    requires Enabled(p, op, now) && r in Apply(p, op, now).tasks && Apply(p, op, now).tasks[r].status == Claimed
    requires !(r in p.tasks && p.tasks[r].status == Claimed)
    ensures r in p.tasks && !Blocked(p, r) && !op.Renew?
    ensures Granted(p, op, now).Some? && Granted(p, op, now).value.task == r
  {}

  /** Dependency rows only come from create_task's announcement. */
  lemma {:induction false} RowsWereAnnounced(p: Pool, op: Op, now: Instant, r: Ref, d: Ref)
    requires Enabled(p, op, now) && r in p.tasks
    requires d in RowsOf(Apply(p, op, now).deps, r) || d in RowsOf(Apply(p, op, now).unwritten, r)
    ensures d in RowsOf(p.deps, r) || d in RowsOf(p.unwritten, r)
  {}

  lemma {:induction false} OneOrderIsKept(p: Pool, op: Op, now: Instant, except: set<(Ref, Ref)>, r: Ref, d: Ref)
    requires Inv(p) && Enabled(p, op, now) && OrderRespected(p, except) && r in p.tasks
    requires r in Apply(p, op, now).tasks && Apply(p, op, now).tasks[r].status == Claimed
    requires d in RowsOf(p.deps, r) || d in RowsOf(p.unwritten, r)
    ensures IsFinished(p, d) || (r, d) in except + EarlyClaim(p, op, now)
  {
    if p.tasks[r].status != Claimed {
      NewClaimsAreGrants(p, op, now, r);
      if d !in RowsOf(p.unwritten, r) {
        assert PointsBack(p, r, d);
      }
    }
  }

  lemma {:induction false} OrderIsKept(p: Pool, op: Op, now: Instant, except: set<(Ref, Ref)>)
    requires Inv(p) && Enabled(p, op, now) && OrderRespected(p, except)
    ensures OrderRespected(Apply(p, op, now), except + EarlyClaim(p, op, now))
  {
    var q := Apply(p, op, now);
    forall r, d | r in q.tasks && q.tasks[r].status == Claimed &&
      (d in RowsOf(q.deps, r) || d in RowsOf(q.unwritten, r))
      ensures IsFinished(q, d) || (r, d) in except + EarlyClaim(p, op, now)
    {
      if r !in p.tasks {
        NewClaimsAreGrants(p, op, now, r);
      }
      RowsWereAnnounced(p, op, now, r, d);
      OneOrderIsKept(p, op, now, except, r, d);
      if IsFinished(p, d) {
        FinishedStays(p, op, now, d);
      }
    }
  }

  /**
   Dependency safety, statement by statement. In every reachable state, a claimed task with an
   unfinished dependency was claimed between its INSERT and the INSERT of that dependency row, when
   the dependency was unfinished too; there is no other way.
   */
  lemma {:induction false} OnlyEarlyClaimsJumpTheQueue(p: Pool, es: seq<Event>, except: set<(Ref, Ref)>)
    requires Inv(p) && IsRun(p, es) && OrderRespected(p, except)
    ensures OrderRespected(After(p, es), except + EarlyClaims(p, es))
    decreases |es|
  {
    if es != [] {
      var early, q := EarlyClaim(p, es[0].op, es[0].stamp), Apply(p, es[0].op, es[0].stamp);
      InvIsKept(p, es[0].op, es[0].stamp);
      OrderIsKept(p, es[0].op, es[0].stamp, except);
      OnlyEarlyClaimsJumpTheQueue(q, es[1..], except + early);
      RegroupClaims(p, es, except, early, EarlyClaims(q, es[1..]));
    }
  }

  lemma {:induction false} RegroupClaims(
    p: Pool, es: seq<Event>, except: set<(Ref, Ref)>, early: set<(Ref, Ref)>, later: set<(Ref, Ref)>)
    requires es != [] && early == EarlyClaim(p, es[0].op, es[0].stamp)
    requires later == EarlyClaims(Apply(p, es[0].op, es[0].stamp), es[1..])
    ensures except + early + later == except + EarlyClaims(p, es)
  {
    assert EarlyClaims(p, es) == early + later;
  }

  /** One statement breaks the order exactly by claiming a task in the gap ahead of an unfinished dependency. */
  lemma {:induction false} OneStepIsInOrder(p: Pool, op: Op, now: Instant)
    requires Inv(p) && Enabled(p, op, now) && OrderRespected(p, {})
    ensures OrderRespected(Apply(p, op, now), {}) <==> EarlyClaim(p, op, now) == {}
  {
    var none: set<(Ref, Ref)> := {};
    OrderIsKept(p, op, now, none);
    if pair :| pair in EarlyClaim(p, op, now) {
      var q := Apply(p, op, now);
      var (r, d) := pair;
      assert PointsBack(p, r, d);
      assert q.tasks[r].status == Claimed && d in RowsOf(q.unwritten, r) && !IsFinished(q, d);
    } else {
      assert none + EarlyClaim(p, op, now) == none;
    }
  }

  /** In every state of the run all dependencies of every claimed task are finished, written or not. */
  ghost predicate AlwaysInOrder(p: Pool, es: seq<Event>)
    decreases |es|
  {
    OrderRespected(p, {}) && (es != [] ==> AlwaysInOrder(Apply(p, es[0].op, es[0].stamp), es[1..]))
  }

  /**
   Exactly when dependencies are finished first: throughout a run, if and only if every claim in the
   gap of create_task finds the dependencies whose rows are still to be written finished.
   */
  lemma {:induction false} DependenciesAreFinishedFirst(p: Pool, es: seq<Event>)
    requires Inv(p) && OrderRespected(p, {}) && IsRun(p, es)
    ensures AlwaysInOrder(p, es) <==> EarlyClaims(p, es) == {}
    decreases |es|
  {
    if es != [] {
      var q := Apply(p, es[0].op, es[0].stamp);
      OneStepIsInOrder(p, es[0].op, es[0].stamp);
      if EarlyClaim(p, es[0].op, es[0].stamp) == {} {
        InvIsKept(p, es[0].op, es[0].stamp);
        DependenciesAreFinishedFirst(q, es[1..]);
      }
    }
  }

  /** With create_task as one step nobody claims in the gap, and so the order is kept. */
  lemma {:induction false} WithoutAGapDependenciesAreFinishedFirst(p: Pool, es: seq<Event>)
    requires Inv(p) && OrderRespected(p, {}) && IsRun(p, es) && NoClaimInTheGap(p, es)
    ensures AlwaysInOrder(p, es)
    decreases |es|
  {
    if es != [] {
      OneStepIsInOrder(p, es[0].op, es[0].stamp);
      InvIsKept(p, es[0].op, es[0].stamp);
      WithoutAGapDependenciesAreFinishedFirst(Apply(p, es[0].op, es[0].stamp), es[1..]);
    }
  }

  /** No task is claimed that has dependency rows still to be written. */
  ghost predicate NoClaimInTheGap(p: Pool, es: seq<Event>)
    decreases |es|
  {
    es == [] ||
    (&& (var g := Granted(p, es[0].op, es[0].stamp);
         g.Some? && !es[0].op.Renew? ==> RowsOf(p.unwritten, g.value.task) == {})
     && NoClaimInTheGap(Apply(p, es[0].op, es[0].stamp), es[1..]))
  }

  /** So in every state the bus can reach from the empty tables. */
  lemma {:induction false} DependenciesFromTheStart(es: seq<Event>)
    requires IsRun(EMPTY_POOL, es)
    ensures Inv(After(EMPTY_POOL, es)) && OrderRespected(After(EMPTY_POOL, es), EarlyClaims(EMPTY_POOL, es))
    ensures AlwaysInOrder(EMPTY_POOL, es) <==> EarlyClaims(EMPTY_POOL, es) == {}
  {
    var none: set<(Ref, Ref)> := {};
    InvHoldsInitially();
    assert OrderRespected(EMPTY_POOL, none);
    OnlyEarlyClaimsJumpTheQueue(EMPTY_POOL, es, none);
    assert none + EarlyClaims(EMPTY_POOL, es) == EarlyClaims(EMPTY_POOL, es);
    RunKeepsInv(EMPTY_POOL, es);
    DependenciesAreFinishedFirst(EMPTY_POOL, es);
  }

  /** After these events `r` is claimed although its dependency `d` is not finished. */
  ghost predicate JumpsTheQueue(es: seq<Event>, r: Ref, d: Ref) {
    var q := After(EMPTY_POOL, es);
    r in q.tasks && q.tasks[r].status == Claimed && d in RowsOf(q.deps, r) && !IsFinished(q, d)
  }

  /**
   The gap is real: any session `b` of the team can take the task before its dependency row exists, also one of
   another agent.
   */
  lemma {:induction false} AClaimInTheGapIsPossible(a: Auth, b: Auth)
    requires a.team == b.team
    ensures exists es: seq<Event>, r: Ref, d: Ref :: IsRun(EMPTY_POOL, es) && JumpsTheQueue(es, r, d)
  {
    var d, r := Ref(a.team, "build"), Ref(a.team, "deploy");
    var e0 := Event(InsertTask(a, "build", {}), 0, 0);
    var e1 := Event(InsertTask(a, "deploy", {d}), 0, 0);
    var e2 := Event(Claim(b, "deploy", None), 0, 0);
    var e3 := Event(InsertDep(r, d), 0, 0);
    var p1 := Apply(EMPTY_POOL, e0.op, 0);
    var p2 := Apply(p1, e1.op, 0);
    var p3 := Apply(p2, e2.op, 0);
    var p4 := Apply(p3, e3.op, 0);
    assert d != r by { assert d.key != r.key; }
    assert Claimable(p2, b, r, 0);
    OneMore(p3, e3, []);
    OneMore(p2, e2, [e3]);
    OneMore(p1, e1, [e2, e3]);
    OneMore(EMPTY_POOL, e0, [e1, e2, e3]);
    var es := [e0] + ([e1] + ([e2] + ([e3] + [])));
    assert es == [e0] + [e1, e2, e3] && [e1, e2, e3] == [e1] + [e2, e3] && [e2, e3] == [e2] + [e3] && [e3] == [e3] + [];
    assert After(EMPTY_POOL, es) == p4;
    assert JumpsTheQueue(es, r, d);
  }

  lemma {:induction false} OneMore(p: Pool, e: Event, es: seq<Event>)
    requires e.stamp <= e.commit && Enabled(p, e.op, e.stamp) && (es != [] ==> e.commit <= es[0].commit)
    requires IsRun(Apply(p, e.op, e.stamp), es)
    ensures IsRun(p, [e] + es) && After(p, [e] + es) == After(Apply(p, e.op, e.stamp), es)
  {
    assert ([e] + es)[1..] == es;
  }

  // ------------------------------------------------------------------- draining --

  function Unfinished(p: Pool, team: TeamId): set<Ref> {
    set r | r in p.tasks && r.team == team && !Finished(p.tasks[r])
  }

  /** Nobody's lease in this team is still running. */
  ghost predicate AllLapsed(p: Pool, team: TeamId, now: Instant) {
    forall r :: r in Unfinished(p, team) && p.tasks[r].status == Claimed ==>
      p.tasks[r].lease.Some? && p.tasks[r].lease.value < now
  }

  lemma {:induction false} EarliestBorn(p: Pool, s: set<Ref>) returns (r: Ref)
    requires s != {} && s <= p.tasks.Keys
    ensures r in s && forall o :: o in s ==> p.tasks[r].birth <= p.tasks[o].birth
  {
    r :| r in s;
    if s != {r} {
      var o := EarliestBorn(p, s - {r});
      if p.tasks[o].birth <= p.tasks[r].birth { r := o; }
    }
  }

  /** No deadlock: while something is unfinished and no lease is running, claim_next_task finds a task. */
  lemma {:induction false} NextNeverAnswersNone(p: Pool, team: TeamId, now: Instant, pick: Option<Ref>)
    requires Inv(p) && AllLapsed(p, team, now) && Unfinished(p, team) != {}
    requires MayPick(p, team, now, pick)
    ensures pick.Some? && pick.value in Unfinished(p, team)
  {
    var r := EarliestBorn(p, Unfinished(p, team));
    forall d | d in RowsOf(p.deps, r) ensures IsFinished(p, d) {
      assert PointsBack(p, r, d);
      assert Finished(p.tasks[d]) || d in Unfinished(p, team);
    }
    assert UpForGrabs(p, team, r, now);
  }

  /** One round: claim_next_task, then complete_task on what it handed out. */
  datatype Round = Round(who: Auth, secs: Option<int>, pick: Option<Ref>, result: Option<string>, claimAt: Instant,
    doneAt: Instant)

  function AfterClaim(p: Pool, rd: Round): Pool {
    Apply(p, ClaimNext(rd.who, rd.secs, rd.pick), rd.claimAt)
  }

  function AfterRound(p: Pool, rd: Round): Pool {
    var q := AfterClaim(p, rd);
    if rd.pick.Some? then Apply(q, Complete(rd.who, rd.pick.value.key, rd.result), rd.doneAt) else q
  }

  /** Rounds of one team, at non-decreasing times, each with an answer claim_next_task may give. */
  ghost predicate AreRounds(p: Pool, team: TeamId, rounds: seq<Round>, since: Instant)
    decreases |rounds|
  {
    rounds == [] ||
    (&& rounds[0].who.team == team
     && since <= rounds[0].claimAt <= rounds[0].doneAt
     && MayPick(p, team, rounds[0].claimAt, rounds[0].pick)
     && AreRounds(AfterRound(p, rounds[0]), team, rounds[1..], rounds[0].doneAt))
  }

  function AfterRounds(p: Pool, rounds: seq<Round>): Pool
    decreases |rounds|
  {
    if rounds == [] then p else AfterRounds(AfterRound(p, rounds[0]), rounds[1..])
  }

  /** The picks are all answered, and each is handed out only once all its dependencies are finished. */
  ghost predicate InDependencyOrder(p: Pool, rounds: seq<Round>)
    decreases |rounds|
  {
    rounds == [] ||
    (&& rounds[0].pick.Some?
     && (forall d :: d in RowsOf(p.deps, rounds[0].pick.value) ==> IsFinished(p, d))
     && InDependencyOrder(AfterRound(p, rounds[0]), rounds[1..]))
  }

  lemma {:induction false} RoundFinishesOne(p: Pool, team: TeamId, rd: Round)
    requires Inv(p) && rd.who.team == team && rd.claimAt <= rd.doneAt
    requires MayPick(p, team, rd.claimAt, rd.pick) && rd.pick.Some? && AllLapsed(p, team, rd.claimAt)
    ensures var q := AfterRound(p, rd);
            && Inv(q)
            && Unfinished(q, team) == Unfinished(p, team) - {rd.pick.value}
            && AllLapsed(q, team, rd.doneAt)
            && q.deps == p.deps
  {
    var r := rd.pick.value;
    var m := AfterClaim(p, rd);
    InvIsKept(p, ClaimNext(rd.who, rd.secs, rd.pick), rd.claimAt);
    assert r == Ref(team, r.key) && MayComplete(m, rd.who, r.key);
    InvIsKept(m, Complete(rd.who, r.key, rd.result), rd.doneAt);
  }

  lemma {:induction false} DependenciesOfAPick(p: Pool, team: TeamId, now: Instant, r: Ref)
    requires Inv(p) && UpForGrabs(p, team, r, now)
    ensures forall d :: d in RowsOf(p.deps, r) ==> IsFinished(p, d)
  {
    forall d | d in RowsOf(p.deps, r) ensures IsFinished(p, d) {
      assert PointsBack(p, r, d);
    }
  }

  function Picks(rounds: seq<Round>): set<Ref> {
    set rd | rd in rounds && rd.pick.Some? :: rd.pick.value
  }

  lemma {:induction false} PicksOfAll(rounds: seq<Round>)
    requires rounds != [] && rounds[0].pick.Some?
    ensures Picks(rounds) == {rounds[0].pick.value} + Picks(rounds[1..])
  {
    assert rounds == [rounds[0]] + rounds[1..];
    assert rounds[0] in rounds;
  }

  /**
   The pool drains. With no lease running and nobody else acting, exactly as many rounds as
   there are unfinished tasks finish them all; no round is answered "none", the picks are
   exactly the tasks that were unfinished, and dependencies come first.
   */
  lemma {:induction false} PoolDrains(p: Pool, team: TeamId, rounds: seq<Round>, since: Instant)
    requires Inv(p) && AllLapsed(p, team, since)
    requires AreRounds(p, team, rounds, since) && |rounds| == |Unfinished(p, team)|
    ensures Unfinished(AfterRounds(p, rounds), team) == {}
    ensures InDependencyOrder(p, rounds)
    ensures Picks(rounds) == Unfinished(p, team)
    decreases |rounds|
  {
    if rounds != [] {
      var rd := rounds[0];
      assert Unfinished(p, team) != {} && AllLapsed(p, team, rd.claimAt);
      NextNeverAnswersNone(p, team, rd.claimAt, rd.pick);
      RoundFinishesOne(p, team, rd);
      DependenciesOfAPick(p, team, rd.claimAt, rd.pick.value);
      OneLess(Unfinished(p, team), Unfinished(AfterRound(p, rd), team), rd.pick.value);
      PoolDrains(AfterRound(p, rd), team, rounds[1..], rd.doneAt);
      PicksOfAll(rounds);
    }
  }

  lemma OneLess(before: set<Ref>, after: set<Ref>, r: Ref)
    requires r in before && after == before - {r}
    ensures |after| == |before| - 1 && before == {r} + after
  {}


  // ------------------------------------------------------------ in seconds and columns --

  /**
   How long a grant lasts, in microseconds: fifteen minutes if nothing was asked for, else what was
   asked for, but no less than thirty seconds and no more than a day. The row says so too.
   */
  lemma {:induction false} LeasesInSeconds(p: Pool, op: Op, now: Instant)
    requires Enabled(p, op, now) && (op.Claim? || op.ClaimNext? || op.Renew?) && Granted(p, op, now).Some?
    ensures var g := Granted(p, op, now).value;
            && g.task in p.tasks && Apply(p, op, now).tasks[g.task].lease == Some(g.until)
            && match op.secs
               case None => g.until == now + 900_000_000
               case Some(m) =>
                 && (m < 30 ==> g.until == now + 30_000_000)
                 && (30 <= m <= 86_400 ==> g.until == now + m * 1_000_000)
                 && (m > 86_400 ==> g.until == now + 86_400_000_000)
  {}

  /** Every other row, and every dependency, is as it was. */
  ghost predicate OnlyWrites(p: Pool, q: Pool, r: Ref) {
    && q.deps == p.deps && q.unwritten == p.unwritten && q.tasks.Keys == p.tasks.Keys
    && forall o :: o in p.tasks && o != r ==> q.tasks[o] == p.tasks[o]
  }

  /** Where the row came from, and what it holds: no statement on a claim or lease touches these columns. */
  predicate SameTask(t: Task, u: Task) {
    u.createdAt == t.createdAt && u.birth == t.birth && u.result == t.result
  }

  /** The columns a claim writes, by name or by picking: the holder, since when, and nothing of another row. */
  lemma {:induction false} ClaimsWriteTheHolder(p: Pool, op: Op, now: Instant)
    requires Enabled(p, op, now) && (op.Claim? || op.ClaimNext?) && Granted(p, op, now).Some?
    ensures var r, q := Granted(p, op, now).value.task, Apply(p, op, now);
            && r in p.tasks && r.team == op.who.team && OnlyWrites(p, q, r) && SameTask(p.tasks[r], q.tasks[r])
            && q.tasks[r].status == Claimed && q.tasks[r].claimedBy == Some(op.who.agent)
            && q.tasks[r].claimedSession == Some(op.who.session)
            && q.tasks[r].claimedAt == Some(now) && q.tasks[r].updatedAt == now
    ensures Granted(p, op, now).value.who == op.who && (op.Claim? ==> Granted(p, op, now).value.task.key == op.key)
  {}

  /** A renewal writes the lease alone, a release clears the holder, and a completion keeps it. */
  lemma {:induction false} HoldersWriteTheirRow(p: Pool, who: Auth, key: string, secs: Option<int>, now: Instant)
    requires var r := Ref(who.team, key);
             r in p.tasks && p.tasks[r].status == Claimed && p.tasks[r].claimedBy == Some(who.agent)
             && (p.tasks[r].claimedSession == Some(who.session)
                 || (p.tasks[r].claimedSession == None && who.session == ""))
    ensures var r, q := Ref(who.team, key), Apply(p, Renew(who, key, secs), now);
            && OnlyWrites(p, q, r) && q.tasks[r] == p.tasks[r].(lease := q.tasks[r].lease, updatedAt := now)
            && Granted(p, Renew(who, key, secs), now).Some?
    ensures var r, q := Ref(who.team, key), Apply(p, Release(who, key), now);
            && OnlyWrites(p, q, r) && SameTask(p.tasks[r], q.tasks[r])
            && q.tasks[r].status == Open && q.tasks[r].updatedAt == now && q.tasks[r].lease == None
            && q.tasks[r].claimedBy == None && q.tasks[r].claimedSession == None && q.tasks[r].claimedAt == None
  {}

  /** For everybody else a renewal and a release do nothing. */
  lemma {:induction false} OthersDoNotWrite(p: Pool, who: Auth, key: string, secs: Option<int>, now: Instant)
    requires var r := Ref(who.team, key);
             r in p.tasks ==>
               || p.tasks[r].status != Claimed || p.tasks[r].claimedBy != Some(who.agent)
               || (p.tasks[r].claimedSession != Some(who.session)
                   && !(p.tasks[r].claimedSession == None && who.session == ""))
    ensures Apply(p, Renew(who, key, secs), now) == p && Apply(p, Release(who, key), now) == p
    ensures Granted(p, Renew(who, key, secs), now) == None
  {}

  lemma {:induction false} CompletionsWriteTheResult(
    p: Pool, who: Auth, key: string, result: Option<string>, now: Instant)
    ensures var r, q := Ref(who.team, key), Apply(p, Complete(who, key, result), now);
            if r in p.tasks && (p.tasks[r].status == Open || p.tasks[r].status == Claimed) then
              && OnlyWrites(p, q, r)
              && q.tasks[r] == p.tasks[r].(status := Done, result := result, lease := None, updatedAt := now)
            else q == p
  {}

  /** All that keeps a dependency row from letting its task go. */
  ghost predicate DependenciesDone(p: Pool, r: Ref) {
    forall d :: r in p.deps && d in p.deps[r] && d in p.tasks ==>
      p.tasks[d].status == Done || p.tasks[d].status == Cancelled
  }

  /** Who may claim a task: anybody an open one, its own session always, another one once the lease is over. */
  lemma {:induction false} ClaimsInColumns(p: Pool, who: Auth, key: string, secs: Option<int>, now: Instant)
    requires Inv(p)
    ensures var r := Ref(who.team, key);
            Granted(p, Claim(who, key, secs), now).Some? <==>
              && r in p.tasks && DependenciesDone(p, r)
              && (|| p.tasks[r].status == Open
                  || (p.tasks[r].status == Claimed
                      && (|| p.tasks[r].lease.value < now
                          || (p.tasks[r].claimedBy.value == who.agent
                              && p.tasks[r].claimedSession.value == who.session))))
  {}

  /** The rows claim_next_task chooses from. */
  ghost predicate Available(p: Pool, team: TeamId, r: Ref, now: Instant)
    requires Inv(p)
  {
    && r in p.tasks && r.team == team && DependenciesDone(p, r)
    && (p.tasks[r].status == Open || (p.tasks[r].status == Claimed && p.tasks[r].lease.value < now))
  }

  /** It hands out one that was created first, and none only if there is none; not even the caller's own. */
  lemma {:induction false} NextInColumns(p: Pool, who: Auth, secs: Option<int>, pick: Option<Ref>, now: Instant)
    requires Inv(p)
    ensures Enabled(p, ClaimNext(who, secs, pick), now) <==>
              if pick.Some? then
                && Available(p, who.team, pick.value, now)
                && forall o :: Available(p, who.team, o, now) ==> p.tasks[pick.value].createdAt <= p.tasks[o].createdAt
              else forall o :: !Available(p, who.team, o, now)
    ensures Enabled(p, ClaimNext(who, secs, pick), now) ==>
              (Granted(p, ClaimNext(who, secs, pick), now).Some? <==> pick.Some?)
              && (pick.Some? ==> Granted(p, ClaimNext(who, secs, pick), now).value.task == pick.value)
  {
    forall o ensures UpForGrabs(p, who.team, o, now) <==> Available(p, who.team, o, now) {}
  }

  /** A new row: open, nobody's, created now; its dependencies are still to be written. */
  lemma {:induction false} InsertsInColumns(p: Pool, who: Auth, key: string, dependsOn: set<Ref>, now: Instant)
    requires Enabled(p, InsertTask(who, key, dependsOn), now)
    ensures var r, q := Ref(who.team, key), Apply(p, InsertTask(who, key, dependsOn), now);
            && r !in p.tasks && r in q.tasks && q.tasks == p.tasks[r := q.tasks[r]]
            && q.deps == p.deps && q.unwritten == p.unwritten[r := dependsOn]
            && NewTask(q.tasks[r], now, |p.tasks|)
  {}

  predicate NewTask(t: Task, now: Instant, birth: nat) {
    && t.status == Open && t.createdAt == now && t.updatedAt == now && t.birth == birth
    && t.claimedBy == None && t.claimedSession == None && t.claimedAt == None && t.lease == None && t.result == None
  }

  /** So the order claim_next_task goes by never changes: no run touches when a task was created. */
  lemma {:induction false} CreationIsForGood(p: Pool, es: seq<Event>, r: Ref)
    requires IsRun(p, es) && r in p.tasks
    ensures r in After(p, es).tasks
    ensures After(p, es).tasks[r].createdAt == p.tasks[r].createdAt && After(p, es).tasks[r].birth == p.tasks[r].birth
    decreases |es|
  {
    if es != [] {
      CreationIsForGood(Apply(p, es[0].op, es[0].stamp), es[1..], r);
    }
  }

  /** The statements of create_task after its first: each dependency row once, and none if the creator dies. */
  lemma {:induction false} DependencyRowsInColumns(p: Pool, r: Ref, d: Ref, now: Instant)
    ensures Enabled(p, InsertDep(r, d), now) <==> r in p.unwritten && d in p.unwritten[r]
    ensures var q := Apply(p, InsertDep(r, d), now);
            && q.tasks == p.tasks && RowsOf(q.deps, r) == RowsOf(p.deps, r) + {d}
            && RowsOf(q.unwritten, r) == RowsOf(p.unwritten, r) - {d}
            && forall o :: o != r ==>
                 RowsOf(q.deps, o) == RowsOf(p.deps, o) && RowsOf(q.unwritten, o) == RowsOf(p.unwritten, o)
    ensures var q := Apply(p, CreatorDies(r), now);
            && q.tasks == p.tasks && q.deps == p.deps && RowsOf(q.unwritten, r) == {}
            && forall o :: o != r ==> RowsOf(q.unwritten, o) == RowsOf(p.unwritten, o)
  {}
}
