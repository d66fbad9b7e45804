/**
 The dispatchers of all replicas at work on one outbox. Each claims a batch, is answered within `lag`,
 and sends it greedily, at most eight jobs at a time; a job with its bookkeeping takes at most
 `longest`. Nothing else bounds the clock. That every outcome is recorded within `lag + 4 * longest` of
 its claim is derived here, and with it the theorems of `Outbox`.
 */
module Dispatchers {
  import opened Base
  import opened Scheduler
  import Outbox

  type ReplicaId = nat

  /**
   One round of a replica: the claim's `now()`, when it was answered, the claimed rows in sending
   order, when the first of them were started, and which of those are over.
   */
  datatype Round = Round(
    stamp: Instant, answered: Option<Instant>, queue: seq<Outbox.Worker>, start: seq<Instant>, ended: set<nat>)

  datatype State = State(
    now: Instant, hooks: map<Outbox.HookId, Outbox.Hook>, rows: map<Outbox.RowId, Outbox.Delivery>, changes: nat,
    rounds: map<ReplicaId, Round>)

  /** How long the answer of a claim takes, and how long a send with its bookkeeping. */
  datatype Limits = Limits(lag: nat, longest: nat)

  function Budget(lim: Limits): nat {
    lim.lag + 4 * lim.longest
  }

  datatype Step =
    | Tick(now: Instant)
    /** A committed change, a webhook set or removed, or a prune. */
    | Table(step: Outbox.Step)
    | Claim(replica: ReplicaId, order: seq<Outbox.RowId>, stamp: Instant)
    | Answer(replica: ReplicaId)
    | Spawn(replica: ReplicaId)
    | RecordSent(replica: ReplicaId, job: nat, stamp: Instant)
    | RecordFailed(replica: ReplicaId, job: nat, permanent: bool, stamp: Instant)
    | LoseOutcome(replica: ReplicaId, job: nat)
    | EndRound(replica: ReplicaId)
    | Crash(replica: ReplicaId)

  function Running(r: Round): set<nat> {
    set k: nat | k < |r.start| && k < |r.queue| && k !in r.ended
  }

  /** The sender spawns now: it has room, and something to send. */
  predicate Spawns(r: Round) {
    r.answered.Some? && |Running(r)| < CONCURRENCY && |r.start| < |r.queue|
  }

  /**
   Time may pass to `now`: the claim, or each running job, still has until then, and nothing is waiting to be
   spawned.
   */
  predicate MayPass(r: Round, lim: Limits, now: Instant) {
    if r.answered == None then now <= r.stamp + lim.lag
    else !Spawns(r) && forall k :: k in Running(r) ==> now <= r.start[k] + lim.longest
  }

  predicate IsTableStep(s: State, step: Outbox.Step) {
    match step
    case Commit(_, stamp) => stamp <= s.now
    case SetHook(_, _) => true
    case RemoveHook(id) => id in s.hooks
    case Prune(stamp) => stamp <= s.now
    case _ => false
  }

  /**
   A claim takes any rows that are due: those before them in its order may be locked by another
   claim in flight. `ClaimsInOrder` is about the runs in which none is.
   */
  predicate Enabled(s: State, step: Step, lim: Limits) {
    match step
    case Tick(now) => s.now <= now && forall i :: i in s.rounds ==> MayPass(s.rounds[i], lim, now)
    case Table(t) => IsTableStep(s, t)
    case Claim(i, order, stamp) =>
      && i !in s.rounds && |order| <= BATCH && stamp <= s.now <= stamp + lim.lag
      && (forall k :: 0 <= k < |order| ==> order[k] in s.rows && Outbox.Due(s.rows[order[k]], stamp))
      && forall j, k :: 0 <= j < k < |order| ==> order[j] != order[k]
    case Answer(i) => i in s.rounds && s.rounds[i].answered == None
    case Spawn(i) => i in s.rounds && Spawns(s.rounds[i])
    case RecordSent(i, job, stamp) => i in s.rounds && job in Running(s.rounds[i]) && stamp <= s.now
    case RecordFailed(i, job, _, stamp) => i in s.rounds && job in Running(s.rounds[i]) && stamp <= s.now
    case LoseOutcome(i, job) => i in s.rounds && job in Running(s.rounds[i])
    case EndRound(i) =>
      i in s.rounds && s.rounds[i].answered.Some? && |s.rounds[i].start| == |s.rounds[i].queue| &&
        Running(s.rounds[i]) == {}
    case Crash(i) => i in s.rounds
  }

  function Batch(order: seq<Outbox.RowId>): set<Outbox.RowId> {
    set id | id in order
  }

  /** The workers a claim of these rows starts, in sending order. */
  function Queue(
    rows: map<Outbox.RowId, Outbox.Delivery>, order: seq<Outbox.RowId>, stamp: Instant): (q: seq<Outbox.Worker>)
    requires forall k :: 0 <= k < |order| ==> order[k] in rows
    ensures |q| == |order|
  {
    seq(|order|, k requires 0 <= k < |order| => Outbox.Worker(order[k], rows[order[k]].attempts + 1, stamp))
  }

  function Over(s: State, i: ReplicaId, job: nat): map<ReplicaId, Round>
    requires i in s.rounds
  {
    s.rounds[i := s.rounds[i].(ended := s.rounds[i].ended + {job})]
  }

  /** The tables of `Outbox`, with every claimed row that is not over as a worker. */
  ghost function Abs(s: State, lost: map<Outbox.RowId, nat>): Outbox.State {
    Outbox.State(s.now, s.hooks, s.rows, Workers(s), s.changes, lost)
  }

  ghost predicate InFlight(s: State, i: ReplicaId, k: nat) {
    i in s.rounds && k < |s.rounds[i].queue| && k !in s.rounds[i].ended
  }

  ghost function Workers(s: State): set<Outbox.Worker> {
    set i: ReplicaId, k: nat | i in s.rounds && k < |s.rounds[i].queue| && k !in s.rounds[i].ended ::
      s.rounds[i].queue[k]
  }

  ghost function Next(s: State, step: Step, lim: Limits): State
    requires Enabled(s, step, lim)
  {
    match step
    case Tick(now) => s.(now := now)
    case Table(t) =>
      var q := Outbox.Next(Abs(s, map[]), t);
      s.(hooks := q.hooks, rows := q.rows, changes := q.changes)
    case Claim(i, order, stamp) =>
      s.(rows := Outbox.ClaimedRows(s.rows, Batch(order), stamp),
         rounds := s.rounds[i := Round(stamp, None, Queue(s.rows, order, stamp), [], {})])
    case Answer(i) => s.(rounds := s.rounds[i := s.rounds[i].(answered := Some(s.now))])
    case Spawn(i) => s.(rounds := s.rounds[i := s.rounds[i].(start := s.rounds[i].start + [s.now])])
    case RecordSent(i, job, stamp) => Recorded(s, i, job, Outbox.RecordSent(s.rounds[i].queue[job], stamp))
    case RecordFailed(i, job, permanent, stamp) =>
      Recorded(s, i, job, Outbox.RecordFailed(s.rounds[i].queue[job], permanent, stamp))
    case LoseOutcome(i, job) => s.(rounds := Over(s, i, job))
    case EndRound(i) => s.(rounds := s.rounds - {i})
    case Crash(i) => s.(rounds := s.rounds - {i})
  }

  /** A job is over and its outcome is written to its row. */
  ghost function Recorded(s: State, i: ReplicaId, job: nat, t: Outbox.Step): State
    requires i in s.rounds
  {
    s.(rows := Outbox.Next(Abs(s, map[]), t).rows, rounds := Over(s, i, job))
  }

  ghost predicate IsRun(s: State, steps: seq<Step>, lim: Limits)
    decreases |steps|
  {
    steps == [] || (Enabled(s, steps[0], lim) && IsRun(Next(s, steps[0], lim), steps[1..], lim))
  }

  ghost function After(s: State, steps: seq<Step>, lim: Limits): State
    requires IsRun(s, steps, lim)
    decreases |steps|
  {
    if steps == [] then s else After(Next(s, steps[0], lim), steps[1..], lim)
  }

  /** No claim of the run finds a row locked: each takes the first rows that are due, at most 32. */
  ghost predicate ClaimsInOrder(s: State, steps: seq<Step>, lim: Limits)
    requires IsRun(s, steps, lim)
    decreases |steps|
  {
    steps == [] || (TakesTheFirst(s, steps[0]) && ClaimsInOrder(Next(s, steps[0], lim), steps[1..], lim))
  }

  ghost predicate TakesTheFirst(s: State, step: Step) {
    step.Claim? ==> Outbox.MayClaim(s.rows, Batch(step.order), step.stamp)
  }

  // ---------------------------------------------------------------- one sender in time --

  /** A round on schedule: job `k` was started no later than `floor(k / 8)` longest sends after the answer. */
  ghost predicate OnSchedule(r: Round, t: Instant, lim: Limits, now: Instant) {
    && t <= r.stamp + lim.lag && t <= now && |Running(r)| <= CONCURRENCY
    && (forall k :: 0 <= k < |r.start| ==> r.start[k] <= Latest(t, lim.longest, k) && r.start[k] <= now)
    && (forall k :: k in Running(r) ==> now <= r.start[k] + lim.longest)
    && (|r.start| < |r.queue| ==> now <= Latest(t, lim.longest, |r.start|))
  }

  ghost predicate RoundOk(r: Round, lim: Limits, now: Instant) {
    && |r.start| <= |r.queue| <= BATCH
    && (forall k :: k in r.ended ==> k < |r.start|)
    && (forall k :: 0 <= k < |r.queue| ==> r.queue[k].stamp == r.stamp)
    && match r.answered
       case None => r.start == [] && now <= r.stamp + lim.lag
       case Some(t) => OnSchedule(r, t, lim, now)
  }

  /**
   Time passes: with something queued, eight jobs are running, and the earliest of them ends before
   the next one is due to start. Nobody enforces that; it follows from how long each job may take.
   */
  lemma {:induction false} FullSenderMovesOn(
    running: set<nat>, next: nat, start: seq<Instant>, t: Instant, longest: nat, now: Instant)
    requires |running| == CONCURRENCY && next == |start| && forall k :: k in running ==> k < next
    requires forall k :: k in running ==> start[k] <= Latest(t, longest, k) && now <= start[k] + longest
    ensures now <= Latest(t, longest, next)
  {
    var base := next / CONCURRENCY * CONCURRENCY;
    if forall k :: k in running ==> k >= base {
      assert running <= Range(base, next);
      SubsetSize(running, Range(base, next));
      assert false;
    }
    var k :| k in running && k < base;
    BelowBase(t, longest, k, next);
  }

  lemma {:induction false} TickKeepsRound(r: Round, lim: Limits, now: Instant, later: Instant)
    requires RoundOk(r, lim, now) && now <= later && MayPass(r, lim, later)
    ensures RoundOk(r, lim, later)
  {
    if r.answered.Some? && |r.start| < |r.queue| {
      FullSenderMovesOn(Running(r), |r.start|, r.start, r.answered.value, lim.longest, later);
    }
  }

  lemma {:induction false} SpawnKeepsRound(r: Round, lim: Limits, now: Instant)
    requires RoundOk(r, lim, now) && Spawns(r)
    ensures RoundOk(r.(start := r.start + [now]), lim, now)
  {
    var q := r.(start := r.start + [now]);
    assert Running(q) == Running(r) + {|r.start|};
    LatestGrows(r.answered.value, lim.longest, |r.start|, |r.start| + 1);
    forall k | 0 <= k < |q.start| ensures q.start[k] <= Latest(r.answered.value, lim.longest, k) && q.start[k] <= now {
      assert k < |r.start| ==> q.start[k] == r.start[k];
    }
    forall k | k in Running(q) ensures now <= q.start[k] + lim.longest {
      assert k < |r.start| ==> q.start[k] == r.start[k] && k in Running(r);
    }
  }

  lemma {:induction false} EndKeepsRound(r: Round, lim: Limits, now: Instant, job: nat)
    requires RoundOk(r, lim, now) && job in Running(r)
    ensures RoundOk(r.(ended := r.ended + {job}), lim, now)
  {
    assert Running(r.(ended := r.ended + {job})) == Running(r) - {job};
  }

  /** Every job of a batch, queued or running, is over within four longest sends of the answer. */
  lemma {:induction false} NothingIsLate(r: Round, lim: Limits, now: Instant, k: nat)
    requires RoundOk(r, lim, now) && k < |r.queue| && k !in r.ended
    ensures now <= r.stamp + Budget(lim)
  {
    if r.answered.Some? {
      var t := r.answered.value;
      if k < |r.start| {
        assert k in Running(r);
        LatestGrows(t, lim.longest, k, BATCH - 1);
      } else {
        LatestGrows(t, lim.longest, |r.start|, BATCH - 1);
      }
      assert (BATCH - 1) / CONCURRENCY == 3;
    }
  }

  // ------------------------------------------------------------------------ simulation --

  /** Every round is in time, no row is in flight twice, and the tables are as `Outbox` wants them. */
  ghost predicate Inv(s: State, lim: Limits) {
    && (forall i :: i in s.rounds ==> RoundOk(s.rounds[i], lim, s.now))
    && OneEach(s)
    && Outbox.SingleFlight(Abs(s, map[]), Budget(lim))
  }

  ghost predicate OneEach(s: State) {
    forall i: ReplicaId, j: ReplicaId, k: nat, l: nat ::
      InFlight(s, i, k) && InFlight(s, j, l) && s.rounds[i].queue[k].row == s.rounds[j].queue[l].row ==>
        i == j && k == l
  }

  /** Nobody is sending. */
  ghost predicate Idle(s: State) {
    s.rounds == map[] && forall id :: id in s.rows ==> id.change < s.changes
  }

  lemma {:induction false} IdleIsInTime(s: State, lim: Limits)
    requires Idle(s)
    ensures Inv(s, lim)
  {
    assert Workers(s) == {};
  }

  lemma {:induction false} WorkersAreInFlight(s: State, w: Outbox.Worker)
    ensures w in Workers(s) <==> exists i: ReplicaId, k: nat :: InFlight(s, i, k) && s.rounds[i].queue[k] == w
  {}

  lemma {:induction false} InTimeTogether(s: State, lim: Limits, now: Instant, w: Outbox.Worker)
    requires forall i :: i in s.rounds ==> RoundOk(s.rounds[i], lim, now)
    requires w in Workers(s)
    ensures now <= w.stamp + Budget(lim)
  {
    WorkersAreInFlight(s, w);
    var i: ReplicaId, k: nat :| InFlight(s, i, k) && s.rounds[i].queue[k] == w;
    NothingIsLate(s.rounds[i], lim, now, k);
  }

  /** No claim takes a row that is in flight at any replica. */
  lemma {:induction false} ClaimsNothingInFlight(
    s: State, i: ReplicaId, order: seq<Outbox.RowId>, stamp: Instant, lim: Limits, j: ReplicaId, k: nat)
    requires Budget(lim) < Outbox.HOLD && Inv(s, lim) && Enabled(s, Claim(i, order, stamp), lim) && InFlight(s, j, k)
    ensures s.rounds[j].queue[k].row !in order
  {
    var batch := Batch(order);
    var w := s.rounds[j].queue[k];
    assert w in Workers(s);
    if w.row in order {
      DistinctSize(order);
      Outbox.NotInFlight(Abs(s, map[]), Outbox.Claim(batch, stamp), Budget(lim), w.row);
    }
  }

  lemma {:induction false} DistinctSize(order: seq<Outbox.RowId>)
    requires forall j, k :: 0 <= j < k < |order| ==> order[j] != order[k]
    ensures |Batch(order)| == |order|
  {
    if order != [] {
      var front, last := order[..|order| - 1], order[|order| - 1];
      DistinctSize(front);
      assert order == front + [last];
      assert Batch(order) == Batch(front) + {last};
    }
  }

  // ---- what each step does to the workers

  /** The workers of one round. */
  ghost function WorkersOf(r: Round): set<Outbox.Worker> {
    set k: nat | k < |r.queue| && k !in r.ended :: r.queue[k]
  }

  lemma {:induction false} QueuedWorkers(s: State, order: seq<Outbox.RowId>, stamp: Instant)
    requires forall k :: 0 <= k < |order| ==> order[k] in s.rows
    ensures WorkersOf(Round(stamp, None, Queue(s.rows, order, stamp), [], {})) ==
            Outbox.WorkersFor(Abs(s, map[]), Batch(order), stamp)
  {
    var r := Round(stamp, None, Queue(s.rows, order, stamp), [], {});
    forall w ensures w in WorkersOf(r) <==> w in Outbox.WorkersFor(Abs(s, map[]), Batch(order), stamp) {
      if w.row in order {
        var k :| 0 <= k < |order| && order[k] == w.row;
        assert r.queue[k].row == w.row;
      }
    }
  }

  lemma {:induction false} NewRoundAddsWorkers(s: State, i: ReplicaId, r: Round, q: State)
    requires i !in s.rounds && q.rounds == s.rounds[i := r]
    ensures Workers(q) == Workers(s) + WorkersOf(r)
  {
    forall w | w in Workers(q) ensures w in Workers(s) + WorkersOf(r) {
      WorkersAreInFlight(q, w);
      var j: ReplicaId, k: nat :| InFlight(q, j, k) && q.rounds[j].queue[k] == w;
      assert j != i ==> InFlight(s, j, k);
    }
    forall w | w in Workers(s) ensures w in Workers(q) {
      WorkersAreInFlight(s, w);
      var j: ReplicaId, k: nat :| InFlight(s, j, k) && s.rounds[j].queue[k] == w;
      assert InFlight(q, j, k);
    }
    forall w | w in WorkersOf(r) ensures w in Workers(q) {
      var k: nat :| k < |r.queue| && k !in r.ended && r.queue[k] == w;
      assert InFlight(q, i, k);
    }
  }

  /** With one job over, its worker is gone; no other job had the same one. */
  lemma {:induction false} OverRemovesWorker(s: State, lim: Limits, i: ReplicaId, job: nat, q: State)
    requires Inv(s, lim) && i in s.rounds && job in Running(s.rounds[i]) && q.rounds == Over(s, i, job)
    ensures Workers(q) == Workers(s) - {s.rounds[i].queue[job]} && s.rounds[i].queue[job] in Workers(s)
  {
    var gone := s.rounds[i].queue[job];
    assert InFlight(s, i, job);
    forall w | w in Workers(q) ensures w in Workers(s) && w != gone {
      WorkersAreInFlight(q, w);
      var j: ReplicaId, k: nat :| InFlight(q, j, k) && q.rounds[j].queue[k] == w;
      assert InFlight(s, j, k);
    }
    forall w | w in Workers(s) && w != gone ensures w in Workers(q) {
      WorkersAreInFlight(s, w);
      var j: ReplicaId, k: nat :| InFlight(s, j, k) && s.rounds[j].queue[k] == w;
      assert InFlight(q, j, k);
    }
  }

  lemma {:induction false} CrashRemovesWorkers(s: State, lim: Limits, i: ReplicaId, q: State)
    requires Inv(s, lim) && i in s.rounds && q.rounds == s.rounds - {i}
    ensures Workers(q) == Workers(s) - WorkersOf(s.rounds[i]) && WorkersOf(s.rounds[i]) <= Workers(s)
  {
    forall w | w in WorkersOf(s.rounds[i]) ensures w in Workers(s) {
      var k: nat :| k < |s.rounds[i].queue| && k !in s.rounds[i].ended && s.rounds[i].queue[k] == w;
      assert InFlight(s, i, k);
    }
    forall w | w in Workers(q) ensures w in Workers(s) && w !in WorkersOf(s.rounds[i]) {
      WorkersAreInFlight(q, w);
      var j: ReplicaId, k: nat :| InFlight(q, j, k) && q.rounds[j].queue[k] == w;
      assert InFlight(s, j, k) && j != i;
      forall l: nat | l < |s.rounds[i].queue| && l !in s.rounds[i].ended ensures s.rounds[i].queue[l] != w {
        assert InFlight(s, i, l);
      }
    }
    forall w | w in Workers(s) && w !in WorkersOf(s.rounds[i]) ensures w in Workers(q) {
      WorkersAreInFlight(s, w);
      var j: ReplicaId, k: nat :| InFlight(s, j, k) && s.rounds[j].queue[k] == w;
      assert j != i;
      assert InFlight(q, j, k);
    }
  }

  lemma {:induction false} SameFlights(s: State, q: State)
    requires forall i: ReplicaId, k: nat :: InFlight(s, i, k) <==> InFlight(q, i, k)
    requires forall i: ReplicaId, k: nat {:trigger InFlight(s, i, k)} ::
               && i in s.rounds && i in q.rounds && k < |s.rounds[i].queue| && k < |q.rounds[i].queue|
               && InFlight(s, i, k) ==>
                 s.rounds[i].queue[k] == q.rounds[i].queue[k]
    ensures Workers(q) == Workers(s)
  {
    forall w ensures w in Workers(q) <==> w in Workers(s) {
      WorkersAreInFlight(s, w);
      WorkersAreInFlight(q, w);
    }
  }

  /** The workers among these that send this row. */
  ghost function SendersOf(ws: set<Outbox.Worker>, id: Outbox.RowId): set<Outbox.Worker> {
    set w | w in ws && w.row == id
  }

  /** Losing the outcomes of some workers, one after the other: each is counted once, for its row. */
  lemma {:induction false} LoseAll(a: Outbox.State, ws: set<Outbox.Worker>, budget: int)
    returns (abs: seq<Outbox.Step>, lost: map<Outbox.RowId, nat>)
    requires ws <= a.workers
    ensures Outbox.IsRun(a, abs, budget) && Outbox.After(a, abs) == a.(workers := a.workers - ws, lost := lost)
    ensures forall id :: Outbox.Lost(lost, id) == Outbox.Lost(a.lost, id) + |SendersOf(ws, id)|
    decreases ws
  {
    if ws == {} {
      abs, lost := [], a.lost;
      assert a.workers - ws == a.workers;
    } else {
      var w :| w in ws;
      var step := Outbox.LoseOutcome(w);
      var rest;
      rest, lost := LoseAll(Outbox.Next(a, step), ws - {w}, budget);
      Outbox.OneMore(a, step, rest, budget);
      assert a.workers - {w} - (ws - {w}) == a.workers - ws;
      abs := [step] + rest;
      forall id ensures Outbox.Lost(lost, id) == Outbox.Lost(a.lost, id) + |SendersOf(ws, id)| {
        OneWorkerLess(ws, w, id);
      }
    }
  }

  lemma {:induction false} OneWorkerLess(ws: set<Outbox.Worker>, w: Outbox.Worker, id: Outbox.RowId)
    requires w in ws
    ensures |SendersOf(ws, id)| == |SendersOf(ws - {w}, id)| + if w.row == id then 1 else 0
  {
    if w.row == id {
      assert SendersOf(ws, id) == SendersOf(ws - {w}, id) + {w};
    } else {
      assert SendersOf(ws, id) == SendersOf(ws - {w}, id);
    }
  }

  // ---- which outcomes are lost

  /** The jobs of a round that are to send this row and are not over. */
  ghost function JobsFor(r: Round, id: Outbox.RowId): set<nat> {
    set k: nat | k < |r.queue| && k !in r.ended && r.queue[k].row == id
  }

  predicate Loses(step: Step) {
    step.LoseOutcome? || step.Crash?
  }

  /** How many outcomes for a row get lost in a step: that of a failed job, or all those in flight at a crash. */
  ghost function LostBy(s: State, step: Step, lim: Limits, id: Outbox.RowId): nat
    requires Enabled(s, step, lim)
  {
    match step
    case LoseOutcome(i, job) => if s.rounds[i].queue[job].row == id then 1 else 0
    case Crash(i) => |JobsFor(s.rounds[i], id)|
    case _ => 0
  }

  ghost function LostAlong(s: State, steps: seq<Step>, lim: Limits, id: Outbox.RowId): nat
    requires IsRun(s, steps, lim)
    decreases |steps|
  {
    if steps == [] then 0
    else LostBy(s, steps[0], lim, id) + LostAlong(Next(s, steps[0], lim), steps[1..], lim, id)
  }

  /** A row is in flight at most once, so counting jobs is counting workers. */
  lemma {:induction false} JobsAreWorkers(s: State, i: ReplicaId, id: Outbox.RowId)
    requires OneEach(s) && i in s.rounds
    ensures |JobsFor(s.rounds[i], id)| == |SendersOf(WorkersOf(s.rounds[i]), id)|
  {
    var r := s.rounds[i];
    if k :| k in JobsFor(r, id) {
      assert InFlight(s, i, k);
      forall l | l in JobsFor(r, id) ensures l == k {
        assert InFlight(s, i, l);
      }
      assert JobsFor(r, id) == {k};
      assert r.queue[k] in WorkersOf(r);
      assert SendersOf(WorkersOf(r), id) == {r.queue[k]};
    } else {
      forall w | w in WorkersOf(r) ensures w.row != id {
        var k: nat :| k < |r.queue| && k !in r.ended && r.queue[k] == w;
        assert w.row == id ==> k in JobsFor(r, id);
      }
      assert SendersOf(WorkersOf(r), id) == {} && JobsFor(r, id) == {};
    }
  }

  /** A failed job and a crash as steps of `Outbox`. */
  lemma {:induction false} LossIsInTime(s: State, step: Step, lim: Limits, lost: map<Outbox.RowId, nat>)
    returns (abs: seq<Outbox.Step>, lost': map<Outbox.RowId, nat>)
    requires Inv(s, lim) && Enabled(s, step, lim) && Loses(step)
    ensures Outbox.IsRun(Abs(s, lost), abs, Budget(lim))
    ensures Outbox.After(Abs(s, lost), abs) == Abs(Next(s, step, lim), lost')
    ensures forall id :: Outbox.Lost(lost', id) == Outbox.Lost(lost, id) + LostBy(s, step, lim, id)
  {
    var i, q := step.replica, Next(s, step, lim);
    if step.LoseOutcome? {
      var w := s.rounds[i].queue[step.job];
      OverRemovesWorker(s, lim, i, step.job, q);
      abs, lost' := LoseAll(Abs(s, lost), {w}, Budget(lim));
      forall id ensures |SendersOf({w}, id)| == LostBy(s, step, lim, id) {
        OneWorkerLess({w}, w, id);
        assert {w} - {w} == {} && SendersOf({}, id) == {};
      }
    } else {
      CrashRemovesWorkers(s, lim, i, q);
      abs, lost' := LoseAll(Abs(s, lost), WorkersOf(s.rounds[i]), Budget(lim));
      forall id ensures |SendersOf(WorkersOf(s.rounds[i]), id)| == LostBy(s, step, lim, id) {
        JobsAreWorkers(s, i, id);
      }
    }
  }

  // ---- each step keeps the rounds

  ghost predicate Rounds(s: State, lim: Limits) {
    OneEach(s) && forall i :: i in s.rounds ==> RoundOk(s.rounds[i], lim, s.now)
  }

  lemma {:induction false} FewerFlights(s: State, q: State)
    requires OneEach(s)
    requires forall i: ReplicaId, k: nat :: InFlight(q, i, k) ==> InFlight(s, i, k)
    requires forall i: ReplicaId, k: nat {:trigger InFlight(q, i, k)} ::
               && i in s.rounds && i in q.rounds && k < |s.rounds[i].queue| && k < |q.rounds[i].queue|
               && InFlight(q, i, k) ==>
                 s.rounds[i].queue[k] == q.rounds[i].queue[k]
    ensures OneEach(q)
  {}

  lemma {:induction false} ClaimKeepsRounds(
    s: State, i: ReplicaId, order: seq<Outbox.RowId>, stamp: Instant, lim: Limits)
    requires Budget(lim) < Outbox.HOLD && Inv(s, lim) && Enabled(s, Claim(i, order, stamp), lim)
    ensures Rounds(Next(s, Claim(i, order, stamp), lim), lim)
  {
    var q := Next(s, Claim(i, order, stamp), lim);
    assert Running(q.rounds[i]) == {};
    forall j: ReplicaId, k: nat, m: nat | InFlight(s, j, k) && m < |order|
      ensures s.rounds[j].queue[k].row != order[m]
    {
      ClaimsNothingInFlight(s, i, order, stamp, lim, j, k);
      assert order[m] in order;
    }
    forall j: ReplicaId, l: ReplicaId, k: nat, m: nat |
      InFlight(q, j, k) && InFlight(q, l, m) && q.rounds[j].queue[k].row == q.rounds[l].queue[m].row
      ensures j == l && k == m
    {
      assert (j != i ==> InFlight(s, j, k)) && (l != i ==> InFlight(s, l, m));
    }
  }

  lemma {:induction false} TickKeepsRounds(s: State, now: Instant, lim: Limits)
    requires Inv(s, lim) && Enabled(s, Tick(now), lim)
    ensures Rounds(Next(s, Tick(now), lim), lim)
  {
    forall i | i in s.rounds ensures RoundOk(s.rounds[i], lim, now) {
      TickKeepsRound(s.rounds[i], lim, s.now, now);
    }
    FewerFlights(s, Next(s, Tick(now), lim));
  }

  /** One round of the same batch is replaced by a later state of itself. */
  lemma {:induction false} OneRoundMoves(s: State, i: ReplicaId, r: Round, lim: Limits, q: State)
    requires Inv(s, lim) && i in s.rounds && q.rounds == s.rounds[i := r] && q.now == s.now
    requires RoundOk(r, lim, s.now) && r.queue == s.rounds[i].queue && s.rounds[i].ended <= r.ended
    ensures Rounds(q, lim)
  {
    FewerFlights(s, q);
  }

  lemma {:induction false} RoundsAreKept(s: State, step: Step, lim: Limits)
    requires Budget(lim) < Outbox.HOLD && Inv(s, lim) && Enabled(s, step, lim)
    ensures Rounds(Next(s, step, lim), lim)
  {
    var q := Next(s, step, lim);
    match step {
      case Tick(now) => TickKeepsRounds(s, now, lim);
      case Claim(i, order, stamp) => ClaimKeepsRounds(s, i, order, stamp, lim);
      case Answer(i) =>
        AnswerKeepsRound(s.rounds[i], lim, s.now);
        OneRoundMoves(s, i, q.rounds[i], lim, q);
      case Spawn(i) =>
        SpawnKeepsRound(s.rounds[i], lim, s.now);
        OneRoundMoves(s, i, q.rounds[i], lim, q);
      case RecordSent(i, job, _) => OverKeepsRounds(s, i, job, lim, q);
      case RecordFailed(i, job, _, _) => OverKeepsRounds(s, i, job, lim, q);
      case LoseOutcome(i, job) => OverKeepsRounds(s, i, job, lim, q);
      case _ => FewerFlights(s, q);
    }
  }

  lemma {:induction false} AnswerKeepsRound(r: Round, lim: Limits, now: Instant)
    requires RoundOk(r, lim, now) && r.answered == None
    ensures RoundOk(r.(answered := Some(now)), lim, now)
  {
    assert Running(r.(answered := Some(now))) == {};
  }

  lemma {:induction false} OverKeepsRounds(s: State, i: ReplicaId, job: nat, lim: Limits, q: State)
    requires Inv(s, lim) && i in s.rounds && job in Running(s.rounds[i]) && q.rounds == Over(s, i, job) &&
        q.now == s.now
    ensures Rounds(q, lim)
  {
    EndKeepsRound(s.rounds[i], lim, s.now, job);
    OneRoundMoves(s, i, q.rounds[i], lim, q);
  }

  // ---- each step is a run of Outbox within the budget

  lemma {:induction false} OneAbstractStep(a: Outbox.State, step: Outbox.Step, budget: int)
    requires Outbox.Enabled(a, step, budget)
    ensures Outbox.IsRun(a, [step], budget) && Outbox.After(a, [step]) == Outbox.Next(a, step)
  {
    Outbox.OneMore(a, step, [], budget);
    assert [step] + [] == [step];
  }

  lemma {:induction false} TickIsInTime(s: State, now: Instant, lim: Limits, lost: map<Outbox.RowId, nat>)
    requires Budget(lim) < Outbox.HOLD && Inv(s, lim) && Enabled(s, Tick(now), lim)
    ensures var a := Abs(s, lost);
            && Outbox.Enabled(a, Outbox.Tick(now), Budget(lim))
            && Outbox.Next(a, Outbox.Tick(now)) == Abs(Next(s, Tick(now), lim), lost)
  {
    RoundsAreKept(s, Tick(now), lim);
    forall w | w in Workers(s) ensures now <= w.stamp + Budget(lim) {
      InTimeTogether(s, lim, now, w);
    }
    SameFlights(s, Next(s, Tick(now), lim));
  }

  lemma {:induction false} ClaimIsInTime(
    s: State, i: ReplicaId, order: seq<Outbox.RowId>, stamp: Instant, lim: Limits, lost: map<Outbox.RowId, nat>)
    requires Inv(s, lim) && Enabled(s, Claim(i, order, stamp), lim)
    ensures var a := Abs(s, lost);
            && Outbox.Enabled(a, Outbox.Claim(Batch(order), stamp), Budget(lim))
            && Outbox.Next(a, Outbox.Claim(Batch(order), stamp)) == Abs(Next(s, Claim(i, order, stamp), lim), lost)
  {
    var q := Next(s, Claim(i, order, stamp), lim);
    DistinctSize(order);
    QueuedWorkers(s, order, stamp);
    NewRoundAddsWorkers(s, i, q.rounds[i], q);
    assert Outbox.WorkersFor(Abs(s, map[]), Batch(order), stamp) ==
      Outbox.WorkersFor(Abs(s, lost), Batch(order), stamp);
  }

  lemma {:induction false} RecordIsInTime(
    s: State, i: ReplicaId, job: nat, t: Outbox.Step, lim: Limits, lost: map<Outbox.RowId, nat>)
    requires Inv(s, lim) && i in s.rounds && job in Running(s.rounds[i])
    requires t.RecordSent? || t.RecordFailed?
    requires t.worker == s.rounds[i].queue[job] && t.stamp <= s.now
    ensures Outbox.Enabled(Abs(s, lost), t, Budget(lim))
    ensures Outbox.Next(Abs(s, lost), t) == Abs(Recorded(s, i, job, t), lost)
  {
    OverRemovesWorker(s, lim, i, job, Recorded(s, i, job, t));
  }

  /** Steps the tables do not see. */
  lemma {:induction false} SilentStep(s: State, step: Step, lim: Limits)
    requires Inv(s, lim) && Enabled(s, step, lim) && (step.Answer? || step.Spawn? || step.EndRound?)
    ensures Workers(Next(s, step, lim)) == Workers(s)
  {
    var q := Next(s, step, lim);
    if step.EndRound? {
      var r := s.rounds[step.replica];
      forall k: nat | k < |r.queue| ensures k in r.ended {
        assert k !in r.ended ==> k in Running(r);
      }
    }
    SameFlights(s, q);
  }

  /** The steps that are one statement. */
  lemma {:induction false} StatementIsInTime(s: State, step: Step, lim: Limits, lost: map<Outbox.RowId, nat>)
    returns (t: Outbox.Step)
    requires Budget(lim) < Outbox.HOLD && Inv(s, lim) && Enabled(s, step, lim)
    requires step.Tick? || step.Table? || step.Claim? || step.RecordSent? || step.RecordFailed?
    ensures Outbox.Enabled(Abs(s, lost), t, Budget(lim))
    ensures Outbox.Next(Abs(s, lost), t) == Abs(Next(s, step, lim), lost)
  {
    match step {
      case Tick(now) =>
        TickIsInTime(s, now, lim, lost);
        t := Outbox.Tick(now);
      case Table(change) =>
        SameFlights(s, Next(s, step, lim));
        t := change;
      case Claim(i, order, stamp) =>
        ClaimIsInTime(s, i, order, stamp, lim, lost);
        t := Outbox.Claim(Batch(order), stamp);
      case RecordSent(i, job, stamp) =>
        t := Outbox.RecordSent(s.rounds[i].queue[job], stamp);
        RecordIsInTime(s, i, job, t, lim, lost);
      case RecordFailed(i, job, permanent, stamp) =>
        t := Outbox.RecordFailed(s.rounds[i].queue[job], permanent, stamp);
        RecordIsInTime(s, i, job, t, lim, lost);
    }
  }

  /**
   Every step of the replicas is a run of `Outbox`, within a budget nobody had to enforce, that loses
   exactly the outcomes the step loses.
   */
  lemma {:induction false} StepIsInTime(s: State, step: Step, lim: Limits, lost: map<Outbox.RowId, nat>)
    returns (abs: seq<Outbox.Step>, lost': map<Outbox.RowId, nat>)
    requires Budget(lim) < Outbox.HOLD && Inv(s, lim) && Enabled(s, step, lim)
    ensures Outbox.IsRun(Abs(s, lost), abs, Budget(lim))
    ensures Outbox.After(Abs(s, lost), abs) == Abs(Next(s, step, lim), lost')
    ensures forall id :: Outbox.Lost(lost', id) == Outbox.Lost(lost, id) + LostBy(s, step, lim, id)
  {
    if Loses(step) {
      abs, lost' := LossIsInTime(s, step, lim, lost);
    } else if step.Answer? || step.Spawn? || step.EndRound? {
      SilentStep(s, step, lim);
      abs, lost' := [], lost;
    } else {
      var t := StatementIsInTime(s, step, lim, lost);
      OneAbstractStep(Abs(s, lost), t, Budget(lim));
      abs, lost' := [t], lost;
    }
  }

  lemma {:induction false} InvIsKept(s: State, step: Step, lim: Limits)
    requires Budget(lim) < Outbox.HOLD && Inv(s, lim) && Enabled(s, step, lim)
    ensures Inv(Next(s, step, lim), lim)
  {
    RoundsAreKept(s, step, lim);
    var abs, lost := StepIsInTime(s, step, lim, map[]);
    Outbox.OneWorkerPerRow(Abs(s, map[]), abs, Budget(lim));
  }

  lemma {:induction false} RunsConcatenate(
    a: Outbox.State, first: seq<Outbox.Step>, later: seq<Outbox.Step>, budget: int)
    requires Outbox.IsRun(a, first, budget) && Outbox.IsRun(Outbox.After(a, first), later, budget)
    ensures Outbox.IsRun(a, first + later, budget)
    ensures Outbox.After(a, first + later) == Outbox.After(Outbox.After(a, first), later)
    decreases |first|
  {
    if first == [] {
      assert first + later == later;
    } else {
      var b := Outbox.Next(a, first[0]);
      RunsConcatenate(b, first[1..], later, budget);
      Outbox.OneMore(a, first[0], first[1..] + later, budget);
      assert first + later == [first[0]] + (first[1..] + later);
    }
  }

  /**
   Every run of the replicas is a run of `Outbox` in which each outcome is recorded within
   `lag + 4 * longest` of its claim, provided that this is less than the hold; and it loses the
   outcomes the replicas lost.
   */
  lemma {:induction false} EveryRunIsInTime(s: State, steps: seq<Step>, lim: Limits, lost: map<Outbox.RowId, nat>)
    returns (abs: seq<Outbox.Step>, lost': map<Outbox.RowId, nat>)
    requires Budget(lim) < Outbox.HOLD && Inv(s, lim) && IsRun(s, steps, lim)
    ensures Inv(After(s, steps, lim), lim)
    ensures Outbox.IsRun(Abs(s, lost), abs, Budget(lim))
    ensures Outbox.After(Abs(s, lost), abs) == Abs(After(s, steps, lim), lost')
    ensures forall id :: Outbox.Lost(lost', id) == Outbox.Lost(lost, id) + LostAlong(s, steps, lim, id)
    decreases |steps|
  {
    if steps == [] {
      abs, lost' := [], lost;
    } else {
      InvIsKept(s, steps[0], lim);
      var first, lost1 := StepIsInTime(s, steps[0], lim, lost);
      var later;
      later, lost' := EveryRunIsInTime(Next(s, steps[0], lim), steps[1..], lim, lost1);
      RunsConcatenate(Abs(s, lost), first, later, Budget(lim));
      abs := first + later;
    }
  }

  // -------------------------------------------------------------------------- theorems --

  /** In every reachable state job `k` of a batch was started within `floor(k / 8)` longest sends of the answer. */
  lemma {:induction false} JobsStartInTime(s: State, steps: seq<Step>, lim: Limits, i: ReplicaId, k: nat)
    requires Budget(lim) < Outbox.HOLD && Idle(s) && IsRun(s, steps, lim)
    requires i in After(s, steps, lim).rounds && k < |After(s, steps, lim).rounds[i].start|
    ensures var r := After(s, steps, lim).rounds[i];
            && r.answered.Some? && r.answered.value <= r.stamp + lim.lag
            && r.start[k] <= r.answered.value + (k / CONCURRENCY) * lim.longest
  {
    IdleIsInTime(s, lim);
    var abs, lost := EveryRunIsInTime(s, steps, lim, map[]);
  }

  /**
   Single flight. If a claim's lag and four sends fit into the hold, then in every state the replicas
   can reach no row is in flight twice, at one replica or at two, and each row in flight is pending,
   exactly as its claim left it.
   */
  lemma {:induction false} NoRowIsInFlightTwice(
    s: State, steps: seq<Step>, lim: Limits, i: ReplicaId, k: nat, j: ReplicaId, l: nat)
    requires Budget(lim) < Outbox.HOLD && Idle(s) && IsRun(s, steps, lim)
    requires InFlight(After(s, steps, lim), i, k) && InFlight(After(s, steps, lim), j, l)
    ensures var q := After(s, steps, lim);
            var w := q.rounds[i].queue[k];
            && (w.row == q.rounds[j].queue[l].row ==> i == j && k == l)
            && q.now <= w.stamp + Budget(lim)
            && (w.row in q.rows ==> q.rows[w.row].status == Outbox.Pending && q.rows[w.row].attempts == w.attempts
                                    && q.rows[w.row].nextAttempt == w.stamp + Outbox.HOLD)
  {
    IdleIsInTime(s, lim);
    var abs, lost := EveryRunIsInTime(s, steps, lim, map[]);
    assert After(s, steps, lim).rounds[i].queue[k] in Workers(After(s, steps, lim));
  }

  /** So `sent` and `failed` are final, for any number of replicas, from any state they can reach. */
  lemma {:induction false} SentAndFailedAreFinal(
    s: State, first: seq<Step>, later: seq<Step>, lim: Limits, id: Outbox.RowId)
    requires Budget(lim) < Outbox.HOLD && Idle(s) && IsRun(s, first, lim) && IsRun(After(s, first, lim), later, lim)
    requires var m := After(s, first, lim); id in m.rows && m.rows[id].status != Outbox.Pending
    ensures var m, q := After(s, first, lim), After(After(s, first, lim), later, lim);
            id in q.rows ==> q.rows[id] == m.rows[id]
  {
    IdleIsInTime(s, lim);
    var abs1, lost1 := EveryRunIsInTime(s, first, lim, map[]);
    var m := After(s, first, lim);
    var abs2, lost2 := EveryRunIsInTime(m, later, lim, lost1);
    Outbox.FinalIsFinal(Abs(m, lost1), abs2, Budget(lim), id);
  }

  /** How often the run claims a row. */
  ghost function ClaimsAlong(s: State, steps: seq<Step>, lim: Limits, id: Outbox.RowId): nat
    requires IsRun(s, steps, lim)
    decreases |steps|
  {
    if steps == [] then 0
    else
      (if steps[0].Claim? && id in steps[0].order then 1 else 0)
      + ClaimsAlong(Next(s, steps[0], lim), steps[1..], lim, id)
  }

  ghost function AttemptsOf(s: State, id: Outbox.RowId): nat {
    if id in s.rows then s.rows[id].attempts else 0
  }

  /** No row has a change number that is still to come. */
  ghost predicate Numbered(s: State) {
    forall id :: id in s.rows ==> id.change < s.changes
  }

  lemma {:induction false} OneStepCounts(s: State, step: Step, lim: Limits, id: Outbox.RowId)
    requires Numbered(s) && Enabled(s, step, lim)
    ensures var q := Next(s, step, lim);
            && s.changes <= q.changes
            && (id in q.rows && id !in s.rows ==> id.change == s.changes)
            && (id in q.rows ==>
                  AttemptsOf(q, id) == AttemptsOf(s, id) + if step.Claim? && id in step.order then 1 else 0)
            && (id !in s.rows ==> !(step.Claim? && id in step.order))
  {
    if step.Claim? && id in step.order {
      var k :| 0 <= k < |step.order| && step.order[k] == id;
      assert step.order[k] in s.rows;
    }
  }

  lemma {:induction false} NumberedIsKept(s: State, step: Step, lim: Limits)
    requires Numbered(s) && Enabled(s, step, lim)
    ensures Numbered(Next(s, step, lim))
  {}

  lemma {:induction false} GoneForGood(s: State, steps: seq<Step>, lim: Limits, id: Outbox.RowId)
    requires Numbered(s) && IsRun(s, steps, lim) && id !in s.rows && id.change < s.changes
    ensures id !in After(s, steps, lim).rows
    decreases |steps|
  {
    if steps != [] {
      NumberedIsKept(s, steps[0], lim);
      OneStepCounts(s, steps[0], lim, id);
      GoneForGood(Next(s, steps[0], lim), steps[1..], lim, id);
    }
  }

  /** The attempts column counts claims: over a run it grows by the claims of the row, from zero for a new row. */
  lemma {:induction false} AttemptsAreClaims(s: State, steps: seq<Step>, lim: Limits, id: Outbox.RowId)
    requires Numbered(s) && IsRun(s, steps, lim) && id in After(s, steps, lim).rows
    ensures AttemptsOf(After(s, steps, lim), id) == AttemptsOf(s, id) + ClaimsAlong(s, steps, lim, id)
    decreases |steps|
  {
    if steps != [] {
      var q := Next(s, steps[0], lim);
      NumberedIsKept(s, steps[0], lim);
      OneStepCounts(s, steps[0], lim, id);
      if id in s.rows && id !in q.rows {
        GoneForGood(q, steps[1..], lim, id);
      }
      AttemptsAreClaims(q, steps[1..], lim, id);
    }
  }

  /**
   And claims are bounded: each row is claimed at most six times, and once more for every outcome the
   run lost, be it that of a job or those in flight at a crash.
   */
  lemma {:induction false} ClaimsAreBounded(s: State, steps: seq<Step>, lim: Limits, id: Outbox.RowId)
    requires Budget(lim) < Outbox.HOLD && Idle(s) && IsRun(s, steps, lim) && Outbox.Accounted(Abs(s, map[]))
    requires id in After(s, steps, lim).rows
    ensures AttemptsOf(s, id) + ClaimsAlong(s, steps, lim, id) <= Outbox.MAX_ATTEMPTS + LostAlong(s, steps, lim, id)
    ensures After(s, steps, lim).rows[id].attempts == AttemptsOf(s, id) + ClaimsAlong(s, steps, lim, id)
  {
    IdleIsInTime(s, lim);
    var abs, lost := EveryRunIsInTime(s, steps, lim, map[]);
    Outbox.ClaimsAreBounded(Abs(s, map[]), abs, Budget(lim));
    var q := Abs(After(s, steps, lim), lost);
    assert Outbox.RowAccounted(q, id);
    AttemptsAreClaims(s, steps, lim, id);
  }

  lemma {:induction false} NothingIsLost(s: State, steps: seq<Step>, lim: Limits, id: Outbox.RowId)
    requires IsRun(s, steps, lim) && forall step :: step in steps ==> !Loses(step)
    ensures LostAlong(s, steps, lim, id) == 0
    decreases |steps|
  {
    if steps != [] {
      assert steps[0] in steps;
      NothingIsLost(Next(s, steps[0], lim), steps[1..], lim, id);
    }
  }

  /** In a run without crashes and failed bookkeeping, then, no row is claimed a seventh time. */
  lemma {:induction false} SixClaimsAtMost(s: State, steps: seq<Step>, lim: Limits, id: Outbox.RowId)
    requires Budget(lim) < Outbox.HOLD && Idle(s) && IsRun(s, steps, lim) && Outbox.Accounted(Abs(s, map[]))
    requires id in After(s, steps, lim).rows && forall step :: step in steps ==> !Loses(step)
    ensures ClaimsAlong(s, steps, lim, id) <= Outbox.MAX_ATTEMPTS
    ensures After(s, steps, lim).rows[id].attempts <= Outbox.MAX_ATTEMPTS
  {
    NothingIsLost(s, steps, lim, id);
    ClaimsAreBounded(s, steps, lim, id);
  }

  // -------------------------------------------------------------------- what can happen --

  /** A free replica can claim whatever the claim may take now, in any order. */
  lemma {:induction false} EveryClaimIsAStep(s: State, i: ReplicaId, order: seq<Outbox.RowId>, lim: Limits)
    requires i !in s.rounds && Outbox.MayClaim(s.rows, Batch(order), s.now) && |order| == |Batch(order)|
    requires forall j, k :: 0 <= j < k < |order| ==> order[j] != order[k]
    ensures Enabled(s, Claim(i, order, s.now), lim)
  {
    forall k | 0 <= k < |order| ensures order[k] in s.rows && Outbox.Due(s.rows[order[k]], s.now) {
      assert order[k] in Batch(order);
    }
  }

  /** The changes of the tables are steps, and so are the outcomes of running jobs. */
  lemma {:induction false} EveryOutcomeIsAStep(
    s: State, lim: Limits, change: Outbox.Change, i: ReplicaId, job: nat, permanent: bool)
    ensures Enabled(s, Table(Outbox.Commit(change, s.now)), lim) && Enabled(s, Table(Outbox.Prune(s.now)), lim)
    ensures i in s.rounds && job in Running(s.rounds[i]) ==>
              && Enabled(s, RecordSent(i, job, s.now), lim) && Enabled(s, RecordFailed(i, job, permanent, s.now), lim)
              && Enabled(s, LoseOutcome(i, job), lim)
    ensures i in s.rounds ==> Enabled(s, Crash(i), lim)
  {}

  /** A round that is over, or whose replica crashed, makes way for the next. */
  lemma {:induction false} RoundsEnd(s: State, i: ReplicaId, lim: Limits)
    requires i in s.rounds
    ensures Next(s, Crash(i), lim) == s.(rounds := s.rounds - {i})
    ensures var r := s.rounds[i];
            && (Enabled(s, EndRound(i), lim) <==>
                  r.answered.Some? && |r.start| == |r.queue| && forall k: nat :: k < |r.queue| ==> k in r.ended)
            && (Enabled(s, EndRound(i), lim) ==> Next(s, EndRound(i), lim) == s.(rounds := s.rounds - {i}))
  {
    var r := s.rounds[i];
    if |r.start| == |r.queue| {
      forall k: nat | k < |r.queue| && k !in r.ended ensures k in Running(r) {}
    }
  }
}
