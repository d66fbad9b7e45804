/**
 The other half of finality: when a claim's lag and four sends do not fit into the hold, a row that was
 sent becomes pending again. The run is as slow as the limits allow: a batch of 25 is claimed and sent
 in three full waves of eight; the last job starts when three sends are over, and is still running when
 another replica claims its row, which is the only one due by then, sends it, and records that.
 */
module LateSends {
  import opened Base
  import opened Scheduler
  import opened Dispatchers
  import Outbox

  /**
   A set of states that no step leaves, other than a claim that skips a locked row. What is shown of
   all of them holds of the states that can be reached without one.
   */
  ghost predicate Closed(r: iset<State>, lim: Limits) {
    forall s: State, step: Step :: s in r && Enabled(s, step, lim) && TakesTheFirst(s, step) ==> Next(s, step, lim) in r
  }

  // ------------------------------------------------------------------------- the waves --

  const SIZE: nat := 25

  function Id(k: nat): Outbox.RowId {
    Outbox.RowId(k, 0)
  }

  /** The slow replica: the table once its claim is answered, its rows in sending order, when it starts each. */
  datatype Plan = Plan(
    lim: Limits, rows: map<Outbox.RowId, Outbox.Delivery>, queue: seq<Outbox.Worker>, start: seq<Instant>)
  {
    ghost predicate Valid() {
      && |queue| == SIZE && |start| == SIZE
      && (forall k :: 0 <= k < SIZE ==> queue[k].row == Id(k) && Id(k) in rows)
      && forall id :: id in rows ==> id.change < SIZE && id == Id(id.change)
    }
  }

  predicate Before(k: nat, n: nat) {
    k < n
  }

  /** The first `n` jobs of the batch. */
  function Below(n: nat): set<nat> {
    set k: nat | k < SIZE && Before(k, n)
  }

  /** `m` jobs of the slow replica were started, and the first `e` of them are over. */
  function Slow(p: Plan, m: nat, e: nat): Round
    requires m <= |p.start|
  {
    Round(0, Some(p.lim.lag), p.queue, p.start[..m], Below(e))
  }

  /** The first `e` rows were sent, each as long after its start as a send may take. */
  function SentUpTo(p: Plan, e: nat): map<Outbox.RowId, Outbox.Delivery>
    requires |p.start| == SIZE
  {
    map id | id in p.rows ::
      if id.change < e && id.change < SIZE then Outbox.SentRow(p.rows[id], p.start[id.change] + p.lim.longest)
      else p.rows[id]
  }

  const HOOKS: map<Outbox.HookId, Outbox.Hook> := map[0 := Outbox.Hook(0, true, {MessageKind}, None)]

  function Sending(p: Plan, m: nat, e: nat, now: Instant): State
    requires m <= |p.start| == SIZE
  {
    State(now, HOOKS, SentUpTo(p, e), SIZE, map[0 := Slow(p, m, e)])
  }

  /** The states of `r` include this one. */
  ghost predicate In(r: iset<State>, p: Plan, m: nat, e: nat, now: Instant) {
    p.Valid() && m <= SIZE && Closed(r, p.lim) && Sending(p, m, e, now) in r
  }

  lemma {:induction false} RunningJobs(p: Plan, m: nat, e: nat)
    requires p.Valid() && e <= m <= SIZE
    ensures forall k :: k in Running(Slow(p, m, e)) <==> e <= k < m
    ensures |Running(Slow(p, m, e))| == m - e
  {
    assert Running(Slow(p, m, e)) == Range(e, m);
  }

  lemma {:induction false} SpawnNext(r: iset<State>, p: Plan, m: nat, e: nat, now: Instant)
    requires In(r, p, m, e, now) && e <= m < SIZE && m - e < CONCURRENCY && p.start[m] == now
    ensures In(r, p, m + 1, e, now)
  {
    RunningJobs(p, m, e);
    assert p.start[..m] + [now] == p.start[..m + 1];
    assert Sending(p, m, e, now).rounds[0 := Slow(p, m + 1, e)] == map[0 := Slow(p, m + 1, e)];
    assert Next(Sending(p, m, e, now), Spawn(0), p.lim) == Sending(p, m + 1, e, now);
  }

  /** A job is over, and its row is sent. */
  lemma {:induction false} SendNext(r: iset<State>, p: Plan, m: nat, e: nat, now: Instant)
    requires In(r, p, m, e, now) && e < m <= SIZE && now == p.start[e] + p.lim.longest
    ensures In(r, p, m, e + 1, now)
  {
    RunningJobs(p, m, e);
    var s, step := Sending(p, m, e, now), RecordSent(0, e, now);
    assert Below(e) + {e} == Below(e + 1);
    assert s.rounds[0 := Slow(p, m, e + 1)] == map[0 := Slow(p, m, e + 1)];
    OneMoreSent(p, e);
    assert Next(s, step, p.lim) == Sending(p, m, e + 1, now);
  }

  lemma {:induction false} OneMoreSent(p: Plan, e: nat)
    requires p.Valid() && e < SIZE
    ensures Id(e) in SentUpTo(p, e)
    ensures SentUpTo(p, e)[Id(e) := Outbox.SentRow(SentUpTo(p, e)[Id(e)], p.start[e] + p.lim.longest)] ==
            SentUpTo(p, e + 1)
  {}

  /** Eight jobs are running, or all that are left, and none is overdue at `later`. */
  lemma {:induction false} TimePasses(r: iset<State>, p: Plan, m: nat, e: nat, now: Instant, later: Instant)
    requires In(r, p, m, e, now) && e <= m && (m - e == CONCURRENCY || m == SIZE) && now <= later
    requires forall k :: e <= k < m ==> later <= p.start[k] + p.lim.longest
    ensures In(r, p, m, e, later)
  {
    RunningJobs(p, m, e);
    assert Next(Sending(p, m, e, now), Tick(later), p.lim) == Sending(p, m, e, later);
  }

  lemma {:induction false} SpawnWave(r: iset<State>, p: Plan, m: nat, e: nat, n: nat, now: Instant)
    requires In(r, p, m, e, now) && e <= m <= m + n <= SIZE && m + n - e <= CONCURRENCY
    requires forall k :: m <= k < m + n ==> p.start[k] == now
    ensures In(r, p, m + n, e, now)
    decreases n
  {
    if n > 0 {
      SpawnNext(r, p, m, e, now);
      SpawnWave(r, p, m + 1, e, n - 1, now);
    }
  }

  lemma {:induction false} SendWave(r: iset<State>, p: Plan, m: nat, e: nat, n: nat, now: Instant)
    requires In(r, p, m, e, now) && e + n <= m
    requires forall k :: e <= k < e + n ==> now == p.start[k] + p.lim.longest
    ensures In(r, p, m, e + n, now)
    decreases n
  {
    if n > 0 {
      SendNext(r, p, m, e, now);
      SendWave(r, p, m, e + 1, n - 1, now);
    }
  }

  /** Every job takes as long as it may, and so starts as late as it can. */
  ghost predicate AsLateAsPossible(p: Plan) {
    p.Valid() && forall k :: 0 <= k < SIZE ==> p.start[k] == Latest(p.lim.lag, p.lim.longest, k)
  }

  function WaveStart(p: Plan, n: nat): Instant {
    p.lim.lag + n * p.lim.longest
  }

  lemma {:induction false} StartsWithItsWave(p: Plan, n: nat, k: nat)
    requires AsLateAsPossible(p) && 8 * n <= k < 8 * n + 8 && k < SIZE
    ensures p.start[k] == WaveStart(p, n)
  {
    assert k / CONCURRENCY == n;
  }

  /** Eight jobs start, run as long as they may, and are over. */
  lemma {:induction false} OneWave(r: iset<State>, p: Plan, n: nat)
    requires AsLateAsPossible(p) && n < 3 && In(r, p, 8 * n, 8 * n, WaveStart(p, n))
    ensures In(r, p, 8 * (n + 1), 8 * (n + 1), WaveStart(p, n + 1))
  {
    var m, now, later := 8 * n, WaveStart(p, n), WaveStart(p, n + 1);
    forall k | m <= k < m + 8 ensures p.start[k] == now {
      StartsWithItsWave(p, n, k);
    }
    assert later == now + p.lim.longest;
    SpawnWave(r, p, m, m, 8, now);
    TimePasses(r, p, m + 8, m, now, later);
    SendWave(r, p, m + 8, m, 8, later);
  }

  /** Three full waves; then the last job starts, and is still running at `later`. */
  lemma {:induction false} AllJobs(r: iset<State>, p: Plan, later: Instant)
    requires AsLateAsPossible(p) && In(r, p, 0, 0, WaveStart(p, 0)) && WaveStart(p, 3) <= later <= WaveStart(p, 4)
    ensures In(r, p, 25, 24, later)
  {
    OneWave(r, p, 0);
    OneWave(r, p, 1);
    OneWave(r, p, 2);
    StartsWithItsWave(p, 3, 24);
    SpawnNext(r, p, 24, 24, WaveStart(p, 3));
    TimePasses(r, p, 25, 24, WaveStart(p, 3), later);
  }

  // -------------------------------------------------------------------------- the start --

  function Ids(): seq<Outbox.RowId> {
    seq(SIZE, k requires 0 <= k < SIZE => Id(k))
  }

  function Rows(): map<Outbox.RowId, Outbox.Delivery> {
    map id | id in Ids() :: Outbox.Delivery(0, MessageKind, Outbox.Pending, 0, 0, 0)
  }

  function Start(): State {
    State(0, HOOKS, Rows(), SIZE, map[])
  }

  const LAST := Id(24)

  lemma {:induction false} AllThere()
    ensures |Ids()| == SIZE && Rows().Keys == Batch(Ids())
    ensures forall k :: 0 <= k < SIZE ==> Id(k) in Rows() && Ids()[k] == Id(k)
    ensures forall id :: id in Rows() ==> id.change < SIZE && id == Id(id.change)
  {
    forall k | 0 <= k < SIZE ensures Id(k) in Rows() {
      assert Ids()[k] in Ids();
    }
  }

  function ThePlan(lim: Limits): Plan {
    AllThere();
    Plan(lim, Outbox.ClaimedRows(Rows(), Batch(Ids()), 0), Queue(Rows(), Ids(), 0),
         seq(SIZE, k requires 0 <= k => Latest(lim.lag, lim.longest, k)))
  }

  lemma {:induction false} ThePlanIsValid(lim: Limits)
    ensures AsLateAsPossible(ThePlan(lim))
  {
    AllThere();
  }

  /** The first claim takes all of the rows: all are due, and they are no more than a batch. */
  lemma {:induction false} FirstClaim(lim: Limits)
    ensures var step, p := Claim(0, Ids(), 0), ThePlan(lim);
            && Enabled(Start(), step, lim) && TakesTheFirst(Start(), step)
            && Next(Start(), step, lim) ==
               State(0, HOOKS, p.rows, SIZE, map[0 := Round(0, None, p.queue, [], {})])
  {
    AllThere();
    DistinctSize(Ids());
    forall id | id in Rows() ensures Outbox.Due(Rows()[id], 0) {}
  }

  /** The claim takes the whole lag. */
  lemma {:induction false} Begin(r: iset<State>, lim: Limits)
    requires Closed(r, lim) && Start() in r
    ensures In(r, ThePlan(lim), 0, 0, lim.lag)
  {
    var p := ThePlan(lim);
    FirstClaim(lim);
    ThePlanIsValid(lim);
    AnswerAtLast(r, Next(Start(), Claim(0, Ids(), 0), lim), p);
  }

  lemma {:induction false} AnswerAtLast(r: iset<State>, s: State, p: Plan)
    requires p.Valid() && Closed(r, p.lim) && s in r
    requires s == State(0, HOOKS, p.rows, SIZE, map[0 := Round(0, None, p.queue, [], {})])
    ensures In(r, p, 0, 0, p.lim.lag)
  {
    var t := s.(now := p.lim.lag);
    assert Next(s, Tick(p.lim.lag), p.lim) == t;
    assert p.start[..0] == [] && Below(0) == {} && SentUpTo(p, 0) == p.rows;
    assert t.rounds[0 := Slow(p, 0, 0)] == map[0 := Slow(p, 0, 0)];
    assert Next(t, Answer(0), p.lim) == Sending(p, 0, 0, p.lim.lag);
  }

  /** When the last job is overdue: the end of the hold, or its start if that is later. */
  function Overdue(lim: Limits): Instant {
    if Outbox.HOLD > lim.lag + 3 * lim.longest then Outbox.HOLD else lim.lag + 3 * lim.longest
  }

  // ---------------------------------------------------------------------------- the end --

  /** What matters of the states from here on: the row, the clock and the job that still sends it. */
  ghost predicate Shows(s: State, now: Instant, status: Outbox.RowStatus, attempts: nat) {
    && s.now == now && LAST in s.rows && s.rows[LAST].status == status && s.rows[LAST].attempts == attempts
    && 0 in s.rounds && 24 in Running(s.rounds[0]) && s.rounds[0].queue[24] == Outbox.Worker(LAST, 1, 0)
  }

  /** Every other row is sent. */
  ghost predicate OnlyLastIsPending(s: State) {
    forall id :: id in s.rows && id != LAST ==> s.rows[id].status == Outbox.Sent
  }

  lemma {:induction false} OnlyTheLastIsDue(lim: Limits)
    ensures LAST in SentUpTo(ThePlan(lim), 24)
    ensures var d := SentUpTo(ThePlan(lim), 24)[LAST];
            d.status == Outbox.Pending && d.attempts == 1 && d.nextAttempt == Outbox.HOLD
    ensures forall id :: id in SentUpTo(ThePlan(lim), 24) && id != LAST ==>
              SentUpTo(ThePlan(lim), 24)[id].status == Outbox.Sent
  {
    AllThere();
  }

  lemma {:induction false} TheLastJobRuns(lim: Limits)
    ensures 24 in Running(Slow(ThePlan(lim), 25, 24)) && ThePlan(lim).queue[24] == Outbox.Worker(LAST, 1, 0)
  {
    AllThere();
    ThePlanIsValid(lim);
    RunningJobs(ThePlan(lim), 25, 24);
  }

  lemma {:induction false} TheLastJobIsLate(lim: Limits, now: Instant)
    requires now >= Outbox.HOLD
    ensures var s := Sending(ThePlan(lim), 25, 24, now);
            && Shows(s, now, Outbox.Pending, 1) && OnlyLastIsPending(s) && 1 !in s.rounds
            && s.rows[LAST].nextAttempt <= now
  {
    OnlyTheLastIsDue(lim);
    TheLastJobRuns(lim);
  }

  /** The second replica has claimed the row at `now`. */
  ghost predicate ClaimedAgain(s: State, now: Instant) {
    && Shows(s, now, Outbox.Pending, 2)
    && 1 in s.rounds && s.rounds[1] == Round(now, None, [Outbox.Worker(LAST, 2, now)], [], {})
  }

  lemma {:induction false} SecondReplicaClaims(r: iset<State>, s: State, now: Instant, lim: Limits)
    returns (q: State)
    requires Closed(r, lim) && s in r && OnlyLastIsPending(s)
    requires Shows(s, now, Outbox.Pending, 1) && 1 !in s.rounds && s.rows[LAST].nextAttempt <= now
    ensures q in r && ClaimedAgain(q, now)
  {
    var step := Claim(1, [LAST], now);
    assert Batch([LAST]) == {LAST};
    assert Outbox.MayClaim(s.rows, {LAST}, now);
    assert Queue(s.rows, [LAST], now) == [Outbox.Worker(LAST, 2, now)];
    q := Next(s, step, lim);
  }

  lemma {:induction false} SecondReplicaSends(r: iset<State>, s: State, now: Instant, lim: Limits) returns (q: State)
    requires Closed(r, lim) && s in r && ClaimedAgain(s, now)
    ensures q in r && Shows(q, now, Outbox.Sent, 2)
  {
    var s1 := Next(s, Answer(1), lim);
    assert Running(s1.rounds[1]) == {};
    var s2 := Next(s1, Spawn(1), lim);
    assert 0 in Running(s2.rounds[1]);
    q := Next(s2, RecordSent(1, 0, now), lim);
  }

  // ------------------------------------------------------------------------- the theorem --

  /** What the replicas can reach from `s` without skipping a row. */
  ghost function Reachable(s: State, lim: Limits): iset<State> {
    iset q | CanReach(s, q, lim)
  }

  ghost predicate CanReach(s: State, q: State, lim: Limits) {
    exists steps: seq<Step> :: Leads(s, steps, q, lim)
  }

  ghost predicate Leads(s: State, steps: seq<Step>, q: State, lim: Limits) {
    IsRun(s, steps, lim) && ClaimsInOrder(s, steps, lim) && After(s, steps, lim) == q
  }

  lemma {:induction false} OneFurther(s: State, steps: seq<Step>, step: Step, lim: Limits)
    requires IsRun(s, steps, lim) && ClaimsInOrder(s, steps, lim)
    requires Enabled(After(s, steps, lim), step, lim) && TakesTheFirst(After(s, steps, lim), step)
    ensures Leads(s, steps + [step], Next(After(s, steps, lim), step, lim), lim)
    decreases |steps|
  {
    var more := steps + [step];
    if steps == [] {
      assert more[1..] == [];
    } else {
      OneFurther(Next(s, steps[0], lim), steps[1..], step, lim);
      assert more[0] == steps[0] && more[1..] == steps[1..] + [step];
    }
  }

  lemma {:induction false} ReachableIsClosed(s: State, lim: Limits)
    ensures s in Reachable(s, lim) && Closed(Reachable(s, lim), lim)
  {
    assert Leads(s, [], s, lim);
    forall m: State, step: Step | m in Reachable(s, lim) && Enabled(m, step, lim) && TakesTheFirst(m, step)
      ensures Next(m, step, lim) in Reachable(s, lim)
    {
      var steps: seq<Step> :| Leads(s, steps, m, lim);
      OneFurther(s, steps, step, lim);
    }
  }

  lemma {:induction false} FirstReplicaFails(s: State, now: Instant, lim: Limits)
    returns (steps: seq<Step>, q: State)
    requires Shows(s, now, Outbox.Sent, 2)
    ensures Leads(s, steps, q, lim) && LAST in q.rows && q.rows[LAST].status == Outbox.Pending
  {
    var step := RecordFailed(0, 24, false, now);
    steps, q := [] + [step], Next(s, step, lim);
    OneFurther(s, [], step, lim);
  }

  /**
   From an idle start, one run marks a row sent, and another run from there makes it pending again. No
   claim of either finds a row locked.
   */
  ghost predicate Unsends(s: State, first: seq<Step>, later: seq<Step>, id: Outbox.RowId, lim: Limits) {
    && Idle(s) && Outbox.HooksExist(s.hooks, s.rows)
    && IsRun(s, first, lim) && IsRun(After(s, first, lim), later, lim)
    && ClaimsInOrder(s, first, lim) && ClaimsInOrder(After(s, first, lim), later, lim)
    && var m, q := After(s, first, lim), After(After(s, first, lim), later, lim);
       id in m.rows && m.rows[id].status == Outbox.Sent && id in q.rows && q.rows[id].status == Outbox.Pending
  }

  ghost predicate CanUnsend(lim: Limits) {
    exists s: State, first: seq<Step>, later: seq<Step>, id: Outbox.RowId :: Unsends(s, first, later, id, lim)
  }

  /** The other replica claims the row and records `sent` while the first is still sending it. */
  lemma {:induction false} SentTooEarly(lim: Limits) returns (m: State)
    requires Budget(lim) >= Outbox.HOLD
    ensures m in Reachable(Start(), lim) && Shows(m, Overdue(lim), Outbox.Sent, 2)
  {
    var r, p, now := Reachable(Start(), lim), ThePlan(lim), Overdue(lim);
    ReachableIsClosed(Start(), lim);
    Begin(r, lim);
    ThePlanIsValid(lim);
    AllJobs(r, p, now);
    TheLastJobIsLate(lim, now);
    var s := SecondReplicaClaims(r, Sending(p, 25, 24, now), now, lim);
    m := SecondReplicaSends(r, s, now, lim);
  }

  /** Then the first one records its failure, and the row is pending again. */
  lemma {:induction false} LateSendsUnsend(lim: Limits)
    requires Budget(lim) >= Outbox.HOLD
    ensures CanUnsend(lim)
  {
    var m := SentTooEarly(lim);
    var steps: seq<Step> :| Leads(Start(), steps, m, lim);
    var later, q := FirstReplicaFails(m, Overdue(lim), lim);
    AllThere();
    assert Unsends(Start(), steps, later, LAST, lim);
  }

  /**
   The exact condition: `sent` is final for all replicas and all runs if and only if the lag of a claim and four
   sends, with their bookkeeping, take less than the 60-second hold. Where they do not, no locked row is needed to
   show it.
   */
  lemma {:induction false} FinalityNeedsFourSendsToFit(lim: Limits)
    ensures CanUnsend(lim) <==> Budget(lim) >= Outbox.HOLD
  {
    if Budget(lim) >= Outbox.HOLD {
      LateSendsUnsend(lim);
    } else if CanUnsend(lim) {
      var s: State, first: seq<Step>, later: seq<Step>, id: Outbox.RowId :| Unsends(s, first, later, id, lim);
      SentAndFailedAreFinal(s, first, later, lim, id);
    }
  }
}
