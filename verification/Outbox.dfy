/**
 The webhook outbox. Triggers add one pending row per (change, matching hook); dispatchers claim
 due rows for 60 seconds, send them, and record the outcome with statements that look at nothing
 but the row's id. That a finished row stays finished is therefore a matter of timing.
 */
module Outbox {
  import opened Base
  import Scheduler
  import Tasks

  const MAX_ATTEMPTS := 6
  const BATCH := Scheduler.BATCH
  /** The hold a claim puts on its rows. */
  const HOLD := 60 * SECOND
  const KEEP_SENT := 24 * 3600 * SECOND
  const KEEP_FAILED := 7 * 24 * 3600 * SECOND

  type HookId = nat

  datatype Hook = Hook(team: TeamId, enabled: bool, kinds: set<Kind>, channelFilter: Option<string>)

  datatype RowStatus = Pending | Sent | Failed

  /** One row per (change, hook), so the pair identifies it; ids are never reused. */
  datatype RowId = RowId(change: nat, hook: HookId)

  datatype Delivery = Delivery(team: TeamId, kind: Kind, status: RowStatus, attempts: nat, nextAttempt: Instant,
    updatedAt: Instant)

  /** A send in progress: which row, the attempt number it was claimed with, and the claim's `now()`. */
  datatype Worker = Worker(row: RowId, attempts: nat, stamp: Instant)

  /** `lost` counts, per row, the attempts whose outcome was never recorded. */
  datatype State = State(
    now: Instant, hooks: map<HookId, Hook>, rows: map<RowId, Delivery>, workers: set<Worker>, changes: nat,
    lost: map<RowId, nat>)

  function Lost(lost: map<RowId, nat>, id: RowId): nat {
    if id in lost then lost[id] else 0
  }

  // -------------------------------------------------------------------- triggers --

  /** A committed row change the triggers see. */
  datatype Change =
    | MessageInserted(team: TeamId, direct: bool, channel: Option<string>)
    | TaskInserted(team: TeamId)
    | TaskUpdated(team: TeamId, before: Tasks.Status, after: Tasks.Status)
    | LockInserted(team: TeamId)
    | LockUpdated(team: TeamId)
    | LockDeleted(team: TeamId)
    | NoteWritten(team: TeamId)

  datatype Announcement = Announcement(team: TeamId, kind: Kind, channel: Option<string>)

  /**
   What the trigger functions pass on, if anything: no direct message, no status-preserving update, no lock
   takeover.
   */
  function Announced(c: Change): Option<Announcement> {
    match c
    case MessageInserted(team, direct, channel) =>
      if direct then None else Some(Announcement(team, MessageKind, channel))
    case TaskInserted(team) => Some(Announcement(team, TaskKind, None))
    case TaskUpdated(team, before, after) => if before == after then None else Some(Announcement(team, TaskKind, None))
    case LockInserted(team) => Some(Announcement(team, LockKind, None))
    case LockUpdated(_) => None
    case LockDeleted(team) => Some(Announcement(team, LockKind, None))
    case NoteWritten(team) => Some(Announcement(team, NoteKind, None))
  }

  /** The WHERE clause of enqueue_webhook_deliveries. */
  predicate Matches(h: Hook, a: Announcement) {
    && h.team == a.team && h.enabled && a.kind in h.kinds
    && (a.kind != MessageKind || h.channelFilter == None || h.channelFilter == a.channel)
  }

  function Matching(hooks: map<HookId, Hook>, a: Announcement): set<HookId> {
    set h | h in hooks && Matches(hooks[h], a)
  }

  function NewRows(hooks: map<HookId, Hook>, a: Announcement, change: nat, now: Instant): map<RowId, Delivery> {
    map h | h in Matching(hooks, a) :: RowId(change, h) := Delivery(a.team, a.kind, Pending, 0, now, now)
  }

  // ------------------------------------------------------------------ statements --

  predicate Due(d: Delivery, now: Instant) {
    d.status == Pending && d.nextAttempt <= now
  }

  /** The ids grow with the changes; the rows of one change are inserted hook by hook. */
  predicate IdBefore(a: RowId, b: RowId) {
    a.change < b.change || (a.change == b.change && a.hook < b.hook)
  }

  /** ORDER BY next_attempt_at, id */
  predicate DueBefore(i: RowId, a: Delivery, j: RowId, b: Delivery) {
    a.nextAttempt < b.nextAttempt || (a.nextAttempt == b.nextAttempt && IdBefore(i, j))
  }

  /** The rows a claim may take: the first 32 that are due, or all of them if fewer are. */
  ghost predicate MayClaim(rows: map<RowId, Delivery>, batch: set<RowId>, now: Instant) {
    && |batch| <= BATCH
    && (forall id :: id in batch ==> id in rows && Due(rows[id], now))
    && (|batch| < BATCH ==> forall id :: id in rows && Due(rows[id], now) ==> id in batch)
    && forall a, b :: a in batch && b in rows && Due(rows[b], now) && b !in batch ==> !DueBefore(b, rows[b], a, rows[a])
  }

  function ClaimedRow(d: Delivery, stamp: Instant): Delivery {
    d.(attempts := d.attempts + 1, nextAttempt := stamp + HOLD, updatedAt := stamp)
  }

  /** The claim's UPDATE on its whole batch. */
  function ClaimedRows(rows: map<RowId, Delivery>, batch: set<RowId>, stamp: Instant): (q: map<RowId, Delivery>)
    ensures q.Keys == rows.Keys
  {
    map id | id in rows :: if id in batch then ClaimedRow(rows[id], stamp) else rows[id]
  }

  function Pow2(n: nat): (p: nat)
    ensures p >= 1
  {
    if n == 0 then 1 else 2 * Pow2(n - 1)
  }

  /** Seconds: 2, 4, 8 ... capped at 600, with the exponent clamped to 1..8. */
  function Backoff(attempts: nat): nat {
    var p := Pow2(Clamp(attempts, 1, 8));
    if p < 600 then p else 600
  }

  /** The 600-second cap is dead code: the clamped exponent never reaches it. */
  lemma CapIsNeverReached(attempts: nat)
    ensures Backoff(attempts) <= 256
    ensures attempts < MAX_ATTEMPTS ==> Backoff(attempts) <= 32
  {
    assert Pow2(1) == 2 && Pow2(2) == 4 && Pow2(3) == 8 && Pow2(4) == 16;
    assert Pow2(5) == 32 && Pow2(6) == 64;
    assert Pow2(7) == 128 && Pow2(8) == 256;
  }

  /** The retries double, starting at two seconds. */
  lemma BackoffDoubles(attempts: nat)
    requires 1 <= attempts < 8
    ensures Backoff(1) == 2 && Backoff(attempts + 1) == 2 * Backoff(attempts)
  {
    CapIsNeverReached(attempts);
    CapIsNeverReached(attempts + 1);
    assert Pow2(1) == 2 && Clamp(attempts + 1, 1, 8) == attempts + 1 && Clamp(attempts, 1, 8) == attempts;
  }

  /** A 4xx other than 408 and 429 spends all attempts at once. */
  function Charged(attempts: nat, permanent: bool): nat {
    if permanent then MAX_ATTEMPTS else attempts
  }

  function FailedRow(d: Delivery, attempts: nat, stamp: Instant): Delivery {
    d.(status := if attempts >= MAX_ATTEMPTS then Failed else Pending,
       nextAttempt := stamp + Backoff(attempts) * SECOND, updatedAt := stamp)
  }

  function SentRow(d: Delivery, stamp: Instant): Delivery {
    d.(status := Sent, updatedAt := stamp)
  }

  predicate Aged(d: Delivery, now: Instant) {
    || (d.status == Sent && d.updatedAt < now - KEEP_SENT)
    || (d.status == Failed && d.updatedAt < now - KEEP_FAILED)
  }

  datatype Step =
    | Tick(now: Instant)
    | Commit(change: Change, stamp: Instant)
    | Claim(batch: set<RowId>, stamp: Instant)
    | RecordSent(worker: Worker, stamp: Instant)
    | RecordFailed(worker: Worker, permanent: bool, stamp: Instant)
    /** The dispatcher dies, its task panics, or the UPDATE that records the outcome fails. */
    | LoseOutcome(worker: Worker)
    | SetHook(id: HookId, hook: Hook)
    | RemoveHook(id: HookId)
    | Prune(stamp: Instant)

  /**
   `budget` bounds the time from a claim's `now()` to the moment the outcome of each of its
   sends is recorded: time does not pass beyond it while the worker is running. A claim takes any rows
   that are due: those before them in its order may be locked by another claim in flight.
   */
  predicate Enabled(s: State, step: Step, budget: int) {
    match step
    case Tick(now) => s.now <= now && forall w :: w in s.workers ==> now <= w.stamp + budget
    case Commit(_, stamp) => stamp <= s.now
    case Claim(batch, stamp) =>
      && stamp <= s.now <= stamp + budget
      && |batch| <= BATCH
      && forall id :: id in batch ==> id in s.rows && Due(s.rows[id], stamp)
    case RecordSent(w, stamp) => w in s.workers && stamp <= s.now
    case RecordFailed(w, _, stamp) => w in s.workers && stamp <= s.now
    case LoseOutcome(w) => w in s.workers
    case SetHook(_, _) => true
    case RemoveHook(id) => id in s.hooks
    case Prune(stamp) => stamp <= s.now
  }

  function WorkersFor(s: State, batch: set<RowId>, stamp: Instant): set<Worker> {
    set id | id in batch && id in s.rows :: Worker(id, s.rows[id].attempts + 1, stamp)
  }

  function Next(s: State, step: Step): State {
    match step
    case Tick(now) => s.(now := now)
    case Commit(change, stamp) =>
      if Announced(change) == None then s
      else
        s.(rows := s.rows + NewRows(s.hooks, Announced(change).value, s.changes, stamp), changes := s.changes + 1)
    case Claim(batch, stamp) =>
      s.(rows := ClaimedRows(s.rows, batch, stamp),
         workers := s.workers + WorkersFor(s, batch, stamp))
    case RecordSent(w, stamp) =>
      s.(rows := if w.row in s.rows then s.rows[w.row := SentRow(s.rows[w.row], stamp)] else s.rows,
         workers := s.workers - {w})
    case RecordFailed(w, permanent, stamp) =>
      s.(rows := if w.row in s.rows then
                   s.rows[w.row := FailedRow(s.rows[w.row], Charged(w.attempts, permanent), stamp)]
                 else s.rows,
         workers := s.workers - {w})
    case LoseOutcome(w) =>
      s.(workers := s.workers - {w}, lost := s.lost[w.row := Lost(s.lost, w.row) + 1])
    case SetHook(id, hook) => s.(hooks := s.hooks[id := hook])
    case RemoveHook(id) =>
      s.(hooks := s.hooks - {id}, rows := map r | r in s.rows && r.hook != id :: s.rows[r])
    case Prune(stamp) =>
      s.(rows := map r | r in s.rows && !Aged(s.rows[r], stamp) :: s.rows[r])
  }

  // ---------------------------------------------------------------- single flight --

  /** One worker per row, the row untouched since its claim, and its deadline not yet passed. */
  ghost predicate SingleFlight(s: State, budget: int) {
    && (forall v, w :: v in s.workers && w in s.workers && v.row == w.row ==> v == w)
    && (forall w :: w in s.workers ==> s.now <= w.stamp + budget && w.row.change < s.changes)
    && (forall w :: w in s.workers && w.row in s.rows ==>
          var d := s.rows[w.row]; d.status == Pending && d.nextAttempt == w.stamp + HOLD && d.attempts == w.attempts)
    && (forall id :: id in s.rows ==> id.change < s.changes)
  }

  /** A due row has no worker: its claim's hold would have outlived the worker's deadline. */
  lemma NotInFlight(s: State, step: Step, budget: int, id: RowId)
    requires budget < HOLD && SingleFlight(s, budget) && Enabled(s, step, budget) && step.Claim? && id in step.batch
    ensures forall w :: w in s.workers ==> w.row != id
  {
    assert Due(s.rows[id], step.stamp);
  }

  lemma SingleFlightIsKept(s: State, step: Step, budget: int)
    requires budget < HOLD && SingleFlight(s, budget) && Enabled(s, step, budget)
    ensures SingleFlight(Next(s, step), budget)
  {
    var q := Next(s, step);
    if step.Claim? {
      forall id | id in step.batch ensures forall w :: w in s.workers ==> w.row != id {
        NotInFlight(s, step, budget, id);
      }
    }
  }

  /** A row that is `Sent` or `Failed` cannot be touched again, only removed. */
  lemma FinishedRowsAreLeftAlone(s: State, step: Step, budget: int, id: RowId)
    requires SingleFlight(s, budget) && Enabled(s, step, budget)
    requires id in s.rows && s.rows[id].status != Pending && id in Next(s, step).rows
    ensures Next(s, step).rows[id] == s.rows[id]
  {}

  ghost predicate IsRun(s: State, steps: seq<Step>, budget: int)
    decreases |steps|
  {
    steps == [] || (Enabled(s, steps[0], budget) && IsRun(Next(s, steps[0]), steps[1..], budget))
  }

  function After(s: State, steps: seq<Step>): State
    decreases |steps|
  {
    if steps == [] then s else After(Next(s, steps[0]), steps[1..])
  }

  /** Over any run, every row has at most one worker in every reachable state. */
  lemma {:induction false} OneWorkerPerRow(s: State, steps: seq<Step>, budget: int)
    requires budget < HOLD && SingleFlight(s, budget) && IsRun(s, steps, budget)
    ensures SingleFlight(After(s, steps), budget)
    decreases |steps|
  {
    if steps != [] {
      SingleFlightIsKept(s, steps[0], budget);
      OneWorkerPerRow(Next(s, steps[0]), steps[1..], budget);
    }
  }

  lemma {:induction false} RowsNeverComeBack(s: State, steps: seq<Step>, budget: int, id: RowId)
    requires budget < HOLD && SingleFlight(s, budget) && IsRun(s, steps, budget)
    requires id !in s.rows && id.change < s.changes
    ensures id !in After(s, steps).rows
    decreases |steps|
  {
    if steps != [] {
      SingleFlightIsKept(s, steps[0], budget);
      RowsNeverComeBack(Next(s, steps[0]), steps[1..], budget, id);
    }
  }

  /** `sent` and `failed` are final, although neither recording statement has a status guard. */
  lemma {:induction false} FinalIsFinal(s: State, steps: seq<Step>, budget: int, id: RowId)
    requires budget < HOLD && SingleFlight(s, budget) && IsRun(s, steps, budget)
    requires id in s.rows && s.rows[id].status != Pending
    ensures id in After(s, steps).rows ==> After(s, steps).rows[id] == s.rows[id]
    decreases |steps|
  {
    if steps != [] {
      var q := Next(s, steps[0]);
      SingleFlightIsKept(s, steps[0], budget);
      if id in q.rows {
        FinishedRowsAreLeftAlone(s, steps[0], budget, id);
        FinalIsFinal(q, steps[1..], budget, id);
      } else {
        RowsNeverComeBack(q, steps[1..], budget, id);
      }
    }
  }

  predicate IsSent(s: State, id: RowId) {
    id in s.rows && s.rows[id].status == Sent
  }

  predicate IsPending(s: State, id: RowId) {
    id in s.rows && s.rows[id].status == Pending
  }

  /** The foreign key: the rows of a webhook go with it. */
  predicate HooksExist(hooks: map<HookId, Hook>, rows: map<RowId, Delivery>) {
    forall id :: id in rows ==> id.hook in hooks
  }

  /** It holds in every run, so the join of a claim with its webhooks drops no row. */
  lemma {:induction false} HooksExistIsKept(s: State, step: Step, budget: int)
    requires HooksExist(s.hooks, s.rows) && Enabled(s, step, budget)
    ensures HooksExist(Next(s, step).hooks, Next(s, step).rows)
  {}

  /** No claim of the run finds a row locked: each takes the first rows that are due. */
  ghost predicate ClaimsInOrder(s: State, steps: seq<Step>)
    decreases |steps|
  {
    steps == [] ||
    (&& (steps[0].Claim? ==> MayClaim(s.rows, steps[0].batch, steps[0].stamp))
     && ClaimsInOrder(Next(s, steps[0]), steps[1..]))
  }

  /** From a state without workers, one run marks the row sent, and another run from there makes it pending again. */
  ghost predicate Unsends(s: State, first: seq<Step>, later: seq<Step>, id: RowId, budget: int) {
    && s.workers == {} && SingleFlight(s, budget) && HooksExist(s.hooks, s.rows)
    && IsRun(s, first, budget) && ClaimsInOrder(s, first) && IsSent(After(s, first), id)
    && IsRun(After(s, first), later, budget) && ClaimsInOrder(After(s, first), later)
    && IsPending(After(After(s, first), later), id)
  }

  ghost predicate CanUnsend(budget: int) {
    exists s: State, first: seq<Step>, later: seq<Step>, id: RowId :: Unsends(s, first, later, id, budget)
  }

  lemma OneMore(s: State, step: Step, steps: seq<Step>, budget: int)
    requires Enabled(s, step, budget) && IsRun(Next(s, step), steps, budget)
    ensures IsRun(s, [step] + steps, budget) && After(s, [step] + steps) == After(Next(s, step), steps)
    ensures ClaimsInOrder(Next(s, step), steps) && (step.Claim? ==> MayClaim(s.rows, step.batch, step.stamp)) ==>
              ClaimsInOrder(s, [step] + steps)
  {
    assert ([step] + steps)[1..] == steps;
  }

  /**
   The timing bound is exactly what finality needs: a sent row can become pending again if and
   only if the outcome of a send may be recorded as late as the end of the hold. Where it can, it can
   without any claim that skips a locked row.
   */
  lemma FinalityNeedsTheBound(budget: int)
    ensures CanUnsend(budget) <==> budget >= HOLD
  {
    if CanUnsend(budget) && budget < HOLD {
      var s: State, first: seq<Step>, later: seq<Step>, id: RowId :| Unsends(s, first, later, id, budget);
      OneWorkerPerRow(s, first, budget);
      FinalIsFinal(After(s, first), later, budget, id);
    }
    if budget >= HOLD {
      SlowSenderUnsends(budget);
    }
  }

  /** What the story below needs to know of a state: the clock, the only row, and who is sending it. */
  predicate Shows(
    s: State, now: Instant, id: RowId, status: RowStatus, attempts: nat, nextAttempt: Instant, workers: set<Worker>)
  {
    && s.now == now && s.workers == workers && s.rows.Keys == {id}
    && s.rows[id].status == status && s.rows[id].attempts == attempts && s.rows[id].nextAttempt == nextAttempt
  }

  lemma ClaimShows(s: State, id: RowId, n: nat, due: Instant, workers: set<Worker>, budget: int)
    requires Shows(s, due, id, Pending, n, due, workers) && budget >= 0
    ensures var q := Next(s, Claim({id}, due));
            && Enabled(s, Claim({id}, due), budget) && MayClaim(s.rows, {id}, due)
            && Shows(q, due, id, Pending, n + 1, due + HOLD, workers + {Worker(id, n + 1, due)})
  {
    assert WorkersFor(s, {id}, due) == {Worker(id, n + 1, due)};
  }

  /** One row, two claims a hold apart: the second send is recorded before the first one fails. */
  lemma SlowSenderUnsends(budget: int)
    requires budget >= HOLD
    ensures CanUnsend(budget)
  {
    var id := RowId(0, 0);
    var hook := Hook(0, true, {MessageKind}, None);
    var s0 := State(0, map[0 := hook], map[id := Delivery(0, MessageKind, Pending, 0, 0, 0)], {}, 1, map[]);
    assert Shows(s0, 0, id, Pending, 0, 0, {});
    SlowStory(s0, id, budget);
  }

  lemma SlowStory(s0: State, id: RowId, budget: int)
    requires budget >= HOLD && Shows(s0, 0, id, Pending, 0, 0, {})
    requires SingleFlight(s0, budget) && HooksExist(s0.hooks, s0.rows)
    ensures CanUnsend(budget)
  {
    var first := SentByTheSecond(s0, id, budget);
    var later := FailedByTheFirst(After(s0, first), id, budget);
    assert Unsends(s0, first, later, id, budget);
  }

  lemma SentByTheSecond(s0: State, id: RowId, budget: int) returns (steps: seq<Step>)
    requires budget >= HOLD && Shows(s0, 0, id, Pending, 0, 0, {})
    ensures IsRun(s0, steps, budget) && ClaimsInOrder(s0, steps)
    ensures Shows(After(s0, steps), HOLD, id, Sent, 2, HOLD + HOLD, {Worker(id, 1, 0)})
  {
    var slow := Worker(id, 1, 0);
    ClaimShows(s0, id, 0, 0, {}, budget);
    var s1 := Next(s0, Claim({id}, 0));
    assert {} + {slow} == {slow};
    var s2 := TickShows(s1, id, slow, budget);
    var rest := TheSecondSends(s2, id, slow, budget);
    OneMore(s1, Tick(HOLD), rest, budget);
    OneMore(s0, Claim({id}, 0), [Tick(HOLD)] + rest, budget);
    steps := [Claim({id}, 0)] + ([Tick(HOLD)] + rest);
  }

  lemma TheSecondSends(s: State, id: RowId, slow: Worker, budget: int) returns (steps: seq<Step>)
    requires budget >= HOLD && slow.stamp == 0 && Shows(s, HOLD, id, Pending, 1, HOLD, {slow})
    ensures IsRun(s, steps, budget) && ClaimsInOrder(s, steps)
    ensures Shows(After(s, steps), HOLD, id, Sent, 2, HOLD + HOLD, {slow})
  {
    var fast := Worker(id, 2, HOLD);
    ClaimShows(s, id, 1, HOLD, {slow}, budget);
    var q := Next(s, Claim({id}, HOLD));
    SentShows(q, id, slow, fast, budget);
    OneMore(q, RecordSent(fast, HOLD), [], budget);
    OneMore(s, Claim({id}, HOLD), [RecordSent(fast, HOLD)] + [], budget);
    steps := [Claim({id}, HOLD)] + ([RecordSent(fast, HOLD)] + []);
  }

  lemma TickShows(s: State, id: RowId, slow: Worker, budget: int) returns (q: State)
    requires budget >= HOLD && slow.stamp == 0 && Shows(s, 0, id, Pending, 1, HOLD, {slow})
    ensures q == Next(s, Tick(HOLD)) && Enabled(s, Tick(HOLD), budget) && Shows(q, HOLD, id, Pending, 1, HOLD, {slow})
  {
    q := Next(s, Tick(HOLD));
  }

  lemma SentShows(s: State, id: RowId, slow: Worker, fast: Worker, budget: int)
    requires slow != fast && fast.row == id && Shows(s, HOLD, id, Pending, 2, HOLD + HOLD, {slow} + {fast})
    ensures Enabled(s, RecordSent(fast, HOLD), budget)
    ensures Shows(Next(s, RecordSent(fast, HOLD)), HOLD, id, Sent, 2, HOLD + HOLD, {slow})
  {
    assert {slow} + {fast} - {fast} == {slow};
  }

  lemma FailedByTheFirst(s: State, id: RowId, budget: int) returns (steps: seq<Step>)
    requires Shows(s, HOLD, id, Sent, 2, HOLD + HOLD, {Worker(id, 1, 0)})
    ensures IsRun(s, steps, budget) && ClaimsInOrder(s, steps) && IsPending(After(s, steps), id)
  {
    var e := RecordFailed(Worker(id, 1, 0), false, HOLD);
    OneMore(s, e, [], budget);
    assert [e] + [] == [e];
    steps := [e];
  }

  // ------------------------------------------------------------------- accounting --

  /** Attempts are bounded by six plus the outcomes nobody recorded, and a pending row comes due within the hold. */
  ghost predicate RowAccounted(s: State, id: RowId)
    requires id in s.rows
  {
    var d := s.rows[id];
    && d.attempts <= MAX_ATTEMPTS + Lost(s.lost, id)
    && (d.status == Pending && (forall w :: w in s.workers ==> w.row != id) ==>
          d.attempts < MAX_ATTEMPTS + Lost(s.lost, id))
    && (d.status == Pending ==> d.nextAttempt <= d.updatedAt + HOLD)
  }

  ghost predicate Accounted(s: State) {
    forall id :: id in s.rows ==> RowAccounted(s, id)
  }

  lemma ClaimKeepsAccount(s: State, batch: set<RowId>, stamp: Instant, budget: int, id: RowId)
    requires budget < HOLD && SingleFlight(s, budget) && Enabled(s, Claim(batch, stamp), budget)
    requires id in s.rows && RowAccounted(s, id)
    ensures RowAccounted(Next(s, Claim(batch, stamp)), id)
  {
    var q := Next(s, Claim(batch, stamp));
    if id in batch {
      NotInFlight(s, Claim(batch, stamp), budget, id);
      var w := Worker(id, s.rows[id].attempts + 1, stamp);
      assert w in WorkersFor(s, batch, stamp) && w in q.workers;
    } else {
      assert q.rows[id] == s.rows[id];
      assert s.workers <= q.workers;
    }
  }

  lemma OutcomeKeepsAccount(s: State, step: Step, budget: int, id: RowId)
    requires SingleFlight(s, budget) && Enabled(s, step, budget)
    requires step.RecordSent? || step.RecordFailed? || step.LoseOutcome?
    requires id in s.rows && RowAccounted(s, id)
    ensures RowAccounted(Next(s, step), id)
  {
    var q := Next(s, step);
    if step.worker.row != id {
      assert q.rows[id] == s.rows[id] && Lost(q.lost, id) == Lost(s.lost, id);
      if forall w :: w in q.workers ==> w.row != id {
        assert forall w :: w in s.workers ==> w.row != id;
      }
    } else if step.RecordFailed? {
      CapIsNeverReached(Charged(step.worker.attempts, step.permanent));
    }
  }

  lemma AccountIsKept(s: State, step: Step, budget: int)
    requires budget < HOLD && SingleFlight(s, budget) && Accounted(s) && Enabled(s, step, budget)
    ensures Accounted(Next(s, step))
  {
    var q := Next(s, step);
    forall id | id in q.rows ensures RowAccounted(q, id) {
      if step.Claim? {
        ClaimKeepsAccount(s, step.batch, step.stamp, budget, id);
      } else if step.RecordSent? || step.RecordFailed? || step.LoseOutcome? {
        OutcomeKeepsAccount(s, step, budget, id);
      } else {
        assert id in s.rows ==> q.rows[id] == s.rows[id] && RowAccounted(s, id);
      }
    }
  }

  lemma {:induction false} ClaimsAreBounded(s: State, steps: seq<Step>, budget: int)
    requires budget < HOLD && SingleFlight(s, budget) && Accounted(s) && IsRun(s, steps, budget)
    ensures Accounted(After(s, steps))
    decreases |steps|
  {
    if steps != [] {
      SingleFlightIsKept(s, steps[0], budget);
      AccountIsKept(s, steps[0], budget);
      ClaimsAreBounded(Next(s, steps[0]), steps[1..], budget);
    }
  }

  /** `attempts` is the number of claims: a claim adds one to each row of its batch, and nothing else changes it. */
  lemma AttemptsCountClaims(s: State, step: Step, budget: int, id: RowId)
    requires Enabled(s, step, budget) && id in s.rows && id in Next(s, step).rows && SingleFlight(s, budget)
    ensures Next(s, step).rows[id].attempts == s.rows[id].attempts + (if step.Claim? && id in step.batch then 1 else 0)
  {}

  /** A row leaves only when it is finished and old enough, or with its webhook. */
  lemma RowsLeaveOnlyFinishedOrWithTheirHook(s: State, step: Step, budget: int, id: RowId)
    requires Enabled(s, step, budget) && id in s.rows && id !in Next(s, step).rows
    ensures || (step.RemoveHook? && step.id == id.hook)
            || (step.Prune? && s.rows[id].status == Sent && s.rows[id].updatedAt + KEEP_SENT < step.stamp)
            || (step.Prune? && s.rows[id].status == Failed && s.rows[id].updatedAt + KEEP_FAILED < step.stamp)
  {}

  /**
   One row per change and matching enabled hook: the new rows are exactly those of the matching
   hooks, pending, never attempted and due at once, and they are as many as there are such hooks.
   */
  lemma OneRowPerMatchingHook(s: State, change: Change, stamp: Instant, budget: int)
    requires SingleFlight(s, budget)
    ensures var q := Next(s, Commit(change, stamp));
            && s.rows.Keys <= q.rows.Keys && (forall id :: id in s.rows ==> q.rows[id] == s.rows[id])
            && (match Announced(change)
                case None => q.rows == s.rows
                case Some(a) =>
                  && |q.rows| == |s.rows| + |Matching(s.hooks, a)|
                  && forall h :: RowId(s.changes, h) in q.rows <==> h in Matching(s.hooks, a))
    ensures Announced(change) == None <==>
              || (change.MessageInserted? && change.direct)
              || (change.TaskUpdated? && change.before == change.after)
              || change.LockUpdated?
  {
    if Announced(change).Some? {
      RowsAreAdded(s.rows, s.hooks, Announced(change).value, s.changes, stamp);
    }
  }

  /** One pending row, never attempted and due at once, per enabled hook that subscribes to the announcement. */
  lemma {:induction false} RowsAreAdded(
    rows: map<RowId, Delivery>, hooks: map<HookId, Hook>, a: Announcement, change: nat, stamp: Instant)
    requires forall id :: id in rows ==> id.change != change
    ensures var q := rows + NewRows(hooks, a, change, stamp);
            && |q| == |rows| + |Matching(hooks, a)|
            && (forall id :: id in rows ==> id in q && q[id] == rows[id])
            && (forall h :: RowId(change, h) in q <==> h in hooks && Matches(hooks[h], a))
            && forall id :: id in q && id !in rows ==>
                 id.change == change && q[id].status == Pending && q[id].attempts == 0 && Due(q[id], stamp)
  {
    var added := NewRows(hooks, a, change, stamp);
    var q := rows + added;
    assert added.Keys == (set h | h in Matching(hooks, a) :: RowId(change, h));
    ImageSize(change, Matching(hooks, a));
    assert q.Keys == rows.Keys + added.Keys && rows.Keys !! added.Keys;
    assert |q| == |q.Keys| && |rows| == |rows.Keys|;
  }

  lemma {:induction false} ImageSize(change: nat, hooks: set<HookId>)
    ensures |set h | h in hooks :: RowId(change, h)| == |hooks|
  {
    if hooks != {} {
      var h :| h in hooks;
      ImageSize(change, hooks - {h});
      assert (set x | x in hooks :: RowId(change, x)) ==
        (set x | x in hooks - {h} :: RowId(change, x)) + {RowId(change, h)};
    } else {
      assert (set h | h in hooks :: RowId(change, h)) == {};
    }
  }


  // ------------------------------------------------------------ in seconds and columns --

  /** A committed change announces this much: whose it is, what kind, and in which channel. */
  ghost predicate Announces(change: Change, team: TeamId, kind: Kind, channel: Option<string>) {
    match change
    case MessageInserted(t, direct, c) => !direct && team == t && kind == MessageKind && channel == c
    case TaskInserted(t) => team == t && kind == TaskKind && channel == None
    case TaskUpdated(t, before, after) => before != after && team == t && kind == TaskKind && channel == None
    case LockInserted(t) => team == t && kind == LockKind && channel == None
    case LockUpdated(t) => false
    case LockDeleted(t) => team == t && kind == LockKind && channel == None
    case NoteWritten(t) => team == t && kind == NoteKind && channel == None
  }

  /**
   Which webhooks a change is queued for: those of its own team that are enabled and subscribe to its
   kind, and, for a message, have no channel filter or that very channel. Nothing goes to another team.
   */
  lemma {:induction false} QueuedForItsTeam(
    s: State, change: Change, stamp: Instant, team: TeamId, kind: Kind, channel: Option<string>, h: HookId)
    requires (forall id :: id in s.rows ==> id.change < s.changes) && Announces(change, team, kind, channel)
    ensures var q, id := Next(s, Commit(change, stamp)), RowId(s.changes, h);
            && (id in q.rows <==>
                  && h in s.hooks && s.hooks[h].team == team && s.hooks[h].enabled && kind in s.hooks[h].kinds
                  && (kind == MessageKind ==> s.hooks[h].channelFilter == None || s.hooks[h].channelFilter == channel))
            && (id in q.rows ==> q.rows[id] == Delivery(team, kind, Pending, 0, stamp, stamp))
            && q.changes == s.changes + 1
  {}

  /** Everything else is silent: direct messages, updates that keep the status, and lock updates. */
  lemma {:induction false} OthersAreSilent(s: State, change: Change, stamp: Instant)
    ensures (exists team, kind, channel :: Announces(change, team, kind, channel)) <==>
              !((change.MessageInserted? && change.direct)
                || (change.TaskUpdated? && change.before == change.after)
                || change.LockUpdated?)
    ensures !(exists team, kind, channel :: Announces(change, team, kind, channel)) ==>
              Next(s, Commit(change, stamp)) == s
  {
    match change {
      case MessageInserted(t, direct, c) => if !direct { assert Announces(change, t, MessageKind, c); }
      case TaskInserted(t) => assert Announces(change, t, TaskKind, None);
      case TaskUpdated(t, before, after) => if before != after { assert Announces(change, t, TaskKind, None); }
      case LockInserted(t) => assert Announces(change, t, LockKind, None);
      case LockUpdated(_) =>
      case LockDeleted(t) => assert Announces(change, t, LockKind, None);
      case NoteWritten(t) => assert Announces(change, t, NoteKind, None);
    }
  }

  /** Retries are due in 2, 4, 8, 16 and 32 seconds; the sixth failure, or a permanent one, is final. */
  lemma {:induction false} RetriesInSeconds(s: State, w: Worker, permanent: bool, stamp: Instant)
    requires w.row in s.rows && w.attempts >= 1
    ensures var d, q := s.rows[w.row], Next(s, RecordFailed(w, permanent, stamp));
            && w.row in q.rows && q.rows[w.row].updatedAt == stamp
            && (permanent || w.attempts >= 6 ==> q.rows[w.row].status == Failed)
            && (!permanent && w.attempts < 6 ==>
                  && q.rows[w.row].status == Pending
                  && q.rows[w.row].nextAttempt == stamp + 1_000_000 *
                     (match w.attempts case 1 => 2 case 2 => 4 case 3 => 8 case 4 => 16 case _ => 32))
            && q.rows[w.row] == d.(status := q.rows[w.row].status, nextAttempt := q.rows[w.row].nextAttempt,
                                   updatedAt := stamp)
  {
    assert Pow2(1) == 2 && Pow2(2) == 4 && Pow2(3) == 8 && Pow2(4) == 16 && Pow2(5) == 32;
  }

  /** Success writes the status and when, and nothing else; neither outcome touches another row. */
  lemma {:induction false} OutcomesWriteTheirRow(s: State, w: Worker, permanent: bool, stamp: Instant)
    ensures var q := Next(s, RecordSent(w, stamp));
            q.rows == if w.row in s.rows then s.rows[w.row := s.rows[w.row].(status := Sent, updatedAt := stamp)]
                      else s.rows
    ensures var q := Next(s, RecordFailed(w, permanent, stamp));
            q.rows.Keys == s.rows.Keys && forall id :: id in s.rows && id != w.row ==> q.rows[id] == s.rows[id]
    ensures Next(s, RecordSent(w, stamp)).workers == s.workers - {w}
    ensures Next(s, RecordFailed(w, permanent, stamp)).workers == s.workers - {w}
  {}

  /** A claimed row has one attempt more and is out of reach for sixty seconds; the others are as they were. */
  lemma {:induction false} ClaimsInSeconds(s: State, batch: set<RowId>, stamp: Instant, id: RowId)
    requires id in s.rows
    ensures var d, q := s.rows[id], Next(s, Claim(batch, stamp));
            && q.rows.Keys == s.rows.Keys
            && q.rows[id] == (if id in batch then d.(attempts := d.attempts + 1, nextAttempt := stamp + 60_000_000,
                                                     updatedAt := stamp)
                              else d)
            && (id in batch ==> Worker(id, d.attempts + 1, stamp) in q.workers)
  {}

  /** A batch takes pending rows whose time has come: all of them, or 32 that were due first. */
  lemma {:induction false} BatchesInNumbers(rows: map<RowId, Delivery>, batch: set<RowId>, now: Instant, id: RowId)
    requires MayClaim(rows, batch, now)
    ensures |batch| <= 32
    ensures id in batch ==> id in rows && rows[id].status == Pending && rows[id].nextAttempt <= now
    ensures id in rows && rows[id].status == Pending && rows[id].nextAttempt <= now && id !in batch ==>
              && |batch| == 32
              && forall o :: o in batch ==>
                   || rows[o].nextAttempt < rows[id].nextAttempt
                   || (rows[o].nextAttempt == rows[id].nextAttempt
                       && (o.change < id.change || (o.change == id.change && o.hook < id.hook)))
  {
    if id in rows && Due(rows[id], now) && id !in batch {
      forall o | o in batch ensures !DueBefore(id, rows[id], o, rows[o]) && o != id {}
    }
  }

  /** Retention: sent rows go after a day, failed ones after a week, pending ones never. */
  lemma {:induction false} RetentionInSeconds(s: State, stamp: Instant, id: RowId)
    requires id in s.rows
    ensures var d, q := s.rows[id], Next(s, Prune(stamp));
            && (id !in q.rows <==>
                  || (d.status == Sent && d.updatedAt < stamp - 86_400_000_000)
                  || (d.status == Failed && d.updatedAt < stamp - 604_800_000_000))
            && (id in q.rows ==> q.rows[id] == d)
  {}

  /** Removing a webhook takes its rows, setting one takes none; both leave the other rows alone. */
  lemma {:induction false} HooksTakeTheirRows(s: State, h: HookId, hook: Hook, id: RowId)
    ensures var q := Next(s, RemoveHook(h));
            && h !in q.hooks && (id in q.rows <==> id in s.rows && id.hook != h)
            && (id in q.rows ==> q.rows[id] == s.rows[id])
    ensures Next(s, SetHook(h, hook)) == s.(hooks := s.hooks[h := hook])
  {}

  /** Nothing stands in the way of the statements: whatever they may do now is a step, within any budget. */
  lemma {:induction false} StatementsAreSteps(
    s: State, budget: nat, change: Change, batch: set<RowId>, w: Worker, permanent: bool, h: HookId, hook: Hook)
    ensures Enabled(s, Commit(change, s.now), budget) && Enabled(s, Prune(s.now), budget)
    ensures MayClaim(s.rows, batch, s.now) ==> Enabled(s, Claim(batch, s.now), budget)
    ensures w in s.workers ==>
              Enabled(s, RecordSent(w, s.now), budget) && Enabled(s, RecordFailed(w, permanent, s.now), budget)
    ensures Enabled(s, SetHook(h, hook), budget) && (h in s.hooks ==> Enabled(s, RemoveHook(h), budget))
  {}

  /** And they are not ahead of time: clocks do not go back, and no statement carries a stamp to come. */
  lemma {:induction false} StepsAreNotAhead(s: State, step: Step, budget: int)
    requires Enabled(s, step, budget)
    ensures step.Tick? ==> s.now <= step.now
    ensures step.Commit? || step.Claim? || step.RecordSent? || step.RecordFailed? || step.Prune? ==> step.stamp <= s.now
    ensures step.Claim? ==> |step.batch| <= 32
    ensures step.RecordSent? || step.RecordFailed? || step.LoseOutcome? ==> step.worker in s.workers
  {}

  /** The theorems apply from the empty outbox on, whatever webhooks there are. */
  lemma {:induction false} EmptyOutboxes(now: Instant, hooks: map<HookId, Hook>, budget: int)
    ensures var s := State(now, hooks, map[], {}, 0, map[]);
            SingleFlight(s, budget) && Accounted(s) && HooksExist(s.hooks, s.rows)
  {}
}
