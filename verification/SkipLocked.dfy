/**
 `SELECT ... FOR UPDATE SKIP LOCKED LIMIT n`, then `UPDATE`, then commit or abort, interleaved
 over any number of transactions and any other writers. Row locks are held to the end of the
 transaction. A `Policy` says what a claim selects and what it writes; `ClaimPolicies` has the
 two instances the bus uses.
 */
module SkipLocked {
  import opened Base

  datatype Policy<!Id, !Row, !Arg> = Policy(
    eligible: (map<Id, Row>, Id, Instant) -> bool,
    /** The ORDER BY puts the first row strictly before the second. */
    older: (Id, Row, Id, Row) -> bool,
    update: (Row, Arg, Instant) -> Row,
    /** `busy(row, t)`: no statement whose `now()` is at most `t` finds this row eligible. */
    busy: (Row, Instant) -> bool,
    hold: int,
    limit: nat)

  /** A transaction between its SELECT and its end: when it started, and which rows it has locked. */
  datatype Txn<Id, Arg> = Txn(arg: Arg, stamp: Instant, batch: set<Id>)

  datatype State<Id, Row, Arg> = State(rows: map<Id, Row>, open: map<nat, Txn<Id, Arg>>, used: set<nat>)

  datatype Step<Id, Row, Arg> =
    | Select(tx: nat, arg: Arg, stamp: Instant, batch: set<Id>)
    | Commit(tx: nat)
    | Abort(tx: nat)
    /** Another committed statement inserts, overwrites or deletes a row nobody has locked. */
    | Other(id: Id, row: Option<Row>)

  predicate Locked<Id, Row, Arg>(s: State<Id, Row, Arg>, id: Id) {
    exists tx :: tx in s.open && id in s.open[tx].batch
  }

  /** The candidates a SELECT sees: eligible and not locked. */
  function Free<Id, Row, Arg>(pol: Policy<Id, Row, Arg>, s: State<Id, Row, Arg>, now: Instant): set<Id> {
    set id | id in s.rows && pol.eligible(s.rows, id, now) && !Locked(s, id)
  }

  /** The outcomes ORDER BY ... LIMIT allows: a full batch of oldest candidates, or all of them. */
  predicate MaySelect<Id, Row, Arg>(pol: Policy<Id, Row, Arg>, s: State<Id, Row, Arg>, now: Instant, batch: set<Id>) {
    && batch <= Free(pol, s, now)
    && |batch| <= pol.limit
    && (|batch| < pol.limit ==> batch == Free(pol, s, now))
    && forall a, b :: a in batch && b in Free(pol, s, now) && b !in batch ==> !pol.older(b, s.rows[b], a, s.rows[a])
  }

  predicate Enabled<Id, Row, Arg>(pol: Policy<Id, Row, Arg>, s: State<Id, Row, Arg>, step: Step<Id, Row, Arg>) {
    match step
    case Select(tx, _, now, batch) => tx !in s.used && MaySelect(pol, s, now, batch)
    case Commit(tx) => tx in s.open
    case Abort(tx) => tx in s.open
    case Other(id, _) => !Locked(s, id)
  }

  function Next<Id, Row, Arg>(
    pol: Policy<Id, Row, Arg>, s: State<Id, Row, Arg>, step: Step<Id, Row, Arg>): State<Id, Row, Arg>
  {
    match step
    case Select(tx, arg, now, batch) => s.(open := s.open[tx := Txn(arg, now, batch)], used := s.used + {tx})
    case Commit(tx) =>
      if tx in s.open then
        var t := s.open[tx];
        s.(rows := map id | id in s.rows ::
          if id in t.batch then pol.update(s.rows[id], t.arg, t.stamp) else s.rows[id],
           open := s.open - {tx})
      else s
    case Abort(tx) => s.(open := s.open - {tx})
    case Other(id, row) => s.(rows := if row.Some? then s.rows[id := row.value] else s.rows - {id})
  }

  ghost predicate IsRun<Id, Row, Arg>(pol: Policy<Id, Row, Arg>, s: State<Id, Row, Arg>, steps: seq<Step<Id, Row, Arg>>)
    decreases |steps|
  {
    steps == [] || (Enabled(pol, s, steps[0]) && IsRun(pol, Next(pol, s, steps[0]), steps[1..]))
  }

  function After<Id, Row, Arg>(
    pol: Policy<Id, Row, Arg>, s: State<Id, Row, Arg>, steps: seq<Step<Id, Row, Arg>>): State<Id, Row, Arg>
    decreases |steps|
  {
    if steps == [] then s else After(pol, Next(pol, s, steps[0]), steps[1..])
  }

  /** A claim puts its row out of reach for `hold`. */
  ghost predicate Sound<Id(!new), Row(!new), Arg(!new)>(pol: Policy<Id, Row, Arg>) {
    && pol.hold >= 0
    && (forall rows, id, now :: id in rows && pol.eligible(rows, id, now) ==> !pol.busy(rows[id], now))
    && (forall row, t, u :: pol.busy(row, t) && u <= t ==> pol.busy(row, u))
    && (forall row, arg, now :: pol.busy(pol.update(row, arg, now), now + pol.hold))
  }

  /** No row is locked by two transactions. */
  ghost predicate Inv<Id(!new), Row, Arg>(s: State<Id, Row, Arg>) {
    && s.open.Keys <= s.used
    && (forall a, b, id :: a in s.open && b in s.open && id in s.open[a].batch && id in s.open[b].batch ==> a == b)
    && (forall a, id :: a in s.open && id in s.open[a].batch ==> id in s.rows)
  }

  lemma InvIsKept<Id(!new), Row, Arg>(pol: Policy<Id, Row, Arg>, s: State<Id, Row, Arg>, step: Step<Id, Row, Arg>)
    requires Inv(s) && Enabled(pol, s, step)
    ensures Inv(Next(pol, s, step))
  {}

  /** In every reachable state the batches of the transactions in flight are pairwise disjoint. */
  lemma {:induction false} BatchesAreDisjoint<Id(!new), Row, Arg>(
    pol: Policy<Id, Row, Arg>, s: State<Id, Row, Arg>, steps: seq<Step<Id, Row, Arg>>, a: nat, b: nat)
    requires Inv(s) && IsRun(pol, s, steps)
    requires a in After(pol, s, steps).open && b in After(pol, s, steps).open && a != b
    ensures After(pol, s, steps).open[a].batch !! After(pol, s, steps).open[b].batch
    decreases |steps|
  {
    if steps != [] {
      InvIsKept(pol, s, steps[0]);
      BatchesAreDisjoint(pol, Next(pol, s, steps[0]), steps[1..], a, b);
    }
  }

  /** An empty answer means that every eligible row is locked by a transaction still in flight. */
  lemma NoneOnlyWhenAllLocked<Id(!new), Row, Arg>(pol: Policy<Id, Row, Arg>, s: State<Id, Row, Arg>, now: Instant)
    requires pol.limit > 0
    ensures MaySelect(pol, s, now, {}) <==> forall id :: id in s.rows && pol.eligible(s.rows, id, now) ==> Locked(s, id)
  {
    assert (forall id :: id in s.rows && pol.eligible(s.rows, id, now) ==> Locked(s, id)) <==>
      Free(pol, s, now) == {} by {
      forall id | id in s.rows && pol.eligible(s.rows, id, now) && !Locked(s, id) ensures id in Free(pol, s, now) {}
    }
  }

  /** `id` was handed to `tx` at `since`: it is still locked by it, or committed and busy for the hold. */
  predicate SpokenFor<Id, Row, Arg>(
    pol: Policy<Id, Row, Arg>, s: State<Id, Row, Arg>, tx: nat, id: Id, since: Instant)
  {
    && tx in s.used
    && (|| (tx in s.open && id in s.open[tx].batch && s.open[tx].stamp == since)
        || (&& id in s.rows
            && pol.busy(s.rows[id], since + pol.hold)
            && forall o :: o in s.open && id in s.open[o].batch ==> s.open[o].stamp > since + pol.hold))
  }

  /** Not a write of another statement to this row, unless the row stays out of reach as long as the claim said. */
  predicate LeavesBusy<Id, Row, Arg>(pol: Policy<Id, Row, Arg>, step: Step<Id, Row, Arg>, id: Id, since: Instant) {
    step.Other? && step.id == id ==> step.row.Some? && pol.busy(step.row.value, since + pol.hold)
  }

  lemma StaysSpokenFor<Id(!new), Row(!new), Arg(!new)>(
    pol: Policy<Id, Row, Arg>, s: State<Id, Row, Arg>, step: Step<Id, Row, Arg>, tx: nat, id: Id, since: Instant)
    requires Sound(pol) && Inv(s) && Enabled(pol, s, step) && SpokenFor(pol, s, tx, id, since)
    requires step != Abort(tx) && LeavesBusy(pol, step, id, since)
    ensures step.Select? && id in step.batch ==> step.stamp > since + pol.hold
    ensures SpokenFor(pol, Next(pol, s, step), tx, id, since)
  {
    var q := Next(pol, s, step);
    match step {
      case Select(other, arg, now, batch) =>
        if id in batch {
          assert id in Free(pol, s, now) && !Locked(s, id);
          assert !pol.busy(s.rows[id], now);
        }
      case Commit(other) =>
        if id in s.open[other].batch {
          var t := s.open[other];
          assert q.rows[id] == pol.update(s.rows[id], t.arg, t.stamp);
          assert pol.busy(q.rows[id], t.stamp + pol.hold);
        }
      case Abort(other) =>
      case Other(_, _) =>
    }
  }

  /**
   The same row is not handed out twice: if a claim whose `now()` was `since` selected it and did
   not abort, and no other statement cut its hold short, then any later claim that selects it, by
   whichever transaction, started more than `hold` after `since`. Concurrent claims, whose
   starts are closer than that, therefore receive pairwise different rows.
   */
  lemma {:induction false} NotHandedOutTwice<Id(!new), Row(!new), Arg(!new)>(
    pol: Policy<Id, Row, Arg>, s: State<Id, Row, Arg>, steps: seq<Step<Id, Row, Arg>>, j: nat, tx: nat, id: Id,
    since: Instant)
    requires Sound(pol) && Inv(s) && IsRun(pol, s, steps) && SpokenFor(pol, s, tx, id, since)
    requires j < |steps| && steps[j].Select? && id in steps[j].batch
    requires forall k :: 0 <= k < j ==> steps[k] != Abort(tx) && LeavesBusy(pol, steps[k], id, since)
    ensures steps[j].stamp > since + pol.hold
    decreases |steps|
  {
    StaysSpokenFor(pol, s, steps[0], tx, id, since);
    if j > 0 {
      InvIsKept(pol, s, steps[0]);
      NotHandedOutTwice(pol, Next(pol, s, steps[0]), steps[1..], j - 1, tx, id, since);
    }
  }

  /** A SELECT speaks for its whole batch. */
  lemma SelectSpeaksFor<Id(!new), Row, Arg>(
    pol: Policy<Id, Row, Arg>, s: State<Id, Row, Arg>, step: Step<Id, Row, Arg>, id: Id)
    requires Inv(s) && step.Select? && Enabled(pol, s, step) && id in step.batch
    ensures SpokenFor(pol, Next(pol, s, step), step.tx, id, step.stamp)
  {}

  lemma {:induction false} ConcurrentClaimsDiffer<Id(!new), Row(!new), Arg(!new)>(
    pol: Policy<Id, Row, Arg>, s: State<Id, Row, Arg>, steps: seq<Step<Id, Row, Arg>>, i: nat, j: nat, id: Id)
    requires Sound(pol) && Inv(s) && IsRun(pol, s, steps)
    requires i < j < |steps| && steps[i].Select? && steps[j].Select?
    requires forall k :: i < k < j ==> steps[k] != Abort(steps[i].tx) && LeavesBusy(pol, steps[k], id, steps[i].stamp)
    requires id in steps[i].batch && id in steps[j].batch
    ensures steps[j].stamp > steps[i].stamp + pol.hold
    decreases |steps|
  {
    var q := Next(pol, s, steps[0]);
    InvIsKept(pol, s, steps[0]);
    if i > 0 {
      ConcurrentClaimsDiffer(pol, q, steps[1..], i - 1, j - 1, id);
    } else {
      SelectSpeaksFor(pol, s, steps[0], id);
      NotHandedOutTwice(pol, q, steps[1..], j - 1, steps[0].tx, id, steps[0].stamp);
    }
  }

  // ---------------------------------------------------------------------- in rows --

  /** A SELECT passes over exactly the rows in the batch of a transaction that has not ended. */
  lemma {:induction false} SkipsWhatIsLocked<Id(!new), Row, Arg>(
    pol: Policy<Id, Row, Arg>, s: State<Id, Row, Arg>, now: Instant, id: Id)
    ensures id in Free(pol, s, now) <==>
              && id in s.rows && pol.eligible(s.rows, id, now)
              && forall tx :: tx in s.open ==> id !in s.open[tx].batch
  {}

  /** A transaction that ends has its rows no longer; if it commits, exactly these are written. */
  lemma {:induction false} EndsReleaseTheRows<Id(!new), Row, Arg>(
    pol: Policy<Id, Row, Arg>, s: State<Id, Row, Arg>, tx: nat)
    requires tx in s.open
    ensures var q := Next(pol, s, Commit(tx));
            && q.open == s.open - {tx} && q.rows.Keys == s.rows.Keys
            && forall id :: id in s.rows ==>
                 q.rows[id] == if id in s.open[tx].batch then pol.update(s.rows[id], s.open[tx].arg, s.open[tx].stamp)
                               else s.rows[id]
    ensures var q := Next(pol, s, Abort(tx)); q.open == s.open - {tx} && q.rows == s.rows
  {}

  /** A SELECT locks its batch and writes nothing; another statement writes one row. */
  lemma {:induction false} OthersWriteOneRow<Id(!new), Row, Arg>(
    pol: Policy<Id, Row, Arg>, s: State<Id, Row, Arg>, tx: nat, arg: Arg, now: Instant, batch: set<Id>, id: Id,
    row: Option<Row>)
    ensures var q := Next(pol, s, Select(tx, arg, now, batch));
            && q.rows == s.rows && q.open == s.open[tx := Txn(arg, now, batch)] && tx in q.used
    ensures var q := Next(pol, s, Other(id, row));
            && q.open == s.open && (id in q.rows <==> row.Some?) && (row.Some? ==> q.rows[id] == row.value)
            && forall o :: o != id ==> (o in q.rows <==> o in s.rows) && (o in s.rows ==> q.rows[o] == s.rows[o])
  {}

  /** A claim may take what the SELECT allows, a transaction may end either way, and others write what is not locked. */
  lemma {:induction false} StepsInRows<Id(!new), Row, Arg>(
    pol: Policy<Id, Row, Arg>, s: State<Id, Row, Arg>, tx: nat, arg: Arg, now: Instant, batch: set<Id>, id: Id,
    row: Option<Row>)
    ensures Enabled(pol, s, Select(tx, arg, now, batch)) <==> tx !in s.used && MaySelect(pol, s, now, batch)
    ensures Enabled(pol, s, Commit(tx)) <==> tx in s.open
    ensures Enabled(pol, s, Abort(tx)) <==> tx in s.open
    ensures Enabled(pol, s, Other(id, row)) <==> forall t :: t in s.open ==> id !in s.open[t].batch
  {}

  /** Runs start with no transaction open, and go on with any step that is possible. */
  lemma {:induction false} RunsInRows<Id(!new), Row, Arg>(
    pol: Policy<Id, Row, Arg>, rows: map<Id, Row>, s: State<Id, Row, Arg>, step: Step<Id, Row, Arg>,
    rest: seq<Step<Id, Row, Arg>>)
    ensures Inv(State<Id, Row, Arg>.State(rows, map[], {})) && IsRun(pol, s, [])
    ensures IsRun(pol, s, [step] + rest) <==> Enabled(pol, s, step) && IsRun(pol, Next(pol, s, step), rest)
  {
    assert ([step] + rest)[1..] == rest;
  }
}
