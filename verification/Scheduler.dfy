/** The bounded sender of one dispatcher: at most eight jobs in flight, refilled greedily. */
module Scheduler {
  import opened Base

  /** In-flight POSTs per replica. */
  const CONCURRENCY := 8
  /** Deliveries claimed per round. */
  const BATCH := 32

  /** The jobs running at time `t`. */
  function InFlight(start: seq<Instant>, finish: seq<Instant>, t: Instant): set<nat>
    requires |start| == |finish|
  {
    set k: nat | k < |start| && start[k] <= t < finish[k]
  }

  ghost predicate AtMostEight(start: seq<Instant>, finish: seq<Instant>) {
    |start| == |finish| && forall t :: |InFlight(start, finish, t)| <= CONCURRENCY
  }

  /** The latest start of job `k` when no job takes longer than `longest`. */
  function Latest(t0: Instant, longest: nat, k: nat): Instant {
    t0 + (k / CONCURRENCY) * longest
  }

  lemma LatestGrows(t0: Instant, longest: nat, k: nat, l: nat)
    requires k <= l
    ensures Latest(t0, longest, k) <= Latest(t0, longest, l)
  {
    assert k / CONCURRENCY <= l / CONCURRENCY;
    assert (l / CONCURRENCY - k / CONCURRENCY) * longest >= 0;
  }

  lemma NextSlot(t0: Instant, longest: nat, k: nat)
    ensures Latest(t0, longest, k + CONCURRENCY) == Latest(t0, longest, k) + longest
  {
    assert (k + CONCURRENCY) / CONCURRENCY == k / CONCURRENCY + 1;
  }

  /**
   The pigeonhole step. Eight jobs are running, all numbered below `next`; the earliest to finish
   does so no later than job `next` may start.
   */
  lemma EarliestIsSoonEnough(
    t0: Instant, longest: nat, running: set<nat>, finish: seq<Instant>, next: nat, earliest: nat)
    requires |running| == CONCURRENCY && earliest in running && next == |finish| 
    requires forall o :: o in running ==> o < next
    requires forall o :: o in running ==>
               o < |finish| && finish[earliest] <= finish[o] <= Latest(t0, longest, o) + longest
    ensures finish[earliest] <= Latest(t0, longest, next)
  {
    var base := next / CONCURRENCY * CONCURRENCY;
    if forall o :: o in running ==> o >= base {
      assert running <= Range(base, next);
      SubsetSize(running, Range(base, next));
      assert false;
    }
    var o :| o in running && o < base;
    BelowBase(t0, longest, o, next);
  }

  lemma BelowBase(t0: Instant, longest: nat, o: nat, next: nat)
    requires o < next / CONCURRENCY * CONCURRENCY
    ensures Latest(t0, longest, o) + longest <= Latest(t0, longest, next)
  {
    NextSlot(t0, longest, o);
    assert o / CONCURRENCY < next / CONCURRENCY;
    assert (o + CONCURRENCY) / CONCURRENCY == o / CONCURRENCY + 1 <= next / CONCURRENCY;
    assert (next / CONCURRENCY - (o + CONCURRENCY) / CONCURRENCY) * longest >= 0;
  }

  function Range(lo: nat, hi: nat): (s: set<nat>)
    requires lo <= hi
    ensures |s| == hi - lo && forall o :: o in s <==> lo <= o < hi
    decreases hi - lo
  {
    if lo == hi then {} else Range(lo, hi - 1) + {hi - 1}
  }

  /** The schedule so far: `now` is the clock and `running` the jobs that have not been joined. */
  ghost predicate Scheduled(
    durations: seq<nat>, t0: Instant, longest: nat, start: seq<Instant>, finish: seq<Instant>, running: set<nat>,
    now: Instant)
  {
    && |start| == |finish| <= |durations| && |running| <= CONCURRENCY && t0 <= now
    && (forall k :: 0 <= k < |start| ==>
          t0 <= start[k] <= Latest(t0, longest, k) && finish[k] == start[k] + durations[k])
    && (forall k, l :: 0 <= k < l < |start| ==> start[k] <= start[l])
    && (forall k :: 0 <= k < |start| ==> start[k] <= now)
    && (forall k :: 0 <= k < |start| && k !in running ==> finish[k] <= now)
    && (forall k :: k in running ==> k < |start| && finish[k] >= now)
    && AtMostEight(start, finish)
    && (|start| < |durations| ==> now <= Latest(t0, longest, |start|))
  }

  lemma SpawnKeepsSchedule(
    durations: seq<nat>, t0: Instant, longest: nat, start: seq<Instant>, finish: seq<Instant>, running: set<nat>,
    now: Instant)
    requires Scheduled(durations, t0, longest, start, finish, running, now)
    requires |running| < CONCURRENCY && |start| < |durations|
    ensures Scheduled(durations, t0, longest, start + [now], finish + [now + durations[|start|]], running + {|start|},
        now)
  {
    OneMoreInFlight(start, finish, running, now, durations[|start|]);
    LatestGrows(t0, longest, |start|, |start| + 1);
  }

  lemma JoinKeepsSchedule(
    durations: seq<nat>, t0: Instant, longest: nat, start: seq<Instant>, finish: seq<Instant>, running: set<nat>,
    now: Instant, k: nat)
    requires Scheduled(durations, t0, longest, start, finish, running, now)
    requires forall d :: d in durations ==> d <= longest
    requires |running| == CONCURRENCY || |start| == |durations|
    requires k in running && forall o :: o in running ==> finish[k] <= finish[o]
    ensures Scheduled(durations, t0, longest, start, finish, running - {k}, finish[k])
  {
    if |start| < |durations| {
      forall o | o in running ensures finish[o] <= Latest(t0, longest, o) + longest {
        assert durations[o] in durations;
      }
      EarliestIsSoonEnough(t0, longest, running, finish, |start|, k);
    }
  }

  /** A batch that fits is over within four longest durations: four jobs deep, eight wide. */
  lemma BatchEndsInTime(
    durations: seq<nat>, t0: Instant, longest: nat, start: seq<Instant>, finish: seq<Instant>, running: set<nat>,
    now: Instant)
    requires Scheduled(durations, t0, longest, start, finish, running, now)
    requires |durations| <= BATCH && forall d :: d in durations ==> d <= longest
    ensures forall k :: 0 <= k < |finish| ==> finish[k] <= t0 + 4 * longest
  {
    forall k | 0 <= k < |finish| ensures finish[k] <= t0 + 4 * longest {
      assert durations[k] in durations;
      LatestGrows(t0, longest, k, BATCH - 1);
      assert (BATCH - 1) / CONCURRENCY == 3;
    }
  }

  /** join_next: the running job that finishes first. */
  method NextToFinish(running: set<nat>, finish: seq<Instant>) returns (k: nat)
    requires running != {} && forall o :: o in running ==> o < |finish|
    ensures k in running && forall o :: o in running ==> finish[k] <= finish[o]
  {
    EarliestExists(running, finish);
    k :| k in running && forall o :: o in running ==> finish[k] <= finish[o];
  }

  /** The inner loop: spawn while there is room and something to spawn. */
  method Refill(
    durations: seq<nat>, ghost t0: Instant, ghost longest: nat,
    start0: seq<Instant>, finish0: seq<Instant>, running0: set<nat>, now: Instant)
    returns (start: seq<Instant>, finish: seq<Instant>, running: set<nat>)
    requires Scheduled(durations, t0, longest, start0, finish0, running0, now)
    ensures Scheduled(durations, t0, longest, start, finish, running, now)
    ensures |running| == CONCURRENCY || |start| == |durations|
    ensures |start| > |start0| || (|start| == |start0| && running == running0)
  {
    start, finish, running := start0, finish0, running0;
    while |running| < CONCURRENCY && |start| < |durations|
      invariant Scheduled(durations, t0, longest, start, finish, running, now)
      invariant |start| > |start0| || (|start| == |start0| && running == running0)
      decreases |durations| - |start|
    {
      SpawnKeepsSchedule(durations, t0, longest, start, finish, running, now);
      running := running + {|start|};
      finish := finish + [now + durations[|start|]];
      start := start + [now];
    }
  }

  /**
   Send one batch: job `k` takes `durations[k]`, at most `longest`, whatever the receivers do.
   Jobs start in order, never more than eight run at once, and job `k` starts no later than
   `floor(k / 8)` longest durations after `t0`; so a batch of 32 is over within four of them.
   */
  method SendBatch(durations: seq<nat>, t0: Instant, ghost longest: nat)
    returns (start: seq<Instant>, finish: seq<Instant>)
    requires forall d :: d in durations ==> d <= longest
    ensures |start| == |finish| == |durations|
    ensures forall k :: 0 <= k < |start| ==>
              t0 <= start[k] <= Latest(t0, longest, k) && finish[k] == start[k] + durations[k]
    ensures forall k, l :: 0 <= k < l < |start| ==> start[k] <= start[l]
    ensures AtMostEight(start, finish)
    ensures |durations| <= BATCH ==> forall k :: 0 <= k < |finish| ==> finish[k] <= t0 + 4 * longest
  {
    var running: set<nat>;
    var now := t0;
    start, finish, running := Refill(durations, t0, longest, [], [], {}, now);
    while running != {}
      invariant Scheduled(durations, t0, longest, start, finish, running, now)
      invariant |running| == CONCURRENCY || |start| == |durations|
      decreases |durations| - |start|, |running|
    {
      var k := NextToFinish(running, finish);
      JoinKeepsSchedule(durations, t0, longest, start, finish, running, now, k);
      now := finish[k];
      start, finish, running := Refill(durations, t0, longest, start, finish, running - {k}, now);
    }
    if |durations| <= BATCH {
      BatchEndsInTime(durations, t0, longest, start, finish, running, now);
    }
  }

  lemma OneMoreInFlight(start: seq<Instant>, finish: seq<Instant>, running: set<nat>, now: Instant, duration: nat)
    requires |start| == |finish| && |running| < CONCURRENCY
    requires forall k :: 0 <= k < |start| && k !in running ==> finish[k] <= now
    requires AtMostEight(start, finish)
    ensures AtMostEight(start + [now], finish + [now + duration])
  {
    var start2, finish2 := start + [now], finish + [now + duration];
    forall t ensures |InFlight(start2, finish2, t)| <= CONCURRENCY {
      var after := InFlight(start2, finish2, t);
      if t < now {
        assert after == InFlight(start, finish, t);
      } else {
        assert after <= running + {|start|};
        SubsetSize(after, running + {|start|});
      }
    }
  }

  lemma {:induction false} EarliestExists(running: set<nat>, finish: seq<Instant>)
    requires running != {} && forall k :: k in running ==> k < |finish|
    ensures exists k :: k in running && forall o :: o in running ==> finish[k] <= finish[o]
  {
    var k :| k in running;
    if running != {k} {
      EarliestExists(running - {k}, finish);
      var m :| m in running - {k} && forall o :: o in running - {k} ==> finish[m] <= finish[o];
      var best := if finish[m] <= finish[k] then m else k;
      assert forall o :: o in running ==> finish[best] <= finish[o];
    }
  }

  /** A job runs from its start, and no more at its end. */
  lemma JobsRunFromTheirStart(start: seq<Instant>, finish: seq<Instant>, k: nat)
    requires k < |start| == |finish| && start[k] < finish[k]
    ensures k in InFlight(start, finish, start[k]) && k !in InFlight(start, finish, finish[k])
  {}
}
