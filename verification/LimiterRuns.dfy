/** The limiter over whole sequences of requests that reach its mutex in time order. */
module LimiterRuns {
  import opened Base
  import opened Limiter

  datatype Request = Request(key: string, at: real)

  ghost predicate Ordered(reqs: seq<Request>, clock: real) {
    && (reqs != [] ==> clock <= reqs[0].at)
    && forall i, j :: 0 <= i < j < |reqs| ==> reqs[i].at <= reqs[j].at
  }

  function Answers(c: Config, s: State, reqs: seq<Request>): (answers: seq<Answer>)
    requires c.refill > 0.0
    ensures |answers| == |reqs|
    decreases |reqs|
  {
    if reqs == [] then []
    else
      var (q, answer) := Check(c, s, reqs[0].key, reqs[0].at);
      [answer] + Answers(c, q, reqs[1..])
  }

  function After(c: Config, s: State, reqs: seq<Request>): State
    requires c.refill > 0.0
    decreases |reqs|
  {
    if reqs == [] then s else After(c, Check(c, s, reqs[0].key, reqs[0].at).0, reqs[1..])
  }

  lemma {:induction false} RunKeepsValid(c: Config, s: State, clock: real, reqs: seq<Request>)
    requires Proper(c) && Valid(c, s, clock) && Ordered(reqs, clock)
    ensures Valid(c, After(c, s, reqs), if reqs == [] then clock else reqs[|reqs| - 1].at)
    decreases |reqs|
  {
    if reqs != [] {
      CheckKeepsValid(c, s, clock, reqs[0].key, reqs[0].at);
      RunKeepsValid(c, Check(c, s, reqs[0].key, reqs[0].at).0, reqs[0].at, reqs[1..]);
    }
  }

  // ------------------------------------------------------------ eviction is invisible --

  /** The reference: one bucket per key for ever, no sweep and no ceiling. */
  function NeverForget(c: Config, buckets: map<string, Bucket>, key: string, now: real): (map<string, Bucket>, Answer)
    requires c.refill > 0.0
  {
    var (tokens, answer) := Charge(c, Level(c, buckets, key, now));
    (buckets[key := Bucket(tokens, now)], answer)
  }

  function ReferenceAnswers(c: Config, buckets: map<string, Bucket>, reqs: seq<Request>): seq<Answer>
    requires c.refill > 0.0
    decreases |reqs|
  {
    if reqs == [] then []
    else
      var (q, answer) := NeverForget(c, buckets, reqs[0].key, reqs[0].at);
      [answer] + ReferenceAnswers(c, q, reqs[1..])
  }

  /** The requests that were not refused for lack of tracking room, and their answers. */
  function Tracked(reqs: seq<Request>, answers: seq<Answer>): (kept: (seq<Request>, seq<Answer>))
    requires |reqs| == |answers|
  {
    if reqs == [] then ([], [])
    else
      var (r, a) := Tracked(reqs[1..], answers[1..]);
      if answers[0] == TrackingFull then (r, a) else ([reqs[0]] + r, [answers[0]] + a)
  }

  /** From `now` on, no key can tell the two maps apart. */
  ghost predicate SameLevels(c: Config, a: map<string, Bucket>, b: map<string, Bucket>, now: real) {
    forall key, t :: now <= t ==> Level(c, a, key, t) == Level(c, b, key, t)
  }

  lemma NeverForgetByLevel(c: Config, b: map<string, Bucket>, key: string, now: real, other: string, t: real)
    requires Proper(c) && now <= t
    ensures var (q, answer) := NeverForget(c, b, key, now);
            && answer == Charge(c, Level(c, b, key, now)).1
            && Level(c, q, key, t) == LevelAfter(c, Level(c, b, key, now), answer, t - now)
            && (other != key ==> Level(c, q, other, t) == Level(c, b, other, t))
  {}

  lemma SameLevelsAreKept(c: Config, s: State, clock: real, b: map<string, Bucket>, key: string, now: real)
    requires Proper(c) && Valid(c, s, clock) && clock <= now && SameLevels(c, s.buckets, b, clock)
    ensures var (q, answer) := Check(c, s, key, now);
            if answer == TrackingFull then SameLevels(c, q.buckets, b, now)
            else answer == NeverForget(c, b, key, now).1 && SameLevels(c, q.buckets, NeverForget(c, b, key, now).0, now)
  {
    var (q, answer) := Check(c, s, key, now);
    assert Level(c, s.buckets, key, now) == Level(c, b, key, now);
    forall k, t | now <= t
      ensures Level(c, q.buckets, k, t) ==
              if answer == TrackingFull then Level(c, b, k, t) else Level(c, NeverForget(c, b, key, now).0, k, t)
    {
      assert Level(c, s.buckets, k, t) == Level(c, b, k, t);
      CheckByLevel(c, s, clock, key, now, k, t);
      NeverForgetByLevel(c, b, key, now, k, t);
    }
    CheckByLevel(c, s, clock, key, now, key, now);
    NeverForgetByLevel(c, b, key, now, key, now);
  }

  /**
   Eviction is invisible. On time-ordered requests, the swept and capped limiter gives every request
   it tracks the same answer, Retry-After included, as a limiter that never forgets anything and is
   run on those same requests.
   */
  lemma {:induction false} EvictionIsInvisible(
    c: Config, s: State, clock: real, b: map<string, Bucket>, reqs: seq<Request>)
    requires Proper(c) && Valid(c, s, clock) && SameLevels(c, s.buckets, b, clock) && Ordered(reqs, clock)
    ensures var (kept, answers) := Tracked(reqs, Answers(c, s, reqs));
            ReferenceAnswers(c, b, kept) == answers
    decreases |reqs|
  {
    if reqs != [] {
      var key, now := reqs[0].key, reqs[0].at;
      var (q, answer) := Check(c, s, key, now);
      CheckKeepsValid(c, s, clock, key, now);
      SameLevelsAreKept(c, s, clock, b, key, now);
      var rest := Answers(c, q, reqs[1..]);
      assert Answers(c, s, reqs)[1..] == rest;
      if answer == TrackingFull {
        EvictionIsInvisible(c, q, now, b, reqs[1..]);
      } else {
        var (b2, _) := NeverForget(c, b, key, now);
        EvictionIsInvisible(c, q, now, b2, reqs[1..]);
        var (kept, answers) := Tracked(reqs[1..], rest);
        assert ([reqs[0]] + kept)[1..] == kept;
      }
    }
  }

  /** In particular from the start, for every rate the server accepts. */
  lemma FreshLimiterNeverForgets(perMinute: nat, reqs: seq<Request>, start: real)
    requires perMinute > 0 && Ordered(reqs, start)
    ensures var c := ConfigFor(perMinute).value;
            && Proper(c)
            && ReferenceAnswers(c, map[], Tracked(reqs, Answers(c, FRESH, reqs)).0) ==
              Tracked(reqs, Answers(c, FRESH, reqs)).1
  {
    EveryRateIsProper(perMinute);
    EvictionIsInvisible(ConfigFor(perMinute).value, FRESH, start, map[], reqs);
  }

  // ------------------------------------------------------------------ the rate bound --

  function Admissions(reqs: seq<Request>, answers: seq<Answer>, key: string): nat
    requires |reqs| == |answers|
  {
    if reqs == [] then 0
    else (if reqs[0].key == key && answers[0] == Admitted then 1 else 0) + Admissions(reqs[1..], answers[1..], key)
  }

  /** Levels grow no faster than the refill rate. */
  lemma LevelGrowth(c: Config, s: State, clock: real, key: string, now: real, t: real)
    requires Proper(c) && Valid(c, s, clock) && clock <= now <= t
    ensures Level(c, s.buckets, key, t) <= Level(c, s.buckets, key, now) + (t - now) * c.refill
  {
    TimesMonotone(0.0, t - now, c.refill);
    if key in s.buckets { LevelsCompose(c, s.buckets[key], now, t); }
  }

  /** That many admissions are covered by a level and what is refilled in some seconds. */
  predicate Covered(refill: real, level: real, secs: real, admissions: nat) {
    admissions as real <= level + secs * refill
  }

  /** In some seconds the level rose at most by the refill, less what was spent. */
  predicate Spent(refill: real, before: real, secs: real, cost: nat, after: real) {
    after + cost as real <= before + secs * refill
  }

  lemma SpendAndRefill(
    refill: real, before: real, after: real, cost: nat, rest: nat, elapsed: real, remaining: real, total: real)
    requires Spent(refill, before, elapsed, cost, after) && Covered(refill, after, remaining, rest)
    requires total == elapsed + remaining
    ensures Covered(refill, before, total, cost + rest)
  {
    Distribute(elapsed, remaining, refill);
  }

  /** Every admission is paid for out of the level at the start of the run plus what was refilled since. */
  lemma {:induction false} AdmissionsArePaidFor(
    c: Config, s: State, clock: real, key: string, reqs: seq<Request>, end: real)
    requires Proper(c) && Valid(c, s, clock) && Ordered(reqs, clock) && clock <= end
    requires forall i :: 0 <= i < |reqs| ==> reqs[i].at <= end
    ensures Covered(c.refill, Level(c, s.buckets, key, clock), end - clock, Admissions(reqs, Answers(c, s, reqs), key))
    decreases |reqs|
  {
    if reqs == [] {
      NothingIsPaidFor(c, s, clock, key, end);
    } else {
      var now := reqs[0].at;
      var (q, answer) := Check(c, s, reqs[0].key, now);
      CheckKeepsValid(c, s, clock, reqs[0].key, now);
      AdmissionsArePaidFor(c, q, now, key, reqs[1..], end);
      OneAdmissionIsPaidFor(c, s, clock, key, reqs[0].key, now);
      FirstAdmission(c, s, reqs, key);
      SpendAndRefill(c.refill, Level(c, s.buckets, key, clock), Level(c, q.buckets, key, now),
                     CostTo(key, reqs[0].key, answer), Admissions(reqs[1..], Answers(c, q, reqs[1..]), key),
                     now - clock, end - now, end - clock);
    }
  }

  function CostTo(key: string, asked: string, answer: Answer): nat {
    if asked == key && answer == Admitted then 1 else 0
  }

  lemma NothingIsPaidFor(c: Config, s: State, clock: real, key: string, end: real)
    requires Proper(c) && Valid(c, s, clock) && clock <= end
    ensures Covered(c.refill, Level(c, s.buckets, key, clock), end - clock, 0)
  {
    LevelBounds(c, s.buckets, key, clock);
    NothingIsCovered(c.refill, Level(c, s.buckets, key, clock), end - clock);
  }

  lemma NothingIsCovered(refill: real, level: real, secs: real)
    requires refill >= 0.0 && level >= 0.0 && secs >= 0.0
    ensures Covered(refill, level, secs, 0)
  {
    TimesMonotone(0.0, secs, refill);
    assert secs * refill >= 0.0;
  }

  /** One request: what it costs the key comes out of the key's level. */
  lemma OneAdmissionIsPaidFor(c: Config, s: State, clock: real, key: string, asked: string, now: real)
    requires Proper(c) && Valid(c, s, clock) && clock <= now
    ensures var (q, answer) := Check(c, s, asked, now);
            Spent(c.refill, Level(c, s.buckets, key, clock), now - clock, CostTo(key, asked, answer),
              Level(c, q.buckets, key, now))
  {
    CheckByLevel(c, s, clock, asked, now, key, now);
    LevelGrowth(c, s, clock, key, clock, now);
    LevelBounds(c, s.buckets, key, now);
  }

  lemma {:induction false} FirstAdmission(c: Config, s: State, reqs: seq<Request>, key: string)
    requires c.refill > 0.0 && reqs != []
    ensures var (q, answer) := Check(c, s, reqs[0].key, reqs[0].at);
            Admissions(reqs, Answers(c, s, reqs), key) ==
            CostTo(key, reqs[0].key, answer) + Admissions(reqs[1..], Answers(c, q, reqs[1..]), key)
  {
    var (q, answer) := Check(c, s, reqs[0].key, reqs[0].at);
    assert Answers(c, s, reqs)[1..] == Answers(c, q, reqs[1..]);
  }

  lemma {:induction false} OneWindow(c: Config, s: State, key: string, window: seq<Request>, since: real, end: real)
    requires Proper(c) && Valid(c, s, since) && Ordered(window, since) && since <= end
    requires forall k :: 0 <= k < |window| ==> window[k].at <= end
    ensures Admissions(window, Answers(c, s, window), key) as real <= c.burst + (end - since) * c.refill
  {
    AdmissionsArePaidFor(c, s, since, key, window, end);
    LevelBounds(c, s.buckets, key, since);
  }

  /**
   Any window admits at most the burst plus the rate times its length: `window` are the requests `i`
   to `j` of a time-ordered run, and its length is from the first one's instant to the last one's.
   */
  lemma {:induction false} WindowBound(
    c: Config, s: State, clock: real, key: string, reqs: seq<Request>, i: nat, j: nat,
    window: seq<Request>, since: real, end: real)
    requires Proper(c) && Valid(c, s, clock) && Ordered(reqs, clock) && i < j <= |reqs|
    requires window == reqs[i..j] && since == reqs[i].at && end == reqs[j - 1].at
    ensures Admissions(window, Answers(c, After(c, s, reqs[..i]), window), key) as real <=
        c.burst + (end - since) * c.refill
    decreases i
  {
    if i == 0 {
      assert reqs[..0] == [] && After(c, s, []) == s;
      OneWindow(c, s, key, window, since, end);
    } else {
      var q := Check(c, s, reqs[0].key, reqs[0].at).0;
      CheckKeepsValid(c, s, clock, reqs[0].key, reqs[0].at);
      assert reqs[..i][1..] == reqs[1..][..i - 1] && reqs[i..j] == reqs[1..][i - 1..j - 1];
      WindowBound(c, q, reqs[0].at, key, reqs[1..], i - 1, j - 1, window, since, end);
    }
  }

  /** The answers of a run are the answers of its windows. */
  lemma {:induction false} WindowsAreTheRun(c: Config, s: State, reqs: seq<Request>, i: nat)
    requires c.refill > 0.0 && i <= |reqs|
    ensures Answers(c, s, reqs) == Answers(c, s, reqs[..i]) + Answers(c, After(c, s, reqs[..i]), reqs[i..])
    decreases i
  {
    if i > 0 {
      var first, rest := reqs[..i], reqs[1..];
      var (q, answer) := Check(c, s, reqs[0].key, reqs[0].at);
      assert first[0] == reqs[0] && first[1..] == rest[..i - 1] && rest[i - 1..] == reqs[i..];
      AnswersBegin(c, s, reqs);
      AnswersBegin(c, s, first);
      WindowsAreTheRun(c, q, rest, i - 1);
      Regroup(answer, Answers(c, q, rest[..i - 1]), Answers(c, After(c, q, rest[..i - 1]), reqs[i..]));
    } else {
      assert reqs[..0] == [] && reqs[0..] == reqs;
    }
  }

  lemma Regroup(first: Answer, middle: seq<Answer>, last: seq<Answer>)
    ensures [first] + middle + last == [first] + (middle + last)
  {}

  lemma {:induction false} AnswersBegin(c: Config, s: State, reqs: seq<Request>)
    requires c.refill > 0.0 && reqs != []
    ensures var (q, answer) := Check(c, s, reqs[0].key, reqs[0].at);
            && Answers(c, s, reqs) == [answer] + Answers(c, q, reqs[1..])
            && After(c, s, reqs) == After(c, q, reqs[1..])
  {}

  // --------------------------------------------------------------------- Retry-After --

  lemma CeilIsExact(c: Config, deficit: real, wait: real, less: real)
    requires c.refill > 0.0 && deficit > 0.0 && wait == CeilSecs(c, deficit) as real && less == wait - 1.0
    ensures wait * c.refill >= deficit && less * c.refill < deficit
  {
    var x := deficit / c.refill;
    assert x > 0.0 && x <= wait < x + 1.0;
    Quotient(c.refill, x, deficit, wait, less);
  }

  lemma Quotient(r: real, x: real, deficit: real, wait: real, less: real)
    requires r > 0.0 && x == deficit / r && x <= wait && less < x
    ensures wait * r >= deficit && less * r < deficit
  {
    assert x * r == deficit;
    TimesMonotone(x, wait, r);
    StrictlyLess(r, x, less);
  }

  lemma StrictlyLess(r: real, x: real, y: real)
    requires r > 0.0 && y < x
    ensures y * r < x * r
  {
    assert (x - y) * r > 0.0;
    assert (x - y) * r == x * r - y * r;
  }

  /** Requests that are not admitted for `key` leave its level alone, however many there are. */
  lemma {:induction false} ProbesCostNothing(c: Config, s: State, clock: real, key: string, reqs: seq<Request>, t: real)
    requires Proper(c) && Valid(c, s, clock) && Ordered(reqs, clock) && clock <= t
    requires forall i :: 0 <= i < |reqs| ==> reqs[i].at <= t
    requires Admissions(reqs, Answers(c, s, reqs), key) == 0
    ensures Level(c, After(c, s, reqs).buckets, key, t) == Level(c, s.buckets, key, t)
    decreases |reqs|
  {
    if reqs != [] {
      var now := reqs[0].at;
      var (q, answer) := Check(c, s, reqs[0].key, now);
      CheckKeepsValid(c, s, clock, reqs[0].key, now);
      assert Answers(c, s, reqs)[1..] == Answers(c, q, reqs[1..]);
      if reqs[0].key == key {
        RefusalCostsNothing(c, s, clock, key, now, t);
      } else {
        CheckByLevel(c, s, clock, reqs[0].key, now, key, t);
      }
      ProbesCostNothing(c, q, now, key, reqs[1..], t);
    }
  }

  lemma LongEnough(r: real, deficit: real, wait: real, elapsed: real)
    requires r > 0.0 && wait * r >= deficit && elapsed >= wait
    ensures elapsed * r >= deficit
  {
    TimesMonotone(wait, elapsed, r);
  }

  lemma TooSoon(r: real, deficit: real, less: real, elapsed: real)
    requires r > 0.0 && less * r < deficit && elapsed <= less
    ensures elapsed * r < deficit
  {
    TimesMonotone(elapsed, less, r);
  }

  lemma LevelReachesOne(c: Config, level: real, gain: real)
    requires Proper(c) && 0.0 <= level < 1.0
    ensures Min(level + gain, c.burst) >= 1.0 <==> gain >= 1.0 - level
  {}

  /** The next answer of a key whose level at `now` is `level` and that is charged nothing until `t`. */
  lemma WaitingHelps(c: Config, level: real, elapsed: real)
    requires Proper(c) && 0.0 <= level < 1.0 && elapsed >= 0.0
    ensures var wait := CeilSecs(c, 1.0 - level);
            var later := Min(level + elapsed * c.refill, c.burst);
            && (elapsed >= wait as real ==> later >= 1.0)
            && (elapsed <= wait as real - 1.0 ==> later < 1.0)
  {
    var wait := CeilSecs(c, 1.0 - level) as real;
    CeilIsExact(c, 1.0 - level, wait, wait - 1.0);
    LevelReachesOne(c, level, elapsed * c.refill);
    if elapsed >= wait {
      LongEnough(c.refill, 1.0 - level, wait, elapsed);
    } else if elapsed <= wait - 1.0 {
      TooSoon(c.refill, 1.0 - level, wait - 1.0, elapsed);
    }
  }

  /** The bucket of `key` was last used at `since` or later. */
  predicate UsedSince(buckets: map<string, Bucket>, key: string, since: real) {
    key in buckets && buckets[key].last >= since
  }

  /** A bucket used within the eviction time survives both sweeps. */
  lemma RoomKeepsRecent(s: State, asked: string, key: string, since: real, now: real)
    requires UsedSince(s.buckets, key, since) && now < since + IDLE_EVICTION
    ensures UsedSince(Room(s, asked, now), key, since)
  {}

  /** ... and a request, whoever sends it, so its key is never refused for lack of room. */
  lemma CheckKeepsRecent(c: Config, s: State, asked: string, key: string, since: real, now: real)
    requires c.refill > 0.0 && UsedSince(s.buckets, key, since) && since <= now < since + IDLE_EVICTION
    ensures UsedSince(Check(c, s, asked, now).0.buckets, key, since)
    ensures Check(c, s, key, now).1 != TrackingFull
  {
    RoomKeepsRecent(s, asked, key, since, now);
    RoomKeepsRecent(s, key, key, since, now);
  }

  lemma {:induction false} RunKeepsRecent(c: Config, s: State, key: string, reqs: seq<Request>, since: real)
    requires c.refill > 0.0 && UsedSince(s.buckets, key, since) && Ordered(reqs, since)
    requires forall i :: 0 <= i < |reqs| ==> reqs[i].at < since + IDLE_EVICTION
    ensures UsedSince(After(c, s, reqs).buckets, key, since)
    decreases |reqs|
  {
    if reqs != [] {
      CheckKeepsRecent(c, s, reqs[0].key, key, since, reqs[0].at);
      RunKeepsRecent(c, Check(c, s, reqs[0].key, reqs[0].at).0, key, reqs[1..], since);
    }
  }

  lemma ThrottledIsRecent(c: Config, s: State, key: string, now: real)
    requires c.refill > 0.0 && Check(c, s, key, now).1.Throttled?
    ensures UsedSince(Check(c, s, key, now).0.buckets, key, now)
  {}

  /**
   Retry-After is honest and minimal. After a bucket refusal at `now` that advertises `wait`
   seconds, and any later requests none of which was admitted for this key, a request `elapsed`
   seconds after `now` is admitted from `wait` seconds on, as long as the bucket is not evicted, and
   always throttled up to `wait - 1`, so no smaller whole number of seconds would do. Past the
   eviction time it can only be refused for lack of tracking room.
   */
  lemma {:induction false} RetryAfterIsHonest(
    c: Config, s: State, clock: real, key: string, now: real, q: State, wait: nat,
    reqs: seq<Request>, last: real, elapsed: real, t: real)
    requires Proper(c) && Valid(c, s, clock) && clock <= now && Check(c, s, key, now) == (q, Throttled(wait))
    requires Ordered(reqs, now) && Admissions(reqs, Answers(c, q, reqs), key) == 0
    requires last == (if reqs == [] then now else reqs[|reqs| - 1].at) && last <= t && t == now + elapsed
    ensures wait >= 1
    ensures wait as real <= elapsed < IDLE_EVICTION ==> Check(c, After(c, q, reqs), key, t).1 == Admitted
    ensures elapsed >= wait as real ==> !Check(c, After(c, q, reqs), key, t).1.Throttled?
    ensures elapsed <= wait as real - 1.0 ==> Check(c, After(c, q, reqs), key, t).1.Throttled?
  {
    var level := Level(c, s.buckets, key, now);
    LevelBounds(c, s.buckets, key, now);
    ARefusal(c, s, clock, key, now, q, wait);
    LevelAfterARefusal(c, s, clock, key, now, q, wait, level, elapsed, t);
    AfterProbes(c, q, now, key, reqs, last, t);
    NextAnswer(c, After(c, q, reqs), last, key, t, level, elapsed);
    if elapsed < IDLE_EVICTION {
      ThrottledIsRecent(c, s, key, now);
      RunKeepsRecent(c, q, key, reqs, now);
      CheckKeepsRecent(c, After(c, q, reqs), key, key, now, t);
    }
  }

  /**
   For every rate the server accepts the advertised wait is at most a minute, a tenth of the
   eviction time: so the request sent after exactly that wait is admitted.
   */
  lemma {:induction false} WaitIsAtMostAMinute(perMinute: nat, s: State, clock: real, key: string, now: real)
    requires perMinute > 0 && Valid(ConfigFor(perMinute).value, s, clock) && clock <= now
    ensures var c := ConfigFor(perMinute).value;
            && Proper(c)
            && (Check(c, s, key, now).1.Throttled? ==>
                  1 <= Check(c, s, key, now).1.retryAfter <= 60 && 60.0 < IDLE_EVICTION)
  {
    EveryRateIsProper(perMinute);
    var c := ConfigFor(perMinute).value;
    var (q, answer) := Check(c, s, key, now);
    if answer.Throttled? {
      LevelBounds(c, s.buckets, key, now);
      ARefusal(c, s, clock, key, now, q, answer.retryAfter);
      AtMostAMinute(c, 1.0 - Level(c, s.buckets, key, now));
    }
  }

  /** The minute is reached: by an empty bucket at one request per minute. */
  lemma AnEmptyBucketWaitsAMinute(key: string, now: real)
    ensures var c, s := ConfigFor(1).value, State(map[key := Bucket(0.0, now)], 0);
            Proper(c) && Valid(c, s, now) && Check(c, s, key, now).1 == Throttled(60)
  {
    EveryRateIsProper(1);
    var c, s := ConfigFor(1).value, State(map[key := Bucket(0.0, now)], 0);
    assert s.buckets.Keys == {key} && |s.buckets| == |s.buckets.Keys|;
    assert Level(c, Room(s, key, now), key, now) == 0.0;
    assert 1.0 / c.refill == 60.0;
  }

  lemma AtMostAMinute(c: Config, deficit: real)
    requires c.refill * 60.0 >= 1.0 && 0.0 < deficit <= 1.0
    ensures c.refill > 0.0 && 1 <= CeilSecs(c, deficit) <= 60
  {
    var x := deficit / c.refill;
    assert x * c.refill == deficit;
    if x > 60.0 {
      StrictlyLess(c.refill, x, 60.0);
    }
    assert -x >= -60.0;
  }

  lemma ARefusal(c: Config, s: State, clock: real, key: string, now: real, q: State, wait: nat)
    requires Proper(c) && Valid(c, s, clock) && clock <= now && Check(c, s, key, now) == (q, Throttled(wait))
    ensures Level(c, s.buckets, key, now) < 1.0 && wait == CeilSecs(c, 1.0 - Level(c, s.buckets, key, now))
    ensures Valid(c, q, now)
  {
    CheckByLevel(c, s, clock, key, now, key, now);
    CheckKeepsValid(c, s, clock, key, now);
  }

  lemma {:induction false} AfterProbes(
    c: Config, q: State, now: real, key: string, reqs: seq<Request>, last: real, t: real)
    requires Proper(c) && Valid(c, q, now) && Ordered(reqs, now)
    requires Admissions(reqs, Answers(c, q, reqs), key) == 0
    requires last == (if reqs == [] then now else reqs[|reqs| - 1].at) && last <= t
    ensures Valid(c, After(c, q, reqs), last) &&
        Level(c, After(c, q, reqs).buckets, key, t) == Level(c, q.buckets, key, t)
  {
    RunKeepsValid(c, q, now, reqs);
    ProbesCostNothing(c, q, now, key, reqs, t);
  }

  lemma LevelAfterARefusal(
    c: Config, s: State, clock: real, key: string, now: real, q: State, wait: nat, level: real, elapsed: real, t: real)
    requires Proper(c) && Valid(c, s, clock) && clock <= now <= t && Check(c, s, key, now) == (q, Throttled(wait))
    requires level == Level(c, s.buckets, key, now) && elapsed == t - now
    ensures Level(c, q.buckets, key, t) == Min(level + elapsed * c.refill, c.burst)
  {
    CheckByLevel(c, s, clock, key, now, key, t);
  }

  lemma NextAnswer(c: Config, s: State, clock: real, key: string, t: real, level: real, elapsed: real)
    requires Proper(c) && Valid(c, s, clock) && clock <= t && 0.0 <= level < 1.0 && elapsed >= 0.0
    requires Level(c, s.buckets, key, t) == Min(level + elapsed * c.refill, c.burst)
    ensures var wait := CeilSecs(c, 1.0 - level);
            && (elapsed >= wait as real ==> !Check(c, s, key, t).1.Throttled?)
            && (elapsed <= wait as real - 1.0 ==> Check(c, s, key, t).1.Throttled?)
  {
    CheckByLevel(c, s, clock, key, t, key, t);
    WaitingHelps(c, level, elapsed);
  }

  // -------------------------------------------------------------- why order matters --

  /**
   The clock is read before the mutex is taken, so requests may reach the map out of order. Then a
   refused request does cost something, to the limiter: stamped `early` seconds before its bucket's
   last use, it hands the key that much refill a second time. Hence `Ordered` above.
   */
  lemma AnEarlyStampRefillsTwice(c: Config, s: State, key: string, now: real, early: real)
    requires Proper(c) && key in s.buckets && 0.0 <= s.buckets[key].tokens < 1.0
    requires early >= 0.0 && now + early == s.buckets[key].last
    ensures var (q, answer) := Check(c, s, key, now);
            && answer.Throttled?
            && Level(c, s.buckets, key, now + early) == s.buckets[key].tokens
            && Level(c, q.buckets, key, now + early) == Min(s.buckets[key].tokens + early * c.refill, c.burst)
  {
    assert Since(s.buckets[key].last, now) == 0.0;
    assert key in Room(s, key, now) && Room(s, key, now)[key] == s.buckets[key];
  }

  /** Buckets hold between nothing and a burst, whenever they were last used. */
  ghost predicate Sane(c: Config, s: State) {
    && |s.buckets| <= MAX_TRACKED
    && forall k :: k in s.buckets ==> 0.0 <= s.buckets[k].tokens <= c.burst
  }

  /** How far the clock of a sequence of requests jumps ahead in all. */
  function Forward(clock: real, reqs: seq<Request>): real
    decreases |reqs|
  {
    if reqs == [] then 0.0 else Since(clock, reqs[0].at) + Forward(reqs[0].at, reqs[1..])
  }

  /** And how far it jumps back. */
  function Backward(clock: real, reqs: seq<Request>): real
    decreases |reqs|
  {
    if reqs == [] then 0.0 else Since(reqs[0].at, clock) + Backward(reqs[0].at, reqs[1..])
  }

  /** What jumps back is covered twice. */
  lemma {:induction false} ForwardAndBack(clock: real, reqs: seq<Request>)
    requires reqs != []
    ensures Forward(clock, reqs) == reqs[|reqs| - 1].at - clock + Backward(clock, reqs)
    decreases |reqs|
  {
    if |reqs| > 1 {
      ForwardAndBack(reqs[0].at, reqs[1..]);
    }
  }

  lemma SweptNow(c: Config, buckets: map<string, Bucket>, key: string, now: real)
    requires Proper(c) && (key in buckets ==> 0.0 <= buckets[key].tokens)
    ensures Level(c, Swept(buckets, now), key, now) == Level(c, buckets, key, now)
  {
    if key in buckets && buckets[key].last <= now {
      SweptLevels(c, buckets, key, now, now);
    }
  }

  lemma RoomNow(c: Config, s: State, asked: string, key: string, now: real)
    requires Proper(c) && Sane(c, s)
    ensures Sane(c, State(Room(s, asked, now), 0))
    ensures Level(c, Room(s, asked, now), key, now) == Level(c, s.buckets, key, now)
  {
    var swept := MaybeSwept(s, now).buckets;
    SweptIsSmaller(s.buckets, now);
    SweptIsSmaller(swept, now);
    SweptNow(c, s.buckets, key, now);
    SweptNow(c, swept, key, now);
  }

  /** Whatever the order of the stamps, a request takes its token out of the level of its instant. */
  lemma CheckNow(c: Config, s: State, asked: string, key: string, now: real)
    requires Proper(c) && Sane(c, s)
    ensures Sane(c, Check(c, s, asked, now).0)
    ensures var (q, answer) := Check(c, s, asked, now);
            Level(c, q.buckets, key, now) + CostTo(key, asked, answer) as real <= Level(c, s.buckets, key, now)
  {
    var room := Room(s, asked, now);
    RoomNow(c, s, asked, key, now);
    RoomNow(c, s, asked, asked, now);
    LevelBounds(c, room, asked, now);
    LevelBounds(c, room, key, now);
    ChargedNow(c, room, asked, key, now);
    PutSize(room, asked, Bucket(Charge(c, Level(c, room, asked, now)).0, now));
  }

  lemma ChargedNow(c: Config, room: map<string, Bucket>, asked: string, key: string, now: real)
    requires Proper(c) && (asked in room ==> 0.0 <= room[asked].tokens)
    requires Level(c, room, asked, now) <= c.burst
    ensures var (q, answer) := ChargeIn(c, room, asked, now);
            Level(c, q, key, now) + CostTo(key, asked, answer) as real <= Level(c, room, key, now)
  {
    ChargeByLevel(c, room, asked, now, key, now);
    assert (now - now) * c.refill == 0.0;
  }

  /** A level grows at most by the refill of a jump ahead, and not at all in a jump back. */
  lemma LevelMoves(c: Config, s: State, key: string, clock: real, now: real)
    requires Proper(c) && Sane(c, s)
    ensures Level(c, s.buckets, key, now) <= Level(c, s.buckets, key, clock) + Since(clock, now) * c.refill
  {
    if key in s.buckets {
      var b := s.buckets[key];
      MoreRefill(c, b.tokens, Since(b.last, clock), Since(clock, now), Since(b.last, now));
    } else {
      TimesMonotone(0.0, Since(clock, now), c.refill);
    }
  }

  lemma MoreRefill(c: Config, tokens: real, earlier: real, jump: real, later: real)
    requires Proper(c) && later <= earlier + jump && jump >= 0.0
    ensures Min(tokens + later * c.refill, c.burst) <= Min(tokens + earlier * c.refill, c.burst) + jump * c.refill
  {
    TimesMonotone(later, earlier + jump, c.refill);
    TimesMonotone(0.0, jump, c.refill);
    Distribute(earlier, jump, c.refill);
  }

  lemma OneAdmissionNow(c: Config, s: State, key: string, asked: string, clock: real, now: real)
    requires Proper(c) && Sane(c, s)
    ensures var (q, answer) := Check(c, s, asked, now);
            Spent(c.refill, Level(c, s.buckets, key, clock), Since(clock, now), CostTo(key, asked, answer),
              Level(c, q.buckets, key, now))
  {
    CheckNow(c, s, asked, key, now);
    LevelMoves(c, s, key, clock, now);
  }

  /** Out of order, admissions are paid for by the level at the start and all the jumps ahead. */
  lemma {:induction false} AdmissionsOutOfOrder(c: Config, s: State, key: string, clock: real, reqs: seq<Request>)
    requires Proper(c) && Sane(c, s)
    ensures Covered(c.refill, Level(c, s.buckets, key, clock), Forward(clock, reqs),
              Admissions(reqs, Answers(c, s, reqs), key))
    decreases |reqs|
  {
    if reqs == [] {
      LevelBounds(c, s.buckets, key, clock);
      NothingIsCovered(c.refill, Level(c, s.buckets, key, clock), 0.0);
    } else {
      var now := reqs[0].at;
      var (q, answer) := Check(c, s, reqs[0].key, now);
      CheckNow(c, s, reqs[0].key, key, now);
      AdmissionsOutOfOrder(c, q, key, now, reqs[1..]);
      OneAdmissionNow(c, s, key, reqs[0].key, clock, now);
      FirstAdmission(c, s, reqs, key);
      SpendAndRefill(c.refill, Level(c, s.buckets, key, clock), Level(c, q.buckets, key, now),
                     CostTo(key, reqs[0].key, answer), Admissions(reqs[1..], Answers(c, q, reqs[1..]), key),
                     Since(clock, now), Forward(now, reqs[1..]), Forward(clock, reqs));
    }
  }

  lemma {:induction false} RunKeepsSane(c: Config, s: State, reqs: seq<Request>)
    requires Proper(c) && Sane(c, s)
    ensures Sane(c, After(c, s, reqs))
    decreases |reqs|
  {
    if reqs != [] {
      CheckNow(c, s, reqs[0].key, reqs[0].key, reqs[0].at);
      RunKeepsSane(c, Check(c, s, reqs[0].key, reqs[0].at).0, reqs[1..]);
    }
  }

  /**
   The window bound whatever the order of the stamps: requests `i` to `j` of any run admit at most the
   burst plus the rate times the window's length and the sum of its backward jumps.
   */
  lemma {:induction false} WindowBoundOutOfOrder(
    c: Config, s: State, key: string, reqs: seq<Request>, i: nat, j: nat, window: seq<Request>, secs: real)
    requires Proper(c) && Sane(c, s) && i < j <= |reqs| && window == reqs[i..j]
    requires secs == reqs[j - 1].at - reqs[i].at + Backward(reqs[i].at, window)
    ensures Admissions(window, Answers(c, After(c, s, reqs[..i]), window), key) as real <= c.burst + secs * c.refill
  {
    var q := After(c, s, reqs[..i]);
    RunKeepsSane(c, s, reqs[..i]);
    ForwardAndBack(reqs[i].at, window);
    assert window[|window| - 1] == reqs[j - 1];
    OneWindowOutOfOrder(c, q, key, reqs[i].at, window);
    AsCovered(c, secs, Admissions(window, Answers(c, q, window), key));
  }

  lemma AsCovered(c: Config, secs: real, admissions: nat)
    requires Covered(c.refill, c.burst, secs, admissions)
    ensures admissions as real <= c.burst + secs * c.refill
  {}

  lemma {:induction false} OneWindowOutOfOrder(c: Config, s: State, key: string, since: real, window: seq<Request>)
    requires Proper(c) && Sane(c, s)
    ensures Covered(c.refill, c.burst, Forward(since, window), Admissions(window, Answers(c, s, window), key))
  {
    AdmissionsOutOfOrder(c, s, key, since, window);
    LevelBounds(c, s.buckets, key, since);
    WithinBurst(c.refill, Level(c, s.buckets, key, since), c.burst, Forward(since, window),
                Admissions(window, Answers(c, s, window), key));
  }

  lemma WithinBurst(refill: real, level: real, burst: real, secs: real, admissions: nat)
    requires Covered(refill, level, secs, admissions) && level <= burst
    ensures Covered(refill, burst, secs, admissions)
  {}

  // ------------------------------------------------------------------- in numbers --

  /** The keys whose bucket was used less than ten minutes ago. */
  function UsedRecently(s: State, now: real): set<string> {
    set k | k in s.buckets && now - s.buckets[k].last < 600.0
  }

  lemma SweptKeys(s: State, buckets: map<string, Bucket>, now: real, clock: real)
    requires clock <= now && buckets.Keys <= s.buckets.Keys
    requires forall k :: k in s.buckets ==> s.buckets[k].last <= clock
    requires forall k :: k in buckets ==> buckets[k] == s.buckets[k]
    requires UsedRecently(s, now) <= buckets.Keys
    ensures Swept(buckets, now).Keys == UsedRecently(s, now) && |Swept(buckets, now)| == |UsedRecently(s, now)|
    ensures |buckets| == |buckets.Keys| && |UsedRecently(s, now)| <= |buckets|
  {
    assert Swept(buckets, now).Keys == UsedRecently(s, now);
    SubsetSize(UsedRecently(s, now), buckets.Keys);
  }

  /** After the regular sweep, if it is due, the map still has all that was used recently, and nothing new. */
  lemma SweptMayStay(c: Config, s: State, clock: real, now: real)
    requires Valid(c, s, clock) && clock <= now
    ensures var kept := MaybeSwept(s, now).buckets;
            && kept.Keys <= s.buckets.Keys && UsedRecently(s, now) <= kept.Keys && |kept| <= |s.buckets| <= 10_000
            && forall k :: k in kept ==> kept[k] == s.buckets[k]
  {
    SweptIsSmaller(s.buckets, now);
  }

  /** A map that has lost a key is not full. */
  lemma OneIsGone(s: State, kept: map<string, Bucket>, key: string)
    requires kept.Keys <= s.buckets.Keys && key in s.buckets && key !in kept
    ensures |kept| < |s.buckets|
  {
    SubsetSize(kept.Keys, s.buckets.Keys - {key});
    assert |s.buckets.Keys - {key}| == |s.buckets.Keys| - 1;
    assert |kept| == |kept.Keys| && |s.buckets| == |s.buckets.Keys|;
  }

  /** A request is refused for lack of room exactly if its key is new and 10 000 others were active in ten minutes. */
  lemma WhenTrackingIsFull(c: Config, s: State, clock: real, key: string, now: real)
    requires Proper(c) && Valid(c, s, clock) && clock <= now
    ensures Check(c, s, key, now).1 == TrackingFull <==> key !in s.buckets && |UsedRecently(s, now)| >= 10_000
  {
    var kept := MaybeSwept(s, now).buckets;
    SweptMayStay(c, s, clock, now);
    SweptKeys(s, kept, now, clock);
    if key in s.buckets && key !in kept {
      OneIsGone(s, kept, key);
    }
  }

  /** What a key can spend at once: all whole tokens it has, and a new one the burst. */
  function Tokens(c: Config, s: State, key: string, now: real): real {
    if key in s.buckets then
      var tokens := s.buckets[key].tokens + (now - s.buckets[key].last) * c.refill;
      if tokens < c.burst then tokens else c.burst
    else c.burst
  }

  lemma TokensAreTheLevel(c: Config, s: State, clock: real, key: string, now: real)
    requires Proper(c) && Valid(c, s, clock) && clock <= now
    ensures Tokens(c, s, key, now) == Level(c, s.buckets, key, now)
  {
    if key in s.buckets {
      assert Since(s.buckets[key].last, now) == now - s.buckets[key].last;
    }
  }

  /** One request: unless there is no room, admitted exactly with a whole token, which it takes. */
  lemma OneRequest(c: Config, s: State, clock: real, key: string, now: real)
    requires Proper(c) && Valid(c, s, clock) && clock <= now
    requires key in s.buckets || |UsedRecently(s, now)| < 10_000
    ensures var (q, answer) := Check(c, s, key, now);
            && Valid(c, q, now) && UsedSince(q.buckets, key, now) && key in q.buckets
            && (answer == Admitted <==> Tokens(c, s, key, now) >= 1.0)
            && (answer.Throttled? <==> Tokens(c, s, key, now) < 1.0)
            && Tokens(c, q, key, now) == Tokens(c, s, key, now) - if answer == Admitted then 1.0 else 0.0
  {
    var (q, answer) := Check(c, s, key, now);
    WhenTrackingIsFull(c, s, clock, key, now);
    CheckKeepsValid(c, s, clock, key, now);
    CheckByLevel(c, s, clock, key, now, key, now);
    LevelBounds(c, s.buckets, key, now);
    TokensAreTheLevel(c, s, clock, key, now);
    TokensAreTheLevel(c, q, now, key, now);
    assert (now - now) * c.refill == 0.0;
  }

  /** Requests for one key at one instant. */
  function AtOnce(key: string, now: real, n: nat): seq<Request> {
    seq(n, i requires 0 <= i => Request(key, now))
  }

  /**
   A volley at one instant is admitted up to the whole tokens of its key, and throttled from there on: a
   key the limiter has not seen, below its tracking ceiling, spends its burst.
   */
  lemma {:induction false} AVolleySpendsTheTokens(c: Config, s: State, clock: real, key: string, now: real, n: nat)
    requires Proper(c) && Valid(c, s, clock) && clock <= now
    requires key in s.buckets || |UsedRecently(s, now)| < 10_000
    ensures forall i :: 0 <= i < n ==>
              var answer := Answers(c, s, AtOnce(key, now, n))[i];
              if i < Tokens(c, s, key, now).Floor then answer == Admitted else answer.Throttled?
    decreases n
  {
    if n > 0 {
      var reqs := AtOnce(key, now, n);
      var q := Check(c, s, key, now).0;
      OneRequest(c, s, clock, key, now);
      AVolleySpendsTheTokens(c, q, now, key, now, n - 1);
      assert reqs[0] == Request(key, now) && reqs[1..] == AtOnce(key, now, n - 1);
      AnswersBegin(c, s, reqs);
    }
  }

  /** From the start: the burst is a tenth of the minute's budget, and at least ten. */
  lemma {:induction false} AFreshLimiterAdmitsTheBurst(perMinute: nat, key: string, now: real, n: nat)
    requires perMinute > 0
    ensures ConfigFor(perMinute).Some? && ConfigFor(0) == None
    ensures var c := ConfigFor(perMinute).value;
            && c.refill == perMinute as real / 60.0
            && forall i :: 0 <= i < n ==>
                 var answer := Answers(c, FRESH, AtOnce(key, now, n))[i];
                 if i < 10 || i < perMinute / 10 then answer == Admitted else answer.Throttled?
  {
    EveryRateIsProper(perMinute);
    var c := ConfigFor(perMinute).value;
    BurstInNumbers(perMinute);
    assert UsedRecently(FRESH, now) == {};
    AVolleySpendsTheTokens(c, FRESH, now, key, now, n);
  }

  lemma BurstInNumbers(perMinute: nat)
    requires perMinute > 0
    ensures ConfigFor(perMinute).value.burst.Floor == if perMinute / 10 > 10 then perMinute / 10 else 10
  {
    var whole, part := perMinute / 10, perMinute % 10;
    assert perMinute as real / 10.0 == whole as real + part as real / 10.0;
  }

  /** A throttled request is told the least whole number of seconds, and at least one, that refills what is missing. */
  lemma WaitsInSeconds(c: Config, s: State, clock: real, key: string, now: real)
    requires Proper(c) && Valid(c, s, clock) && clock <= now && Check(c, s, key, now).1.Throttled?
    ensures var wait, missing := Check(c, s, key, now).1.retryAfter, 1.0 - Tokens(c, s, key, now);
            && wait >= 1 && wait as real * c.refill >= missing && (wait as real - 1.0) * c.refill < missing
  {
    var (q, answer) := Check(c, s, key, now);
    ARefusal(c, s, clock, key, now, q, answer.retryAfter);
    TokensAreTheLevel(c, s, clock, key, now);
    CeilIsExact(c, 1.0 - Tokens(c, s, key, now), answer.retryAfter as real, answer.retryAfter as real - 1.0);
  }

  /** The regular sweep, on every 512th request, forgets what was not used for ten minutes; others forget nothing. */
  lemma SweepsInNumbers(c: Config, s: State, clock: real, key: string, now: real, other: string)
    requires Proper(c) && Valid(c, s, clock) && clock <= now && other in s.buckets && other != key
    requires |s.buckets| < 10_000 || key in s.buckets
    ensures var q := Check(c, s, key, now).0;
            && q.sinceSweep == (if s.sinceSweep >= 511 then 0 else s.sinceSweep + 1)
            && (other in q.buckets <==> s.sinceSweep < 511 || now - s.buckets[other].last < 600.0)
            && (other in q.buckets ==> q.buckets[other] == s.buckets[other])
  {
    var kept := MaybeSwept(s, now).buckets;
    SweptMayStay(c, s, clock, now);
    if key in s.buckets && key !in kept {
      OneIsGone(s, kept, key);
    }
  }

  /** Requests are in order if each is no earlier than the one before. */
  lemma {:induction false} OneByOne(first: Request, rest: seq<Request>, clock: real)
    ensures Ordered([], clock)
    ensures Ordered([first] + rest, clock) <==> clock <= first.at && Ordered(rest, first.at)
  {
    var reqs := [first] + rest;
    if clock <= first.at && Ordered(rest, first.at) {
      forall i, j | 0 <= i < j < |reqs| ensures reqs[i].at <= reqs[j].at {
        assert reqs[j] == rest[j - 1] && (i > 0 ==> reqs[i] == rest[i - 1]);
        assert rest[0].at <= rest[j - 1].at || j == 1;
      }
    }
    if Ordered(reqs, clock) {
      assert reqs[0] == first;
      forall i, j | 0 <= i < j < |rest| ensures rest[i].at <= rest[j].at {
        assert reqs[i + 1] == rest[i] && reqs[j + 1] == rest[j];
      }
      assert rest != [] ==> reqs[1] == rest[0];
    }
  }

  /** Every limiter of a run is sane, the new one first. */
  lemma {:induction false} ValidIsSane(c: Config, s: State, clock: real)
    requires Valid(c, s, clock)
    ensures Sane(c, s) && Sane(c, FRESH) && Valid(c, FRESH, clock)
  {}
}
