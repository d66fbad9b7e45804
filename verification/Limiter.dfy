/**
 The token-bucket rate limiter. Its map of buckets is swept of idle entries and capped; the theorems
 say that sweeping is invisible, that a window of any length admits no more than it should, and
 that the advertised Retry-After is both sufficient and minimal. Time is in seconds, as reals.
 */
module Limiter {
  import opened Base

  const IDLE_EVICTION := 600.0
  const SWEEP_EVERY := 512
  const MAX_TRACKED := 10_000

  datatype Config = Config(refill: real, burst: real)

  datatype Bucket = Bucket(tokens: real, last: real)

  datatype State = State(buckets: map<string, Bucket>, sinceSweep: nat)

  const FRESH := State(map[], 0)

  /** `TrackingFull` is the 60-second refusal of an unknown key at the tracking ceiling. */
  datatype Answer = Admitted | Throttled(retryAfter: nat) | TrackingFull

  /** `per_minute` of 0 disables limiting. */
  function ConfigFor(perMinute: nat): Option<Config> {
    if perMinute == 0 then None
    else
      var tenth := perMinute as real / 10.0;
      Some(Config(perMinute as real / 60.0, if tenth > 10.0 then tenth else 10.0))
  }

  /** What sweeping relies on: a bucket idle for the eviction time is full again. */
  predicate Proper(c: Config) {
    c.refill > 0.0 && c.burst >= 1.0 && IDLE_EVICTION * c.refill >= c.burst
  }

  /** Every configuration the server can build is proper, and at one request per minute with nothing to spare. */
  lemma EveryRateIsProper(perMinute: nat)
    requires perMinute > 0
    ensures var c := ConfigFor(perMinute).value;
            && Proper(c) && c.burst >= 10.0
            && (IDLE_EVICTION * c.refill == c.burst <==> perMinute == 1)
  {
    var c := ConfigFor(perMinute).value;
    assert IDLE_EVICTION * c.refill == 10.0 * perMinute as real;
  }

  function Min(a: real, b: real): real {
    if a < b then a else b
  }

  /** duration_since saturates at zero. */
  function Since(last: real, now: real): real {
    if now > last then now - last else 0.0
  }

  function Refilled(c: Config, b: Bucket, now: real): real {
    Min(b.tokens + Since(b.last, now) * c.refill, c.burst)
  }

  /** The tokens `key` has at time `t`: all the limiter's answers depend on this alone. */
  function Level(c: Config, buckets: map<string, Bucket>, key: string, t: real): real {
    if key in buckets then Refilled(c, buckets[key], t) else c.burst
  }

  function Swept(buckets: map<string, Bucket>, now: real): map<string, Bucket> {
    map k | k in buckets && Since(buckets[k].last, now) < IDLE_EVICTION :: buckets[k]
  }

  function CeilSecs(c: Config, deficit: real): nat
    requires c.refill > 0.0
  {
    var secs := -(-(deficit / c.refill)).Floor;
    if secs < 1 then 1 else secs
  }

  /** Charge a bucket that holds `tokens` now. */
  function Charge(c: Config, tokens: real): (real, Answer)
    requires c.refill > 0.0
  {
    if tokens >= 1.0 then (tokens - 1.0, Admitted) else (tokens, Throttled(CeilSecs(c, 1.0 - tokens)))
  }

  /** The sweep at the start of every 512th request. */
  function MaybeSwept(s: State, now: real): State {
    if s.sinceSweep + 1 >= SWEEP_EVERY then State(Swept(s.buckets, now), 0) else State(s.buckets, s.sinceSweep + 1)
  }

  /** The emergency sweep when an unknown key meets a full map. */
  function MakeRoom(buckets: map<string, Bucket>, key: string, now: real): map<string, Bucket> {
    if key !in buckets && |buckets| >= MAX_TRACKED then Swept(buckets, now) else buckets
  }

  /** The buckets a request looks its key up in. */
  function Room(s: State, key: string, now: real): map<string, Bucket> {
    MakeRoom(MaybeSwept(s, now).buckets, key, now)
  }

  /** Look the key up, or start it with a full bucket if there is room, and charge it. */
  function ChargeIn(c: Config, room: map<string, Bucket>, key: string, now: real): (map<string, Bucket>, Answer)
    requires c.refill > 0.0
  {
    if key !in room && |room| >= MAX_TRACKED then (room, TrackingFull)
    else
      var (tokens, answer) := Charge(c, Level(c, room, key, now));
      (room[key := Bucket(tokens, now)], answer)
  }

  function Check(c: Config, s: State, key: string, now: real): (State, Answer)
    requires c.refill > 0.0
  {
    var (buckets, answer) := ChargeIn(c, Room(s, key, now), key, now);
    (State(buckets, MaybeSwept(s, now).sinceSweep), answer)
  }

  /** Buckets hold between nothing and a burst, none was touched after `clock`, and the map is bounded. */
  ghost predicate Valid(c: Config, s: State, clock: real) {
    && |s.buckets| <= MAX_TRACKED
    && forall k :: k in s.buckets ==> 0.0 <= s.buckets[k].tokens <= c.burst && s.buckets[k].last <= clock
  }

  /** The mutable limiter behind its mutex; `clock` is the latest time a request carried. */
  class RateLimiter {
    const config: Config
    var buckets: map<string, Bucket>
    var sinceSweep: nat
    ghost var clock: real

    ghost function View(): State
      reads this
    {
      State(buckets, sinceSweep)
    }

    ghost predicate Ok()
      reads this
    {
      Proper(config) && Valid(config, View(), clock)
    }

    constructor (perMinute: nat, ghost start: real)
      requires perMinute > 0
      ensures Ok() && View() == FRESH && Some(config) == ConfigFor(perMinute) && clock == start
    {
      EveryRateIsProper(perMinute);
      config := ConfigFor(perMinute).value;
      buckets, sinceSweep, clock := map[], 0, start;
    }

    method CheckKey(key: string, now: real) returns (answer: Answer)
      requires Ok() && clock <= now
      modifies this
      ensures Ok() && clock == now
      ensures (View(), answer) == Check(config, old(View()), key, now)
      ensures |buckets| <= MAX_TRACKED
    {
      CheckKeepsValid(config, View(), clock, key, now);
      clock := now;
      SweepIfDue(now);
      var bucket;
      if key in buckets {
        bucket := buckets[key];
      } else {
        if |buckets| >= MAX_TRACKED {
          buckets := Swept(buckets, now);
        }
        if |buckets| >= MAX_TRACKED {
          return TrackingFull;
        }
        bucket := Bucket(config.burst, now);
      }
      answer := Spend(key, bucket, now);
    }

    /** Every 512th request drops the idle buckets. */
    method SweepIfDue(now: real)
      modifies this`buckets, this`sinceSweep
      ensures View() == MaybeSwept(old(View()), now)
    {
      sinceSweep := sinceSweep + 1;
      if sinceSweep >= SWEEP_EVERY {
        sinceSweep := 0;
        buckets := Swept(buckets, now);
      }
    }

    /** Refill the bucket up to now, and take a token out of it if there is one. */
    method Spend(key: string, bucket: Bucket, now: real) returns (answer: Answer)
      requires config.refill > 0.0
      modifies this`buckets
      ensures answer == Charge(config, Refilled(config, bucket, now)).1
      ensures buckets == old(buckets)[key := Bucket(Charge(config, Refilled(config, bucket, now)).0, now)]
    {
      var tokens := Refilled(config, bucket, now);
      if tokens >= 1.0 {
        buckets := buckets[key := Bucket(tokens - 1.0, now)];
        return Admitted;
      }
      buckets := buckets[key := Bucket(tokens, now)];
      answer := Throttled(CeilSecs(config, 1.0 - tokens));
    }
  }

  // ---------------------------------------------------------------------- levels --

  lemma TimesMonotone(x: real, y: real, r: real)
    requires x <= y && r >= 0.0
    ensures x * r <= y * r
  {}

  lemma Distribute(x: real, y: real, r: real)
    ensures (x + y) * r == x * r + y * r
  {}

  /** A swept bucket is one that is full from now on. */
  lemma SweptLevels(c: Config, buckets: map<string, Bucket>, key: string, now: real, t: real)
    requires Proper(c) && now <= t
    requires key in buckets ==> 0.0 <= buckets[key].tokens && buckets[key].last <= now
    ensures Level(c, Swept(buckets, now), key, t) == Level(c, buckets, key, t)
  {
    if key in buckets && key !in Swept(buckets, now) {
      TimesMonotone(IDLE_EVICTION, Since(buckets[key].last, t), c.refill);
    }
  }

  lemma SweptIsSmaller(buckets: map<string, Bucket>, now: real)
    ensures |Swept(buckets, now)| <= |buckets|
  {
    var a, b := Swept(buckets, now).Keys, buckets.Keys;
    assert b == a + (b - a);
    assert |Swept(buckets, now)| == |a| && |buckets| == |b|;
  }

  /** The buckets after both possible sweeps: same levels, no bigger, still valid. */
  lemma RoomKeepsLevels(c: Config, s: State, clock: real, key: string, now: real)
    requires Proper(c) && Valid(c, s, clock) && clock <= now
    ensures var room := Room(s, key, now);
            && Valid(c, State(room, 0), now)
            && forall k, t :: now <= t ==> Level(c, room, k, t) == Level(c, s.buckets, k, t)
  {
    var s1 := MaybeSwept(s, now).buckets;
    SweptIsSmaller(s.buckets, now);
    SweptIsSmaller(s1, now);
    forall k, t | now <= t
      ensures Level(c, MakeRoom(s1, key, now), k, t) == Level(c, s.buckets, k, t)
    {
      SweptLevels(c, s.buckets, k, now, t);
      SweptLevels(c, s1, k, now, t);
    }
  }

  /** The level after an answer, as a function of the level before. */
  function LevelAfter(c: Config, level: real, answer: Answer, elapsed: real): real {
    Min((if answer == Admitted then level - 1.0 else level) + elapsed * c.refill, c.burst)
  }

  lemma LevelsCompose(c: Config, b: Bucket, now: real, t: real)
    requires c.refill > 0.0 && b.last <= now <= t
    ensures Min(Refilled(c, b, now) + (t - now) * c.refill, c.burst) == Refilled(c, b, t)
  {
    Distribute(Since(b.last, now), t - now, c.refill);
    TimesMonotone(0.0, t - now, c.refill);
  }

  lemma PutSize(room: map<string, Bucket>, key: string, b: Bucket)
    ensures |room[key := b]| == |room| + (if key in room then 0 else 1)
  {
    assert room[key := b].Keys == room.Keys + {key};
    assert |room[key := b]| == |room[key := b].Keys| && |room| == |room.Keys|;
  }

  lemma LevelBounds(c: Config, buckets: map<string, Bucket>, key: string, now: real)
    requires Proper(c) && (key in buckets ==> 0.0 <= buckets[key].tokens)
    ensures 0.0 <= Level(c, buckets, key, now) <= c.burst
  {
    if key in buckets { TimesMonotone(0.0, Since(buckets[key].last, now), c.refill); }
  }

  lemma CheckKeepsValid(c: Config, s: State, clock: real, key: string, now: real)
    requires Proper(c) && Valid(c, s, clock) && clock <= now
    ensures Valid(c, Check(c, s, key, now).0, now)
  {
    RoomKeepsLevels(c, s, clock, key, now);
    var room := Room(s, key, now);
    LevelBounds(c, room, key, now);
    PutSize(room, key, Bucket(Charge(c, Level(c, room, key, now)).0, now));
  }

  lemma ChargeByLevel(c: Config, room: map<string, Bucket>, key: string, now: real, other: string, t: real)
    requires Proper(c) && now <= t && (key in room ==> 0.0 <= room[key].tokens)
    ensures var (q, answer) := ChargeIn(c, room, key, now);
            var level := Level(c, room, key, now);
            && (answer != TrackingFull ==>
                  answer == Charge(c, level).1 && Level(c, q, key, t) == LevelAfter(c, level, answer, t - now))
            && (answer == TrackingFull ==> key !in room && q == room)
            && (other != key ==> Level(c, q, other, t) == Level(c, room, other, t))
  {}

  /**
   The limiter seen through its levels. Unless it is refused for lack of tracking room, a request is
   admitted exactly when its key's level is at least one token, and costs that token; nobody else's
   level changes, and a tracking refusal hits only keys whose bucket is full.
   */
  lemma CheckByLevel(c: Config, s: State, clock: real, key: string, now: real, other: string, t: real)
    requires Proper(c) && Valid(c, s, clock) && clock <= now <= t
    ensures var (q, answer) := Check(c, s, key, now);
            var level := Level(c, s.buckets, key, now);
            && (answer != TrackingFull ==>
                  answer == Charge(c, level).1 && Level(c, q.buckets, key, t) == LevelAfter(c, level, answer, t - now))
            && (answer == TrackingFull ==>
                  level == c.burst && Level(c, q.buckets, key, t) == Level(c, s.buckets, key, t))
            && (other != key ==> Level(c, q.buckets, other, t) == Level(c, s.buckets, other, t))
  {
    RoomKeepsLevels(c, s, clock, key, now);
    var room := Room(s, key, now);
    assert Level(c, room, key, now) == Level(c, s.buckets, key, now);
    assert Level(c, room, key, t) == Level(c, s.buckets, key, t);
    assert Level(c, room, other, t) == Level(c, s.buckets, other, t);
    ChargeByLevel(c, room, key, now, other, t);
  }

  /** A refused request leaves its own key's level as it was, at every later time. */
  lemma RefusalCostsNothing(c: Config, s: State, clock: real, key: string, now: real, t: real)
    requires Proper(c) && Valid(c, s, clock) && clock <= now <= t
    requires Check(c, s, key, now).1 != Admitted
    ensures Level(c, Check(c, s, key, now).0.buckets, key, t) == Level(c, s.buckets, key, t)
  {
    CheckByLevel(c, s, clock, key, now, key, t);
    WaitingOutARefusal(c, s, clock, key, now, t);
  }

  /** Refilling up to `now` and from there on is refilling in one go. */
  lemma WaitingOutARefusal(c: Config, s: State, clock: real, key: string, now: real, t: real)
    requires Proper(c) && Valid(c, s, clock) && clock <= now <= t
    ensures Min(Level(c, s.buckets, key, now) + (t - now) * c.refill, c.burst) == Level(c, s.buckets, key, t)
  {
    if key in s.buckets {
      LevelsCompose(c, s.buckets[key], now, t);
    } else {
      TimesMonotone(0.0, t - now, c.refill);
    }
  }
}
