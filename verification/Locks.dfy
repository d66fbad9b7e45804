/**
 Advisory locks: a leased mutex per (team, name). An expired lock is taken over by the next
 acquirer; the holder, which is one session of one agent, may extend or release its own.
 */
module Locks {
  import opened Base
  import opened Text

  const DEFAULT_TTL_SECS := 300
  const MIN_TTL_SECS := 5
  const MAX_TTL_SECS := 86_400
  const MAX_NAME_BYTES := 128

  datatype Name = Name(team: TeamId, name: string)

  datatype Lock = Lock(
    holder: AgentId, session: Option<string>, purpose: Option<string>, acquiredAt: Instant, expiresAt: Instant)

  type Table = map<Name, Lock>

  predicate OwnedBy(l: Lock, who: Auth) {
    l.holder == who.agent && SharedIfNull(l.session) == who.session
  }

  /** The ON CONFLICT ... WHERE clause. */
  predicate MayAcquire(t: Table, n: Name, who: Auth, now: Instant) {
    n !in t || t[n].expiresAt < now || OwnedBy(t[n], who)
  }

  function Expiry(ttl: Option<int>, now: Instant): (e: Instant)
    ensures e >= now + MIN_TTL_SECS * SECOND
  {
    now + Clamp(if ttl.Some? then ttl.value else DEFAULT_TTL_SECS, MIN_TTL_SECS, MAX_TTL_SECS) * SECOND
  }

  /** The row after the upsert. An omitted purpose keeps the previous row's, whoever wrote it. */
  function Upserted(t: Table, n: Name, who: Auth, ttl: Option<int>, purpose: Option<string>, now: Instant): Lock {
    if n !in t then Lock(who.agent, Some(who.session), purpose, now, Expiry(ttl, now))
    else
      Lock(who.agent, Some(who.session),
           if purpose.Some? then purpose else t[n].purpose,
           if OwnedBy(t[n], who) then t[n].acquiredAt else now,
           Expiry(ttl, now))
  }

  datatype Op =
    | Acquire(who: Auth, name: string, ttl: Option<int>, purpose: Option<string>)
    | Release(who: Auth, name: string)

  predicate MayRelease(t: Table, n: Name, who: Auth) {
    n in t && OwnedBy(t[n], who)
  }

  function Apply(t: Table, op: Op, now: Instant): Table {
    var n := Name(op.who.team, op.name);
    match op
    case Acquire(who, _, ttl, purpose) =>
      if MayAcquire(t, n, who, now) then t[n := Upserted(t, n, who, ttl, purpose, now)] else t
    case Release(who, _) =>
      if MayRelease(t, n, who) then t - {n} else t
  }

  /** What list_locks shows. */
  predicate Listed(t: Table, n: Name, now: Instant) {
    n in t && t[n].expiresAt > now
  }

  function NormalizeName(raw: string): (r: Result<string>)
    ensures r.Ok? <==> 0 < |Trim(raw)| <= MAX_NAME_BYTES
    ensures r.Ok? ==> Trimmed(r.value) && 0 < |r.value| <= MAX_NAME_BYTES
    ensures r.Ok? ==> forall c :: c in r.value ==> !('A' <= c <= 'Z')
    ensures r.Err? ==> r == Err(Invalid)
  {
    var name := Lower(Trim(raw));
    if name == "" || |name| > MAX_NAME_BYTES then Err(Invalid) else Ok(name)
  }

  /** What the caller of acquire_lock is told: the row as the second statement finds it, if it finds one. */
  datatype LockResult = LockResult(acquired: bool, lock: Option<Lock>)

  function RowAt(t: Table, n: Name): Option<Lock> {
    if n in t then Some(t[n]) else None
  }

  ghost predicate AcquireTried(
    t: Table, q: Table, who: Auth, name: string, ttl: Option<int>, purpose: Option<string>, now: Instant,
    acquired: bool)
  {
    var n := Name(who.team, name);
    && q == Apply(t, Acquire(who, name, ttl, purpose), now)
    && (acquired <==> MayAcquire(t, n, who, now))
    && (acquired ==> n in q && OwnedBy(q[n], who) && q[n].expiresAt == Expiry(ttl, now))
    && (!acquired ==> q == t)
  }

  ghost predicate ReleaseTried(t: Table, q: Table, who: Auth, name: string, released: bool) {
    var n := Name(who.team, name);
    && (forall now :: q == Apply(t, Release(who, name), now))
    && (released <==> MayRelease(t, n, who))
    && (released ==> n !in q)
    && (!released ==> q == t)
  }

  class LockTable {
    var locks: Table

    constructor ()
      ensures locks == map[]
    {
      locks := map[];
    }

    /** acquire_lock up to its upsert: acquire, take over or extend. */
    method TryAcquire(who: Auth, rawName: string, ttl: Option<int>, purpose: Option<string>, now: Instant)
      returns (r: Result<bool>)
      modifies this
      ensures match NormalizeName(rawName)
              case Err(e) => r == Err(e) && locks == old(locks)
              case Ok(name) => r.Ok? && AcquireTried(old(locks), locks, who, name, ttl, purpose, now, r.value)
    {
      var name := NormalizeName(rawName);
      if name.Err? { return Err(name.error); }
      var acquired := AcquireByName(who, name.value, ttl, purpose, now);
      r := Ok(acquired);
    }

    method AcquireByName(who: Auth, name: string, ttl: Option<int>, purpose: Option<string>, now: Instant)
      returns (acquired: bool)
      modifies this
      ensures AcquireTried(old(locks), locks, who, name, ttl, purpose, now, acquired)
    {
      var n := Name(who.team, name);
      acquired := MayAcquire(locks, n, who, now);
      if acquired {
        locks := locks[n := Upserted(locks, n, who, ttl, purpose, now)];
      }
    }

    /** release_lock up to its DELETE: this session's lock, expired or not. */
    method TryRelease(who: Auth, rawName: string) returns (r: Result<bool>)
      modifies this
      ensures match NormalizeName(rawName)
              case Err(e) => r == Err(e) && locks == old(locks)
              case Ok(name) => r.Ok? && ReleaseTried(old(locks), locks, who, name, r.value)
    {
      var name := NormalizeName(rawName);
      if name.Err? { return Err(name.error); }
      var released := ReleaseByName(who, name.value);
      r := Ok(released);
    }

    method ReleaseByName(who: Auth, name: string) returns (released: bool)
      modifies this
      ensures ReleaseTried(old(locks), locks, who, name, released)
    {
      var n := Name(who.team, name);
      released := MayRelease(locks, n, who);
      if released {
        locks := locks - {n};
      }
    }

    /**
     acquire_lock's second statement, on the table as it is by then. The row it finds is another
     holder's whose lock has not expired exactly if acquiring would be refused as well.
     */
    method AnswerAcquire(who: Auth, name: string, acquired: bool) returns (r: LockResult)
      ensures r.acquired == acquired && r.lock == RowAt(locks, Name(who.team, name))
      ensures forall now :: NamesAnotherHolder(r.lock, who, now) <==> !MayAcquire(locks, Name(who.team, name), who, now)
    {
      var n := Name(who.team, name);
      r := LockResult(acquired, if n in locks then Some(locks[n]) else None);
    }

    /**
     release_lock's second statement; `Ok(false)` says that nobody holds the lock, and a conflict names
     the holder it found: another one, unless this very session has acquired the lock meanwhile.
     */
    method AnswerRelease(who: Auth, name: string, released: bool, now: Instant)
      returns (r: Result<bool>, named: Option<Lock>)
      ensures r == Ok(true) <==> released
      ensures !released ==> r == if Listed(locks, Name(who.team, name), now) then Err(Conflict) else Ok(false)
      ensures if r.Err? then named == RowAt(locks, Name(who.team, name)) else named == None
      ensures named.Some? ==> (NamesAnotherHolder(named, who, now) <==> !MayRelease(locks, Name(who.team, name), who))
    {
      if released { return Ok(true), None; }
      var n := Name(who.team, name);
      if n in locks && locks[n].expiresAt > now {
        r, named := Err(Conflict), Some(locks[n]);
      } else {
        r, named := Ok(false), None;
      }
    }
  }

  // ------------------------------------------------------------------- honest answers --

  /** "Held by ... until ...": another session, whose lock has not expired at `now`. */
  predicate NamesAnotherHolder(lock: Option<Lock>, who: Auth, now: Instant) {
    lock.Some? && !OwnedBy(lock.value, who) && lock.value.expiresAt >= now
  }

  /**
   A refusal is explained by a second statement, with a later clock. Its explanation is honest if and
   only if the table it is read from would have refused as well; if nobody wrote the row in between,
   that is exactly until the lock expires.
   */
  lemma RefusedLocksAreExplained(t: Table, q: Table, n: Name, who: Auth, now: Instant, later: Instant)
    requires !MayAcquire(t, n, who, now) && now <= later
    ensures NamesAnotherHolder(RowAt(q, n), who, later) <==> !MayAcquire(q, n, who, later)
    ensures RowAt(q, n) == RowAt(t, n) ==>
              (NamesAnotherHolder(RowAt(q, n), who, later) <==> later <= t[n].expiresAt)
  {}

  /** If the lock expires between the two clocks, the caller is refused a lock it could have had by then. */
  lemma ExpiredMeanwhile(t: Table, n: Name, who: Auth, now: Instant, later: Instant)
    requires !MayAcquire(t, n, who, now) && t[n].expiresAt < later
    ensures RowAt(t, n).Some? && !NamesAnotherHolder(RowAt(t, n), who, later) && MayAcquire(t, n, who, later)
  {}

  /** If the holder releases it in between, the caller is refused a lock that nobody holds. */
  lemma ReleasedMeanwhile(t: Table, n: Name, who: Auth, holder: Auth, now: Instant, later: Instant)
    requires !MayAcquire(t, n, who, now) && OwnedBy(t[n], holder) && holder.team == n.team
    ensures RowAt(Apply(t, Release(holder, n.name), later), n) == None
  {}

  /**
   A release that deleted nothing reports a conflict exactly when the lock is listed by then; and the
   holder it names is the caller itself exactly when the same session has acquired it in between.
   */
  lemma RefusedReleasesAreExplained(t: Table, q: Table, n: Name, who: Auth, now: Instant)
    requires !MayRelease(t, n, who)
    ensures RowAt(q, n) == RowAt(t, n) && Listed(q, n, now) ==> NamesAnotherHolder(RowAt(q, n), who, now)
    ensures Listed(q, n, now) ==> (NamesAnotherHolder(RowAt(q, n), who, now) <==> !MayRelease(q, n, who))
  {}

  /**
   The listing and the guard disagree at one instant only: a lock is refused to another session
   although list_locks no longer shows it exactly when it expires at that very `now()`.
   */
  lemma UnlistedButRefused(t: Table, n: Name, who: Auth, now: Instant)
    requires n in t && !OwnedBy(t[n], who)
    ensures !Listed(t, n, now) && !MayAcquire(t, n, who, now) <==> t[n].expiresAt == now
    ensures Listed(t, n, now) ==> !MayAcquire(t, n, who, now)
  {}

  // ------------------------------------------------------------------------ runs --

  datatype Event = Event(op: Op, stamp: Instant, commit: Instant)

  predicate IsRun(es: seq<Event>) {
    && (forall k :: 0 <= k < |es| ==> es[k].stamp <= es[k].commit)
    && (forall k :: 0 < k < |es| ==> es[k - 1].commit <= es[k].commit)
  }

  /** The table just before event `k`. */
  function At(t: Table, es: seq<Event>, k: nat): Table
    requires k <= |es|
  {
    if k == 0 then t else Apply(At(t, es, k - 1), es[k - 1].op, es[k - 1].stamp)
  }

  /** Event `k` acquired or extended the lock. */
  predicate AcquiredAt(t: Table, es: seq<Event>, k: nat, n: Name)
    requires k < |es|
  {
    var op := es[k].op;
    op.Acquire? && n == Name(op.who.team, op.name) && MayAcquire(At(t, es, k), n, op.who, es[k].stamp)
  }

  predicate ReleasedAt(t: Table, es: seq<Event>, k: nat, n: Name)
    requires k < |es|
  {
    var op := es[k].op;
    op.Release? && n == Name(op.who.team, op.name) && MayRelease(At(t, es, k), n, op.who)
  }

  lemma {:induction false} CommitOrder(es: seq<Event>, i: nat, j: nat)
    requires IsRun(es) && i <= j < |es|
    ensures es[i].commit <= es[j].commit
  {
    if i < j { CommitOrder(es, i, j - 1); }
  }

  /** Between the grant at `i` and event `j` the row stays as granted, or somebody took it after it expired. */
  lemma {:induction false} HeldOrTakenLate(t: Table, es: seq<Event>, i: nat, j: nat, n: Name)
    requires IsRun(es) && i < j <= |es| && AcquiredAt(t, es, i, n)
    requires forall k :: i < k < j ==>
               !(AcquiredAt(t, es, k, n) && SameSession(es[k].op.who, es[i].op.who))
               && !(ReleasedAt(t, es, k, n) && SameSession(es[k].op.who, es[i].op.who))
    ensures var until := Expiry(es[i].op.ttl, es[i].stamp);
            || (n in At(t, es, j) && OwnedBy(At(t, es, j)[n], es[i].op.who) && At(t, es, j)[n].expiresAt == until)
            || exists k :: i < k < j && AcquiredAt(t, es, k, n) && es[k].stamp > until
  {
    if j > i + 1 {
      HeldOrTakenLate(t, es, i, j - 1, n);
      assert !(AcquiredAt(t, es, j - 1, n) && SameSession(es[j - 1].op.who, es[i].op.who))
             && !(ReleasedAt(t, es, j - 1, n) && SameSession(es[j - 1].op.who, es[i].op.who));
    }
  }

  /**
   Lock exclusion over whole runs: after a session acquired the lock until `until`, and unless it
   released it or acquired it again, nobody else acquires it in a statement that commits by then.
   An extension by the holder and a release by somebody else do not weaken this.
   */
  lemma LockExclusion(t: Table, es: seq<Event>, i: nat, j: nat, n: Name)
    requires IsRun(es) && i < j < |es|
    requires AcquiredAt(t, es, i, n) && AcquiredAt(t, es, j, n) && !SameSession(es[j].op.who, es[i].op.who)
    requires forall k :: i < k < j ==>
               !(AcquiredAt(t, es, k, n) && SameSession(es[k].op.who, es[i].op.who))
               && !(ReleasedAt(t, es, k, n) && SameSession(es[k].op.who, es[i].op.who))
    ensures es[j].commit > Expiry(es[i].op.ttl, es[i].stamp)
  {
    HeldOrTakenLate(t, es, i, j, n);
    var until := Expiry(es[i].op.ttl, es[i].stamp);
    if exists k :: i < k < j && AcquiredAt(t, es, k, n) && es[k].stamp > until {
      var k :| i < k < j && AcquiredAt(t, es, k, n) && es[k].stamp > until;
      CommitOrder(es, k, j);
    }
  }


  // ------------------------------------------------------------ in seconds and columns --

  /** Who gets a lock: anybody one that is free or has expired, and its own session always. */
  lemma {:induction false} AcquiresInColumns(t: Table, who: Auth, name: string, now: Instant)
    ensures var n := Name(who.team, name);
            MayAcquire(t, n, who, now) <==>
              || n !in t || t[n].expiresAt < now
              || (t[n].holder == who.agent
                  && (t[n].session == Some(who.session) || (t[n].session == None && who.session == "")))
  {}

  /**
   The row it gets: five minutes if nothing was asked for, else what was asked for between five
   seconds and a day; held since now, or since it was first acquired if it was its own already. A
   purpose that is left out is that of the row before, whoever wrote it.
   */
  lemma {:induction false} LocksInSeconds(
    t: Table, who: Auth, name: string, ttl: Option<int>, purpose: Option<string>, now: Instant)
    requires MayAcquire(t, Name(who.team, name), who, now)
    ensures var n, q := Name(who.team, name), Apply(t, Acquire(who, name, ttl, purpose), now);
            && q.Keys == t.Keys + {n} && (forall o :: o in t && o != n ==> q[o] == t[o])
            && q[n].holder == who.agent && q[n].session == Some(who.session)
            && q[n].purpose == (if purpose.Some? then purpose else if n in t then t[n].purpose else None)
            && q[n].acquiredAt == (if n in t && MayRelease(t, n, who) then t[n].acquiredAt else now)
            && match ttl
               case None => q[n].expiresAt == now + 300_000_000
               case Some(s) =>
                 && (s < 5 ==> q[n].expiresAt == now + 5_000_000)
                 && (5 <= s <= 86_400 ==> q[n].expiresAt == now + s * 1_000_000)
                 && (s > 86_400 ==> q[n].expiresAt == now + 86_400_000_000)
  {}

  /** A release takes the row of the session that holds it, expired or not, and no other. */
  lemma {:induction false} ReleasesInColumns(t: Table, who: Auth, name: string, now: Instant)
    ensures var n, q := Name(who.team, name), Apply(t, Release(who, name), now);
            if n in t && t[n].holder == who.agent
               && (t[n].session == Some(who.session) || (t[n].session == None && who.session == ""))
            then q.Keys == t.Keys - {n} && forall o :: o in q ==> q[o] == t[o]
            else q == t
  {}

  /** list_locks shows what has time left, and names are at most 128 long. */
  lemma ListingInColumns(t: Table, n: Name, now: Instant, raw: string)
    ensures Listed(t, n, now) <==> n in t && now < t[n].expiresAt
    ensures NormalizeName(raw) == if 1 <= |Trim(raw)| <= 128 then Ok(Lower(Trim(raw))) else Err(Invalid)
  {}

  /** What the first statement of acquire_lock and of release_lock is told, and what it leaves. */
  lemma {:induction false} TriedInColumns(
    t: Table, q: Table, who: Auth, name: string, ttl: Option<int>, purpose: Option<string>, now: Instant, done: bool)
    ensures var n := Name(who.team, name);
            AcquireTried(t, q, who, name, ttl, purpose, now, done) ==>
              && (done <==> MayAcquire(t, n, who, now)) && (!done ==> q == t)
              && (done ==> n in q && q[n].holder == who.agent && q[n].session == Some(who.session)
                           && q[n].expiresAt >= now + 5_000_000
                           && forall o :: o in t && o != n ==> o in q && q[o] == t[o])
    ensures var n := Name(who.team, name);
            ReleaseTried(t, q, who, name, done) ==>
              && (done <==> n in t && OwnedBy(t[n], who)) && (!done ==> q == t)
              && (done ==> n !in q && forall o :: o in t && o != n ==> o in q && q[o] == t[o])
  {
    if ReleaseTried(t, q, who, name, done) {
      assert q == Apply(t, Release(who, name), now);
    }
  }

  /** The events of a run that acquire or release a lock are those that write its row, and nothing else does. */
  lemma {:induction false} EventsWriteTheRow(t: Table, es: seq<Event>, k: nat, n: Name)
    requires k < |es|
    ensures AcquiredAt(t, es, k, n) ==>
              n in At(t, es, k + 1) && OwnedBy(At(t, es, k + 1)[n], es[k].op.who)
              && At(t, es, k + 1)[n].expiresAt >= es[k].stamp + 5_000_000
    ensures ReleasedAt(t, es, k, n) <==> n in At(t, es, k) && n !in At(t, es, k + 1)
    ensures !AcquiredAt(t, es, k, n) && !ReleasedAt(t, es, k, n) ==>
              RowAt(At(t, es, k + 1), n) == RowAt(At(t, es, k), n)
  {}

  /** A run grows by statements that commit after those before, and not before their own `now()`. */
  lemma {:induction false} RunsGrow(es: seq<Event>, e: Event)
    ensures IsRun([])
    ensures IsRun(es + [e]) <==> IsRun(es) && e.stamp <= e.commit && (es != [] ==> es[|es| - 1].commit <= e.commit)
  {
    var more := es + [e];
    assert forall k :: 0 <= k < |es| ==> more[k] == es[k];
    assert more[|es|] == e;
    if IsRun(more) {
      forall k | 0 <= k < |es| ensures es[k].stamp <= es[k].commit {
        assert more[k].stamp <= more[k].commit;
      }
      forall k | 0 < k < |es| ensures es[k - 1].commit <= es[k].commit {
        assert more[k - 1].commit <= more[k].commit;
      }
    }
  }
}
