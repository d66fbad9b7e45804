/**
 The task operations as the server performs them, on the mutable tables. Each method is tied to
 the steps of `Tasks.Apply`, so the theorems of `TaskRuns` are about what these methods do.
 */
module TaskStores {
  import opened Base
  import opened Text
  import opened Tasks
  import opened TaskRuns

  function NormalizeKey(raw: string): (r: Result<string>)
    ensures r.Ok? ==> Trimmed(r.value) && 0 < |r.value| <= MAX_KEY_BYTES
    ensures r.Err? ==> r == Err(Invalid)
    ensures Trimmed(raw) && 0 < |raw| <= MAX_KEY_BYTES ==> r == Ok(raw)
  {
    var key := Trim(raw);
    if key == "" || |key| > MAX_KEY_BYTES then Err(Invalid) else Ok(key)
  }

  /** What create_task is asked to store; of the metadata only the size matters here. */
  datatype CreateInput = CreateInput(
    key: string, title: string, description: Option<string>, metadataBytes: nat, dependsOn: seq<string>)

  /** The fields that are checked one by one before anything is looked up. */
  predicate GoodFields(input: CreateInput) {
    && NormalizeKey(input.key).Ok?
    && CheckText(input.title, MAX_TITLE_BYTES).Ok? && CheckText(input.title, MAX_TITLE_BYTES).value != ""
    && (input.description.Some? ==> CheckText(input.description.value, MAX_DESCRIPTION_BYTES).Ok?)
    && input.metadataBytes <= MAX_METADATA_BYTES
  }

  /** The optional result of a completion, trimmed and not too long. */
  function CheckedResult(raw: Option<string>): (r: Result<Option<string>>)
    ensures r.Ok? <==> raw.None? || |raw.value| <= MAX_RESULT_BYTES
    ensures r.Ok? ==> (r.value.None? <==> raw.None?) && (r.value.Some? ==> Trimmed(r.value.value))
    ensures r.Err? ==> r == Err(Invalid)
  {
    if raw.None? then Ok(None)
    else
      match CheckText(raw.value, MAX_RESULT_BYTES)
      case Err(e) => Err(e)
      case Ok(text) => Ok(Some(text))
  }

  /** What is wrong with one entry of `depends_on`, if anything. */
  function DepProblem(tasks: map<Ref, Task>, self: Ref, raw: string): Option<Error> {
    match NormalizeKey(raw)
    case Err(e) => Some(e)
    case Ok(key) =>
      if key == self.key then Some(Invalid)
      else if Ref(self.team, key) !in tasks then Some(NotFound)
      else None
  }

  function DepRef(self: Ref, raw: string): Ref {
    Ref(self.team, Trim(raw))
  }

  function DepRefs(self: Ref, raws: seq<string>): set<Ref> {
    set raw | raw in raws :: DepRef(self, raw)
  }

  /** The tables after a successful create_task. */
  predicate Created(p: Pool, q: Pool, r: Ref, dependsOn: set<Ref>, now: Instant) {
    && q.tasks == p.tasks[r := FreshTask(now, |p.tasks|)]
    && RowsOf(q.deps, r) == dependsOn && RowsOf(q.unwritten, r) == {}
    && (forall x :: x in p.tasks ==>
          RowsOf(q.deps, x) == RowsOf(p.deps, x) && RowsOf(q.unwritten, x) == RowsOf(p.unwritten, x))
  }

  /** The entry of `depends_on` that decides the error: the first one that has a problem. */
  ghost predicate FirstBadDep(tasks: map<Ref, Task>, self: Ref, raws: seq<string>, e: Error) {
    exists i :: 0 <= i < |raws| && DepProblem(tasks, self, raws[i]) == Some(e) && GoodBefore(tasks, self, raws, i)
  }

  /** The first `n` entries are fine. */
  predicate GoodBefore(tasks: map<Ref, Task>, self: Ref, raws: seq<string>, n: int) {
    forall k :: 0 <= k < n && k < |raws| ==> DepProblem(tasks, self, raws[k]) == None
  }

  /** `dep` is what a good entry resolves to: an existing row of this team. */
  ghost predicate ResolvesTo(tasks: map<Ref, Task>, self: Ref, raw: string, dep: Ref) {
    DepProblem(tasks, self, raw) == None && dep == DepRef(self, raw) && dep in tasks
  }

  ghost predicate Resolved(tasks: map<Ref, Task>, self: Ref, raws: seq<string>, deps: seq<Ref>) {
    |deps| <= |raws| && forall k :: 0 <= k < |deps| ==> ResolvesTo(tasks, self, raws[k], deps[k])
  }

  lemma {:induction false} ResolvedIsGood(tasks: map<Ref, Task>, self: Ref, raws: seq<string>, deps: seq<Ref>)
    requires Resolved(tasks, self, raws, deps)
    ensures GoodBefore(tasks, self, raws, |deps|)
  {
    forall k | 0 <= k < |deps| ensures DepProblem(tasks, self, raws[k]) == None {
      assert ResolvesTo(tasks, self, raws[k], deps[k]);
    }
  }

  lemma {:induction false} OneMoreResolved(
    tasks: map<Ref, Task>, self: Ref, raws: seq<string>, deps: seq<Ref>, dep: Ref)
    requires Resolved(tasks, self, raws, deps) && |deps| < |raws| && ResolvesTo(tasks, self, raws[|deps|], dep)
    ensures Resolved(tasks, self, raws, deps + [dep])
  {
    var more := deps + [dep];
    forall k | 0 <= k < |more| ensures ResolvesTo(tasks, self, raws[k], more[k]) {
      assert more[k] == if k < |deps| then deps[k] else dep;
    }
  }

  lemma {:induction false} BadDepEnds(tasks: map<Ref, Task>, self: Ref, raws: seq<string>, deps: seq<Ref>, e: Error)
    requires Resolved(tasks, self, raws, deps) && |deps| < |raws| && DepProblem(tasks, self, raws[|deps|]) == Some(e)
    ensures !GoodBefore(tasks, self, raws, |raws|) && FirstBadDep(tasks, self, raws, e)
  {
    ResolvedIsGood(tasks, self, raws, deps);
  }

  /** create_task's verdict: success exactly when nothing is wrong, and otherwise the first thing wrong. */
  ghost predicate MayAnswerCreate(p: Pool, who: Auth, input: CreateInput, r: Result<Ref>) {
    if !GoodFields(input) then r == Err(Invalid)
    else
      var self := Ref(who.team, NormalizeKey(input.key).value);
      if self in p.tasks then r == Err(Conflict)
      else if |input.dependsOn| > MAX_DEPENDENCIES then r == Err(Invalid)
      else if GoodBefore(p.tasks, self, input.dependsOn, |input.dependsOn|) then r == Ok(self)
      else r.Err? && FirstBadDep(p.tasks, self, input.dependsOn, r.error)
  }

  /** Why a claim was refused. */
  datatype Refusal =
    | BlockedBy(dependencies: set<Ref>)
    | HeldUntil(holder: Option<AgentId>, session: string, ownOtherSession: bool, until: Option<Instant>)
    | TaskIs(status: Status)

  datatype ClaimResult = ClaimResult(claimed: bool, task: Task, reason: Option<Refusal>)

  /** The match in claim_task and holder_reason, on a task row read back after a refusal. */
  function Explain(p: Pool, who: Auth, r: Ref): Refusal
    requires r in p.tasks
  {
    var t := p.tasks[r];
    if Blocked(p, r) then BlockedBy(RowsOf(p.deps, r))
    else if t.status == Claimed then
      HeldUntil(t.claimedBy, SharedIfNull(t.claimedSession),
                t.claimedBy == Some(who.agent) && SharedIfNull(t.claimedSession) != who.session, t.lease)
    else TaskIs(t.status)
  }

  /**
   What an explanation should be, told at a `now()`: unfinished dependencies, or another session whose
   lease is still running, or a finished task. So never "held by" of an expired lease or of the
   caller itself, and never "open".
   */
  ghost predicate Honest(p: Pool, who: Auth, r: Ref, now: Instant, why: Refusal) {
    match why
    case BlockedBy(ds) => ds == RowsOf(p.deps, r) && exists d :: d in ds && !IsFinished(p, d)
    case HeldUntil(Some(a), s, own, Some(until)) =>
      && !SameSession(who, Auth(who.team, a, s)) && until >= now && own == (a == who.agent)
      && Holds(p, r, Auth(r.team, a, s), until)
    case HeldUntil(_, _, _, _) => false
    case TaskIs(s) => s == Done || s == Cancelled
  }

  /**
   The UPDATE of a claim and the query that explains its refusal are two statements. The explanation
   is honest if and only if the state it is read from would have refused the claim as well.
   */
  lemma {:induction false} RefusalsAreHonest(q: Pool, who: Auth, r: Ref, now: Instant)
    requires Inv(q) && r in q.tasks
    ensures Honest(q, who, r, now, Explain(q, who, r)) <==> !Claimable(q, who, r, now)
  {
    if Blocked(q, r) {
      var d :| d in RowsOf(q.deps, r) && d in q.tasks && !Finished(q.tasks[d]);
      assert !IsFinished(q, d);
    }
  }

  /** The row alone keeps `who` from claiming it at `now`: finished, or another session's with a running lease. */
  predicate KeptFrom(t: Task, who: Auth, now: Instant) {
    Finished(t) || (t.status == Claimed && !HeldBy(t, who) && t.lease.Some? && t.lease.value >= now)
  }

  /**
   If in between nobody wrote the row, it is honest exactly when the task is blocked by then, or
   finished, or its lease still runs at the `now()` of the second statement.
   */
  lemma {:induction false} UntouchedRefusalsAreHonest(
    p: Pool, es: seq<Event>, who: Auth, r: Ref, now: Instant, later: Instant)
    requires Inv(p) && IsRun(p, es) && r in p.tasks && !Claimable(p, who, r, now) && now <= later
    requires var q := After(p, es); r in q.tasks && q.tasks[r] == p.tasks[r]
    ensures var q := After(p, es);
            Honest(q, who, r, later, Explain(q, who, r)) <==> Blocked(q, r) || KeptFrom(p.tasks[r], who, later)
  {
    RunKeepsInv(p, es);
    RefusalsAreHonest(After(p, es), who, r, later);
  }

  /**
   The lease may run out between the two clocks: then the refused caller is told of a holder whose
   lease is over, although it could have claimed the task at that very `now()`.
   */
  lemma {:induction false} LapsedMeanwhile(p: Pool, who: Auth, r: Ref, now: Instant, later: Instant)
    requires Inv(p) && r in p.tasks && !Claimable(p, who, r, now) && !Blocked(p, r)
    requires p.tasks[r].status == Claimed && p.tasks[r].lease.Some? && now <= p.tasks[r].lease.value < later
    ensures Explain(p, who, r).HeldUntil? && Explain(p, who, r).until == p.tasks[r].lease
    ensures !Honest(p, who, r, later, Explain(p, who, r)) && Claimable(p, who, r, later)
  {
    RefusalsAreHonest(p, who, r, later);
  }

  /** If the holder releases the task in between, the refused caller is told that it is open. */
  lemma {:induction false} ReleasedMeanwhile(p: Pool, who: Auth, holder: Auth, key: string, now: Instant, e: Event)
    requires var r := Ref(who.team, key);
             && Inv(p) && r in p.tasks && !Claimable(p, who, r, now) && !Blocked(p, r)
             && p.tasks[r].status == Claimed && HeldBy(p.tasks[r], holder) && holder.team == who.team
    requires e.op == Release(holder, key) && e.stamp <= e.commit
    ensures var r := Ref(who.team, key);
            IsRun(p, [e]) && r in After(p, [e]).tasks && Explain(After(p, [e]), who, r) == TaskIs(Open)
  {
    RunsCompose(p, [], e);
    assert [] + [e] == [e];
    InvIsKept(p, e.op, e.stamp);
    assert forall d :: d in RowsOf(p.deps, Ref(who.team, key)) ==> PointsBack(p, Ref(who.team, key), d);
  }

  /**
   If another call of the same session gets the lapsed task in between, the caller is told that it is held by
   itself.
   */
  lemma {:induction false} ClaimedByItselfMeanwhile(
    p: Pool, who: Auth, key: string, now: Instant, secs: Option<int>, e: Event)
    requires var r := Ref(who.team, key);
             && Inv(p) && r in p.tasks && !Claimable(p, who, r, now) && Claimable(p, who, r, e.stamp)
    requires e.op == Claim(who, key, secs) && e.stamp <= e.commit
    ensures var r := Ref(who.team, key);
            && IsRun(p, [e]) && r in After(p, [e]).tasks
            && Explain(After(p, [e]), who, r) ==
              HeldUntil(Some(who.agent), who.session, false, Some(LeaseEnd(secs, e.stamp)))
  {
    RunsCompose(p, [], e);
    assert [] + [e] == [e];
    InvIsKept(p, e.op, e.stamp);
    assert forall d :: d in RowsOf(p.deps, Ref(who.team, key)) ==> PointsBack(p, Ref(who.team, key), d);
  }

  lemma {:induction false} RunsCompose(p: Pool, es: seq<Event>, e: Event)
    requires IsRun(p, es) && Enabled(After(p, es), e.op, e.stamp) && e.stamp <= e.commit
    requires es != [] ==> es[|es| - 1].commit <= e.commit
    ensures IsRun(p, es + [e]) && After(p, es + [e]) == Apply(After(p, es), e.op, e.stamp)
    decreases |es|
  {
    if es == [] {
      OneMore(p, e, []);
      assert es + [e] == [e] + [];
    } else {
      var q := Apply(p, es[0].op, es[0].stamp);
      RunsCompose(q, es[1..], e);
      assert (es + [e])[1..] == es[1..] + [e];
    }
  }

  // ------------------------------------------------------- what each call leaves and answers --

  ghost predicate ClaimTried(p: Pool, q: Pool, who: Auth, key: string, secs: Option<int>, now: Instant, claimed: bool) {
    && q == Apply(p, Claim(who, key, secs), now)
    && (claimed <==> Granted(p, Claim(who, key, secs), now).Some?)
    && (claimed ==> Holds(q, Ref(who.team, key), who, LeaseEnd(secs, now)))
    && (!claimed ==> q == p)
  }

  ghost predicate RenewAnswered(
    p: Pool, q: Pool, who: Auth, key: string, secs: Option<int>, now: Instant, r: Result<Task>)
  {
    var t := Ref(who.team, key);
    && q == Apply(p, Renew(who, key, secs), now)
    && (r.Ok? <==> t in p.tasks && p.tasks[t].status == Claimed && HeldBy(p.tasks[t], who))
    && (r.Ok? ==> && t in q.tasks && r.value == q.tasks[t] && Holds(q, t, who, LeaseEnd(secs, now))
                  && q.tasks[t].claimedAt == p.tasks[t].claimedAt)
    && (r.Err? ==> r == Err(Conflict) && q == p)
  }

  ghost predicate ReleaseAnswered(p: Pool, q: Pool, who: Auth, key: string, now: Instant, r: Result<Task>) {
    var t := Ref(who.team, key);
    && q == Apply(p, Release(who, key), now)
    && (r.Ok? <==> t in p.tasks && p.tasks[t].status == Claimed && HeldBy(p.tasks[t], who))
    && (r.Ok? ==> && t in q.tasks && r.value == q.tasks[t] && q.tasks[t].status == Open && q.tasks[t].lease == None
                  && q.tasks[t].claimedBy == None && q.tasks[t].claimedSession == None)
    && (r.Err? ==> r == Err(Conflict) && q == p)
  }

  ghost predicate CompleteAnswered(
    p: Pool, q: Pool, who: Auth, key: string, result: Option<string>, now: Instant, r: Result<Task>)
  {
    var t := Ref(who.team, key);
    && q == Apply(p, Complete(who, key, result), now)
    && (r.Ok? <==> t in p.tasks && !Finished(p.tasks[t]))
    && (r.Ok? ==> && t in q.tasks && r.value == q.tasks[t] && q.tasks[t].status == Done && q.tasks[t].result == result
                  && q.tasks[t].claimedBy == p.tasks[t].claimedBy)
    && (r.Err? ==> r == Err(if t in p.tasks then Conflict else NotFound) && q == p)
  }

  class TaskStore {
    var tasks: map<Ref, Task>
    var deps: map<Ref, set<Ref>>
    /** Rows other create_task calls have announced but not inserted yet. */
    ghost var unwritten: map<Ref, set<Ref>>

    ghost function View(): Pool
      reads this
    {
      Pool(tasks, deps, unwritten)
    }

    ghost predicate Valid()
      reads this
    {
      Inv(View())
    }

    constructor ()
      ensures Valid() && View() == EMPTY_POOL
    {
      tasks, deps, unwritten := map[], map[], map[];
    }

    /**
     Validate, resolve every dependency before inserting anything, then insert the task and its
     dependency rows one by one. `trace` are the statements this call committed.
     */
    method CreateTask(who: Auth, input: CreateInput, now: Instant)
      returns (r: Result<Ref>, ghost trace: seq<Event>)
      requires Valid()
      modifies this
      ensures Valid()
      ensures IsRun(old(View()), trace) && After(old(View()), trace) == View()
      ensures MayAnswerCreate(old(View()), who, input, r)
      ensures r.Ok? ==>
        && Created(old(View()), View(), r.value, DepRefs(r.value, input.dependsOn), now)
        && |trace| == 1 + |DepRefs(r.value, input.dependsOn)|
      ensures r.Err? ==> View() == old(View()) && trace == []
    {
      var checked, distinct := CheckCreate(who, input);
      if checked.Err? { return checked, []; }
      trace := InsertAll(who, checked.value.key, distinct, now);
      r := checked;
    }

    /** The reading half of create_task: every check, and the dependency ids without duplicates. */
    method CheckCreate(who: Auth, input: CreateInput) returns (r: Result<Ref>, distinct: seq<Ref>)
      ensures MayAnswerCreate(View(), who, input, r)
      ensures r.Ok? ==>
        && r.value.team == who.team && r.value !in tasks
        && (set d | d in distinct) == DepRefs(r.value, input.dependsOn)
        && |distinct| == |DepRefs(r.value, input.dependsOn)|
        && (forall i, j :: 0 <= i < j < |distinct| ==> distinct[i] != distinct[j])
        && forall d :: d in distinct ==> d in tasks && d.team == who.team
    {
      var key := CheckFields(input);
      if key.Err? { return Err(key.error), []; }
      var self := Ref(who.team, key.value);
      if self in tasks { return Err(Conflict), []; }
      if |input.dependsOn| > MAX_DEPENDENCIES { return Err(Invalid), []; }
      var resolved := ResolveDeps(self, input.dependsOn);
      if resolved.Err? { return Err(resolved.error), []; }
      distinct := Dedup(resolved.value);
      SameSets(tasks, distinct, resolved.value, self, input.dependsOn);
      r := Ok(self);
    }

    static method CheckFields(input: CreateInput) returns (key: Result<string>)
      ensures key == if GoodFields(input) then NormalizeKey(input.key) else Err(Invalid)
    {
      key := NormalizeKey(input.key);
      if key.Err? { return; }
      var title := CheckText(input.title, MAX_TITLE_BYTES);
      if title.Err? || title.value == "" { return Err(Invalid); }
      if input.description.Some? {
        var description := CheckText(input.description.value, MAX_DESCRIPTION_BYTES);
        if description.Err? { return Err(Invalid); }
      }
      if input.metadataBytes > MAX_METADATA_BYTES { return Err(Invalid); }
    }

    /** The writing half of create_task. */
    method InsertAll(who: Auth, key: string, distinct: seq<Ref>, now: Instant) returns (ghost trace: seq<Event>)
      requires Valid() && Ref(who.team, key) !in tasks
      requires forall i, j :: 0 <= i < j < |distinct| ==> distinct[i] != distinct[j]
      requires forall d :: d in distinct ==> d in tasks && d.team == who.team
      modifies this
      ensures Valid()
      ensures Created(old(View()), View(), Ref(who.team, key), (set d | d in distinct), now)
      ensures IsRun(old(View()), trace) && After(old(View()), trace) == View() && |trace| == 1 + |distinct|
    {
      var self := Ref(who.team, key);
      ghost var e := Event(InsertTask(who, key, (set d | d in distinct)), now, now);
      RunsCompose(View(), [], e);
      assert [] + [e] == [e];
      AbsentTasksHaveNoRows(View(), self);
      tasks := tasks[self := FreshTask(now, |tasks|)];
      unwritten := unwritten[self := set d | d in distinct];
      trace := InsertDeps(self, distinct, now, old(View()), [e]);
      RunKeepsInv(old(View()), trace);
    }

    /** One entry of `depends_on`: a key of this team, other than the new task's own. */
    method ResolveDep(self: Ref, raw: string) returns (r: Result<Ref>)
      ensures r.Err? ==> DepProblem(tasks, self, raw) == Some(r.error)
      ensures r.Ok? ==> ResolvesTo(tasks, self, raw, r.value)
    {
      var depKey := NormalizeKey(raw);
      if depKey.Err? { return Err(depKey.error); }
      if depKey.value == self.key { return Err(Invalid); }
      var dep := Ref(self.team, depKey.value);
      if dep !in tasks { return Err(NotFound); }
      r := Ok(dep);
    }

    /** The first loop of create_task: nothing is written, and the first bad entry decides the error. */
    method ResolveDeps(self: Ref, dependsOn: seq<string>) returns (r: Result<seq<Ref>>)
      ensures r.Ok? ==> |r.value| == |dependsOn| && Resolved(tasks, self, dependsOn, r.value)
      ensures r.Ok? ==> GoodBefore(tasks, self, dependsOn, |dependsOn|)
      ensures r.Err? ==>
        !GoodBefore(tasks, self, dependsOn, |dependsOn|) && FirstBadDep(tasks, self, dependsOn, r.error)
    {
      var depIds: seq<Ref> := [];
      for i := 0 to |dependsOn|
        invariant |depIds| == i && Resolved(tasks, self, dependsOn, depIds)
      {
        var dep := ResolveDep(self, dependsOn[i]);
        if dep.Err? {
          BadDepEnds(tasks, self, dependsOn, depIds, dep.error);
          return Err(dep.error);
        }
        OneMoreResolved(tasks, self, dependsOn, depIds, dep.value);
        depIds := depIds + [dep.value];
      }
      ResolvedIsGood(tasks, self, dependsOn, depIds);
      r := Ok(depIds);
    }

    /** The second loop of create_task: one INSERT per dependency row, each a statement of its own. */
    method InsertDeps(self: Ref, distinct: seq<Ref>, now: Instant, ghost p: Pool, ghost before: seq<Event>)
      returns (ghost trace: seq<Event>)
      requires forall i, j :: 0 <= i < j < |distinct| ==> distinct[i] != distinct[j]
      requires RowsOf(deps, self) == {} && RowsOf(unwritten, self) == set d | d in distinct
      requires before != [] && before[|before| - 1].commit == now && IsRun(p, before) && After(p, before) == View()
      modifies this`deps, this`unwritten
      ensures RowsOf(deps, self) == (set d | d in distinct) && RowsOf(unwritten, self) == {}
      ensures forall x :: x != self ==>
        RowsOf(deps, x) == RowsOf(old(deps), x) && RowsOf(unwritten, x) == RowsOf(old(unwritten), x)
      ensures IsRun(p, trace) && After(p, trace) == View() && |trace| == |before| + |distinct|
    {
      trace := before;
      for i := 0 to |distinct|
        invariant forall d :: d in RowsOf(deps, self) <==> d in distinct[..i]
        invariant RowsOf(unwritten, self) == old(RowsOf(unwritten, self)) - RowsOf(deps, self)
        invariant forall x :: x != self ==>
          RowsOf(deps, x) == RowsOf(old(deps), x) && RowsOf(unwritten, x) == RowsOf(old(unwritten), x)
        invariant IsRun(p, trace) && After(p, trace) == View()
        invariant |trace| == |before| + i && trace[|trace| - 1].commit == now
      {
        var d := distinct[i];
        ghost var e := Event(InsertDep(self, d), now, now);
        RunsCompose(p, trace, e);
        assert distinct[..i + 1] == distinct[..i] + [d];
        deps := deps[self := RowsOf(deps, self) + {d}];
        unwritten := unwritten[self := RowsOf(unwritten, self) - {d}];
        trace := trace + [e];
      }
      assert distinct[..|distinct|] == distinct;
    }

    /** claim_task up to its UPDATE: open, expired, or already this session's, and not blocked. */
    method TryClaim(who: Auth, rawKey: string, secs: Option<int>, now: Instant) returns (r: Result<bool>)
      requires Valid()
      modifies this`tasks
      ensures Valid()
      ensures match NormalizeKey(rawKey)
              case Err(e) => r == Err(e) && View() == old(View())
              case Ok(key) => r.Ok? && ClaimTried(old(View()), View(), who, key, secs, now, r.value)
    {
      var key := NormalizeKey(rawKey);
      if key.Err? { return Err(key.error); }
      var claimed := ClaimByKey(who, key.value, secs, now);
      r := Ok(claimed);
    }

    method ClaimByKey(who: Auth, key: string, secs: Option<int>, now: Instant) returns (claimed: bool)
      requires Valid()
      modifies this`tasks
      ensures Valid()
      ensures ClaimTried(old(View()), View(), who, key, secs, now, claimed)
    {
      var t := Ref(who.team, key);
      claimed := Claimable(Pool(tasks, deps, map[]), who, t, now);
      if claimed {
        InvIsKept(View(), Claim(who, key, secs), now);
        tasks := tasks[t := Taken(tasks[t], who, secs, now)];
        assert View() == Apply(old(View()), Claim(who, key, secs), now);
      }
    }

    /**
     The rest of claim_task: the row is read again, by then perhaps written by others, to tell the
     caller. The explanation of a refusal is honest exactly if the row would be refused as well.
     */
    method AnswerClaim(who: Auth, key: string, claimed: bool) returns (r: Result<ClaimResult>)
      requires Valid()
      ensures var t := Ref(who.team, key);
              if t !in tasks then r == Err(NotFound)
              else
                && r.Ok? && r.value.claimed == claimed && r.value.task == tasks[t]
                && (r.value.reason == None <==> claimed)
      ensures var t := Ref(who.team, key);
              t in tasks && !claimed ==>
                forall now ::
                  Honest(View(), who, t, now, r.value.reason.value) <==> !Claimable(View(), who, t, now)
      ensures var t := Ref(who.team, key);
              t in tasks && !claimed ==> r.value.reason.value == Explain(View(), who, t)
    {
      var t := Ref(who.team, key);
      if t !in tasks { return Err(NotFound); }
      var reason := if claimed then None else Some(Explain(Pool(tasks, deps, map[]), who, t));
      r := Ok(ClaimResult(claimed, tasks[t], reason));
      forall now ensures Honest(View(), who, t, now, Explain(View(), who, t)) <==> !Claimable(View(), who, t, now) {
        RefusalsAreHonest(View(), who, t, now);
      }
    }

    /** Claim an oldest available task; which one, among equally old ones, is the database's choice. */
    method ClaimNextTask(who: Auth, secs: Option<int>, now: Instant) returns (picked: Option<Ref>)
      requires Valid()
      modifies this`tasks
      ensures Valid()
      ensures MayPick(old(View()), who.team, now, picked)
      ensures View() == Apply(old(View()), ClaimNext(who, secs, picked), now)
      ensures picked.Some? ==> Holds(View(), picked.value, who, LeaseEnd(secs, now))
    {
      var candidates := set r | r in tasks && UpForGrabs(Pool(tasks, deps, map[]), who.team, r, now);
      assert forall r :: r in candidates <==> r in tasks && UpForGrabs(View(), who.team, r, now);
      if candidates == {} { return None; }
      OldestExists(tasks, candidates);
      var r :| r in candidates && forall o :: o in candidates ==> tasks[r].createdAt <= tasks[o].createdAt;
      picked := Some(r);
      InvIsKept(View(), ClaimNext(who, secs, picked), now);
      tasks := tasks[r := Taken(tasks[r], who, secs, now)];
    }

    method RenewLease(who: Auth, rawKey: string, secs: Option<int>, now: Instant) returns (r: Result<Task>)
      requires Valid()
      modifies this`tasks
      ensures Valid()
      ensures match NormalizeKey(rawKey)
              case Err(e) => r == Err(e) && View() == old(View())
              case Ok(key) => RenewAnswered(old(View()), View(), who, key, secs, now, r)
    {
      var key := NormalizeKey(rawKey);
      if key.Err? { return Err(key.error); }
      r := RenewByKey(who, key.value, secs, now);
    }

    method RenewByKey(who: Auth, key: string, secs: Option<int>, now: Instant) returns (r: Result<Task>)
      requires Valid()
      modifies this`tasks
      ensures Valid()
      ensures RenewAnswered(old(View()), View(), who, key, secs, now, r)
    {
      var t := Ref(who.team, key);
      if t !in tasks || tasks[t].status != Claimed || !HeldBy(tasks[t], who) { return Err(Conflict); }
      InvIsKept(View(), Renew(who, key, secs), now);
      tasks := tasks[t := tasks[t].(lease := Some(LeaseEnd(secs, now)), updatedAt := now)];
      assert View() == Apply(old(View()), Renew(who, key, secs), now);
      r := Ok(tasks[t]);
    }

    method ReleaseTask(who: Auth, rawKey: string, now: Instant) returns (r: Result<Task>)
      requires Valid()
      modifies this`tasks
      ensures Valid()
      ensures match NormalizeKey(rawKey)
              case Err(e) => r == Err(e) && View() == old(View())
              case Ok(key) => ReleaseAnswered(old(View()), View(), who, key, now, r)
    {
      var key := NormalizeKey(rawKey);
      if key.Err? { return Err(key.error); }
      r := ReleaseByKey(who, key.value, now);
    }

    method ReleaseByKey(who: Auth, key: string, now: Instant) returns (r: Result<Task>)
      requires Valid()
      modifies this`tasks
      ensures Valid()
      ensures ReleaseAnswered(old(View()), View(), who, key, now, r)
    {
      var t := Ref(who.team, key);
      if t !in tasks || tasks[t].status != Claimed || !HeldBy(tasks[t], who) { return Err(Conflict); }
      InvIsKept(View(), Release(who, key), now);
      tasks := tasks[t := Freed(tasks[t], now)];
      assert View() == Apply(old(View()), Release(who, key), now);
      r := Ok(tasks[t]);
    }

    /** Anybody in the team may complete an unfinished task: neither the holder nor the dependencies are checked. */
    method CompleteTask(who: Auth, rawKey: string, rawResult: Option<string>, now: Instant) returns (r: Result<Task>)
      requires Valid()
      modifies this`tasks
      ensures Valid()
      ensures match (NormalizeKey(rawKey), CheckedResult(rawResult))
              case (Ok(key), Ok(result)) => CompleteAnswered(old(View()), View(), who, key, result, now, r)
              case _ => r == Err(Invalid) && View() == old(View())
    {
      var key := NormalizeKey(rawKey);
      if key.Err? { return Err(key.error); }
      var result := CheckedResult(rawResult);
      if result.Err? { return Err(result.error); }
      r := CompleteByKey(who, key.value, result.value, now);
    }

    method CompleteByKey(who: Auth, key: string, result: Option<string>, now: Instant) returns (r: Result<Task>)
      requires Valid()
      modifies this`tasks
      ensures Valid()
      ensures CompleteAnswered(old(View()), View(), who, key, result, now, r)
    {
      var t := Ref(who.team, key);
      if t !in tasks { return Err(NotFound); }
      if Finished(tasks[t]) { return Err(Conflict); }
      InvIsKept(View(), Complete(who, key, result), now);
      tasks := tasks[t := tasks[t].(status := Done, result := result, lease := None, updatedAt := now)];
      assert View() == Apply(old(View()), Complete(who, key, result), now);
      r := Ok(tasks[t]);
    }
  }

  lemma {:induction false} AbsentTasksHaveNoRows(p: Pool, r: Ref)
    requires Inv(p) && r !in p.tasks
    ensures RowsOf(p.deps, r) == {} && RowsOf(p.unwritten, r) == {}
  {
    forall d ensures d !in RowsOf(p.deps, r) && d !in RowsOf(p.unwritten, r) {
      assert !PointsBack(p, r, d);
    }
  }

  lemma {:induction false} OldestExists(tasks: map<Ref, Task>, s: set<Ref>)
    requires s != {} && s <= tasks.Keys
    ensures exists r :: r in s && forall o :: o in s ==> tasks[r].createdAt <= tasks[o].createdAt
  {
    var r :| r in s;
    if s != {r} {
      OldestExists(tasks, s - {r});
      var o :| o in s - {r} && forall x :: x in s - {r} ==> tasks[o].createdAt <= tasks[x].createdAt;
      var best := if tasks[o].createdAt <= tasks[r].createdAt then o else r;
      assert forall x :: x in s ==> tasks[best].createdAt <= tasks[x].createdAt;
    }
  }

  /** `sort` then `dedup` on the resolved ids; the order of random ids carries no meaning. */
  method Dedup(s: seq<Ref>) returns (t: seq<Ref>)
    ensures forall x :: x in t <==> x in s
    ensures forall i, j :: 0 <= i < j < |t| ==> t[i] != t[j]
  {
    t := [];
    for i := 0 to |s|
      invariant forall x :: x in t <==> x in s[..i]
      invariant forall j, k :: 0 <= j < k < |t| ==> t[j] != t[k]
    {
      assert s[..i + 1] == s[..i] + [s[i]];
      if s[i] !in t { t := t + [s[i]]; }
    }
    assert s[..|s|] == s;
  }

  lemma {:induction false} SameSets(
    tasks: map<Ref, Task>, distinct: seq<Ref>, resolved: seq<Ref>, self: Ref, raws: seq<string>)
    requires forall x :: x in distinct <==> x in resolved
    requires forall i, j :: 0 <= i < j < |distinct| ==> distinct[i] != distinct[j]
    requires |resolved| == |raws| && Resolved(tasks, self, raws, resolved)
    ensures (set d | d in distinct) == DepRefs(self, raws) && |distinct| == |DepRefs(self, raws)|
    ensures forall d :: d in distinct ==> d in tasks && d.team == self.team
  {
    forall k | 0 <= k < |raws| ensures resolved[k] == DepRef(self, raws[k]) && resolved[k] in tasks {
      assert ResolvesTo(tasks, self, raws[k], resolved[k]);
    }
    forall d ensures d in distinct <==> d in DepRefs(self, raws) {
      if d in distinct {
        var k :| 0 <= k < |resolved| && resolved[k] == d;
        assert raws[k] in raws;
      }
      if d in DepRefs(self, raws) {
        var raw :| raw in raws && DepRef(self, raw) == d;
        var k :| 0 <= k < |raws| && raws[k] == raw;
        assert resolved[k] in resolved;
      }
    }
    DistinctCount(distinct);
  }

  lemma {:induction false} DistinctCount(t: seq<Ref>)
    requires forall i, j :: 0 <= i < j < |t| ==> t[i] != t[j]
    ensures |set d | d in t| == |t|
  {
    if t != [] {
      var front := t[..|t| - 1];
      DistinctCount(front);
      assert t == front + [t[|t| - 1]];
      assert (set d | d in t) == (set d | d in front) + {t[|t| - 1]};
    }
  }


  // ---------------------------------------------------------------- create_task in numbers --

  /** What create_task takes of the text fields: sizes in bytes, and blank keys and titles refused. */
  predicate FieldsInNumbers(input: CreateInput) {
    && 1 <= |Trim(input.key)| <= 128 && |input.title| <= 512 && Trim(input.title) != ""
    && (input.description.Some? ==> |input.description.value| <= 65_536) && input.metadataBytes <= 16_384
  }

  /** An entry of `depends_on` it takes: the key of another existing task of the team. */
  predicate DepInNumbers(p: Pool, who: Auth, self: string, raw: string) {
    1 <= |Trim(raw)| <= 128 && Trim(raw) != self && Ref(who.team, Trim(raw)) in p.tasks
  }

  lemma {:induction false} FieldsAreGood(input: CreateInput)
    ensures GoodFields(input) <==> FieldsInNumbers(input)
    ensures GoodFields(input) ==> NormalizeKey(input.key) == Ok(Trim(input.key))
  {}

  lemma {:induction false} DepsAreGood(p: Pool, who: Auth, self: Ref, raws: seq<string>)
    requires self.team == who.team
    ensures GoodBefore(p.tasks, self, raws, |raws|) <==>
              forall raw :: raw in raws ==> DepInNumbers(p, who, self.key, raw)
  {
    forall raw ensures DepProblem(p.tasks, self, raw) == None <==> DepInNumbers(p, who, self.key, raw) {}
  }

  /** Exactly when create_task succeeds, and which of its refusals is which. */
  lemma {:induction false} CreatesInNumbers(p: Pool, who: Auth, input: CreateInput, self: Ref, r: Result<Ref>)
    requires MayAnswerCreate(p, who, input, r) && self == Ref(who.team, Trim(input.key))
    ensures r.Ok? <==>
              && FieldsInNumbers(input) && self !in p.tasks && |input.dependsOn| <= 32
              && forall raw :: raw in input.dependsOn ==> DepInNumbers(p, who, self.key, raw)
    ensures r.Ok? ==> r.value == self
    ensures r == Err(Conflict) <==> FieldsInNumbers(input) && self in p.tasks
    ensures r == Err(NotFound) ==>
              exists raw :: raw in input.dependsOn && 1 <= |Trim(raw)| <= 128 && Ref(who.team, Trim(raw)) !in p.tasks
  {
    FieldsAreGood(input);
    DepsAreGood(p, who, self, input.dependsOn);
    if r.Err? && FirstBadDep(p.tasks, self, input.dependsOn, r.error) {
      var i := TheFirstBadEntryDecides(p, who, self, input.dependsOn, r.error);
      assert input.dependsOn[i] in input.dependsOn;
    }
  }

  lemma {:induction false} OneEntry(p: Pool, who: Auth, self: Ref, raw: string)
    requires self.team == who.team
    ensures DepProblem(p.tasks, self, raw) ==
            if DepInNumbers(p, who, self.key, raw) then None
            else Some(if 1 <= |Trim(raw)| <= 128 && Trim(raw) != self.key then NotFound else Invalid)
  {}

  /** The first entry that is refused decides the error: Invalid for a bad key or the task itself, else NotFound. */
  lemma {:induction false} TheFirstBadEntryDecides(p: Pool, who: Auth, self: Ref, raws: seq<string>, e: Error)
    returns (i: nat)
    requires self.team == who.team && FirstBadDep(p.tasks, self, raws, e)
    ensures i < |raws| && !DepInNumbers(p, who, self.key, raws[i])
    ensures forall k :: 0 <= k < i ==> DepInNumbers(p, who, self.key, raws[k])
    ensures e == if 1 <= |Trim(raws[i])| <= 128 && Trim(raws[i]) != self.key then NotFound else Invalid
  {
    i :| 0 <= i < |raws| && DepProblem(p.tasks, self, raws[i]) == Some(e) && GoodBefore(p.tasks, self, raws, i);
    OneEntry(p, who, self, raws[i]);
    forall k | 0 <= k < i ensures DepInNumbers(p, who, self.key, raws[k]) {
      OneEntry(p, who, self, raws[k]);
    }
  }

  /** The dependencies a success writes are the tasks that were named. */
  lemma {:induction false} DependenciesAreNamed(self: Ref, raws: seq<string>, d: Ref)
    ensures d in DepRefs(self, raws) <==> d.team == self.team && exists raw :: raw in raws && Trim(raw) == d.key
  {}

  /** A result of up to 64 KiB is taken. */
  lemma ResultsInNumbers(raw: Option<string>)
    ensures CheckedResult(raw) == if raw.Some? && |raw.value| > 65_536 then Err(Invalid)
                                  else Ok(if raw.Some? then Some(Trim(raw.value)) else None)
  {}

  // ------------------------------------------------------------- the answers in columns --

  /** A claim that is told it succeeded has the task, for as long as it asked within the bounds. */
  lemma {:induction false} TriedClaimsInColumns(
    p: Pool, q: Pool, who: Auth, key: string, secs: Option<int>, now: Instant, claimed: bool)
    requires ClaimTried(p, q, who, key, secs, now, claimed)
    ensures claimed <==> Claimable(p, who, Ref(who.team, key), now)
    ensures !claimed ==> q == p
    ensures var r := Ref(who.team, key);
            claimed ==>
              && r in p.tasks && OnlyWrites(p, q, r) && q.tasks[r].status == Claimed
              && q.tasks[r].claimedBy == Some(who.agent) && q.tasks[r].claimedSession == Some(who.session)
              && (forall m :: secs == Some(m) && 30 <= m <= 86_400 ==> q.tasks[r].lease == Some(now + m * 1_000_000))
  {}

  /** A renewal answers with the row as it is now: the same claim, and a lease from now on. */
  lemma {:induction false} RenewalsInColumns(
    p: Pool, q: Pool, who: Auth, key: string, secs: Option<int>, now: Instant, r: Result<Task>)
    requires RenewAnswered(p, q, who, key, secs, now, r)
    ensures r.Ok? <==> MayRenew(p, who, key)
    ensures r.Err? ==> r.error == Conflict && q == p
    ensures var t := Ref(who.team, key);
            r.Ok? ==>
              && OnlyWrites(p, q, t) && r.value == q.tasks[t] && r.value.status == Claimed
              && r.value.claimedBy == Some(who.agent) && r.value.claimedAt == p.tasks[t].claimedAt
              && (forall m :: secs == Some(m) && 30 <= m <= 86_400 ==> r.value.lease == Some(now + m * 1_000_000))
  {}

  /** A release answers with an open row that is nobody's. */
  lemma {:induction false} ReleasesInColumns(p: Pool, q: Pool, who: Auth, key: string, now: Instant, r: Result<Task>)
    requires ReleaseAnswered(p, q, who, key, now, r)
    ensures r.Ok? <==> MayRenew(p, who, key)
    ensures r.Err? ==> r.error == Conflict && q == p
    ensures var t := Ref(who.team, key);
            r.Ok? ==>
              && OnlyWrites(p, q, t) && r.value == q.tasks[t] && r.value.status == Open && r.value.lease == None
              && r.value.claimedBy == None && r.value.claimedSession == None && r.value.claimedAt == None
  {}

  /** A completion answers with the finished row, or says whether there was nothing or nothing left to finish. */
  lemma {:induction false} CompletionsInColumns(
    p: Pool, q: Pool, who: Auth, key: string, result: Option<string>, now: Instant, r: Result<Task>)
    requires CompleteAnswered(p, q, who, key, result, now, r)
    ensures r.Ok? <==> MayComplete(p, who, key)
    ensures r.Err? ==> q == p && (r.error == NotFound <==> Ref(who.team, key) !in p.tasks) && r.error != Invalid
    ensures var t := Ref(who.team, key);
            r.Ok? ==>
              && OnlyWrites(p, q, t) && r.value == q.tasks[t] && r.value.status == Done && r.value.result == result
              && r.value.lease == None && r.value.claimedBy == p.tasks[t].claimedBy
  {}

  /** A created task is open and new, has the dependencies it was given, and leaves every other task as it was. */
  lemma {:induction false} CreationsInColumns(p: Pool, q: Pool, r: Ref, dependsOn: set<Ref>, now: Instant)
    requires Created(p, q, r, dependsOn, now) && r !in p.tasks
    ensures q.tasks.Keys == p.tasks.Keys + {r} && (forall o :: o in p.tasks ==> q.tasks[o] == p.tasks[o])
    ensures q.tasks[r].status == Open && q.tasks[r].createdAt == now && q.tasks[r].claimedBy == None
    ensures RowsOf(q.deps, r) == dependsOn && RowsOf(q.unwritten, r) == {}
    ensures forall o :: o in p.tasks ==>
              RowsOf(q.deps, o) == RowsOf(p.deps, o) && RowsOf(q.unwritten, o) == RowsOf(p.unwritten, o)
  {}
}
