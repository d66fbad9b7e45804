/**
 The loops of wait_for_updates and ask_agent themselves. What the receiver yields, in order, is an
 input: events, the notice that it lagged, a closed channel, or the deadline passing.
 */
module WaitTools {
  import opened Base
  import opened Messages

  /** What the receiver yields; an event is only reported if its description could be read. */
  datatype Received = Event(event: BusEvent, described: bool) | Lagged | Closed | Deadline

  /** One reported line: an event, the generic "re-check the bus", or the backlog that was already there. */
  datatype Report = Happened(event: BusEvent) | StreamLagged | AlreadyWaiting(count: nat)

  datatype WaitResult = WaitResult(woke: bool, timedOut: bool, events: seq<Report>)

  datatype WaitArgs = WaitArgs(who: Auth, focus: Option<ChannelId>, kinds: Option<set<Kind>>)

  predicate EndsWait(r: Received, a: WaitArgs) {
    r.Event? ==> Wakes(r.event, a.who, a.focus, a.kinds) && r.described
  }

  /** What the grace window adds: the events among `rs` it does not filter out, in order. */
  function Grace(rs: seq<Received>, a: WaitArgs): seq<Report> {
    if rs == [] then []
    else
      Grace(rs[..|rs| - 1], a) +
      (var r := rs[|rs| - 1];
       if r.Event? && JoinsInGrace(r.event, a.who, a.focus, a.kinds) && r.described then [Happened(r.event)] else [])
  }

  /** Everything reported would have ended the wait on its own. */
  lemma {:induction false} GraceReportsOnlyWakes(rs: seq<Received>, a: WaitArgs)
    ensures forall x :: x in Grace(rs, a) ==>
              x.Happened? && Wakes(x.event, a.who, a.focus, a.kinds) && Event(x.event, true) in rs
  {
    if rs != [] {
      var last := rs[|rs| - 1];
      GraceReportsOnlyWakes(rs[..|rs| - 1], a);
      assert rs == rs[..|rs| - 1] + [last];
      if last.Event? { GraceIsNarrower(last.event, a.who, a.focus, a.kinds); }
    }
  }

  /** The position of the receive that ends the wait: the first that wakes, lags, closes or times out. */
  function StopAt(rs: seq<Received>, a: WaitArgs): (stop: nat)
    ensures stop <= |rs| && (stop < |rs| ==> EndsWait(rs[stop], a))
    ensures forall k :: 0 <= k < stop ==> !EndsWait(rs[k], a)
  {
    if rs == [] || EndsWait(rs[0], a) then 0 else 1 + StopAt(rs[1..], a)
  }

  /** What the grace window takes: events only, as long as they come and the window lasts. */
  function Batch(rs: seq<Received>, graceful: nat): (n: nat)
    ensures n <= graceful && n <= |rs|
    ensures forall k :: 0 <= k < n ==> rs[k].Event?
    ensures n < graceful && n < |rs| ==> !rs[n].Event?
  {
    if graceful == 0 || rs == [] || !rs[0].Event? then 0 else 1 + Batch(rs[1..], graceful - 1)
  }

  /** The two descriptions leave no choice. */
  lemma {:induction false} StopIsUnique(rs: seq<Received>, a: WaitArgs, stop: nat)
    requires stop <= |rs| && (stop < |rs| ==> EndsWait(rs[stop], a))
    requires forall k :: 0 <= k < stop ==> !EndsWait(rs[k], a)
    ensures stop == StopAt(rs, a)
  {}

  lemma {:induction false} BatchIsUnique(rs: seq<Received>, graceful: nat, n: nat)
    requires n <= graceful && n <= |rs| && (n < graceful && n < |rs| ==> !rs[n].Event?)
    requires forall k :: 0 <= k < n ==> rs[k].Event?
    ensures n == Batch(rs, graceful)
  {}

  /** What a wait without a backlog reports. */
  function Reported(rs: seq<Received>, graceful: nat, a: WaitArgs): seq<Report> {
    var stop := StopAt(rs, a);
    if stop == |rs| then []
    else
      match rs[stop]
      case Closed => []
      case Deadline => []
      case Lagged => [StreamLagged]
      case Event(e, _) => [Happened(e)] + Grace(rs[stop + 1..][..Batch(rs[stop + 1..], graceful)], a)
  }

  /**
   Wait: answer at once if something is pending, else skip events until one ends the wait, then
   collect what arrives within the grace window, `graceful` receives long unless the stream errs.
   */
  method WaitForUpdates(a: WaitArgs, pending: nat, received: seq<Received>, graceful: nat) returns (r: WaitResult)
    ensures r.events ==
            if pending > 0 &&
              Wants(a.kinds, MessageKind) then [AlreadyWaiting(pending)] else Reported(received, graceful, a)
    ensures r.woke == (r.events != []) && r.timedOut == !r.woke
  {
    if pending > 0 && Wants(a.kinds, MessageKind) {
      return WaitResult(true, false, [AlreadyWaiting(pending)]);
    }
    var events: seq<Report> := [];
    var i := 0;
    while i < |received| && events == []
      invariant 0 <= i <= |received| && events == []
      invariant forall k :: 0 <= k < i ==> !EndsWait(received[k], a)
      decreases |received| - i
    {
      match received[i] {
        case Closed => break;
        case Deadline => break;
        case Lagged => events := [StreamLagged]; break;
        case Event(e, described) =>
          if Wakes(e, a.who, a.focus, a.kinds) && described {
            events := CollectGrace(a, e, received[i + 1..], graceful);
            break;
          }
      }
      i := i + 1;
    }
    StopIsUnique(received, a, i);
    r := WaitResult(events != [], events == [], events);
  }

  method CollectGrace(a: WaitArgs, first: BusEvent, rs: seq<Received>, graceful: nat) returns (events: seq<Report>)
    ensures events == [Happened(first)] + Grace(rs[..Batch(rs, graceful)], a)
  {
    events := [Happened(first)];
    var n := 0;
    while n < graceful && n < |rs| && rs[n].Event?
      invariant 0 <= n <= graceful && n <= |rs|
      invariant forall k :: 0 <= k < n ==> rs[k].Event?
      invariant events == [Happened(first)] + Grace(rs[..n], a)
    {
      assert rs[..n + 1][..n] == rs[..n];
      if JoinsInGrace(rs[n].event, a.who, a.focus, a.kinds) && rs[n].described {
        events := events + [Happened(rs[n].event)];
      }
      n := n + 1;
    }
    BatchIsUnique(rs, graceful, n);
  }

  /** Whatever a wait reports as an event was received, in order of arrival, and would have ended it. */
  lemma {:induction false} OnlyWakesAreReported(rs: seq<Received>, graceful: nat, a: WaitArgs, x: Report)
    requires x in Reported(rs, graceful, a)
    ensures x == StreamLagged || (x.Happened? && Event(x.event, true) in rs && Wakes(x.event, a.who, a.focus, a.kinds))
    ensures x == StreamLagged ==> Lagged in rs
  {
    var stop := StopAt(rs, a);
    var rest := rs[stop + 1..];
    var batch := rest[..Batch(rest, graceful)];
    if rs[stop].Event? {
      GraceReportsOnlyWakes(batch, a);
      if x in Grace(batch, a) {
        assert Event(x.event, true) in batch;
        assert forall y :: y in batch ==> y in rs;
      } else {
        assert x == Happened(rs[stop].event) && rs[stop].described;
      }
    }
  }

  lemma {:induction false} ItStopsHere(r: Received, rest: seq<Received>, graceful: nat, a: WaitArgs)
    requires EndsWait(r, a)
    ensures Reported([r] + rest, graceful, a) != [] <==> r != Closed && r != Received.Deadline
  {
    assert ([r] + rest)[0] == r && StopAt([r] + rest, a) == 0;
  }

  lemma {:induction false} StopShifts(r: Received, rest: seq<Received>, a: WaitArgs)
    requires !EndsWait(r, a)
    ensures StopAt([r] + rest, a) == 1 + StopAt(rest, a)
  {
    assert ([r] + rest)[0] == r && ([r] + rest)[1..] == rest;
  }

  lemma {:induction false} ItGoesOn(r: Received, rest: seq<Received>, graceful: nat, a: WaitArgs)
    requires !EndsWait(r, a)
    ensures Reported([r] + rest, graceful, a) == Reported(rest, graceful, a)
  {
    StopShifts(r, rest, a);
    var stop := StopAt(rest, a);
    if stop < |rest| {
      SliceShifts(r, rest, stop);
      SliceShifts(r, rest, stop + 1);
    }
  }

  lemma {:induction false} SliceShifts(r: Received, rest: seq<Received>, k: nat)
    requires k <= |rest|
    ensures ([r] + rest)[1 + k..] == rest[k..]
    ensures k < |rest| ==> ([r] + rest)[1 + k] == rest[k]
  {}

  /**
   A change of a task, a lock or a note that comes first is what the call reports, if it is the
   team's and of a kind that was asked for; if not, it is as if it had not come.
   */
  lemma {:induction false} ChangesAreReported(a: WaitArgs, e: BusEvent, rest: seq<Received>, graceful: nat)
    requires e.kind != MessageKind && e.channel == None
    ensures if e.team == a.who.team && (a.kinds == None || e.kind in a.kinds.value)
            then Reported([Event(e, true)] + rest, graceful, a) != []
                 && Reported([Event(e, true)] + rest, graceful, a)[0] == Happened(e)
            else Reported([Event(e, true)] + rest, graceful, a) == Reported(rest, graceful, a)
  {
    ChangesWakeTheTeam(e, a.who, a.focus, a.kinds);
    var r := Event(e, true);
    if EndsWait(r, a) {
      ItStopsHere(r, rest, graceful, a);
    } else {
      ItGoesOn(r, rest, graceful, a);
    }
  }

  /** So is a message for this session; and what cannot be described is passed over. */
  lemma {:induction false} MessagesAreReported(a: WaitArgs, m: Message, rest: seq<Received>, graceful: nat)
    requires WellFormed(m)
    ensures if Wakes(EventOf(m), a.who, a.focus, a.kinds)
            then Reported([Event(EventOf(m), true)] + rest, graceful, a) != []
                 && Reported([Event(EventOf(m), true)] + rest, graceful, a)[0] == Happened(EventOf(m))
            else Reported([Event(EventOf(m), true)] + rest, graceful, a) == Reported(rest, graceful, a)
    ensures Reported([Event(EventOf(m), false)] + rest, graceful, a) == Reported(rest, graceful, a)
  {
    var r, lost := Event(EventOf(m), true), Event(EventOf(m), false);
    ItGoesOn(lost, rest, graceful, a);
    if EndsWait(r, a) {
      ItStopsHere(r, rest, graceful, a);
    } else {
      ItGoesOn(r, rest, graceful, a);
    }
  }

  /** Nothing of another team ends a wait, and nothing of it is reported. */
  lemma {:induction false} OtherTeamsAreNotReported(
    a: WaitArgs, e: BusEvent, described: bool, rest: seq<Received>, graceful: nat)
    requires e.team != a.who.team
    ensures Reported([Event(e, described)] + rest, graceful, a) == Reported(rest, graceful, a)
    ensures Happened(e) !in Reported(rest, graceful, a)
  {
    OtherTeamsNeverWake(e, a.who, a.focus, a.kinds);
    ItGoesOn(Event(e, described), rest, graceful, a);
    if Happened(e) in Reported(rest, graceful, a) {
      OnlyWakesAreReported(rest, graceful, a, Happened(e));
    }
  }

  /** The grace window reports what it takes one by one, in order: each described wake that is not the agent's own. */
  lemma {:induction false} GraceInOrder(rs: seq<Received>, r: Received, a: WaitArgs)
    ensures Grace([], a) == []
    ensures Grace(rs + [r], a) == Grace(rs, a) +
              if r.Event? && r.described && Wakes(r.event, a.who, a.focus, a.kinds)
                 && !(r.event.kind == MessageKind && r.event.sender == Some(a.who.agent))
              then [Happened(r.event)] else []
  {
    assert (rs + [r])[..|rs|] == rs;
    if r.Event? { GraceIsNarrower(r.event, a.who, a.focus, a.kinds); }
  }

  /** A lag that comes first is reported as such, and a deadline or the end of the stream as nothing. */
  lemma {:induction false} LagsAreReported(a: WaitArgs, rest: seq<Received>, graceful: nat)
    ensures Reported([Lagged] + rest, graceful, a) == [StreamLagged]
    ensures Reported([Received.Deadline] + rest, graceful, a) == [] && Reported([Closed] + rest, graceful, a) == []
    ensures Reported([], graceful, a) == []
  {
    assert ([Lagged] + rest)[0] == Lagged && ([Received.Deadline] + rest)[0] == Received.Deadline;
    assert ([Closed] + rest)[0] == Closed;
  }

  /** An announcement of another session of the caller's own agent. */
  function SiblingPost(who: Auth, session: string, id: MessageId): Message {
    Message(id, who.team, who.agent, Some(session), Some(0), None, None, None, true)
  }

  /**
   What a sibling session announces ends the wait if it comes first, and is dropped if it comes in the
   grace window of something else.
   */
  lemma {:induction false} TheGraceWindowDropsSiblings(a: WaitArgs, first: BusEvent, session: string, id: MessageId)
    requires Wakes(first, a.who, a.focus, a.kinds) && Wants(a.kinds, MessageKind) && session != a.who.session
    ensures var sibling := EventOf(SiblingPost(a.who, session, id));
            && Reported([Event(sibling, true)], 1, a) == [Happened(sibling)]
            && Reported([Event(first, true), Event(sibling, true)], 1, a) == [Happened(first)]
  {
    var sibling := EventOf(SiblingPost(a.who, session, id));
    var x, y := Event(first, true), Event(sibling, true);
    assert !IsDirect(sibling) && Wakes(sibling, a.who, a.focus, a.kinds);
    assert !JoinsInGrace(sibling, a.who, a.focus, a.kinds);
    assert [y][1..] == [] && [x, y][1..] == [y] && [y][..1] == [y] && [y][..0] == [];
    assert StopAt([y], a) == 0 && StopAt([x, y], a) == 0;
    BatchIsUnique([y], 1, 1);
    assert Grace([y], a) == [] && Grace([], a) == [];
  }

  /** A wait comes back empty-handed only if nothing it received before the end was for it. */
  lemma {:induction false} TimeoutMeansNothingHappened(rs: seq<Received>, graceful: nat, a: WaitArgs, k: nat)
    requires Reported(rs, graceful, a) == [] && k < |rs| && EndsWait(rs[k], a)
    ensures exists j :: 0 <= j <= k && (rs[j] == Closed || rs[j] == Deadline)
  {
    var stop := StopAt(rs, a);
    assert stop <= k;
    assert rs[stop] == Closed || rs[stop] == Deadline;
  }

  /** An event that could carry the answer, or the notice that some were dropped. */
  predicate Rechecks(r: Received, a: Ask) {
    r == Lagged || (r.Event? && AskWakes(r.event, a))
  }

  /** How many receives made the call look again. */
  function Wakeups(rs: seq<Received>, a: Ask): (n: nat)
    ensures n <= |rs|
  {
    if rs == [] then 0 else Wakeups(rs[..|rs| - 1], a) + if Rechecks(rs[|rs| - 1], a) then 1 else 0
  }

  /** Where the stream ends for the call. */
  function EndOf(rs: seq<Received>): (end: nat)
    ensures end <= |rs| && (end < |rs| ==> rs[end] == Closed || rs[end] == Deadline)
    ensures forall k :: 0 <= k < end ==> rs[k] != Closed && rs[k] != Deadline
  {
    if rs == [] || rs[0] == Closed || rs[0] == Deadline then 0 else 1 + EndOf(rs[1..])
  }

  lemma {:induction false} WakeupsGrow(rs: seq<Received>, a: Ask, i: nat, j: nat)
    requires i <= j <= |rs|
    ensures Wakeups(rs[..i], a) <= Wakeups(rs[..j], a)
    decreases j
  {
    if i < j {
      WakeupsGrow(rs, a, i, j - 1);
      assert rs[..j][..j - 1] == rs[..j - 1];
    }
  }

  /** What the first of `n` successive checks to find an answer finds. */
  function FirstAnswer(views: seq<seq<Message>>, n: nat, a: Ask): Option<Message>
    requires n <= |views|
  {
    if n == 0 then None
    else
      var earlier := FirstAnswer(views, n - 1, a);
      if earlier.Some? then earlier else FindAnswer(views[n - 1], a)
  }

  /** Giving up means that every one of the checks found nothing. */
  lemma {:induction false} NoneMeansNoCheckFoundOne(views: seq<seq<Message>>, n: nat, a: Ask)
    requires n <= |views|
    ensures FirstAnswer(views, n, a) == None <==> forall k :: 0 <= k < n ==> FindAnswer(views[k], a) == None
  {
    if n > 0 {
      NoneMeansNoCheckFoundOne(views, n - 1, a);
    }
  }

  /** What is returned is a row that one of the tables holds and that answers. */
  lemma {:induction false} AnswersComeFromTheTables(views: seq<seq<Message>>, n: nat, a: Ask)
    requires n <= |views| && FirstAnswer(views, n, a).Some?
    ensures IsAnswerRow(FirstAnswer(views, n, a).value, a)
    ensures exists k :: 0 <= k < n && FirstAnswer(views, n, a).value in views[k]
  {
    if FirstAnswer(views, n - 1, a).Some? {
      AnswersComeFromTheTables(views, n - 1, a);
      var k :| 0 <= k < n - 1 && FirstAnswer(views, n - 1, a).value in views[k];
    } else {
      AnswersInColumns(views[n - 1], a);
    }
  }

  /** Checks after the one that found the answer do not matter. */
  lemma {:induction false} FoundForGood(views: seq<seq<Message>>, n: nat, m: nat, a: Ask)
    requires n <= m <= |views| && FirstAnswer(views, n, a).Some?
    ensures FirstAnswer(views, m, a) == FirstAnswer(views, n, a)
    decreases m
  {
    if n < m {
      FoundForGood(views, n, m - 1, a);
    }
  }

  /**
   Ask: check, and if there is no answer yet receive until an event that could carry one, a lag, or
   the end of the wait; check again after each wake, and once more at the end. `views[n]` is the
   message table the `n`-th check reads; the checks are one at the start, one per wake before the
   stream ends, and one last look.
   */
  method AwaitAnswer(a: Ask, views: seq<seq<Message>>, received: seq<Received>) returns (answer: Option<Message>)
    requires |views| >= Wakeups(received[..EndOf(received)], a) + 2
    ensures answer == FirstAnswer(views, Wakeups(received[..EndOf(received)], a) + 2, a)
    ensures answer.Some? ==> IsAnswerRow(answer.value, a)
  {
    var i, n := 0, 0;
    ghost var end := EndOf(received);
    ghost var wakeups := Wakeups(received[..end], a);
    WakeupsGrow(received, a, 0, end);
    while true
      invariant 0 <= i <= end && n == Wakeups(received[..i], a) <= wakeups
      invariant FirstAnswer(views, n, a) == None
      decreases |received| - i
    {
      answer := FindAnswer(views[n], a);
      n := n + 1;
      if answer.Some? {
        WakeupsGrow(received, a, i, end);
        FoundForGood(views, n, wakeups + 2, a);
        AnswersInColumns(views[n - 1], a);
        return answer;
      }
      var woke;
      woke, i := AwaitWake(a, received, i);
      WakeupsGrow(received, a, i, end);
      if !woke {
        assert n == wakeups + 1 && FirstAnswer(views, n, a) == None;
        AnswersInColumns(views[n], a);
        return FindAnswer(views[n], a);
      }
    }
  }

  /** The inner loop: receive up to the next wake, or to the end. */
  method AwaitWake(a: Ask, received: seq<Received>, from: nat) returns (woke: bool, i: nat)
    requires from <= EndOf(received)
    ensures from <= i <= EndOf(received)
    ensures woke ==> from < i && Wakeups(received[..i], a) == Wakeups(received[..from], a) + 1
    ensures !woke ==> i == EndOf(received) && Wakeups(received[..i], a) == Wakeups(received[..from], a)
  {
    i, woke := from, false;
    while i < |received|
      invariant from <= i <= EndOf(received)
      invariant Wakeups(received[..i], a) == Wakeups(received[..from], a)
    {
      if received[i] == Closed || received[i] == Deadline {
        return false, i;
      }
      assert received[..i + 1][..i] == received[..i];
      woke := Rechecks(received[i], a);
      i := i + 1;
      if woke {
        return;
      }
    }
  }
}
