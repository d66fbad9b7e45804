/**
 wait_for_updates as a whole: `WaitForUpdates` of `WaitTools`, fed with what the database check and the
 receiver yield along a run of `Waiting`.
 */
module Updating {
  import opened Base
  import opened Messages
  import opened Waiting
  import opened WaitTools
  import Asking

  function WatchOf(a: WaitArgs): Watch {
    UpdatesWatch(a.who, a.focus, a.kinds)
  }

  /** The backlog query: how many messages of the table the caller has not read. */
  function Backlog(a: WaitArgs, log: seq<Entry>, cursor: nat): nat {
    if log == [] then 0
    else Backlog(a, log[..|log| - 1], cursor) + if IsBacklog(a, log[|log| - 1], cursor) then 1 else 0
  }

  predicate IsBacklog(a: WaitArgs, e: Entry, cursor: nat) {
    e.Posted? && WellFormed(e.message) && CountsAsBacklog(e.message, a.who, a.focus) && e.message.id > cursor
  }

  /** The backlog messages, by position. */
  ghost function BacklogAt(a: WaitArgs, log: seq<Entry>, cursor: nat): set<nat> {
    set i: nat | i < |log| && IsBacklog(a, log[i], cursor)
  }

  /** The count is that of the messages. */
  lemma {:induction false} BacklogIsCounted(a: WaitArgs, log: seq<Entry>, cursor: nat)
    ensures Backlog(a, log, cursor) == |BacklogAt(a, log, cursor)|
    decreases |log|
  {
    if log == [] {
      assert BacklogAt(a, log, cursor) == {};
    } else {
      var front, last := log[..|log| - 1], |log| - 1;
      BacklogIsCounted(a, front, cursor);
      if IsBacklog(a, log[last], cursor) {
        assert BacklogAt(a, log, cursor) == BacklogAt(a, front, cursor) + {last};
      } else {
        assert BacklogAt(a, log, cursor) == BacklogAt(a, front, cursor);
      }
    }
  }

  lemma {:induction false} BacklogCounts(a: WaitArgs, log: seq<Entry>, cursor: nat)
    ensures Backlog(a, log, cursor) > 0 <==> exists i: nat :: i < |log| && IsBacklog(a, log[i], cursor)
  {
    BacklogIsCounted(a, log, cursor);
    if i: nat :| i < |log| && IsBacklog(a, log[i], cursor) {
      assert i in BacklogAt(a, log, cursor);
    } else {
      assert BacklogAt(a, log, cursor) == {};
    }
  }

  /** The check of `Waiting` finds something exactly when the backlog is not empty and messages are wanted. */
  lemma {:induction false} TheCheckIsTheBacklog(a: WaitArgs, s: Wait)
    ensures Next(WatchOf(a), s, Check).phase == Finished <==>
              Backlog(a, s.log, s.cursor) > 0 && Wants(a.kinds, MessageKind)
  {
    BacklogCounts(a, s.log, s.cursor);
    forall i: nat | i < |s.log|
      ensures Counted(WatchOf(a), s, i) <==> IsBacklog(a, s.log[i], s.cursor) && Wants(a.kinds, MessageKind)
    {}
  }

  /** The state in which the run makes its one check, if it does. */
  function CheckedIn(w: Watch, s: Wait, steps: seq<Step>): Option<Wait>
    decreases |steps|
  {
    if steps == [] then None
    else if steps[0].Check? then Some(s)
    else CheckedIn(w, Next(w, s, steps[0]), steps[1..])
  }

  /** What the check of a run counts. */
  function Pending(a: WaitArgs, s: Wait, steps: seq<Step>): nat {
    var c := CheckedIn(WatchOf(a), s, steps);
    if c.Some? then Backlog(a, c.value.log, c.value.cursor) else 0
  }

  /**
   What `WaitForUpdates` reports when it is fed with a run: `more` is what the receiver yields after it,
   during the grace window or once the deadline has passed.
   */
  function Result(a: WaitArgs, s: Wait, steps: seq<Step>, more: seq<Received>, graceful: nat): seq<Report> {
    var pending := Pending(a, s, steps);
    if pending > 0 && Wants(a.kinds, MessageKind) then [AlreadyWaiting(pending)]
    else Reported(Asking.Receipts(WatchOf(a), s, steps) + more, graceful, a)
  }

  /** The run is over, and so is the stream if it timed out. */
  predicate Ended(q: Wait, more: seq<Received>) {
    q.phase == Finished || (q.phase == TimedOut && more != [] && more[0] == Received.Deadline)
  }

  lemma {:induction false} NothingAfterTheEnd(w: Watch, s: Wait, steps: seq<Step>)
    requires (s.phase == Finished || s.phase == TimedOut) && IsRun(w, s, steps)
    ensures After(w, s, steps).phase == s.phase && Asking.Receipts(w, s, steps) == []
    decreases |steps|
  {
    if steps != [] {
      NothingAfterTheEnd(w, Next(w, s, steps[0]), steps[1..]);
    }
  }

  lemma {:induction false} OneReceive(a: WaitArgs, s: Wait)
    requires s.next <= s.published <= |s.log| && Enabled(s, Receive)
    ensures EndsWait(Asking.ReceiptOf(s), a) <==> Next(WatchOf(a), s, Receive).phase == Finished
    ensures !EndsWait(Asking.ReceiptOf(s), a) ==> Next(WatchOf(a), s, Receive).phase == Blocked
    ensures Asking.ReceiptOf(s) != Closed && Asking.ReceiptOf(s) != Received.Deadline
  {}

  /** From the check on: something is reported exactly when a receive ended the wait. */
  lemma {:induction false} WhileBlocked(
    a: WaitArgs, s: Wait, steps: seq<Step>, more: seq<Received>, graceful: nat)
    requires s.phase == Blocked && s.next <= s.published <= |s.log| && IsRun(WatchOf(a), s, steps)
    requires Ended(After(WatchOf(a), s, steps), more)
    ensures Reported(Asking.Receipts(WatchOf(a), s, steps) + more, graceful, a) != [] <==>
              After(WatchOf(a), s, steps).phase == Finished
    decreases |steps|
  {
    var w := WatchOf(a);
    var step, rest := steps[0], steps[1..];
    var q := Next(w, s, step);
    var later := Asking.Receipts(w, q, rest);
    if step.Receive? {
      var r := Asking.ReceiptOf(s);
      OneReceive(a, s);
      assert [r] + later + more == [r] + (later + more);
      if EndsWait(r, a) {
        NothingAfterTheEnd(w, q, rest);
        ItStopsHere(r, later + more, graceful, a);
      } else {
        ItGoesOn(r, later + more, graceful, a);
        WhileBlocked(a, q, rest, more, graceful);
      }
    } else {
      assert [] + later == later;
      if step.Deadline? {
        NothingAfterTheEnd(w, q, rest);
        assert [] + more == [more[0]] + more[1..];
        ItStopsHere(more[0], more[1..], graceful, a);
      } else {
        WhileBlocked(a, q, rest, more, graceful);
      }
    }
  }

  /**
   The call and the protocol agree: it reports something exactly when the run finishes, by a backlog or by
   an event that ends the wait, and nothing exactly when the deadline comes first.
   */
  lemma {:induction false} ItReportsWhenItFinishes(
    a: WaitArgs, s: Wait, steps: seq<Step>, more: seq<Received>, graceful: nat)
    requires s.phase == Checking && s.next <= s.published <= |s.log| && IsRun(WatchOf(a), s, steps)
    requires Ended(After(WatchOf(a), s, steps), more)
    ensures Result(a, s, steps, more, graceful) != [] <==> After(WatchOf(a), s, steps).phase == Finished
    decreases |steps|
  {
    var w := WatchOf(a);
    var step, rest := steps[0], steps[1..];
    var q := Next(w, s, step);
    assert [] + Asking.Receipts(w, q, rest) == Asking.Receipts(w, q, rest);
    if step.Check? {
      TheCheckIsTheBacklog(a, s);
      if q.phase == Finished {
        NothingAfterTheEnd(w, q, rest);
      } else {
        WhileBlocked(a, q, rest, more, graceful);
      }
    } else {
      ItReportsWhenItFinishes(a, q, rest, more, graceful);
    }
  }

  lemma {:induction false} TheCheckDecides(a: WaitArgs, s: Wait, steps: seq<Step>)
    requires s.phase == Checking && IsRun(WatchOf(a), s, steps)
    requires Pending(a, s, steps) > 0 && Wants(a.kinds, MessageKind)
    ensures After(WatchOf(a), s, steps).phase == Finished
    decreases |steps|
  {
    var w := WatchOf(a);
    var q := Next(w, s, steps[0]);
    if steps[0].Check? {
      TheCheckIsTheBacklog(a, s);
      NothingAfterTheEnd(w, q, steps[1..]);
    } else {
      TheCheckDecides(a, q, steps[1..]);
    }
  }

  /** A backlog message that is committed by the check is reported at once, and nothing else is. */
  lemma {:induction false} CommittedBacklogIsReported(
    a: WaitArgs, s: Wait, steps: seq<Step>, i: nat, more: seq<Received>, graceful: nat)
    requires s.phase == Checking && IsRun(WatchOf(a), s, steps) && CheckedIn(WatchOf(a), s, steps).Some?
    requires Counted(WatchOf(a), CheckedIn(WatchOf(a), s, steps).value, i)
    ensures After(WatchOf(a), s, steps).phase == Finished
    ensures Result(a, s, steps, more, graceful) == [AlreadyWaiting(Pending(a, s, steps))] && Pending(a, s, steps) > 0
    ensures var c := CheckedIn(WatchOf(a), s, steps).value;
            Pending(a, s, steps) == |BacklogAt(a, c.log, c.cursor)|
  {
    var c := CheckedIn(WatchOf(a), s, steps).value;
    BacklogCounts(a, c.log, c.cursor);
    BacklogIsCounted(a, c.log, c.cursor);
    assert IsBacklog(a, c.log[i], c.cursor);
    TheCheckDecides(a, s, steps);
  }

  /** One committed after the check ends the wait once it is published and the call has received what precedes it. */
  lemma {:induction false} PublishedBacklogEndsTheCall(a: WaitArgs, s: Wait, i: nat)
    requires Inv(WatchOf(a), s) && s.phase == Blocked && Counted(WatchOf(a), s, i) && i < s.published
    ensures s.next <= i && ReceiveUpTo(WatchOf(a), s, i - s.next + 1).phase == Finished
  {
    BothWatchesAreSound(a.who, a.focus, a.kinds, Ask(a.who, 0, None, 0));
    PublishedMessagesWake(WatchOf(a), s, i);
  }

  /** No backlog message is behind the receiver while the call waits, or when it has timed out. */
  ghost predicate NothingPassed(w: Watch, s: Wait) {
    && s.next <= s.published <= |s.log|
    && (s.phase == Blocked || s.phase == TimedOut ==> forall i: nat :: Counted(w, s, i) ==> s.next <= i)
  }

  lemma {:induction false} NothingPassedIsKept(w: Watch, s: Wait, step: Step)
    requires Sound(w) && NothingPassed(w, s) && Enabled(s, step)
    ensures NothingPassed(w, Next(w, s, step))
  {
    var q := Next(w, s, step);
    if q.phase == Blocked || q.phase == TimedOut {
      forall i: nat | Counted(w, q, i) ensures q.next <= i {
        if i < |s.log| { assert Counted(w, s, i); }
      }
    }
  }

  /**
   A wait that comes back with nothing has received nothing of what is backlog by then: every such
   message is still ahead of its receiver.
   */
  lemma {:induction false} NothingIsReportedOfNothingReceived(
    a: WaitArgs, s: Wait, steps: seq<Step>, more: seq<Received>, graceful: nat, i: nat)
    requires Subscribed(s) && IsRun(WatchOf(a), s, steps) && Ended(After(WatchOf(a), s, steps), more)
    requires Result(a, s, steps, more, graceful) == [] && Counted(WatchOf(a), After(WatchOf(a), s, steps), i)
    ensures After(WatchOf(a), s, steps).next <= i
  {
    ItReportsWhenItFinishes(a, s, steps, more, graceful);
    BothWatchesAreSound(a.who, a.focus, a.kinds, Ask(a.who, 0, None, 0));
    NothingPassedThroughout(WatchOf(a), s, steps);
  }

  lemma {:induction false} NothingPassedThroughout(w: Watch, s: Wait, steps: seq<Step>)
    requires Sound(w) && NothingPassed(w, s) && IsRun(w, s, steps)
    ensures NothingPassed(w, After(w, s, steps))
    decreases |steps|
  {
    if steps != [] {
      NothingPassedIsKept(w, s, steps[0]);
      NothingPassedThroughout(w, Next(w, s, steps[0]), steps[1..]);
    }
  }

  /** Every call ends: with something to report, or with its deadline. */
  lemma EndsOfCalls(q: Wait, more: seq<Received>)
    ensures q.phase == Finished ==> Ended(q, more)
    ensures q.phase == TimedOut ==> Ended(q, [Received.Deadline] + more)
    ensures q.phase == Checking || q.phase == Blocked ==> !Ended(q, more)
  {}
}
