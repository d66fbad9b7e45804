/**
 ask_agent as a whole: the loop of `WaitTools`, fed with what the receiver and the database yield along a
 run of `Waiting`.
 */
module Asking {
  import opened Base
  import opened Messages
  import opened Waiting
  import opened WaitTools

  /** The message table when these changes are committed. */
  function Posts(log: seq<Entry>): seq<Message> {
    if log == [] then []
    else
      var last := log[|log| - 1];
      Posts(log[..|log| - 1]) + if last.Posted? then [last.message] else []
  }

  lemma {:induction false} PostsArePosted(log: seq<Entry>, m: Message)
    ensures m in Posts(log) <==> exists i :: 0 <= i < |log| && log[i] == Posted(m)
    decreases |log|
  {
    if log != [] {
      var front := log[..|log| - 1];
      PostsArePosted(front, m);
      if i :| 0 <= i < |front| && front[i] == Posted(m) {
        assert log[i] == Posted(m);
      }
      if i :| 0 <= i < |log| && log[i] == Posted(m) {
        assert i < |front| ==> front[i] == Posted(m);
      }
    }
  }

  /** What a receive yields. */
  function ReceiptOf(s: Wait): Received {
    if s.published - s.next > RING || s.next >= |s.log| then Lagged
    else Received.Event(Notification(s.log[s.next]), true)
  }

  /** What the receiver yields along a run, up to its end. */
  function Receipts(w: Watch, s: Wait, steps: seq<Step>): seq<Received>
    decreases |steps|
  {
    if steps == [] then []
    else (if steps[0].Receive? then [ReceiptOf(s)] else []) + Receipts(w, Next(w, s, steps[0]), steps[1..])
  }

  /** The message tables the checks of a run read. */
  function Views(w: Watch, s: Wait, steps: seq<Step>): seq<seq<Message>>
    decreases |steps|
  {
    if steps == [] then []
    else (if steps[0].Check? then [Posts(s.log)] else []) + Views(w, Next(w, s, steps[0]), steps[1..])
  }

  lemma {:induction false} WakeupsAdd(first: seq<Received>, later: seq<Received>, a: Ask)
    ensures Wakeups(first + later, a) == Wakeups(first, a) + Wakeups(later, a)
    decreases |later|
  {
    if later == [] {
      assert first + later == first;
    } else {
      WakeupsAdd(first, later[..|later| - 1], a);
      assert (first + later)[..|first + later| - 1] == first + later[..|later| - 1];
    }
  }

  lemma {:induction false} OneReceipt(s: Wait, a: Ask)
    requires s.next <= s.published <= |s.log| && Enabled(s, Receive)
    ensures Wakeups([ReceiptOf(s)], a) == if Next(AskWatch(a), s, Receive).phase == Checking then 1 else 0
    ensures ReceiptOf(s) != Closed && ReceiptOf(s) != Received.Deadline
  {
    assert [ReceiptOf(s)][..0] == [];
  }

  function Due(s: Wait): nat {
    if s.phase == Checking then 1 else 0
  }

  /** A check for every wakeup and one at the start, apart from one that may still be due. */
  lemma {:induction false} OneCheckPerWakeup(a: Ask, s: Wait, steps: seq<Step>)
    requires s.next <= s.published <= |s.log| && IsRun(AskWatch(a), s, steps)
    ensures |Views(AskWatch(a), s, steps)| + Due(After(AskWatch(a), s, steps))
            == Wakeups(Receipts(AskWatch(a), s, steps), a) + Due(s)
    decreases |steps|
  {
    if steps != [] {
      var w := AskWatch(a);
      var q := Next(w, s, steps[0]);
      OneCheckPerWakeup(a, q, steps[1..]);
      if steps[0].Receive? {
        OneReceipt(s, a);
        WakeupsAdd([ReceiptOf(s)], Receipts(w, q, steps[1..]), a);
      } else {
        assert [] + Receipts(w, q, steps[1..]) == Receipts(w, q, steps[1..]);
      }
    }
  }

  lemma {:induction false} ReceiptsComeBeforeTheEnd(a: Ask, s: Wait, steps: seq<Step>)
    requires s.next <= s.published <= |s.log| && IsRun(AskWatch(a), s, steps)
    ensures forall k :: 0 <= k < |Receipts(AskWatch(a), s, steps)| ==>
              Receipts(AskWatch(a), s, steps)[k] != Closed && Receipts(AskWatch(a), s, steps)[k] != Received.Deadline
    decreases |steps|
  {
    if steps != [] {
      ReceiptsComeBeforeTheEnd(a, Next(AskWatch(a), s, steps[0]), steps[1..]);
      if steps[0].Receive? {
        OneReceipt(s, a);
      }
    }
  }

  lemma {:induction false} EndIsUnique(rs: seq<Received>, end: nat)
    requires end <= |rs| && (end < |rs| ==> rs[end] == Closed || rs[end] == Received.Deadline)
    requires forall k :: 0 <= k < end ==> rs[k] != Closed && rs[k] != Received.Deadline
    ensures end == EndOf(rs)
    decreases |rs|
  {
    if end > 0 {
      EndIsUnique(rs[1..], end - 1);
    }
  }

  /** A check ends the call exactly when the answer query finds something. */
  lemma {:induction false} ChecksFindAnswers(a: Ask, s: Wait)
    requires s.cursor == 0
    ensures Next(AskWatch(a), s, Check).phase == Finished <==> FindAnswer(Posts(s.log), a).Some?
  {
    var w := AskWatch(a);
    if FindAnswer(Posts(s.log), a).Some? {
      var m := FindAnswer(Posts(s.log), a).value;
      PostsArePosted(s.log, m);
      var i: nat :| i < |s.log| && s.log[i] == Posted(m);
      assert Counted(w, s, i);
    }
    if i: nat :| i < |s.log| && Counted(w, s, i) {
      PostsArePosted(s.log, s.log[i].message);
      assert s.log[i].message in Posts(s.log) && Answers(s.log[i].message, a);
    }
  }

  /** One of these checks finds an answer. */
  predicate Found(views: seq<seq<Message>>, a: Ask) {
    views != [] && (FindAnswer(views[0], a).Some? || Found(views[1..], a))
  }

  lemma {:induction false} FoundAt(views: seq<seq<Message>>, a: Ask, k: nat)
    requires k < |views| && FindAnswer(views[k], a).Some?
    ensures Found(views, a)
    decreases k
  {
    if k > 0 {
      FoundAt(views[1..], a, k - 1);
    }
  }

  lemma {:induction false} NotFoundAt(views: seq<seq<Message>>, a: Ask, k: nat)
    requires k < |views| && !Found(views, a)
    ensures FindAnswer(views[k], a) == None
    decreases k
  {
    if k > 0 {
      NotFoundAt(views[1..], a, k - 1);
    }
  }

  lemma {:induction false} FoundIsAnswered(views: seq<seq<Message>>, a: Ask)
    ensures Found(views, a) <==> FirstAnswer(views, |views|, a).Some?
  {
    NoneMeansNoCheckFoundOne(views, |views|, a);
    if Found(views, a) {
      if FirstAnswer(views, |views|, a) == None {
        NeverFound(views, a);
      }
    } else {
      forall k | 0 <= k < |views| ensures FindAnswer(views[k], a) == None {
        NotFoundAt(views, a, k);
      }
    }
  }

  lemma {:induction false} NeverFound(views: seq<seq<Message>>, a: Ask)
    requires forall k :: 0 <= k < |views| ==> FindAnswer(views[k], a) == None
    ensures !Found(views, a)
    decreases |views|
  {
    if views != [] {
      NeverFound(views[1..], a);
    }
  }

  /** The checks made so far found nothing, unless the call is over because one did. */
  lemma {:induction false} FinishedMeansFound(a: Ask, s: Wait, steps: seq<Step>)
    requires s.cursor == 0 && s.phase != Finished && (forall step :: step in steps ==> !step.MoveCursor?)
    requires IsRun(AskWatch(a), s, steps)
    ensures After(AskWatch(a), s, steps).phase == Finished <==> Found(Views(AskWatch(a), s, steps), a)
    decreases |steps|
  {
    if steps != [] {
      var w := AskWatch(a);
      var q := Next(w, s, steps[0]);
      var later := Views(w, q, steps[1..]);
      assert steps[0] in steps;
      if steps[0].Check? {
        ChecksFindAnswers(a, s);
        assert ([Posts(s.log)] + later)[1..] == later;
        if q.phase == Finished {
          FinishedStays(a, q, steps[1..]);
        } else {
          FinishedMeansFound(a, q, steps[1..]);
        }
      } else {
        FinishedMeansFound(a, q, steps[1..]);
        assert [] + later == later;
      }
    }
  }

  lemma {:induction false} FinishedStays(a: Ask, s: Wait, steps: seq<Step>)
    requires s.phase == Finished && IsRun(AskWatch(a), s, steps)
    ensures After(AskWatch(a), s, steps).phase == Finished
    decreases |steps|
  {
    if steps != [] {
      FinishedStays(a, Next(AskWatch(a), s, steps[0]), steps[1..]);
    }
  }

  /** What `AwaitAnswer` returns when it is fed with a run: its last look is at the final table. */
  function Returned(a: Ask, s: Wait, steps: seq<Step>): Option<Message>
    requires s.phase == Checking && s.next <= s.published <= |s.log| && IsRun(AskWatch(a), s, steps)
    requires After(AskWatch(a), s, steps).phase == Finished || After(AskWatch(a), s, steps).phase == TimedOut
  {
    var w := AskWatch(a);
    var received := Receipts(w, s, steps) + [Received.Deadline];
    var views := Views(w, s, steps) + [Posts(After(w, s, steps).log)];
    ChecksAreEnough(a, s, steps);
    FirstAnswer(views, Wakeups(received[..EndOf(received)], a) + 2, a)
  }

  lemma {:induction false} ChecksAreEnough(a: Ask, s: Wait, steps: seq<Step>)
    requires s.phase == Checking && s.next <= s.published <= |s.log| && IsRun(AskWatch(a), s, steps)
    requires After(AskWatch(a), s, steps).phase == Finished || After(AskWatch(a), s, steps).phase == TimedOut
    ensures var received := Receipts(AskWatch(a), s, steps) + [Received.Deadline];
            Wakeups(received[..EndOf(received)], a) + 1 == |Views(AskWatch(a), s, steps)|
  {
    var rs := Receipts(AskWatch(a), s, steps);
    OneCheckPerWakeup(a, s, steps);
    ReceiptsComeBeforeTheEnd(a, s, steps);
    EndIsUnique(rs + [Received.Deadline], |rs|);
    assert (rs + [Received.Deadline])[..|rs|] == rs;
  }

  lemma {:induction false} AnsweredIsFound(a: Ask, log: seq<Entry>, m: Message)
    requires Posted(m) in log && IsAnswerRow(m, a)
    ensures FindAnswer(Posts(log), a).Some?
  {
    PostsArePosted(log, m);
    AnswersInColumns(Posts(log), a);
  }

  /**
   ask_agent returns an answer whenever one is committed by its last look at the table, and nothing
   that is not one.
   */
  lemma {:induction false} CommittedAnswersAreReturned(a: Ask, s: Wait, steps: seq<Step>)
    requires Subscribed(s) && IsRun(AskWatch(a), s, steps)
    requires After(AskWatch(a), s, steps).phase == Finished || After(AskWatch(a), s, steps).phase == TimedOut
    ensures (exists m :: Posted(m) in After(AskWatch(a), s, steps).log && IsAnswerRow(m, a)) ==>
              Returned(a, s, steps).Some?
    ensures Returned(a, s, steps).Some? ==> IsAnswerRow(Returned(a, s, steps).value, a)
  {
    ChecksAreEnough(a, s, steps);
    LastLook(a, Views(AskWatch(a), s, steps), After(AskWatch(a), s, steps).log);
  }

  /** Whatever was seen before, the last look finds an answer if there is one. */
  lemma {:induction false} LastLook(a: Ask, views: seq<seq<Message>>, log: seq<Entry>)
    ensures var found := FirstAnswer(views + [Posts(log)], |views| + 1, a);
            && ((exists m :: Posted(m) in log && IsAnswerRow(m, a)) ==> found.Some?)
            && (found.Some? ==> IsAnswerRow(found.value, a))
  {
    var all := views + [Posts(log)];
    if FirstAnswer(all, |all|, a).Some? {
      AnswersComeFromTheTables(all, |all|, a);
    }
    if m :| Posted(m) in log && IsAnswerRow(m, a) {
      AnsweredIsFound(a, log, m);
      FoundAt(all, a, |views|);
      FoundIsAnswered(all, a);
    }
  }

  /** The run finishes by itself, before the deadline, exactly when one of its checks finds an answer. */
  lemma {:induction false} ItFinishesWhenACheckFindsOne(a: Ask, s: Wait, steps: seq<Step>)
    requires Subscribed(s) && s.cursor == 0 && (forall step :: step in steps ==> !step.MoveCursor?)
    requires IsRun(AskWatch(a), s, steps)
    ensures var views := Views(AskWatch(a), s, steps);
            After(AskWatch(a), s, steps).phase == Finished <==> FirstAnswer(views, |views|, a).Some?
  {
    FinishedMeansFound(a, s, steps);
    FoundIsAnswered(Views(AskWatch(a), s, steps), a);
  }

  lemma {:induction false} ReceivingKeepsCounted(w: Watch, s: Wait, n: nat, i: nat)
    requires Counted(w, s, i)
    ensures Counted(w, ReceiveUpTo(w, s, n), i)
    decreases n
  {
    if n > 0 && Enabled(s, Receive) {
      ReceivingKeepsCounted(w, Next(w, s, Receive), n - 1, i);
    }
  }

  /**
   And it does not wait for the deadline: once the event of an answer has been published, a blocked
   call that keeps receiving checks again after at most as many receives as there are events up to
   that one, and that check ends it.
   */
  lemma {:induction false} PublishedAnswersEndTheCall(a: Ask, s: Wait, i: nat)
    requires Inv(AskWatch(a), s) && s.phase == Blocked && s.cursor == 0 && i < s.published
    requires i < |s.log| && s.log[i].Posted? && Answers(s.log[i].message, a)
    ensures s.next <= i
    ensures var r := ReceiveUpTo(AskWatch(a), s, i - s.next + 1);
            r.phase == Checking && Next(AskWatch(a), r, Check).phase == Finished
  {
    var w := AskWatch(a);
    BothWatchesAreSound(a.who, None, None, a);
    assert Counted(w, s, i);
    PublishedMessagesWake(w, s, i);
    ReceivingKeepsCounted(w, s, i - s.next + 1, i);
  }
}
