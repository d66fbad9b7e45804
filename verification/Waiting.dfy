/**
 Subscribe, check the database, then wait for events: the protocol of wait_for_updates and of
 ask_agent, over a bounded broadcast ring that drops what a slow receiver has not read.
 */
module Waiting {
  import opened Base
  import opened Messages

  const RING := 256

  /** A committed change, in commit order, which is the order of the notifications. */
  datatype Entry = Posted(message: Message) | Changed(event: BusEvent)

  function Notification(entry: Entry): BusEvent {
    match entry
    case Posted(m) => EventOf(m)
    case Changed(e) => e
  }

  /** `Finished` is a return with something to report; `TimedOut` is one without. */
  datatype Phase = Checking | Blocked | Finished | TimedOut

  /**
   One waiting call and the stream it listens to: the changes committed so far, how many of them the
   listener has published to the ring, the receiver's position, and the caller's read cursor.
   */
  datatype Wait = Wait(log: seq<Entry>, published: nat, next: nat, phase: Phase, cursor: nat)

  /** What the database check counts, which events end the wait, and whether waking means checking again. */
  datatype Watch = Watch(counts: Message -> bool, wakes: BusEvent -> bool, rechecks: bool)

  ghost predicate Sound(w: Watch) {
    forall m :: w.counts(m) ==> w.wakes(EventOf(m))
  }

  /** Entry `i` is a message the check would count now. */
  predicate Counted(w: Watch, s: Wait, i: nat) {
    i < |s.log| && s.log[i].Posted? && w.counts(s.log[i].message) && s.log[i].message.id > s.cursor
  }

  datatype Step =
    | Commit(entry: Entry)
    | Publish
    | Check
    | Receive
    | MoveCursor(to: nat)
    | Deadline

  predicate Enabled(s: Wait, step: Step) {
    match step
    case Commit(_) => true
    case Publish => s.published < |s.log|
    case Check => s.phase == Checking
    case Receive => s.phase == Blocked && s.next < s.published
    case MoveCursor(to) => to >= s.cursor
    case Deadline => s.phase == Blocked
  }

  function Awake(w: Watch): Phase {
    if w.rechecks then Checking else Finished
  }

  function Next(w: Watch, s: Wait, step: Step): Wait {
    match step
    case Commit(entry) => s.(log := s.log + [entry])
    case Publish => s.(published := s.published + 1)
    case Check => s.(phase := if exists i: nat :: i < |s.log| && Counted(w, s, i) then Finished else Blocked)
    case Receive =>
      // The ring keeps the last 256 events: a receiver further behind is told so, and skips ahead.
      if s.published - s.next > RING then s.(next := s.published - RING, phase := Awake(w))
      else if s.next < |s.log| && w.wakes(Notification(s.log[s.next])) then s.(next := s.next + 1, phase := Awake(w))
      else s.(next := s.next + 1)
    case MoveCursor(to) => s.(cursor := to)
    case Deadline => s.(phase := TimedOut)
  }

  /** The call starts by subscribing: it will receive what is published from now on. */
  predicate Subscribed(s: Wait) {
    s.phase == Checking && s.next == s.published <= |s.log|
  }

  /** While the call is blocked, no message it should know of is behind its receiver. */
  ghost predicate Inv(w: Watch, s: Wait) {
    && s.next <= s.published <= |s.log|
    && (s.phase == Blocked ==> forall i: nat :: Counted(w, s, i) ==> s.next <= i)
  }

  lemma InvIsKept(w: Watch, s: Wait, step: Step)
    requires Sound(w) && Inv(w, s) && Enabled(s, step)
    ensures Inv(w, Next(w, s, step))
  {
    var q := Next(w, s, step);
    if q.phase == Blocked {
      forall i: nat | Counted(w, q, i) ensures q.next <= i {
        if i < |s.log| { assert Counted(w, s, i); }
      }
    }
  }

  ghost predicate IsRun(w: Watch, s: Wait, steps: seq<Step>)
    decreases |steps|
  {
    steps == [] || (Enabled(s, steps[0]) && IsRun(w, Next(w, s, steps[0]), steps[1..]))
  }

  function After(w: Watch, s: Wait, steps: seq<Step>): Wait
    decreases |steps|
  {
    if steps == [] then s else After(w, Next(w, s, steps[0]), steps[1..])
  }

  lemma {:induction false} InvHoldsThroughout(w: Watch, s: Wait, steps: seq<Step>)
    requires Sound(w) && Inv(w, s) && IsRun(w, s, steps)
    ensures Inv(w, After(w, s, steps))
    decreases |steps|
  {
    if steps != [] {
      InvIsKept(w, s, steps[0]);
      InvHoldsThroughout(w, Next(w, s, steps[0]), steps[1..]);
    }
  }

  /**
   No lost wakeup. In every state reachable from the subscription, whatever commits, is published,
   is read elsewhere or overflows in between: a committed unread message that the check counts is
   about to be counted by a pending check, or its event has not been consumed by this receiver, or
   the call is over.
   */
  lemma {:induction false} NoLostWakeup(w: Watch, s: Wait, steps: seq<Step>, i: nat)
    requires Sound(w) && Subscribed(s) && IsRun(w, s, steps) && Counted(w, After(w, s, steps), i)
    ensures var q := After(w, s, steps);
            q.phase == Checking || q.next <= i || q.phase == Finished || q.phase == TimedOut
  {
    InvHoldsThroughout(w, s, steps);
  }

  function ReceiveUpTo(w: Watch, s: Wait, n: nat): Wait
    decreases n
  {
    if n == 0 || !Enabled(s, Receive) then s else ReceiveUpTo(w, Next(w, s, Receive), n - 1)
  }

  /**
   And the wake does come: once the event of a counted message has been published, a blocked call
   that keeps receiving is awake after at most as many receives as there are events up to it.
   */
  lemma {:induction false} PublishedMessagesWake(w: Watch, s: Wait, i: nat)
    requires Sound(w) && Inv(w, s) && s.phase == Blocked && Counted(w, s, i) && i < s.published
    ensures ReceiveUpTo(w, s, i - s.next + 1).phase == Awake(w)
    decreases s.published - s.next
  {
    var q := Next(w, s, Receive);
    InvIsKept(w, s, Receive);
    if q.phase == Blocked {
      assert Counted(w, q, i);
      PublishedMessagesWake(w, q, i);
    } else {
      assert !Enabled(q, Receive);
      assert ReceiveUpTo(w, q, i - s.next) == q;
    }
  }

  // ------------------------------------------------------------- the two instances --

  /** wait_for_updates: the backlog query against the wake filter. */
  function UpdatesWatch(who: Auth, focus: Option<ChannelId>, kinds: Option<set<Kind>>): Watch {
    Watch((m: Message) => WellFormed(m) && Wants(kinds, MessageKind) && CountsAsBacklog(m, who, focus),
          (e: BusEvent) => Wakes(e, who, focus, kinds),
          false)
  }

  /** ask_agent: the answer query against its event filter. */
  function AskWatch(a: Ask): Watch {
    Watch((m: Message) => Answers(m, a), (e: BusEvent) => AskWakes(e, a), true)
  }

  lemma BothWatchesAreSound(who: Auth, focus: Option<ChannelId>, kinds: Option<set<Kind>>, a: Ask)
    ensures Sound(UpdatesWatch(who, focus, kinds)) && Sound(AskWatch(a))
  {
    forall m | UpdatesWatch(who, focus, kinds).counts(m)
      ensures UpdatesWatch(who, focus, kinds).wakes(EventOf(m))
    {
      BacklogVersusWake(m, who, focus, kinds);
    }
  }

  /** wait_for_updates never sleeps past a backlog message. */
  lemma {:induction false} UpdatesAreNotMissed(
    who: Auth, focus: Option<ChannelId>, kinds: Option<set<Kind>>, s: Wait, steps: seq<Step>, i: nat)
    requires Subscribed(s) && IsRun(UpdatesWatch(who, focus, kinds), s, steps)
    requires var q := After(UpdatesWatch(who, focus, kinds), s, steps);
             && q.phase == Blocked && i < |q.log| && q.log[i].Posted?
             && WellFormed(q.log[i].message) && CountsAsBacklog(q.log[i].message, who, focus) &&
               Wants(kinds, MessageKind)
             && q.log[i].message.id > q.cursor
    ensures After(UpdatesWatch(who, focus, kinds), s, steps).next <= i
  {
    var w := UpdatesWatch(who, focus, kinds);
    BothWatchesAreSound(who, focus, kinds, Ask(who, 0, None, 0));
    assert Counted(w, After(w, s, steps), i);
    NoLostWakeup(w, s, steps, i);
  }

  /** ask_agent never sleeps past an answer; the cursor plays no part in it. */
  lemma {:induction false} AnswersAreNotMissed(a: Ask, s: Wait, steps: seq<Step>, i: nat)
    requires Subscribed(s) && s.cursor == 0 && (forall step :: step in steps ==> !step.MoveCursor?)
    requires IsRun(AskWatch(a), s, steps)
    requires var q := After(AskWatch(a), s, steps);
             q.phase == Blocked && i < |q.log| && q.log[i].Posted? && Answers(q.log[i].message, a)
    ensures After(AskWatch(a), s, steps).next <= i
  {
    var w := AskWatch(a);
    BothWatchesAreSound(a.who, None, None, a);
    CursorStays(w, s, steps);
    assert Counted(w, After(w, s, steps), i);
    NoLostWakeup(w, s, steps, i);
  }

  lemma {:induction false} CursorStays(w: Watch, s: Wait, steps: seq<Step>)
    requires forall step :: step in steps ==> !step.MoveCursor?
    ensures After(w, s, steps).cursor == s.cursor
    decreases |steps|
  {
    if steps != [] {
      assert steps[0] in steps;
      CursorStays(w, Next(w, s, steps[0]), steps[1..]);
    }
  }

  // ------------------------------------------------------------------- in fields --

  /** Changes are appended in the order they commit and published in that order, one at a time. */
  lemma ChangesArePublishedInOrder(w: Watch, s: Wait, entry: Entry)
    ensures Next(w, s, Commit(entry)) == Wait(s.log + [entry], s.published, s.next, s.phase, s.cursor)
    ensures Enabled(s, Publish) <==> s.published < |s.log|
    ensures Next(w, s, Publish) == Wait(s.log, s.published + 1, s.next, s.phase, s.cursor)
  {}

  /** The check looks at the table and the cursor of that instant. */
  lemma TheCheckInFields(w: Watch, s: Wait)
    ensures Enabled(s, Check) <==> s.phase == Checking
    ensures var q := Next(w, s, Check);
            && q.log == s.log && q.published == s.published && q.next == s.next && q.cursor == s.cursor
            && (if exists e :: e in s.log && e.Posted? && w.counts(e.message) && e.message.id > s.cursor
                then q.phase == Finished else q.phase == Blocked)
  {
    if e :| e in s.log && e.Posted? && w.counts(e.message) && e.message.id > s.cursor {
      var i: nat :| i < |s.log| && s.log[i] == e;
      assert Counted(w, s, i);
    }
  }

  /**
   A receive takes the next published event, and wakes if it should. More than 256 events behind, it is
   told so instead, which always wakes, and continues with the oldest of the last 256.
   */
  lemma ReceivesInFields(w: Watch, s: Wait)
    requires Enabled(s, Receive) && s.published <= |s.log|
    ensures s.phase == Blocked && s.next < s.published
    ensures var q, awake := Next(w, s, Receive), if w.rechecks then Checking else Finished;
            && q.log == s.log && q.published == s.published && q.cursor == s.cursor
            && (if s.published - s.next > 256 then q.next == s.published - 256 && q.phase == awake
                else q.next == s.next + 1 && q.phase == if w.wakes(Notification(s.log[s.next])) then awake else Blocked)
  {}

  /** Reading elsewhere moves the cursor on, and the deadline ends a call that is blocked. */
  lemma OtherStepsInFields(w: Watch, s: Wait, to: nat)
    ensures Enabled(s, MoveCursor(to)) <==> s.cursor <= to
    ensures Next(w, s, MoveCursor(to)) == Wait(s.log, s.published, s.next, s.phase, to)
    ensures Enabled(s, Deadline) <==> s.phase == Blocked
    ensures Next(w, s, Deadline) == Wait(s.log, s.published, s.next, TimedOut, s.cursor)
  {}

  /** The call starts anywhere in the stream, with what is published from then on ahead of it. */
  lemma CallsStartBySubscribing(log: seq<Entry>, published: nat, cursor: nat)
    requires published <= |log|
    ensures Subscribed(Wait(log, published, published, Checking, cursor))
  {}

  /** A run goes on with any step that is possible. */
  lemma {:induction false} RunsGoOn(w: Watch, s: Wait, step: Step, rest: seq<Step>)
    ensures IsRun(w, s, []) && (IsRun(w, s, [step] + rest) <==> Enabled(s, step) && IsRun(w, Next(w, s, step), rest))
  {
    assert ([step] + rest)[1..] == rest;
  }
}
