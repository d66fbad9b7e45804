/**
 The stop hook: on the way out a session is held open once for each question it left unanswered. The
 hook sees the newest 50 messages and remembers the 200 largest ids it has raised.
 */
module StopHook {
  import opened Base

  const WINDOW := 50
  const REMEMBERED := 200

  datatype Message = Message(id: MessageId, sender: string, recipient: Option<string>, question: bool,
    replyTo: Option<MessageId>)

  // ----------------------------------------------------------------------- the feed --

  /** All messages visible to this agent, oldest first; a reply is younger than what it answers. */
  predicate IsHistory(all: seq<Message>) {
    && (forall i, j :: 0 <= i < j < |all| ==> all[i].id < all[j].id)
    && (forall i :: 0 <= i < |all| && all[i].replyTo.Some? ==> all[i].replyTo.value < all[i].id)
  }

  /** Where the newest 50 begin. */
  function FeedStart(all: seq<Message>): (start: nat)
    ensures start <= |all|
  {
    if |all| <= WINDOW then 0 else |all| - WINDOW
  }

  /** read_messages with limit 50 */
  function Feed(all: seq<Message>): seq<Message> {
    all[FeedStart(all)..]
  }

  ghost function Ids(all: seq<Message>): set<MessageId> {
    set k | 0 <= k < |all| :: all[k].id
  }

  /** A message is in the window by its position. */
  lemma {:induction false} InTheWindow(all: seq<Message>, k: nat)
    requires IsHistory(all) && k < |all|
    ensures all[k].id in Ids(Feed(all)) <==> k >= FeedStart(all)
  {
    var feed, start := Feed(all), FeedStart(all);
    if k >= start {
      assert feed[k - start] == all[k];
    } else {
      forall j | 0 <= j < |feed| ensures feed[j].id != all[k].id {
        assert feed[j] == all[start + j];
      }
    }
  }

  lemma {:induction false} FeedIsVisible(all: seq<Message>, id: MessageId)
    requires id in Ids(Feed(all))
    ensures exists k :: FeedStart(all) <= k < |all| && all[k].id == id
    ensures id in Ids(all)
  {
    var j :| 0 <= j < |Feed(all)| && Feed(all)[j].id == id;
    assert all[FeedStart(all) + j].id == id;
  }

  /** A direct message somebody else is blocked on. */
  predicate IsQuestion(me: string, m: Message) {
    m.recipient.Some? && m.recipient.value != "" && m.sender != me && m.question
  }

  ghost function Questions(me: string, feed: seq<Message>): set<MessageId> {
    set k | 0 <= k < |feed| && IsQuestion(me, feed[k]) :: feed[k].id
  }

  ghost function Answered(me: string, feed: seq<Message>): set<MessageId> {
    set k | 0 <= k < |feed| && feed[k].sender == me && feed[k].replyTo.Some? :: feed[k].replyTo.value
  }

  ghost function Pending(me: string, feed: seq<Message>, seen: set<MessageId>): set<MessageId> {
    Questions(me, feed) - Answered(me, feed) - seen
  }

  // ------------------------------------------------------------------- sorted id sets --

  lemma HasLeast(s: set<MessageId>)
    requires s != {}
    ensures exists x :: x in s && forall y :: y in s ==> x <= y
  {
    var a :| a in s;
    LeastAtMost(s, a);
  }

  lemma LeastAtMost(s: set<MessageId>, a: MessageId)
    requires a in s
    ensures exists x :: x in s && forall y :: y in s ==> x <= y
  {
    if y :| y in s && y < a {
      LeastAtMost(s, y);
    }
  }

  ghost function Least(s: set<MessageId>): (x: MessageId)
    requires s != {}
    ensures x in s && forall y :: y in s ==> x <= y
  {
    HasLeast(s);
    var x :| x in s && forall y :: y in s ==> x <= y;
    x
  }

  /** What `r` leaves out of `s` is smaller than all it has. */
  ghost predicate AllBelow(s: set<MessageId>, r: set<MessageId>) {
    forall x, y :: x in s && x !in r && y in r ==> x < y
  }

  /** The `n` largest of a set. */
  ghost function Largest(n: nat, s: set<MessageId>): (r: set<MessageId>)
    ensures r <= s && |r| == (if |s| <= n then |s| else n)
    ensures AllBelow(s, r)
    decreases |s|
  {
    if |s| <= n then s
    else
      var rest := s - {Least(s)};
      assert |rest| == |s| - 1;
      assert forall x :: x in s ==> x in rest || x == Least(s);
      Largest(n, rest)
  }

  /** Being the `n` largest leaves no choice. */
  lemma LargestIsUnique(n: nat, s: set<MessageId>, t: set<MessageId>)
    requires t <= s && |t| == (if |s| <= n then |s| else n)
    requires AllBelow(s, t)
    ensures t == Largest(n, s)
  {
    var r := Largest(n, s);
    if r != t {
      SameSizeDiffers(r, t);
      SameSizeDiffers(t, r);
    }
  }

  lemma SubsetOfSameSize(a: set<MessageId>, b: set<MessageId>)
    requires a <= b && |a| == |b|
    ensures a == b
  {
    assert b == a + (b - a);
  }

  lemma SameSizeDiffers(a: set<MessageId>, b: set<MessageId>)
    requires |a| == |b| && a != b
    ensures exists x :: x in a && x !in b
  {
    if a <= b {
      SubsetOfSameSize(a, b);
    }
  }

  // -------------------------------------------------------------------------- the hook --

  /** The question raised: the oldest one still pending. */
  ghost function Raised(me: string, feed: seq<Message>, seen: set<MessageId>): Option<MessageId> {
    var pending := Pending(me, feed, seen);
    if pending == {} then None else Some(Least(pending))
  }

  /** The guard written back; nothing is written when nothing is raised. */
  ghost function Remembered(seen: set<MessageId>, raised: Option<MessageId>): set<MessageId> {
    if raised.None? then seen else Largest(REMEMBERED, seen + {raised.value})
  }

  predicate Ascending(s: seq<MessageId>) {
    forall i, j :: 0 <= i < j < |s| ==> s[i] < s[j]
  }

  function Elements(r: seq<MessageId>): set<MessageId> {
    if r == [] then {} else Elements(r[..|r| - 1]) + {r[|r| - 1]}
  }

  lemma {:induction false} ElementsAre(r: seq<MessageId>, x: MessageId)
    ensures x in Elements(r) <==> x in r
    decreases |r|
  {
    if r != [] {
      ElementsAre(r[..|r| - 1], x);
      assert r == r[..|r| - 1] + [r[|r| - 1]];
    }
  }

  /** `r` lists the elements taken from `s` so far, all smaller than the rest. */
  ghost predicate SortedSoFar(s: set<MessageId>, r: seq<MessageId>, rest: set<MessageId>) {
    && |r| + |rest| == |s| && Elements(r) + rest == s && Ascending(r)
    && forall k, y :: 0 <= k < |r| && y in rest ==> r[k] < y
  }

  lemma {:induction false} TakeLeast(s: set<MessageId>, r: seq<MessageId>, rest: set<MessageId>, x: MessageId)
    requires SortedSoFar(s, r, rest) && x in rest && forall y :: y in rest ==> x <= y
    ensures SortedSoFar(s, r + [x], rest - {x}) && |rest - {x}| < |rest|
  {
    var more, left := r + [x], rest - {x};
    assert more[..|r|] == r;
    assert Elements(more) == Elements(r) + {x};
    assert Elements(more) + left == Elements(r) + rest;
    assert |left| == |rest| - 1;
    assert Ascending(more);
    forall k, y | 0 <= k < |more| && y in left ensures more[k] < y {
      assert x != y && x <= y;
      if k < |r| {
        assert r[k] < y;
      }
    }
  }

  lemma {:induction false} SortingStarts(s: set<MessageId>)
    ensures SortedSoFar(s, [], s)
  {}

  lemma {:induction false} SortingEnds(s: set<MessageId>, r: seq<MessageId>)
    requires SortedSoFar(s, r, {})
    ensures Ascending(r) && |r| == |s| && Elements(r) == s
  {}

  method FindLeast(s: set<MessageId>) returns (x: MessageId)
    requires s != {}
    ensures x in s && forall y :: y in s ==> x <= y
  {
    HasLeast(s);
    x :| x in s && forall y :: y in s ==> x <= y;
  }

  /** sorted() of a set */
  method SortedIds(s: set<MessageId>) returns (r: seq<MessageId>)
    ensures Ascending(r) && |r| == |s| && Elements(r) == s
  {
    r := [];
    var rest := s;
    SortingStarts(s);
    while rest != {}
      invariant SortedSoFar(s, r, rest)
      decreases |rest|
    {
      var x := FindLeast(rest);
      TakeLeast(s, r, rest, x);
      rest, r := rest - {x}, r + [x];
    }
    SortingEnds(s, r);
  }

  class Hook {
    var seen: set<MessageId>

    constructor ()
      ensures seen == {}
    {
      seen := {};
    }

    static method QuestionsOf(
      me: string, feed: seq<Message>) returns (questions: set<MessageId>, answered: set<MessageId>)
      ensures questions == Questions(me, feed) && answered == Answered(me, feed)
    {
      questions, answered := {}, {};
      for i := 0 to |feed|
        invariant questions == set k | 0 <= k < i && IsQuestion(me, feed[k]) :: feed[k].id
        invariant answered == set k | 0 <= k < i && feed[k].sender == me && feed[k].replyTo.Some? ::
            feed[k].replyTo.value
      {
        if IsQuestion(me, feed[i]) {
          questions := questions + {feed[i].id};
        }
        if feed[i].sender == me && feed[i].replyTo.Some? {
          answered := answered + {feed[i].replyTo.value};
        }
      }
    }

    /** `sorted(ids)[-200:]` */
    static method NewestIds(ids: set<MessageId>) returns (r: set<MessageId>)
      ensures r == Largest(REMEMBERED, ids)
    {
      var sorted := SortedIds(ids);
      var from := if |sorted| <= REMEMBERED then 0 else |sorted| - REMEMBERED;
      r := {};
      for i := from to |sorted|
        invariant |r| == i - from
        invariant forall x :: x in r <==> exists k :: from <= k < i && sorted[k] == x
      {
        assert sorted[i] !in r;
        r := r + {sorted[i]};
      }
      forall x ensures (x in r ==> x in ids) && (x in ids && x !in r ==> exists k :: 0 <= k < from && sorted[k] == x) {
        ElementsAre(sorted, x);
      }
      LargestIsUnique(REMEMBERED, ids, r);
    }

    /** One stop: raise the oldest pending question, once it is durably marked as raised. */
    method Stop(me: string, feed: seq<Message>) returns (raised: Option<MessageId>)
      modifies this
      ensures raised == Raised(me, feed, old(seen))
      ensures seen == Remembered(old(seen), raised)
    {
      var questions, answered := QuestionsOf(me, feed);
      if questions == {} {
        return None;
      }
      ghost var open := Pending(me, feed, seen);
      var pending := SortedIds(questions - answered - seen);
      if pending == [] {
        return None;
      }
      LeastIsFirst(open, pending);
      raised := Some(pending[0]);
      seen := NewestIds(seen + {pending[0]});
    }
  }

  lemma {:induction false} LeastIsFirst(s: set<MessageId>, r: seq<MessageId>)
    requires Ascending(r) && r != [] && Elements(r) == s
    ensures s != {} && r[0] == Least(s)
  {
    ElementsAre(r, r[0]);
    ElementsAre(r, Least(s));
  }

  // ------------------------------------------------------------- nothing is forgotten --

  /** The messages with larger ids than the one at `k` are those after it. */
  lemma {:induction false} FewAreNewer(all: seq<Message>, k: nat, newer: set<MessageId>)
    requires IsHistory(all) && k < |all|
    requires forall id :: id in newer ==> id > all[k].id && exists j :: 0 <= j < |all| && all[j].id == id
    ensures |newer| <= |all| - 1 - k
    decreases |all|
  {
    var last := |all| - 1;
    if k == last {
      assert forall j :: 0 <= j < |all| ==> all[j].id <= all[last].id;
      assert forall id :: id !in newer;
      assert newer == {};
    } else {
      var rest := newer - {all[last].id};
      forall id | id in rest ensures exists j :: 0 <= j < last && all[..last][j].id == id {
        var j :| 0 <= j < |all| && all[j].id == id;
        assert all[..last][j].id == id;
      }
      FewAreNewer(all[..last], k, rest);
      assert |newer| <= |rest| + 1 by {
        assert newer <= rest + {all[last].id};
        SubsetSize(newer, rest + {all[last].id});
      }
    }
  }

  /** The bounded guard against an unbounded one: it only lacks ids that have left the window. */
  ghost predicate Agrees(all: seq<Message>, bounded: set<MessageId>, unbounded: set<MessageId>) {
    && bounded <= unbounded <= Ids(all)
    && (unbounded - bounded) !! Ids(Feed(all))
  }

  lemma {:induction false} SameQuestionRaised(
    me: string, all: seq<Message>, bounded: set<MessageId>, unbounded: set<MessageId>)
    requires Agrees(all, bounded, unbounded)
    ensures Raised(me, Feed(all), bounded) == Raised(me, Feed(all), unbounded)
  {
    forall id | id in Questions(me, Feed(all)) ensures id in bounded <==> id in unbounded {
      assert id in Ids(Feed(all));
    }
    assert Pending(me, Feed(all), bounded) == Pending(me, Feed(all), unbounded);
  }

  /** What the 200 largest leave out has 200 newer visible messages, four windows' worth. */
  lemma {:induction false} RaisingAgrees(
    me: string, all: seq<Message>, bounded: set<MessageId>, unbounded: set<MessageId>, id: MessageId)
    requires IsHistory(all) && Agrees(all, bounded, unbounded) && id in Ids(all)
    ensures Agrees(all, Largest(REMEMBERED, bounded + {id}), unbounded + {id})
  {
    var kept := Largest(REMEMBERED, bounded + {id});
    forall x | x in unbounded + {id} - kept ensures x !in Ids(Feed(all)) {
      if x in bounded + {id} {
        assert kept != bounded + {id};
        assert |kept| == REMEMBERED;
        OutOfWindow(all, x, kept);
      }
    }
  }

  lemma {:induction false} OutOfWindow(all: seq<Message>, x: MessageId, newer: set<MessageId>)
    requires IsHistory(all) && newer <= Ids(all) && |newer| >= WINDOW
    requires forall y :: y in newer ==> x < y
    ensures x !in Ids(Feed(all))
  {
    if x in Ids(Feed(all)) {
      FeedIsVisible(all, x);
      var k :| FeedStart(all) <= k < |all| && all[k].id == x;
      FewAreNewer(all, k, newer);
    }
  }

  /** Ids leave the window for good. */
  lemma {:induction false} WindowMovesOn(all: seq<Message>, posted: seq<Message>, k: nat)
    requires IsHistory(all + posted) && k < |all| && all[k].id in Ids(Feed(all + posted))
    ensures all[k].id in Ids(Feed(all))
  {
    assert (all + posted)[k] == all[k];
    assert IsHistory(all) by { assert all == (all + posted)[..|all|]; }
    InTheWindow(all + posted, k);
    InTheWindow(all, k);
  }

  lemma {:induction false} PostingAgrees(
    all: seq<Message>, posted: seq<Message>, bounded: set<MessageId>, unbounded: set<MessageId>)
    requires IsHistory(all + posted) && Agrees(all, bounded, unbounded)
    ensures Agrees(all + posted, bounded, unbounded)
  {
    forall x | x in Ids(all)
      ensures x in Ids(all + posted) && (x in Ids(Feed(all + posted)) ==> x in Ids(Feed(all)))
    {
      var k :| 0 <= k < |all| && all[k].id == x;
      assert (all + posted)[k].id == x;
      if x in Ids(Feed(all + posted)) {
        WindowMovesOn(all, posted, k);
      }
    }
  }

  /** A run: before each stop some messages arrive. */
  ghost predicate IsRun(all: seq<Message>, run: seq<seq<Message>>)
    decreases |run|
  {
    run == [] || (IsHistory(all + run[0]) && IsRun(all + run[0], run[1..]))
  }

  ghost function SeenAfter(seen: set<MessageId>, raised: Option<MessageId>, bounded: bool): set<MessageId> {
    if bounded then Remembered(seen, raised) else if raised.None? then seen else seen + {raised.value}
  }

  /** What the hook raises along a run; with `bounded` off it never forgets. */
  ghost function Outcomes(
    me: string, all: seq<Message>, seen: set<MessageId>, run: seq<seq<Message>>, bounded: bool)
    : (r: seq<Option<MessageId>>)
    ensures |r| == |run|
    decreases |run|
  {
    if run == [] then []
    else
      var now := all + run[0];
      var raised := Raised(me, Feed(now), seen);
      [raised] + Outcomes(me, now, SeenAfter(seen, raised, bounded), run[1..], bounded)
  }

  /** The guard that keeps 200 ids raises exactly what one that keeps every id would, on every run. */
  lemma {:induction false} TheBoundIsInvisible(
    me: string, all: seq<Message>, bounded: set<MessageId>, unbounded: set<MessageId>, run: seq<seq<Message>>)
    requires IsRun(all, run) && Agrees(all, bounded, unbounded)
    ensures Outcomes(me, all, bounded, run, true) == Outcomes(me, all, unbounded, run, false)
    decreases |run|
  {
    if run != [] {
      var now := all + run[0];
      PostingAgrees(all, run[0], bounded, unbounded);
      SameQuestionRaised(me, now, bounded, unbounded);
      var raised := Raised(me, Feed(now), bounded);
      if raised.Some? {
        assert raised.value in Questions(me, Feed(now));
        FeedIsVisible(now, raised.value);
        RaisingAgrees(me, now, bounded, unbounded, raised.value);
        TheBoundIsInvisible(me, now, Remembered(bounded, raised), unbounded + {raised.value}, run[1..]);
      } else {
        TheBoundIsInvisible(me, now, bounded, unbounded, run[1..]);
      }
    }
  }

  lemma {:induction false} OutcomesBegin(me: string, all: seq<Message>, seen: set<MessageId>, run: seq<seq<Message>>)
    requires run != []
    ensures var raised := Raised(me, Feed(all + run[0]), seen);
            Outcomes(me, all, seen, run, false)
            == [raised] + Outcomes(me, all + run[0], SeenAfter(seen, raised, false), run[1..], false)
  {}

  lemma {:induction false} SeenIsNotRaised(
    me: string, all: seq<Message>, seen: set<MessageId>, run: seq<seq<Message>>, id: MessageId, j: nat)
    requires id in seen && j < |run|
    ensures Outcomes(me, all, seen, run, false)[j] != Some(id)
    decreases |run|
  {
    var now := all + run[0];
    var raised := Raised(me, Feed(now), seen);
    if j > 0 {
      SeenIsNotRaised(me, now, SeenAfter(seen, raised, false), run[1..], id, j - 1);
    }
  }

  lemma {:induction false} LaterOutcome(
    me: string, all: seq<Message>, seen: set<MessageId>, run: seq<seq<Message>>, j: nat)
    requires 0 < j < |run|
    ensures var now := all + run[0];
            var after := SeenAfter(seen, Raised(me, Feed(now), seen), false);
            Outcomes(me, all, seen, run, false)[j] == Outcomes(me, now, after, run[1..], false)[j - 1]
  {
    OutcomesBegin(me, all, seen, run);
  }

  lemma {:induction false} RaisedOnce(
    me: string, all: seq<Message>, seen: set<MessageId>, run: seq<seq<Message>>, i: nat, j: nat, id: MessageId)
    requires i < j < |run| && Outcomes(me, all, seen, run, false)[i] == Some(id)
    ensures Outcomes(me, all, seen, run, false)[j] != Some(id)
    decreases i
  {
    var now := all + run[0];
    var after := SeenAfter(seen, Raised(me, Feed(now), seen), false);
    LaterOutcome(me, all, seen, run, j);
    if i == 0 {
      OutcomesBegin(me, all, seen, run);
      assert id in after;
      SeenIsNotRaised(me, now, after, run[1..], id, j - 1);
    } else {
      LaterOutcome(me, all, seen, run, i);
      RaisedOnce(me, now, after, run[1..], i - 1, j - 1, id);
    }
  }

  /** The session is never held open twice for one question, although the guard is bounded. */
  lemma {:induction false} NoQuestionIsRaisedTwice(me: string, run: seq<seq<Message>>, i: nat, j: nat)
    requires IsRun([], run) && i < j < |run|
    requires Outcomes(me, [], {}, run, true)[i].Some?
    ensures Outcomes(me, [], {}, run, true)[i] != Outcomes(me, [], {}, run, true)[j]
  {
    TheBoundIsInvisible(me, [], {}, {}, run);
    RaisedOnce(me, [], {}, run, i, j, Outcomes(me, [], {}, run, true)[i].value);
  }

  // ------------------------------------------------------------------------ draining --

  /** The answers to a question in the window are in the window too. */
  lemma {:induction false} AnswersAreInTheWindow(me: string, all: seq<Message>, k: nat, id: MessageId)
    requires IsHistory(all) && k < |all| && all[k].sender == me && all[k].replyTo == Some(id) && id in Ids(Feed(all))
    ensures id in Answered(me, Feed(all))
  {
    FeedIsVisible(all, id);
    var at :| FeedStart(all) <= at < |all| && all[at].id == id;
    assert at < k;
    assert Feed(all)[k - FeedStart(all)] == all[k];
  }

  /** ... so what is raised was never answered, however long ago. */
  lemma {:induction false} RaisedWasNeverAnswered(me: string, all: seq<Message>, seen: set<MessageId>, k: nat)
    requires IsHistory(all) && k < |all| && Raised(me, Feed(all), seen).Some?
    ensures !(all[k].sender == me && all[k].replyTo == Raised(me, Feed(all), seen))
  {
    var id := Raised(me, Feed(all), seen).value;
    assert id in Questions(me, Feed(all)) && id !in Answered(me, Feed(all));
    assert id in Ids(Feed(all));
    if all[k].sender == me && all[k].replyTo == Some(id) {
      AnswersAreInTheWindow(me, all, k, id);
    }
  }

  ghost function Silence(n: nat): seq<seq<Message>> {
    seq(n, _ => [])
  }

  lemma {:induction false} SilentRun(all: seq<Message>, n: nat)
    requires IsHistory(all)
    ensures IsRun(all, Silence(n))
  {
    if n > 0 {
      assert all + [] == all;
      assert Silence(n)[1..] == Silence(n - 1);
      SilentRun(all, n - 1);
    }
  }

  /** The pending questions in increasing order, then nothing. */
  ghost predicate Drains(pending: set<MessageId>, r: seq<Option<MessageId>>) {
    && |pending| <= |r|
    && (forall k :: 0 <= k < |pending| ==> r[k].Some? && r[k].value in pending)
    && (forall j, k :: 0 <= j < k < |pending| ==> r[j].value < r[k].value)
    && (forall k :: |pending| <= k < |r| ==> r[k] == None)
  }

  lemma {:induction false} DrainsFromTheLeast(pending: set<MessageId>, tail: seq<Option<MessageId>>)
    requires pending != {} && Drains(pending - {Least(pending)}, tail)
    ensures Drains(pending, [Some(Least(pending))] + tail)
  {
    var rest := pending - {Least(pending)};
    assert |rest| == |pending| - 1;
    var r := [Some(Least(pending))] + tail;
    forall k | 0 < k < |pending| ensures r[k].Some? && r[k].value in pending && r[0].value < r[k].value {
      assert r[k] == tail[k - 1];
    }
    forall k | |pending| <= k < |r| ensures r[k] == None {
      assert r[k] == tail[k - 1];
    }
  }

  /** With no new messages repeated stops raise every pending question, oldest first, and then end. */
  lemma {:induction false} StopsDrain(me: string, all: seq<Message>, seen: set<MessageId>, n: nat)
    requires IsHistory(all) && seen <= Ids(all)
    requires n >= |Pending(me, Feed(all), seen)|
    ensures Drains(Pending(me, Feed(all), seen), Outcomes(me, all, seen, Silence(n), true))
  {
    SilentRun(all, n);
    TheBoundIsInvisible(me, all, seen, seen, Silence(n));
    UnboundedDrains(me, all, seen, n);
  }

  lemma {:induction false} SilentStop(me: string, all: seq<Message>, seen: set<MessageId>, n: nat)
    requires n > 0
    ensures var raised := Raised(me, Feed(all), seen);
            Outcomes(me, all, seen, Silence(n), false)
            == [raised] + Outcomes(me, all, SeenAfter(seen, raised, false), Silence(n - 1), false)
  {
    assert all + [] == all && Silence(n)[0] == [];
    assert Silence(n)[1..] == Silence(n - 1);
    OutcomesBegin(me, all, seen, Silence(n));
  }

  lemma {:induction false} NoneLeft(tail: seq<Option<MessageId>>)
    requires Drains({}, tail)
    ensures Drains({}, [None] + tail)
  {
    var r := [None] + tail;
    forall k | 0 < k < |r| ensures r[k] == None {
      assert r[k] == tail[k - 1];
    }
  }

  lemma {:induction false} NothingToDrain(pending: set<MessageId>, r: seq<Option<MessageId>>)
    requires |pending| == 0 && r == []
    ensures Drains(pending, r)
  {}

  lemma {:induction false} UnboundedDrains(me: string, all: seq<Message>, seen: set<MessageId>, n: nat)
    requires n >= |Pending(me, Feed(all), seen)|
    ensures Drains(Pending(me, Feed(all), seen), Outcomes(me, all, seen, Silence(n), false))
    decreases n, 1
  {
    if n > 0 {
      OneStopDrains(me, all, seen, n);
    } else {
      NothingToDrain(Pending(me, Feed(all), seen), Outcomes(me, all, seen, Silence(n), false));
    }
  }

  lemma {:induction false} OneStopDrains(me: string, all: seq<Message>, seen: set<MessageId>, n: nat)
    requires n > 0 && n >= |Pending(me, Feed(all), seen)|
    ensures Drains(Pending(me, Feed(all), seen), Outcomes(me, all, seen, Silence(n), false))
    decreases n, 0
  {
    var pending := Pending(me, Feed(all), seen);
    var raised := Raised(me, Feed(all), seen);
    var seen' := SeenAfter(seen, raised, false);
    var tail := Outcomes(me, all, seen', Silence(n - 1), false);
    SilentStop(me, all, seen, n);
    if pending == {} {
      UnboundedDrains(me, all, seen', n - 1);
      NoneLeft(tail);
    } else {
      OneLess(me, Feed(all), seen);
      UnboundedDrains(me, all, seen', n - 1);
      DrainsFromTheLeast(pending, tail);
    }
  }

  lemma OneLess(me: string, feed: seq<Message>, seen: set<MessageId>)
    requires Pending(me, feed, seen) != {}
    ensures var pending := Pending(me, feed, seen);
            var rest := Pending(me, feed, seen + {Least(pending)});
            rest == pending - {Least(pending)} && |rest| == |pending| - 1
  {
    var pending := Pending(me, feed, seen);
    assert Pending(me, feed, seen + {Least(pending)}) == pending - {Least(pending)};
  }

  // ------------------------------------------------------------------- in fields --

  /** The message asks something of this agent: direct, from somebody else, and marked as a question. */
  predicate Asks(me: string, m: Message) {
    && m.recipient.Some? && |m.recipient.value| > 0 && m.sender != me && m.question
  }

  /** An open question of the window: not answered in it, and not raised before. */
  ghost predicate IsOpen(me: string, feed: seq<Message>, seen: set<MessageId>, id: MessageId) {
    && (exists m :: m in feed && m.id == id && Asks(me, m))
    && (forall m :: m in feed && m.sender == me ==> m.replyTo != Some(id))
    && id !in seen
  }

  lemma {:induction false} PendingIsOpen(me: string, feed: seq<Message>, seen: set<MessageId>, id: MessageId)
    ensures id in Pending(me, feed, seen) <==> IsOpen(me, feed, seen, id)
  {
    if m :| m in feed && m.id == id && Asks(me, m) {
      var k :| 0 <= k < |feed| && feed[k] == m;
      assert IsQuestion(me, feed[k]);
    }
    if id in Answered(me, feed) {
      var k :| 0 <= k < |feed| && feed[k].sender == me && feed[k].replyTo == Some(id);
      assert feed[k] in feed;
    }
  }

  /** A stop raises the oldest open question of the newest fifty messages, and none exactly if there is none. */
  lemma {:induction false} StopsInFields(me: string, all: seq<Message>, seen: set<MessageId>)
    ensures var feed := if |all| <= 50 then all else all[|all| - 50..];
            match Raised(me, Feed(all), seen)
            case Some(id) => IsOpen(me, feed, seen, id) && forall o :: IsOpen(me, feed, seen, o) ==> id <= o
            case None => forall o :: !IsOpen(me, feed, seen, o)
  {
    assert Feed(all) == if |all| <= 50 then all else all[|all| - 50..];
    forall o ensures o in Pending(me, Feed(all), seen) <==> IsOpen(me, Feed(all), seen, o) {
      PendingIsOpen(me, Feed(all), seen, o);
    }
  }

  /** What is raised is remembered, with the 199 largest ids besides it or, if it is smaller, without it. */
  lemma {:induction false} MemoryInNumbers(seen: set<MessageId>, id: MessageId)
    ensures Remembered(seen, None) == seen
    ensures var r := Remembered(seen, Some(id));
            && r <= seen + {id} && |r| == (if |seen + {id}| <= 200 then |seen + {id}| else 200)
            && forall x, y :: x in seen + {id} && x !in r && y in r ==> x < y
  {}

  /** A history grows by messages with larger ids that reply, if at all, to earlier ones. */
  lemma {:induction false} HistoriesGrow(all: seq<Message>, m: Message)
    ensures IsHistory([])
    ensures IsHistory(all + [m]) <==>
              && IsHistory(all) && (forall k :: 0 <= k < |all| ==> all[k].id < m.id)
              && (m.replyTo.Some? ==> m.replyTo.value < m.id)
  {
    var more := all + [m];
    assert forall k :: 0 <= k < |all| ==> more[k] == all[k];
    assert more[|all|] == m;
    if IsHistory(more) {
      forall i, j | 0 <= i < j < |all| ensures all[i].id < all[j].id {
        assert more[i].id < more[j].id;
      }
      forall i | 0 <= i < |all| && all[i].replyTo.Some? ensures all[i].replyTo.value < all[i].id {
        assert more[i].replyTo.Some?;
      }
      forall k | 0 <= k < |all| ensures all[k].id < m.id {
        assert more[k].id < more[|all|].id;
      }
    }
  }
}
