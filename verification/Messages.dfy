/**
 Messages, the events their INSERT announces, and the three hand-written rules that have to agree
 about them: the wake filter, the backlog query and the answer query.
 */
module Messages {
  import opened Base

  type ChannelId = nat

  datatype Message = Message(
    id: MessageId,
    team: TeamId,
    sender: AgentId,
    senderSession: Option<string>,
    channel: Option<ChannelId>,
    recipient: Option<AgentId>,
    recipientSession: Option<string>,
    replyTo: Option<MessageId>,
    announce: bool)

  /** The CHECK constraint: exactly one of channel and recipient. */
  predicate WellFormed(m: Message) {
    m.channel.Some? <==> m.recipient.None?
  }

  /** A parsed NOTIFY payload; an absent field and a NULL one are the same. */
  datatype BusEvent = BusEvent(
    kind: Kind,
    team: TeamId,
    id: Option<MessageId>,
    channel: Option<ChannelId>,
    recipient: Option<AgentId>,
    recipientSession: Option<string>,
    sender: Option<AgentId>,
    senderSession: Option<string>,
    announce: bool)

  /** notify_message. */
  function EventOf(m: Message): BusEvent {
    BusEvent(MessageKind, m.team, Some(m.id), m.channel, m.recipient, m.recipientSession, Some(m.sender),
      m.senderSession, m.announce)
  }

  predicate IsDirect(e: BusEvent) {
    e.kind == MessageKind && e.recipient.Some?
  }

  predicate VisibleTo(e: BusEvent, who: Auth) {
    if e.team != who.team then false
    else if !IsDirect(e) then true
    else if e.sender == Some(who.agent) then true
    else if e.recipient != Some(who.agent) then false
    else e.recipientSession == None || e.recipientSession == Some(who.session)
  }

  /** Only channel messages are filtered by the session's channel, and announcements never are. */
  predicate InFocus(e: BusEvent, focus: Option<ChannelId>) {
    e.announce || focus == None || e.channel == None || focus == e.channel
  }

  predicate Wants(kinds: Option<set<Kind>>, kind: Kind) {
    kinds == None || kind in kinds.value
  }

  /** "Your own messages are not news to you": this session's, not the person's. */
  predicate SentHere(e: BusEvent, who: Auth) {
    e.kind == MessageKind && e.sender == Some(who.agent) && SharedIfNull(e.senderSession) == who.session
  }

  /** What ends a wait. */
  predicate Wakes(e: BusEvent, who: Auth, focus: Option<ChannelId>, kinds: Option<set<Kind>>) {
    VisibleTo(e, who) && Wants(kinds, e.kind) && InFocus(e, focus) && !SentHere(e, who)
  }

  /** What is reported along with it during the grace window: here own messages are excluded by agent. */
  predicate JoinsInGrace(e: BusEvent, who: Auth, focus: Option<ChannelId>, kinds: Option<set<Kind>>) {
    VisibleTo(e, who) && InFocus(e, focus) && Wants(kinds, e.kind) &&
      !(e.kind == MessageKind && e.sender == Some(who.agent))
  }

  predicate AddressedTo(m: Message, who: Auth) {
    m.recipient == Some(who.agent) && (m.recipientSession == None || m.recipientSession == Some(who.session))
  }

  /** The backlog query of wait_for_updates, leaving the cursor aside. */
  predicate CountsAsBacklog(m: Message, who: Auth, focus: Option<ChannelId>) {
    && m.team == who.team
    && !(m.sender == who.agent && SharedIfNull(m.senderSession) == who.session)
    && (|| (m.channel.Some? && (focus == None || m.channel == focus || m.announce))
        || AddressedTo(m, who))
  }

  /** A direct message sent by another session of the caller's own agent, and not addressed to this session. */
  predicate SiblingMailElsewhere(m: Message, who: Auth) {
    && m.team == who.team && m.recipient.Some?
    && m.sender == who.agent && SharedIfNull(m.senderSession) != who.session
    && !AddressedTo(m, who)
  }

  /**
   Backlog and wake filter agree: everything reported as backlog would have woken the wait, and the
   only wakes that are not backlog are the sibling sessions' direct messages to somebody else.
   */
  lemma BacklogVersusWake(m: Message, who: Auth, focus: Option<ChannelId>, kinds: Option<set<Kind>>)
    requires WellFormed(m) && Wants(kinds, MessageKind)
    ensures CountsAsBacklog(m, who, focus) ==> Wakes(EventOf(m), who, focus, kinds)
    ensures Wakes(EventOf(m), who, focus, kinds) && !CountsAsBacklog(m, who, focus) <==> SiblingMailElsewhere(m, who)
  {
    if m.channel.Some? {
      assert !IsDirect(EventOf(m));
    } else {
      assert IsDirect(EventOf(m)) && InFocus(EventOf(m), focus);
    }
  }

  /** The grace window is narrower than the wake filter by exactly the messages of sibling sessions. */
  lemma GraceIsNarrower(e: BusEvent, who: Auth, focus: Option<ChannelId>, kinds: Option<set<Kind>>)
    ensures JoinsInGrace(e, who, focus, kinds) ==> Wakes(e, who, focus, kinds)
    ensures Wakes(e, who, focus, kinds) && !JoinsInGrace(e, who, focus, kinds) <==>
              Wakes(e, who, focus, kinds) && e.kind == MessageKind && e.sender == Some(who.agent)
  {}

  // --------------------------------------------------------------------- answers --

  /** An ask in progress: who is asking, whom, and the id of the question. */
  datatype Ask = Ask(who: Auth, target: AgentId, targetSession: Option<string>, question: MessageId)

  /** The WHERE clause of find_answer. */
  predicate Answers(m: Message, a: Ask) {
    && m.sender == a.target
    && AddressedTo(m, a.who)
    && m.id > a.question
    && (a.targetSession == None || SharedIfNull(m.senderSession) == a.targetSession.value)
  }

  /** `(m.reply_to = question) DESC NULLS LAST`: a reply to it, then a reply to anything else, then a plain message. */
  function Rank(m: Message, question: MessageId): nat {
    if m.replyTo == None then 2 else if m.replyTo == Some(question) then 0 else 1
  }

  predicate Before(a: Message, b: Message, question: MessageId) {
    Rank(a, question) < Rank(b, question) || (Rank(a, question) == Rank(b, question) && a.id < b.id)
  }

  /** Ids become visible in increasing order. */
  ghost predicate Ascending(ms: seq<Message>) {
    forall i, j :: 0 <= i < j < |ms| ==> ms[i].id < ms[j].id
  }

  /** The LIMIT 1 of find_answer. */
  function FindAnswer(ms: seq<Message>, a: Ask): (best: Option<Message>)
    ensures best == None <==> forall m :: m in ms ==> !Answers(m, a)
    ensures best.Some? ==> best.value in ms && Answers(best.value, a)
    ensures best.Some? ==>
              forall m :: m in ms && Answers(m, a) ==> m == best.value || !Before(m, best.value, a.question)
  {
    if ms == [] then None
    else
      var front := FindAnswer(ms[..|ms| - 1], a);
      var last := ms[|ms| - 1];
      assert ms == ms[..|ms| - 1] + [last];
      if !Answers(last, a) then front
      else if front == None || Before(last, front.value, a.question) then Some(last)
      else front
  }

  /** The ask_agent filter on events. */
  predicate AskWakes(e: BusEvent, a: Ask) {
    && e.kind == MessageKind
    && e.sender == Some(a.target)
    && e.recipient == Some(a.who.agent)
    && e.id.Some? && e.id.value > a.question
    && (e.recipientSession == None || e.recipientSession == Some(a.who.session))
  }

  /** Every row the query accepts produces an event the filter lets through; the question itself is neither. */
  lemma AnswersWake(m: Message, a: Ask)
    ensures Answers(m, a) ==> AskWakes(EventOf(m), a)
    ensures m.id == a.question ==> !Answers(m, a) && !AskWakes(EventOf(m), a)
  {}

  /** `after` is `before`, or a better-ranked message that came later. */
  ghost predicate KeptOrOutranked(
    before: Option<Message>, after: Option<Message>, more: seq<Message>, question: MessageId)
  {
    before.Some? ==>
      && after.Some?
      && (after == before || (after.value in more && Rank(after.value, question) < Rank(before.value, question)))
  }

  lemma {:induction false} OneMorePost(ms: seq<Message>, last: Message, a: Ask)
    requires Ascending(ms + [last])
    ensures KeptOrOutranked(FindAnswer(ms, a), FindAnswer(ms + [last], a), [last], a.question)
  {
    assert (ms + [last])[..|ms|] == ms;
    var best := FindAnswer(ms, a);
    if best.Some? {
      var k :| 0 <= k < |ms| && ms[k] == best.value;
      assert (ms + [last])[k].id < (ms + [last])[|ms|].id;
    }
  }

  /** Later posts never replace an answer, except by one of a better rank. */
  lemma {:induction false} LaterPostsAppend(ms: seq<Message>, more: seq<Message>, a: Ask)
    requires Ascending(ms + more)
    ensures KeptOrOutranked(FindAnswer(ms, a), FindAnswer(ms + more, a), more, a.question)
    decreases |more|
  {
    if more == [] {
      assert ms + more == ms;
    } else {
      var front, last := more[..|more| - 1], more[|more| - 1];
      assert more == front + [last] && ms + more == ms + front + [last];
      assert Ascending(ms + front) by { assert ms + front == (ms + more)[..|ms + front|]; }
      LaterPostsAppend(ms, front, a);
      OneMorePost(ms + front, last, a);
    }
  }

  /** An explicit reply, once found, is found for ever, whatever is posted later. */
  lemma {:induction false} ExplicitRepliesAreFinal(ms: seq<Message>, more: seq<Message>, a: Ask)
    requires Ascending(ms + more) && FindAnswer(ms, a).Some? && FindAnswer(ms, a).value.replyTo == Some(a.question)
    ensures FindAnswer(ms + more, a) == FindAnswer(ms, a)
  {
    LaterPostsAppend(ms, more, a);
  }

  /** What the documentation promises: the first explicit reply if there is one, else the first direct message. */
  ghost predicate DocumentedAnswer(ms: seq<Message>, a: Ask, m: Message) {
    && m in ms && Answers(m, a)
    && (if exists r :: r in ms && Answers(r, a) && r.replyTo == Some(a.question) then
          m.replyTo == Some(a.question) && forall r :: r in ms && Answers(r, a) && r.replyTo == Some(a.question) ==>
            m.id <= r.id
        else forall r :: r in ms && Answers(r, a) ==> m.id <= r.id)
  }

  /**
   The family on which code and documentation differ: no explicit reply, and a plain message precedes a reply to
   something else.
   */
  ghost predicate PlainBeforeForeignReply(ms: seq<Message>, a: Ask) {
    && (forall r :: r in ms && Answers(r, a) ==> r.replyTo != Some(a.question))
    && exists p, r :: p in ms && r in ms && Answers(p, a) && Answers(r, a) && p.replyTo == None && r.replyTo.Some?
                      && (forall o :: o in ms && Answers(o, a) ==> p.id <= o.id)
  }

  /** find_answer returns the documented answer exactly when the messages are not of that family. */
  lemma {:induction false} AnswerMeetsItsDocumentation(ms: seq<Message>, a: Ask)
    requires Ascending(ms) && FindAnswer(ms, a).Some?
    ensures DocumentedAnswer(ms, a, FindAnswer(ms, a).value) <==> !PlainBeforeForeignReply(ms, a)
  {
    if exists r :: r in ms && Answers(r, a) && r.replyTo == Some(a.question) {
      ExplicitReplyIsDocumented(ms, a);
    } else {
      WithoutExplicitReply(ms, a);
    }
  }

  /** A direct message of the target to the asker, with this id. */
  function DirectAnswer(a: Ask, id: MessageId, replyTo: Option<MessageId>): Message {
    Message(id, a.who.team, a.target, a.targetSession, None, Some(a.who.agent), None, replyTo, false)
  }

  /** The difference is real for every ask: a plain answer, then a reply to some other message. */
  lemma {:induction false} APlainAnswerIsPassedOver(a: Ask, other: MessageId)
    requires other != a.question
    ensures var plain, foreign := DirectAnswer(a, a.question + 1, None), DirectAnswer(a, a.question + 2, Some(other));
            && Ascending([plain, foreign]) && PlainBeforeForeignReply([plain, foreign], a)
            && DocumentedAnswer([plain, foreign], a, plain) && FindAnswer([plain, foreign], a) == Some(foreign)
  {
    var plain, foreign := DirectAnswer(a, a.question + 1, None), DirectAnswer(a, a.question + 2, Some(other));
    var ms := [plain, foreign];
    assert plain in ms && foreign in ms && Answers(plain, a) && Answers(foreign, a);
    assert Before(foreign, plain, a.question);
    assert FindAnswer(ms, a).Some?;
  }

  lemma {:induction false} ExplicitReplyIsDocumented(ms: seq<Message>, a: Ask)
    requires FindAnswer(ms, a).Some? && exists r :: r in ms && Answers(r, a) && r.replyTo == Some(a.question)
    ensures DocumentedAnswer(ms, a, FindAnswer(ms, a).value)
  {
    var best := FindAnswer(ms, a).value;
    forall r | r in ms && Answers(r, a) && r.replyTo == Some(a.question)
      ensures best.replyTo == Some(a.question) && best.id <= r.id
    {
      assert r == best || !Before(r, best, a.question);
    }
  }

  lemma {:induction false} WithoutExplicitReply(ms: seq<Message>, a: Ask)
    requires Ascending(ms) && FindAnswer(ms, a).Some?
    requires forall r :: r in ms && Answers(r, a) ==> r.replyTo != Some(a.question)
    ensures DocumentedAnswer(ms, a, FindAnswer(ms, a).value) <==> !PlainBeforeForeignReply(ms, a)
  {
    var best := FindAnswer(ms, a).value;
    var first := Earliest(ms, a);
    assert DocumentedAnswer(ms, a, best) <==> best.id == first.id;
    if best.id == first.id {
      SameId(ms, first, best);
      forall p, r | p in ms && r in ms && Answers(p, a) && Answers(r, a) && p.replyTo == None && r.replyTo.Some?
        ensures !(forall o :: o in ms && Answers(o, a) ==> p.id <= o.id)
      {
        assert r == best || !Before(r, best, a.question);
        assert p.id != best.id by { if p.id == best.id { SameId(ms, p, best); } }
        assert !(p.id <= best.id);
      }
    } else {
      assert !Before(first, best, a.question);
      assert first.replyTo == None && best.replyTo.Some?;
    }
  }

  lemma {:induction false} SameId(ms: seq<Message>, a: Message, b: Message)
    requires Ascending(ms) && a in ms && b in ms && a.id == b.id
    ensures a == b
  {
    var i :| 0 <= i < |ms| && ms[i] == a;
    var j :| 0 <= j < |ms| && ms[j] == b;
  }

  lemma {:induction false} Earliest(ms: seq<Message>, a: Ask) returns (first: Message)
    requires Ascending(ms) && exists m :: m in ms && Answers(m, a)
    ensures first in ms && Answers(first, a) && forall o :: o in ms && Answers(o, a) ==> first.id <= o.id
    decreases |ms|
  {
    first := ms[0];
    if Answers(first, a) {
      forall o | o in ms ensures first.id <= o.id {
        var k :| 0 <= k < |ms| && ms[k] == o;
      }
    } else {
      assert ms == [ms[0]] + ms[1..];
      first := Earliest(ms[1..], a);
    }
  }

  // ------------------------------------------------------------------- resuming --

  /** The WHERE clause of verify_question. */
  predicate Verifies(m: Message, a: Ask) {
    && m.id == a.question && m.sender == a.who.agent && m.recipient == Some(a.target)
    && SharedIfNull(m.senderSession) == a.who.session
    && m.recipientSession == a.targetSession
  }

  /** The session as it is stored on a message: none for the shared session. */
  function SessionLabel(who: Auth): Option<string> {
    if who.session == "" then None else Some(who.session)
  }

  /** The question an ask posts. */
  predicate IsQuestionOf(m: Message, a: Ask) {
    && m.id == a.question && m.sender == a.who.agent && m.senderSession == SessionLabel(a.who)
    && m.recipient == Some(a.target) && m.recipientSession == a.targetSession
  }

  /** verify_question accepts a resume exactly when it is the same ask, from the same session to the same address. */
  lemma ResumeIsTheSameAsk(m: Message, asked: Ask, resumed: Ask)
    requires IsQuestionOf(m, asked) && resumed.question == asked.question
    ensures Verifies(m, resumed) <==>
              && SameSession(asked.who, resumed.who)
              && asked.target == resumed.target && asked.targetSession == resumed.targetSession
    ensures Verifies(m, resumed) ==> forall x :: Answers(x, resumed) == Answers(x, asked)
  {}

  /** So a resumed ask finds the same answer as the original call would. */
  lemma {:induction false} ResumeFindsTheSameAnswer(ms: seq<Message>, m: Message, asked: Ask, resumed: Ask)
    requires IsQuestionOf(m, asked) && resumed.question == asked.question && Verifies(m, resumed)
    ensures FindAnswer(ms, resumed) == FindAnswer(ms, asked)
    decreases |ms|
  {
    ResumeIsTheSameAsk(m, asked, resumed);
    if ms != [] {
      ResumeFindsTheSameAnswer(ms[..|ms| - 1], m, asked, resumed);
    }
  }

  // ------------------------------------------------------------------- in columns --

  /** Whoever waits is never woken by another team. */
  lemma OtherTeamsNeverWake(e: BusEvent, who: Auth, focus: Option<ChannelId>, kinds: Option<set<Kind>>)
    requires e.team != who.team
    ensures !VisibleTo(e, who) && !Wakes(e, who, focus, kinds) && !JoinsInGrace(e, who, focus, kinds)
  {}

  /** A change of a task, a lock or a note wakes the whole team, or those of it that asked for its kind. */
  lemma ChangesWakeTheTeam(e: BusEvent, who: Auth, focus: Option<ChannelId>, kinds: Option<set<Kind>>)
    requires e.kind != MessageKind && e.channel == None
    ensures Wakes(e, who, focus, kinds) <==> e.team == who.team && (kinds == None || e.kind in kinds.value)
    ensures JoinsInGrace(e, who, focus, kinds) <==> Wakes(e, who, focus, kinds)
  {}

  /** Another session of the same agent sent it, or another agent: that is, not this very session. */
  predicate FromElsewhere(m: Message, who: Auth) {
    m.sender != who.agent || (if m.senderSession.Some? then m.senderSession.value else "") != who.session
  }

  /**
   A message wakes the sessions of its team that want messages, apart from the one that sent it: one in
   a channel, those that watch that channel or all of them, and everybody if it is an announcement; a
   direct one, the session or all the sessions it is addressed to, and its sender's other sessions.
   */
  lemma MessagesWakeTheirReaders(m: Message, who: Auth, focus: Option<ChannelId>, kinds: Option<set<Kind>>)
    requires WellFormed(m)
    ensures Wakes(EventOf(m), who, focus, kinds) <==>
              && m.team == who.team && (kinds == None || MessageKind in kinds.value) && FromElsewhere(m, who)
              && (if m.channel.Some? then m.announce || focus == None || focus.value == m.channel.value
                  else
                    || m.sender == who.agent
                    || (m.recipient.value == who.agent
                        && (m.recipientSession == None || m.recipientSession.value == who.session)))
  {}

  /** In the grace window none of the sender's sessions hears of it. */
  lemma GraceLeavesOutTheSender(m: Message, who: Auth, focus: Option<ChannelId>, kinds: Option<set<Kind>>)
    ensures JoinsInGrace(EventOf(m), who, focus, kinds) <==>
              Wakes(EventOf(m), who, focus, kinds) && m.sender != who.agent
  {}

  /** The backlog: what others posted in the channels this session watches, announced, or sent to it. */
  lemma BacklogInColumns(m: Message, who: Auth, focus: Option<ChannelId>)
    requires WellFormed(m)
    ensures CountsAsBacklog(m, who, focus) <==>
              && m.team == who.team && FromElsewhere(m, who)
              && (if m.channel.Some? then m.announce || focus == None || focus.value == m.channel.value
                  else
                    && m.recipient.value == who.agent
                    && (m.recipientSession == None || m.recipientSession.value == who.session))
  {}

  /**
   A row that answers an ask: a later message of the agent that was asked, to the session that asks or
   to all of that agent's; and from the session that was asked, if one was.
   */
  predicate IsAnswerRow(m: Message, a: Ask) {
    && m.sender == a.target && m.recipient == Some(a.who.agent) && m.id > a.question
    && (m.recipientSession == None || m.recipientSession == Some(a.who.session))
    && (a.targetSession.Some? ==>
          m.senderSession == a.targetSession || (m.senderSession == None && a.targetSession.value == ""))
  }

  /** What is returned is such a row of the table, and with one in the table something is returned. */
  lemma {:induction false} AnswersInColumns(ms: seq<Message>, a: Ask)
    ensures FindAnswer(ms, a).Some? ==> FindAnswer(ms, a).value in ms && IsAnswerRow(FindAnswer(ms, a).value, a)
    ensures FindAnswer(ms, a) == None <==> forall m :: m in ms ==> !IsAnswerRow(m, a)
  {
    forall m ensures Answers(m, a) <==> IsAnswerRow(m, a) {}
  }

  /** It is ranked first: replies to the question, then replies to anything else, then plain messages, oldest first. */
  lemma {:induction false} AnswersAreRanked(ms: seq<Message>, a: Ask, m: Message)
    requires FindAnswer(ms, a).Some? && m in ms && IsAnswerRow(m, a) && m != FindAnswer(ms, a).value
    ensures var best := FindAnswer(ms, a).value;
            && (m.replyTo == Some(a.question) ==> best.replyTo == Some(a.question) && best.id <= m.id)
            && (m.replyTo.Some? && best.replyTo != Some(a.question) ==> best.replyTo.Some? && best.id <= m.id)
            && (m.replyTo == None && best.replyTo == None ==> best.id <= m.id)
  {
    assert Answers(m, a);
  }

  /** The asking session looks again for a message of the agent it asked, and for nothing that is not one. */
  lemma AsksWakeOnAnswers(e: BusEvent, m: Message, a: Ask)
    ensures e.kind != MessageKind ==> !AskWakes(e, a)
    ensures AskWakes(EventOf(m), a) <==> IsAnswerRow(m, a.(targetSession := None))
  {}

  /** The question a resume names: this session's own, to the same agent and session. */
  lemma QuestionsInColumns(m: Message, a: Ask)
    ensures Verifies(m, a) <==>
              && m.id == a.question && m.sender == a.who.agent && !FromElsewhere(m, a.who)
              && m.recipient == Some(a.target) && m.recipientSession == a.targetSession
  {}

  /** The event a post announces carries what the filters look at. */
  lemma EventsInColumns(m: Message)
    ensures var e := EventOf(m);
            && e.kind == MessageKind && e.team == m.team && e.id == Some(m.id) && e.channel == m.channel
            && e.recipient == m.recipient && e.recipientSession == m.recipientSession
            && e.sender == Some(m.sender) && e.senderSession == m.senderSession && e.announce == m.announce
  {}
}
