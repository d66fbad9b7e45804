/**
 Incremental reading: `read_messages` with a cursor per agent, scope, session and view, which only
 moves forward. What is read, what a too-small page skips for good, and that readers do not disturb
 one another.
 */
module Reading {
  import opened Base
  import opened Messages
  import opened Sessions

  const MAX_LIMIT := 200

  datatype Scope = All | Inbox | InChannel(channel: ChannelId)

  /** One reader: a session of an agent, looking at a scope, for this session or across all of them. */
  datatype Reader = Reader(who: Auth, scope: Scope, allSessions: bool)

  /** The WHERE clauses of the three queries, leaving the cursor aside. */
  predicate Sees(r: Reader, m: Message) {
    var mine := m.recipient == Some(r.who.agent)
                && (r.allSessions || m.recipientSession == None || m.recipientSession == Some(r.who.session));
    match r.scope
    case All => m.team == r.who.team && (m.channel.Some? || mine || m.sender == r.who.agent)
    case Inbox => mine
    case InChannel(c) => m.channel == Some(c)
  }

  /** The messages `r` sees with `after < id <= upTo`, in the order of the table. */
  function Between(ms: seq<Message>, r: Reader, after: nat, upTo: nat): seq<Message> {
    if ms == [] then []
    else
      Between(ms[..|ms| - 1], r, after, upTo) +
      (var m := ms[|ms| - 1]; if Sees(r, m) && after < m.id <= upTo then [m] else [])
  }

  /** The largest id in the table. */
  function LastId(ms: seq<Message>): nat {
    if ms == [] then 0 else ms[|ms| - 1].id
  }

  function Unread(ms: seq<Message>, r: Reader, cursor: nat): seq<Message> {
    Between(ms, r, cursor, LastId(ms))
  }

  /** The newest `limit` of them. */
  function Page(unread: seq<Message>, limit: nat): seq<Message> {
    if |unread| > limit then unread[|unread| - limit..] else unread
  }

  /** The cursor after an only_new read that returned `page`. */
  function Moved(cursor: nat, page: seq<Message>): nat {
    if page != [] && page[|page| - 1].id > cursor then page[|page| - 1].id else cursor
  }

  // ----------------------------------------------------------------- range lemmas --

  lemma {:induction false} BetweenHolds(ms: seq<Message>, r: Reader, after: nat, upTo: nat)
    ensures forall m :: m in Between(ms, r, after, upTo) <==> m in ms && Sees(r, m) && after < m.id <= upTo
    decreases |ms|
  {
    if ms != [] {
      BetweenHolds(ms[..|ms| - 1], r, after, upTo);
      assert ms == ms[..|ms| - 1] + [ms[|ms| - 1]];
    }
  }

  lemma {:induction false} BetweenAscends(ms: seq<Message>, r: Reader, after: nat, upTo: nat)
    requires Ascending(ms)
    ensures Ascending(Between(ms, r, after, upTo))
    decreases |ms|
  {
    if ms != [] {
      var front, last := ms[..|ms| - 1], ms[|ms| - 1];
      BetweenAscends(front, r, after, upTo);
      BetweenHolds(front, r, after, upTo);
      var found := Between(front, r, after, upTo);
      forall k | 0 <= k < |found| ensures found[k].id < last.id {
        assert found[k] in front;
        var i :| 0 <= i < |front| && front[i] == found[k];
        assert ms[i] == found[k];
      }
    }
  }

  lemma BetweenIsSound(ms: seq<Message>, r: Reader, after: nat, upTo: nat)
    requires Ascending(ms)
    ensures Ascending(Between(ms, r, after, upTo))
    ensures forall m :: m in Between(ms, r, after, upTo) <==> m in ms && Sees(r, m) && after < m.id <= upTo
  {
    BetweenHolds(ms, r, after, upTo);
    BetweenAscends(ms, r, after, upTo);
  }

  lemma {:induction false} EmptyRange(ms: seq<Message>, r: Reader, after: nat, upTo: nat)
    requires upTo <= after
    ensures Between(ms, r, after, upTo) == []
    decreases |ms|
  {
    if ms != [] { EmptyRange(ms[..|ms| - 1], r, after, upTo); }
  }

  /** Two adjacent ranges concatenate. */
  lemma {:induction false} RangesJoin(ms: seq<Message>, r: Reader, a: nat, b: nat, c: nat)
    requires Ascending(ms) && a <= b <= c
    ensures Between(ms, r, a, b) + Between(ms, r, b, c) == Between(ms, r, a, c)
    decreases |ms|
  {
    if ms != [] {
      var front, last := ms[..|ms| - 1], ms[|ms| - 1];
      RangesJoin(front, r, a, b, c);
      if last.id <= b {
        NothingAbove(front, r, b, c, last.id);
      }
    }
  }

  lemma {:induction false} NothingAbove(ms: seq<Message>, r: Reader, after: nat, upTo: nat, bound: nat)
    requires forall m :: m in ms ==> m.id < bound
    requires bound <= after + 1
    ensures Between(ms, r, after, upTo) == []
    decreases |ms|
  {
    if ms != [] {
      assert ms[|ms| - 1] in ms;
      NothingAbove(ms[..|ms| - 1], r, after, upTo, bound);
    }
  }

  /** Messages posted later are outside a range that ends within the old table. */
  lemma {:induction false} LaterPostsAreOutside(ms: seq<Message>, more: seq<Message>, r: Reader, after: nat, upTo: nat)
    requires Ascending(ms + more) && (upTo <= LastId(ms) || more == [] || upTo <= after)
    ensures Between(ms + more, r, after, upTo) == Between(ms, r, after, upTo)
    decreases |more|
  {
    if more == [] {
      assert ms + more == ms;
    } else if upTo <= after {
      EmptyRange(ms + more, r, after, upTo);
      EmptyRange(ms, r, after, upTo);
    } else {
      var front, last := more[..|more| - 1], more[|more| - 1];
      assert (ms + more)[..|ms + more| - 1] == ms + front;
      LaterPostsAreOutside(ms, front, r, after, upTo);
      assert LastId(ms) < last.id by {
        if ms != [] { assert (ms + more)[|ms| - 1].id < (ms + more)[|ms + more| - 1].id; }
      }
    }
  }

  /** A longer range end makes no difference beyond the last id. */
  lemma {:induction false} RangeEndIsIrrelevant(ms: seq<Message>, r: Reader, after: nat, upTo: nat, upTo2: nat)
    requires forall m :: m in ms && Sees(r, m) && after < m.id ==> m.id <= upTo && m.id <= upTo2
    ensures Between(ms, r, after, upTo) == Between(ms, r, after, upTo2)
    decreases |ms|
  {
    if ms != [] {
      assert ms[|ms| - 1] in ms;
      RangeEndIsIrrelevant(ms[..|ms| - 1], r, after, upTo, upTo2);
    }
  }

  // --------------------------------------------------------------- one read at a time --

  /** The last unread message is the newest one the reader sees. */
  lemma {:induction false} NewestUnread(ms: seq<Message>, r: Reader, cursor: nat, newest: nat)
    requires Ascending(ms) && Unread(ms, r, cursor) != []
    requires newest == Unread(ms, r, cursor)[|Unread(ms, r, cursor)| - 1].id
    ensures cursor < newest <= LastId(ms)
    ensures forall m :: m in ms && Sees(r, m) && cursor < m.id ==> m.id <= newest
  {
    var unread := Unread(ms, r, cursor);
    BetweenIsSound(ms, r, cursor, LastId(ms));
    assert unread[|unread| - 1] in unread;
    forall m | m in ms && Sees(r, m) && cursor < m.id ensures m.id <= newest {
      AtMostLast(ms, m);
      assert m in unread;
      var k :| 0 <= k < |unread| && unread[k] == m;
    }
  }

  /** Nothing is unread beyond the newest, and everything unread is up to it. */
  lemma {:induction false} UnreadUpTo(ms: seq<Message>, r: Reader, cursor: nat, newest: nat)
    requires Ascending(ms) && cursor < newest <= LastId(ms)
    requires forall m :: m in ms && Sees(r, m) && cursor < m.id ==> m.id <= newest
    ensures Unread(ms, r, cursor) == Between(ms, r, cursor, newest) && Unread(ms, r, newest) == []
  {
    RangeEndIsIrrelevant(ms, r, cursor, LastId(ms), newest);
    RangesJoin(ms, r, cursor, newest, LastId(ms));
  }

  lemma {:induction false} PageIsSound(ms: seq<Message>, r: Reader, cursor: nat, limit: nat)
    requires Ascending(ms) && limit > 0
    ensures var unread := Unread(ms, r, cursor);
            var page := Page(unread, limit);
            && |page| == (if |unread| < limit then |unread| else limit)
            && Ascending(page)
            && (forall m :: m in page ==> m in ms && Sees(r, m) && cursor < m.id <= LastId(ms))
            && (unread != [] ==> page[|page| - 1] == unread[|unread| - 1])
  {
    BetweenIsSound(ms, r, cursor, LastId(ms));
  }

  /**
   One only_new read: it returns the newest unread messages, at most `limit` of them, in ascending
   order; afterwards nothing is unread, whether or not everything was returned.
   */
  lemma {:induction false} ReadCatchesUp(ms: seq<Message>, r: Reader, cursor: nat, limit: nat)
    requires Ascending(ms) && limit > 0
    ensures var unread := Unread(ms, r, cursor);
            var page := Page(unread, limit);
            var moved := Moved(cursor, page);
            && |page| == (if |unread| < limit then |unread| else limit)
            && Ascending(page)
            && (forall m :: m in page ==> m in ms && Sees(r, m) && cursor < m.id <= moved)
            && cursor <= moved && (cursor < moved ==> moved <= LastId(ms))
            && unread == Between(ms, r, cursor, moved)
            && Unread(ms, r, moved) == []
  {
    var unread := Unread(ms, r, cursor);
    PageIsSound(ms, r, cursor, limit);
    LastOfThePage(Page(unread, limit));
    if unread != [] {
      var newest := unread[|unread| - 1].id;
      NewestUnread(ms, r, cursor, newest);
      UnreadUpTo(ms, r, cursor, newest);
      assert Moved(cursor, Page(unread, limit)) == newest;
    } else {
      EmptyRange(ms, r, cursor, cursor);
    }
  }

  lemma {:induction false} LastOfThePage(page: seq<Message>)
    requires Ascending(page)
    ensures forall m :: m in page ==> m.id <= page[|page| - 1].id
  {
    forall m | m in page ensures m.id <= page[|page| - 1].id {
      var k :| 0 <= k < |page| && page[k] == m;
    }
  }

  lemma AtMostLast(ms: seq<Message>, m: Message)
    requires Ascending(ms) && m in ms
    ensures m.id <= LastId(ms)
  {
    var k :| 0 <= k < |ms| && ms[k] == m;
  }

  // -------------------------------------------------------------------------- runs --

  /** What happens to one cursor: posts by anybody, and this reader's only_new reads. */
  datatype Op = Post(message: Message) | Read(limit: nat)

  ghost predicate IsRun(ms: seq<Message>, ops: seq<Op>)
    decreases |ops|
  {
    ops == [] ||
    (match ops[0]
     case Post(m) => Ascending(ms + [m]) && IsRun(ms + [m], ops[1..])
     case Read(limit) => limit > 0 && IsRun(ms, ops[1..]))
  }

  function TableAfter(ms: seq<Message>, ops: seq<Op>): seq<Message>
    decreases |ops|
  {
    if ops == [] then ms
    else if ops[0].Post? then TableAfter(ms + [ops[0].message], ops[1..])
    else TableAfter(ms, ops[1..])
  }

  function CursorAfter(ms: seq<Message>, r: Reader, cursor: nat, ops: seq<Op>): nat
    decreases |ops|
  {
    if ops == [] then cursor
    else if ops[0].Post? then CursorAfter(ms + [ops[0].message], r, cursor, ops[1..])
    else CursorAfter(ms, r, Moved(cursor, Page(Unread(ms, r, cursor), ops[0].limit)), ops[1..])
  }

  /** Everything the reads returned, one after the other. */
  function Returned(ms: seq<Message>, r: Reader, cursor: nat, ops: seq<Op>): seq<Message>
    decreases |ops|
  {
    if ops == [] then []
    else if ops[0].Post? then Returned(ms + [ops[0].message], r, cursor, ops[1..])
    else
      var page := Page(Unread(ms, r, cursor), ops[0].limit);
      page + Returned(ms, r, Moved(cursor, page), ops[1..])
  }

  /** No read found more unread messages than its limit. */
  ghost predicate NothingCutOff(ms: seq<Message>, r: Reader, cursor: nat, ops: seq<Op>)
    decreases |ops|
  {
    ops == [] ||
    (match ops[0]
     case Post(m) => NothingCutOff(ms + [m], r, cursor, ops[1..])
     case Read(limit) =>
       && |Unread(ms, r, cursor)| <= limit
       && NothingCutOff(ms, r, Moved(cursor, Page(Unread(ms, r, cursor), limit)), ops[1..]))
  }

  lemma {:induction false} TableGrows(ms: seq<Message>, ops: seq<Op>) returns (more: seq<Message>)
    requires Ascending(ms) && IsRun(ms, ops)
    ensures TableAfter(ms, ops) == ms + more && Ascending(ms + more)
    decreases |ops|
  {
    if ops == [] {
      more := [];
      assert ms + more == ms;
    } else if ops[0].Post? {
      var rest := TableGrows(ms + [ops[0].message], ops[1..]);
      more := [ops[0].message] + rest;
      assert ms + more == ms + [ops[0].message] + rest;
    } else {
      more := TableGrows(ms, ops[1..]);
    }
  }

  /**
   Over any run of posts and reads the cursor never moves back and no message is returned twice:
   everything returned is visible to the reader, strictly ascending, and between the first cursor and
   the last.
   */
  lemma {:induction false} NothingIsReadTwice(ms: seq<Message>, r: Reader, cursor: nat, ops: seq<Op>)
    requires Ascending(ms) && IsRun(ms, ops)
    ensures cursor <= CursorAfter(ms, r, cursor, ops)
    ensures var all := Returned(ms, r, cursor, ops);
            Ascending(all) && forall m :: m in all ==> Sees(r, m) && cursor < m.id <= CursorAfter(ms, r, cursor, ops)
    decreases |ops|
  {
    if ops != [] {
      match ops[0] {
        case Post(m) => NothingIsReadTwice(ms + [m], r, cursor, ops[1..]);
        case Read(limit) =>
          ReadCatchesUp(ms, r, cursor, limit);
          var page := Page(Unread(ms, r, cursor), limit);
          NothingIsReadTwice(ms, r, Moved(cursor, page), ops[1..]);
          var rest := Returned(ms, r, Moved(cursor, page), ops[1..]);
          forall i, j | 0 <= i < j < |page + rest| ensures (page + rest)[i].id < (page + rest)[j].id {
            if i < |page| <= j {
              assert page[i] in page && rest[j - |page|] in rest;
            }
          }
      }
    }
  }

  /**
   Nothing is skipped either, exactly when no read was cut off by its limit: then the concatenated
   pages are the visible messages up to the final cursor, in ascending order; and otherwise some
   visible message at or below that cursor was never returned, and by the lemma above never will be.
   */
  lemma {:induction false} EverythingIsReadUnlessCutOff(ms: seq<Message>, r: Reader, cursor: nat, ops: seq<Op>)
    requires Ascending(ms) && IsRun(ms, ops)
    ensures NothingCutOff(ms, r, cursor, ops) <==>
              Returned(ms, r, cursor, ops) == Between(TableAfter(ms, ops), r, cursor, CursorAfter(ms, r, cursor, ops))
    ensures |Returned(ms, r, cursor, ops)| <= |Between(TableAfter(ms, ops), r, cursor, CursorAfter(ms, r, cursor, ops))|
    decreases |ops|
  {
    if ops == [] {
      EmptyRange(ms, r, cursor, cursor);
    } else {
      match ops[0] {
        case Post(m) => EverythingIsReadUnlessCutOff(ms + [m], r, cursor, ops[1..]);
        case Read(limit) => OneReadOfMany(ms, r, cursor, limit, ops);
      }
    }
  }

  lemma {:induction false} OneReadOfMany(ms: seq<Message>, r: Reader, cursor: nat, limit: nat, ops: seq<Op>)
    requires Ascending(ms) && IsRun(ms, ops) && ops != [] && ops[0] == Read(limit)
    ensures NothingCutOff(ms, r, cursor, ops) <==>
              Returned(ms, r, cursor, ops) == Between(TableAfter(ms, ops), r, cursor, CursorAfter(ms, r, cursor, ops))
    ensures |Returned(ms, r, cursor, ops)| <= |Between(TableAfter(ms, ops), r, cursor, CursorAfter(ms, r, cursor, ops))|
    decreases |ops|, 0
  {
    ReadCatchesUp(ms, r, cursor, limit);
    var unread := Unread(ms, r, cursor);
    var page := Page(unread, limit);
    var moved := Moved(cursor, page);
    EverythingIsReadUnlessCutOff(ms, r, moved, ops[1..]);
    NothingIsReadTwice(ms, r, moved, ops[1..]);
    var more := TableGrows(ms, ops[1..]);
    var table := ms + more;
    var end := CursorAfter(ms, r, moved, ops[1..]);
    LaterPostsAreOutside(ms, more, r, cursor, moved);
    RangesJoin(table, r, cursor, moved, end);
    var rest := Returned(ms, r, moved, ops[1..]);
    assert Between(table, r, cursor, end) == unread + Between(table, r, moved, end);
    Cancel(page, rest, unread, Between(table, r, moved, end));
  }

  lemma {:induction false} ThePageLeavesTheFirst(unread: seq<Message>, limit: nat)
    requires Ascending(unread) && 0 < limit < |unread|
    ensures unread[0] !in Page(unread, limit)
  {
    var page := Page(unread, limit);
    forall k | 0 <= k < |page| ensures page[k] != unread[0] {
      assert page[k] == unread[|unread| - limit + k];
    }
  }

  /**
   An only_new read that is cut off skips the oldest unread message for good: it is not on the page, and no
   later read of the run returns it, whatever is posted in between.
   */
  lemma {:induction false} ACutOffReadSkips(ms: seq<Message>, r: Reader, cursor: nat, limit: nat, ops: seq<Op>)
    requires Ascending(ms) && limit > 0 && |Unread(ms, r, cursor)| > limit && IsRun(ms, ops)
    ensures var m := Unread(ms, r, cursor)[0];
            && m in ms && Sees(r, m) && cursor < m.id
            && m !in Returned(ms, r, cursor, [Read(limit)] + ops)
  {
    var unread, run := Unread(ms, r, cursor), [Read(limit)] + ops;
    var moved := Moved(cursor, Page(unread, limit));
    BetweenIsSound(ms, r, cursor, LastId(ms));
    ThePageLeavesTheFirst(unread, limit);
    ReadCatchesUp(ms, r, cursor, limit);
    assert unread[0] in unread && unread[0].id <= moved by {
      assert unread[0] in Between(ms, r, cursor, moved);
      BetweenIsSound(ms, r, cursor, moved);
    }
    NothingIsReadTwice(ms, r, moved, ops);
    assert run[0] == Read(limit) && run[1..] == ops;
    assert Returned(ms, r, cursor, run) == Page(unread, limit) + Returned(ms, r, moved, ops);
  }

  /** `page` is a suffix of `unread`; both concatenations are equal only if nothing is missing on either side. */
  lemma Cancel(page: seq<Message>, rest: seq<Message>, unread: seq<Message>, range: seq<Message>)
    requires |page| <= |unread| && |rest| <= |range| && page == unread[|unread| - |page|..]
    ensures page + rest == unread + range <==> |page| == |unread| && rest == range
    ensures |page + rest| <= |unread + range|
  {
    if page + rest == unread + range {
      assert |page| == |unread| && |rest| == |range|;
      assert rest == (page + rest)[|page|..] == (unread + range)[|unread|..] == range;
    }
  }

  // --------------------------------------------------------------------- cursor keys --

  function Digit(d: nat): char
    requires d < 10
  {
    (48 + d) as char
  }

  function Decimal(n: nat): (s: string)
    ensures s != [] && '/' !in s
  {
    if n < 10 then [Digit(n)] else Decimal(n / 10) + [Digit(n % 10)]
  }

  lemma {:induction false} DecimalIsInjective(a: nat, b: nat)
    requires Decimal(a) == Decimal(b)
    ensures a == b
    decreases a
  {
    var x, y := Decimal(a), Decimal(b);
    assert x[|x| - 1] == y[|y| - 1] && x[|x| - 1] == Digit(a % 10) && y[|y| - 1] == Digit(b % 10);
    assert x[..|x| - 1] == y[..|y| - 1];
    if a >= 10 && b >= 10 {
      assert x[..|x| - 1] == Decimal(a / 10) && y[..|y| - 1] == Decimal(b / 10);
      DecimalIsInjective(a / 10, b / 10);
    }
  }

  function BaseKey(scope: Scope): (base: string)
    ensures '/' !in base
  {
    match scope
    case All => "all"
    case Inbox => "inbox"
    case InChannel(c) => "channel:" + Decimal(c)
  }

  lemma BaseKeysDiffer(a: Scope, b: Scope)
    requires BaseKey(a) == BaseKey(b)
    ensures a == b
  {
    assert "all"[0] == 'a' && "inbox"[0] == 'i' && "channel:"[0] == 'c';
    assert a.InChannel? ==> BaseKey(a)[0] == 'c' && BaseKey(a)[8..] == Decimal(a.channel);
    assert b.InChannel? ==> BaseKey(b)[0] == 'c' && BaseKey(b)[8..] == Decimal(b.channel);
    if a.InChannel? && b.InChannel? { DecimalIsInjective(a.channel, b.channel); }
  }

  /** The primary key of a read_cursors row. */
  datatype CursorKey = CursorKey(agent: AgentId, scope: string)

  function KeyOf(r: Reader): CursorKey {
    CursorKey(r.who.agent, CursorScopeFor(BaseKey(r.scope), r.who.session, r.allSessions))
  }

  /** Readers share a cursor only if they are the same session, looking at the same scope in the same view. */
  lemma CursorsAreSeparate(a: Reader, b: Reader)
    ensures KeyOf(a) == KeyOf(b) <==> SameSession(a.who, b.who) && a.scope == b.scope && a.allSessions == b.allSessions
  {
    if KeyOf(a) == KeyOf(b) {
      CursorKeysAreInjective(BaseKey(a.scope), a.who.session, a.allSessions, BaseKey(b.scope), b.who.session,
        b.allSessions);
      BaseKeysDiffer(a.scope, b.scope);
    }
  }

  datatype Mailbox = Mailbox(messages: seq<Message>, cursors: map<CursorKey, nat>)

  function CursorOf(box: Mailbox, r: Reader): nat {
    if KeyOf(r) in box.cursors then box.cursors[KeyOf(r)] else 0
  }

  /** The mailbox after an only_new read. */
  function AfterRead(box: Mailbox, r: Reader, limit: nat): Mailbox {
    var cursor := CursorOf(box, r);
    var moved := Moved(cursor, Page(Unread(box.messages, r, cursor), limit));
    if moved > cursor then box.(cursors := box.cursors[KeyOf(r) := moved]) else box
  }

  /** Reading in one session or view leaves every other reader's cursor, unread count and next page as they were. */
  lemma ReadersDoNotInterfere(box: Mailbox, reader: Reader, other: Reader, limit: nat, otherLimit: nat)
    requires !SameSession(reader.who, other.who) || reader.scope != other.scope ||
        reader.allSessions != other.allSessions
    ensures var after := AfterRead(box, reader, limit);
            && CursorOf(after, other) == CursorOf(box, other)
            && Unread(after.messages, other, CursorOf(after, other)) ==
              Unread(box.messages, other, CursorOf(box, other))
            && Page(Unread(after.messages, other, CursorOf(after, other)), otherLimit)
               == Page(Unread(box.messages, other, CursorOf(box, other)), otherLimit)
  {
    CursorsAreSeparate(reader, other);
  }

  /** whoami: this session's unread direct messages. */
  function UnreadCount(box: Mailbox, who: Auth): nat {
    var inbox := Reader(who, Inbox, false);
    |Unread(box.messages, inbox, CursorOf(box, inbox))|
  }

  /** The unread count is what the next inbox read returns, up to its limit, and that read brings it to zero. */
  lemma InboxReadClearsTheCount(box: Mailbox, who: Auth, limit: nat)
    requires Ascending(box.messages) && limit > 0
    ensures var inbox := Reader(who, Inbox, false);
            var page := Page(Unread(box.messages, inbox, CursorOf(box, inbox)), limit);
            && |page| == (if UnreadCount(box, who) < limit then UnreadCount(box, who) else limit)
            && UnreadCount(AfterRead(box, inbox, limit), who) == 0
  {
    var inbox := Reader(who, Inbox, false);
    ReadCatchesUp(box.messages, inbox, CursorOf(box, inbox), limit);
  }

  /** Message `m` is backlog for wait_for_updates, which uses the cursor of this session's view of everything. */
  ghost predicate IsBacklog(box: Mailbox, who: Auth, focus: Option<ChannelId>, m: Message) {
    m in box.messages && CountsAsBacklog(m, who, focus) && m.id > CursorOf(box, Reader(who, All, false))
  }

  /**
   "Call read_messages to fetch them" is good advice: as long as there is a backlog, an only_new read
   of everything returns something; and after it there is none, whatever the channel focus and even
   if the page was cut off, so the next wait does not report the same messages again.
   */
  lemma {:induction false} ReadingClearsTheBacklog(
    box: Mailbox, who: Auth, focus: Option<ChannelId>, limit: nat, m: Message)
    requires Ascending(box.messages) && limit > 0
    ensures var everything := Reader(who, All, false);
            IsBacklog(box, who, focus, m) ==>
              Page(Unread(box.messages, everything, CursorOf(box, everything)), limit) != []
    ensures !IsBacklog(AfterRead(box, Reader(who, All, false), limit), who, focus, m)
  {
    var everything := Reader(who, All, false);
    var cursor := CursorOf(box, everything);
    var moved := Moved(cursor, Page(Unread(box.messages, everything, cursor), limit));
    ReadCatchesUp(box.messages, everything, cursor, limit);
    if m in box.messages && CountsAsBacklog(m, who, focus) {
      assert Sees(everything, m);
      AtMostLast(box.messages, m);
      BetweenHolds(box.messages, everything, cursor, LastId(box.messages));
      BetweenHolds(box.messages, everything, moved, LastId(box.messages));
    }
  }

  // ------------------------------------------------------------------- in columns --

  /** What a reader sees of everything, of its inbox or of a channel. */
  predicate ShownTo(r: Reader, m: Message) {
    match r.scope
    case All =>
      && m.team == r.who.team
      && (m.channel.Some? || m.sender == r.who.agent || SentTo(r, m))
    case Inbox => SentTo(r, m)
    case InChannel(c) => m.channel.Some? && m.channel.value == c
  }

  /** To this agent: to all of its sessions, to this one, or, across all sessions, to any. */
  predicate SentTo(r: Reader, m: Message) {
    && m.recipient.Some? && m.recipient.value == r.who.agent
    && (m.recipientSession.Some? && !r.allSessions ==> m.recipientSession.value == r.who.session)
  }

  /** Without a cut the page is everything shown after the cursor; with one, its newest `limit` messages. */
  lemma {:induction false} PagesInColumns(ms: seq<Message>, r: Reader, cursor: nat, limit: nat, m: Message)
    requires Ascending(ms) && limit > 0
    ensures var page := Page(Unread(ms, r, cursor), limit);
            && (m in page ==> m in ms && ShownTo(r, m) && m.id > cursor)
            && (m in ms && ShownTo(r, m) && m.id > cursor ==>
                  m in page || (|page| == limit && forall k :: 0 <= k < |page| ==> page[k].id > m.id))
  {
    var unread, page := Unread(ms, r, cursor), Page(Unread(ms, r, cursor), limit);
    BetweenIsSound(ms, r, cursor, LastId(ms));
    if m in ms && Sees(r, m) && m.id > cursor {
      AtMostLast(ms, m);
      var i :| 0 <= i < |unread| && unread[i] == m;
      if |unread| > limit {
        NotOnThePage(unread, limit, i);
      }
    }
    if m in page {
      assert m in unread;
    }
  }

  lemma {:induction false} NotOnThePage(unread: seq<Message>, limit: nat, i: nat)
    requires Ascending(unread) && limit < |unread| && i < |unread|
    ensures unread[i] in Page(unread, limit)
            || forall k :: 0 <= k < limit ==> Page(unread, limit)[k].id > unread[i].id
  {
    var page, from := Page(unread, limit), |unread| - limit;
    if i >= from {
      assert page[i - from] == unread[i];
    } else {
      forall k | 0 <= k < limit ensures page[k].id > unread[i].id {
        assert page[k] == unread[from + k];
      }
    }
  }

  /** Decimal notation: digits are written as such, the last one last. */
  lemma NumbersAreSpelled(n: nat, d: nat)
    requires d < 10
    ensures Decimal(d) == [('0' as int + d) as char]
    ensures n > 0 ==> Decimal(10 * n + d) == Decimal(n) + Decimal(d)
  {
    assert n > 0 ==> (10 * n + d) / 10 == n && (10 * n + d) % 10 == d;
  }

  /** The keys under which cursors are stored. */
  lemma KeysAreSpelled(who: Auth, c: ChannelId)
    ensures BaseKey(All) == "all" && BaseKey(Inbox) == "inbox" && BaseKey(InChannel(c)) == "channel:" + Decimal(c)
    ensures KeyOf(Reader(who, All, false)).scope == if who.session == "" then "all" else "all/s/" + who.session
    ensures KeyOf(Reader(who, All, true)).scope == "all/a/" + who.session
    ensures KeyOf(Reader(who, All, false)).agent == who.agent
  {
    assert "all" + "/s/" + who.session == "all/s/" + who.session;
    assert "all" + "/a/" + who.session == "all/a/" + who.session;
  }

  /** A read with `only_new` stores the id of its last message, if there is one, and nothing else. */
  lemma {:induction false} CursorsMoveToTheLast(box: Mailbox, r: Reader, limit: nat)
    requires Ascending(box.messages) && limit > 0
    ensures var page := Page(Unread(box.messages, r, CursorOf(box, r)), limit);
            && AfterRead(box, r, limit).messages == box.messages
            && CursorOf(AfterRead(box, r, limit), r) ==
               (if page == [] then CursorOf(box, r) else page[|page| - 1].id)
            && (page == [] ==> AfterRead(box, r, limit) == box)
  {
    var cursor := CursorOf(box, r);
    var page := Page(Unread(box.messages, r, cursor), limit);
    ReadCatchesUp(box.messages, r, cursor, limit);
    if page != [] {
      assert page[|page| - 1] in page;
    }
  }

  /** The backlog of a mailbox: what is beyond this session's own cursor of everything. */
  lemma BacklogIsBeyondTheCursor(box: Mailbox, who: Auth, focus: Option<ChannelId>, m: Message)
    ensures IsBacklog(box, who, focus, m) <==>
              && m in box.messages && CountsAsBacklog(m, who, focus)
              && m.id > CursorOf(box, Reader(who, All, false))
  {}

  /** A run goes on with messages that have larger ids, and with reads of at least one message. */
  lemma {:induction false} RunsGoOn(ms: seq<Message>, m: Message, limit: nat, ops: seq<Op>)
    ensures IsRun(ms, [])
    ensures IsRun(ms, [Post(m)] + ops) <==> Ascending(ms + [m]) && IsRun(ms + [m], ops)
    ensures IsRun(ms, [Read(limit)] + ops) <==> limit > 0 && IsRun(ms, ops)
  {
    assert ([Post(m)] + ops)[1..] == ops && ([Read(limit)] + ops)[1..] == ops;
  }
}
