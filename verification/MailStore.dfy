/** Posting and reading as the server performs them, on the mutable tables. */
module MailStores {
  import opened Base
  import opened Text
  import opened Messages
  import opened Sessions
  import opened Reading

  const MAX_BODY_BYTES := 1024 * 1024

  function DropHashes(s: string): (r: string)
    ensures r != [] ==> r[0] != '#'
  {
    if s != [] && s[0] == '#' then DropHashes(s[1..]) else s
  }

  /** `#dev`, `dev` and `DEV` are one channel. */
  function NormalizeChannel(name: string): string {
    Lower(Trim(DropHashes(Trim(name))))
  }

  lemma {:induction false} PlainNames(name: string)
    requires Trimmed(name) && name != "" && name[0] != '#'
    ensures NormalizeChannel(name) == Lower(name)
  {}

  lemma {:induction false} HashedNames(name: string)
    requires Trimmed(name) && name != "" && name[0] != '#'
    ensures NormalizeChannel("#" + name) == Lower(name)
  {
    var hashed := "#" + name;
    assert hashed[0] == '#' && hashed[1..] == name && Trimmed(hashed);
    assert DropHashes(hashed) == DropHashes(name) == name;
  }

  lemma {:induction false} LowerTwice(name: string)
    ensures Lower(Lower(name)) == Lower(name)
  {}

  /** Spelling does not matter: with or without the hash, in any case, and with white space around. */
  lemma {:induction false} ChannelsAreOneSpelling(name: string, before: string, after: string)
    requires Trimmed(name) && name != "" && name[0] != '#' && Blank(before) && Blank(after)
    ensures NormalizeChannel(name) == Lower(name) && NormalizeChannel("#" + name) == Lower(name)
    ensures NormalizeChannel(before + (name + after)) == Lower(name) && NormalizeChannel(Lower(name)) == Lower(name)
  {
    PlainNames(name);
    HashedNames(name);
    PlainNames(Lower(name));
    LowerTwice(name);
    TrimCutsSpaces(before, name, after);
    assert NormalizeChannel(before + (name + after)) == NormalizeChannel(name);
  }

  datatype Name = Name(team: TeamId, name: string)

  /** Where a message goes. */
  datatype Target = ToChannel(channel: ChannelId) | ToAgent(agent: AgentId, session: Option<string>)

  /** The row a post becomes. */
  function Row(id: MessageId, who: Auth, target: Target, replyTo: Option<MessageId>, announce: bool): (m: Message)
    ensures WellFormed(m)
  {
    match target
    case ToChannel(c) => Message(id, who.team, who.agent, SessionLabel(who), Some(c), None, None, replyTo, announce)
    case ToAgent(a, s) => Message(id, who.team, who.agent, SessionLabel(who), None, Some(a), s, replyTo, announce)
  }

  /** The columns of a posted row; the shared session is stored as none. */
  lemma RowsInColumns(id: MessageId, who: Auth, target: Target, replyTo: Option<MessageId>, announce: bool)
    ensures var m := Row(id, who, target, replyTo, announce);
            && m.id == id && m.team == who.team && m.sender == who.agent
            && m.senderSession == (if |who.session| > 0 then Some(who.session) else None)
            && m.replyTo == replyTo && m.announce == announce
            && (target.ToChannel? ==>
                  m.channel == Some(target.channel) && m.recipient == None && m.recipientSession == None)
            && (target.ToAgent? ==>
                  m.channel == None && m.recipient == Some(target.agent) && m.recipientSession == target.session)
  {}

  /** The message ask_agent posts is the question its resume is checked against. */
  lemma AsksPostTheirQuestion(id: MessageId, who: Auth, target: AgentId, session: Option<string>)
    ensures IsQuestionOf(Row(id, who, ToAgent(target, session), None, false), Ask(who, target, session, id))
    ensures Verifies(Row(id, who, ToAgent(target, session), None, false), Ask(who, target, session, id))
  {}

  datatype PostInput = PostInput(
    channel: Option<string>, to: Option<string>, announce: bool, body: string, replyTo: Option<MessageId>,
    metadataBytes: nat)

  /** The newest page of what the reader sees, and whether its size reached the limit. */
  datatype MessageList = MessageList(messages: seq<Message>, cursor: nat, truncated: bool)

  method Reversed(rows: seq<Message>) returns (r: seq<Message>)
    ensures |r| == |rows| && forall k :: 0 <= k < |rows| ==> r[k] == rows[|rows| - 1 - k]
  {
    r := [];
    for i := 0 to |rows|
      invariant |r| == i && forall k :: 0 <= k < i ==> r[k] == rows[i - 1 - k]
    {
      r := [rows[i]] + r;
    }
  }

  /** `rows` is `s` backwards. */
  predicate Backwards(rows: seq<Message>, s: seq<Message>) {
    |rows| == |s| && forall k :: 0 <= k < |s| ==> s[k] == rows[|s| - 1 - k]
  }

  lemma BackwardsIsUnique(rows: seq<Message>, s: seq<Message>, t: seq<Message>)
    requires Backwards(rows, s) && Backwards(rows, t)
    ensures s == t
  {}

  /** The last message of a table is the last of its rest from `i` on. */
  lemma {:induction false} LastOfBoth(ms: seq<Message>, i: nat)
    requires i < |ms|
    ensures var front, back := ms[..|ms| - 1], ms[i..];
            && back[|back| - 1] == ms[|ms| - 1] && back[..|back| - 1] == front[i..] && front[..i] == ms[..i]
  {}

  /** The ranges the backwards scan works with: messages `i..` of the table. */
  lemma {:induction false} BetweenSplits(ms: seq<Message>, i: nat, r: Reader, after: nat, upTo: nat)
    requires i <= |ms|
    ensures Between(ms, r, after, upTo) == Between(ms[..i], r, after, upTo) + Between(ms[i..], r, after, upTo)
    decreases |ms| - i
  {
    if i == |ms| {
      assert ms[..i] == ms && ms[i..] == [];
    } else {
      BetweenSplits(ms[..|ms| - 1], i, r, after, upTo);
      LastOfBoth(ms, i);
    }
  }

  lemma FirstOfRange(ms: seq<Message>, i: nat, r: Reader, after: nat, upTo: nat)
    requires i < |ms|
    ensures Between(ms[i..], r, after, upTo) ==
            (if Sees(r, ms[i]) && after < ms[i].id <= upTo then [ms[i]] else []) + Between(ms[i + 1..], r, after, upTo)
  {
    BetweenSplits(ms[i..], 1, r, after, upTo);
    assert ms[i..][..1] == [ms[i]] && ms[i..][1..] == ms[i + 1..];
    assert [ms[i]][..0] == [] && Between([], r, after, upTo) == [];
  }

  /** One step of the scan: message `i` is either the next row or not in the range. */
  lemma {:induction false} ScanOne(ms: seq<Message>, i: nat, r: Reader, since: nat, rows: seq<Message>)
    requires Ascending(ms) && i < |ms| && Backwards(rows, Between(ms[i + 1..], r, since, LastId(ms)))
    ensures Backwards(if Sees(r, ms[i]) && ms[i].id > since then rows + [ms[i]] else rows,
                      Between(ms[i..], r, since, LastId(ms)))
  {
    FirstOfRange(ms, i, r, since, LastId(ms));
    AtMostLast(ms, ms[i]);
  }

  /** A scan that stopped at the limit, or at the beginning, has the newest page. */
  lemma {:induction false} ScanEnds(ms: seq<Message>, i: nat, r: Reader, since: nat, limit: nat, rows: seq<Message>)
    requires i <= |ms| && Backwards(rows, Between(ms[i..], r, since, LastId(ms)))
    requires |rows| <= limit && (i == 0 || |rows| == limit)
    ensures Backwards(rows, Page(Unread(ms, r, since), limit))
  {
    BetweenSplits(ms, i, r, since, LastId(ms));
    var unread := Unread(ms, r, since);
    var tail := Between(ms[i..], r, since, LastId(ms));
    if i > 0 {
      assert unread[|unread| - limit..] == tail;
    } else {
      assert ms[..0] == [] && unread == tail;
    }
  }

  /** ORDER BY id DESC LIMIT: the newest first. */
  method NewestFirst(ms: seq<Message>, r: Reader, since: nat, limit: nat) returns (rows: seq<Message>)
    requires Ascending(ms) && limit > 0
    ensures Backwards(rows, Page(Unread(ms, r, since), limit))
  {
    rows := [];
    var i := |ms|;
    while i > 0 && |rows| < limit
      invariant 0 <= i <= |ms| && |rows| <= limit
      invariant Backwards(rows, Between(ms[i..], r, since, LastId(ms)))
    {
      i := i - 1;
      ScanOne(ms, i, r, since, rows);
      if Sees(r, ms[i]) && ms[i].id > since {
        rows := rows + [ms[i]];
      }
    }
    ScanEnds(ms, i, r, since, limit, rows);
  }

  /** The query's rows, reversed into reading order. */
  method NewestPage(ms: seq<Message>, r: Reader, since: nat, limit: nat) returns (page: seq<Message>)
    requires Ascending(ms) && limit > 0
    ensures page == Page(Unread(ms, r, since), limit) && Ascending(page)
  {
    var rows := NewestFirst(ms, r, since, limit);
    page := Reversed(rows);
    BackwardsIsUnique(rows, page, Page(Unread(ms, r, since), limit));
    PageIsSound(ms, r, since, limit);
  }

  /** The cursor a page moves to: the largest id in it, if that is larger. */
  method LatestOf(page: seq<Message>, since: nat) returns (cursor: nat)
    requires Ascending(page)
    ensures cursor == Moved(since, page)
  {
    cursor := since;
    for i := 0 to |page|
      invariant cursor == Moved(since, page[..i])
    {
      if page[i].id > cursor { cursor := page[i].id; }
    }
    assert page[..|page|] == page;
  }

  /** A row that was posted: no announcement to a person, and no message to the very session that sent it. */
  ghost predicate SoundPost(who: Auth, input: PostInput, m: Message) {
    && m.team == who.team && m.sender == who.agent && SharedIfNull(m.senderSession) == who.session
    && m.announce == input.announce && m.replyTo == input.replyTo && (m.announce ==> m.channel.Some?)
    && (input.to == None ==> m.channel.Some? && m.recipient == None && m.recipientSession == None)
    && !(AddressedTo(m, who) && m.recipientSession == Some(who.session))
    && (input.to.Some? ==> m.recipient.Some? && ParseAddress(input.to.value).Ok?
                           && m.recipientSession == ParseAddress(input.to.value).value.1)
  }

  class MailTables {
    var messages: seq<Message>
    var nextId: MessageId
    var cursors: map<CursorKey, nat>
    var channels: map<Name, ChannelId>
    var agents: map<Name, AgentId>

    ghost predicate Valid()
      reads this
    {
      && Ascending(messages) && nextId > 0
      && forall m :: m in messages ==> 0 < m.id < nextId && WellFormed(m)
    }

    constructor (channels: map<Name, ChannelId>, agents: map<Name, AgentId>)
      ensures Valid() && messages == [] && cursors == map[] && nextId == 1
      ensures this.channels == channels && this.agents == agents
    {
      messages, nextId, cursors := [], 1, map[];
      this.channels, this.agents := channels, agents;
    }

    ghost function Box(): Mailbox
      reads this
    {
      Mailbox(messages, cursors)
    }

    /** The channel named after the session, if the session has a name and the team has that channel. */
    function DefaultChannel(who: Auth): Option<ChannelId>
      reads this
    {
      var name := Name(who.team, NormalizeChannel(who.session));
      if who.session == "" || name !in channels then None else Some(channels[name])
    }

    /** Where the message goes, or why it goes nowhere. */
    function Resolve(who: Auth, input: PostInput): (r: Result<Target>)
      reads this
      ensures r.Ok? && r.value.ToAgent? ==>
        && input.to.Some? && input.channel == None && ParseAddress(input.to.value).Ok?
        && var (agent, session) := ParseAddress(input.to.value).value;
           && Name(who.team, agent) in agents && r.value == ToAgent(agents[Name(who.team, agent)], session)
           && (r.value.agent == who.agent ==> session != Some(who.session))
      ensures r.Ok? && r.value.ToChannel? ==>
        && input.to == None
        && exists name :: name in channels && name.team == who.team && channels[name] == r.value.channel
      ensures r == Err(NotFound) ==> input.channel.Some? != input.to.Some?
    {
      match (input.channel, input.to)
      case (Some(_), Some(_)) => Err(Invalid)
      case (None, None) =>
        var fallback := DefaultChannel(who);
        if fallback.Some? then Ok(ToChannel(fallback.value)) else Err(Invalid)
      case (Some(channel), None) =>
        var name := Name(who.team, NormalizeChannel(channel));
        if name in channels then Ok(ToChannel(channels[name])) else Err(NotFound)
      case (None, Some(to)) =>
        match ParseAddress(to)
        case Err(e) => Err(e)
        case Ok((agent, session)) =>
          if Name(who.team, agent) !in agents then Err(NotFound)
          else
            var id := agents[Name(who.team, agent)];
            if id == who.agent && session == Some(who.session) then Err(Invalid) else Ok(ToAgent(id, session))
    }

    lemma NamedTargets(who: Auth, input: PostInput, named: Name)
      requires input.to == None && input.channel.Some?
      requires named == Name(who.team, NormalizeChannel(input.channel.value))
      ensures Resolve(who, input) == if named in channels then Ok(ToChannel(channels[named])) else Err(NotFound)
    {}

    /** A named channel is the team's channel of that name, however it is spelled; without one there is an error. */
    lemma ChannelTargets(who: Auth, input: PostInput, name: string, before: string, after: string)
      requires input.to == None && Trimmed(name) && name != "" && name[0] != '#' && Blank(before) && Blank(after)
      requires input.channel == Some(name) || input.channel == Some("#" + name)
               || input.channel == Some(before + (name + after))
      ensures Resolve(who, input) ==
              if Name(who.team, Lower(name)) in channels then Ok(ToChannel(channels[Name(who.team, Lower(name))]))
              else Err(NotFound)
    {
      ChannelsAreOneSpelling(name, before, after);
      NamedTargets(who, input, Name(who.team, Lower(name)));
    }

    /** With neither channel nor agent it is the channel named like the session, if both exist. */
    lemma DefaultTargets(who: Auth, input: PostInput)
      requires input.channel == None && input.to == None
      requires who.session == "" || (Trimmed(who.session) && who.session[0] != '#')
      ensures Resolve(who, input) ==
              if who.session != "" && Name(who.team, Lower(who.session)) in channels
              then Ok(ToChannel(channels[Name(who.team, Lower(who.session))])) else Err(Invalid)
    {
      if who.session != "" { PlainNames(who.session); }
    }

    /** An address is an agent of the team, and one session of it or all; but never the session that sends. */
    lemma AgentTargets(who: Auth, input: PostInput, agent: string, session: Option<string>)
      requires input.channel == None && input.to.Some? && ParseAddress(input.to.value) == Ok((agent, session))
      ensures var named := Name(who.team, agent);
              Resolve(who, input) ==
              if named !in agents then Err(NotFound)
              else if agents[named] == who.agent && session == Some(who.session) then Err(Invalid)
              else Ok(ToAgent(agents[named], session))
    {}

    ghost predicate InTeam(id: MessageId, team: TeamId)
      reads this
    {
      exists k :: 0 <= k < |messages| && messages[k].id == id && messages[k].team == team
    }

    method Exists(id: MessageId, team: TeamId) returns (found: bool)
      ensures found <==> InTeam(id, team)
    {
      for i := 0 to |messages|
        invariant forall k :: 0 <= k < i ==> !(messages[k].id == id && messages[k].team == team)
      {
        if messages[i].id == id && messages[i].team == team {
          return true;
        }
      }
      found := false;
    }

    /** What is wrong with a post, if anything: the first of these. */
    ghost function Problem(who: Auth, input: PostInput): Option<Error>
      reads this
    {
      var body := Trim(input.body);
      if body == "" || |body| > MAX_BODY_BYTES then Some(Invalid)
      else if input.announce && input.to.Some? then Some(Invalid)
      else if Resolve(who, input).Err? then Some(Resolve(who, input).error)
      else if input.replyTo.Some? && !InTeam(input.replyTo.value, who.team) then Some(NotFound)
      else if input.metadataBytes > MAX_METADATA_BYTES then Some(Invalid)
      else None
    }

    /** A post is not blank or over a mebibyte, not an announcement to an agent, and has at most 16 KiB of metadata. */
    lemma PostsInNumbers(who: Auth, input: PostInput)
      ensures Problem(who, input) == None <==>
                && 1 <= |Trim(input.body)| <= 1_048_576 && !(input.announce && input.to.Some?)
                && Resolve(who, input).Ok? && input.metadataBytes <= 16_384
                && (input.replyTo.Some? ==>
                      exists m :: m in messages && m.id == input.replyTo.value && m.team == who.team)
    {
      if input.replyTo.Some? { TeamMessages(input.replyTo.value, who.team); }
    }

    lemma TeamMessages(id: MessageId, team: TeamId)
      ensures InTeam(id, team) <==> exists m :: m in messages && m.id == id && m.team == team
    {
      if m :| m in messages && m.id == id && m.team == team {
        var k :| 0 <= k < |messages| && messages[k] == m;
        assert InTeam(id, team);
      }
    }

    /** What a post is in the table. */
    lemma PostedRowsAreSound(who: Auth, input: PostInput, m: Message)
      requires SoundPost(who, input, m)
      ensures m.team == who.team && m.sender == who.agent && m.replyTo == input.replyTo && m.announce == input.announce
      ensures input.to == None ==> m.channel.Some? && m.recipient == None && m.recipientSession == None
      ensures m.senderSession == Some(who.session) || (m.senderSession == None && who.session == "")
      ensures m.announce ==> m.channel.Some?
      ensures !(m.recipient == Some(who.agent) && m.recipientSession == Some(who.session))
      ensures input.to.Some? ==>
                && m.recipient.Some? && ParseAddress(input.to.value).Ok?
                && m.recipientSession == ParseAddress(input.to.value).value.1
    {}

    /**
     Post a message. Without a problem it appends exactly one well-formed row with a fresh, larger id,
     from this session, to the resolved target; otherwise it reports the problem and writes nothing.
     */
    method PostMessage(who: Auth, input: PostInput) returns (r: Result<Message>)
      requires Valid()
      modifies this`messages, this`nextId
      ensures Valid()
      ensures match old(Problem(who, input))
              case Some(e) => r == Err(e) && messages == old(messages) && nextId == old(nextId)
              case None =>
                && r.Ok? && old(Resolve(who, input)).Ok?
                && messages == old(messages) + [r.value]
                && r.value == Row(old(nextId), who, old(Resolve(who, input)).value, input.replyTo, input.announce)
      ensures r.Ok? ==> SoundPost(who, input, r.value)
    {
      var target := Checked(who, input);
      if target.Err? { return Err(target.error); }
      RowIsSound(who, input, target.value, nextId);
      var m := Insert(who, target.value, input.replyTo, input.announce);
      r := Ok(m);
    }

    /** The checks of a post, in their order, and the target it resolves to. */
    method Checked(who: Auth, input: PostInput) returns (r: Result<Target>)
      ensures match Problem(who, input)
              case Some(e) => r == Err(e)
              case None => r.Ok? && r == Resolve(who, input) && !(input.announce && input.to.Some?)
    {
      var body := Trim(input.body);
      if body == "" || |body| > MAX_BODY_BYTES { return Err(Invalid); }
      if input.announce && input.to.Some? && input.channel == None { return Err(Invalid); }
      var target := Resolve(who, input);
      if target.Err? { return Err(target.error); }
      if input.replyTo.Some? {
        var found := Exists(input.replyTo.value, who.team);
        if !found { return Err(NotFound); }
      }
      if input.metadataBytes > MAX_METADATA_BYTES { return Err(Invalid); }
      r := target;
    }

    /** Whatever passes them becomes a sound row. */
    lemma RowIsSound(who: Auth, input: PostInput, target: Target, id: MessageId)
      requires Resolve(who, input) == Ok(target) && !(input.announce && input.to.Some?)
      ensures SoundPost(who, input, Row(id, who, target, input.replyTo, input.announce))
    {}

    /** INSERT INTO messages: the id is the next of its sequence. */
    method Insert(who: Auth, target: Target, replyTo: Option<MessageId>, announce: bool) returns (m: Message)
      requires Valid()
      modifies this`messages, this`nextId
      ensures Valid()
      ensures messages == old(messages) + [m] && nextId == old(nextId) + 1
      ensures m == Row(old(nextId), who, target, replyTo, announce)
    {
      m := Row(nextId, who, target, replyTo, announce);
      messages := messages + [m];
      nextId := nextId + 1;
    }

    /**
     Read: with `onlyNew`, what is unread, moving the cursor; without, the newest page of everything, moving
     nothing.
     */
    method ReadMessages(reader: Reader, onlyNew: bool, requested: int) returns (r: MessageList)
      requires Valid()
      modifies this`cursors
      ensures Valid()
      ensures var limit := Clamp(requested, 1, MAX_LIMIT);
              && (onlyNew ==> && r.messages == Page(Unread(messages, reader, CursorOf(old(Box()), reader)), limit)
                              && r.cursor == Moved(CursorOf(old(Box()), reader), r.messages)
                              && Box() == AfterRead(old(Box()), reader, limit))
              && (!onlyNew ==> && r.messages == Page(Unread(messages, reader, 0), limit)
                               && r.cursor == Moved(0, r.messages)
                               && Box() == old(Box()))
              && (r.truncated <==> |r.messages| == limit)
      ensures |r.messages| <= 200 && (requested < 1 ==> |r.messages| <= 1)
    {
      var limit := Clamp(requested, 1, MAX_LIMIT);
      var since := if onlyNew && KeyOf(reader) in cursors then cursors[KeyOf(reader)] else 0;
      var page := NewestPage(messages, reader, since, limit);
      var newCursor := LatestOf(page, since);
      if onlyNew && newCursor > since {
        // GREATEST of the stored cursor and the new one
        cursors := cursors[KeyOf(reader) := newCursor];
      }
      r := MessageList(page, newCursor, |page| == limit);
    }
  }
}
