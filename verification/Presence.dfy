/**
 list_agents: presence is one row per session, but a person is one entry. One pass folds the query's
 rows into entries, the lead session of each giving its top-level fields; a final sort orders them.
 */
module Presence {
  import opened Base

  /** A row of the query: an agent LEFT JOINed to one of its sessions. */
  datatype Row = Row(
    name: string, displayName: Option<string>, session: Option<string>, status: Option<string>,
    repo: Option<string>, branch: Option<string>, activity: Option<string>, updatedAt: Option<Instant>, online: bool)

  datatype AgentSession = AgentSession(
    session: Option<string>, status: string, repo: Option<string>, branch: Option<string>,
    activity: Option<string>, lastSeen: Option<Instant>, online: bool)

  datatype AgentInfo = AgentInfo(
    name: string, displayName: Option<string>, session: Option<string>, status: string, repo: Option<string>,
    branch: Option<string>, activity: Option<string>, lastSeen: Option<Instant>, online: bool,
    sessions: seq<AgentSession>)

  /** What the ORDER BY promises the fold: the rows of one agent are adjacent. */
  predicate Grouped(rows: seq<Row>) {
    forall i, j, k :: 0 <= i < j < k < |rows| && rows[i].name == rows[k].name ==> rows[j].name == rows[i].name
  }

  /** ... and within an agent, live sessions come first. */
  predicate LiveFirst(rows: seq<Row>) {
    forall i, j :: 0 <= i < j < |rows| && rows[i].name == rows[j].name && rows[j].online ==> rows[i].online
  }

  /**
   The shared session is '' in the database and has no name on the wire; a lapsed session is offline whatever it
   said.
   */
  function SessionOf(row: Row): AgentSession {
    AgentSession(
      if row.session == Some("") then None else row.session,
      if !row.online then "offline" else if row.status.Some? then row.status.value else "active",
      row.repo, row.branch, row.activity, row.updatedAt, row.online)
  }

  // ------------------------------------------------------------------------ group by --

  /** The rows of one agent, in order. */
  function RowsOf(rows: seq<Row>, name: string): seq<Row> {
    if rows == [] then []
    else
      var last := rows[|rows| - 1];
      RowsOf(rows[..|rows| - 1], name) + if last.name == name then [last] else []
  }

  lemma {:induction false} RowsOfAreInRows(rows: seq<Row>, name: string, r: Row)
    ensures r in RowsOf(rows, name) <==> r in rows && r.name == name
    decreases |rows|
  {
    if rows != [] {
      RowsOfAreInRows(rows[..|rows| - 1], name, r);
      assert rows == rows[..|rows| - 1] + [rows[|rows| - 1]];
    }
  }

  ghost predicate AnyLive(rows: seq<Row>) {
    exists k :: 0 <= k < |rows| && rows[k].online
  }

  /** The entry of one agent, from all of its rows: the first row leads. */
  ghost function Entry(group: seq<Row>): AgentInfo
    requires group != []
  {
    var lead := SessionOf(group[0]);
    AgentInfo(group[0].name, group[0].displayName, lead.session, lead.status, lead.repo, lead.branch,
              lead.activity, lead.lastSeen, AnyLive(group),
              seq(|group|, k requires 0 <= k < |group| => SessionOf(group[k])))
  }

  /** A single session is already told by the top-level fields. */
  function Shortened(a: AgentInfo): AgentInfo {
    if |a.sessions| < 2 then a.(sessions := []) else a
  }

  ghost predicate HasName(agents: seq<AgentInfo>, name: string) {
    exists a :: 0 <= a < |agents| && agents[a].name == name
  }

  ghost predicate Distinct(agents: seq<AgentInfo>) {
    forall a, b :: 0 <= a < b < |agents| ==> agents[a].name != agents[b].name
  }

  /** An entry that tells all of its agent's rows. */
  ghost predicate Tells(rows: seq<Row>, a: AgentInfo) {
    RowsOf(rows, a.name) != [] && a == Entry(RowsOf(rows, a.name))
  }

  ghost predicate AllTell(rows: seq<Row>, agents: seq<AgentInfo>) {
    forall a :: 0 <= a < |agents| ==> Tells(rows, agents[a])
  }

  /** The first `i` rows all have an entry, and the last of them is in the last entry. */
  ghost predicate Covered(rows: seq<Row>, i: nat, agents: seq<AgentInfo>)
    requires i <= |rows|
  {
    && (forall k :: 0 <= k < i ==> HasName(agents, rows[k].name))
    && (i > 0 <==> agents != [])
    && (i > 0 ==> agents[|agents| - 1].name == rows[i - 1].name)
  }

  /** The entries folded from the first `i` rows, the newest last: one per agent, each made of that agent's rows. */
  ghost predicate Folded(rows: seq<Row>, i: nat, agents: seq<AgentInfo>)
    requires i <= |rows|
  {
    Distinct(agents) && AllTell(rows[..i], agents) && Covered(rows, i, agents)
  }

  lemma OneMoreRow(rows: seq<Row>, i: nat, name: string)
    requires i < |rows|
    ensures RowsOf(rows[..i + 1], name) ==
            if rows[i].name == name then RowsOf(rows[..i], name) + [rows[i]] else RowsOf(rows[..i], name)
  {
    assert rows[..i + 1][..i] == rows[..i];
  }

  /** A row added to its agent's entry. */
  function Grown(a: AgentInfo, row: Row): AgentInfo {
    a.(online := a.online || row.online, sessions := a.sessions + [SessionOf(row)])
  }

  /** The entry an agent's first row starts. */
  function Begun(row: Row): AgentInfo {
    var lead := SessionOf(row);
    AgentInfo(row.name, row.displayName, lead.session, lead.status, lead.repo, lead.branch,
              lead.activity, lead.lastSeen, lead.online, [lead])
  }

  lemma {:induction false} EntryGrows(group: seq<Row>, row: Row)
    requires group != []
    ensures Entry(group + [row]) == Grown(Entry(group), row)
  {
    var more := group + [row];
    assert AnyLive(more) <==> AnyLive(group) || row.online by {
      if AnyLive(group) {
        var k :| 0 <= k < |group| && group[k].online;
        assert more[k].online;
      }
      if row.online {
        assert more[|group|].online;
      }
    }
    assert Entry(more).sessions == Entry(group).sessions + [SessionOf(row)];
  }

  lemma EntryBegins(row: Row)
    ensures Entry([row]) == Begun(row)
  {
    assert row.online ==> [row][0].online;
    assert Entry([row]).sessions == [SessionOf(row)];
  }

  lemma {:induction false} NamesAreKept(agents: seq<AgentInfo>, more: seq<AgentInfo>, name: string)
    requires |agents| <= |more| && forall a :: 0 <= a < |agents| ==> more[a].name == agents[a].name
    requires HasName(agents, name)
    ensures HasName(more, name)
  {
    var a :| 0 <= a < |agents| && agents[a].name == name;
    assert more[a].name == name;
  }

  lemma {:induction false} OtherEntriesStand(rows: seq<Row>, i: nat, a: AgentInfo)
    requires i < |rows| && a.name != rows[i].name && Tells(rows[..i], a)
    ensures Tells(rows[..i + 1], a)
  {
    OneMoreRow(rows, i, a.name);
  }

  lemma {:induction false} GrownEntryTells(rows: seq<Row>, i: nat, a: AgentInfo)
    requires i < |rows| && a.name == rows[i].name && Tells(rows[..i], a)
    ensures Tells(rows[..i + 1], Grown(a, rows[i]))
  {
    OneMoreRow(rows, i, a.name);
    EntryGrows(RowsOf(rows[..i], a.name), rows[i]);
  }

  lemma {:induction false} CoverGrows(rows: seq<Row>, i: nat, agents: seq<AgentInfo>, more: seq<AgentInfo>)
    requires i < |rows| && Covered(rows, i, agents)
    requires |agents| <= |more| && forall a :: 0 <= a < |agents| ==> more[a].name == agents[a].name
    requires more != [] && more[|more| - 1].name == rows[i].name
    ensures Covered(rows, i + 1, more)
  {
    forall k | 0 <= k < i ensures HasName(more, rows[k].name) {
      NamesAreKept(agents, more, rows[k].name);
    }
  }

  lemma {:induction false} LastEntryGrows(rows: seq<Row>, i: nat, agents: seq<AgentInfo>, more: seq<AgentInfo>)
    requires i < |rows| && AllTell(rows[..i], agents) && Distinct(agents)
    requires agents != [] && agents[|agents| - 1].name == rows[i].name
    requires more == agents[|agents| - 1 := Grown(agents[|agents| - 1], rows[i])]
    ensures AllTell(rows[..i + 1], more)
  {
    forall a | 0 <= a < |more| ensures Tells(rows[..i + 1], more[a]) {
      assert Tells(rows[..i], agents[a]);
      if a == |agents| - 1 {
        GrownEntryTells(rows, i, agents[a]);
      } else {
        OtherEntriesStand(rows, i, agents[a]);
      }
    }
  }

  /** A further row of the agent at the end of the list. */
  lemma {:induction false} FoldedGrows(rows: seq<Row>, i: nat, agents: seq<AgentInfo>, more: seq<AgentInfo>)
    requires i < |rows| && Folded(rows, i, agents)
    requires agents != [] && agents[|agents| - 1].name == rows[i].name
    requires more == agents[|agents| - 1 := Grown(agents[|agents| - 1], rows[i])]
    ensures Folded(rows, i + 1, more)
  {
    LastEntryGrows(rows, i, agents, more);
    CoverGrows(rows, i, agents, more);
  }

  /** The first row of an agent: adjacency says it has none earlier. */
  lemma {:induction false} FoldedBegins(rows: seq<Row>, i: nat, agents: seq<AgentInfo>)
    requires Grouped(rows) && i < |rows| && Folded(rows, i, agents)
    requires agents == [] || agents[|agents| - 1].name != rows[i].name
    ensures Folded(rows, i + 1, agents + [Begun(rows[i])])
  {
    NoneEarlier(rows, i);
    NewEntryTells(rows, i, agents);
    CoverGrows(rows, i, agents, agents + [Begun(rows[i])]);
  }

  lemma {:induction false} NewEntryTells(rows: seq<Row>, i: nat, agents: seq<AgentInfo>)
    requires i < |rows| && AllTell(rows[..i], agents) && Distinct(agents)
    requires RowsOf(rows[..i], rows[i].name) == []
    ensures AllTell(rows[..i + 1], agents + [Begun(rows[i])]) && Distinct(agents + [Begun(rows[i])])
  {
    var begun := Begun(rows[i]);
    OneMoreRow(rows, i, rows[i].name);
    EntryBegins(rows[i]);
    forall a | 0 <= a < |agents| ensures agents[a].name != begun.name && Tells(rows[..i + 1], agents[a]) {
      assert Tells(rows[..i], agents[a]);
      OtherEntriesStand(rows, i, agents[a]);
    }
    OneMoreTells(rows[..i + 1], agents, begun);
  }

  lemma {:induction false} OneMoreTells(rows: seq<Row>, agents: seq<AgentInfo>, x: AgentInfo)
    requires AllTell(rows, agents) && Distinct(agents) && Tells(rows, x)
    requires forall a :: 0 <= a < |agents| ==> agents[a].name != x.name
    ensures AllTell(rows, agents + [x]) && Distinct(agents + [x])
  {
    var more := agents + [x];
    forall a | 0 <= a < |more| ensures Tells(rows, more[a]) {
      assert more[a] == if a < |agents| then agents[a] else x;
    }
  }

  lemma {:induction false} NoneEarlier(rows: seq<Row>, i: nat)
    requires Grouped(rows) && i < |rows| && (i == 0 || rows[i - 1].name != rows[i].name)
    ensures RowsOf(rows[..i], rows[i].name) == []
  {
    var group := RowsOf(rows[..i], rows[i].name);
    if group != [] {
      RowsOfAreInRows(rows[..i], rows[i].name, group[0]);
    }
  }

  // --------------------------------------------------------------------------- order --

  /** Names compare as Rust strings do: by their first difference. */
  predicate NameLeq(a: string, b: string) {
    a == [] || (b != [] && (a[0] < b[0] || (a[0] == b[0] && NameLeq(a[1..], b[1..]))))
  }

  lemma NamesAreTotal(a: string, b: string)
    ensures NameLeq(a, b) || NameLeq(b, a)
    ensures NameLeq(a, b) && NameLeq(b, a) ==> a == b
  {
    if a != [] && b != [] && a[0] == b[0] {
      NamesAreTotal(a[1..], b[1..]);
      assert a == [a[0]] + a[1..] && b == [b[0]] + b[1..];
    }
  }

  lemma NamesAreTransitive(a: string, b: string, c: string)
    requires NameLeq(a, b) && NameLeq(b, c)
    ensures NameLeq(a, c)
  {
    if a != [] && a[0] == b[0] && b[0] == c[0] {
      NamesAreTransitive(a[1..], b[1..], c[1..]);
    }
  }

  /** Online agents first, then by name. */
  predicate AtMost(a: AgentInfo, b: AgentInfo) {
    if a.online == b.online then NameLeq(a.name, b.name) else a.online
  }

  predicate Ordered(s: seq<AgentInfo>) {
    forall i, j :: 0 <= i < j < |s| ==> AtMost(s[i], s[j])
  }

  lemma AtMostIsTransitive(a: AgentInfo, b: AgentInfo, c: AgentInfo)
    requires AtMost(a, b) && AtMost(b, c)
    ensures AtMost(a, c)
  {
    if a.online == b.online && b.online == c.online {
      NamesAreTransitive(a.name, b.name, c.name);
    }
  }

  /** Where an entry belongs in an ordered list: after everything at most as large. */
  method Position(s: seq<AgentInfo>, x: AgentInfo) returns (p: nat)
    requires Ordered(s)
    ensures p <= |s|
    ensures forall i :: 0 <= i < p ==> AtMost(s[i], x)
    ensures forall i :: p <= i < |s| ==> AtMost(x, s[i])
  {
    p := |s|;
    while p > 0 && !AtMost(s[p - 1], x)
      invariant p <= |s|
      invariant forall i :: p <= i < |s| ==> AtMost(x, s[i])
    {
      p := p - 1;
      NamesAreTotal(s[p].name, x.name);
    }
    forall i | 0 <= i < p ensures AtMost(s[i], x) {
      if i < p - 1 {
        AtMostIsTransitive(s[i], s[p - 1], x);
      }
    }
  }

  /** An ordered permutation. */
  ghost predicate IsSortOf(s: seq<AgentInfo>, agents: seq<AgentInfo>) {
    Ordered(s) && multiset(s) == multiset(agents)
  }

  /** Inserting an entry where it belongs keeps the order. */
  lemma {:induction false} InsertionIsOrdered(s: seq<AgentInfo>, x: AgentInfo, p: nat)
    requires Ordered(s) && p <= |s|
    requires forall i :: 0 <= i < p ==> AtMost(s[i], x)
    requires forall i :: p <= i < |s| ==> AtMost(x, s[i])
    ensures Ordered(s[..p] + [x] + s[p..])
  {
    var t := s[..p] + [x] + s[p..];
    forall i, j | 0 <= i < j < |t| ensures AtMost(t[i], t[j]) {
      var a, b := if i < p then i else i - 1, if j <= p then j else j - 1;
      assert i != p ==> t[i] == s[a];
      assert j != p ==> t[j] == s[b];
    }
  }

  /** ... and adds just that entry. */
  lemma {:induction false} InsertionSorts(s: seq<AgentInfo>, agents: seq<AgentInfo>, x: AgentInfo, p: nat)
    requires p <= |s| && IsSortOf(s, agents) && Ordered(s[..p] + [x] + s[p..])
    ensures IsSortOf(s[..p] + [x] + s[p..], agents + [x])
  {
    assert s == s[..p] + s[p..];
  }

  method Sorted(agents: seq<AgentInfo>) returns (s: seq<AgentInfo>)
    ensures IsSortOf(s, agents)
  {
    s := [];
    for i := 0 to |agents|
      invariant IsSortOf(s, agents[..i])
    {
      s := Inserted(s, agents[..i], agents[i]);
      assert agents[..i + 1] == agents[..i] + [agents[i]];
    }
    assert agents[..|agents|] == agents;
  }

  method Inserted(s: seq<AgentInfo>, ghost agents: seq<AgentInfo>, x: AgentInfo) returns (t: seq<AgentInfo>)
    requires IsSortOf(s, agents)
    ensures IsSortOf(t, agents + [x])
  {
    var p := Position(s, x);
    InsertionIsOrdered(s, x, p);
    InsertionSorts(s, agents, x, p);
    t := s[..p] + [x] + s[p..];
  }

  // ---------------------------------------------------------------------- list_agents --

  /** The names with a live session. */
  ghost function OnlineNames(rows: seq<Row>): set<string> {
    set r | r in rows && r.online :: r.name
  }

  /** The listing group-by would give: every agent of the rows once, made of its own rows, in order. */
  ghost predicate Listing(rows: seq<Row>, agents: seq<AgentInfo>) {
    Ordered(agents) && Complete(rows, agents)
  }

  ghost predicate Shows(rows: seq<Row>, a: AgentInfo) {
    RowsOf(rows, a.name) != [] && a == Shortened(Entry(RowsOf(rows, a.name)))
  }

  ghost predicate Complete(rows: seq<Row>, agents: seq<AgentInfo>) {
    && Distinct(agents)
    && (forall k :: 0 <= k < |rows| ==> HasName(agents, rows[k].name))
    && (forall a :: 0 <= a < |agents| ==> Shows(rows, agents[a]))
  }

  method Fold(rows: seq<Row>) returns (agents: seq<AgentInfo>)
    requires Grouped(rows)
    ensures Folded(rows, |rows|, agents)
  {
    agents := [];
    for i := 0 to |rows|
      invariant Folded(rows, i, agents)
    {
      var row := rows[i];
      if agents != [] && agents[|agents| - 1].name == row.name {
        FoldedGrows(rows, i, agents, agents[|agents| - 1 := Grown(agents[|agents| - 1], row)]);
        agents := agents[|agents| - 1 := Grown(agents[|agents| - 1], row)];
      } else {
        FoldedBegins(rows, i, agents);
        agents := agents + [Begun(row)];
      }
    }
  }

  /** The names shown as online among the first `i` entries. */
  ghost function ShownOnline(agents: seq<AgentInfo>, i: nat): set<string>
    requires i <= |agents|
  {
    set k | 0 <= k < i && agents[k].online :: agents[k].name
  }

  method CountOnline(agents: seq<AgentInfo>) returns (n: nat)
    requires Distinct(agents)
    ensures n == |ShownOnline(agents, |agents|)|
  {
    n := 0;
    for i := 0 to |agents|
      invariant n == |ShownOnline(agents, i)|
    {
      assert agents[i].name !in ShownOnline(agents, i);
      if agents[i].online {
        assert ShownOnline(agents, i + 1) == ShownOnline(agents, i) + {agents[i].name};
        n := n + 1;
      } else {
        assert ShownOnline(agents, i + 1) == ShownOnline(agents, i);
      }
    }
  }

  lemma {:induction false} OnlineMeansALiveRow(rows: seq<Row>, a: AgentInfo)
    requires Shows(rows, a)
    ensures a.online <==> a.name in OnlineNames(rows)
  {
    var group := RowsOf(rows, a.name);
    if a.online {
      var k :| 0 <= k < |group| && group[k].online;
      RowsOfAreInRows(rows, a.name, group[k]);
    }
    if a.name in OnlineNames(rows) {
      var r :| r in rows && r.online && r.name == a.name;
      RowsOfAreInRows(rows, a.name, r);
      var k :| 0 <= k < |group| && group[k] == r;
      assert AnyLive(group);
    }
  }

  lemma {:induction false} OnlineNamesOfEntries(rows: seq<Row>, agents: seq<AgentInfo>)
    requires Complete(rows, agents)
    ensures ShownOnline(agents, |agents|) == OnlineNames(rows)
  {
    forall a | 0 <= a < |agents| ensures agents[a].online <==> agents[a].name in OnlineNames(rows) {
      OnlineMeansALiveRow(rows, agents[a]);
    }
    forall n | n in OnlineNames(rows) ensures n in ShownOnline(agents, |agents|) {
      var r :| r in rows && r.online && r.name == n;
      var k :| 0 <= k < |rows| && rows[k] == r;
      assert HasName(agents, rows[k].name);
    }
  }

  /** The fold, the shortening and the sort give exactly the group-by listing, and count people, not sessions. */
  method ListAgents(rows: seq<Row>) returns (agents: seq<AgentInfo>, onlineCount: nat)
    requires Grouped(rows)
    ensures Listing(rows, agents)
    ensures onlineCount == |OnlineNames(rows)|
  {
    var folded := Fold(rows);
    var shown := ShortenAll(folded);
    ShorteningCompletes(rows, folded, shown);
    OnlineNamesOfEntries(rows, shown);
    onlineCount := CountOnline(shown);
    agents := Sorted(shown);
    PermutationIsComplete(rows, shown, agents);
  }

  method ShortenAll(agents: seq<AgentInfo>) returns (r: seq<AgentInfo>)
    ensures |r| == |agents| && forall k :: 0 <= k < |r| ==> r[k] == Shortened(agents[k])
  {
    r := agents;
    for i := 0 to |agents|
      invariant |r| == |agents|
      invariant forall k :: 0 <= k < |r| ==> r[k] == if k < i then Shortened(agents[k]) else agents[k]
    {
      r := r[i := Shortened(r[i])];
    }
  }

  lemma {:induction false} ShorteningCompletes(rows: seq<Row>, folded: seq<AgentInfo>, shown: seq<AgentInfo>)
    requires Folded(rows, |rows|, folded)
    requires |shown| == |folded| && forall k :: 0 <= k < |shown| ==> shown[k] == Shortened(folded[k])
    ensures Complete(rows, shown)
  {
    assert rows[..|rows|] == rows;
    forall k | 0 <= k < |rows| ensures HasName(shown, rows[k].name) {
      NamesAreKept(folded, shown, rows[k].name);
    }
    forall a | 0 <= a < |shown| ensures Shows(rows, shown[a]) {
      assert Tells(rows[..|rows|], folded[a]);
    }
  }

  lemma {:induction false} PermutationIsComplete(rows: seq<Row>, s: seq<AgentInfo>, t: seq<AgentInfo>)
    requires multiset(s) == multiset(t) && Complete(rows, s)
    ensures Complete(rows, t)
  {
    forall k | 0 <= k < |rows| ensures HasName(t, rows[k].name) {
      assert HasName(s, rows[k].name);
      var a :| 0 <= a < |s| && s[a].name == rows[k].name;
      InBoth(s, t, s[a]);
    }
    forall a | 0 <= a < |t| ensures Shows(rows, t[a]) {
      InBoth(t, s, t[a]);
    }
    forall a, b | 0 <= a < b < |t| ensures t[a].name != t[b].name {
      if t[a].name == t[b].name {
        InBoth(t, s, t[a]);
        InBoth(t, s, t[b]);
        TwiceInBoth(s, t, a, b);
      }
    }
  }

  lemma {:induction false} InBoth<T>(s: seq<T>, t: seq<T>, x: T)
    requires multiset(s) == multiset(t) && x in s
    ensures exists k :: 0 <= k < |t| && t[k] == x
  {
    assert x in multiset(s);
    assert x in t;
  }

  lemma {:induction false} TwiceInBoth<T>(s: seq<T>, t: seq<T>, a: nat, b: nat)
    requires multiset(s) == multiset(t) && a < b < |t| && t[a] == t[b]
    ensures exists i, j :: 0 <= i < j < |s| && s[i] == t[a] && s[j] == t[a]
  {
    var x := t[a];
    assert t == t[..b] + [t[b]] + t[b + 1..];
    assert t[..b][a] == x;
    assert multiset(t)[x] == multiset(t[..b])[x] + 1 + multiset(t[b + 1..])[x] >= 2;
    assert x in multiset(s);
    var j :| 0 <= j < |s| && s[j] == x;
    assert s == s[..j] + [s[j]] + s[j + 1..];
    assert multiset(s)[x] == multiset(s[..j])[x] + 1 + multiset(s[j + 1..])[x];
    if x in multiset(s[..j]) {
      var i :| 0 <= i < j && s[..j][i] == x;
      assert s[i] == x;
    } else {
      assert x in s[j + 1..];
      var i :| 0 <= i < |s[j + 1..]| && s[j + 1..][i] == x;
      assert s[j + 1 + i] == x;
    }
  }

  /** The listing is determined by the rows: there is only one. */
  lemma {:induction false} ListingIsUnique(rows: seq<Row>, s: seq<AgentInfo>, t: seq<AgentInfo>)
    requires Listing(rows, s) && Listing(rows, t)
    ensures s == t
  {
    forall a | a in s ensures a in t {
      EntryOfBoth(rows, s, t, a);
    }
    forall a | a in t ensures a in s {
      EntryOfBoth(rows, t, s, a);
    }
    SameOrderedElements(s, t);
  }

  lemma {:induction false} EntryOfBoth(rows: seq<Row>, s: seq<AgentInfo>, t: seq<AgentInfo>, a: AgentInfo)
    requires Listing(rows, s) && Listing(rows, t) && a in s
    ensures a in t
  {
    assert Shows(rows, a);
    var r := RowsOf(rows, a.name)[0];
    RowsOfAreInRows(rows, a.name, r);
    var k :| 0 <= k < |rows| && rows[k] == r;
    assert HasName(t, rows[k].name);
    var b :| 0 <= b < |t| && t[b].name == a.name;
    assert Shows(rows, t[b]);
  }

  lemma {:induction false} SameOrderedElements(s: seq<AgentInfo>, t: seq<AgentInfo>)
    requires Ordered(s) && Ordered(t) && Distinct(s) && Distinct(t)
    requires forall a :: a in s <==> a in t
    ensures s == t
    decreases |s|
  {
    HasAnElement(s);
    HasAnElement(t);
    if s != [] && t != [] {
      SameFirst(s, t);
      forall a ensures a in s[1..] <==> a in t[1..] {
        assert a in s[1..] <==> a in s && a != s[0];
        assert a in t[1..] <==> a in t && a != t[0];
      }
      SameOrderedElements(s[1..], t[1..]);
      assert s == [s[0]] + s[1..] && t == [t[0]] + t[1..];
    }
  }

  lemma {:induction false} HasAnElement(s: seq<AgentInfo>)
    ensures s == [] || exists a :: a in s
  {
    if s != [] {
      assert s[0] in s;
    }
  }

  lemma {:induction false} SameFirst(s: seq<AgentInfo>, t: seq<AgentInfo>)
    requires Ordered(s) && Ordered(t) && s != [] && t != [] && Distinct(s)
    requires s[0] in t && t[0] in s
    ensures s[0] == t[0]
  {
    var i :| 0 <= i < |s| && s[i] == t[0];
    var j :| 0 <= j < |t| && t[j] == s[0];
    if i > 0 && j > 0 {
      NamesAreTotal(s[0].name, t[0].name);
    }
  }

  /** With live sessions first, the lead session is live exactly when the agent is: nobody online reads as offline. */
  lemma {:induction false} LeadTellsWhetherOnline(rows: seq<Row>, name: string)
    requires LiveFirst(rows) && RowsOf(rows, name) != []
    ensures Entry(RowsOf(rows, name)).online <==> RowsOf(rows, name)[0].online
    ensures !Entry(RowsOf(rows, name)).online ==> Entry(RowsOf(rows, name)).status == "offline"
  {
    LiveFirstInGroup(rows, name);
    var group := RowsOf(rows, name);
    if group[0].online {
      assert AnyLive(group);
    } else if AnyLive(group) {
      var k :| 0 <= k < |group| && group[k].online;
      RowsOfAreInRows(rows, name, group[0]);
      RowsOfAreInRows(rows, name, group[k]);
    }
  }

  lemma {:induction false} LiveFirstInGroup(rows: seq<Row>, name: string)
    requires LiveFirst(rows)
    ensures LiveFirst(RowsOf(rows, name))
    decreases |rows|
  {
    if rows != [] {
      var front, last := rows[..|rows| - 1], rows[|rows| - 1];
      LiveFirstInGroup(front, name);
      var group := RowsOf(front, name);
      forall i | 0 <= i < |group| && last.name == name && last.online ensures group[i].online {
        RowsOfAreInRows(front, name, group[i]);
        var k :| 0 <= k < |front| && front[k] == group[i];
        assert rows[k] == front[k];
      }
    }
  }

  // ------------------------------------------------------------------- in columns --

  /** A session as its row tells it: nameless if shared, and offline once lapsed, whatever it said. */
  ghost predicate TellsRow(x: AgentSession, row: Row) {
    && x.session == (if row.session.Some? && |row.session.value| > 0 then row.session else None)
    && (row.online && row.status.Some? ==> x.status == row.status.value)
    && (row.online && row.status == None ==> x.status == "active")
    && (!row.online ==> x.status == "offline")
    && x.repo == row.repo && x.branch == row.branch && x.activity == row.activity
    && x.lastSeen == row.updatedAt && x.online == row.online
  }

  /** The session the top-level fields of an entry describe. */
  function Lead(a: AgentInfo, online: bool): AgentSession {
    AgentSession(a.session, a.status, a.repo, a.branch, a.activity, a.lastSeen, online)
  }

  /**
   An entry of the listing: the top-level fields are those of its agent's first row, it is online if any
   row is, and it has one session per row, in order, unless there is only one.
   */
  lemma {:induction false} EntriesInColumns(rows: seq<Row>, a: AgentInfo)
    requires Shows(rows, a)
    ensures var own := RowsOf(rows, a.name);
            && own != [] && (forall r :: r in own ==> r in rows && r.name == a.name)
            && a.displayName == own[0].displayName
            && TellsRow(Lead(a, own[0].online), own[0])
            && (a.online <==> exists r :: r in rows && r.name == a.name && r.online)
            && (|own| < 2 ==> a.sessions == [])
            && (|own| >= 2 ==>
                  |a.sessions| == |own| && forall k :: 0 <= k < |own| ==> TellsRow(a.sessions[k], own[k]))
  {
    var own := RowsOf(rows, a.name);
    forall r ensures r in own <==> r in rows && r.name == a.name {
      RowsOfAreInRows(rows, a.name, r);
    }
    assert own[0] in own;
    if r :| r in rows && r.name == a.name && r.online {
      var k :| 0 <= k < |own| && own[k] == r;
      assert AnyLive(own);
    }
  }

  /** A name comes before those it begins, and before those that are larger where they first differ. */
  lemma {:induction false} NamesInOrder(common: string, x: string, y: string)
    ensures NameLeq(common, common + y) && (y != "" ==> !NameLeq(common + y, common))
    ensures x != "" && y != "" && x[0] < y[0] ==> NameLeq(common + x, common + y) && !NameLeq(common + y, common + x)
    decreases |common|
  {
    if common == "" {
      assert common + x == x && common + y == y;
    } else {
      NamesInOrder(common[1..], x, y);
      assert (common + x)[1..] == common[1..] + x && (common + y)[1..] == common[1..] + y;
      assert (common + x)[0] == common[0] == (common + y)[0];
    }
  }

  /** In the listing whoever is online comes before whoever is not, and each of the two groups goes by name. */
  lemma {:induction false} ListedInOrder(agents: seq<AgentInfo>, i: nat, j: nat)
    requires Ordered(agents) && i < |agents| && j < |agents|
    ensures agents[i].online && !agents[j].online ==> i < j
    ensures agents[i].online == agents[j].online && agents[i].name != agents[j].name ==>
              (i < j <==> NameLeq(agents[i].name, agents[j].name))
  {
    NamesAreTotal(agents[i].name, agents[j].name);
    if i > j {
      assert AtMost(agents[j], agents[i]);
    } else if i < j {
      assert AtMost(agents[i], agents[j]);
    }
  }

  /** The query's ORDER BY, by name and then live sessions first, is what the fold relies on. */
  lemma {:induction false} SortedRowsAreGrouped(rows: seq<Row>)
    requires forall i, j :: 0 <= i < j < |rows| ==> NameLeq(rows[i].name, rows[j].name)
    requires forall i, j :: 0 <= i < j < |rows| && rows[i].name == rows[j].name && rows[j].online ==> rows[i].online
    ensures Grouped(rows) && LiveFirst(rows)
  {
    forall i, j, k | 0 <= i < j < k < |rows| && rows[i].name == rows[k].name ensures rows[j].name == rows[i].name {
      NamesAreTotal(rows[i].name, rows[j].name);
    }
  }
}
