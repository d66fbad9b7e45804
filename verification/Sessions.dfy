/** Session labels, `agent/session` addresses and read-cursor keys: one grammar keeps all three unambiguous. */
module Sessions {
  import opened Base
  import opened Text

  const MAX_SESSION_BYTES := 64

  predicate IsTemplateChar(c: char) {
    c == '$' || c == '{' || c == '}'
  }

  /** Lower-case printable ASCII, no slash and no template characters. */
  predicate LabelChars(s: string) {
    '/' !in s && forall i :: 0 <= i < |s| ==> IsAscii(s[i]) && !IsControl(s[i]) && !IsTemplateChar(s[i])
  }

  /** The checks of normalize_session on the trimmed and lowered label, in its order. */
  function CheckLabel(tag: string): (r: Result<string>)
    ensures r == if |tag| <= MAX_SESSION_BYTES && LabelChars(tag) then Ok(tag) else Err(Invalid)
  {
    if tag == "" then Ok("")
    else if |tag| > MAX_SESSION_BYTES then Err(Invalid)
    else if exists i :: 0 <= i < |tag| && !IsAscii(tag[i]) then Err(Invalid)
    else if exists i :: 0 <= i < |tag| && IsControl(tag[i]) then Err(Invalid)
    else if exists i :: 0 <= i < |tag| && IsTemplateChar(tag[i]) then Err(Invalid)
    else if '/' in tag then Err(Invalid)
    else Ok(tag)
  }

  /** Normalise and validate a session label, from the header or from an address. */
  function NormalizeSession(raw: string): (r: Result<string>)
    ensures r.Ok? ==> IsLabel(r.value)
    ensures r.Err? ==> r == Err(Invalid)
  {
    LoweredLabels(Trim(raw));
    CheckLabel(Lower(Trim(raw)))
  }

  lemma {:induction false} LoweredLabels(s: string)
    requires Trimmed(s)
    ensures Trimmed(Lower(s)) && forall i :: 0 <= i < |s| ==> !('A' <= Lower(s)[i] <= 'Z')
  {}

  /** The labels a session can have. */
  predicate IsLabel(s: string) {
    && Trimmed(s) && |s| <= MAX_SESSION_BYTES && LabelChars(s)
    && forall i :: 0 <= i < |s| ==> !('A' <= s[i] <= 'Z')
  }

  /** The validator accepts exactly the labels, up to spacing and case, and returns them unchanged. */
  lemma {:induction false} LabelsAreFixedPoints(raw: string)
    ensures IsLabel(raw) ==> NormalizeSession(raw) == Ok(raw)
    ensures NormalizeSession(raw).Ok? <==> IsLabel(Lower(Trim(raw)))
  {
    if IsLabel(raw) {
      assert Lower(raw) == raw;
    }
  }

  /** What a label may be made of: the printable characters 32 to 126, but no slash, dollar or brace. */
  predicate MadeOfLabelCharacters(s: string) {
    forall i :: 0 <= i < |s| ==> 32 <= s[i] as int <= 126 && s[i] != '/' && s[i] != '$' && s[i] != '{' && s[i] != '}'
  }

  lemma {:induction false} LabelCharsAreThose(s: string)
    ensures LabelChars(s) <==> MadeOfLabelCharacters(s)
  {
    forall i | 0 <= i < |s|
      ensures IsAscii(s[i]) && !IsControl(s[i]) && !IsTemplateChar(s[i]) && s[i] != '/' <==>
                32 <= s[i] as int <= 126 && s[i] != '/' && s[i] != '$' && s[i] != '{' && s[i] != '}'
    {}
    if LabelChars(s) {
      assert forall i :: 0 <= i < |s| ==> s[i] != '/';
    }
  }

  /** Exactly what is accepted: up to 64 such characters once trimmed and lowered, which is what it becomes. */
  lemma {:induction false} LabelsInCharacters(raw: string, tag: string)
    requires tag == Lower(Trim(raw))
    ensures NormalizeSession(raw) ==
            if |tag| <= 64 && MadeOfLabelCharacters(tag) then Ok(tag) else Err(Invalid)
  {
    LabelCharsAreThose(tag);
  }

  // ------------------------------------------------------------------- addresses --

  /** `split_once('/')`. */
  function SplitOnce(s: string): (r: Option<(string, string)>)
    ensures r == None <==> '/' !in s
    ensures r.Some? ==> '/' !in r.value.0 && s == r.value.0 + "/" + r.value.1
  {
    if s == "" then None
    else if s[0] == '/' then Some(("", s[1..]))
    else
      match SplitOnce(s[1..])
      case None => None
      case Some((a, b)) => Some(([s[0]] + a, b))
  }

  /** Split `agent[/session]`; no session means every session of the agent. */
  function ParseAddress(raw: string): (r: Result<(string, Option<string>)>)
    ensures r.Ok? && r.value.1.Some? ==> IsLabel(r.value.1.value) && r.value.1.value != ""
    ensures r.Ok? ==> '/' !in r.value.0 && Trimmed(r.value.0) && (r.value.1.Some? ==> r.value.0 != "")
  {
    var address := Trim(raw);
    match SplitOnce(address)
    case None => Ok((address, None))
    case Some((agent, session)) =>
      TrimOnlyRemoves(agent, '/');
      if Trim(agent) == "" then Err(Invalid)
      else
        match NormalizeSession(session)
        case Err(e) => Err(e)
        case Ok(tag) => if tag == "" then Err(Invalid) else Ok((Trim(agent), Some(tag)))
  }

  function FormatAddress(agent: string, session: Option<string>): string {
    if session.Some? then agent + "/" + session.value else agent
  }

  lemma SlashPosition(a: string, b: string)
    requires '/' !in a
    ensures (a + "/" + b)[|a|] == '/' && forall k :: 0 <= k < |a| ==> (a + "/" + b)[k] != '/'
  {}

  /** Two ways to cut a string at its first slash are the same way. */
  lemma FirstSlashIsUnique(a: string, b: string, c: string, d: string)
    requires '/' !in a && '/' !in c && a + "/" + b == c + "/" + d
    ensures a == c && b == d
  {
    SlashPosition(a, b);
    SlashPosition(c, d);
    assert a == (a + "/" + b)[..|a|] == c;
    assert b == (a + "/" + b)[|a| + 1..] == d;
  }

  /** An address round-trips: what names an agent and one of its sessions parses back to exactly them. */
  lemma {:induction false} AddressRoundTrip(agent: string, session: Option<string>)
    requires Trimmed(agent) && '/' !in agent
    requires session.Some? ==> agent != "" && session.value != "" && IsLabel(session.value)
    ensures ParseAddress(FormatAddress(agent, session)) == Ok((agent, session))
  {
    var address := FormatAddress(agent, session);
    if session.Some? {
      assert address[0] == agent[0] && address[|address| - 1] == session.value[|session.value| - 1];
      assert Trim(address) == address;
      assert '/' in address by { assert address[|agent|] == '/'; }
      var (a, b) := SplitOnce(address).value;
      FirstSlashIsUnique(agent, session.value, a, b);
      LabelsAreFixedPoints(session.value);
    }
  }

  /** And parsing is a projection: printing a parsed address and parsing again changes nothing. */
  lemma {:induction false} ParsedAddressesAreStable(raw: string)
    requires ParseAddress(raw).Ok?
    ensures var (agent, session) := ParseAddress(raw).value;
            ParseAddress(FormatAddress(agent, session)) == Ok((agent, session))
  {
    var (agent, session) := ParseAddress(raw).value;
    AddressRoundTrip(agent, session);
  }

  // ----------------------------------------------------------------- cursor keys --

  /** The read-cursor key of a scope, per session and per view. */
  function CursorScopeFor(base: string, session: string, allSessions: bool): string {
    if session == "" && !allSessions then base
    else if !allSessions then base + "/s/" + session
    else base + "/a/" + session
  }

  /** What follows the first slash of a key: the view and the session, or nothing. */
  function Suffix(session: string, allSessions: bool): Option<string> {
    if session == "" && !allSessions then None
    else Some((if allSessions then "a/" else "s/") + session)
  }

  lemma KeyIsBaseAndSuffix(base: string, session: string, allSessions: bool)
    ensures CursorScopeFor(base, session, allSessions) ==
            match Suffix(session, allSessions) { case None => base case Some(x) => base + "/" + x }
  {
    assert base + "/s/" + session == base + "/" + ("s/" + session);
    assert base + "/a/" + session == base + "/" + ("a/" + session);
  }

  lemma SuffixIsInjective(s1: string, v1: bool, s2: string, v2: bool)
    requires Suffix(s1, v1) == Suffix(s2, v2)
    ensures s1 == s2 && v1 == v2
  {
    if Suffix(s1, v1).Some? {
      var x := Suffix(s1, v1).value;
      assert x[0] == if v1 then 'a' else 's';
      assert x[0] == if v2 then 'a' else 's';
      assert x[2..] == s1 && x[2..] == s2;
    }
  }

  /** Cursor keys never collide: base, session and view can be read off the key. */
  lemma CursorKeysAreInjective(b1: string, s1: string, v1: bool, b2: string, s2: string, v2: bool)
    requires '/' !in b1 && '/' !in b2
    ensures CursorScopeFor(b1, s1, v1) == CursorScopeFor(b2, s2, v2) <==> b1 == b2 && s1 == s2 && v1 == v2
  {
    if CursorScopeFor(b1, s1, v1) == CursorScopeFor(b2, s2, v2) {
      KeyIsBaseAndSuffix(b1, s1, v1);
      KeyIsBaseAndSuffix(b2, s2, v2);
      if Suffix(s1, v1).Some? && Suffix(s2, v2).Some? {
        FirstSlashIsUnique(b1, Suffix(s1, v1).value, b2, Suffix(s2, v2).value);
      }
      SuffixIsInjective(s1, v1, s2, v2);
    }
  }
}
