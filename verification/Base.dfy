/** Vocabulary shared by the whole model: who is calling, when, and what can go wrong. */
module Base {

  datatype Option<+T> = None | Some(value: T)

  datatype Result<+T> = Ok(value: T) | Err(error: Error)

  /** The bus's error classes; the wording of the messages is not modelled. */
  datatype Error = Invalid | Conflict | NotFound

  type AgentId = nat
  type TeamId = nat
  type MessageId = nat

  /** A database timestamp in microseconds. Two instants may be equal. */
  type Instant = int

  const SECOND := 1_000_000

  /** The cap on the `metadata` of a task or a message, in bytes of JSON. */
  const MAX_METADATA_BYTES := 16 * 1024

  /** The kinds of change the bus announces, to waiting sessions and to webhooks. */
  datatype Kind = MessageKind | TaskKind | LockKind | NoteKind

  /** The caller: the token fixes the agent and the team, the header picks the session ("" is the shared one). */
  datatype Auth = Auth(team: TeamId, agent: AgentId, session: string)

  /** A caller is one session of one agent. */
  predicate SameSession(a: Auth, b: Auth) {
    a.agent == b.agent && a.session == b.session
  }

  /** SQL's COALESCE(column, ''): a NULL session is the shared one. */
  function SharedIfNull(session: Option<string>): string {
    if session.Some? then session.value else ""
  }

  function Clamp(x: int, lo: int, hi: int): int {
    if x < lo then lo else if x > hi then hi else x
  }

  lemma {:induction false} SubsetSize<T>(a: set<T>, b: set<T>)
    requires a <= b
    ensures |a| <= |b|
  {
    assert b == a + (b - a);
  }
}
