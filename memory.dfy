/** The records of the conversation memory: a session (a class, because the
    session manager stamps the end time on the very object its caller holds),
    the rows of the two tables and the listing summary. Timestamps are
    milliseconds since the epoch. */
module Memory {
  import opened Wrappers

  /** The author of a message. */
  datatype Role = User | Assistant | Tool

  /** One row of the `sessions` table. */
  datatype SessionRow = SessionRow(
    id: string,
    startedAt: int,
    endedAt: Option<int>,
    projectPath: string,
    modelUsed: string)

  /** A message as handed to the store, before the store assigns its id. */
  datatype NewMessage = NewMessage(
    sessionId: string,
    timestamp: int,
    role: Role,
    content: string,
    toolCalls: Option<string>,
    toolResults: Option<string>)

  /** One row of the `messages` table; `toolCalls` and `toolResults` are the
      serialized payloads, None when the column is NULL. */
  datatype Message = Message(
    id: int,
    sessionId: string,
    timestamp: int,
    role: Role,
    content: string,
    toolCalls: Option<string>,
    toolResults: Option<string>)

  /** A session together with its message count and the content of its most
      recent message, as listed to the user. */
  datatype SessionSummary = SessionSummary(
    id: string,
    startedAt: int,
    endedAt: Option<int>,
    projectPath: string,
    modelUsed: string,
    messageCount: nat,
    lastMessage: string)

  /** The row a new message becomes once the store has given it `id`. */
  function Stored(m: NewMessage, id: int): Message {
    Message(id, m.sessionId, m.timestamp, m.role, m.content, m.toolCalls, m.toolResults)
  }

  /** A conversation session. Only its end time ever changes once it exists. */
  class Session {
    const id: string
    const startedAt: int
    var endedAt: Option<int>
    const projectPath: string
    const modelUsed: string

    /** Stores every argument unchanged; without an end time the session is
        active. */
    constructor (id: string, startedAt: int, projectPath: string, modelUsed: string,
                 endedAt: Option<int> := None)
      ensures this.id == id && this.startedAt == startedAt && this.endedAt == endedAt
      ensures this.projectPath == projectPath && this.modelUsed == modelUsed
      ensures IsActive() <==> endedAt.None?
    {
      this.id := id;
      this.startedAt := startedAt;
      this.endedAt := endedAt;
      this.projectPath := projectPath;
      this.modelUsed := modelUsed;
    }

    /** The table row this session is persisted as. */
    function Row(): SessionRow
      reads this
    {
      SessionRow(id, startedAt, endedAt, projectPath, modelUsed)
    }

    /** A session is active while it has no end time. */
    predicate IsActive()
      reads this
    {
      endedAt == None
    }

    /** Milliseconds from the start to the end time, or to `now` (the clock
        reading) while the session is active. */
    function Duration(now: int): int
      reads this
    {
      match endedAt
      case None => now - startedAt
      case Some(end) => end - startedAt
    }
  }

  /** An ended session's duration is its end time minus its start time,
      whatever the clock says; an active one's is measured up to the clock. */
  lemma DurationByState(s: Session, now: int)
    ensures !s.IsActive() ==> s.Duration(now) == s.endedAt.value - s.startedAt
    ensures s.IsActive() ==> s.Duration(now) == now - s.startedAt
    ensures !s.IsActive() ==> forall later :: s.Duration(later) == s.Duration(now)
  {
  }

  /** A duration is never negative when the end time (or the clock, for an
      active session) is not before the start time. */
  lemma DurationNonNegative(s: Session, now: int)
    requires (if s.IsActive() then now else s.endedAt.value) >= s.startedAt
    ensures s.Duration(now) >= 0
  {
  }
}
