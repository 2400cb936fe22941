/** The persistence store: the `sessions` and `messages` tables held in
    memory. Every mutation is a method on the class that states the whole new
    state; every query is a function over the tables whose contract says
    exactly which rows it returns and in what order. */
module Persistence {
  import opened Wrappers
  import opened Tables
  import opened Memory

  /** The SQLite error text of an INSERT that repeats a `sessions.id`. */
  const DuplicateSessionId := "UNIQUE constraint failed: sessions.id"

  /** Sort keys and primary keys of the two tables. */
  function NegatedStart(s: SessionRow): int { -s.startedAt }
  function SessionKey(s: SessionRow): string { s.id }
  function MessageTime(m: Message): int { m.timestamp }
  function MessageKey(m: Message): int { m.id }

  /** Sessions ordered by start time, newest first (`ORDER BY started_at DESC`). */
  predicate NewestFirst(rows: seq<SessionRow>) {
    forall i, j :: 0 <= i < j < |rows| ==> rows[i].startedAt >= rows[j].startedAt
  }

  /** Summaries ordered by start time, newest first. */
  predicate SummariesNewestFirst(r: seq<SessionSummary>) {
    forall i, j :: 0 <= i < j < |r| ==> r[i].startedAt >= r[j].startedAt
  }

  /** Summaries that start as the rows in the same positions do are newest
      first when the rows are. */
  lemma PrefixNewestFirst(r: seq<SessionSummary>, rows: seq<SessionRow>)
    requires |r| <= |rows| && NewestFirst(rows)
    requires forall i :: 0 <= i < |r| ==> r[i].startedAt == rows[i].startedAt
    ensures SummariesNewestFirst(r)
  {
  }

  /** `rows` reordered newest first. */
  function NewestFirstOf(rows: seq<SessionRow>): (r: seq<SessionRow>)
    ensures NewestFirst(r)
    ensures multiset(r) == multiset(rows)
    ensures |r| == |rows|
  {
    var sorted := SortBy(rows, NegatedStart);
    assert SortedBy(sorted, NegatedStart);
    assert |sorted| == |multiset(sorted)|;
    sorted
  }

  /** The messages table without the rows of session `sid`
      (`DELETE FROM messages WHERE session_id = ?`). */
  function WithoutMessagesOf(messages: seq<Message>, sid: string): (r: seq<Message>)
    ensures forall m :: multiset(r)[m] == if m.sessionId == sid then 0 else multiset(messages)[m]
    ensures forall m :: m in r <==> m in messages && m.sessionId != sid
    ensures Distinct(messages, MessageKey) ==> Distinct(r, MessageKey)
  {
    var keep := (m: Message) => m.sessionId != sid;
    if Distinct(messages, MessageKey) then FilterDistinct(messages, keep, MessageKey); Filter(messages, keep)
    else Filter(messages, keep)
  }

  /** The sessions table without the row of `id` (`DELETE FROM sessions WHERE id = ?`). */
  function WithoutSession(sessions: seq<SessionRow>, id: string): (r: seq<SessionRow>)
    ensures forall s :: multiset(r)[s] == if s.id == id then 0 else multiset(sessions)[s]
    ensures forall s :: s in r <==> s in sessions && s.id != id
    ensures Distinct(sessions, SessionKey) ==> Distinct(r, SessionKey)
  {
    var keep := (s: SessionRow) => s.id != id;
    if Distinct(sessions, SessionKey) then FilterDistinct(sessions, keep, SessionKey); Filter(sessions, keep)
    else Filter(sessions, keep)
  }

  /** The sessions table after `UPDATE sessions SET ended_at = t WHERE id = ?`. */
  function EndedIn(sessions: seq<SessionRow>, id: string, t: int): (r: seq<SessionRow>)
    ensures |r| == |sessions|
    ensures forall i :: 0 <= i < |r| ==>
      r[i] == if sessions[i].id == id then sessions[i].(endedAt := Some(t)) else sessions[i]
  {
    seq(|sessions|, i requires 0 <= i < |sessions| =>
      if sessions[i].id == id then sessions[i].(endedAt := Some(t)) else sessions[i])
  }

  /** The selector of one session's messages (`WHERE session_id = ?`). */
  function InSession(sid: string): Message -> bool {
    (m: Message) => m.sessionId == sid
  }

  /** How many of `messages` belong to session `sid` (`COUNT(m.id)`). */
  function CountIn(messages: seq<Message>, sid: string): nat {
    if messages == [] then 0
    else
      CountIn(messages[..|messages| - 1], sid)
        + (if messages[|messages| - 1].sessionId == sid then 1 else 0)
  }

  /** Counting a session's messages is measuring its filtered table. */
  lemma {:induction false} CountInFilter(messages: seq<Message>, sid: string)
    ensures CountIn(messages, sid) == |Filter(messages, InSession(sid))|
  {
    if messages != [] {
      CountInFilter(messages[..|messages| - 1], sid);
    }
  }

  /** A message of session `sid` with the latest timestamp
      (`ORDER BY timestamp DESC LIMIT 1`), or None when the session has no
      message. Among messages with equal timestamps SQL picks any; this one
      picks the last stored. */
  function Latest(messages: seq<Message>, sid: string): (r: Option<Message>)
    ensures r.None? <==> forall m :: m in messages ==> m.sessionId != sid
    ensures r.Some? ==> r.value in messages && r.value.sessionId == sid
    ensures r.Some? ==> forall m :: m in messages && m.sessionId == sid ==> m.timestamp <= r.value.timestamp
  {
    if messages == [] then None
    else
      var init, last := messages[..|messages| - 1], messages[|messages| - 1];
      assert messages == init + [last];
      var prev := Latest(init, sid);
      if last.sessionId == sid && (prev.None? || prev.value.timestamp <= last.timestamp) then Some(last)
      else prev
  }

  /** The row limit `getSessionSummaries` passes to SQLite: its optional
      limit is only bound when truthy, so an absent or zero limit means no
      LIMIT clause at all, which is the same as SQLite's limit -1. */
  function LimitClause(limit: Option<int>): int {
    if limit.None? || limit.value == 0 then -1 else limit.value
  }

  class Repository {
    /** The rows of `sessions`, in insertion order. */
    var sessions: seq<SessionRow>
    /** The rows of `messages`, in insertion order. */
    var messages: seq<Message>
    /** The largest message id ever handed out (AUTOINCREMENT's `sqlite_sequence`). */
    var lastId: nat
    /** Every message id ever handed out, including those of deleted rows. */
    ghost var issued: set<int>

    /** `sessions.id` and `messages.id` are primary keys, and every id handed
        out lies between 1 and `lastId`. */
    ghost predicate Valid()
      reads this
    {
      && Distinct(sessions, SessionKey)
      && Distinct(messages, MessageKey)
      && (forall m :: m in messages ==> m.id in issued)
      && (forall x :: x in issued ==> 1 <= x <= lastId)
    }

    /** Freshly created, empty tables. */
    constructor ()
      ensures Valid()
      ensures sessions == [] && messages == [] && lastId == 0 && issued == {}
    {
      sessions, messages, lastId := [], [], 0;
      issued := {};
    }

    // ---------- Session operations ----------

    /** Inserts a session row; an id already present violates the primary
        key, and then nothing changes. A session inserted last, unended and
        started after every unended session of its project, is that project's
        active session. */
    method CreateSession(row: SessionRow) returns (r: Outcome)
      requires Valid()
      modifies this
      ensures Valid()
      ensures r.Fail? <==> old(GetSession(row.id)).Some?
      ensures r.Fail? ==> r.error == DuplicateSessionId && sessions == old(sessions)
      ensures r.Pass? ==> sessions == old(sessions) + [row] && GetSession(row.id) == Some(row)
      ensures r.Pass? && row.endedAt == None &&
              (forall s :: s in old(sessions) && s.projectPath == row.projectPath && s.endedAt == None
                 ==> s.startedAt < row.startedAt)
              ==> GetActiveSession(row.projectPath) == Some(row)
      ensures messages == old(messages) && lastId == old(lastId) && issued == old(issued)
    {
      if GetSession(row.id).Some? {
        return Fail(DuplicateSessionId);
      }
      ghost var before := sessions;
      sessions := sessions + [row];
      DistinctAppend(before, row, SessionKey);
      AppendedSession(before, row);
      r := Pass;
    }

    /** Appending a row with a fresh id makes the row findable; the row is its project's active session when it is
        unended and newer than every unended session already there. */
    lemma AppendedSession(before: seq<SessionRow>, row: SessionRow)
      requires sessions == before + [row]
      requires forall s :: s in before ==> s.id != row.id
      ensures GetSession(row.id) == Some(row)
      ensures row.endedAt == None &&
              (forall s :: s in before && s.projectPath == row.projectPath && s.endedAt == None
                 ==> s.startedAt < row.startedAt)
              ==> GetActiveSession(row.projectPath) == Some(row)
    {
      var found := GetSession(row.id);
      assert found.value in before || found.value == row;
      var active := GetActiveSession(row.projectPath);
      assert active.Some? ==> active.value in before || active.value == row;
    }

    /** The session with this id (`WHERE id = ?`), or None when there is none. */
    function GetSession(id: string): (r: Option<SessionRow>)
      reads this
      ensures r.None? <==> forall s :: s in sessions ==> s.id != id
      ensures r.Some? ==> r.value in sessions && r.value.id == id
    {
      FindFirst(sessions, (s: SessionRow) => s.id == id)
    }

    /** Exactly the sessions of the project, each as often as stored, newest
        first. */
    function GetSessionsByProjectPath(projectPath: string): (r: seq<SessionRow>)
      reads this
      ensures NewestFirst(r)
      ensures forall s :: multiset(r)[s] == (if s.projectPath == projectPath then multiset(sessions)[s] else 0)
      ensures forall s :: s in r <==> s in sessions && s.projectPath == projectPath
      ensures forall i :: 0 <= i < |r| ==> r[i].projectPath == projectPath
    {
      NewestFirstOf(Filter(sessions, (s: SessionRow) => s.projectPath == projectPath))
    }

    /** The most recently started session of the project that has not ended
        (`WHERE project_path = ? AND ended_at IS NULL ORDER BY started_at DESC
        LIMIT 1`); None exactly when the project has no unended session. */
    function GetActiveSession(projectPath: string): (r: Option<SessionRow>)
      reads this
      ensures r.None? <==>
        forall s :: s in sessions && s.projectPath == projectPath ==> s.endedAt.Some?
      ensures r.Some? ==>
        && r.value in sessions && r.value.projectPath == projectPath && r.value.endedAt == None
        && forall s :: s in sessions && s.projectPath == projectPath && s.endedAt == None
             ==> s.startedAt <= r.value.startedAt
    {
      var open := Filter(sessions, (s: SessionRow) => s.projectPath == projectPath && s.endedAt == None);
      var ordered := NewestFirstOf(open);
      if ordered == [] then
        assert forall s :: s in open ==> s in multiset(ordered);
        None
      else
        assert ordered[0] in multiset(open);
        assert forall s :: s in open ==> s in multiset(ordered);
        Some(ordered[0])
    }

    /** Sets the end time of the session with this id; every other row and
        field stays as it was, and an unknown id changes nothing. */
    method EndSession(id: string, endedAt: int)
      requires Valid()
      modifies this
      ensures Valid()
      ensures sessions == EndedIn(old(sessions), id, endedAt)
      ensures forall s :: s in sessions && s.id == id ==> s.endedAt == Some(endedAt)
      ensures old(GetSession(id)).None? ==> sessions == old(sessions)
      ensures old(GetSession(id)).Some? ==>
        GetSession(id) == Some(old(GetSession(id)).value.(endedAt := Some(endedAt)))
      ensures messages == old(messages) && lastId == old(lastId) && issued == old(issued)
    {
      ghost var before := sessions;
      ghost var found := GetSession(id);
      sessions := EndedIn(sessions, id, endedAt);
      EndedSession(before, id, endedAt);
      if found.Some? {
        assert found.value in before;
      }
    }

    /** Stamping the end time on the rows of `id` keeps the primary key, puts
        the end time on the row that id finds, and leaves the table as it
        was when no row has that id. */
    lemma EndedSession(before: seq<SessionRow>, id: string, t: int)
      requires sessions == EndedIn(before, id, t)
      requires Distinct(before, SessionKey)
      ensures Distinct(sessions, SessionKey)
      ensures forall s :: s in sessions && s.id == id ==> s.endedAt == Some(t)
      ensures (forall s :: s in before ==> s.id != id) ==> sessions == before
      ensures forall s :: s in before && s.id == id ==> GetSession(id) == Some(s.(endedAt := Some(t)))
    {
      assert forall i :: 0 <= i < |sessions| ==> sessions[i].id == before[i].id;
      if forall s :: s in before ==> s.id != id {
        assert forall i :: 0 <= i < |sessions| ==> sessions[i] == before[i];
      }
      forall s | s in before && s.id == id ensures GetSession(id) == Some(s.(endedAt := Some(t))) {
        var now := GetSession(id);
        var i :| 0 <= i < |sessions| && sessions[i] == now.value;
        DistinctKeyDetermines(before, SessionKey, before[i], s);
      }
    }

    /** Deleting one session leaves every other stored session findable. */
    lemma KeptSession(before: seq<SessionRow>, id: string, row: SessionRow)
      requires sessions == WithoutSession(before, id)
      requires row in before && row.id != id
      ensures GetSession(row.id).Some?
    {
      assert row in sessions;
    }

    // ---------- Listings ----------

    /** All messages of the session, oldest first. */
    function GetMessages(sessionId: string): (r: seq<Message>)
      reads this
      ensures forall i, j :: 0 <= i < j < |r| ==> r[i].timestamp <= r[j].timestamp
      ensures forall m :: multiset(r)[m] == (if m.sessionId == sessionId then multiset(messages)[m] else 0)
      ensures forall m :: m in r <==> m in messages && m.sessionId == sessionId
    {
      var sorted := SortBy(Filter(messages, InSession(sessionId)), MessageTime);
      assert SortedBy(sorted, MessageTime);
      sorted
    }

    /** The content of the session's latest message, or the empty string
        when it has no message (`COALESCE(…, '')`). */
    function LastMessage(sessionId: string): (r: string)
      reads this
      ensures (forall m :: m in messages ==> m.sessionId != sessionId) ==> r == ""
      ensures (exists m :: m in messages && m.sessionId == sessionId) ==>
        exists m :: && m in messages && m.sessionId == sessionId && m.content == r
                    && forall n :: n in messages && n.sessionId == sessionId ==> n.timestamp <= m.timestamp
    {
      match Latest(messages, sessionId)
      case None => ""
      case Some(m) => m.content
    }

    /** The summary of one session: its columns, its message count (a LEFT
        JOIN count, so 0 without messages) and its last message. */
    function Summarize(s: SessionRow): (r: SessionSummary)
      reads this
      ensures r.id == s.id && r.startedAt == s.startedAt && r.endedAt == s.endedAt
      ensures r.projectPath == s.projectPath && r.modelUsed == s.modelUsed
    {
      SessionSummary(s.id, s.startedAt, s.endedAt, s.projectPath, s.modelUsed,
                     CountIn(messages, s.id), LastMessage(s.id))
    }

    /** A summary counts exactly the messages `GetMessages` lists and carries
        the content of the latest one. */
    lemma SummaryOfMessages(s: SessionRow)
      ensures Summarize(s).messageCount == |GetMessages(s.id)|
      ensures Summarize(s).lastMessage == LastMessage(s.id)
    {
      var f := Filter(messages, InSession(s.id));
      CountInFilter(messages, s.id);
      assert |GetMessages(s.id)| == |multiset(GetMessages(s.id))| == |multiset(f)| == |f|;
    }

    /** The summaries of `rows`, in the same order. */
    function Summaries(rows: seq<SessionRow>): (r: seq<SessionSummary>)
      reads this
      ensures |r| == |rows|
      ensures forall i :: 0 <= i < |r| ==> r[i] == Summarize(rows[i])
    {
      seq(|rows|, i reads this requires 0 <= i < |rows| => Summarize(rows[i]))
    }

    /** The summaries of the project's sessions, newest first, in the order of
        `GetSessionsByProjectPath`. An absent or zero limit adds no LIMIT
        clause; a positive one caps the count; SQLite reads a negative one as
        no cap. */
    function GetSessionSummaries(projectPath: string, limit: Option<int>): (r: seq<SessionSummary>)
      reads this
      ensures |r| <= |GetSessionsByProjectPath(projectPath)|
      ensures r == Summaries(GetSessionsByProjectPath(projectPath))[..|r|]
      ensures limit.None? || limit.value <= 0 ==> |r| == |GetSessionsByProjectPath(projectPath)|
      ensures limit.Some? && 0 < limit.value < |GetSessionsByProjectPath(projectPath)| ==> |r| == limit.value
      ensures limit.Some? && 0 < limit.value ==> |r| <= limit.value
      ensures forall i :: 0 <= i < |r| ==> r[i].projectPath == projectPath
      ensures SummariesNewestFirst(r)
    {
      var rows := GetSessionsByProjectPath(projectPath);
      LimitedSummaries(rows, LimitClause(limit));
      Limit(Summaries(rows), LimitClause(limit))
    }

    /** The summaries of newest-first rows, cut by SQLite's `LIMIT n`, are
        a newest-first prefix of all summaries, each of the row in its
        position. */
    lemma LimitedSummaries(rows: seq<SessionRow>, n: int)
      requires NewestFirst(rows)
      ensures var r := Limit(Summaries(rows), n);
        && |r| <= |rows| && r == Summaries(rows)[..|r|]
        && (n < 0 ==> |r| == |rows|)
        && (0 <= n ==> |r| == if n < |rows| then n else |rows|)
        && (forall i :: 0 <= i < |r| ==> r[i].projectPath == rows[i].projectPath)
        && SummariesNewestFirst(r)
    {
      var all := Summaries(rows);
      var r := Limit(all, n);
      assert forall i :: 0 <= i < |r| ==> r[i] == all[i] && r[i].startedAt == rows[i].startedAt;
      PrefixNewestFirst(r, rows);
    }

    /** The summaries of all sessions of every project, newest first, capped
        at `limit` (a LIMIT clause is always present, so 0 gives nothing;
        SQLite reads a negative limit as no cap). */
    function GetRecentSessions(limit: int): (r: seq<SessionSummary>)
      reads this
      ensures |r| <= |sessions|
      ensures 0 <= limit ==> |r| == if limit < |sessions| then limit else |sessions|
      ensures limit < 0 ==> |r| == |sessions|
      ensures r == Summaries(NewestFirstOf(sessions))[..|r|]
      ensures SummariesNewestFirst(r)
    {
      var rows := NewestFirstOf(sessions);
      LimitedSummaries(rows, limit);
      Limit(Summaries(rows), limit)
    }

    // ---------- Message operations ----------

    /** Inserts a message under the next AUTOINCREMENT id: one more than any
        id ever handed out, so never the id of a deleted row. The session id
        is not checked: this model does not enforce the reference. Reading the id back
        gives the same columns, absent payloads as NULL. */
    method AddMessage(m: NewMessage) returns (id: int)
      requires Valid()
      modifies this
      ensures Valid()
      ensures forall x :: x in old(issued) ==> x < id
      ensures issued == old(issued) + {id} && id == lastId == old(lastId) + 1
      ensures messages == old(messages) + [Stored(m, id)]
      ensures GetMessage(id) == Some(Stored(m, id))
      ensures sessions == old(sessions)
    {
      id := lastId + 1;
      var row := Stored(m, id);
      ghost var before := messages;
      messages := messages + [row];
      lastId := id;
      issued := issued + {id};
      DistinctAppend(before, row, MessageKey);
      var found := GetMessage(id);
      assert found.value in before || found.value == row;
    }

    /** The message with this id, or None when there is none. */
    function GetMessage(id: int): (r: Option<Message>)
      reads this
      ensures r.None? <==> forall m :: m in messages ==> m.id != id
      ensures r.Some? ==> r.value in messages && r.value.id == id
    {
      FindFirst(messages, (m: Message) => m.id == id)
    }

    /** Removes every message of the session; the other messages stay. */
    method DeleteMessages(sessionId: string)
      requires Valid()
      modifies this
      ensures Valid()
      ensures messages == WithoutMessagesOf(old(messages), sessionId)
      ensures GetMessages(sessionId) == []
      ensures forall m :: m in messages <==> m in old(messages) && m.sessionId != sessionId
      ensures sessions == old(sessions) && lastId == old(lastId) && issued == old(issued)
    {
      messages := WithoutMessagesOf(messages, sessionId);
    }

    /** Removes the session's messages, then the session row; the rows of
        other sessions stay. */
    method DeleteSession(id: string)
      requires Valid()
      modifies this
      ensures Valid()
      ensures messages == WithoutMessagesOf(old(messages), id)
      ensures sessions == WithoutSession(old(sessions), id)
      ensures lastId == old(lastId) && issued == old(issued)
    {
      DeleteMessages(id);
      sessions := WithoutSession(sessions, id);
    }

    /** Once a session and its messages are deleted, `GetSession` finds
        nothing and `GetMessages` lists nothing for its id. */
    lemma DeletedSession(before: seq<SessionRow>, beforeMessages: seq<Message>, id: string)
      requires sessions == WithoutSession(before, id)
      requires messages == WithoutMessagesOf(beforeMessages, id)
      ensures GetSession(id) == None && GetMessages(id) == []
    {
    }
  }
}
