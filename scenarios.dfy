/** Sequences of calls a client of the memory layer and of the tools makes,
    with what each sequence is guaranteed to produce. They follow the
    walk-through in src/memory/test.ts. */
module Scenarios {
  import opened Wrappers
  import opened Memory
  import opened Persistence
  import opened Sessions

  /** Two starts within the same second derive the same id, so the second
      is refused by the store's primary key. */
  method SameSecondStart(local: LocalTime, now: int) returns (first: Result<Session>, second: Result<Session>)
    ensures first.Ok? && second.Err? && second.error == DuplicateSessionId
  {
    var repo := new Repository();
    var manager := new Manager(repo);
    first := manager.StartSession("/test/project", "gpt-4", local, now);
    second := manager.StartSession("/test/project", "gpt-4", local, now + 500);
  }

  /** Ending the current session is seen through the object the caller got
      from the start: it turns inactive and its duration freezes. */
  method EndSeenByHolder(local: LocalTime, now: int, later: int, clock: int)
    returns (activeBefore: bool, activeAfter: bool, duration: int)
    ensures activeBefore && !activeAfter && duration == later - now
  {
    var repo := new Repository();
    var manager := new Manager(repo);
    var started := manager.StartSession("/test/project", "gpt-4", local, now);
    var session := started.value;
    activeBefore := session.IsActive();
    manager.EndSession(later);
    activeAfter := session.IsActive();
    duration := session.Duration(clock);
  }

  /** Without a current session a message is silently not saved. */
  method SaveWithoutSession(now: int) returns (r: Option<int>, stored: int)
    ensures r == None && stored == 0
  {
    var repo := new Repository();
    var manager := new Manager(repo);
    r := manager.SaveMessage(User, "hello", None, None, now);
    stored := |repo.messages|;
  }

  /** An ended session can be restored; it becomes current, still ended. */
  method RestoreEnded(local: LocalTime, now: int, later: int)
    returns (restored: Result<Session>, currentEnded: bool)
    ensures restored.Ok? && restored.value.id == SessionId(local) && currentEnded
  {
    var manager, open := Started(local, now);
    manager.EndSession(later);
    assert manager.repo.GetSession(SessionId(local)) == Some(open.(endedAt := Some(later)));
    restored := manager.RestoreSession(SessionId(local));
    var current := manager.GetCurrentSession();
    currentEnded := current != null && !current.IsActive();
  }

  /** Deleting the current session clears it and removes its row. */
  method DeleteCurrent(local: LocalTime, now: int) returns (cleared: bool, row: Option<SessionRow>)
    ensures cleared && row == None
  {
    var repo := new Repository();
    var manager := new Manager(repo);
    var started := manager.StartSession("/test/project", "gpt-4", local, now);
    manager.DeleteSession(SessionId(local));
    var current := manager.GetCurrentSession();
    cleared := current == null;
    row := repo.GetSession(SessionId(local));
  }

  /** A fresh store and manager whose one session was started and ended. */
  method Ended(local: LocalTime, now: int) returns (manager: Manager, row: SessionRow)
    ensures fresh(manager) && fresh(manager.repo) && manager.Valid() && manager.current == null
    ensures manager.repo.sessions == [row]
    ensures row == SessionRow(SessionId(local), now, Some(now + 1), "/test/project", "gpt-4")
  {
    var open;
    manager, open := Started(local, now);
    manager.EndSession(now + 1);
    row := open.(endedAt := Some(now + 1));
  }

  /** A second session started in the same project after the first ended. */
  method SecondStarted(first: LocalTime, second: LocalTime, now: int)
    returns (manager: Manager, row: SessionRow, open: SessionRow)
    requires ValidLocalTime(first) && ValidLocalTime(second) && first != second
    ensures fresh(manager) && fresh(manager.repo) && manager.Valid()
    ensures manager.current != null && fresh(manager.current) && manager.current.Row() == open
    ensures manager.repo.sessions == [row, open]
    ensures row == SessionRow(SessionId(first), now, Some(now + 1), "/test/project", "gpt-4")
    ensures open == SessionRow(SessionId(second), now + 2, None, "/test/project", "gpt-3.5-turbo")
  {
    manager, row := Ended(first, now);
    SessionIdInjective(first, second);
    assert manager.repo.GetSession(SessionId(second)) == None;
    var started := manager.StartSession("/test/project", "gpt-3.5-turbo", second, now + 2);
    open := started.value.Row();
  }

  /** Two sessions started and ended one after the other in the same
      project. */
  method TwoEnded(first: LocalTime, second: LocalTime, now: int)
    returns (manager: Manager, row: SessionRow, other: SessionRow)
    requires ValidLocalTime(first) && ValidLocalTime(second) && first != second
    ensures fresh(manager) && fresh(manager.repo) && manager.Valid() && manager.current == null
    ensures manager.repo.sessions == [row, other]
    ensures row == SessionRow(SessionId(first), now, Some(now + 1), "/test/project", "gpt-4")
    ensures other == SessionRow(SessionId(second), now + 2, Some(now + 3), "/test/project", "gpt-3.5-turbo")
  {
    var open;
    manager, row, open := SecondStarted(first, second, now);
    SessionIdInjective(first, second);
    manager.EndSession(now + 3);
    EndSecond(row, open, now + 3);
    other := open.(endedAt := Some(now + 3));
  }

  /** Of two ended sessions, the first is restored: it is current, and
      both rows are still stored. */
  method RestoredFirst(first: LocalTime, second: LocalTime, now: int)
    returns (manager: Manager, row: SessionRow, other: SessionRow)
    requires ValidLocalTime(first) && ValidLocalTime(second) && first != second
    ensures fresh(manager) && fresh(manager.repo) && manager.Valid()
    ensures manager.current != null && manager.current.id == SessionId(first)
    ensures manager.repo.sessions == [row, other]
    ensures row.id == SessionId(first) && row.projectPath == "/test/project"
    ensures other.id == SessionId(second) && other.id != row.id
  {
    manager, row, other := TwoEnded(first, second, now);
    SessionIdInjective(first, second);
    var restored := manager.RestoreSession(SessionId(first));
  }

  /** Then the second is deleted, as the walk-through does: the restored
      session stays current and only its row is left. */
  method OtherDeleted(first: LocalTime, second: LocalTime, now: int)
    returns (manager: Manager, row: SessionRow)
    requires ValidLocalTime(first) && ValidLocalTime(second) && first != second
    ensures manager.Valid()
    ensures manager.current != null && manager.current.id == SessionId(first)
    ensures manager.repo.sessions == [row]
    ensures row.id == SessionId(first) && row.projectPath == "/test/project"
  {
    var other;
    manager, row, other := RestoredFirst(first, second, now);
    manager.DeleteSession(SessionId(second));
    DeleteSecond(row, other, SessionId(second));
  }

  /** After that deletion, the second session is not found, and the project
      listing holds the first session only. */
  method DeleteOther(first: LocalTime, second: LocalTime, now: int)
    returns (kept: bool, gone: Option<SessionRow>, remaining: seq<SessionSummary>)
    requires ValidLocalTime(first) && ValidLocalTime(second) && first != second
    ensures kept && gone == None
    ensures |remaining| == 1 && remaining[0].id == SessionId(first)
  {
    var manager, row := OtherDeleted(first, second, now);
    SessionIdInjective(first, second);
    var current := manager.GetCurrentSession();
    kept := current != null && current.id == SessionId(first);
    gone := manager.repo.GetSession(SessionId(second));
    var rows := manager.repo.GetSessionsByProjectPath("/test/project");
    assert rows == [row] by {
      assert multiset(rows) == multiset{row};
    }
    remaining := manager.GetSessionsByProject("/test/project", None);
  }

  /** Ending the second of two sessions leaves the first as it was. */
  lemma EndSecond(row: SessionRow, open: SessionRow, t: int)
    requires row.id != open.id
    ensures EndedIn([row, open], open.id, t) == [row, open.(endedAt := Some(t))]
  {
  }

  /** Deleting the second of two rows by its id keeps the first. */
  lemma DeleteSecond(row: SessionRow, other: SessionRow, id: string)
    requires row.id != id && other.id == id
    ensures WithoutSession([row, other], id) == [row]
  {
    var r := WithoutSession([row, other], id);
    assert multiset(r) == multiset{row};
  }

  /** A message saved in a session that is then deleted: the session and
      its message are gone, but the store still remembers the id. */
  method SavedThenDeleted(local: LocalTime, now: int) returns (manager: Manager, first: int)
    ensures fresh(manager) && fresh(manager.repo) && manager.Valid() && manager.current == null
    ensures manager.repo.sessions == [] && manager.repo.messages == []
    ensures first in manager.repo.issued
  {
    var open;
    manager, open := Started(local, now);
    var saved := manager.SaveMessage(User, "first", None, None, now + 1);
    first := saved.value;
    manager.DeleteSession(open.id);
  }

  /** AUTOINCREMENT through the manager: after the delete, a session started
      again under the same id saves its message under a new, larger id. */
  method IdsNotReused(local: LocalTime, now: int) returns (first: int, second: int)
    ensures first < second
  {
    var manager;
    manager, first := SavedThenDeleted(local, now);
    var started := manager.StartSession("/test/project", "gpt-4", local, now + 2);
    var saved := manager.SaveMessage(User, "again", None, None, now + 3);
    second := saved.value;
  }

  /** A fresh store and manager whose current session was just started. */
  method Started(local: LocalTime, now: int) returns (manager: Manager, open: SessionRow)
    ensures fresh(manager) && fresh(manager.repo) && manager.current != null && fresh(manager.current)
    ensures manager.Valid() && manager.current.Row() == open
    ensures open == SessionRow(SessionId(local), now, None, "/test/project", "gpt-4")
    ensures manager.repo.sessions == [open] && manager.repo.messages == []
  {
    var repo := new Repository();
    manager := new Manager(repo);
    var started := manager.StartSession("/test/project", "gpt-4", local, now);
    open := SessionRow(SessionId(local), now, None, "/test/project", "gpt-4");
  }

  /** Saving a message in the current session appends it to the messages. */
  method Sent(manager: Manager, role: Role, content: string, at: int) returns (m: Message)
    requires manager.Valid() && manager.current != null
    modifies manager.repo
    ensures manager.Valid()
    ensures m.sessionId == manager.current.id && m.timestamp == at && m.content == content
    ensures manager.repo.messages == old(manager.repo.messages) + [m]
    ensures manager.repo.sessions == old(manager.repo.sessions)
  {
    var saved := manager.SaveMessage(role, content, None, None, at);
    m := Stored(NewMessage(manager.current.id, at, role, content, None, None), saved.value);
  }

  /** A fresh store in which one session was started and sent the
      messages "first" and "second"; it is still current. */
  method Chatted(local: LocalTime, now: int)
    returns (manager: Manager, open: SessionRow, m1: Message, m2: Message)
    ensures fresh(manager) && fresh(manager.repo) && manager.current != null && fresh(manager.current)
    ensures manager.Valid() && manager.current.Row() == open
    ensures open == SessionRow(SessionId(local), now, None, "/test/project", "gpt-4")
    ensures manager.repo.sessions == [open] && manager.repo.messages == [m1, m2]
    ensures m1.sessionId == open.id && m2.sessionId == open.id && m1.timestamp < m2.timestamp
    ensures m2.content == "second"
  {
    manager, open := Started(local, now);
    m1 := Sent(manager, User, "first", now + 1);
    m2 := Sent(manager, Assistant, "second", now + 2);
  }

  /** A fresh store in which one session was started, sent the messages
      "first" and "second", and ended. */
  method Conversation(local: LocalTime, now: int)
    returns (manager: Manager, row: SessionRow, m1: Message, m2: Message)
    ensures manager.Valid() && manager.repo.sessions == [row] && manager.repo.messages == [m1, m2]
    ensures row == SessionRow(SessionId(local), now, Some(now + 3), "/test/project", "gpt-4")
    ensures m1.sessionId == row.id && m2.sessionId == row.id && m1.timestamp < m2.timestamp
    ensures m2.content == "second"
  {
    var open;
    manager, open, m1, m2 := Chatted(local, now);
    manager.EndSession(now + 3);
    row := open.(endedAt := Some(now + 3));
  }

  /** One session with two messages, ended: its summary counts both and
      shows the later one. */
  method SummaryAfterConversation(local: LocalTime, now: int) returns (summaries: seq<SessionSummary>)
    ensures |summaries| == 1
    ensures summaries[0].id == SessionId(local) && summaries[0].endedAt == Some(now + 3)
    ensures summaries[0].messageCount == 2 && summaries[0].lastMessage == "second"
  {
    var manager, row, m1, m2 := Conversation(local, now);
    var rows := manager.repo.GetSessionsByProjectPath("/test/project");
    assert rows == [row] by {
      assert multiset(rows) == multiset{row};
    }
    ConversationSummary(manager.repo, row, m1, m2);
    summaries := manager.GetSessionsByProject("/test/project", None);
  }

  /** The summary of a session with two messages at different times. */
  lemma ConversationSummary(repo: Repository, row: SessionRow, m1: Message, m2: Message)
    requires repo.messages == [m1, m2]
    requires m1.sessionId == row.id && m2.sessionId == row.id && m1.timestamp < m2.timestamp
    ensures repo.Summarize(row).messageCount == 2
    ensures repo.Summarize(row).lastMessage == m2.content
  {
    var ms := [m1, m2];
    assert ms[..1] == [m1] && [m1][..0] == [];
    assert CountIn([m1], row.id) == 1;
    assert Latest([m1], row.id) == Some(m1);
  }
}
