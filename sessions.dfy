/** The session manager: it keeps the current session, derives session ids
    from the local wall-clock time, and layers start, restore, end, save and
    delete on the persistence store. */
module Sessions {
  import opened Wrappers
  import opened Memory
  import opened Persistence

  // ---------- Session ids ----------

  /** The local calendar reading taken when a session starts: `getFullYear`,
      `getMonth` (0 for January), `getDate`, `getHours`, `getMinutes` and
      `getSeconds`. */
  datatype LocalTime = LocalTime(year: int, month: int, day: int, hours: int, minutes: int, seconds: int)

  /** The ranges the calendar getters return (the year is unrestricted). */
  predicate ValidLocalTime(t: LocalTime) {
    && 0 <= t.month <= 11 && 1 <= t.day <= 31
    && 0 <= t.hours <= 23 && 0 <= t.minutes <= 59 && 0 <= t.seconds <= 59
  }

  predicate IsDigit(c: char) {
    '0' <= c <= '9'
  }

  function DigitChar(d: nat): (c: char)
    requires d < 10
    ensures IsDigit(c)
  {
    ('0' as int + d) as char
  }

  function DigitValue(c: char): nat
    requires IsDigit(c)
  {
    c as int - '0' as int
  }

  /** The decimal digits of `n`, most significant first, without leading
      zeros. */
  function Digits(n: nat): (s: string)
    ensures |s| >= 1
    ensures forall i :: 0 <= i < |s| ==> IsDigit(s[i])
  {
    if n < 10 then [DigitChar(n)] else Digits(n / 10) + [DigitChar(n % 10)]
  }

  /** `String(n)` for an integer: a minus sign before the digits of a
      negative number. */
  function Decimal(n: int): string {
    if n < 0 then "-" + Digits(-n) else Digits(n)
  }

  /** `padStart(2, "0")`: zeros in front up to two characters; a longer
      string is returned as it is. */
  function PadStart2(s: string): (r: string)
    ensures |s| >= 2 ==> r == s
    ensures |s| < 2 ==> |r| == 2 && r[2 - |s|..] == s && forall i :: 0 <= i < 2 - |s| ==> r[i] == '0'
  {
    if |s| >= 2 then s else seq(2 - |s|, _ => '0') + s
  }

  /** A calendar field as it appears in the id. */
  function Field(n: int): string {
    PadStart2(Decimal(n))
  }

  /** The part of an id after the year: `MMDD_hhmmss`, the month counted
      from 1. */
  function Tail(t: LocalTime): string {
    Field(t.month + 1) + Field(t.day) + "_" + Field(t.hours) + Field(t.minutes) + Field(t.seconds)
  }

  /** `session_YYYYMMDD_hhmmss`; the year is not padded. */
  function SessionId(t: LocalTime): string {
    "session_" + Decimal(t.year) + Tail(t)
  }

  /** The number written by a non-empty run of decimal digits. */
  function ParseDigits(s: string): Option<nat> {
    if s == [] || !IsDigit(s[|s| - 1]) then None
    else if |s| == 1 then Some(DigitValue(s[0]))
    else
      match ParseDigits(s[..|s| - 1])
      case None => None
      case Some(v) => Some(v * 10 + DigitValue(s[|s| - 1]))
  }

  /** The integer written by `Decimal`. */
  function ParseDecimal(s: string): Option<int> {
    if |s| > 0 && s[0] == '-' then
      match ParseDigits(s[1..])
      case None => None
      case Some(v) => Some(0 - v as int)
    else
      match ParseDigits(s)
      case None => None
      case Some(v) => Some(v)
  }

  /** Reads the calendar reading back out of a session id: the year is
      everything between the prefix and the fixed-width `MMDD_hhmmss` tail. */
  function ParseSessionId(id: string): Option<LocalTime> {
    if |id| < 20 || id[..8] != "session_" || id[|id| - 7] != '_' then None
    else
      var tail := id[|id| - 11..];
      var y, mo, d := ParseDecimal(id[8..|id| - 11]), ParseDigits(tail[0..2]), ParseDigits(tail[2..4]);
      var h, mi, s := ParseDigits(tail[5..7]), ParseDigits(tail[7..9]), ParseDigits(tail[9..11]);
      if y.Some? && mo.Some? && d.Some? && h.Some? && mi.Some? && s.Some? then
        Some(LocalTime(y.value, mo.value - 1, d.value, h.value, mi.value, s.value))
      else None
  }

  /** Parsing the digits of `n` gives `n` back. */
  lemma {:induction false} DigitsRoundTrip(n: nat)
    ensures ParseDigits(Digits(n)) == Some(n)
  {
    if n >= 10 {
      DigitsRoundTrip(n / 10);
      var s := Digits(n);
      assert s[..|s| - 1] == Digits(n / 10);
    }
  }

  /** Parsing the decimal form of `n` gives `n` back. */
  lemma {:induction false} DecimalRoundTrip(n: int)
    ensures ParseDecimal(Decimal(n)) == Some(n)
  {
    var s := Decimal(n);
    if n < 0 {
      DigitsRoundTrip(-n);
      assert s[0] == '-' && s[1..] == Digits(-n);
      assert ParseDigits(s[1..]) == Some(-n);
    } else {
      DigitsRoundTrip(n);
      assert s == Digits(n) && IsDigit(s[0]);
    }
  }

  /** A field between 0 and 99 takes exactly two digits and reads back. */
  lemma FieldRoundTrip(n: int)
    requires 0 <= n <= 99
    ensures |Field(n)| == 2
    ensures ParseDigits(Field(n)) == Some(n)
  {
    DigitsRoundTrip(n);
    if n < 10 {
      assert Field(n) == ['0', DigitChar(n)];
      assert Field(n)[..1] == ['0'];
    } else {
      assert Digits(n / 10) == [DigitChar(n / 10)];
    }
  }

  /** Where the five two-character fields sit in the tail. */
  lemma TailSlices(a: string, b: string, c: string, d: string, e: string)
    requires |a| == 2 && |b| == 2 && |c| == 2 && |d| == 2 && |e| == 2
    ensures var tail := a + b + "_" + c + d + e;
      && |tail| == 11 && tail[0..2] == a && tail[2..4] == b && tail[4] == '_'
      && tail[5..7] == c && tail[7..9] == d && tail[9..11] == e
  {
    var tail := a + b + "_" + c + d + e;
    assert tail == a + (b + "_" + c + d + e);
    assert tail == (a + b + "_") + (c + d + e);
    assert tail == (a + b + "_" + c + d) + e;
  }

  /** Where the year and the tail sit in an id. */
  lemma IdSlices(y: string, tail: string)
    requires |tail| == 11
    ensures var id := "session_" + y + tail;
      && |id| == 19 + |y| && id[..8] == "session_" && id[8..|id| - 11] == y && id[|id| - 11..] == tail
  {
    var id := "session_" + y + tail;
    assert id == "session_" + (y + tail);
    assert id == ("session_" + y) + tail;
  }

  /** The tail of a valid reading is eleven characters long, whatever the
      year. */
  lemma TailShape(t: LocalTime)
    requires ValidLocalTime(t)
    ensures |Tail(t)| == 11
    ensures |SessionId(t)| == 19 + |Decimal(t.year)|
  {
    FieldRoundTrip(t.month + 1);
    FieldRoundTrip(t.day);
    FieldRoundTrip(t.hours);
    FieldRoundTrip(t.minutes);
    FieldRoundTrip(t.seconds);
  }

  /** For years 1000 to 9999 the id is 23 characters long. */
  lemma SessionIdLength(t: LocalTime)
    requires ValidLocalTime(t) && 1000 <= t.year <= 9999
    ensures |SessionId(t)| == 23
  {
    TailShape(t);
    FourDigits(t.year);
  }

  /** A number from 1000 to 9999 has four decimal digits. */
  lemma FourDigits(n: nat)
    requires 1000 <= n <= 9999
    ensures |Digits(n)| == 4
  {
    var a := n / 10;
    var b := a / 10;
    assert 100 <= a <= 999 && 10 <= b <= 99 && 1 <= b / 10 <= 9;
    assert |Digits(b)| == 2;
    assert |Digits(a)| == 3;
  }

  /** Parsing an id assembled from a year and five two-character fields
      gives back the reading they were written from. */
  lemma ParseAssembled(y: string, a: string, b: string, c: string, d: string, e: string,
                       t: LocalTime)
    requires |a| == 2 && |b| == 2 && |c| == 2 && |d| == 2 && |e| == 2
    requires ParseDecimal(y) == Some(t.year) && ParseDigits(a) == Some(t.month + 1)
    requires ParseDigits(b) == Some(t.day) && ParseDigits(c) == Some(t.hours)
    requires ParseDigits(d) == Some(t.minutes) && ParseDigits(e) == Some(t.seconds)
    ensures ParseSessionId("session_" + y + (a + b + "_" + c + d + e)) == Some(t)
  {
    var tail := a + b + "_" + c + d + e;
    TailSlices(a, b, c, d, e);
    IdSlices(y, tail);
    var id := "session_" + y + tail;
    assert id[|id| - 7] == tail[4];
  }

  /** The calendar reading can be read back out of its id. */
  lemma SessionIdRoundTrip(t: LocalTime)
    requires ValidLocalTime(t)
    ensures ParseSessionId(SessionId(t)) == Some(t)
  {
    FieldRoundTrip(t.month + 1);
    FieldRoundTrip(t.day);
    FieldRoundTrip(t.hours);
    FieldRoundTrip(t.minutes);
    FieldRoundTrip(t.seconds);
    DecimalRoundTrip(t.year);
    var y, a, b, c, d, e := Decimal(t.year), Field(t.month + 1), Field(t.day), Field(t.hours), Field(t.minutes), Field(t.seconds);
    assert SessionId(t) == "session_" + y + (a + b + "_" + c + d + e);
    ParseAssembled(y, a, b, c, d, e, t);
  }

  /** Different calendar readings give different ids, so ids collide exactly
      when two sessions start within the same second. */
  lemma SessionIdInjective(t1: LocalTime, t2: LocalTime)
    requires ValidLocalTime(t1) && ValidLocalTime(t2)
    ensures SessionId(t1) == SessionId(t2) <==> t1 == t2
  {
    SessionIdRoundTrip(t1);
    SessionIdRoundTrip(t2);
  }

  // ---------- The manager ----------

  /** The session manager: a store and the current session, if any. */
  class Manager {
    /** The store the manager opened. */
    const repo: Repository
    /** The session messages are saved to, shared with whoever started or
        restored it. */
    var current: Session?
    /** False once the database connection is closed. */
    var open: bool

    /** The store is consistent and the current session is stored in it. */
    ghost predicate Valid()
      reads this, repo
    {
      repo.Valid() && (current != null ==> repo.GetSession(current.id).Some?)
    }

    /** A manager over an opened store, with no current session. */
    constructor (repo: Repository)
      requires repo.Valid()
      ensures Valid()
      ensures this.repo == repo && current == null && open
    {
      this.repo := repo;
      current := null;
      open := true;
    }

    /** Closes the connection. The current session is not ended: its row
        stays unended, so it is still the project's active session at the
        next start. */
    method Close()
      requires Valid()
      modifies this
      ensures Valid()
      ensures !open && current == old(current)
    {
      open := false;
    }

    /** Starts a session whose id is derived from the local reading `local`
        and whose start time is the clock reading `now`, stores it and makes
        it current. A second start within the same second repeats the id,
        which the store rejects; then nothing changes. */
    method StartSession(projectPath: string, modelUsed: string, local: LocalTime, now: int)
      returns (r: Result<Session>)
      requires Valid()
      modifies this, repo
      ensures Valid() && open == old(open)
      ensures r.Err? <==> old(repo.GetSession(SessionId(local))).Some?
      ensures r.Err? ==> r.error == DuplicateSessionId && current == old(current)
      ensures r.Err? ==> repo.sessions == old(repo.sessions)
      ensures r.Ok? ==> && fresh(r.value) && current == r.value
                        && r.value.id == SessionId(local) && r.value.startedAt == now
                        && r.value.endedAt == None && r.value.projectPath == projectPath
                        && r.value.modelUsed == modelUsed
                        && repo.sessions == old(repo.sessions) + [r.value.Row()]
      ensures r.Ok? &&
              (forall s :: s in old(repo.sessions) && s.projectPath == projectPath && s.endedAt == None
                 ==> s.startedAt < now)
              ==> repo.GetActiveSession(projectPath) == Some(r.value.Row())
      ensures repo.messages == old(repo.messages)
      ensures repo.lastId == old(repo.lastId) && repo.issued == old(repo.issued)
    {
      var session := new Session(SessionId(local), now, projectPath, modelUsed);
      var outcome := repo.CreateSession(session.Row());
      if outcome.Fail? {
        return Err(outcome.error);
      }
      current := session;
      r := Ok(session);
    }

    /** Makes the stored session with this id current, as a fresh object
        built from its row, even when that session has ended; an unknown id
        is an error and leaves the current session as it was. */
    method RestoreSession(id: string) returns (r: Result<Session>)
      requires Valid()
      modifies this
      ensures Valid()
      ensures r.Err? <==> repo.GetSession(id).None?
      ensures r.Err? ==> r.error == "Session not found: " + id && current == old(current)
      ensures r.Ok? ==> && fresh(r.value) && current == r.value
                        && Some(r.value.Row()) == repo.GetSession(id) && r.value.id == id
      ensures open == old(open)
    {
      var found := repo.GetSession(id);
      if found.None? {
        return Err("Session not found: " + id);
      }
      var row := found.value;
      var session := new Session(row.id, row.startedAt, row.projectPath, row.modelUsed, row.endedAt);
      current := session;
      r := Ok(session);
    }

    /** Ends the current session at the clock reading `now`: the store row
        and the very object the caller holds both get the end time, and no
        session is current afterwards. Without a current session nothing
        happens. */
    method EndSession(now: int)
      requires Valid()
      modifies this, repo, current
      ensures Valid()
      ensures old(current) == null ==> current == null && repo.sessions == old(repo.sessions)
      ensures old(current) != null ==>
        && current == null
        && old(current).endedAt == Some(now) && !old(current).IsActive()
        && repo.sessions == EndedIn(old(repo.sessions), old(current).id, now)
        && repo.GetSession(old(current).id) == Some(old(repo.GetSession(current.id)).value.(endedAt := Some(now)))
      ensures repo.messages == old(repo.messages)
      ensures repo.lastId == old(repo.lastId) && repo.issued == old(repo.issued)
      ensures open == old(open)
    {
      if current == null {
        return;
      }
      repo.EndSession(current.id, now);
      current.endedAt := Some(now);
      current := null;
    }

    /** The current session, if any. */
    method GetCurrentSession() returns (s: Session?)
      ensures s == current
    {
      s := current;
    }

    /** Appends a message to the current session's conversation, stamped
        with the clock reading `now`, and returns its id; without a current
        session nothing is saved and the result is None. */
    method SaveMessage(role: Role, content: string, toolCalls: Option<string>, toolResults: Option<string>,
                       now: int)
      returns (r: Option<int>)
      requires Valid()
      modifies repo
      ensures Valid()
      ensures r.None? <==> current == null
      ensures r.None? ==>
        && repo.messages == old(repo.messages)
        && repo.lastId == old(repo.lastId) && repo.issued == old(repo.issued)
      ensures r.Some? ==>
        && repo.messages == old(repo.messages)
             + [Stored(NewMessage(current.id, now, role, content, toolCalls, toolResults), r.value)]
        && (forall x :: x in old(repo.issued) ==> x < r.value)
        && repo.issued == old(repo.issued) + {r.value} && repo.lastId == r.value
        && repo.GetSession(current.id).Some?
      ensures repo.sessions == old(repo.sessions)
    {
      if current == null {
        return None;
      }
      var id := repo.AddMessage(NewMessage(current.id, now, role, content, toolCalls, toolResults));
      r := Some(id);
    }

    /** The project's active session as a fresh object, or null when the
        project has none. */
    method GetActiveSession(projectPath: string) returns (s: Session?)
      ensures s == null <==> repo.GetActiveSession(projectPath).None?
      ensures s != null ==> fresh(s) && Some(s.Row()) == repo.GetActiveSession(projectPath) && s.IsActive()
    {
      var found := repo.GetActiveSession(projectPath);
      if found.None? {
        return null;
      }
      var row := found.value;
      s := new Session(row.id, row.startedAt, row.projectPath, row.modelUsed, row.endedAt);
    }

    /** The summaries of a project's sessions, newest first. */
    function GetSessionsByProject(projectPath: string, limit: Option<int>): (r: seq<SessionSummary>)
      reads repo
      ensures r == repo.GetSessionSummaries(projectPath, limit)
      ensures forall i :: 0 <= i < |r| ==> r[i].projectPath == projectPath
    {
      repo.GetSessionSummaries(projectPath, limit)
    }

    /** The summaries of the sessions of the working directory `cwd`. */
    function GetCurrentProjectSessions(cwd: string, limit: Option<int>): (r: seq<SessionSummary>)
      reads repo
      ensures r == GetSessionsByProject(cwd, limit)
      ensures forall i :: 0 <= i < |r| ==> r[i].projectPath == cwd
    {
      GetSessionsByProject(cwd, limit)
    }

    /** All messages of a session, oldest first. */
    function GetSessionMessages(id: string): (r: seq<Message>)
      reads repo
      ensures r == repo.GetMessages(id)
      ensures forall m :: m in r <==> m in repo.messages && m.sessionId == id
    {
      repo.GetMessages(id)
    }

    /** The summaries of the most recent sessions of every project. */
    function GetRecentSessions(limit: int): (r: seq<SessionSummary>)
      reads repo
      ensures r == repo.GetRecentSessions(limit)
      ensures SummariesNewestFirst(r)
    {
      repo.GetRecentSessions(limit)
    }

    /** Deletes a session and its messages; the current session is cleared
        exactly when it is the deleted one. */
    method DeleteSession(id: string)
      requires Valid()
      modifies this, repo
      ensures Valid()
      ensures current == if old(current) != null && old(current).id == id then null else old(current)
      ensures repo.sessions == WithoutSession(old(repo.sessions), id)
      ensures repo.messages == WithoutMessagesOf(old(repo.messages), id)
      ensures repo.lastId == old(repo.lastId) && repo.issued == old(repo.issued)
      ensures open == old(open)
    {
      if current != null && current.id == id {
        current := null;
      }
      ghost var before := repo.sessions;
      ghost var kept := if current != null then repo.GetSession(current.id) else None;
      repo.DeleteSession(id);
      if current != null {
        repo.KeptSession(before, id, kept.value);
      }
    }
  }
}
