# ts-coding-agent: conversation memory and confirmation-gated file tools

A Dafny model of the core of `ts-coding-agent`, a terminal coding agent. The model covers three parts.

- **Conversation memory.** A persistence store holds two tables: `sessions` and `messages`. Message ids come from an `AUTOINCREMENT` counter. A session manager keeps the *current session* and derives session ids from the local wall-clock time. It layers start, restore, end, save, listing and cascade delete on the store.
- **The confirmation answer.** The rule that decides whether the user's reply to a prompt is a "yes".
- **The file tools.** `writeFile`, `editFile` and `copyFile` each follow a fixed sequence: existence checks, then a prompt, then the effect. `searchInDirectory` filters a directory listing by a name keyword.

Layout, one module per source file:

| file | module | models |
|---|---|---|
| `wrappers.dfy` | `Wrappers` | `Option`, `Result` (`Ok`/`Err`) and `Outcome` (`Pass`/`Fail`) |
| `tables.dfy` | `Tables` | the SQL building blocks `WHERE`, `ORDER BY`, `LIMIT` and primary-key lookup over a sequence of rows |
| `memory.dfy` | `Memory` | `src/memory/memory.ts`: the `Session` class and the row and summary records |
| `repository.dfy` | `Persistence` | `src/memory/repository.ts`: class `Repository`; the tables are `seq` fields changed in place, and the queries are functions over them |
| `sessions.dfy` | `Sessions` | `src/memory/manager.ts`: the session-id format and its parser, and class `Manager` |
| `ask.dfy` | `Ask` | the acceptance expression of `src/interaction/ask.ts` |
| `files.dfy` | `Files` | the Node.js `fs` calls the tools make, over an abstract file system: a specification function per call, plus class `FileSystem` that changes in place |
| `writefile.dfy`, `editfile.dfy`, `copyfile.dfy` | `WriteFile`, `EditFile`, `CopyFile` | each tool's `execute` |
| `search.dfy` | `SearchInDirectory` | `src/tools/searchInDirectory.ts` |
| `scenarios.dfy`, `toolscenarios.dfy` | `Scenarios`, `ToolScenarios` | the call sequences of `src/memory/test.ts`, and tool sequences on one file system |

Modelling choices:
- Timestamps are integer milliseconds, and the ISO-8601 text round-trip is the identity.
- The clock (`Date.now()`, `new Date()`) and the local calendar reading are parameters.
- The working directory `process.cwd()` is a parameter.
- The user's typed answer is a parameter, and so is the directory listing `readdir` returns.
- A tool path is a sequence of segments relative to the working directory. `path.dirname` drops the last segment.
- Failures that the source throws and catches become `Err` results, with the source's message text.

Each tool has a pure specification function `Respond`. It gives the result, whether the prompt was shown, and the file system afterwards. The tool's `Execute` method runs the same steps imperatively against a `FileSystem` object. Its postcondition says it does exactly what `Respond` says for the answer `Ask.Accepts(answer)`. The tool's properties are lemmas about `Respond`.

The repository follows the same pattern. Each mutation is a method stating the whole new state. Each query is a function whose contract says which rows it returns and in what order. `ORDER BY` promises only what SQL promises: the keys are ordered and the rows are a permutation. How ties are ordered is not promised.

## Model

| member | source | states |
|---|---|---|
| Tables.Filter | src/memory/repository.ts:261-267 | the `WHERE` rows: each row satisfying the predicate, exactly as often as in the table, and no other row |
| Tables.SortBy | src/memory/repository.ts:261-267 | `ORDER BY`: the keys ascend and the result is a permutation of the input (multiset equality) |
| Tables.Insert | src/memory/repository.ts:261-267 | inserting into a sorted sequence keeps it sorted and adds exactly that row to the multiset |
| Tables.Limit | src/memory/repository.ts:166 | SQLite `LIMIT n`: a prefix of `n` rows, or all rows when there are fewer, and the whole input for a negative `n` |
| Tables.FindFirst | src/memory/repository.ts:40-57 | a keyed lookup: None exactly when no row matches, otherwise a matching row of the table |
| Tables.ConsSorted | src/memory/repository.ts:261-267 | a row no greater than every row of a sorted sequence can lead it |
| Tables.DistinctKeyDetermines | src/memory/repository.ts:40-57 | under a primary key, two rows with equal keys are the same row |
| Tables.DistinctAppend | src/memory/repository.ts:22-35 | appending a row with a fresh key keeps the primary key valid |
| Tables.FilterDistinct | src/memory/repository.ts:328-351 | deleting rows keeps the primary key valid |
| Memory.Session.constructor | src/memory/memory.ts:13-25 | stores every argument unchanged; a session made without an end time is active |
| Memory.DurationByState | src/memory/memory.ts:37-42 | an ended session's duration is end minus start, whatever the clock; an active one's is now minus start |
| Memory.DurationNonNegative | src/memory/memory.ts:37-42 | the duration is non-negative when the end time, or the clock for an active session, is not before the start |
| Persistence.NewestFirstOf | src/memory/repository.ts:76 | `ORDER BY started_at DESC`: newest first, and a permutation of the rows |
| Persistence.PrefixNewestFirst | src/memory/repository.ts:165-166 | a limited prefix of a newest-first listing is still newest first |
| Persistence.WithoutMessagesOf | src/memory/repository.ts:328-335 | `DELETE FROM messages WHERE session_id = ?`: removes every row of that session, keeps every other row with its multiplicity, and keeps the primary key |
| Persistence.WithoutSession | src/memory/repository.ts:345-350 | `DELETE FROM sessions WHERE id = ?`: removes the row with that id, keeps every other row, and keeps the primary key |
| Persistence.EndedIn | src/memory/repository.ts:135-143 | `UPDATE … SET ended_at`: same length; the rows with that id get the end time and every other row is unchanged |
| Persistence.CountInFilter | src/memory/repository.ts:156 | `COUNT(m.id)` of a session equals the length of its filtered message table |
| Persistence.Latest | src/memory/repository.ts:158 | the message with the greatest timestamp among the session's messages; None exactly when the session has none |
| Persistence.Repository.constructor | src/memory/repository.ts:13-15 | empty tables, a zero sequence counter, and a valid store |
| Persistence.Repository.CreateSession | src/memory/repository.ts:22-35 | appends the row; a duplicate id fails with the primary-key error and changes nothing; the row is then found by `GetSession`, and it is the project's active session when unended and newer than the project's other unended sessions; messages and counter unchanged |
| Persistence.Repository.AppendedSession | src/memory/repository.ts:22-66 | after an insert with a fresh id, `GetSession` returns the row, and the active-session lookup returns it under the condition above |
| Persistence.Repository.GetSession | src/memory/repository.ts:40-66 | None exactly when no row has the id, otherwise the stored row with that id |
| Persistence.Repository.GetSessionsByProjectPath | src/memory/repository.ts:71-97 | exactly the project's sessions, each as often as stored, ordered newest first |
| Persistence.Repository.GetActiveSession | src/memory/repository.ts:102-130 | None exactly when every session of the project has ended; otherwise an unended session of the project started no earlier than any other unended one |
| Persistence.Repository.EndSession | src/memory/repository.ts:135-143 | the row with the id gets the end time and nothing else changes; an unknown id changes nothing; `GetSession` then returns the old row with the new end time |
| Persistence.Repository.EndedSession | src/memory/repository.ts:135-143 | stamping the end time keeps the primary key, and an unknown id leaves the table as it was |
| Persistence.Repository.GetMessages | src/memory/repository.ts:261-288 | exactly the session's messages, each as often as stored, in non-decreasing timestamp order |
| Persistence.Repository.LastMessage | src/memory/repository.ts:157-160 | `''` when the session has no message; otherwise the content of a message of the session with the latest timestamp |
| Persistence.Repository.Summarize | src/memory/repository.ts:150-160 | a summary carries the session's own columns |
| Persistence.Repository.SummaryOfMessages | src/memory/repository.ts:156-162 | the summary's count is the number of messages `GetMessages` lists, 0 without messages, and its last message is `LastMessage` |
| Persistence.Repository.Summaries | src/memory/repository.ts:180-188 | one summary per row, in the same order |
| Persistence.Repository.GetSessionSummaries | src/memory/repository.ts:148-189 | the summaries of the project's sessions, newest first, as a prefix of the full listing; an absent, zero or negative limit gives all of them; a positive one caps the count |
| Persistence.Repository.LimitedSummaries | src/memory/repository.ts:165-166 | the summaries of newest-first rows under `LIMIT n` are a newest-first prefix of all of them, of length `n` or all, each one the summary of the row in its position |
| Persistence.Repository.GetRecentSessions | src/memory/repository.ts:194-233 | the summaries of all sessions, newest first, always capped: exactly `min(limit, count)` for `limit >= 0`, so 0 gives nothing; all of them for a negative limit |
| Persistence.Repository.AddMessage | src/memory/repository.ts:240-256 | the new id is one more than the counter and greater than every id ever issued, deleted rows included; the row is appended; `GetMessage` of the id returns the stored columns with absent payloads as None; sessions unchanged |
| Persistence.Repository.GetMessage | src/memory/repository.ts:293-323 | None exactly when no message has the id, otherwise the stored message with that id |
| Persistence.Repository.DeleteMessages | src/memory/repository.ts:328-335 | removes exactly the session's messages; `GetMessages` of it is then empty; sessions and counter unchanged |
| Persistence.Repository.DeleteSession | src/memory/repository.ts:340-351 | removes the session's messages and its row and nothing else; the counter keeps its value, so ids are never reused |
| Persistence.Repository.DeletedSession | src/memory/repository.ts:340-351 | after the delete, `GetSession` of the id is None and `GetMessages` of it is empty |
| Persistence.Repository.KeptSession | src/memory/repository.ts:345-350 | every other stored session is still found after the delete |
| Sessions.DigitsRoundTrip | src/memory/manager.ts:46-52 | parsing the decimal digits of `n` gives `n` |
| Sessions.DecimalRoundTrip | src/memory/manager.ts:46 | parsing `String(n)` gives `n`, negative numbers included |
| Sessions.PadStart2 | src/memory/manager.ts:46-52 | `padStart(2, "0")`: a string of two or more characters is unchanged, and a shorter one is zero-filled to two |
| Sessions.FieldRoundTrip | src/memory/manager.ts:46-52 | a field from 0 to 99 is written as exactly two digits and reads back |
| Sessions.TailShape | src/memory/manager.ts:46-52 | the `MMDD_hhmmss` part is 11 characters for every valid reading, whatever the year |
| Sessions.FourDigits | src/memory/manager.ts:46 | a year from 1000 to 9999 is written with four digits |
| Sessions.SessionIdLength | src/memory/manager.ts:46-52 | for years 1000 to 9999 the id is 23 characters long |
| Sessions.SessionIdRoundTrip | src/memory/manager.ts:46-52 | the calendar reading is recovered from its id, with months counted from 1 in the id |
| Sessions.SessionIdInjective | src/memory/manager.ts:45-56 | two readings give equal ids exactly when they are equal, so ids collide exactly within one second |
| Sessions.Manager.constructor | src/memory/manager.ts:17-30 | a manager over an opened store, with no current session |
| Sessions.Manager.Close | src/memory/manager.ts:36-38 | closes the connection; the current session is kept and not ended |
| Sessions.Manager.StartSession | src/memory/manager.ts:43-60 | stores an unended row with the derived id and the start time, and makes a fresh `Session` current; a repeated id fails with the primary-key error, leaving the current session and the table as they were; the new row is the project's active session when no unended session of the project is newer; messages, the message counter and the open flag are unchanged |
| Sessions.Manager.RestoreSession | src/memory/manager.ts:65-74 | an unknown id is the error `Session not found: <id>` and leaves the current session unchanged; a known id makes a fresh session built from the stored row current, ended or not |
| Sessions.Manager.EndSession | src/memory/manager.ts:79-90 | without a current session nothing changes; otherwise the row gets the end time, the very object the caller holds gets it too and turns inactive, and no session is current; messages and the message counter are unchanged |
| Sessions.Manager.GetCurrentSession | src/memory/manager.ts:95-97 | returns the current session object |
| Sessions.Manager.SaveMessage | src/memory/manager.ts:102-122 | without a current session: None, no row, and the message counter unchanged; otherwise exactly one row is appended with the current session's id, and the returned id is the new counter, greater than every id issued before and added to the issued ids |
| Sessions.Manager.GetActiveSession | src/memory/manager.ts:127-129 | a fresh active session equal to the store's active row, or null when the project has none; nothing changes |
| Sessions.Manager.GetSessionsByProject | src/memory/manager.ts:134-136 | the store's summaries for the project, all of that project |
| Sessions.Manager.GetCurrentProjectSessions | src/memory/manager.ts:141-144 | the summaries of the working directory's project |
| Sessions.Manager.GetSessionMessages | src/memory/manager.ts:149-151 | exactly the stored messages of the session |
| Sessions.Manager.GetRecentSessions | src/memory/manager.ts:156-158 | the store's recent summaries, newest first |
| Sessions.Manager.DeleteSession | src/memory/manager.ts:163-170 | the current session is cleared exactly when its id is the deleted one and is kept otherwise; the store loses that session's row and messages, and the message counter and the issued ids are unchanged |
| Ask.LowerChar | src/interaction/ask.ts:15-16 | ASCII `toLowerCase` of one character: upper-case letters move by 32, every other character is kept |
| Ask.Lower | src/interaction/ask.ts:15-16 | lower-cases every character, keeping the length |
| Ask.TrimStart | src/interaction/ask.ts:15-16 | drops exactly the leading whitespace |
| Ask.TrimEnd | src/interaction/ask.ts:15-16 | drops exactly the trailing whitespace |
| Ask.TrimBounds | src/interaction/ask.ts:15-16 | `trim` keeps the slice between the first and the last non-whitespace character, or gives the empty string |
| Ask.AcceptsCharacterized | src/interaction/ask.ts:14-16 | an answer is accepted exactly when, without surrounding whitespace, it is `yes` or `y` in any letter case |
| Ask.AcceptedCore | src/interaction/ask.ts:14-16 | an accepted answer is whitespace, then `yes` or `y` in any case, then whitespace |
| Ask.CoreAccepted | src/interaction/ask.ts:14-16 | every such answer is accepted |
| Ask.CoreRejected | src/interaction/ask.ts:14-16 | an answer whose trimmed core is anything else is rejected |
| Ask.LowerTrimCommute | src/interaction/ask.ts:15-16 | lower-casing and trimming commute |
| Ask.NormalizeIdempotent | src/interaction/ask.ts:15-16 | normalising twice is normalising once |
| Ask.LowerIdempotent | src/interaction/ask.ts:15 | lower-casing is idempotent |
| Ask.TrimIdempotent | src/interaction/ask.ts:15-16 | trimming is idempotent |
| Ask.AcceptsInvariant | src/interaction/ask.ts:14-16 | the decision is the same for the answer trimmed or lower-cased beforehand |
| Ask.AcceptsUpperCase | src/interaction/ask.ts:14-16 | `YES` is accepted |
| Ask.AcceptsMixedCase | src/interaction/ask.ts:14-16 | `Yes` is accepted |
| Ask.AcceptsUpperLetter | src/interaction/ask.ts:14-16 | `Y` is accepted |
| Ask.AcceptsPadded | src/interaction/ask.ts:15-16 | ` Y ` is accepted |
| Ask.AcceptsLineFeed | src/interaction/ask.ts:15-16 | `yes` followed by a line feed is accepted |
| Ask.RejectsNo | src/interaction/ask.ts:14-16 | `no` is rejected |
| Ask.RejectsPrefix | src/interaction/ask.ts:14-16 | `ye` is rejected |
| Ask.RejectsLonger | src/interaction/ask.ts:14-16 | `yeah` is rejected |
| Ask.RejectsInnerSpace | src/interaction/ask.ts:14-16 | `y es` is rejected: inner whitespace is kept |
| Ask.RejectsEmpty | src/interaction/ask.ts:14-16 | the empty answer is rejected |
| Files.Parent | src/tools/writeFile.ts:51 | `path.dirname`: the path without its last segment; the working directory is its own parent |
| Files.Prefixes | src/tools/writeFile.ts:52 | the path and every directory above it, the working directory included, and nothing else |
| Files.Mkdir | src/tools/writeFile.ts:52 | recursive `mkdir`: passes exactly when no prefix of the path is a file; then it adds exactly the path's prefixes as directories, keeping every file; otherwise it fails with `EEXIST` (the path is a file) or `ENOTDIR` and changes nothing |
| Files.MkdirWellFormed | src/tools/writeFile.ts:52 | `mkdir` keeps the file system well formed |
| Files.Write | src/tools/writeFile.ts:53 | `writeFile`: passes exactly when the path is no directory and its parent is one; then the path holds the content, other files are unchanged and no directory changes; otherwise it fails with `EISDIR`, `ENOTDIR` or `ENOENT` and changes nothing |
| Files.WriteWellFormed | src/tools/writeFile.ts:53 | `writeFile` keeps the file system well formed |
| Files.Read | src/tools/copyFile.ts:52 | `readFile`: the content of a file, otherwise `EISDIR`, `ENOTDIR` or `ENOENT` |
| Files.FileSystem.Access | src/tools/copyFile.ts:26 | `stat`/`access`: passes exactly when a file or a directory exists at the path; otherwise `ENOTDIR` when a file stands where one of the path's directories belongs, else `ENOENT` |
| Files.FileSystem.MakeDirectories | src/tools/writeFile.ts:52 | acts in place as `Mkdir` does and keeps the file system well formed |
| Files.FileSystem.WriteFile | src/tools/writeFile.ts:53 | acts in place as `Write` does and keeps the file system well formed |
| Files.FileSystem.ReadFile | src/tools/copyFile.ts:52 | returns what `Read` gives for the current contents |
| WriteFile.Respond | src/tools/writeFile.ts:25-61 | prompts exactly when nothing exists at the path; an existing path gives the error suggesting `editFile` and changes nothing; a refusal gives the denial and changes nothing |
| WriteFile.RespondBlocked | src/tools/writeFile.ts:51-60 | allowed, a file standing where a directory above the path belongs gives `Error writing file at …` with the `mkdir` error, and nothing changes |
| WriteFile.RespondWrites | src/tools/writeFile.ts:50-54 | allowed and unblocked, the result is Ok, the path then holds exactly the content, exactly one file is added, and exactly the missing directories above it are added |
| WriteFile.RespondKeepsFiles | src/tools/writeFile.ts:27-60 | no file that existed is changed or removed, whatever the answer |
| WriteFile.RespondMakesDirectories | src/tools/writeFile.ts:51-54 | on success every directory above the path exists |
| WriteFile.RespondWellFormed | src/tools/writeFile.ts:25-61 | the tool keeps the file system well formed |
| WriteFile.Execute | src/tools/writeFile.ts:25-61 | runs the checks, prompt, `mkdir` and `writeFile` in order on the file system and does exactly what `Respond` gives for the typed answer |
| EditFile.Respond | src/tools/editFile.ts:24-57 | prompts exactly when something exists at the path; a missing path gives the error suggesting `writeFile` and changes nothing; a refusal gives the denial (worded "create file") and changes nothing; an allowed edit of a directory fails with `EISDIR` and changes nothing |
| EditFile.RespondEdits | src/tools/editFile.ts:49-50 | allowed on an existing file, the result is Ok, the file holds exactly the new content, no directory is made and no file is added |
| EditFile.RespondKeepsOthers | src/tools/editFile.ts:49 | no file other than the path changes, whatever the answer |
| EditFile.RespondWellFormed | src/tools/editFile.ts:24-57 | the tool keeps the file system well formed |
| EditFile.Execute | src/tools/editFile.ts:24-57 | runs the check, prompt and overwrite in order on the file system and does exactly what `Respond` gives for the typed answer |
| CopyFile.Respond | src/tools/copyFile.ts:23-65 | prompts exactly when the source exists and the destination does not; a missing source, checked first, gives `Failed to copy file: ` with `ENOTDIR` when a file stands where one of its directories belongs and `ENOENT` otherwise; an existing destination gives `already exists`; a refusal gives the denial; each of these changes nothing |
| CopyFile.RespondBlocked | src/tools/copyFile.ts:48-49 | allowed, a file standing where a directory above the destination belongs makes the copy fail with the `mkdir` error, and nothing changes |
| CopyFile.RespondDirectory | src/tools/copyFile.ts:26-52 | a directory source passes the access check and fails with `EISDIR` only when read, after the destination's directories were made |
| CopyFile.RespondCopies | src/tools/copyFile.ts:48-58 | allowed, the destination then holds the source's content, the source and every other file are unchanged, exactly one file is added, and exactly the missing directories above the destination are added |
| CopyFile.RespondMakesDirectories | src/tools/copyFile.ts:48-49 | on success every directory above the destination exists |
| CopyFile.RespondWellFormed | src/tools/copyFile.ts:23-65 | the tool keeps the file system well formed |
| CopyFile.Execute | src/tools/copyFile.ts:23-65 | runs the access checks, prompt, `mkdir`, `readFile` and `writeFile` in order on the file system and does exactly what `Respond` gives for the typed answer |
| SearchInDirectory.Paths | src/tools/searchInDirectory.ts:34 | each name prefixed by `directoryPath + "/"`, in order |
| SearchInDirectory.Execute | src/tools/searchInDirectory.ts:28-58 | the loop returns exactly the paths of the matching names in listing order; a listing failure gives `Error searching in directory at …` |
| SearchInDirectory.MatchingSound | src/tools/searchInDirectory.ts:33-46 | every returned path is `directoryPath/entry` for a listed entry whose name contains the keyword |
| SearchInDirectory.NamesSound | src/tools/searchInDirectory.ts:44-46 | every matching name is a listed name containing the keyword |
| SearchInDirectory.MatchingComplete | src/tools/searchInDirectory.ts:44-46 | every listed entry whose name contains the keyword is returned |
| SearchInDirectory.NamesComplete | src/tools/searchInDirectory.ts:44-46 | every listed name containing the keyword is a matching name |
| SearchInDirectory.MatchingInOrder | src/tools/searchInDirectory.ts:33-46 | the matches are a subsequence of the listing, so there are no more of them than entries |
| SearchInDirectory.SubsequenceExtend | src/tools/searchInDirectory.ts:33-46 | one more entry, kept or dropped, preserves the subsequence relation |
| SearchInDirectory.EmptyKeywordMatchesAll | src/tools/searchInDirectory.ts:44 | the empty keyword matches every entry |
| ToolScenarios.FirstWrite | src/tools/writeFile.ts:50-54 | an allowed `dir/name` write into an empty directory makes `dir` and exactly that one file holding the content, and leaves the file system well formed |
| ToolScenarios.WriteTwice | src/tools/writeFile.ts:27-54 | a refused write changes nothing; an allowed one writes; a second write is refused without a prompt and keeps the first content |
| ToolScenarios.WriteThenEdit | src/tools/editFile.ts:27-50 | a written then edited file holds the edited content, and the edit makes no directory |
| ToolScenarios.CopyMissing | src/tools/copyFile.ts:26 | in an empty directory a copy fails with `ENOENT` before any prompt, whatever the answer |
| ToolScenarios.CopyBelowFile | src/tools/copyFile.ts:26 | a source below a file fails with `ENOTDIR` before any prompt, whatever the answer, changing nothing |
| ToolScenarios.CopyDirectory | src/tools/copyFile.ts:26-52 | copying the working directory fails with `EISDIR`, after the destination's directory was made |
| ToolScenarios.WriteThenCopy | src/tools/copyFile.ts:48-58 | a written file copied beside itself: both files hold the written content, and no other file exists |
| ToolScenarios.SearchListing | src/tools/searchInDirectory.ts:33-46 | `ts` over `a.ts`, `b.md`, `c.ts` in `src` gives `src/a.ts` and `src/c.ts`, in that order |
| Scenarios.SameSecondStart | src/memory/manager.ts:45-56 | a second start within the same second is refused by the primary key |
| Scenarios.EndSeenByHolder | src/memory/test.ts:92-95 | the object returned by the start turns inactive when the session ends, and its duration freezes |
| Scenarios.SavedThenDeleted | src/memory/manager.ts:163-170 | a session with a saved message is deleted: both tables are empty, and the message's id is still among the issued ids |
| Scenarios.IdsNotReused | src/memory/database.ts:65 | `AUTOINCREMENT` through the manager: after that delete, a session started again saves its message under a larger id |
| Scenarios.SaveWithoutSession | src/memory/manager.ts:108-110 | without a current session, saving gives null and stores nothing |
| Scenarios.RestoreEnded | src/memory/test.ts:138-144 | an ended session can be restored and is then current, still ended |
| Scenarios.DeleteCurrent | src/memory/manager.ts:163-170 | deleting the current session clears it and removes its row |
| Scenarios.Ended | src/memory/test.ts:38-92 | a fresh store whose one session was started and then ended |
| Scenarios.SecondStarted | src/memory/test.ts:98-102 | a second start in the same project after the first ended; both rows stored, the second current |
| Scenarios.TwoEnded | src/memory/test.ts:98-111 | both sessions ended, stored in start order, nothing current |
| Scenarios.RestoredFirst | src/memory/test.ts:137-144 | restoring the first session makes it current; both rows stay |
| Scenarios.OtherDeleted | src/memory/test.ts:147-149 | deleting the second session keeps the restored first one current and leaves only its row |
| Scenarios.DeleteOther | src/memory/test.ts:147-152 | the deleted session is not found afterwards, and the project listing has exactly the first session |
| Scenarios.Started | src/memory/test.ts:38 | a fresh store whose one session was just started and is current |
| Scenarios.Sent | src/memory/test.ts:47-73 | saving in the current session appends exactly that message |
| Scenarios.Chatted | src/memory/test.ts:38-73 | start and two saved messages: the open session is current and the two messages are stored in order |
| Scenarios.Conversation | src/memory/test.ts:38-95 | start, two messages, end: one ended row and the two messages in order |
| Scenarios.SummaryAfterConversation | src/memory/test.ts:113-125 | a one-session reduction of the walk-through's listing: the project listing then has one summary, ended, counting two messages and showing the later one |
| Scenarios.ConversationSummary | src/memory/repository.ts:156-160 | a session with two messages at different times is summarised with count 2 and the later content |

## Left out

- SQL, prepared statements, the connection and the schema DDL of `src/memory/database.ts` are left out. Only two schema facts are kept: the `sessions.id` primary key and `AUTOINCREMENT` on `messages.id`. Storage failures other than the primary-key violation are not modelled.
- ISO-8601 serialisation and `Date` are left out: timestamps are integer milliseconds that read back unchanged.
- The local-calendar decomposition is an input: `LocalTime` holds the getters' values. So are the clock and `process.cwd()` (the `cwd` parameter of `Manager.GetCurrentProjectSessions`).
- Operations after `close` are not modelled: the source's database calls would throw. `Manager.Close` only records that the connection is closed.
- `Manager.create` opening the database file is I/O. The constructor takes an opened store.
- Persistence.Repository.LastMessage: between messages of a session with equal timestamps, SQL may pick any. The model's `Latest` picks the last stored, and the contract promises only some message with the latest timestamp.
- Limits that are not integers (NaN, fractions), which JavaScript could pass, are not modelled.
- Persistence.Repository.GetSessionSummaries: a negative limit passes the truthiness test but SQLite reads it as no cap; the contract states exactly that and says nothing further.
- `toLowerCase` and `trim` are limited to ASCII letters and the ASCII whitespace characters (space, tab, line feed, vertical tab, form feed, carriage return). Unicode case mapping and Unicode whitespace are not modelled.
- `src/interaction/ask.ts:7-19` opens and closes a readline interface on every call. That interface and the text of each tool's prompt question are I/O and left out. The answer enters each tool's `Respond` as `allowed`, and `Execute` ties it to `Ask.Accepts`.
- Node error messages are reduced to `CODE: description`: the syscall and path suffixes Node adds are dropped. Errors other than the modelled `EEXIST`, `ENOENT`, `ENOTDIR` and `EISDIR` (permissions, disk full, symlinks, partial writes) are not modelled.
- Tool paths are segment sequences relative to the working directory. Absolute paths, `..`, `.` and duplicate separators are not normalised, and `Show` is how a path is printed in messages.
- File contents are strings. `copyFile` copies bytes in the source, which the model treats as the same content.
- `searchInDirectory` takes the `readdir` result as input: names in the order the file system gives them, or its error. The file-content search is commented out in the source and is not modelled.
- Sessions.Manager.DeleteSession and Persistence.Repository.DeleteSession do not restate that `GetSession` is None and `GetMessages` is empty afterwards. Both follow from the new tables they state, by `Persistence.Repository.DeletedSession`.
- Persistence.Repository.AddMessage: an insert for an unknown session id succeeds here. `messages.session_id` is declared `REFERENCES sessions(id)` (`src/memory/database.ts:66`), and with foreign keys enforced the insert throws. The model does not enforce the reference.
- `src/interaction/input.ts`, `src/tools/listFiles.ts`, `src/tools/readFile.ts`, `src/main.ts`, `src/prompts/system.ts`, `src/tools/types.ts` and `src/memory/index.ts` are not part of this model. They hold a readline holder, thin pass-through tools, the model-calling loop, a string constant, types and re-exports.
- Concurrency is not modelled: the program is single-threaded, and each call here runs to completion.
