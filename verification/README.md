# bumpbot: a verified model of the scheduler, its store, and its parsers

bumpbot keeps forum threads on top: a loop looks for threads that are due, asks the forum to bump
them, and writes down when to try again. This project models the parts of it where a mistake would
be costly, and proves what they keep.

* **The store** (`types.dfy`, `tables.dfy`, `sqlite.dfy`, `stats.dfy`): accounts, threads, the bump log
  and the statistics snapshots with AUTOINCREMENT identifiers, foreign keys with cascade, the due query,
  and the whole-row update. The class `SQLite` changes its tables in place and is proved against
  functions on a database value.
* **One attempt and one pass** (`bumping.dfy`, `attempt.dfy`, `scheduler.dfy`): the class `Scheduler` with
  its two in-memory maps, the pacing mark, the live settings and the notifier; `BumpThread`, `ProcessDue`,
  `BumpNow` and `ImportThreads` are proved against functions on a scheduler value, and these against the
  columns of the tables and the units of the settings. The forum may answer anything; clocks,
  cancellation and random rolls are parameters.
* **Whole runs** (`runs.dfy`, `runlaws.dfy`, `safety.dfy`, `schedule.dfy`, `lostupdate.dfy`,
  `streaks.dfy`, `cutoff.dfy`, `refinement.dfy`, `gaps.dfy`): the bump loop, panel handlers and the stats
  loop interleave step by step. Reading a row and writing it back are separate steps, as are starting an
  attempt and getting its answer; any of the writes after an answer may be lost, and the process may
  restart anywhere. Every thread carries the history of its answers and of its starts, which the code
  never sees and the theorems talk about.
* **The pacing gate** (`pacing.dfy`): callers as processes around a mutex, with a delay that can be
  edited while they wait, and cancellation.
* **Parsers** (`regex.dfy`, `parsetime.dfy`, `words.dfy`, `int64.dfy`, `mippedref.dfy`, `text.dfy`,
  `cookies.dfy`): regular expressions as ordered backtracking, waits out of forum messages in 64-bit
  arithmetic, Mipped references, cookie headers.
* **Import** (`lolz.dfy`, `mippedlist.dfy`, `importing.dfy`, `lolzimport.dfy`): the two paginated listings
  and the merge into the account.
* **Mipped bump protocol** (`relogin.dfy`), **durations shown in the panel** (`format.dfy`).

Instants and durations are integers in nanoseconds; NULL is `None`.

Where the code keeps its promise only under a condition, the condition is exact or the failing runs are
given:

* The repository's README says that schedules survive a restart (README.md:20-21). They do, but
  `UpdateThread` writes whole rows, so a panel handler that read a row before an attempt and writes it
  after puts the old `next_bump_at` back. `Safety.ScheduledIff` and `Safety.RowFollowsHistoryIffCurrent`
  give the exact condition, row by row; `Schedule.ScheduleSafety` gives the guarantee for each thread that
  meets it, whatever happens to other threads; `LostUpdate.LostUpdateBreaksSpacing` is a run in which one
  stale title write makes the bot attempt a thread twice at the same instant.
* A restart between the start of an attempt and the write of its answer leaves the thread due, and so does
  a lost row write. `CutOffs.RestartsRepeatAttempts` gives runs with any number of starts at one instant.
  So the plain bound of W / 60 + 1 in W seconds holds for windows without either
  (`Schedule.StartsPerWindowOfOneLife`); otherwise the cut-off and lost ones come on top
  (`Schedule.StartsPerWindow`, and `Schedule.AttemptsPerWindow` for answered attempts).
* The three writes after an answer may each be lost: to the disk, or because the context has expired, as
  the manual bump's does after 90 seconds (internal/tg/bot.go:195) while one Mipped bump may take longer.
  The code goes on with the ladder, the failure counter and the notices. Lost writes are part of every run
  here; `Schedule.LogTellsHistory` says when the log is still the whole history.
* Durations wrap at 64 bits. `Schedule.DueAsAskedIff` says exactly when an answer's delay is the one it
  asks for; after a wait near the largest duration the thread is due again at once
  (`Schedule.LongWaitIsDueAtOnce`).
* `scrapeThreadLinks` cuts a slug at a dot that a digit follows. `MippedRef.ScrapeExact` says, for the
  first thread link of any text, exactly when it is read as it is.
* The early stop of the Lolzteam listing loses nothing if and only if no page of old threads only stands
  before a page with a recent one (`Lolz.EarlyStopIsLosslessIff`); a newest-first listing is such a
  listing.
* The crawl of the Mipped pages finds every thread they lead to if and only if no page without a new
  thread stands before one that has one (`MippedList.FindsAllIff`).

## Model

| member | source | states |
|---|---|---|
| `Tables.InsertedAccount` | internal/storage/sqlite.go:70-82 | A new account is one more row under an identifier no account had, with the columns given; nothing else changes |
| `Tables.ChangedStatus` | internal/storage/sqlite.go:119-123 | A status update changes one column of one row |
| `Tables.InsertedThread` | internal/storage/sqlite.go:150-163 | A new thread is one more row with the columns given, or none when its account is missing |
| `Tables.OverwrittenThread` | internal/storage/sqlite.go:189-197 | An update overwrites every column of its row and touches and creates no other |
| `Tables.AppendedRows` | internal/storage/sqlite.go:225-299 | A log entry and a snapshot hold the values given, behind the rows there were |
| `Tables.RefusedRows` | migrations/001_init.sql:33-50 | Log entries and snapshots of a thread that does not exist are refused |
| `Tables.DeletedThread` | internal/storage/sqlite.go:199-202 | After a delete the thread is gone with its log rows and snapshots, and all the rest is as it was |
| `Tables.CascadeOnLogs` | migrations/001_init.sql:33-40 | A cascade removes the log rows of the deleted threads and leaves every other thread's log as it was |
| `Tables.CascadeOnSnaps` | migrations/001_init.sql:44-50 | And exactly the snapshots of the deleted threads |
| `Tables.DeleteAccountKeepsSound` | internal/storage/sqlite.go:137-140 | Deleting an account removes exactly its own threads with their log rows and snapshots, leaves no row without its parent, and keeps the logs and snapshots of the other threads |
| `Sqlite.SQLite.CreateAccount` | internal/storage/sqlite.go:70-82 | The new account gets an identifier that no account has |
| `Sqlite.SQLite.SetAccountStatus` | internal/storage/sqlite.go:119-123 | Only the status column of that account changes; a missing account changes nothing |
| `Sqlite.SQLite.DeleteAccount` | internal/storage/sqlite.go:137-140 | The new contents are the cascading delete of the value model |
| `Sqlite.SQLite.CreateThread` | internal/storage/sqlite.go:150-163 | The row is stored under the next identifier, or refused when its account is missing |
| `Sqlite.SQLite.ListThreadsByAccount` | internal/storage/sqlite.go:174-176 | Exactly the account's rows, by ascending identifier |
| `Sqlite.SQLite.ListDueThreads` | internal/storage/sqlite.go:182-187 | Exactly the enabled rows whose schedule is NULL or not later than now, each once, NULLs first and then ascending |
| `Sqlite.SQLite.UpdateThread` | internal/storage/sqlite.go:189-197 | The whole row is overwritten; a missing row changes nothing, a missing account refuses the write |
| `Sqlite.SQLite.DeleteThread` | internal/storage/sqlite.go:199-202 | The row, its log rows and its snapshots go, nothing else changes |
| `Sqlite.SQLite.AddBumpLog` | internal/storage/sqlite.go:225-237 | One row is appended under the next identifier, or refused when its thread is missing |
| `Sqlite.SQLite.ListBumpLogs` | internal/storage/sqlite.go:239-277 | Rows of one thread or of all, none before one that is newer by time and then identifier, none left out that is newer than one shown, all of them when they fit the limit (20 when it is not positive); under a monotone clock that is reverse append order |
| `Sqlite.ListingColumns` | internal/storage/sqlite.go:239-254 | As many rows as the limit, or 20, the latest first and of the same instant the one written last first |
| `Sqlite.SelectedColumns` | internal/storage/sqlite.go:247-254 | Thread 0 stands for all rows, another for its own, each as often as it occurs |
| `Sqlite.SQLite.CountSuccessfulBumps` | internal/storage/sqlite.go:279-283 | The number of the thread's rows marked ok |
| `Sqlite.OkCountIs` | internal/storage/sqlite.go:279-283 | The count is that of the rows marked ok |
| `Sqlite.SQLite.AddStatsSnapshot` | internal/storage/sqlite.go:287-299 | One snapshot is appended under the next identifier, or refused when its thread is missing |
| `Sqlite.SQLite.SnapshotAround` | internal/storage/sqlite.go:307-320 | The earliest snapshot at or after t, or else the oldest, or none when there is none |
| `Sqlite.ListingIsReverseAppend` | internal/storage/sqlite.go:247-254 | Rows appended under a monotone clock are listed in reverse append order |
| `Scheduling.Scheduler.Pace` | internal/scheduler/scheduler.go:462-473 | An uncancelled grant comes at least the request delay after the previous one |
| `Scheduling.Scheduler.TakeBackoff` | internal/scheduler/scheduler.go:499-509 | The rung for the stored index is returned and the index moves on, never past the ladder |
| `Scheduling.Scheduler.TrackFailure` | internal/scheduler/scheduler.go:517-534 | The counter grows or is dropped; the owner is told exactly when it becomes three |
| `Scheduling.Scheduler.BumpThread` | internal/scheduler/scheduler.go:202-279 | The whole state after one attempt, including the early returns that change nothing |
| `Attempts.OtherwiseNothing` | internal/scheduler/scheduler.go:203-214 | An attempt without account, with a secret that does not decrypt or for another forum than the two changes nothing |
| `Attempts.RowAfterAttempt` | internal/scheduler/scheduler.go:226-265 | Every column of the row is the copy's, but the schedule, which lies the pause of this answer behind it, and the last bump, which is set exactly when the reply says ok |
| `Attempts.LogAfterAttempt` | internal/scheduler/scheduler.go:268-275 | The log entry is ok exactly when the reply says so, with the message of its kind and the row's new schedule |
| `Attempts.AccountAfterAttempt` | internal/scheduler/scheduler.go:227-241 | Refused credentials mark the account, an error-free reply marks it ok, other errors leave it |
| `Attempts.FailuresAfterAttempt` | internal/scheduler/scheduler.go:517-526 | The failures in a row are none after a reply that says ok and one more after anything else |
| `Attempts.LadderAfterAttempt` | internal/scheduler/scheduler.go:226-260 | One rung up after an error, down to the ground after any reply, unchanged after refused credentials |
| `Attempts.ChatAfterAttempt` | internal/scheduler/scheduler.go:517-547 | When the owner listens: the account's name after refused credentials, and the thread's title, or its reference when it has none, at the third failure in a row |
| `Attempts.GateInMilliseconds` | internal/scheduler/scheduler.go:462-489 | An attempt that is not cancelled comes at least the setting's milliseconds after the last one, and no later than that unless asked for later; with a setting of 0 or less it does not wait |
| `Attempts.JitterRange` | internal/scheduler/scheduler.go:475-481 | The jitter takes every value below the setting and no other, and is 0 when the setting is not positive |
| `Scheduling.Scheduler.ProcessDue` | internal/scheduler/scheduler.go:183-197 | One tick visits the due list in order, each row once, until it is cancelled |
| `Attempts.DueListColumns` | internal/storage/sqlite.go:182-187 | The due rows, by their columns: enabled, and without schedule or with one not later than now; those without first, then by schedule |
| `Scheduling.Scheduler.BumpNow` | internal/scheduler/scheduler.go:282-288 | The manual bump is one attempt on the current row, whatever its schedule |
| `Scheduling.Scheduler.ImportThreads` | internal/scheduler/scheduler.go:314-367 | An import is the merge by canonical key of what the forum client lists under the age limit of the settings, with the forum's default interval; when it fails no table changes |
| `Bumping.PassRow` | internal/scheduler/scheduler.go:183-197 | After a pass each due row is rescheduled from its own answer and the rung it had when the pass began, or is as it was if its attempt could not start or its row write was lost |
| `Bumping.PassDrains` | internal/scheduler/scheduler.go:183-197 | After a pass a thread is due as of its start if and only if it was due and its attempt could not start, or its row write was lost, or its new schedule is not later; rows that were not due are unchanged |
| `Bumping.PassEmptiesDueSet` | internal/scheduler/scheduler.go:183-279 | With positive intervals, delays that fit in 64 bits, no attempt stopped early and no row write lost, nothing that was due at the start is due at the end |
| `Bumping.DelayIsIdealIff` | internal/scheduler/scheduler.go:246-258 | The delay set after an answer is the one asked for if and only if that fits in int64 |
| `Refinement.RoundsArePass` | internal/scheduler/scheduler.go:183-197 | The run model and the scheduler's methods say the same: a tick whose attempts are launched and answered one after the other leaves the state of `ProcessDue`, up to the mark of the pacing gate |
| `Safety.EveryRunKeeps` | internal/scheduler/scheduler.go:183-288 | In every state of every run, whatever the interleaving, the answers, the lost writes and the restarts: references are sound and every account and thread identifier held in a copy was handed out by its counter; both maps are functions of the history since the last restart; every answer was treated according to those before it; each live thread's log tells, row by row, the answers whose log write got through; the messages sent are those of the answers of this life |
| `Safety.LadderFollowsHistory` | internal/scheduler/scheduler.go:233-260 | In every run the n-th error since the last error-free answer or restart is retried after rung min(n - 1, 3); auth failures do not count |
| `Safety.OneNoticePerStreak` | internal/scheduler/scheduler.go:517-547 | In every run a streak of failures is reported with its third attempt if the owner is being listened to then, and with no other |
| `Streaks.ThreeFailures` | internal/scheduler/scheduler.go:226-276 | In every run that is current for the row: three answers in a row of one life that are not a reply with ok, the first of their kind, with the owner listening at the third, put exactly one streak message among what was sent and leave the row's last bump alone |
| `Safety.SentAsPushed` | internal/scheduler/scheduler.go:536-547 | What the notifier has received since the last restart is, in order, what was sent with the answers of this life, each once, and nothing else |
| `Safety.StreakMessagesAreTrue` | internal/scheduler/scheduler.go:527-533 | A streak message received stems from an answer that was its thread's third failure in a row in this life of the process |
| `Safety.NoticesFollowAnswers` | internal/scheduler/scheduler.go:226-276 | In every run refused credentials are reported each time while the owner is being listened to, a success causes no message, and none is sent twice |
| `Safety.NewThreadStartsClean` | internal/scheduler/scheduler.go:57-59 | Deletes leave the maps alone, yet a new thread starts on the first rung with no failures, for its identifier was never used before |
| `Safety.AccountsStayGone` | migrations/001_init.sql:3-4 | In every run an account that is gone stays gone: its identifier is never handed out again, so a stale copy of a row never finds another account under it |
| `Safety.CopiesKeepTheirAccount` | internal/scheduler/scheduler.go:203-206 | A copy in the loop's queue whose account is gone never finds an account again |
| `Safety.AccountMarkedOkIff` | internal/scheduler/scheduler.go:226-241 | In every run an error-free answer whose status write gets through leaves the account marked ok if and only if it was, or the attempt had read that it was not; refused credentials then always leave it marked |
| `Safety.ScheduledIff` | internal/storage/sqlite.go:189-197 | A step keeps a row's schedule equal to what the last answer that reached the row set, if and only if a write-back to this row finds the schedule it was read with |
| `Safety.RowFollowsHistoryIffCurrent` | internal/storage/sqlite.go:189-197 | A step keeps a row in step with its thread's history, last bump included, if and only if what it writes back to this row was read from the row as it still stands |
| `Schedule.LogTellsHistory` | internal/storage/sqlite.go:225-283 | In every run a live thread's log tells, in order of time, the answers whose log write got through, with their successes counted; it is the whole history if and only if all log writes did |
| `Schedule.RowAgreesWithLog` | internal/scheduler/scheduler.go:262-275 | Without lost updates on it, and as long as the two writes after an answer succeed or fail together, a row's next_bump_at is next_at of its newest log row and last_bump_at the instant of its newest ok row, whatever happens to other rows |
| `Schedule.HandlersDecide` | internal/scheduler/scheduler.go:183-197 | Without manual bumps of a thread the loop loses no update on its row by itself: if the handlers' write-backs to the row are current, every step is |
| `Runs.EditsOneColumn` | internal/tg/threads.go:220-264 | An edit in the panel changes the title, the switch or the interval of the copy and nothing else |
| `Runs.WhatCanHappen` | internal/scheduler/scheduler.go:163-197 | What runs may do: the loop lists and launches one attempt at a time, anybody may attempt, read and write back, and answers, edits, deletes and restarts come at any time |
| `Runs.WhatCopiesDo` | internal/tg/threads.go:220-264 | A read copies the row, and a write-back overwrites it with the edited copy |
| `Runs.WhatInsertsDo` | internal/storage/sqlite.go:70-163 | New accounts and threads appear under the next identifiers |
| `Runs.WhatDeletesDo` | internal/storage/sqlite.go:137-202 | Deleted accounts and threads are gone |
| `Runs.WhatSnapshotsDo` | internal/scheduler/scheduler.go:422-424 | A snapshot is appended with the figures and the time |
| `Runs.WhatSettingsDo` | internal/scheduler/scheduler.go:87-128 | New settings and a new notifier take effect at once; an account's record is replaced |
| `Runs.WhatRestartsDo` | internal/scheduler/scheduler.go:66-85 | A restart keeps the database and forgets the maps, the list, the attempts under way and the copies |
| `Schedule.DueAsAskedIff` | internal/scheduler/scheduler.go:226-260 | What an answer sets is what the history asks for (half an hour after refused credentials, one, five, fifteen or sixty minutes after the n-th other error in a row, the forum's wait and a minute, or the interval with its jitter) if and only if that fits in int64 |
| `Schedule.LongWaitIsDueAtOnce` | internal/scheduler/scheduler.go:249-252 | A forum's wait within a minute of the largest duration wraps, and the thread is due again at once |
| `Schedule.ScheduleSafety` | internal/scheduler/scheduler.go:183-279 | Over whole runs with restarts and lost writes, for each thread without manual bumps and lost updates of its own: every start, be it answered, under way or cut off, comes no earlier than what any earlier answer that reached the row set, which is what it asked for whenever that fits in int64 |
| `Schedule.StartsPerWindow` | internal/scheduler/scheduler.go:183-279 | Then, with intervals of a minute or more, the starts on the thread within W seconds number at most W / 60 + 1, and on top those among them that a restart cut off before the last of them or whose row write was lost |
| `Schedule.StartsPerWindowOfOneLife` | internal/scheduler/scheduler.go:183-279 | Without restart and lost row write in the window its starts number at most W / 60 + 1 |
| `Schedule.AttemptsPerWindow` | internal/scheduler/scheduler.go:183-279 | Answered attempts that start within W seconds number at most W / 60 + 1 and those whose row write was lost, whatever restarts fall between |
| `LostUpdate.LostUpdateBreaksSpacing` | internal/scheduler/scheduler.go:413-421 | One stale title write makes the bot attempt a thread twice at the same instant despite a delay of four hours |
| `CutOffs.RestartsRepeatAttempts` | internal/scheduler/scheduler.go:216-267 | For every n there is a run with restarts, but without manual bump, write-back or passing of time, that starts a thread n times at the same instant and has no answer of it |
| `Pacing.GrantsAreSpaced` | internal/scheduler/scheduler.go:462-473 | At most one caller is past the lock, and each uncancelled grant comes at least the delay it read after the grant before it |
| `Pacing.GrantsArePace` | internal/scheduler/scheduler.go:462-473 | Each grant of the protocol is the scheduler's `Pace` on what the grant before it left |
| `Pacing.GrantsPerWindow` | internal/scheduler/scheduler.go:462-473 | When the grants after the first of a window of length W were not cancelled and read a delay of at least D, the window holds at most W / D + 1, whatever happens outside it |
| `Pacing.GrantsPerWindowUnderFloor` | internal/scheduler/scheduler.go:475-489 | So it is while the delay is never set below D |
| `Pacing.GrantsPerWindowInMilliseconds` | internal/scheduler/scheduler.go:483-489 | While the setting is never below m milliseconds, a window of W nanoseconds without cancelled grants holds at most W / (m * 1,000,000) + 1 |
| `Pacing.WhatStepsDo` | internal/scheduler/scheduler.go:462-489 | The holder of the lock reads the setting in milliseconds, sleeps until the delay is over if there is any left, and marks the moment it goes |
| `Pacing.NobodyIsStuck` | internal/scheduler/scheduler.go:462-473 | A free lock can be taken, its holder always has a step to take, and a sleeper goes on as soon as its time has come |
| `ParseTime.NumUnitIsScan` | internal/forum/parsetime.go:11 | At every position the expression matches exactly what one pass over digits, blanks and letters takes |
| `ParseTime.Pairs` | internal/forum/parsetime.go:21 | A single left-to-right scan finds exactly the leftmost, greedy, non-overlapping matches |
| `ParseTime.ParseWaitDuration` | internal/forum/parsetime.go:20-47 | The result is the ideal sum over the matches modulo 2^64, exact whenever that sum fits; found exactly when some pair counts |
| `ParseTime.BeginningDecides` | internal/forum/parsetime.go:29-44 | A word stands for a day, an hour, a minute or a second if and only if it begins as listed; the order of the cases does not matter |
| `ParseTime.ScanRender` | internal/forum/parsetime.go:10-21 | Any list of counts and unit words, with any digit-free text between, is found exactly |
| `ParseTime.MessageReadsBack` | internal/forum/parsetime.go:13-19 | Such a message, Russian or English, parses back to the wait it means; found exactly when some count fits in int64 |
| `Words.WordsReadBack` | internal/forum/parsetime.go:10-46 | For a list of 50 Russian and English words, capitalised or not: every message of counts and these words, with white space between and any text without digits around, is worth exactly the days, hours, minutes and seconds it says |
| `Words.LatinLetters` | internal/forum/parsetime.go:11 | All 26 Latin letters are letters in either case, and a capital is read as its small letter |
| `Words.CyrillicLetters` | internal/forum/parsetime.go:11 | So are the 33 Cyrillic letters |
| `Words.FoldedLetters` | internal/forum/parsetime.go:11 | So are the characters that fold to one of them, and what stands between words is none |
| `MippedRef.WrittenParses` | internal/forum/mipped.go:449-455 | Whatever path leads to it and whatever ending and white space surround it, slug.id parses to the same slug and id, and to one canonical key |
| `MippedRef.EveryFormParses` | internal/forum/mipped.go:30-32 | In plain characters: for every slug without / ? # and every id of digits, bare, behind a path or an address, with or without slash, query or fragment, and with white space around, the slug, the id and one key |
| `MippedRef.EmittedParses` | internal/forum/forum.go:93-100 | The address the bot stores parses back, to the same key |
| `MippedRef.ScrapedLinkRoundTrips` | internal/forum/mipped.go:297-312 | Whatever link is scraped, the address stored for it parses back to what was scraped |
| `MippedRef.ScrapeExact` | internal/forum/mipped.go:34-36 | The first thread link of any text, relative or absolute, is scraped to its slug and id if and only if the slug has no dot with a digit behind it after its first character |
| `MippedRef.SiteLinksScrapeExact` | internal/forum/mipped.go:297-312 | For the forum's own links that condition on the slug is all there is |
| `MippedRef.SiteLinksInPlain` | internal/forum/mipped.go:34-36 | The same in plain characters, for every slug without / ? # and quotation marks |
| `Cookies.CookiesFromHeader` | internal/forum/mipped.go:474-497 | The session is the parsed list, none when it is empty, and the count is its length |
| `Cookies.PrintParses` | internal/forum/mipped.go:470-473 | Printing clean pairs as "name=value; ..." and parsing them gives the list back; values may hold "=" |
| `Cookies.ParsePrintParse` | internal/forum/mipped.go:474-497 | For every header whatever, parsing what was printed from the parsed list gives the same list |
| `Cookies.PartKept` | internal/forum/mipped.go:476-490 | A name and a value, with white space around each of them, are kept without it |
| `Cookies.PartsPassedOver` | internal/forum/mipped.go:477-489 | A part without =, or with nothing but white space before it, is passed over |
| `Cookies.HeaderIsItsParts` | internal/forum/mipped.go:476-491 | The cookies of a header are those of what stands between its semicolons, in order |
| `Lolz.MyThreads` | internal/forum/lolz.go:133-199 | For every server the refs found are distinct and never "" or "0", and at most 51 pages are fetched |
| `Lolz.ThreadIdsAreListed` | internal/forum/lolz.go:169-199 | On newest-first rows with thread_ids of their own the refs returned are the thread_ids of the recent rows, in order, with thread_title or, where that is missing, title |
| `Lolz.FilteredColumns` | internal/forum/lolz.go:171-182 | A row is read as its thread_id, or its id when it has none |
| `Lolz.TakenIff` | internal/forum/lolz.go:169-183 | For any rows a ref is taken if and only if it is neither empty nor 0 and some recent row has it |
| `Lolz.HowCrawlEnds` | internal/forum/lolz.go:147-167 | Broken on a transport error, refused on 401 or 403 with nothing found, with what was found on any other error status and on an empty page |
| `Lolz.AskedAgainWithoutOrder` | internal/forum/lolz.go:152-158 | A rejected order is dropped for the rest of the crawl |
| `Lolz.EarlyStopIsLosslessIff` | internal/forum/lolz.go:185-198 | On a listing of distinct valid refs on at most 50 pages the result is exactly the age filter of the full listing, in order, if and only if no page of old threads only stands before one with a recent thread |
| `Lolz.NoLimitIsLossless` | internal/forum/lolz.go:187-198 | Without an age limit every thread is listed, whatever the order |
| `Lolz.EarlyStopIsLossless` | internal/forum/lolz.go:128-132 | A newest-first listing with known dates is listed without loss |
| `Lolz.UnsortedListingLosesThreads` | internal/forum/lolz.go:185-189 | An instance of the loss: a page of one old thread ahead of a recent one hides it |
| `Lolz.FallbackIsLossless` | internal/forum/lolz.go:152-158 | When the server rejects the order, every page is read and nothing is lost whatever the order |
| `MippedList.ScrapeThreadLinks` | internal/forum/mipped.go:287-316 | One page adds the addresses of the links taken, and counts them |
| `MippedList.LinkTaken` | internal/forum/mipped.go:297-314 | In plain characters: a link to a new thread with a title of two characters or more is stored under the full address with its title; any other is passed over |
| `MippedList.MyThreads` | internal/forum/mipped.go:250-266 | The crawl reads at most 20 pages and stops at the first that adds nothing |
| `MippedList.PageIsComplete` | internal/forum/mipped.go:297-314 | After a page a thread is found if and only if it was found before or a link with a text leads to it |
| `MippedList.FindsAllIff` | internal/forum/mipped.go:250-266 | Of at most 20 pages shown, the crawl finds every thread a page leads to if and only if no page without a new thread stands before one that has one |
| `MippedList.CrawlSane` | internal/forum/mipped.go:250-266 | For every server the ids found are distinct and each stored address parses back to its thread |
| `MippedList.ScrapedThreadsAreAllAdded` | internal/scheduler/scheduler.go:336-366 | Importing a scrape adds exactly one thread per hit whose thread the account does not have yet, whatever the server showed |
| `MippedList.AddedScrapedRow` | internal/scheduler/scheduler.go:352-364 | An added row holds the full address and the title of a hit, disabled |
| `LolzImport.ImportOfLolz` | internal/scheduler/scheduler.go:314-367 | From a Lolzteam listing to the rows of the account: every listed thread not older than the setting's days is in a row afterwards; every added row is such a thread that the account did not hold, disabled, with the Lolzteam interval |
| `LolzImport.AddedRefsAreNew` | internal/scheduler/scheduler.go:346-364 | An added row holds a listed ref that no row of the account held up to white space, and no other added row holds it |
| `LolzImport.AddedIsUnheld` | internal/scheduler/scheduler.go:340-366 | One row is added for each listed ref that was not held |
| `LolzImport.AgeLimitInDays` | internal/scheduler/scheduler.go:323-326 | A row is dropped exactly when its date in seconds lies more than the setting's days before the import |
| `LolzImport.DiscoveryOfMipped` | internal/scheduler/scheduler.go:315-333 | A Mipped account lists what its pages lead to; without the account's own identifier nothing is listed |
| `LolzImport.IntervalsOfForums` | internal/scheduler/scheduler.go:155-161 | A new Lolzteam thread gets the Lolzteam interval of the settings, a Mipped one the default |
| `Importing.MergeAddsOnlyDisabled` | internal/scheduler/scheduler.go:345-366 | Existing rows are unchanged and no added row can be due until a step enables it |
| `Importing.AddedRowsStemFromFound` | internal/scheduler/scheduler.go:352-364 | Every added row holds a discovered reference and title, the account, the forum and its default interval, disabled and without schedule |
| `Importing.WhatOneDoes` | internal/scheduler/scheduler.go:346-364 | An insert that fails adds no row and is not counted, and its key counts as present; a known key is passed over; anything else adds one row |
| `Importing.MergeKeepsKeysDistinct` | internal/scheduler/scheduler.go:340-366 | If the account's canonical keys were distinct they stay distinct, whatever inserts fail |
| `Importing.ImportIsComplete` | internal/scheduler/scheduler.go:340-366 | With successful inserts every discovered key is present afterwards and `added` is the number of new keys |
| `Importing.SecondImportAddsNothing` | internal/scheduler/scheduler.go:346-351 | A second import of the same discovery adds nothing and changes nothing |
| `Importing.KnownThreadIsNotAddedAgain` | internal/scheduler/scheduler.go:340-351 | A Mipped thread entered by hand in any form is not added again under a scraped address, whatever slug that shows |
| `Relogin.Client.BumpOnce` | internal/forum/mipped.go:103-173 | One page and at most one POST; what the last answer makes of the cycle, both ways |
| `Relogin.Client.Login` | internal/forum/mipped.go:322-367 | Refused credentials are reported exactly when login is not possible or the answer brings no user cookie |
| `Relogin.Client.Bump` | internal/forum/mipped.go:70-99 | For every server: at most two cycles and one login, at most one accepted bump, reported as success exactly then; need-login never leaks; auth failure exactly when the login is refused or the second cycle asks for one |
| `Relogin.WhatAnswersMean` | internal/forum/mipped.go:103-173 | What each reading of an answer means: login asked for, settled with which report, accepted, turned down |
| `Format.HumanDuration` | internal/tg/format.go:47-80 | The text is the one of the value model: the first field that is not zero and the next |
| `Format.TextSaysFloor` | internal/tg/format.go:47-80 | Read again, the text says the duration rounded down to a multiple of the last unit its size shows |
| `Format.DaysAndHours` | internal/tg/format.go:45-47 | a days, b hours and less than an hour read "a д b ч" |
| `Format.HoursAndMinutes` | internal/tg/format.go:45-47 | a hours, b minutes and less than a minute read "a ч b м" |
| `Format.MinutesAndSeconds` | internal/tg/format.go:45-47 | a minutes, b seconds and less than a second read "a м b с" |
| `Format.SecondsOrNone` | internal/tg/format.go:48-53 | a seconds read "a с"; less than one, or a negative duration, reads "0 с" |
| `Format.TextIsMonotone` | internal/tg/format.go:45-80 | What is shown is at most the duration, within one last unit of it, and never decreases as the duration grows |
| `Stats.BaselinesInOrder` | internal/storage/sqlite.go:307-320 | The earlier instant's baseline is never later than the later one's, if and only if a snapshot follows the later instant, none follows the earlier, or none precedes the earlier |
| `Stats.FreshBaselinesInOrder` | internal/tg/stats.go:80-95 | Right after a refresh the 7-day baseline never postdates the 24-hour one |
| `Stats.BaselineColumns` | internal/storage/sqlite.go:307-320 | The baseline by its columns: of the thread, the earliest at or after t when there is one, else the oldest |

## Left out

- Schedule.ScheduleSafety: speaks of threads without manual bumps, because BumpNow ignores the schedule on purpose, and without lost updates on their schedule; `LostUpdate.LostUpdateBreaksSpacing` shows that the second hypothesis is needed.
- Pacing.GrantsAreSpaced: spaces grants, not single HTTP requests, because one grant may cover several requests of a forum client.
- Scheduling.Scheduler.ImportThreads: whether the server tells the account's own identifier, which each client asks for first, is a parameter.
- Sqlite.SQLite.ListDueThreads: which of two rows with the same schedule comes first is left open in the results about passes and runs, because the query does not say.
- MippedList.FindsAllIff: speaks of crawls without a transport error; after one the import fails.
- Reads that fail, and writes of panel handlers that fail: the writes after an answer and the inserts of an import may be lost, other statements succeed unless a foreign key refuses them.
- In runs, what follows a forum's answer (account status, row, log entry, counter) is one step, in which any of the writes may be lost; reading rows, starting attempts, waiting for the forum and handlers' write-backs are steps of their own.
- In runs, an import shows as single inserts; a status set by an account check shows as an arbitrary change of the account.
- Adding a delay to an instant does not overflow; sums and products of durations do wrap.
- The clock of runs and of the gate does not run backwards.
- The mutex of the gate hands over in any order; fairness is not claimed.
- The regular expressions are modelled as leftmost-first backtracking over the constructs they use; Go's automaton is not part of this model. Text is a sequence of characters, so invalid UTF-8 does not occur.
- HTTP, JSON, HTML selection, the cookie jar, AES-GCM and proxies: a server's answers are arbitrary values, and `readable` says whether a secret decrypts.
- Saving refreshed Mipped sessions, and the choice of the CSRF token.
- The newest snapshot and the list of snapshots since an instant, which are plain selections.
- Seeding and loading settings, the settings table, environment defaults, `created_at` and `updated_at`.
- `sparkline`, deltas and the other texts and keyboards of the Telegram panel; its handlers appear in runs as reads, write-backs, inserts and deletes.
