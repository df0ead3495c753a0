# leetDiscord core, modelled in Dafny

leetDiscord is a Discord bot that follows a server's members on LeetCode. Each guild has
a channel, a list of tracked users (a LeetCode username, optionally mapped to a Discord id),
and cron entries. At each scheduled time a job checks every tracked member against the
LeetCode daily problem. It records each solve at most once per day in the
`DailySubmission` collection and posts one reminder that mentions everyone who has not
solved it yet. Slash commands add and remove tracked users, list them, run the same check
on demand and manage the schedule. Streaks, completion counts and a leaderboard are derived
from the stored records.

The model covers:

- **Submission-time resolution** (`submission_time.dfy`, module `SubmissionTime`).
  JavaScript's `parseInt` is written out: white space, sign, `0x`, and digits in radix 10 or 16.
  On top of it sits `parseSubmissionTime`: the seconds-versus-milliseconds threshold
  `9999999999`, the `Date` range check, the date-string fallback and the fall back to "now".
  It is one function for both identical copies, `modules/scheduledTasks.js:11-35` and
  `modules/apiUtils.js:43-67`.
- **The `DailySubmission` collection** (`daily_submission.dfy`).
  It holds the schema as a validation function, with the required paths, the difficulty enum and
  the defaults. A `Store` class holds the records as a sequence. Its `Create` runs validation,
  then the `pre('save')` streak hook (`PreSave`), then the insert.
- **Statistics** (`stats_utils.dfy`).
  These are functions over the records: `calculateStreak` with its lazy "today or yesterday"
  invalidation, `calculateCompletionRates` over a weekly or monthly window (the window start is
  an instant, not a day), and `generateLeaderboard` (filter, sort by streak then date, cut after
  ten, rank). Being functions, none of them can change the store.
- **The LeetCode helpers** (`api_utils.dfy`).
  `checkUser`; the check-before-insert write path both check routes share; and `enhancedCheck`.
  `enhancedCheck` is a method over the store. Its member loop builds the report fields as it
  goes, and they are proved equal, by loop invariant, to a function of the oracles' answers.
- **The scheduler** (`scheduled_tasks.dfy`).
  The `activeCronJobs` table is a `CronRegistry` class: a map from `guildId-schedule` to a job,
  the set of stopped job handles and a handle counter. Its `Valid` invariant says that no armed
  job is left running without a key. On it act `scheduleDailyCheck`, `updateGuildCronJobs` (as
  written and corrected, see Findings) and `initializeScheduledTasks`. The body a fired job runs
  is a method whose loop classifies each member, records solves and collects the reminder mentions.
- **The command front end** (`interaction_handler.dfy`).
  This is the dispatch of `handleInteraction`, the self-service gates of `handleAddUser` and
  `handleRemoveUser`, the `handleListUsers` text, and the order of effects in `handleManageCron`.
- **Guild configuration shapes** (`guild_model.dfy`) and small shared helpers (`common.dfy`).

Conventions:

- Record dates are integer day numbers, each standing for a local midnight.
- Submission times and "now" are integer milliseconds.
- Every HTTP request, database query and Discord call the core depends on becomes an input:
  - a `Result` for the daily slug and the problem details;
  - a `Feed` per member: request failed, empty body, or a list;
  - a `string -> Option<int>` date-string parser;
  - booleans for the channel lookup and the send permission.

A member whose submissions request fails in a scheduled run is only logged
(`modules/scheduledTasks.js:174-176`): that member is neither recorded nor mentioned in the
reminder. The model follows the code (`ScheduledTasks.Classify`, `Skipped`).

## Model

| member | source | states |
|---|---|---|
| SubmissionTime.ParseInt | modules/scheduledTasks.js:18 | `parseInt` gives NaN on blank input and on a first character that is no digit or sign; a first digit 1-9 gives a non-negative number; a negative number needs a leading `-` |
| SubmissionTime.ParseIntDecimal | modules/scheduledTasks.js:18 | `parseInt` reads the decimal rendering of every natural number back as that number |
| SubmissionTime.ParseSubmissionTime | modules/scheduledTasks.js:11-35 | the resolver is total: its result is `now` or a time value inside the `Date` range |
| SubmissionTime.FalsyTimestampIsNow | modules/scheduledTasks.js:12-15 | an absent or empty timestamp resolves to `now` |
| SubmissionTime.IntegerPrefixResolves | modules/scheduledTasks.js:18-24 | an integer prefix `t` resolves to `t` ms above 9999999999 and to `t*1000` ms otherwise, when that is a valid Date |
| SubmissionTime.NonIntegerFallsBack | modules/apiUtils.js:59-66 | when the integer path fails, a valid date-string parse is returned, otherwise `now` (identical to modules/scheduledTasks.js:27-34) |
| SubmissionTime.SecondsAndMillisecondsAgree | modules/scheduledTasks.js:21 | the same instant written in seconds and in milliseconds resolves to the same instant |
| SubmissionTime.Example1700000000 | modules/scheduledTasks.js:18-24 | "1700000000" and "1700000000000" both resolve to 1700000000000 ms |
| SubmissionTime.IsoStringReadAsSeconds | modules/scheduledTasks.js:18-24 | as written, "2024-01-15T10:00:00Z" resolves to 2024000 ms: parseInt stops at the first `-` |
| SubmissionTime.ParseSubmissionTimeStrict | modules/scheduledTasks.js:11-35 | the corrected resolver is total: `now` or a valid time value |
| SubmissionTime.StrictAgreesOnDigitStrings | modules/apiUtils.js:49-57 | on all-digit timestamps the corrected resolver equals the resolver as written |
| SubmissionTime.StrictParsesCalendarStrings | modules/scheduledTasks.js:27-34 | under the corrected resolver every other non-empty timestamp reaches the date-string parse, falling back to `now` |
| DailySubmission.DifficultyOf | modules/models/DailySubmission.js:31-35 | a difficulty is accepted exactly when it is Easy, Medium or Hard |
| DailySubmission.Validate | modules/models/DailySubmission.js:3-50 | validation succeeds iff every required path is present, required strings are non-empty and the difficulty is in the enum; the record carries the draft's values, `completed` defaulting to false and `streakCount` to 0 |
| DailySubmission.DefaultsApply | modules/models/DailySubmission.js:40-49 | a valid draft without `completed` and `streakCount` is stored with false and 0 |
| DailySubmission.IsDailyMatch | modules/apiUtils.js:109-118 | the existence query: same guild, member id, username and question, dated on the given day |
| DailySubmission.IsPreviousDay | modules/models/DailySubmission.js:62-70 | the hook's query: a completed record of the same member and guild dated the day before |
| DailySubmission.AppendAbsentKeepsOnePerDay | modules/models/DailySubmission.js:53 | with no unique index, one record per (guild, member, username, question, day) holds only because a record is inserted when its key has none |
| DailySubmission.HasDailyRecordGrows | modules/apiUtils.js:109-121 | a record of the day, once stored, is found by every later existence check |
| DailySubmission.WriteTimeStreakPreservesPositive | modules/models/DailySubmission.js:74 | inserting a completed record keeps every stored completed streak at least 1 |
| DailySubmission.WriteTimeStreakContinues | modules/models/DailySubmission.js:62-74 | when yesterday's completed records of the member carry streak `p`, the new streak is `p + 1` |
| DailySubmission.WriteTimeStreakIgnoresCaller | modules/models/DailySubmission.js:56-77 | the streak a caller supplies does not affect the streak the hook assigns |
| DailySubmission.Store.PreSave | modules/models/DailySubmission.js:56-77 | a new completed document gets one more than the streak of some completed record of the member dated the day before, or 1; any other save keeps its streak |
| DailySubmission.Store.Create | modules/models/DailySubmission.js:3-79 | an invalid draft stores nothing; a valid one appends exactly the validated record with the hook's streak, keeping streaks positive |
| StatsUtils.Latest | modules/statsUtils.js:10-14 | no result iff the member has no completed record; otherwise a completed record of the member with the latest date |
| StatsUtils.CalculateStreak | modules/statsUtils.js:9-32 | a non-zero streak is the stored streak of the member's latest completed record, dated today or yesterday |
| StatsUtils.StreakWithoutRecordIsZero | modules/statsUtils.js:16-18 | without a completed record of the member, the streak is 0 |
| StatsUtils.StreakOfStaleRecordIsZero | modules/statsUtils.js:20-29 | when the latest completion is dated before yesterday, the streak reads as 0 |
| StatsUtils.StreakOfRecentRecordIsStored | modules/statsUtils.js:20-31 | when the latest completion is dated today or yesterday, its stored streak is returned |
| StatsUtils.WindowStart | modules/statsUtils.js:42-45 | the window starts at now's time of day, seven days back for "weekly" and on the supplied day one month back otherwise |
| StatsUtils.FindInWindow | modules/statsUtils.js:47-52 | the query returns exactly the member's completed records dated at or after the window start |
| StatsUtils.FindInWindowCounts | modules/statsUtils.js:47-52 | each matching record is returned as often as it is stored, any other never |
| StatsUtils.CalculateCompletionRates | modules/statsUtils.js:41-58 | `period` is echoed and `total` counts the records of the window query |
| StatsUtils.CompletionCountAppend | modules/statsUtils.js:47-57 | a new record raises the count by one exactly when it is a completion of the member inside the window |
| StatsUtils.WeeklyWindowBoundary | modules/statsUtils.js:42-50 | the weekly window, starting seven days before now at now's time of day, includes the last six days and excludes earlier days; a completion dated seven days ago counts only at midnight |
| StatsUtils.Eligible | modules/statsUtils.js:72-78 | the filter keeps exactly the guild's completed records dated since yesterday with a positive streak |
| StatsUtils.EligibleCounts | modules/statsUtils.js:72-78 | each qualifying record is kept as often as it is stored, any other never |
| StatsUtils.InsertByRank | modules/statsUtils.js:79 | inserting into a sequence sorted by streak then date gives a sorted permutation with one more element |
| StatsUtils.SortForBoard | modules/statsUtils.js:79 | the sort gives a permutation ordered by streak, then date, both descending |
| StatsUtils.GenerateLeaderboard | modules/statsUtils.js:65-87 | at most ten entries, as many as the eligible records up to ten, ranked 1..n, each from an eligible record, streaks non-increasing; the board is the ranking of the cut sorted records, whose order and optimality `TopRecordsOrdered` and `TopRecordsAreTheBest` state |
| StatsUtils.RankEntries | modules/statsUtils.js:82-86 | entry `i` is ranked `i + 1` and carries record `i`'s member and streak |
| StatsUtils.TopRecordsOrdered | modules/statsUtils.js:72-79 | the leaderboard's records are eligible records, sorted by streak then date |
| StatsUtils.TopRecordsAreTheBest | modules/statsUtils.js:79 | an eligible record left off the board ranks no higher than the tenth |
| StatsUtils.MemberCanAppearTwice | modules/statsUtils.js:72-86 | a member with completions today and yesterday holds two places |
| GuildModel.UserIdOf | modules/scheduledTasks.js:140 | the stored member id is the Discord id when set, else the username |
| GuildModel.MentionOf | modules/scheduledTasks.js:166 | the mention is `<@id>` when an id is set, else the username |
| ApiUtils.FindAccepted | modules/apiUtils.js:95-98 | no result iff no accepted submission of the slug; otherwise the first one |
| ApiUtils.CheckUser | modules/apiUtils.js:31-40 | the call succeeds iff a list came back, and is true iff it holds an accepted submission of the slug |
| ApiUtils.CheckUserAgreesWithFind | modules/apiUtils.js:35 | `checkUser`'s `some` test and the report's `find` test (modules/apiUtils.js:95-98) agree on every list |
| ApiUtils.SolveDraft | modules/apiUtils.js:123-134 | the schema accepts the solve draft iff the ids, username, slug and title are non-empty and the difficulty is known; the record it then gives is a completed record of that member, question and day with the resolved time and the problem's title |
| ApiUtils.RecordIfAbsent | modules/apiUtils.js:109-135 | the submission time is the one the program's resolver gives; with a record of the day nothing is written; otherwise either the schema refuses and nothing is written, or exactly one record of the day is appended; the store only grows, at most one record per day and positive streaks are kept |
| ApiUtils.RecordIfSolved | modules/apiUtils.js:100-139 | nothing is written unless the feed lists a solve; every record written is of this member and day; a recordable solve leaves a record of the day |
| ApiUtils.ReportUserId | modules/apiUtils.js:106 | the member id is the fetched member's id when there is one, else the username |
| ApiUtils.OrElse | modules/apiUtils.js:83-86 | `value \|\| fallback` gives the value when truthy, else the fallback |
| ApiUtils.ProblemField | modules/apiUtils.js:81-87 | the field "Problem Info", not inline, starts with the bold title and the difficulty (or their fallbacks) and "Topics: ", and ends with the acceptance rate and the problem link (fallback "N/A") |
| ApiUtils.StatusFields | modules/apiUtils.js:93-146 | one inline field per member, in input order, named after the member, "✅ Completed" iff an accepted submission of the slug is listed, else "❌ Not completed" |
| ApiUtils.StatusReply | modules/apiUtils.js:72-159 | the reply is the error content iff the slug or the problem request failed, or some member's request failed or returned no body; otherwise the titled embed with the problem field first and the status fields after it |
| ApiUtils.StatusAgreesWithCheckUser | modules/apiUtils.js:93-146 | each member's status field, built from the report's `find`, is what `checkUser` says for the same list |
| ApiUtils.AllFetchedStep | modules/apiUtils.js:93-158 | the first `i + 1` members all have a list iff the first `i` do and member `i` does |
| ApiUtils.StatusFieldsStep | modules/apiUtils.js:93-146 | one more fetched member appends exactly that member's status field |
| ApiUtils.RecordMember | modules/apiUtils.js:100-139 | one member's turn of the loop: the store only grows, keeps one record per day and positive streaks, every record written is of a member so far, and a recordable solver now has a record |
| ApiUtils.OneFailedFetchFailsReport | modules/apiUtils.js:156-158 | one member whose request fails turns the whole reply into "Error checking challenge status." |
| ApiUtils.EnhancedCheck | modules/apiUtils.js:70-160 | the reply, built in the member loop, equals the report function whatever the writes do; when the slug, the problem or the channel lookup fails the store is unchanged; every new record is a solver's of the day; every recordable solver has a record of the day; at most one record per day and positive streaks are kept |
| ScheduledTasks.JobKey | modules/scheduledTasks.js:61 | a key is as long as the guild id, a dash and the schedule together |
| ScheduledTasks.JobKeyLayout | modules/scheduledTasks.js:61 | a key starts with the guild id and a dash, and the rest of it is the schedule |
| ScheduledTasks.ScheduleKeysMembers | modules/scheduledTasks.js:48-52 | a key is armed for a guild iff one of its `runCheck` entries gives it |
| ScheduledTasks.AllScheduleKeysMembers | modules/scheduledTasks.js:44-53 | a key is armed at start-up iff some guild's entries give it |
| ScheduledTasks.ReconcileIdempotent | modules/scheduledTasks.js:222-235 | reconciling twice gives the keys of reconciling once, for any prefix of `guildId-` |
| ScheduledTasks.ReloadIdempotent | modules/scheduledTasks.js:213-239 | `updateGuildCronJobs` twice with the same configuration gives the key set of once, both as written and scoped |
| ScheduledTasks.PrefixClashDropsOtherGuild | modules/scheduledTasks.js:222-223 | as written, reloading guild "12" drops the job "123-0 9 * * *" of guild "123"; the scoped reload keeps it |
| ScheduledTasks.ScopedReloadKeepsOtherGuilds | modules/scheduledTasks.js:222-223 | with the corrected prefix, the job keys of every other guild (ids without `-`) are kept or absent as before |
| ScheduledTasks.ScopedReloadSetsGuildKeys | modules/scheduledTasks.js:222-235 | after the corrected reload the guild's keys are exactly those its `runCheck` entries give |
| ScheduledTasks.StopKeepsTableValid | modules/scheduledTasks.js:64-67 | stopping a registered job and deleting its key leaves no armed job running without a key |
| ScheduledTasks.ArmKeepsTableValid | modules/scheduledTasks.js:210 | storing a new job with the next handle under a free key leaves no armed job running without a key and no handle shared |
| ScheduledTasks.CronRegistry.StopJob | modules/scheduledTasks.js:64-67 | the key is removed and its handle is stopped; nothing else changes |
| ScheduledTasks.CronRegistry.ArmJob | modules/scheduledTasks.js:210 | a new handle is stored under the key; nothing else changes |
| ScheduledTasks.CronRegistry.ScheduleDailyCheck | modules/scheduledTasks.js:60-211 | exactly one new job under `guildId-schedule`; a previous job under that key is stopped; every other key is unchanged |
| ScheduledTasks.CronRegistry.ArmEntry | modules/scheduledTasks.js:231-235 | a `runCheck` entry adds its key with a fresh handle for the guild; any other entry leaves the jobs, the stopped handles and the counter as they were |
| ScheduledTasks.CronRegistry.ArmSchedules | modules/scheduledTasks.js:231-235 | the keys become the old keys plus the guild's `runCheck` keys; those hold fresh jobs of the guild, the others are unchanged |
| ScheduledTasks.CronRegistry.StopDoomed | modules/scheduledTasks.js:225-228 | one key selected for deletion is stopped and deleted |
| ScheduledTasks.CronRegistry.StopKeysWithPrefix | modules/scheduledTasks.js:222-228 | exactly the keys starting with the prefix are stopped and removed; the remaining jobs are unchanged |
| ScheduledTasks.CronRegistry.UpdateGuildCronJobsAsWritten | modules/scheduledTasks.js:213-239 | a missing guild changes nothing; otherwise the keys are those not starting with the bare guild id plus the guild's `runCheck` keys |
| ScheduledTasks.CronRegistry.UpdateGuildCronJobs | modules/scheduledTasks.js:213-239 | the corrected reload: the keys are those not starting with `guildId-` plus the guild's `runCheck` keys; a missing guild changes nothing |
| ScheduledTasks.GuildsArmedStep | modules/scheduledTasks.js:46-52 | arming one more guild's keys with fresh jobs of that guild extends the start-up invariant by that guild |
| ScheduledTasks.CronRegistry.ArmGuild | modules/scheduledTasks.js:46-52 | one guild of the start-up loop: its `runCheck` keys join the table with fresh jobs of that guild, other keys keep their jobs, stopped handles stay stopped |
| ScheduledTasks.CronRegistry.InitializeScheduledTasks | modules/scheduledTasks.js:40-58 | a failed query arms nothing; otherwise every guild's `runCheck` keys are added, each holding a fresh job of a queried guild, every other key keeps its job, and stopped handles stay stopped |
| ScheduledTasks.Classify | modules/scheduledTasks.js:126-176 | skipped iff the request failed; completed iff an accepted submission of the slug is listed; incomplete iff the body was empty or held none |
| ScheduledTasks.IncompleteMentions | modules/scheduledTasks.js:128-177 | at most one mention per tracked member |
| ScheduledTasks.IncompleteMentionsMembers | modules/scheduledTasks.js:165-172 | a mention is listed iff it is the mention of a tracked member classified incomplete |
| ScheduledTasks.IncompleteMentionsAppend | modules/scheduledTasks.js:126-172 | the list of a concatenation is the concatenation of the lists: tracked-user order is kept |
| ScheduledTasks.FailedFetchIsolated | modules/scheduledTasks.js:174-176 | a member whose request fails changes nothing in the others' reminder list |
| ScheduledTasks.ReminderMessage | modules/scheduledTasks.js:180-182 | no message iff nobody is incomplete; a message starts with the warning sign and ends with the reminder line, with the joined mentions between; for one member it is exactly the sign, the mention and the line |
| ScheduledTasks.ReminderMentionsEveryone | modules/scheduledTasks.js:182 | every incomplete member's mention occurs in the message, in list order, at its place in the joined list |
| ScheduledTasks.ReminderSeparatesMentions | modules/scheduledTasks.js:182 | each two neighbouring mentions are separated by ", " |
| Common.JoinPartAt | modules/scheduledTasks.js:182 | `join` puts part `i` at its offset: the parts before it, each followed by the separator |
| Common.JoinSepAt | modules/scheduledTasks.js:182 | `join` puts the separator right after every part but the last |
| Common.JoinLength | modules/scheduledTasks.js:182 | the joined text ends right after the last part |
| ScheduledTasks.CheckMembers | modules/scheduledTasks.js:122-177 | the mentions pushed are the incomplete members' in order; every new record is a solver's of the day; every recordable solver has one; at most one record per day and positive streaks are kept |
| ScheduledTasks.RunScheduledCheck | modules/scheduledTasks.js:69-208 | the early exits in order (guild, channel, permission, no users, slug, difficulty) write nothing; past them the outcome is the list of incomplete mentions with the store facts of the member loop |
| InteractionHandler.ParseCommand | modules/interactionHandler.js:22-55 | a recognised name maps to the command of that name |
| InteractionHandler.CommandNamesRoundTrip | modules/interactionHandler.js:22-52 | every command's name reaches that command's case |
| InteractionHandler.HandleInteraction | modules/interactionHandler.js:7-63 | non-commands are ignored; without a guild id the server-only reply; a known name in a server is handled by its command; any other name gets "Unknown command." |
| InteractionHandler.CommandInServerIsHandled | modules/interactionHandler.js:15-52 | every command typed in a server reaches its handler |
| InteractionHandler.AddUserGate | modules/interactionHandler.js:76-101 | `addUser` is called iff the caller has Manage Roles or Administrator, names themself, or names nobody and gives their own username up to case; each refusal carries its message |
| InteractionHandler.AddUserGateIgnoresCase | modules/interactionHandler.js:92 | a username and its lower-cased form pass or fail the name test alike |
| InteractionHandler.FindTracked | modules/interactionHandler.js:112 | no result iff the username is untracked; otherwise its first entry |
| InteractionHandler.RemoveUserGate | modules/interactionHandler.js:103-123 | `removeUser` is called iff the caller has the permission or the username is tracked and mapped to the caller's id |
| InteractionHandler.RemoveOthersRefused | modules/interactionHandler.js:110-117 | without the permission, a username untracked or mapped to someone else is refused |
| InteractionHandler.RemoveSelfAllowed | modules/interactionHandler.js:110-122 | a member's own mapped entry may be removed |
| InteractionHandler.UserLineMentionsIffMapped | modules/interactionHandler.js:128-132 | a user is listed with a mention iff it has a Discord id |
| InteractionHandler.UserListNonEmpty | modules/interactionHandler.js:127-133 | a non-empty user list joins to a non-empty text |
| InteractionHandler.ListUsersReply | modules/interactionHandler.js:125-140 | the empty-list reply iff nobody is tracked; otherwise the header and one line per user |
| InteractionHandler.ManageCronPlan | modules/interactionHandler.js:184-222 | without Manage Channels only the refusal; `add` and `remove` persist, reply, then reload the guild's jobs; `list` only replies |
| InteractionHandler.ReloadFollowsPersist | modules/interactionHandler.js:194-210 | every reload of the guild's jobs comes after a configuration change |

## Left out

- HTTP requests (`getDailySlug`, `getUserSubmissions`, the problem-details request): they are inputs of the model, as success or failure.
- Parsing of the problem's `stats` JSON (modules/apiUtils.js:78): the acceptance rate arrives already parsed.
- Discord I/O is out of the model: channel and member fetches, `fetchMe`, `permissionsFor`, sending the reminder, the owner DMs, and the classification of send-error codes (modules/scheduledTasks.js:77-100, 180-204). The channel lookup and the send permission become booleans, and the reminder text is a function (`ReminderMessage`).
- Embed colour and timestamp, and the `botinfo`, `check`, `streak`, `leaderboard` and `stats` handlers: these handlers only render or forward the functions modelled here.
- `handleSetChannel` (modules/interactionHandler.js:142-182): its three gates (the caller's Manage Channels permission, a text channel, and the bot's SendMessages, ViewChannel and EmbedLinks permissions in that channel) are Discord permission and channel lookups, and its writes (`initializeGuildConfig`, `updateGuildChannel`) go to the configuration manager. Both are outside the model, so the handler is not modelled.
- The generic "An error occurred while processing your command." reply (modules/interactionHandler.js:56-62): it depends on whether Discord already replied.
- node-cron: firing times, overlapping runs and the parsing of the cron expression. A schedule is an opaque string, and a fired job is one call of `RunScheduledCheck`.
- The configuration manager (`addUser`, `removeUser`, `addCronJob`, `removeCronJob`, `listCronJobs`) and the Guild model are not part of this model. Their calls appear as named steps or decisions, and a guild's configuration is a value.
- modules/commandRegistration.js: only its hour 0-23 and minute 0-59 bounds are used, as the precondition `TimeInRange` of `ManageCronPlan`.
- The Mongo query engine: the store is a sequence. A query result that has no defined order or choice is modelled as in the lines below.
- Errors of the database itself (lost connections, timeouts) are not modelled. Only a refused draft makes `create` fail.
- Calendar and time-zone arithmetic: records carry day numbers, and "one month ago" is an input (`monthAgo`).
- Numeric `timestamp` values: a submission's timestamp is modelled as a string or absent.
- Key order of `Object.entries` on integer-like usernames: users are kept in the order of the configuration.
- The logger.
- StatsUtils.Latest: among completed records with the same latest date it picks the first stored one. Mongo leaves that choice open, so `StreakOfRecentRecordIsStored` assumes those records agree on the streak.
- StatsUtils.SortForBoard: records that tie on both streak and date keep store order. Mongo does not define that order.
- DailySubmission.Store.PreSave: the unsorted `findOne` of the hook is a nondeterministic choice. Its contract allows any matching record.
- ApiUtils.EnhancedCheck: the `Promise.all` callbacks are run one after another in input order. Interleavings of their writes are not modelled.
- ApiUtils.EnhancedCheck: one channel-lookup result (`channelGuild`) stands for every solver's lookup. In the program each solver calls `client.channels.fetch(channelId)` inside its own `try` (modules/apiUtils.js:103-104), so one lookup could fail while another succeeds. The model cannot express that mix.
- InteractionHandler.AddUserGate: `toLowerCase` is modelled on ASCII letters only.
- SubmissionTime.ParseSubmissionTime: `new Date(string)` is the parameter `parseDate`. Only the `Date` range check (TimeClip) after it is modelled.

## Findings

| source | as written | input that shows it | evidently intended | confidence | as-written member | corrected member |
|---|---|---|---|---|---|---|
| modules/scheduledTasks.js:18-24 | `parseInt(submission.timestamp)` is tried first and accepts any string that starts with digits | timestamp "2024-01-15T10:00:00Z": `parseInt` gives 2024, which is read as seconds, so the result is 2024000 ms (January 1970) | a calendar string reaches the ISO branch, as the comment at line 27 says | medium, not executed | SubmissionTime.IsoStringReadAsSeconds | SubmissionTime.ParseSubmissionTimeStrict |
| modules/scheduledTasks.js:222-223 | `key.startsWith(guildId)` selects the keys to stop | reloading guild "12" while guild "123" has the job "123-0 9 * * *" stops that job, and nothing re-arms it | only this guild's keys, `startsWith(guildId + '-')` | high, not executed | ScheduledTasks.CronRegistry.UpdateGuildCronJobsAsWritten | ScheduledTasks.CronRegistry.UpdateGuildCronJobs |

For the first row:

- `SubmissionTime.IsoStringReadAsSeconds` exhibits the discrepancy.
- The corrected resolver takes the integer path only for all-digit strings. It is proved equal to the one as written on those strings (`StrictAgreesOnDigitStrings`).
- It is proved to hand every other string to the date-string parse (`StrictParsesCalendarStrings`).
- The write path uses the resolver as written, as the program does. The corrected resolver stands beside it and is not wired in.

For the second row:

- `ScheduledTasks.PrefixClashDropsOtherGuild` exhibits the discrepancy.
- The corrected reload is proved to keep every other guild's keys (`ScopedReloadKeepsOtherGuilds`).
- It is proved to give exactly this guild's configured keys (`ScopedReloadSetsGuildKeys`).
