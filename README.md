# Arabic course bot: moderation, reminders and small stores, in Dafny

This project models the rule-carrying core of a Telegram course bot that exists in
several overlapping implementations, some in JavaScript and some in Python. The core:

- registers students and moderates them: six-digit subscription codes, a
  permission hierarchy, warnings that auto-mute at a threshold, explicit mute and
  unmute, and a periodic sweep that lifts expired mutes;
- decides when session reminders fire and to whom, and counts the deliveries;
- computes weekly time slots: cron slots for reminders, "one hour before" jobs and
  the next session's date;
- keeps small stores: the assignment list, the user registry and the conversation
  state map with its time-to-live;
- parses the `/add title | type | deadline` command;
- gates chat events in the Python middlewares: the mute gate, the admin-command
  prefix check, the spam filter and a sliding-window rate limiter;
- keeps the Python users table with its lazily unmuting `is_muted`;
- parses the settings validators and builds the schedule command's text.

How the model is built:

- **Time.** Time is an integer passed in as `now`:
  - milliseconds on the JavaScript side;
  - microseconds for `datetime` in `database.py`;
  - whole seconds for `event.date` in the middlewares.
- **Stores are class fields.** Each store the source mutates is a field of a
  class, and its methods reassign it and count the file writes:
  - the users file (`UserManagement.UserStore`);
  - the assignments file (`AssignmentService.AssignmentStore`);
  - the user registry (`UserService.UserRegistry`);
  - the state map (`Helpers.ConversationStates`);
  - the users and messages tables (`BotDatabase.Database`);
  - the rate limiter's lists (`Middleware.RateLimiter`);
  - the APScheduler job store (`ClassScheduler.JobScheduler`);
  - the messages file (`ReminderScheduler.MessagesFile`).
- **Outside effects are parameters.**
  - Message sending is an oracle `fails(id)`.
  - A failing file write is a flag in `UserManagement.UserStore.RegisterUser`; other writes succeed.
  - Date parsing is a function parameter.
  - Each cron or interval tick is one method call.
- **Messages keep structure, not text.** Arabic message texts are modelled as
  structured values (lines, blocks, replies) rather than character strings.

Behaviours of the code worth noting:

- **Warnings and mutes**
  - A warning at or past the threshold restarts the mute window, both in
    `services/userManagement.js` and in `database.py`.
  - `isUserActive` is a pure read that never clears an expired mute.
  - The JavaScript sweep counts `muteUntil <= now` as expired, while Python's
    `is_muted` needs `now > mute_until`. `BotDatabase.MuteBoundaryDiffersFromUserManagement`
    states the disagreement at the boundary instant.
  - The JavaScript sweep and `unmuteUser` set the status to active whatever it
    was, so an expired mute also lifts a ban.
- **Reminders and weekly slots**
  - `reminderScheduler.js` counts a delivered reminder as failed too when the
    activity update after it throws. `sentCount + failedCount` is then larger than
    the number of recipients (`ReminderScheduler.SendSessionReminder`,
    `ReminderScheduler.CountsAddUp`).
  - `reminderScheduler.js` imports `getUsersWithReminders` and
    `updateUserActivity` by name from `bot/services/userService.js`
    (reminderScheduler.js:4), which does not export them. As shipped, the
    module therefore fails to load, and so does `index.js`, which imports
    `startReminderScheduler` from it. The `ReminderScheduler` members model the
    module as if `userService.js` provided the missing functions.
  - The cron reminder slot in `reminderScheduler.js` keeps the session's own
    weekday when the lead crosses midnight.
  - An unknown day name counts as Sunday.
  - `get_next_session` returns the first enabled day in Monday-to-Sunday order,
    not the soonest one. It reports a session on today's weekday as seven days
    away, even when its hour is still ahead.
  - `schedule_class_reminders` accepts hours outside 0..23 that still give a
    valid cron hour ("-5:30", "24:00").
- **Python stores and middlewares**
  - `add_warning` on an unknown id raises TypeError (it indexes `None`).
  - `verify_user` answers True for any configured code, even when no row exists.
  - The rate limiter stores the pruned list even when it rejects a message.
  - A sender id of 0 is falsy and skips the mute gate.

## Model

| member | source | states |
|---|---|---|
| UserManagement.DefaultConfig | config/arabic-config.js:31-32 | the moderation defaults are three warnings and thirty minutes of mute |
| UserManagement.ValidateSubscriptionCode | services/userManagement.js:69-73 | a code is valid exactly when it is six ASCII digits |
| UserManagement.DigitRun | services/userManagement.js:69-73 | `^\d{n}$` holds exactly for strings of length n made of digits |
| UserManagement.CheckUserPermission | services/userManagement.js:193-204 | only a present user of a listed type can pass, and only for a listed required type; an admin passes every listed requirement; every listed type passes the pending level; a pending user passes nothing above it |
| UserManagement.PermissionFollowsHierarchy | services/userManagement.js:193-204 | a user passes exactly when its type's level in admin > moderator > student > pending is at least the required one's |
| UserManagement.PermissionRefusals | services/userManagement.js:193-204 | a null user, a user of an unlisted type, and an unlisted required type are always refused |
| UserManagement.ClassifyNewUser | services/userManagement.js:94-125 | admins are active admins before any code check; without verification a new user is an active student; with it, no code gives pending, a code that is not six digits is rejected, the configured code gives an active student, any other six-digit code gives pending |
| UserManagement.ActiveStudentNeedsConfiguredCode | services/userManagement.js:99-125 | with verification required, a non-admin becomes an active student if and only if they give the configured six-digit code |
| UserManagement.NewUser | services/userManagement.js:128-152 | a new record has the given type and status, no warnings, zero warning count, no mute, reminders on, and is registered and seen now |
| UserManagement.Warn | services/userManagement.js:228-255 | exactly one active warning is appended; the stats count equals the active count; at or above the threshold the user is muted until now plus the mute length, below it the status and mute end are kept |
| UserManagement.WarningReport | services/userManagement.js:266-273 | the reported count is the active count, remaining warnings is max(0, threshold − count), and muted holds exactly at or above the threshold |
| UserManagement.EachWarningRestartsMute | services/userManagement.js:247-255 | past the threshold, each further warning moves the mute end to its own time plus the mute length, strictly later than before |
| UserManagement.Mute | services/userManagement.js:291-295 | the status becomes muted and the mute end now plus the duration, whatever the previous mute; warnings and type are kept |
| UserManagement.Unmute | services/userManagement.js:328-329 | the mute end is cleared and the status becomes active, whatever it was |
| UserManagement.UnmuteIdempotent | services/userManagement.js:291-329 | unmuting twice equals unmuting once, and mute-then-unmute equals unmute |
| UserManagement.IsUserActive | services/userManagement.js:207-216 | active implies a record whose status is active; a mute end still ahead makes the user inactive |
| UserManagement.ExpiredMuteStillInactive | services/userManagement.js:207-216 | a muted user whose mute end has passed stays inactive until the sweep runs |
| UserManagement.SweepUser | services/userManagement.js:404-416 | a record whose mute end is at or before now is unmuted; any other record is unchanged |
| UserManagement.SweepRestoresActivity | services/userManagement.js:404-416 | after the sweep, a user whose mute had expired is active at every later time |
| UserManagement.SweepLiftsBanWithExpiredMute | services/userManagement.js:404-416 | a banned user whose mute end has passed comes back active after the sweep |
| UserManagement.ActiveOnceExpiredAndSwept | services/userManagement.js:207-216 | an expired mute reads as inactive before the sweep and as active right after it |
| UserManagement.GetActiveUsers | services/userManagement.js:349-357 | the result holds only users isUserActive accepts, and every such user of the file is in it |
| UserManagement.SweepAll | services/userManagement.js:404-416 | the sweep maps every record through SweepUser and keeps the length |
| UserManagement.SweepExpired | services/userManagement.js:404-416 | the loop produces SweepUser of every record, and its `updated` flag holds exactly when some record's mute had expired |
| UserManagement.IndexOfUser | services/userManagement.js:222-224 | the index found is the first record with the id; None exactly when no record has it |
| UserManagement.UserStore.constructor | services/userManagement.js:22-66 | a store over a given file with no writes yet |
| UserManagement.UserStore.RegisterUser | services/userManagement.js:76-179 | a returning user gets a new lastSeen; a new user is appended as ClassifyNewUser decides; a rejected code or a failed write appends nothing; the file is written only on success |
| UserManagement.UserStore.AddWarning | services/userManagement.js:219-279 | an unknown id changes nothing and writes nothing; a known one is replaced by Warn of it, the file is written once, and the WarningReport is returned |
| UserManagement.UserStore.MuteUser | services/userManagement.js:282-316 | an unknown id changes nothing; a known one is replaced by Mute of it and the mute end is returned |
| UserManagement.UserStore.UnmuteUser | services/userManagement.js:319-346 | an unknown id changes nothing; a known one of any status is replaced by Unmute of it |
| UserManagement.UserStore.CheckMuteExpirations | services/userManagement.js:399-420 | the file becomes SweepAll of it, and it is written once exactly when some mute had expired |
| SchedulingService.GetDayNameInArabic | services/schedulingService.js:326-338 | the seven English day names map to their Arabic names; any other input is returned unchanged |
| SchedulingService.GetTodaySchedule | services/schedulingService.js:115-136 | the regular sessions are the weekday's (empty when the day is missing); the special events are exactly those dated today; a schedule whose lookup throws gives the empty fallback |
| SchedulingService.ClockOf | services/schedulingService.js:275-276 | a time without a colon gives no clock, so its session never fires |
| SchedulingService.ClockOfDigits | services/schedulingService.js:275-276 | two digit runs around a colon read as their decimal values |
| SchedulingService.StartToday | services/schedulingService.js:274-276 | the start lies the clock's minutes after midnight; a clock within the day lands within today |
| SchedulingService.RoundedMinutes | services/schedulingService.js:278-279 | Math.round of the millisecond difference over a minute is the whole minute within half a minute of it |
| SchedulingService.LeadAt | services/schedulingService.js:278-284 | a reminder fires exactly when the rounded minute difference is 60, 15 or 5, and the difference then lies within half a minute of it |
| SchedulingService.LeadOf | services/schedulingService.js:274-284 | a session whose time does not parse never fires; a fired reminder is one of 60, 15 and 5 minutes, and the session starts within half a minute of that many minutes after now |
| SchedulingService.LeadFiresOncePerWindow | services/schedulingService.js:278-284 | two ticks a minute or more apart never fire the same reminder for one session |
| SchedulingService.WholeMinuteTicks | services/schedulingService.js:274-284 | for whole-minute ticks, a session is announced exactly at 60, 15 and 5 minutes before |
| SchedulingService.ClockOfEightPm | services/schedulingService.js:275-276 | "20:00" is read as hour 20, minute 0 |
| SchedulingService.EightPmScenario | services/schedulingService.js:274-284 | a 20:00 session gets reminders at 19:00, 19:45 and 19:55 and none at 19:30 |
| SchedulingService.Ids | services/schedulingService.js:155-158 | the ids of the users, position by position |
| SchedulingService.Broadcast | services/schedulingService.js:155-164 | sends go to exactly the users with reminders on, in order; a failure does not stop the loop; the success count is the number of deliveries and at most the number of sends |
| SchedulingService.BroadcastStep | services/schedulingService.js:155-164 | one more user adds a send exactly when their reminders are on, and a success exactly when it is delivered |
| SchedulingService.ReminderMessageOf | services/schedulingService.js:148-151 | the reminder carries the session's link when it is truthy, and the "link soon" placeholder otherwise |
| SchedulingService.SendSessionReminder | services/schedulingService.js:139-170 | nothing is sent exactly when there are no active users; otherwise the active users with reminders on are sent to and the successes counted |
| SchedulingService.RemindedUsersAreActive | services/schedulingService.js:141-158 | every reminder recipient is an active user with reminders on |
| SchedulingService.SendDailySchedule | services/schedulingService.js:173-231 | nothing is sent exactly when today has neither regular nor special sessions; otherwise every active user with reminders on is sent the day's sessions and the successes counted |
| SchedulingService.CheckUpcomingSessions | services/schedulingService.js:267-289 | one tick announces every session among today's regular then special sessions whose lead is due, once each, in session order, and nothing else; each fired reminder is skipped iff no user is active, otherwise sent to exactly the active users with reminders on, its success count the deliveries the transport accepts |
| SchedulingService.BlockOf | services/schedulingService.js:88-94 | a session block has a link line exactly when the session's link is truthy |
| SchedulingService.DailyOf | services/schedulingService.js:81-98 | a missing or empty list gives the single no-sessions text; otherwise one block per session, numbered from 1, in input order |
| SchedulingService.FormatDailySchedule | services/schedulingService.js:81-98 | the loop builds exactly DailyOf of its inputs |
| SchedulingService.ListedDays | services/schedulingService.js:102-109 | the days listed are exactly those with a non-empty session list, in Sunday-to-Saturday order |
| SchedulingService.FormatWeeklySchedule | services/schedulingService.js:101-112 | the weekly text is the daily text of each listed day, in week order |
| SchedulingService.WeeklyListsOnlyDaysWithSessions | services/schedulingService.js:105-108 | no daily text in the weekly text is the no-sessions line |
| ReminderScheduler.GetDayNumber | bot/scheduler/reminderScheduler.js:315-326 | the seven Arabic day names map to 0 (Sunday) .. 6; any other name maps to 0 |
| ReminderScheduler.DayNumberOfTranslatedName | bot/scheduler/reminderScheduler.js:315-326 | translating an English day name and numbering it gives its place in the Sunday-first week |
| ReminderScheduler.UnknownDayIsSunday | bot/scheduler/reminderScheduler.js:315-326 | an unknown day name is scheduled like Sunday |
| ReminderScheduler.JsNumber | bot/scheduler/reminderScheduler.js:36-40 | a blank field is hour or minute 0; a field of decimal digits, with white space around it, is their value; a sign before the digits negates or keeps it |
| ReminderScheduler.JsNumberDropsFraction | bot/scheduler/reminderScheduler.js:36-40 | a numeral with a point sets the whole part: the fraction is truncated toward zero |
| ReminderScheduler.JsNumberExponent | bot/scheduler/reminderScheduler.js:36-40 | digits, an `e` and a decimal exponent give the digits' value times ten to that power |
| ReminderScheduler.JsNumberHex | bot/scheduler/reminderScheduler.js:36-40 | `0x` and hexadecimal digits give their hexadecimal value |
| ReminderScheduler.CronSlot | bot/scheduler/reminderScheduler.js:38-42 | the cron slot is a valid minute and hour, congruent modulo a day to the session time minus the lead |
| ReminderScheduler.JobOf | bot/scheduler/reminderScheduler.js:35-45 | a session's job runs on its own day number |
| ReminderScheduler.SlotNotShiftedAcrossMidnight | bot/scheduler/reminderScheduler.js:38-45 | when the lead crosses midnight, the job runs a day minus the lead after the session in the week, not before it |
| ReminderScheduler.SlotBeforeSessionSameDay | bot/scheduler/reminderScheduler.js:38-45 | when the lead stays within the day, the slot is exactly the lead before the session |
| ReminderScheduler.SundayHalfPastMidnight | bot/scheduler/reminderScheduler.js:38-45 | a 00:30 session with the default 60-minute lead is reminded at 23:30 |
| ReminderScheduler.ScheduleSessionReminders | bot/scheduler/reminderScheduler.js:32-60 | one job per session, in order; registration stops at the first session whose time or lead is not a number |
| ReminderScheduler.MessagesFile.constructor | bot/scheduler/reminderScheduler.js:9 | a messages file with the given contents and no writes yet |
| ReminderScheduler.MessagesFile.LogMessage | bot/scheduler/reminderScheduler.js:355-364 | exactly one entry dated now is appended, with one write |
| ReminderScheduler.MessagesFile.Write | bot/scheduler/reminderScheduler.js:228-229 | the file holds exactly the new contents, with one write |
| ReminderScheduler.SendSessionReminder | bot/scheduler/reminderScheduler.js:112-161 | no recipients means no send and no log; sentCount is the number of deliveries; sentCount + failedCount is the number of recipients plus those whose activity update threw after delivery; one log entry carries both counts |
| ReminderScheduler.CountsAddUp | bot/scheduler/reminderScheduler.js:125-150 | when the activity update never throws, every recipient is counted exactly once |
| ReminderScheduler.GetWeeklyRecommendations | bot/scheduler/reminderScheduler.js:333-353 | a line for no new users, for under half as many messages as users, and for under 70% active, in that order; "keep it up" is returned alone exactly when none holds; never empty |
| ReminderScheduler.WeeklyStatsOf | bot/scheduler/reminderScheduler.js:165-191 | the total is the number of verified users; the new and active counts are exactly the verified users who joined, or were active, strictly after a week ago; the weekly messages are exactly those dated strictly after a week ago; the recommendations follow from the counts |
| ReminderScheduler.NewUsersWeekBoundary | bot/scheduler/reminderScheduler.js:170-172 | a verified user who joined exactly seven days ago is not new, and one who joined a millisecond later is counted |
| ReminderScheduler.WeeklyMessagesWeekBoundary | bot/scheduler/reminderScheduler.js:170-173 | a message dated exactly seven days ago is not in the weekly count, and one a millisecond later is |
| ReminderScheduler.SendWeeklyStats | bot/scheduler/reminderScheduler.js:164-214 | one send is attempted per verified user who is an admin, in file order; a failure does not stop the loop; the deliveries are exactly the attempts the transport accepted |
| ReminderScheduler.SendEach | bot/scheduler/reminderScheduler.js:195-211 | every id gets one attempt, in order; a caught failure does not stop the loop; the delivered ids are exactly those whose send went through, in order |
| ReminderScheduler.WeeklyRecipients | bot/scheduler/reminderScheduler.js:193-197 | a user gets the report exactly when verified and either flagged admin or listed among the admin ids |
| ReminderScheduler.PerformDailyCleanup | bot/scheduler/reminderScheduler.js:217-253 | the messages dated strictly after thirty days ago are kept in order; the file is rewritten only when something was dropped; the cleanup is then logged; a failing verification cleanup skips everything |
| ReminderScheduler.CleanupRewritesIffStale | bot/scheduler/reminderScheduler.js:224-231 | the cleanup drops something exactly when some message is not newer than thirty days |
| ReminderScheduler.CheckNewUsers | bot/scheduler/reminderScheduler.js:256-312 | exactly the users who joined strictly within the hour without the welcome flag are welcomed; the flag is set only on the in-memory copy and only after delivery |
| ReminderScheduler.Ids | bot/scheduler/reminderScheduler.js:265-281 | the ids of the users, position by position |
| ReminderScheduler.HourlyTicksWelcomeOnce | bot/scheduler/reminderScheduler.js:259-263 | an hourly tick an hour or more later no longer selects the user |
| ReminderScheduler.RecheckWithinHourSelectsAgain | bot/scheduler/reminderScheduler.js:259-298 | because the flag is never saved, a tick within the hour selects the same user again |
| AssignmentService.IndexOfAssignment | bot/services/assignmentService.js:37-38 | the first assignment with the id, or None exactly when none has it |
| AssignmentService.Complete | bot/services/assignmentService.js:68-69 | the user is appended once to the completers, everything else kept |
| AssignmentService.CompleteKeepsNoDuplicates | bot/services/assignmentService.js:64-69 | appending a user not already present keeps the completers duplicate-free |
| AssignmentService.AssignmentStore.constructor | bot/services/assignmentService.js:3 | a store over a given file with no writes yet |
| AssignmentService.AssignmentStore.GetActiveAssignments | bot/services/assignmentService.js:11-19 | exactly the assignments whose deadline is ahead, each as often as the file holds it; their order is pinned by ActiveAfterAdd |
| AssignmentService.AssignmentStore.GetPendingTasks | bot/services/assignmentService.js:22-24 | the same list as the active assignments |
| AssignmentService.AssignmentStore.AddAssignment | bot/services/assignmentService.js:27-32 | the assignment is appended at the end, the others unchanged, with one write |
| AssignmentService.AssignmentStore.RemoveAssignment | bot/services/assignmentService.js:35-54 | an unknown id or a user who is not the creator changes nothing; otherwise exactly the first assignment with the id is taken out |
| AssignmentService.AssignmentStore.MarkAssignmentAsDone | bot/services/assignmentService.js:57-73 | an unknown id or a user already listed changes nothing; otherwise the user is appended once; completers stay duplicate-free |
| AssignmentService.RemoveKeepsOthers | bot/services/assignmentService.js:50-53 | removal takes out exactly one element: the multiset of the rest is kept |
| AssignmentService.ActiveAfterAdd | bot/services/assignmentService.js:11-32 | after an add, the active list gains the new assignment exactly when its deadline is ahead |
| UserService.UserRegistry.constructor | bot/services/userService.js:3 | a registry over a given file with no writes yet |
| UserService.UserRegistry.GetUserInfo | bot/services/userService.js:11-14 | the first record with the id, or undefined exactly when no record has it |
| UserService.UserRegistry.RegisterUser | bot/services/userService.js:17-33 | an id already present is refused with nothing changed; otherwise the record is appended with registeredAt set to now |
| UserService.UserRegistry.UpdateUser | bot/services/userService.js:36-48 | an unknown id changes nothing; otherwise the record at its index becomes the old one with the updates laid over it, everything else kept |
| UserService.MergeOverrides | bot/services/userService.js:44 | a merged field comes from the updates when named there, otherwise from the old record |
| UserService.RegisteredFields | bot/services/userService.js:25-28 | a registered record carries the caller's fields, with registeredAt overwritten to now |
| UserService.UpdateKeepsId | bot/services/userService.js:44 | an update that does not name the id keeps the record findable under the same id |
| UserService.RegisteredIsFound | bot/services/userService.js:11-28 | after a registration, looking the id up finds the stored record |
| Helpers.LookupState | bot/utils/helpers.js:16-26 | a state is returned exactly when the entry exists, is at most five minutes old and is not empty |
| Helpers.Swept | bot/utils/helpers.js:33-40 | the sweep keeps exactly the entries at most ten minutes old, unchanged |
| Helpers.SweepPreservesLookups | bot/utils/helpers.js:16-40 | the sweep changes no answer of getUserState |
| Helpers.LingeringEntryIsInvisible | bot/utils/helpers.js:16-40 | an entry between five and ten minutes old survives the sweep but is invisible to reads |
| Helpers.SetThenGet | bot/utils/helpers.js:9-26 | a non-empty state just set is read back for five minutes |
| Helpers.ConversationStates.constructor | bot/utils/helpers.js:2 | the map starts empty |
| Helpers.ConversationStates.SetUserState | bot/utils/helpers.js:9-14 | the user's entry becomes the state stamped now; others untouched |
| Helpers.ConversationStates.GetUserState | bot/utils/helpers.js:16-26 | the answer is LookupState; an expired entry is deleted by the read, nothing else changes |
| Helpers.ConversationStates.ClearUserState | bot/utils/helpers.js:28-30 | only the user's entry is removed |
| Helpers.ConversationStates.Sweep | bot/utils/helpers.js:33-40 | the map becomes Swept of it |
| Helpers.ReadsUnaffectedBySweep | bot/utils/helpers.js:16-40 | for every user, getUserState gives the same answer before and after the sweep |
| Helpers.IsAssignmentFormat | bot/utils/helpers.js:55-58 | the text has the format exactly when it holds two pipe characters or more |
| AddCommand.CommandArgs | bot/commands/add.js:5 | the arguments are the text after the first space, or nothing without a space |
| AddCommand.Fields | bot/commands/add.js:15 | there is one trimmed field per pipe-separated piece |
| AddCommand.ParseAdd | bot/commands/add.js:3-45 | empty arguments give the usage reply; fewer than three fields give the format reply; an unparseable deadline gives the date reply; otherwise the assignment has the first three fields, the sender as creator, no completers and the parsed deadline, and the id and creation time come from now |
| AddCommand.ArgsAfterCommand | bot/commands/add.js:5 | after a command word and one space, the arguments are the rest |
| AddCommand.FieldsOfJoin | bot/commands/add.js:15 | the fields of pieces joined by pipes are the trimmed pieces |
| AddCommand.WellFormedRequestAdds | bot/commands/add.js:15-36 | a request of three or more clean pieces with a parseable deadline adds the assignment of its first three, the extra pieces ignored |
| AddCommand.HandleAdd | bot/commands/add.js:3-50 | the command's decision is ParseAdd; the assignment is added exactly once when accepted, and nothing is added otherwise |
| BotDatabase.NewRow | database.py:157-166 | a new row is admin exactly when the id is configured, unverified, with no warnings and no mute |
| BotDatabase.Refreshed | database.py:149-153 | a returning user's names and activity are replaced and every other column is kept, is_admin included |
| BotDatabase.MuteSeconds | database.py:231 | a missing or zero duration gives MUTE_DURATION; any other duration is used as given |
| BotDatabase.MutedUntil | database.py:236-239 | the row is muted until the given time, other columns kept |
| BotDatabase.Unmuted | database.py:247-250 | the row is unmuted with no mute end, other columns kept |
| BotDatabase.Warned | database.py:211-224 | one more warning; at or past MAX_WARNINGS muted until now plus MUTE_DURATION seconds, below it the mute columns kept |
| BotDatabase.MutedAnswer | database.py:254-267 | a user is reported muted exactly when their row is muted and either has no end or now is not past the end |
| BotDatabase.AfterMuteCheck | database.py:254-267 | is_muted lifts a lapsed mute and changes nothing else |
| BotDatabase.Database.constructor | database.py:8-11 | an empty users table and message log over the configured admin ids and codes |
| BotDatabase.Database.RegisterUser | database.py:139-170 | a known id is refreshed and gets False; a new id is inserted as NewRow and gets True |
| BotDatabase.Database.VerifyUser | database.py:172-183 | True exactly for a configured code, which marks an existing row verified; any other code changes nothing |
| BotDatabase.Database.AddWarning | database.py:207-227 | an unknown id raises TypeError with nothing changed; a known row becomes Warned and the new count is returned |
| BotDatabase.Database.MuteUser | database.py:229-241 | the row is muted until now plus MuteSeconds of the duration, replacing any earlier end; always True |
| BotDatabase.Database.UnmuteUser | database.py:243-252 | the row is unmuted; always True |
| BotDatabase.Database.IsMuted | database.py:254-267 | the answer is MutedAnswer and the table becomes AfterMuteCheck |
| BotDatabase.Database.IsAdmin | database.py:197-200 | admin exactly when a row exists with is_admin set |
| BotDatabase.Database.LogMessage | database.py:269-277 | exactly one message row is appended |
| BotDatabase.UnmuteIdempotent | database.py:243-252 | unmuting twice leaves the row as unmuting once |
| BotDatabase.ThirdWarningMutes | database.py:211-224 | from a clean row the first two warnings do not mute and the third mutes for an hour from that warning |
| BotDatabase.LaterWarningRestartsMute | database.py:219-224 | every warning at or past the threshold moves the mute end to an hour after it |
| BotDatabase.MuteEndsStrictlyAfterItsEnd | database.py:261-265 | a mute still holds at its end instant and is lifted one microsecond later |
| BotDatabase.MuteBoundaryDiffersFromUserManagement | database.py:261-265 | at the instant a mute ends the Python table still reports it while the JavaScript sweep counts it expired |
| Middleware.UserVerification | middleware.py:17-33 | an event from a muted, truthy sender id is stopped with the notice for its kind; otherwise a text message is logged and the event passes |
| Middleware.AdminCommands | middleware.py:38-42 | no list or an empty one gives the five default commands; otherwise the given list |
| Middleware.AdminCheck.constructor | middleware.py:38-42 | the commands are AdminCommands of the argument |
| Middleware.AdminCheck.Check | middleware.py:44-59 | a text starting with '/' and a listed command stops exactly a non-admin sender, fails without a sender, and any other event passes |
| Middleware.PrefixMatchGatesLongerCommands | middleware.py:52-53 | /quizzes and /administrator are gated by prefix, /start is not |
| Middleware.MessageFilter | middleware.py:85-111 | commands pass unchecked; a matching text earns its sender one warning and is stopped with the count and the mute flag; other texts pass |
| Middleware.RateLimiter.constructor | middleware.py:116-119 | the limiter starts with no lists |
| Middleware.RateLimiter.Call | middleware.py:127-149 | the sender's list is pruned to the last minute; a full pruned list stops the message without recording it; otherwise its time is appended and it passes; no list grows past the limit; other users' lists untouched |
| Text.Trim | enhanced_telegram_bot/config/settings.py:110 | both ends of the result are clear of the language's white space, and a string already clear at both ends is unchanged |
| Text.JsParseIntLeadingDigits | services/schedulingService.js:276 | `parseInt` of a digit run followed by anything that is not a digit is the run's decimal value (a lone `0` before an `x` excepted, which selects hexadecimal) |
| Text.JsParseIntHex | services/schedulingService.js:276 | `parseInt` of `0x` and hexadecimal digits is their hexadecimal value |
| Text.PyIntOfDigits | enhanced_telegram_bot/config/settings.py:110 | `int()` of ASCII digits is their decimal value |
| Text.PyIntArabicIndic | enhanced_telegram_bot/config/settings.py:110 | `int()` reads Arabic-Indic digits as the ASCII digits they stand for |
| Text.PyIntUnderscore | enhanced_telegram_bot/config/settings.py:110 | `int()` skips a single underscore between two digit runs |
| Settings.StrippedItems | enhanced_telegram_bot/config/settings.py:116 | every item kept is non-blank |
| Settings.StrippedItemsClean | enhanced_telegram_bot/config/settings.py:116 | every item is stripped and holds no comma |
| Settings.ParseSubscriptionCodes | enhanced_telegram_bot/config/settings.py:113-117 | a string becomes its stripped non-blank comma-separated items; a list passes unchanged |
| Settings.IntsOf | enhanced_telegram_bot/config/settings.py:110 | every item is read by int() in turn, and one that is not an integer raises ValueError |
| Settings.ParseAdminIds | enhanced_telegram_bot/config/settings.py:107-111 | a string becomes the integers of its stripped non-blank items; a list passes unchanged |
| Settings.CodesRoundTrip | enhanced_telegram_bot/config/settings.py:113-117 | clean codes joined with commas are parsed back to the same list |
| Settings.AdminIdsRoundTrip | enhanced_telegram_bot/config/settings.py:107-111 | non-negative ids written with commas between them are parsed back to the same list |
| Settings.Lookup | enhanced_telegram_bot/config/settings.py:144 | the entry stored under the day name, or None exactly when there is none |
| Settings.Weekday | enhanced_telegram_bot/config/settings.py:149 | a weekday in 0..6 |
| Settings.WeekdayAfter | enhanced_telegram_bot/config/settings.py:149-153 | moving on some days moves the weekday on by as many, round the week |
| Settings.ParseClock | enhanced_telegram_bot/config/settings.py:146 | exactly one colon between two integers parses; anything else raises ValueError |
| Settings.ParseClockReadsBothSides | enhanced_telegram_bot/config/settings.py:146 | a parsed time is the two integers joined by one colon |
| Settings.DaysAhead | enhanced_telegram_bot/config/settings.py:149-151 | the offset lies in 1..7, lands on the target weekday, and is 7 exactly when the target is today |
| Settings.SessionOn | enhanced_telegram_bot/config/settings.py:149-154 | `replace` raises ValueError exactly for an hour outside 0..23 or a minute outside 0..59; otherwise the session is days_ahead days on, at that hour and minute, and falls on the target weekday |
| Settings.SessionAt | enhanced_telegram_bot/config/settings.py:145-161 | a session is given exactly when the time parses with hour in 0..23 and minute in 0..59, and is then the day and time given, days_ahead days on, with seconds and microseconds zeroed; any other time raises ValueError |
| Settings.ScanStep | enhanced_telegram_bot/config/settings.py:144-161 | the scan moves on exactly over a day that is missing or disabled; it raises KeyError exactly for a configured day without `enabled`, or enabled without `time`; ValueError exactly for an enabled day with an unreadable time; a session exactly for an enabled day with a readable time, which meets SessionFor |
| Settings.NextSessionFrom | enhanced_telegram_bot/config/settings.py:143-163 | None exactly when every remaining day is skipped; otherwise the session of the first day that is not skipped |
| Settings.GetNextSession | enhanced_telegram_bot/config/settings.py:125-163 | get_next_session is the scan from Monday |
| Settings.NextSessionOutcome | enhanced_telegram_bot/config/settings.py:143-163 | the first day the scan does not pass over decides the outcome, each case an iff: a session when it is enabled with a readable time, KeyError when a key is missing there, ValueError when its time is unreadable |
| Settings.FirstDayNotSoonest | enhanced_telegram_bot/config/settings.py:143-161 | on a Wednesday the default schedule gives Monday five days on, though Thursday is one day away |
| Settings.EightPm | enhanced_telegram_bot/config/settings.py:146 | "20:00" parses as hour 20, minute 0 |
| Settings.MondayFirst | enhanced_telegram_bot/config/settings.py:143-161 | when the first entry of the schedule is an enabled Monday with a readable time, that Monday is the next session, however near another enabled day is |
| Settings.TodayIsAWeekAway | enhanced_telegram_bot/config/settings.py:149-151 | a session on today's weekday is reported seven days on |
| ClassScheduler.DayNumber | enhanced_telegram_bot/scheduler/scheduler.py:47-57 | a known day name maps to its place Monday = 0 .. Sunday = 6; None for any other name |
| ClassScheduler.ReminderSlot | enhanced_telegram_bot/scheduler/scheduler.py:65-69 | the reminder is at hour − 1, or 23 when the hour is not positive; the minute is kept; only hour 0 moves the weekday back by one, modulo 7 |
| ClassScheduler.ReminderIsAnHourBefore | enhanced_telegram_bot/scheduler/scheduler.py:62-69 | for a valid class time, the reminder is exactly sixty minutes earlier in the weekly cycle |
| ClassScheduler.OddHoursStillScheduled | enhanced_telegram_bot/scheduler/scheduler.py:62-69 | "-5:30" and "24:00" are scheduled at 23:30 and 23:00 on the same weekday; Monday 00:15 goes to Sunday 23:15 |
| ClassScheduler.JobId | enhanced_telegram_bot/scheduler/scheduler.py:81 | the id is `class_reminder_` followed by the day name |
| ClassScheduler.JobIdInjective | enhanced_telegram_bot/scheduler/scheduler.py:81 | two days share an id exactly when they are the same day |
| ClassScheduler.ClassStep | enhanced_telegram_bot/scheduler/scheduler.py:42-83 | skipped exactly when the day is not enabled or not a known name; registered exactly when, besides, the time parses and the cron trigger accepts the slot; ValueError exactly when the time does not parse or the slot is refused; KeyError exactly for a missing time; a registered job sits under class_reminder_<day> at ReminderSlot of the parsed time |
| ClassScheduler.AfterClassReminders | enhanced_telegram_bot/scheduler/scheduler.py:42-83 | the pass never removes a job, and the only exceptions it raises are KeyError and ValueError |
| ClassScheduler.Writes | enhanced_telegram_bot/scheduler/scheduler.py:72-83 | every job written is a class reminder stored under its own day's id |
| ClassScheduler.WritesKeys | enhanced_telegram_bot/scheduler/scheduler.py:42-83 | a day's id is written exactly when some entry for that day registers |
| ClassScheduler.CompletePassHasNoAbort | enhanced_telegram_bot/scheduler/scheduler.py:42-83 | a pass that raises nothing met no entry that raises |
| ClassScheduler.CompletePassRemindsEnabledDays | enhanced_telegram_bot/scheduler/scheduler.py:42-83 | after a pass that raises nothing, a day has a reminder job exactly when it is a known weekday name with an enabled entry |
| ClassScheduler.CompletePassOverlays | enhanced_telegram_bot/scheduler/scheduler.py:72-83 | a pass that raises nothing lays its jobs over the store, replacing jobs with the same id and keeping the rest |
| ClassScheduler.ErrorIgnoresStore | enhanced_telegram_bot/scheduler/scheduler.py:42-83 | whether the pass raises depends only on the schedule |
| ClassScheduler.RescheduleIsIdempotent | enhanced_telegram_bot/scheduler/scheduler.py:72-83 | scheduling again replaces the jobs rather than duplicating them: the store is the same |
| ClassScheduler.CustomJobId | enhanced_telegram_bot/scheduler/scheduler.py:218 | the id is custom_reminder_ plus the time as YYYYmmdd_HHMMSS, 31 characters |
| ClassScheduler.SameSecondSameId | enhanced_telegram_bot/scheduler/scheduler.py:218-226 | two times in the same second share the id, so the later reminder replaces the earlier |
| ClassScheduler.DifferentSecondsDifferentIds | enhanced_telegram_bot/scheduler/scheduler.py:218 | valid times in different seconds get different ids |
| ClassScheduler.JobScheduler.constructor | enhanced_telegram_bot/scheduler/scheduler.py:19 | the job store starts empty |
| ClassScheduler.JobScheduler.ScheduleClassReminders | enhanced_telegram_bot/scheduler/scheduler.py:39-85 | the loop leaves the store and the exception that the per-day fold gives |
| ClassScheduler.JobScheduler.ScheduleCustomReminder | enhanced_telegram_bot/scheduler/scheduler.py:214-229 | the reminder is stored under CustomJobId of its time, replacing a job with that id, and the id is returned |
| ScheduleCommand.DurationParts | enhanced_telegram_bot/handlers/commands/schedule.py:31-32 | hours·60 + minutes equals the duration, with 0 ≤ minutes < 60 |
| ScheduleCommand.ShownIfPositive | enhanced_telegram_bot/handlers/commands/schedule.py:34-35 | a part is shown exactly when it is positive |
| ScheduleCommand.DayLines | enhanced_telegram_bot/handlers/commands/schedule.py:29-37 | a listing that does not raise has at most one line per schedule entry |
| ScheduleCommand.LinesOf | enhanced_telegram_bot/handlers/commands/schedule.py:37 | one line per entry, in order |
| ScheduleCommand.DayLinesRaiseOnMissingTime | enhanced_telegram_bot/handlers/commands/schedule.py:29-37 | the listing raises exactly when an enabled day has no time, and then with KeyError |
| ScheduleCommand.DayLinesListEnabledDays | enhanced_telegram_bot/handlers/commands/schedule.py:29-37 | otherwise the listing is exactly one line per enabled day, in order |
| ScheduleCommand.CountdownParts | enhanced_telegram_bot/handlers/commands/schedule.py:62-64 | days, hours < 24 and minutes < 60 account for the whole seconds of the difference, leftover seconds under a minute dropped |
| ScheduleCommand.CountdownLines | enhanced_telegram_bot/handlers/commands/schedule.py:61-74 | a countdown appears exactly when the difference is positive, each part only when positive |
| ScheduleCommand.ZoomLines | enhanced_telegram_bot/handlers/commands/schedule.py:80-84 | the link line appears exactly for a non-empty link other than the placeholder, and the password line also needs a non-empty password |
| ScheduleCommand.ScheduleTextShape | enhanced_telegram_bot/handlers/commands/schedule.py:19-89 | the text opens with the course title; for a non-empty schedule it raises exactly when the day listing or get_next_session raises, and otherwise the weekly heading and the day lines follow the title and the instructor line closes it |
| ScheduleCommand.EmptyScheduleOnlyTitle | enhanced_telegram_bot/handlers/commands/schedule.py:21-24 | an empty schedule gives the title and the no-schedule line only |
| ScheduleCommand.NextSessionIsAhead | enhanced_telegram_bot/handlers/commands/schedule.py:40-74 | read with one clock, the next session is strictly ahead, so its block carries a countdown |
| ScheduleCommand.ListDays | enhanced_telegram_bot/handlers/commands/schedule.py:29-37 | the loop appends the day lines, or raises KeyError, as the day listing does |
| ScheduleCommand.AppendFooter | enhanced_telegram_bot/handlers/commands/schedule.py:79-87 | the Zoom lines, then the time zone and instructor lines, appended at the end |
| ScheduleCommand.AppendNextSession | enhanced_telegram_bot/handlers/commands/schedule.py:40-77 | the next-session block is appended: day and date, time, then the countdown when still ahead |
| ScheduleCommand.GetScheduleText | enhanced_telegram_bot/handlers/commands/schedule.py:19-89 | the handler's text is ScheduleText of the settings and its two clock readings |

## Left out

- Message sending, the Telegram API and `event.delete` are left out. Each send is an oracle `fails(id)` and each reply a value.
- File and SQL I/O are left out. Stores are sequences and maps, and every write is counted.
  - `saveUsers` is modelled as a success flag only in `UserManagement.UserStore.RegisterUser`.
  - `addWarning`, `muteUser` and `unmuteUser` report success whatever the write does, so their writes are taken as succeeding.
- Cron, APScheduler and `setInterval` timing is left out. Each tick is one call with `now`.
- Concurrency is left out: async interleaving and the read-modify-write race on whole files.
- `date-fns`, locales, pytz time zones and `toLocaleDateString` are left out.
  - The weekday name and the date string of `getTodaySchedule` are inputs.
  - The pytz error for an unknown time zone is not modelled.
  - `session_time - now` is a wall-clock microsecond difference in one zone.
  - The date is shown as the day's ordinal, not formatted with `%Y-%m-%d`.
- Floating point is left out.
  - The weekly recommendation thresholds are stated as the integer comparisons `2m < t` and `10a < 7t`.
  - Statistics averages and the activity percentage are not modelled.
- The spam regular expressions are left out. Each pattern's `search` is a predicate parameter.
- The date parse in `/add` is a function parameter. `Date.now().toString()` is the decimal form of `now`.
- `getUsersWithReminders`, `updateUserActivity` and `cleanupExpiredVerifications` are not exported by bot/services/userService.js.
  - The static import of the first two is a link-time SyntaxError, so `reminderScheduler.js` as shipped never runs. The model describes what it would do if those functions existed.
  - Their behaviour is not part of this model. The recipient list and the cleaned count are inputs.
  - Whether the activity update throws is an oracle.
- ReminderScheduler.SendSessionReminder: does not claim `sentCount + failedCount == users.length`, because a delivery followed by a throwing activity update is counted twice. The exact-once count is `ReminderScheduler.CountsAddUp`, which holds when the update never throws.
- UserManagement.UserStore.MuteUser: accepts any duration, as the source function does. The positive-duration check of the `/mute` handler in arabic-bot.js is not part of this model.
- The try/except of `schedule_custom_reminder` that returns None is not modelled. Nothing in the modelled job store raises.
- `%Y` is taken as four digits; years below 1000 are outside `ClassScheduler.DifferentSecondsDifferentIds`.
- Arabic message texts are not modelled character by character. Replies, blocks and lines are datatypes carrying the values they show.
- ReminderScheduler.JsNumber: does not model binary64 rounding. A numeral with more significant digits than a double holds, such as "19.99999999999999999", rounds to 20 in JavaScript but is truncated to 19 here. A value too large for a valid `Date` is kept as an integer rather than making the date invalid.
- Text.PyInt: reads ASCII, Arabic-Indic and Extended Arabic-Indic digits only. The other Unicode decimal digits that `int()` accepts give ValueError here. The limit of `int()` on the number of digits in a string is not modelled.
- Text.JsParseInt: the value is exact. JavaScript rounds integers above 2^53 to the nearest double.
- Text.Trim: the white-space sets are those of current Unicode. The historical space separator U+180E is not white space here.
- User statistics, FAQ, quiz, attendance and feedback storage are not part of this model, nor command routing, setup and logging.
