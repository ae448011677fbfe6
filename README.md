# TaskNGo reminder widget — a Dafny model

TaskNGo is a small React to-do widget. The user types a task and a due date and time. Each task appears in one of four lists: Today, Upcoming, Completed or Archived. A one-second interval plays an alert sound five minutes and one minute before a task is due, and makes the task shake in the last minute. A weekly timer empties the list. Push reminders go through OneSignal, or through a local notification service that keeps pending reminders in `localStorage`. A release script bumps the patch number of the version and rewrites the version assignment in the page.

This project models that core:

- `clock.dfy` (`Clock`): instants as integer milliseconds, days, weekdays, `startOfWeek`, and the delay of the weekly reset timer. It has the code's delay and the evidently intended one.
- `text.dfy` (`Text`): the JavaScript string primitives the core relies on: `trim`, the decimal text of an integer, `split`/`join` on one character, and `parseInt` with no radix.
- `tasks.dfy` (`Tasks`): the task record and the pure list transformations of the handlers in `src/App.js`: add, delete, archive, the answer to the completion question, and the four category filters.
- `tick.dfy` (`Tick`): one run of the monitoring interval, one task at a time and over the whole list, and runs of successive ticks.
- `app.dfy` (`App`): the `App` component as a class. Its fields are the state hooks. Its methods are the handlers, the weekly reset and the tick. Sounds and browser alerts are recorded as a list of effects.
- `onesignal.dfy` (`OneSignal`): `sendTaskNotification`. It covers which of the three reminders (5 minutes before, 1 minute before, due) are requested, as browser timers on localhost or as REST calls in production, and which lines are logged.
- `notification_service.dfy` (`NotificationService`): the `NotificationService` class. It keeps a permission flag and the table of pending reminders under `task-<id>`. Its deferred callback shows a reminder only while the reminder is still stored.
- `version.dfy` (`VersionBump`): `scripts/update-version.js`. It covers the patch bump and the replacement of the first match of `/window\.__APP_VERSION__\s*=\s*['"].*?['"]/`.
- `optional.dfy` (`Optional`): an `Option` type.

## Model

| member | source | states |
|---|---|---|
| Clock.Weekday | src/App.js:329 | the day of the week of an instant is in 0..6, with 0 for Sunday (`weekStartsOn: 0`) |
| Clock.StartOfWeek | src/App.js:329 | `startOfWeek(now)` is a Sunday 00:00, at most one week before `now`, and it is `Weekday(now)` days before `now` |
| Clock.ResetInstant | src/App.js:329 | `.setHours(24, 0, 0, 0)` on the start of the week gives the Monday 00:00 of the current week |
| Clock.ResetDelay | src/App.js:330 | the delay the code computes always ends on a Monday 00:00, the one of the current week |
| Clock.ResetDelayPositiveIffSunday | src/App.js:327-335 | the delay the code hands to `setTimeout` is positive if and only if `now` is a Sunday; it lies in (-6 days, 1 day] |
| Clock.ResetDelayOnMonday | src/App.js:329-333 | on the Monday 1970-01-05 12:00 the delay is -12 h, so the reset fires at once |
| Clock.NextWeekResetDelay | src/App.js:329 | the corrected delay is in (0, 1 week] and ends on a Sunday 00:00 |
| Text.Trim | src/App.js:259 | `trim()` gives text with no white space at either end, and gives "" exactly when the input is all white space |
| Text.TrimIsSlice | src/App.js:262 | what `trim()` keeps is a contiguous slice of the input, and what it drops on both sides is white space |
| Text.NatToDecimal | scripts/update-version.js:11 | the printed number is non-empty and all digits, with a leading `0` only for zero |
| Text.DecimalRoundTrip | scripts/update-version.js:11 | reading back the printed digits of `n` gives `n` |
| Text.IntToDecimal | src/sendNotification.js:46 | an integer prints with a leading `-` exactly when it is negative, and ends in a digit |
| Text.IntToDecimalInjective | src/sendNotification.js:46 | different integers print differently |
| Text.Split | scripts/update-version.js:10 | `split('.')` gives at least one piece, and no piece contains `.` |
| Text.SplitHead | scripts/update-version.js:10 | the first piece of a split is the text up to the first separator |
| Text.JoinSplit | scripts/update-version.js:10 | joining the pieces of a split with the separator restores the string |
| Text.SplitJoin | scripts/update-version.js:10-11 | splitting a join of pieces that do not contain the separator gives the pieces back |
| Text.LeadingDigits | scripts/update-version.js:11 | `parseInt` reads the longest prefix of digits of the radix, and the next character is not such a digit |
| Text.ParseDecimal | scripts/update-version.js:11 | `parseInt` of a plain decimal string is its value |
| Text.DecimalSuccessor | scripts/update-version.js:11 | `${parseInt(p) + 1}` of a plain decimal string is the decimal text of its value plus one |
| Text.ParsePrinted | scripts/update-version.js:11 | `parseInt` reads back any printed natural number |
| Text.ParseIntStopsAtNonDigit | scripts/update-version.js:11 | `parseInt` of digits followed by a non-digit (other than the `x` of a hexadecimal prefix) reads only the digits |
| Text.NumToString | scripts/update-version.js:11 | a number prints as `NaN` exactly when it is NaN |
| Tasks.AddTask | src/App.js:258-275 | the alert path is taken exactly when the trimmed text is empty or no date is given; otherwise one task is appended with id `now`, the trimmed text, the date and every flag false, and the earlier tasks are unchanged |
| Tasks.Delete | src/App.js:277-285 | a task is kept if and only if it was there and its id differs; a missing id leaves the list unchanged |
| Tasks.DeleteKeepsOrder | src/App.js:280 | deleting distributes over concatenation, so the kept tasks keep their order |
| Tasks.DeleteCount | src/App.js:280 | exactly the tasks carrying the id are removed |
| Tasks.Archive | src/App.js:287-291 | each task with the id gets `archived: true`; every other task is unchanged, and the length is kept |
| Tasks.Respond | src/App.js:302-316 | the answer keeps the length and the id at every position |
| Tasks.RespondEffect | src/App.js:303-314 | "yes" completes the popup's task, "no" sets only its `alertPlayed`, and every other answer, every other task and a falsy popup id change nothing |
| Tasks.InCategory | src/App.js:472-514 | a task passes the Archived filter exactly when it is archived, and of the other filters it passes Completed exactly when it is completed |
| Tasks.View | src/App.js:472-514 | a category list holds exactly the tasks that pass its filter |
| Tasks.CategoryExclusive | src/App.js:472-514 | the four filters agree with one independent classification: archived, then completed, then due today, then due on a later day |
| Tasks.ViewsDisjoint | src/App.js:472-514 | no task appears in two lists |
| Tasks.OverdueShownNowhere | src/App.js:472-486 | an open task due on a past day is in no list |
| Tasks.ViewsPartition | src/App.js:472-514 | the four lists and the overdue tasks together count every task exactly once |
| Tick.TickTask | src/App.js:357-393 | a tick keeps a task's id, text, date and lifecycle; an alert is raised exactly when it is in its window and has not played; its flag is then set and no flag is cleared; the clock icon is set for an open task due today or later; shaking starts with the one-minute alert and stops once the task is due |
| Tick.AlertsIgnoreLifecycle | src/App.js:362-381 | the alerts do not depend on `archived` or `completed` |
| Tick.TickAll | src/App.js:341-395 | the tick maps every task through `TickTask`, keeping length, order and ids |
| Tick.TickAllAlertSource | src/App.js:341-395 | every sound played comes from some task's alert |
| Tick.TickAllAlertSounded | src/App.js:341-395 | every alert a task raises is played |
| Tick.TickAllAlertOrigins | src/App.js:341-395 | the sounds of one tick are exactly one per alerting task, in list order: each comes from an increasing index of an alerting task, and every alerting task is among them |
| Tick.RunKeepsTask | src/App.js:338-399 | successive ticks never change a task's identity or lifecycle and never clear an alert flag or the clock icon |
| Tick.AlertAtMostOnce | src/App.js:362-381 | over any run of ticks each alert sounds at most once, and never if its flag was already set |
| Tick.RunSoundsAtMostTwice | src/App.js:362-381 | over any run of ticks a task sounds at most twice |
| Tick.AlertFiresInWindow | src/App.js:362-381 | a tick inside the window of an alert that has not played makes it sound |
| Tick.AlertSilentOutsideWindow | src/App.js:362-370 | an alert whose window no tick hits never sounds |
| Tick.DeclineSilencesOneMinute | src/App.js:302-381 | after the answer "no", the task's one-minute alert never sounds |
| Tick.FiveThenOne | src/App.js:362-381 | ticks five minutes and one minute before the due time sound the five-minute alert, then the one-minute alert |
| Tick.TickRunsPerTask | src/App.js:338-399 | successive ticks of the whole list leave each task in the state its own run of ticks gives it, so the run properties above hold for the state of every task of the list |
| Tick.TickRunsCount | src/App.js:338-399 | the sounds played by successive ticks of the whole list are, in number, the sum of the sounds of each task's own run |
| Tick.TickRunsSoundsAtMostTwicePerTask | src/App.js:362-381 | however many ticks the interval runs, the list plays at most two sounds per task |
| App.Sounds | src/App.js:367-379 | one alert sound per alert, in order |
| App.Widget.constructor | src/App.js:21-25 | the initial state of the hooks |
| App.Widget.SetNewTask | src/App.js:458 | only the text field changes |
| App.Widget.SetTaskDate | src/App.js:464 | only the date field changes |
| App.Widget.AddTask | src/App.js:258-275 | on valid input the list becomes `Tasks.AddTask`'s list and both inputs are cleared; otherwise only the browser alert is added |
| App.Widget.DeleteTask | src/App.js:277-285 | the remote removal is requested; the task is filtered out whether or not that call fails, and a failure is logged |
| App.Widget.ArchiveTask | src/App.js:287-291 | the list is archived and nothing else changes; no notification is cancelled |
| App.Widget.CompleteTask | src/App.js:293-295 | only the completion popup opens, for that id |
| App.Widget.HandleCompletionResponse | src/App.js:302-318 | the answer is applied to the popup's task, and the popup closes whatever the answer |
| App.Widget.ResetTasks | src/App.js:297-300 | the list is emptied and the reset banner is shown |
| App.Widget.WeeklyReset | src/App.js:327-335 | the timer is given a positive delay of at most a week that ends on a Sunday 00:00; when it fires, the tasks are reset |
| App.Widget.Tick | src/App.js:338-399 | the list becomes `TickAll`'s list and one sound is appended per alert raised |
| App.AddThenTick | src/App.js:258-399 | a task typed into a fresh widget is its only task, with id, date and trimmed text; the next tick sounds at most once, exactly when that instant is in one of the two alert windows |
| NotificationService.Key | src/sendNotification.js:46 | the key starts with `task-` |
| NotificationService.KeyInjective | src/sendNotification.js:46 | different task ids never share a stored entry |
| NotificationService.Scheduled | src/sendNotification.js:36-51 | an entry is stored exactly when permission is held and one minute before the due time is still ahead; it holds that instant and the reminder text, and other entries are untouched |
| NotificationService.Cancelled | src/sendNotification.js:95-98 | exactly the entry of that id is removed |
| NotificationService.FireLooksOnlyAtItsKey | src/sendNotification.js:54-58 | whether the deferred callback shows the reminder depends only on whether its own key is stored, not on other entries or the stored data |
| NotificationService.CancelSuppressesFire | src/sendNotification.js:54-98 | a reminder cancelled after scheduling is not shown when its timer fires |
| NotificationService.CancelOtherKeepsEntry | src/sendNotification.js:95-98 | cancelling another task leaves this task's entry intact |
| NotificationService.ScheduleOverwrites | src/sendNotification.js:46-51 | scheduling the same id twice leaves one entry, holding the second one's data |
| NotificationService.CancelIdempotent | src/sendNotification.js:95-98 | cancelling twice is cancelling once; cancelling a missing key changes nothing |
| NotificationService.Service.constructor | src/sendNotification.js:6-10 | a new service has the key and no permission |
| NotificationService.Service.Initialize | src/sendNotification.js:12-22 | permission is held exactly when the answer is "granted"; a rejection changes nothing |
| NotificationService.Service.ScheduleNotification | src/sendNotification.js:36-79 | the table becomes `Scheduled`; a timer is returned exactly when an entry is stored, with a positive delay up to one minute before the due time |
| NotificationService.Service.ShowNotification | src/sendNotification.js:81-93 | a notification is shown only with permission and a service worker that answers |
| NotificationService.Service.Fire | src/sendNotification.js:54-78 | the callback shows the reminder only if its entry is still stored, and leaves the table alone |
| NotificationService.Service.CancelNotification | src/sendNotification.js:95-98 | the table becomes `Cancelled` |
| NotificationService.ScheduleCancelFire | src/sendNotification.js:36-98 | schedule, then cancel, then fire shows nothing and leaves no entry |
| OneSignal.Candidates | src/OneSignal.js:71-76 | the three reminders are 5 minutes before, 1 minute before and at the due instant |
| OneSignal.CandidatesIncreasing | src/OneSignal.js:74-76 | the three instants are strictly increasing |
| OneSignal.UpcomingMembers | src/OneSignal.js:155-182 | a reminder is requested exactly when its instant is strictly after `now` |
| OneSignal.PassedMembers | src/OneSignal.js:79-91 | a reminder is skipped exactly when its instant is at or before `now` |
| OneSignal.PassedUpcomingSplit | src/OneSignal.js:79-182 | in any order, every candidate goes to exactly one of the skipped and the requested reminders, counted with multiplicity |
| OneSignal.PassedThenUpcoming | src/OneSignal.js:79-182 | the skipped reminders followed by the requested ones are all the candidates, in order |
| OneSignal.UpcomingIsSuffix | src/OneSignal.js:155-182 | the requested reminders are a suffix of the three: once one is requested, every later one is too |
| OneSignal.DueTaskGetsNothing | src/OneSignal.js:74-182 | a task already due gets no reminder; a task more than five minutes away gets all three |
| OneSignal.Requests | src/OneSignal.js:153-182 | one request per reminder, in order |
| OneSignal.Skips | src/OneSignal.js:79-91 | one "Skipping" line per skipped reminder, in order |
| OneSignal.Failures | src/OneSignal.js:148-150 | a failure line for a kind appears exactly when a request of that kind gets a non-ok answer, and nothing else is logged |
| OneSignal.LogSkipped | src/OneSignal.js:78-91 | the three checks log exactly the skipped reminders |
| OneSignal.SetTimers | src/OneSignal.js:94-122 | on localhost one timer is set per reminder still ahead, in order |
| OneSignal.PushRestCalls | src/OneSignal.js:153-182 | in production one REST call is pushed per reminder still ahead, in order |
| OneSignal.SendTaskNotification | src/OneSignal.js:58-190 | when OneSignal is missing, the user is not subscribed or the subscription check rejects, nothing is requested and one line is logged; otherwise the skips are logged, then the timers are set or "no support" is logged (localhost), or the REST calls are made, their failures are logged, and the run ends in success or in the catch |
| OneSignal.TimerDelaysPositive | src/OneSignal.js:97-121 | every localhost timer delay is positive and ends exactly at its reminder's instant |
| OneSignal.RestRequestsInFuture | src/OneSignal.js:153-182 | every REST request, the last one included, is for an instant strictly after `now`, at its reminder's lead before the due instant, carries the task id, and comes before every later request in time |
| OneSignal.SkippedOrRequested | src/OneSignal.js:79-182 | each of the three reminders is either logged as skipped or requested, never both and never neither |
| VersionBump.BumpFromParts | scripts/update-version.js:10-11 | only the first three pieces are used: major and minor are copied, and the patch is reprinted from its value plus one, joined by dots |
| VersionBump.BumpIncrementsPatch | scripts/update-version.js:10-11 | a well-formed version stays well-formed, keeps major and minor, and its patch number goes up by one |
| VersionBump.Bump | scripts/update-version.js:10-11 | the new version ends in a digit exactly when the third piece was read as a number |
| VersionBump.BumpParts | scripts/update-version.js:10-11 | the new version ends in a digit exactly when there is a third piece that `parseInt` reads; otherwise it ends in `NaN` |
| VersionBump.BumpKeepsMajor | scripts/update-version.js:10-11 | for every input, well-formed or not, the text before the first dot is kept |
| VersionBump.BumpDropsLeadingZero | scripts/update-version.js:10-11 | "1.2.07" becomes "1.2.8" |
| VersionBump.BumpDropsExtraComponents | scripts/update-version.js:10-11 | "1.2.3.4" becomes "1.2.4" |
| VersionBump.BumpWithoutPatch | scripts/update-version.js:10-11 | "1.2" becomes "1.2.NaN" |
| VersionBump.SpaceEnd | scripts/update-version.js:19 | `\s*` stops within the text, at or after its start |
| VersionBump.SpaceEndSkipsSpace | scripts/update-version.js:19 | `\s*` consumes only white space and stops at the first other character |
| VersionBump.QuoteFrom | scripts/update-version.js:19 | `.*?['"]` finds a position inside the text |
| VersionBump.QuoteFromIsFirst | scripts/update-version.js:19 | the lazy `.*?` stops at the first quote with no line terminator before it, and fails exactly when every quote has a line terminator before it |
| VersionBump.QuotedValue | scripts/update-version.js:19 | a match of `\s*['"].*?['"]` ends after its start and within the text |
| VersionBump.AssignTail | scripts/update-version.js:19 | a match of `\s*=\s*['"].*?['"]` ends after its start and within the text |
| VersionBump.MatchLength | scripts/update-version.js:19 | a match of the whole pattern is longer than the marker and fits in the text |
| VersionBump.FirstMatch | scripts/update-version.js:18-21 | the match found lies within the text, after the start of the search |
| VersionBump.FirstMatchMatches | scripts/update-version.js:18-21 | what is found is a match of the pattern spanning exactly the part found |
| VersionBump.FirstMatchIsLeftmost | scripts/update-version.js:18-21 | no match starts before the one found, and when none is found there is none anywhere |
| VersionBump.ReplaceFirstParts | scripts/update-version.js:18-21 | the rewritten page is the page with the leftmost match cut out and the new assignment put in |
| VersionBump.LaterAssignmentsKept | scripts/update-version.js:18-21 | without the `g` flag, every later match survives the rewrite, at the shifted position and with the same length |
| VersionBump.AssignmentMatches | scripts/update-version.js:19-20 | the assignment written for a version with no quotes or line breaks is itself a full match of the pattern |
| VersionBump.UpdateVersion | scripts/update-version.js:10-21 | the new version is the bump of the old one, and the page is unchanged when nothing matches; otherwise only its first match is replaced by the new assignment |

## Left out

- File and console I/O: `readFileSync`/`writeFileSync`, JSON parsing and printing of `version.json`, and the debug `console.log` of the tick. The script's input and output are parameters and results.
- Date parsing: `new Date(taskDate)` of the `datetime-local` text is taken as already parsed, so the date field is `Option<int>` with `None` for an empty field. An unparsable date (an invalid `Date`) is not modelled.
- Time zones and daylight saving: days are blocks of 86 400 000 ms counted from the epoch, but date-fns `isToday` and `startOfWeek` use local time. `setMinutes(getMinutes() - 1)` is modelled as minus 60 000 ms.
- Browser timers: `setTimeout` clamps a negative delay to zero and fires at once for a delay above 2^31 - 1 ms. The model records the delays but not that clamping. `clearTimeout`/`clearInterval` on unmount are not modelled.
- React scheduling: state updates are applied at once to the current state. The stale `tasks` closure in `deleteTask`/`archiveTask` is not modelled, and neither is the interleaving of the interval with other handlers.
- `src/App.js` also has the notification-setup check on mount, `handleScheduleClick` with its schedule popup, the widget rating (Firebase), `TaskItem` rendering, and the constructor fields `scheduleAlert`, `widgetRating` and `alertAudio`. None of these are part of this model.
- `setupFCM` (`src/sendNotification.js:24-34`) is a token request to Firebase. It is left out, and the `vapidKey` is only stored. The constructor's call to `initialize` is asynchronous, so it is the separate `Initialize` method. The icon, badge, `renotify` and action options of the shown notification are left out; only title, body and tag are recorded.
- OneSignal: the HTTP body (app id, icon, url, ISO text of `send_after`) is reduced to title, body, send instant and task id. The `new Notification` shown when a localhost timer fires is not modelled.
- OneSignal.SendTaskNotification: logs every non-ok answer before the final line. In the code, `Promise.all` rejects as soon as one call throws, so some failure lines can come after the catch line. That asynchronous ordering is not modelled.
- VersionBump.UpdateVersion: `$` patterns in the replacement text of `String.prototype.replace` are not interpreted; the version text is inserted literally.
- `parseInt(patch) + 1` is exact integer arithmetic here. JavaScript numbers lose precision above 2^53, and very long digit strings also parse to `Infinity`; neither is modelled.
- App.Widget.WeeklyReset: gives the timer the corrected delay `Clock.NextWeekResetDelay` rather than the code's `Clock.ResetDelay` (see Findings).
- In these points the model follows what the code does:
  - the five-minute alert does not start the shaking;
  - the tick raises no alert at the due instant;
  - the tick's alerts ignore `archived` and `completed`;
  - answering "no" sets the one-minute flag `alertPlayed`;
  - archiving and completing cancel no notification;
  - neither `resetTasks` nor `deleteTask` calls `cancelNotification`, so pending reminders outlive a reset or a delete. The model states nothing about them there.

## Findings

| source | as written | input that shows it | evidently intended | confidence | as-written member | corrected member |
|---|---|---|---|---|---|---|
| src/App.js:329-330 | `startOfWeek(now, { weekStartsOn: 0 }).setHours(24, 0, 0, 0)` is the Monday 00:00 of the current week, so the delay is zero or negative on every day but Sunday and the tasks are reset as soon as the widget mounts | mounting on Monday 1970-01-05 12:00 gives a delay of -43 200 000 ms | a delay up to the next Sunday 00:00, as the name `nextSundayMidnight` says | not executed | Clock.ResetDelayOnMonday | Clock.NextWeekResetDelay |
