# Liza Agenda — a verified model of the planner's logic

Liza Agenda is a student planner. It keeps:
- tasks, each with a due date, priority, category, subject and tags;
- a weekly class schedule;
- notes and study resources;
- grades with a GPA calculator;
- a user profile with goals and favourite subjects.

On top of this data it shows dashboards, notifications, achievements, a calendar month grid and a Pomodoro timer.

This project models the logic behind those screens in Dafny:
- the list operations each view performs: add, edit, delete, toggle, filter, search, sort and group;
- the derived figures: completion rate, statistics, GPA, target progress, achievement progress and timer progress;
- the timer's state machine;
- the calendar's month grid.

Each of these is stated together with what it promises.

Modules follow the source files:

| module | file | models |
|---|---|---|
| `Records` | records.dfy | the entities (`Task`, `UserProfile`, `ScheduleItem`, `Note`, `Resource`, `Grade`), the overdue test and the due-date order |
| `Dashboard` | dashboard.dfy | `app/page.tsx`: add, toggle, delete, upcoming tasks, completion rate |
| `TaskList` | task_list.dfy | `task-list.tsx`: search and the three filters, pending-first sort |
| `TaskForm` | task_form.dfy | `task-form.tsx`: submit and tag editing |
| `Tags` | tags.dfy | the add/remove tag logic shared by the task, note and profile forms |
| `Stats` | stats.dfy | `stats-cards.tsx` |
| `Notifications` | notifications.dfy | `notification-center.tsx`: overdue / due-tomorrow / due-this-week buckets |
| `Calendar` | calendar.dfy | `calendar-view.tsx`: month grid, tasks of a day, month list |
| `Schedule` | schedule.dfy | `schedule-view.tsx`: submit, delete, classes grouped by weekday |
| `Notes` | notes.dfy | `notes-view.tsx` |
| `Resources` | resources.dfy | `resources-view.tsx`, including the star rating |
| `Grades` | grades.dfy | `grade-calculator.tsx`: grades, subject and overall GPA, target, newest-first sort |
| `ProfileForm` | profile_form.dfy | `profile-form.tsx`: goals, favourite subjects, study hours |
| `Achievements` | achievements.dfy | `achievements-badges.tsx` |
| `Pomodoro` | pomodoro.dfy | `pomodoro-timer.tsx`: settings, mode switching, ticking, formatting; the `Timer` class keeps the component's state in fields |
| `ConstraintValidation` | constraint_validation.dfy | the browser's checks before a form submits: valid e-mail addresses and number-input bounds |
| `Text`, `Seqs`, `Sorting`, `Arith` | text.dfy, seqs.dfy, sorting.dfy, arith.dfy | the JavaScript string, array and sort operations the views use |

## Modelling conventions

- **Time.** A `Date` is its millisecond timestamp, an `int` named `Instant`. Values the program reads from the system are parameters:
  - `new Date()` becomes `now`;
  - `Date.now().toString()` becomes the caller-supplied new id.
- **Local calendar dates.** The day a timestamp falls on in the local time zone (`toDateString`, `getMonth`, `getFullYear`) is a parameter `dateOf`.
- **Month grid.** The grid itself is computed exactly, with the proleptic Gregorian calendar.
- **Parsing.** `parseFloat`, `parseInt` and `new Date(string)` are parameters. Where the source's `|| 0` turns a failed parse (NaN) into 0, the parse result is an `Option`.
- **Strings.** Strings are sequences of characters.
  - `toLowerCase` and `trim` are modelled on ASCII letters and ASCII white space.
  - `localeCompare` is plain lexicographic order by character code.
- **Form validation.** None of the forms sets `noValidate`, so the browser checks `required`, `type="email"`, `type="url"` and the `min`/`max`/step of number inputs before `onSubmit` runs. A form that fails changes nothing. The e-mail rule of the HTML standard is written out. The URL parser and the browser's reading of a number input's text are parameters (`validUrl`, `numberValue`).
- **Numbers.** Grade and GPA arithmetic is exact `real` arithmetic.
- **Arrays.** Arrays are sequences, and `filter` keeps the surviving elements in order.
- **Sorting.** `Array.prototype.sort` with a comparator is an insertion sort by a total preorder, specified as sorted and a permutation of its input.
- **In-place sort.** The newest-first sort of the grade list sorts an `array` in place, as `grades.sort(...)` does.
- **Pomodoro timer.** The timer's state is a `Timer` class whose fields are the component's state variables. Its `Valid` invariant holds:
  - every setting is one the selects offer;
  - the remaining time lies between 0 and 3600 seconds, the longest mode. It is not bounded by the current mode's length, because a running timer keeps its time when a shorter length is chosen.

## Model

| member | source | states |
|---|---|---|
| Dashboard.AddTask | app/page.tsx:139-146 | the list grows by one, earlier tasks unchanged, the new task last with the given id and every field of the submitted task |
| Dashboard.ToggleTask | app/page.tsx:148-150 | same length; only `completed` may change, and it flips exactly on the tasks with the id |
| Dashboard.ToggleTaskTwice | app/page.tsx:148-150 | toggling the same id twice restores the list |
| Dashboard.DeleteTask | app/page.tsx:152-154 | exactly the tasks with another id remain, each with its multiplicity, in their original order |
| Dashboard.UpcomingTasksSpec | app/page.tsx:161-164 | at most five pending tasks, as many as there are up to five, in due order, and no pending task left out is due before one shown |
| Dashboard.PercentBounds | app/page.tsx:166-168 | the percentage lies in [0, 100], is 100 iff all tasks count and 0 iff none does |
| Dashboard.CompletionRate | app/page.tsx:166-168 | in [0, 100]; 0 for no tasks; 100 iff every task is completed; 0 iff none is |
| TaskList.FilteredTasks | app/components/task-list.tsx:25-38 | a task is kept iff its title, subject or one of its tags contains the search term case-insensitively and the priority, status and category filters admit it; each kept task keeps its multiplicity and order is kept |
| TaskList.NoFilterKeepsAll | app/components/task-list.tsx:25-38 | with an empty term and every filter on "all" the list is unchanged |
| TaskList.SearchIgnoresDescription | app/components/task-list.tsx:26-29 | the search does not look at the description: changing it never changes the match |
| TaskList.SearchIgnoresCase | app/components/task-list.tsx:26-29 | a title whose lower-case form contains the lower-case term matches |
| TaskList.EmptyTermMatches | app/components/task-list.tsx:26-29 | the empty term matches every task |
| TaskList.StatusFilterSpec | app/components/task-list.tsx:31-34 | "completed" keeps exactly the completed tasks, "pending" exactly the others |
| TaskList.FiltersCommute | app/components/task-list.tsx:30-34 | applying the status and priority filters in either order gives the same list |
| TaskList.FiltersCompose | app/components/task-list.tsx:30-34 | filtering by status then by priority is filtering once by both |
| TaskList.ListLeqTotal | app/components/task-list.tsx:40-45 | the comparator (pending first, then by due date) is a total preorder |
| TaskList.SortedTasksSpec | app/components/task-list.tsx:40-45 | the sorted list is a permutation of the filtered list, no completed task precedes a pending one, and tasks of equal status are in due order |
| TaskForm.Submit | app/components/task-form.tsx:34-44 | no task iff title, subject or due date is empty or a filled-in estimate is not a whole number of at least 1 (`type="number" min="1"`, lines 112-113); otherwise a pending task with the parsed due date, the form's fields, and an estimate exactly when one was entered |
| TaskForm.SubmittedTaskIsPending | app/components/task-form.tsx:34-44 | a task submitted through the form and added to the list is last in the list and not completed |
| TaskForm.AddTag | app/components/task-form.tsx:46-54 | only the tag list changes; it follows `Tags.AddTag` and stays duplicate-free |
| TaskForm.RemoveTag | app/components/task-form.tsx:56-61 | only the tag list changes; exactly the other tags remain |
| Tags.AddTag | app/components/task-form.tsx:46-54 | a non-blank trimmed input not yet present is appended and the input cleared; otherwise nothing changes; a duplicate-free list stays duplicate-free |
| Tags.AddTagIdempotent | app/components/task-form.tsx:46-54 | adding the same input twice is adding it once |
| Tags.RemoveTag | app/components/task-form.tsx:56-61 | exactly the other tags remain, in order |
| Tags.RemoveTagNoDup | app/components/task-form.tsx:56-61 | removal keeps a tag list duplicate-free |
| Tags.RemoveUndoesAdd | app/components/task-form.tsx:46-61 | removing a freshly added tag restores the list |
| Stats.CompletedPlusPending | app/components/stats-cards.tsx:12-13 | completed and pending counts add up to the number of tasks |
| Stats.OverdueAtMostPending | app/components/stats-cards.tsx:13-14 | there are never more overdue than pending tasks |
| Stats.OverdueIgnoresCompleted | app/components/stats-cards.tsx:14 | adding a completed task never changes the overdue count |
| Stats.TotalSubjectsSpec | app/components/stats-cards.tsx:15 | the subject count is the number of distinct subjects, at most the number of tasks |
| Notifications.BucketsClassify | app/components/notification-center.tsx:15-21 | the three buckets are pairwise disjoint, each is one kind of the classification, and completed tasks are in none |
| Notifications.DueNowUnnotified | app/components/notification-center.tsx:19-21 | a task due exactly now is in no bucket |
| Notifications.BucketBoundaries | app/components/notification-center.tsx:16-21 | due exactly 24 h ahead is "due tomorrow", exactly 7 days ahead "due this week", one millisecond later nothing |
| Notifications.NotifyAll | app/components/notification-center.tsx:23-48 | one notification per task of a bucket, in the bucket's order |
| Notifications.NotificationsSound | app/components/notification-center.tsx:23-48 | every notification is for a listed task, carries its id, and has the kind its bucket classifies it as |
| Notifications.NotificationsComplete | app/components/notification-center.tsx:23-48 | every listed task in a bucket gets that bucket's notification |
| Notifications.NotificationsOrder | app/components/notification-center.tsx:23-48 | overdue notifications come first, then due-tomorrow, then due-this-week, each group the bucket's tasks in list order |
| Calendar.DaysInMonthOf | app/components/calendar-view.tsx:38-39 | a month has 28 to 31 days, and February has 29 exactly in leap years |
| Calendar.WeekdayExamples | app/components/calendar-view.tsx:40 | the weekday function gives Thursday for 1970-01-01, Monday for 2024-01-01, Thursday for 2024-02-29 |
| Calendar.DaysInMonth | app/components/calendar-view.tsx:34-55 | blanks for the weekdays before the 1st, then days 1..n of the month; at most 37 cells; every day sits in the column of its weekday |
| Calendar.TasksForDate | app/components/calendar-view.tsx:57-63 | a blank cell has no tasks; a day cell exactly the tasks due that date, each as often as in the list, in list order |
| Calendar.GridPartitionsTasks | app/components/calendar-view.tsx:34-63 | a task due in the displayed month appears in exactly one cell; a task due in another month, whatever its day number, appears in none |
| Calendar.Shown | app/components/calendar-view.tsx:132 | a cell shows the first three of its tasks, or all if fewer |
| Calendar.Overflow | app/components/calendar-view.tsx:149-151 | the "+n" marker appears iff a cell has more than three tasks, and shown plus n is all of them |
| Calendar.MonthTasksSpec | app/components/calendar-view.tsx:173-180 | the month list holds each task of the month as often as the task list does, nothing else, in due order |
| Schedule.Submit | app/components/schedule-view.tsx:33-57 | an incomplete form changes nothing; otherwise the edited class is replaced or a new one appended, and the form is cleared and leaves edit mode |
| Schedule.ReplaceById | app/components/schedule-view.tsx:37-39 | same length and ids; items with another id are unchanged; items with the edited id take every field of the form |
| Schedule.ReplaceByIdIdempotent | app/components/schedule-view.tsx:37-39 | saving an edit twice is saving it once; an edit adds no other class and loses none with another id |
| Schedule.Delete | app/components/schedule-view.tsx:72-74 | exactly the classes with another id remain, each as often as before, in order |
| Schedule.StartLeqTotal | app/components/schedule-view.tsx:76-84 | ordering by start time is a total preorder |
| Schedule.DayBucket | app/components/schedule-view.tsx:76-84 | a day's list holds exactly that day's classes, each as often as in the schedule, by start time |
| Schedule.ScheduleByDay | app/components/schedule-view.tsx:76-84 | one entry per weekday name; every class on a weekday is under its day and nowhere else; a class with any other day appears nowhere |
| Notes.FilteredNotes | app/components/notes-view.tsx:36-43 | a note is kept iff its title, content or a tag contains the search term case-insensitively and the subject filter admits it; each kept note keeps its multiplicity and order is kept |
| Notes.NoFilterKeepsAll | app/components/notes-view.tsx:36-43 | an empty term with subject "all" keeps every note |
| Seqs.DistinctNonEmptySpec | app/components/notes-view.tsx:34 | the subject list holds each non-empty subject once, in order of first occurrence |
| Notes.ReplaceById | app/components/notes-view.tsx:49-56 | same length and ids; notes with another id are unchanged; the edited note takes the form's title, content, subject and tags, keeps the creation time of the note being edited and gets `now` as update time |
| Notes.Submit | app/components/notes-view.tsx:45-70 | a blank title or content changes nothing; otherwise the note is edited or a new one appended with both timestamps `now`, and the form is cleared |
| Notes.SubmitKeepsTimestampsOrdered | app/components/notes-view.tsx:45-70 | no note is ever updated before it was created |
| Notes.Delete | app/components/notes-view.tsx:83-85 | exactly the notes with another id remain, with their multiplicities, in order |
| Notes.AddTag | app/components/notes-view.tsx:87-95 | only the tag list changes; it follows `Tags.AddTag` and stays duplicate-free |
| Notes.RemoveTag | app/components/notes-view.tsx:97-102 | only the tag list changes; exactly the other tags remain |
| Resources.SubjectsSpec | app/components/resources-view.tsx:36 | the subject list holds each non-empty subject of a resource once |
| Resources.FilteredResources | app/components/resources-view.tsx:38-46 | a resource is kept iff its title, description or subject contains the search term case-insensitively and the type and subject filters admit it; each kept resource keeps its multiplicity and order is kept |
| Resources.TypeFilterNarrows | app/components/resources-view.tsx:38-46 | choosing a type keeps exactly the unfiltered results of that type |
| Resources.ReplaceById | app/components/resources-view.tsx:52-60 | same length and ids; resources with another id are unchanged; the edited resource takes every form field and keeps the completion flag of the resource being edited |
| Resources.Submit | app/components/resources-view.tsx:48-79 | a blank title or description, or a filled-in URL the browser's URL parser refuses (`type="url"`, line 360), changes nothing; otherwise the resource is edited or a new uncompleted one appended, and the form is cleared |
| Resources.Delete | app/components/resources-view.tsx:94-96 | exactly the resources with another id remain, each as often as before, in order |
| Resources.ToggleCompleted | app/components/resources-view.tsx:98-102 | only `completed` changes, and it flips exactly on the resources with the id |
| Resources.ToggleTwice | app/components/resources-view.tsx:98-102 | toggling twice restores the list |
| Resources.RenderStars | app/components/resources-view.tsx:136-140 | five stars, star i filled iff i is below the rating |
| Resources.StarsFilled | app/components/resources-view.tsx:136-140 | the number of filled stars is the rating, capped at five |
| Grades.SubjectsSpec | app/components/grade-calculator.tsx:33 | the subject list holds each non-empty subject once, in order of first occurrence |
| Grades.Submit | app/components/grade-calculator.tsx:35-58 | a form missing subject, assignment or grade changes nothing; otherwise the grade with the parsed numbers and `now` is appended and the form reset |
| Grades.DeleteGrade | app/components/grade-calculator.tsx:60-62 | exactly the grades with another id remain, with multiplicities, in order |
| Grades.TotalWeight | app/components/grade-calculator.tsx:68-74 | the total weight of a non-empty list is positive |
| Grades.SingleGradeAverage | app/components/grade-calculator.tsx:68-74 | the weighted average of one grade is its percentage |
| Grades.WeightedPointsBounds | app/components/grade-calculator.tsx:68-74 | weighted points lie between 0 and 100 times the total weight when every grade is within its maximum |
| Grades.WeightedAverageBounds | app/components/grade-calculator.tsx:68-74 | the weighted average is a percentage in [0, 100] when every grade is within its maximum |
| Grades.PercentToGpa | app/components/grade-calculator.tsx:77-88 | the GPA is one of the twelve scale values in [0, 4]; 4.0 iff the average is at least 97, 0.0 iff it is below 65 |
| Grades.PercentToGpaMonotone | app/components/grade-calculator.tsx:77-88 | a higher average never gives a lower GPA |
| Grades.PercentToGpaBoundaries | app/components/grade-calculator.tsx:77-88 | the band limits are inclusive below: 97 is 4.0, 96.999 is 3.7, 65 is 0.7, 64.9 is 0.0 |
| Grades.SubjectGpa | app/components/grade-calculator.tsx:64-89 | a subject's GPA lies in [0, 4] and is 0 for a subject without grades |
| Grades.SubjectGpaExample | app/components/grade-calculator.tsx:64-89 | 85/100 with weight 1 and 95/100 with weight 2 average 275/3 (about 91.67), which the table maps to 3.3 |
| Grades.GpaSumBounds | app/components/grade-calculator.tsx:91-95 | the sum of subject GPAs lies between 0 and 4 per subject |
| Grades.MeanGpa | app/components/grade-calculator.tsx:91-95 | the mean of subject GPAs lies in [0, 4] |
| Grades.OverallGpa | app/components/grade-calculator.tsx:91-95 | the overall GPA lies in [0, 4] and is 0 when there are no subjects |
| Grades.OverallGpaOneSubject | app/components/grade-calculator.tsx:91-95 | with one subject the overall GPA is that subject's GPA |
| Grades.TargetFromInput | app/components/grade-calculator.tsx:97-99 | a parsed target is kept (0 stays 0); an unparsable input gives 0 |
| Grades.TargetProgress | app/components/grade-calculator.tsx:193-199 | no progress bar value for a zero target; otherwise at most 100, and not negative for a positive target and GPA |
| Grades.GoalReachedIffFullProgress | app/components/grade-calculator.tsx:193-199 | the "goal reached" message shows exactly when the progress bar is full |
| Grades.SortByDateDesc | app/components/grade-calculator.tsx:278-279 | the grade array is sorted in place newest first and is a permutation of what it held |
| ProfileForm.AddGoal | app/components/profile-form.tsx:32-40 | a non-blank trimmed goal is appended and the input cleared; a blank one changes nothing; nothing else in the profile changes |
| ProfileForm.RemoveGoal | app/components/profile-form.tsx:42-47 | the goal at the index is removed and the others keep their order; nothing else changes |
| ProfileForm.RemoveGoalUndoesAdd | app/components/profile-form.tsx:32-47 | removing the goal just added restores the profile |
| ProfileForm.AddSubject | app/components/profile-form.tsx:49-57 | favourite subjects follow `Tags.AddTag` and stay duplicate-free; nothing else changes |
| ProfileForm.RemoveSubject | app/components/profile-form.tsx:59-64 | at a valid index exactly the subject there is removed and the others keep their order; no change otherwise; nothing else changes; stays duplicate-free |
| ProfileForm.RemoveSubjectUndoesAdd | app/components/profile-form.tsx:49-64 | removing the subject just added restores the profile |
| ProfileForm.StudyHours | app/components/profile-form.tsx:170 | an unparsable or zero input gives 0, any other parsed number is kept |
| ProfileForm.Submit | app/components/profile-form.tsx:27-30 | the form's copy is handed on unchanged, and nothing is handed on exactly when the name or the career is empty (`required`, lines 86 and 127), a filled-in e-mail is not a valid address (`type="email"`, line 93) or the study hours lie outside 0..168 (lines 166-168) |
| ProfileForm.SubmitExamples | app/components/profile-form.tsx:93-170 | the address "ana" or 200 study hours block submission; "ana@uni.edu" with 20 hours is handed on |
| ProfileForm.EditsTouchOnlyTargets | app/components/profile-form.tsx:32-170 | after any sequence of the form's edits (name, e-mail, gender, career, semester, university, bio and study-hours inputs, and the goal and subject list edits) every field no edit wrote keeps its value, and the subject list stays duplicate-free |
| Achievements.Table | app/components/achievements-badges.tsx:21-88 | six badges in a fixed order; progress never exceeds its maximum; a badge is unlocked iff its progress is full |
| Achievements.UnlockRules | app/components/achievements-badges.tsx:21-88 | the badges unlock at 1, 10 and 5 completed tasks, with a name, with a goal and with a favourite subject |
| Achievements.MonotoneInCompleted | app/components/achievements-badges.tsx:15-88 | completing more tasks never locks a badge or lowers its progress |
| Achievements.UnlockedAndNext | app/components/achievements-badges.tsx:90-91 | the unlocked and next lists are disjoint and drawn from the table; at most three next badges, in table order; with fewer than three next, the two lists cover the table; the next list has min(locked, 3) badges |
| Achievements.NextTakesFirstLocked | app/components/achievements-badges.tsx:91 | the next list takes the first locked badges: a locked badge preceded by fewer than three locked ones is listed |
| Pomodoro.With | app/components/pomodoro-timer.tsx:143-148 | changing a setting changes that one and no other |
| Pomodoro.InitialTime | app/components/pomodoro-timer.tsx:41-52 | with valid settings a mode lasts a whole number of minutes between 3 and 60 |
| Pomodoro.FormatTimeSpec | app/components/pomodoro-timer.tsx:35-39 | below 100 minutes the display is "MM:SS", two digits each, and reads back as the number of seconds |
| Pomodoro.SwitchStep | app/components/pomodoro-timer.tsx:79-102 | the timer stops at the new mode's full length; work counts a pomodoro and goes to a long break iff the count is a multiple of the interval; a break goes back to work |
| Pomodoro.TickStep | app/components/pomodoro-timer.tsx:104-114 | a running timer loses one second, and at the last second switches mode; a stopped timer is unchanged |
| Pomodoro.ToggleStep | app/components/pomodoro-timer.tsx:128-130 | only the running flag flips |
| Pomodoro.ResetStep | app/components/pomodoro-timer.tsx:132-135 | the timer stops at the current mode's full length, keeping mode, count and settings |
| Pomodoro.ChangeModeStep | app/components/pomodoro-timer.tsx:137-141 | the timer stops at the chosen mode's full length, keeping count and settings |
| Pomodoro.UpdateSettingsStep | app/components/pomodoro-timer.tsx:143-148 | the setting changes; a stopped timer is refilled with its mode's length under the settings from before the change (the closure's view), a running one keeps its time |
| Pomodoro.UpdateSettingsIntended | app/components/pomodoro-timer.tsx:143-148 | the corrected step: a stopped timer shows its mode's full length under the new settings, with progress 0; a running one keeps its time |
| Pomodoro.UpdateSettingsDiffers | app/components/pomodoro-timer.tsx:143-148 | the step as written and the corrected one agree exactly when the timer runs or the change leaves the current mode's length as it was |
| Pomodoro.UpdateSettingsStaleExample | app/components/pomodoro-timer.tsx:143-148 | choosing 30 minutes of work on the first render leaves 1500 seconds where the mode's length is 1800, and a progress bar that is not at 0 |
| Pomodoro.NextLongBreakIn | app/components/pomodoro-timer.tsx:347 | the pomodoros left until a long break are between 1 and the interval |
| Pomodoro.NextLongBreakAgrees | app/components/pomodoro-timer.tsx:347 | the display says 1 exactly when the next work session ends in a long break |
| Pomodoro.RunsToCompletion | app/components/pomodoro-timer.tsx:104-114 | a running timer counts down one second per tick and switches mode on the tick that reaches 0 |
| Pomodoro.WorkBreakCycle | app/components/pomodoro-timer.tsx:79-102 | work then a break brings the timer back to a full work session with one more pomodoro |
| Pomodoro.FocusMinutes | app/components/pomodoro-timer.tsx:342 | focused minutes are between 15 and 60 per completed pomodoro |
| Pomodoro.Progress | app/components/pomodoro-timer.tsx:150 | the progress bar lies in [0, 100] and is 0 at the start of a mode |
| Pomodoro.Timer.constructor | app/components/pomodoro-timer.tsx:21-30 | the timer starts stopped, in work mode, at 25 minutes, with the default settings |
| Pomodoro.Timer.SwitchMode | app/components/pomodoro-timer.tsx:79-102 | the fields become `SwitchStep` of the old state, keeping the invariant |
| Pomodoro.Timer.Tick | app/components/pomodoro-timer.tsx:104-114 | the fields become `TickStep` of the old state, keeping the invariant |
| Pomodoro.Timer.Toggle | app/components/pomodoro-timer.tsx:128-130 | the fields become `ToggleStep` of the old state |
| Pomodoro.Timer.Reset | app/components/pomodoro-timer.tsx:132-135 | the fields become `ResetStep` of the old state |
| Pomodoro.Timer.ChangeMode | app/components/pomodoro-timer.tsx:137-141 | the fields become `ChangeModeStep` of the old state |
| Pomodoro.Timer.UpdateSettings | app/components/pomodoro-timer.tsx:143-148 | the fields become `UpdateSettingsStep` of the old state, for a value the select offers |
| ConstraintValidation.ValidEmailHasOneAt | app/components/profile-form.tsx:93 | an address the `type="email"` input accepts has exactly one `@`, neither first nor last |
| ConstraintValidation.ValidEmailExample | app/components/profile-form.tsx:93 | "ana@uni.edu" is a valid address |
| ConstraintValidation.MissingPartExamples | app/components/profile-form.tsx:93 | "ana", "ana@" and "@uni.edu" are not |
| ConstraintValidation.HyphenLabelExample | app/components/profile-form.tsx:93 | a domain label may not start with a hyphen |
| ConstraintValidation.EmptyLabelExample | app/components/profile-form.tsx:93 | a domain may not hold two dots in a row |

## Left out

- Rendering: JSX, styling, dialogs, icons, toasts and the dark-mode theme carry no logic beyond what is modelled above.
- Persistence: the page keeps its state in React and stores nothing across sessions. There is nothing to model beyond the list operations.
- Pomodoro side effects: the `setInterval` scheduling, the Web Audio beep, the toast and the `soundEnabled` flag are not modelled. The settings control only whether the sound plays.
- Pomodoro.TickStep: when the last second runs out, the source's state updater calls `switchMode()`, which queues the new mode's full length, and then itself returns 0. Which of the two writes React keeps depends on its update queue, which is not modelled. The model takes the full length, as a modelling choice. If 0 were kept instead, the stopped timer would show 00:00, and starting it would do nothing, because the countdown only runs while `timeLeft > 0`, until a reset or a mode change.
- Locale and time zone: `toDateString`, `getMonth` and `getFullYear` are the parameter `dateOf`.
  - `toLocaleDateString` and the Spanish weekday names of the dashboard's "today" list are not modelled.
  - `new Date(y, m, d)` maps years 0–99 to 1900–1999; that quirk is not modelled.
- Calendar navigation: month navigation (`navigateMonth`) only moves the displayed month and is not modelled.
- Today's schedule: the dashboard's `todaySchedule` filter depends on the locale's weekday name and is not modelled.
- Profile view: the read-only profile view (`profile-view.tsx`) is not part of this model.
- Floating point: grade averages, GPA and percentages are exact reals.
  - IEEE rounding is not modelled.
  - `toFixed` display rounding is not modelled.
  - NaN is not modelled, except where the source turns it into 0, which is an `Option`.
- Grades.WeightedAverage: requires a positive maximum and weight for every grade (`Measurable`). The source divides by whatever the user typed, and a zero there gives NaN or Infinity in JavaScript.
- Grades.Submit: the browser's step check of the grade and maximum inputs (`step="0.1"`) is not modelled.
- Grades.Submit: `parseFloat` of the grade, the maximum and the weight is a parameter `parse`. The model does not represent a NaN result.
- Notes.Submit: the source calls `new Date()` twice for a new note. The model uses one `now` for both timestamps.
- Notifications: the message text and the `toLocaleDateString` date in it are not modelled; the title and the priority are.
- Sorting stability: sorts are specified as sorted and a permutation, which is all `Array.prototype.sort` promises. The order among equal keys is not stated.
- Resources.SubjectsSpec: states that subjects are distinct and complete, not their first-occurrence order. That order is stated for grades and notes through `Seqs.DistinctNonEmptySpec`, and resources build theirs the same way.
- Resources.Submit: the URL parser behind `type="url"` is the parameter `validUrl`; its rules are not modelled.
- TaskForm.Submit: the browser's reading of the estimate's text as a number is the parameter `numberValue`; the valid floating-point number syntax is not modelled.
- Text: `toLowerCase` and `trim` are modelled for ASCII letters and ASCII white space only. Unicode case folding and Unicode spaces are not modelled.
- Schedule: `localeCompare` on start times is plain lexicographic order by character code, which agrees with it on "HH:MM" strings.
- Task tags: the model gives every task a tag list and an optional estimate, as the task form creates them. The `Task` interface of app/page.tsx:18-27 and its `initialTasks` (app/page.tsx:53-94) have neither field. On those tasks the source throws a TypeError at `task.tags.map` when it renders them (app/components/task-list.tsx:200), and at `task.tags.some` when a search term matches neither the title nor the subject (app/components/task-list.tsx:29). The model does not represent these errors.
- Notifications boundary: the comparison `dueDate <= tomorrow` puts a task due exactly 24 hours ahead in "due tomorrow", not in "due this week", and `Notifications.BucketBoundaries` states this.

## Findings

| source | as written | input that shows it | evidently intended | confidence | as-written member | corrected member |
|---|---|---|---|---|---|---|
| app/components/pomodoro-timer.tsx:143-148 | `updateSettings` refills a paused timer with `getInitialTime(mode)`, whose closure reads the settings from before `setSettings` takes effect | from the first render, choose 30 for the work time: the timer shows 25:00, and the progress bar starts a sixth of the way along | a paused timer shows the full length of its mode under the settings just chosen, with the progress bar at 0 | not executed; follows from how a React closure reads state | Pomodoro.UpdateSettingsStep, Pomodoro.UpdateSettingsStaleExample, Pomodoro.UpdateSettingsDiffers | Pomodoro.UpdateSettingsIntended |
