# Study planner core, modelled in Dafny

This project models three pieces of a study-planning web application:

- **The distribution engine** of the scheduling service. It takes a learner's weekly availability, in hours per weekday, and the pending study tasks in queue order. It walks forward one calendar day at a time from the start day and packs the tasks greedily into each day's minute budget. Two more rules apply:
  - an oversized first task is placed alone;
  - after two years of days the walk stops.

  Recalculation is the same run, anchored at the start of today.
- **The spreadsheet importer** of the administration screen. It looks for a header row naming a "tópico" column and a "subtópico" column, and an optional time column ("te", "tempo" or "horas"). Every later row that names both a subject and a topic adds that topic to the subject of that name, with its estimated minutes. The importer then builds the preview totals and checks the inputs before the course is sent.
- **The student's schedule screen**:
  - the pomodoro clock face (`m:ss`);
  - the grouping of tasks by planned day;
  - the order in which the days are shown, and which of them are late;
  - the pomodoro timer: its one-second tick, the effect that stops it at 0, and the play/pause and reset buttons.

Modules and files:

| file | module | contents |
|---|---|---|
| `wrappers.dfy` | `Wrappers` | `Option`, `Result` |
| `sequences.dfy` | `Sequences` | `Distinct` |
| `decimal.dfy` | `Decimal` | printing integers as JavaScript does, and reading digit runs back |
| `scheduler.dfy` | `Scheduler` | availability dictionary, the one-day fill, the day walk as methods over an array of stored dates, and the specification functions `Fill`, `DateOf`, `Plan`, `Overlay` |
| `scheduler_properties.dfy` | `SchedulerProperties` | window, open days, order, capacity, deferral, completeness, idempotent recalculation, worked examples |
| `course_importer.dfy` | `CourseImporter` | cells, header scan, rows to entries, the subject dictionary, preview, import checks; the row loop as methods |
| `importer_properties.dfy` | `ImporterProperties` | header detection and persistence, the column-matching quirk, minutes, grouping, totals |
| `student_scheduler.dfy` | `StudentScheduler` | clock face, grouping method, day sort, late days, agenda, the pomodoro functions and the `Pomodoro` class |
| `student_properties.dfy` | `StudentSchedulerProperties` | clock-face round trip, grouping, sorting, late days, timer behaviour, alerts |

Modelling conventions:

- **Calendar days** are integer day numbers counted from 1970-01-01, which was a Thursday. So `WeekDay(d) = (d + 4) % 7`, with 0 = Sunday as the date library's `getDay` counts. The start instant of a run is the day it falls on, which is all that `startOfDay` keeps.
- **Stored dates.** A run's tasks are given as their durations in minutes, in queue order. The stored `scheduledDate` of each task is an entry of an `array<Option<int>>` that the run writes in place. `DistributeTasks` is proved against the specification function `Plan`, and the final array equals `Overlay(old dates, Plan(...))` because the service writes dates and never clears one.
- **Spreadsheet cells** are `Blank | Text | Number | Logical`.
- **The subject dictionary** is keyed by the property name that the subject cell becomes (`Key`), as a JavaScript object is. Subject names that are inherited object properties (`constructor`, `toString`, …) make the lookup find a value without a topic list. The push then throws, and the component shows its read error. The model keeps that error path (`ReadSheet` fails).
- **"Now"** on the schedule screen is a parameter: the local time in seconds since the epoch.

## Model

| member | source | states |
|---|---|---|
| Scheduler.WeekDay | server/src/services/SchedulerService.js:60 | the weekday of a day number is always in 0..6 |
| Scheduler.BuildAvailabilityMap | server/src/services/SchedulerService.js:23-27 | the dictionary filled by the loop over the rows equals the row-by-row specification `AvailabilityMap` |
| SchedulerProperties.AvailabilityMapLastRow | server/src/services/SchedulerService.js:24-27 | in `AvailabilityMap`, a weekday maps to m minutes exactly when some row names it with m = hoursPerDay * 60 and no later row names it, so the later duplicate wins |
| SchedulerProperties.NoRowNoMinutes | server/src/services/SchedulerService.js:61 | a weekday without a row has no entry and a budget of 0 minutes |
| Scheduler.Fill | server/src/services/SchedulerService.js:63-95 | the tasks placed on one day from queue position i never run past the queue, and a day that starts empty takes at least one task |
| Scheduler.Taken | server/src/services/SchedulerService.js:61-96 | a day with a budget takes at least one remaining task; a day takes nothing beyond the queue |
| Scheduler.Plan | server/src/services/SchedulerService.js:52-100 | one date, or none, per task of the queue, each being `DateOf`, the date the day walk from the start day gives that task: the walk gives the current day to the tasks that day takes and hands the rest to the walk from the next day, one day fewer allowed |
| Scheduler.Overlay | server/src/services/SchedulerService.js:73-76 | writing a plan over the stored dates keeps the length of the stored dates |
| Scheduler.FinishRun | server/src/services/SchedulerService.js:59-100 | when the walk stops, because the queue is exhausted or the days are used up, the stored dates are the run's dates written over the prior ones |
| Scheduler.FillDay | server/src/services/SchedulerService.js:64-95 | the inner loop dates exactly the tasks that Fill counts with the current day, returns the index after them, and leaves every other stored date unchanged |
| Scheduler.ScheduleDay | server/src/services/SchedulerService.js:60-99 | a day without budget takes no task; a day with budget takes the tasks that Taken counts; the day advances by one and one day fewer is allowed |
| Scheduler.WalkDays | server/src/services/SchedulerService.js:52-100 | the whole walk leaves the stored dates equal to the plan from the start day written over the prior dates |
| Scheduler.DistributeTasks | server/src/services/SchedulerService.js:12-100 | no availability row: refused, with every stored date untouched; otherwise the stored dates become the plan of the availability dictionary written over the prior dates (an empty queue writes nothing) |
| Scheduler.RecalculateSchedule | server/src/services/SchedulerService.js:107-118 | recalculation is a distribution of all pending tasks anchored at today, with the same refusal and the same resulting dates |
| SchedulerProperties.FillCapacity | server/src/services/SchedulerService.js:63-95 | with positive durations, one day's fill stays within the budget, unless it placed exactly one task that is larger than the whole budget |
| SchedulerProperties.FillDefers | server/src/services/SchedulerService.js:71-93 | a fill that stops before the end of the queue stops on a day that carries load, at a task that would overflow it |
| SchedulerProperties.FillForcesOversized | server/src/services/SchedulerService.js:85-93 | a first task larger than the day's budget is placed alone: exactly one task for that day |
| SchedulerProperties.FillTakesFittingPrefix | server/src/services/SchedulerService.js:67-79 | every run of next tasks whose durations fit into what is left of the budget is placed on that day |
| SchedulerProperties.PlanWithinTwoYears | server/src/services/SchedulerService.js:52-59 | every assigned date lies between the start day and the start day + 729 |
| SchedulerProperties.PlanOnlyOpenDays | server/src/services/SchedulerService.js:61-63 | no task is ever assigned a day whose weekday budget is 0 or less |
| SchedulerProperties.PlanOrdered | server/src/services/SchedulerService.js:59-79 | the dated tasks form a prefix of the queue and their dates never decrease along the queue |
| SchedulerProperties.PlanFirstDay | server/src/services/SchedulerService.js:59-63 | every day before the first task's date, from the start day on, has no budget |
| SchedulerProperties.PlanSkipsOnlyClosedDays | server/src/services/SchedulerService.js:59-63 | every day strictly between the dates of two consecutive tasks has no budget |
| SchedulerProperties.PlanCapacity | server/src/services/SchedulerService.js:63-95 | with positive durations, the durations dated on any day sum to at most its budget, unless exactly one task is dated that day |
| SchedulerProperties.PlanDefers | server/src/services/SchedulerService.js:71-93 | a task goes to a later day than its predecessor only when the predecessor's day already carries load and would overflow with it |
| SchedulerProperties.PlanComplete | server/src/services/SchedulerService.js:55-59 | with a budget on every weekday, a queue of at most 730 tasks is fully dated |
| SchedulerProperties.UnreachedTailKept | server/src/services/SchedulerService.js:73-76 | once a task is not reached, it and every later task keep their prior stored dates |
| SchedulerProperties.RecalculateTwice | server/src/services/SchedulerService.js:107-118 | recalculating twice on unchanged inputs gives the same stored dates as recalculating once |
| SchedulerProperties.OversizedTaskStillPlaced | server/src/services/SchedulerService.js:85-92 | a 500-minute task with a single one-hour Monday is dated that Monday |
| SchedulerProperties.MondayTuesdayWednesday | server/src/services/SchedulerService.js:59-100 | a week of one hour on Monday, none on Tuesday and two on Wednesday dates tasks of 40, 50 and 90 minutes on Monday, Wednesday and the next Monday |
| CourseImporter.PrepareImport | client/src/components/CourseImporter.jsx:93-109 | the import is refused for an empty title first, then for a missing preview, and otherwise carries the title, the fixed description and the preview's subjects |
| CourseImporter.ScanHeaderRow | client/src/components/CourseImporter.jsx:38-45 | the cell loop of one row gives the column indices of the header-scan specification `ScanCells` |
| CourseImporter.AddTopic | client/src/components/CourseImporter.jsx:60-72 | one contributing row updates the dictionary and its key order as the specification `AddEntry` does |
| CourseImporter.Summarize | client/src/components/CourseImporter.jsx:77-82 | the preview lists the dictionary's subjects in key order, counts them, and counts their topics |
| CourseImporter.ParseSheet | client/src/components/CourseImporter.jsx:28-82 | the row loop gives the specification `ReadSheet` of the rows (header scan, `Entries`, grouping, preview): the preview, or the read error when a subject key is an inherited property |
| CourseImporter.Group | client/src/components/CourseImporter.jsx:60-67 | the key order lists exactly the keys of the subject dictionary |
| CourseImporter.InheritedKeyFails | client/src/components/CourseImporter.jsx:60-69 | an inherited subject key in any prefix of the rows makes the whole read fail |
| CourseImporter.EntriesPrefix | client/src/components/CourseImporter.jsx:35-75 | the entries of the first rows are a prefix of the entries of all rows |
| ImporterProperties.ColumnsPersist | client/src/components/CourseImporter.jsx:37-51 | once the header is found, no later row changes any column index |
| ImporterProperties.NothingBeforeHeader | client/src/components/CourseImporter.jsx:37-51 | neither the rows before the header nor the header row itself contribute a topic |
| ImporterProperties.HeaderHasBothColumns | client/src/components/CourseImporter.jsx:28-49 | a found header has a real topic column and a real subtopic column; every index is -1 or a column |
| ImporterProperties.ScanBounds | client/src/components/CourseImporter.jsx:38-45 | a row's scan leaves an index as it was or sets it to one of the row's columns |
| ImporterProperties.NoMatchKeeps | client/src/components/CourseImporter.jsx:28-31 | an index found in an earlier row persists through a row with no matching cell |
| ImporterProperties.LastMatchWins | client/src/components/CourseImporter.jsx:39-44 | the last cell of a row that matches a column kind sets that column |
| ImporterProperties.ContainsOccurs | client/src/components/CourseImporter.jsx:41-42 | the substring test holds exactly when the text occurs at some position |
| ImporterProperties.SubtopicIsTopic | client/src/components/CourseImporter.jsx:41-42 | every cell that matches the subtopic test also matches the topic test |
| ImporterProperties.TopicNotBeforeSubtopic | client/src/components/CourseImporter.jsx:41-42 | in a row with a subtopic header cell, the topic column ends at or after the subtopic column |
| ImporterProperties.HeaderReadsSubtopicTwice | client/src/components/CourseImporter.jsx:39-49 | the header row "Tópico, Subtópico, TE" sets topic = subtopic = column 1 and time = column 2, and counts as found |
| ImporterProperties.TopicCell | client/src/components/CourseImporter.jsx:40-43 | "Tópico" trims and lower-cases to a text matching only the topic test |
| ImporterProperties.SubtopicCell | client/src/components/CourseImporter.jsx:40-43 | "Subtópico" trims and lower-cases to a text matching both the topic and subtopic tests |
| ImporterProperties.TimeCell | client/src/components/CourseImporter.jsx:40-43 | "TE" trims and lower-cases to a text matching only the time test |
| ImporterProperties.TopicSubtopicSheetAsWritten | client/src/components/CourseImporter.jsx:28-82 | a sheet whose header row is "Tópico, Subtópico, TE" files its topic under a subject named after the topic, whatever the subject cell says |
| ImporterProperties.OneEntryPreview | client/src/components/CourseImporter.jsx:60-82 | one contributing row gives one subject, with the fixed colour and weight, holding its topic |
| ImporterProperties.LeadingIntOfPrinted | client/src/components/CourseImporter.jsx:71 | a printed whole number followed by a non-digit or nothing reads back as that number |
| ImporterProperties.LeadingIntAfterSpaces | client/src/components/CourseImporter.jsx:71 | leading white space does not change the number a text starts with |
| ImporterProperties.HoursOfPrintedNumber | client/src/components/CourseImporter.jsx:71 | an hours text starting with n after white space reads as n hours, giving n * 60 minutes, or 60 when n is 0 |
| ImporterProperties.MinutesOfNumber | client/src/components/CourseImporter.jsx:71 | `Minutes` of a number cell (through `ParseHours`) gives its hours times 60, and 0 hours gives 60 minutes |
| ImporterProperties.DefaultHour | client/src/components/CourseImporter.jsx:57 | a missing time column, or a blank hours cell, gives 60 minutes |
| ImporterProperties.NonNumericTextOneHour | client/src/components/CourseImporter.jsx:71 | a text that does not start with a number gives 60 minutes |
| ImporterProperties.MinutesNonZero | client/src/components/CourseImporter.jsx:57-71 | a topic's minutes are never 0 |
| ImporterProperties.EntriesTruthy | client/src/components/CourseImporter.jsx:55-59 | every topic comes from a row whose subject and topic cells are both truthy (`Truthy`, JavaScript's truthiness of a cell), and is keyed by its subject cell |
| ImporterProperties.RowContributes | client/src/components/CourseImporter.jsx:54-72 | every data row after the header that names a subject and a topic yields its topic |
| ImporterProperties.GroupKeys | client/src/components/CourseImporter.jsx:60-67 | the dictionary has a subject exactly for the property names (`Key`) the rows' subject cells become |
| ImporterProperties.GroupTopics | client/src/components/CourseImporter.jsx:60-72 | each subject has colour #4F46E5, weight 1 and the topics of its rows in row order |
| ImporterProperties.GroupName | client/src/components/CourseImporter.jsx:60-66 | each subject is named by the subject cell of the first row with its key |
| ImporterProperties.GroupDistinct | client/src/components/CourseImporter.jsx:77 | the key order lists each subject once |
| ImporterProperties.CountAll | client/src/components/CourseImporter.jsx:80 | counted over the dictionary's keys, the topics are as many as the contributing rows |
| ImporterProperties.PreviewTotals | client/src/components/CourseImporter.jsx:77-81 | totalTopics is the number of contributing rows, and totalSubjects is the number of distinct subject keys |
| ImporterProperties.ReadSheetTotals | client/src/components/CourseImporter.jsx:77-81 | a sheet that reads successfully has those totals over its own rows |
| ImporterProperties.InheritedNameFails | client/src/components/CourseImporter.jsx:60-69 | a subject named "constructor" makes reading the sheet fail with the read error |
| Decimal.ParseNatToString | client/src/components/StudentScheduler.jsx:67 | the printed digits of a number read back as the number |
| StudentScheduler.JsRem | client/src/components/StudentScheduler.jsx:66 | the remainder is JavaScript's `%`: the dividend minus the divisor times the quotient truncated toward zero, so it has the dividend's sign and is smaller than the divisor in size |
| StudentSchedulerProperties.FaceOfNonNegative | client/src/components/StudentScheduler.jsx:64-68 | for a time that is not negative, the face shows floor(s / 60), a colon and s mod 60 padded to two digits |
| StudentSchedulerProperties.FormatTimeRoundTrip | client/src/components/StudentScheduler.jsx:64-68 | for s ≥ 0, `FormatTime(s)` read back by `ReadClock` as minutes * 60 + seconds gives s |
| StudentSchedulerProperties.FormatTimeExamples | client/src/components/StudentScheduler.jsx:64-68 | a full pomodoro shows "25:00", 65 seconds show "1:05", and 0 shows "0:00" |
| StudentScheduler.TasksOnConcat | client/src/components/StudentScheduler.jsx:70-76 | the tasks of a day, filtered over two lists one after the other, are the two filters joined |
| StudentScheduler.TasksOnAppend | client/src/components/StudentScheduler.jsx:70-76 | one more task joins the group of exactly the day it is dated |
| StudentScheduler.TasksOnUndated | client/src/components/StudentScheduler.jsx:71-73 | a day's group is empty exactly when no task is dated that day |
| StudentScheduler.GroupByDay | client/src/components/StudentScheduler.jsx:70-76 | the dictionary has a key exactly for the days some task is dated; each key holds the tasks dated that day, in input order; the key list names each key once |
| StudentSchedulerProperties.TasksOnMembers | client/src/components/StudentScheduler.jsx:71-74 | a day's group holds only input tasks dated that day, so undated tasks are in no group |
| StudentSchedulerProperties.OneGroupPerTask | client/src/components/StudentScheduler.jsx:70-76 | a task is in at most one day's group, that of its own date |
| StudentSchedulerProperties.DatedTaskGrouped | client/src/components/StudentScheduler.jsx:70-76 | every dated task is in the group of its day |
| StudentSchedulerProperties.GroupsKeepOrder | client/src/components/StudentScheduler.jsx:74 | the group built from a prefix of the tasks is a prefix of the group |
| StudentSchedulerProperties.GroupSize | client/src/components/StudentScheduler.jsx:70-76 | a day's group has as many tasks as the input has dated that day |
| StudentScheduler.Insert | client/src/components/StudentScheduler.jsx:96 | insertion keeps every day and adds the new one |
| StudentScheduler.SortDays | client/src/components/StudentScheduler.jsx:96 | the sorted list is a permutation of the dictionary's days |
| StudentSchedulerProperties.InsertMembers | client/src/components/StudentScheduler.jsx:96 | the days after an insertion are the inserted one and the old ones |
| StudentSchedulerProperties.InsertAscending | client/src/components/StudentScheduler.jsx:96 | inserting keeps a list in ascending order |
| StudentSchedulerProperties.InsertStrictlyAscending | client/src/components/StudentScheduler.jsx:96 | inserting a new day keeps a list strictly ascending |
| StudentSchedulerProperties.SortDaysAscending | client/src/components/StudentScheduler.jsx:96 | the sorted days ascend, strictly when no day repeats, and are the same days |
| StudentSchedulerProperties.LateIffBeforeToday | client/src/components/StudentScheduler.jsx:98 | `IsLate`: a day is late exactly when it is before today |
| StudentSchedulerProperties.AgendaContents | client/src/components/StudentScheduler.jsx:70-98 | `Agenda`: over the dictionary the grouping builds, the screen lists, as one `DayGroup` per day, every dated day once, in strictly ascending order, each with the tasks dated that day, and late exactly when before today |
| StudentScheduler.Pomodoro.constructor | client/src/components/StudentScheduler.jsx:12-13 | a fresh widget holds a full, stopped pomodoro of 1500 seconds |
| StudentScheduler.Pomodoro.Decrement | client/src/components/StudentScheduler.jsx:23 | the interval's callback takes one second off and changes nothing else |
| StudentScheduler.Pomodoro.Effect | client/src/components/StudentScheduler.jsx:19-30 | the effect keeps an interval exactly while the clock is active with time left; otherwise, at 0, it stops the clock and alerts |
| StudentScheduler.Pomodoro.Tick | client/src/components/StudentScheduler.jsx:19-30 | one second of a counting clock gives the state of the `Second` transition, alerts exactly when it takes the timer from 1 to 0, and keeps the timer within 0..1500 |
| StudentScheduler.Pomodoro.Toggle | client/src/components/StudentScheduler.jsx:155 | the play/pause button gives the state of `Press`, and keeps the timer within 0..1500 |
| StudentScheduler.Pomodoro.Reset | client/src/components/StudentScheduler.jsx:161 | the reset button gives a full, stopped pomodoro without an alert |
| StudentSchedulerProperties.ClockStaysValid | client/src/components/StudentScheduler.jsx:21-27 | the timer never leaves 0..1500, so it never goes negative |
| StudentSchedulerProperties.ZeroStops | client/src/components/StudentScheduler.jsx:25-27 | a clock that reaches 0, by counting or by pressing play at 0, is stopped by the effect (`Settle`) |
| StudentSchedulerProperties.SecondCounts | client/src/components/StudentScheduler.jsx:21-24 | under `Second`, the timer changes only while the clock is active and above 0, and then by one second |
| StudentSchedulerProperties.PausedHolds | client/src/components/StudentScheduler.jsx:21 | a paused clock does not change, however many seconds pass |
| StudentSchedulerProperties.CountsDown | client/src/components/StudentScheduler.jsx:21-24 | a running clock with k + m seconds left has k left after m seconds |
| StudentSchedulerProperties.RunsOut | client/src/components/StudentScheduler.jsx:19-30 | a clock started with n seconds left is at 0 and stopped after exactly n seconds |
| StudentSchedulerProperties.RunThenSecond | client/src/components/StudentScheduler.jsx:19-30 | n + 1 seconds are n seconds and then one more |
| StudentSchedulerProperties.PressFlips | client/src/components/StudentScheduler.jsx:155 | `Press`, the play/pause button, keeps the timer and, with time left, flips only `isActive`, so pressing twice restores the clock; at 0 it stays stopped |
| StudentSchedulerProperties.ResetStops | client/src/components/StudentScheduler.jsx:161 | `ResetClock`: reset gives (1500, stopped) from any state, and that state raises no alert |
| StudentSchedulerProperties.AlertsOnFinish | client/src/components/StudentScheduler.jsx:25-30 | a change to a clock at 0 alerts twice if it was running (the effect runs again after stopping it) and once if it was stopped; a clock not at 0 never alerts |

## Left out

- Database access (the availability and task queries, the per-task updates), the HTTP controllers and routes, authentication, and `console.log`. The availability rows and the pending queue are inputs. The task updates are writes into the `dates` array.
- The queue order. It comes from the database's `orderBy topic.orderIndex`, which leaves ties between subjects to the database, so the model takes the queue as an arbitrary sequence.
- Concurrent runs of the distribution for the same learner. There is no locking, and concurrency is outside the model.
- The date library: time zones, `addDays` across daylight-saving changes, ISO parsing and the Portuguese day labels. Days are local day numbers, and "now" is local seconds since the epoch.
- The spreadsheet decoding (`XLSX.read`, `FileReader`, `sheet_to_json`). The model starts from the rows of cells.
- `parseFloat` on fractions, exponents and `Infinity`. Hours are whole numbers: a number cell is an integer, and a text cell reads as the integer it starts with.
- The ordering `Object.values` applies to integer-like keys, which puts them first in ascending order. The model lists subjects in first-insertion order.
- Lower-casing beyond the Basic Latin and Latin-1 capitals.
- The real one-second timing of `setInterval`, the `alert` dialog itself (the model counts alerts) and React rendering.
- `StudentScheduler.SortDays`: JavaScript sorts the `yyyy-MM-dd` keys as strings. For four-digit years this is the order of the day numbers, which is the order modelled. The model sorts by insertion, and the result is unique because the keys are distinct.
- `SchedulerProperties.FillCapacity`, `SchedulerProperties.PlanCapacity`, `SchedulerProperties.FillDefers`, `SchedulerProperties.PlanDefers`: stated for positive durations only. The service does not check durations, and a zero or negative duration can let a force-placed task follow other tasks on the same day.
