# Time-tracking backend: timer logs, timesheets and screenshots

This project models the logic of three Express routers of a time-tracking backend:

- `Router/ActivityRouter.js` — the batch `/timer-log` upload. It reduces a day's incoming
  intervals by start time, then folds them into the stored timer log of (user, date, project).
- `Router/getTimeSheet.js` — the timesheet views and manual edits:
  - the inclusive activity join and the activity threshold;
  - the daily, weekly, calendar and total-worked-time views;
  - manual add, edit and delete of one interval.
- `Router/screenshotRouter.js` — screenshots:
  - reading the capture stamp out of an upload URL and the upload rule;
  - cutting a day's captures into ten-minute intervals;
  - grouping the intervals into hourly blocks with a running `totalWorked`;
  - the strict-overlap activity of each interval.

The database, HTTP and the `moment`/`Date` libraries are replaced by values:

- stored documents and samples are inputs;
- outcomes are `Result` values (`NotFound`, `Conflict`, `Invalid`, `ServerError` for 404, 400, 400 and 500, an overlap `Conflict` being answered 400 like `Invalid`; `Unanswered` for a handler that throws before its `try` block, which Express 4 leaves without any response).

Time and dates:

- A stored time is a canonical `HH:MM:SS` string. `Clock` proves that these strings are in bijection with seconds since midnight (`TimeOfDay`) and order the same way. The model therefore keeps every interval as two `TimeOfDay` values.
- A date is a day number. Day 0 is a Monday, so ISO 8601 weekdays (ISO 8601:2004 section 4.1.4) are `d % 7 + 1`.

Modules, one file each:

| module | models |
|---|---|
| `Wrappers` | `Option` and `Result` |
| `Text` | digits, `String(n)`, `padStart`, `split` on one character, `Number`/`parseInt` on digit strings, ASCII case |
| `Clock` | `timeStringToSeconds`, the `HH:MM:SS`, `HH:mm`, `hh:mm:ss A` and `H:mm:ss` renderings, `formatTimeTo24Hour` |
| `Timelog` | the interval, day-log and activity-sample records; the stored document as the class `TimerLog`; ISO weeks; the activity join and threshold; durations |
| `Merge` | the `/timer-log` reduce-and-fold |
| `Edits` | add, edit and delete of one interval |
| `Objects` | a plain object used as a dictionary: inherited `Object.prototype` names and the key order of `Object.keys`/`Object.values` |
| `Timesheet` | the daily view and total worked time |
| `Weekly` | the weekly project × weekday grid |
| `Calendar` | the seven-day task calendar |
| `Screenshots` | URL stamps, upload, intervals, hourly blocks, activity |

Imperative code is modelled as imperative Dafny:

- the reduction dictionary, the start index, the in-place fold over the stored document, and the add, edit and delete updates of `TimerLog.logs`;
- the weekly `projectData` map, the calendar's `tasks.push` loop and the `hourlyBlocks` dictionary.

Each of these is a method with loop invariants. Each method is proved against a specification function about which the lemmas below are stated.

Re-uploading a batch is meant to be a no-op. The code does not behave that way, and the model follows the code: `Merge.ReingestNotIdempotent` exhibits a batch whose second upload changes the log.

## Model

| member | source | states |
|---|---|---|
| Text.SplitJoin | Router/ActivityRouter.js:53 | `split` on one character loses nothing: no part holds the separator, and the parts joined with it give the string back |
| Text.SplitThree | Router/ActivityRouter.js:53 | three separator-free fields joined by the separator split back into exactly those three fields |
| Text.NatToStringValue | Router/screenshotRouter.js:131-133 | `String(n)` reads back as `n` |
| Text.PadStart2 | Router/screenshotRouter.js:131-133 | `padStart(2, "0")` yields digits with value `n`, exactly two of them below 100 |
| Text.ParseInt | Router/screenshotRouter.js:111 | `parseInt` is a number exactly when the text starts with a digit |
| Text.LeadingDigitsOfDigits | Router/getTimeSheet.js:610 | `parseInt` of an all-digit text reads the whole text |
| Clock.TimeStringOfFields | Router/ActivityRouter.js:52-55 | `timeStringToSeconds` of three digit fields joined by ':' is h·3600 + m·60 + s |
| Clock.CanonicalTimeValue | Router/ActivityRouter.js:52-55 | on a canonical `HH:MM:SS` string the result is h·3600 + m·60 + s and lies in [0, 86399] |
| Clock.CanonicalOrder | Router/ActivityRouter.js:52-55 | canonical strings compare with JavaScript's string `<`, and are equal, exactly as their seconds do |
| Clock.TimeTextRoundTrip | Router/ActivityRouter.js:52-55 | formatting seconds then reading them is the identity, and so is reading a canonical string then formatting it |
| Clock.FormatThenRead | Router/ActivityRouter.js:52-55 | reading a formatted time gives the time back |
| Clock.ReadThenFormat | Router/ActivityRouter.js:52-55 | formatting the seconds of a canonical string gives the string back |
| Clock.FormatTimeCanonical | Router/ActivityRouter.js:52-55 | the rendering of a time of day is canonical and stands for that time |
| Clock.FormatTimeInjective | Router/ActivityRouter.js:52-55 | two times render the same exactly when they are equal |
| Clock.FormatHHmmTruncates | Router/getTimeSheet.js:319 | `formatTime`'s `HH:mm`, read back with ":00", is the time cut to the minute |
| Clock.Hour12 | Router/getTimeSheet.js:135-136 | the 12-hour clock-face hour lies in 1..12 |
| Clock.To24HourOfClockText | Router/getTimeSheet.js:607-614 | `formatTimeTo24Hour` maps 12 AM to 00, other PM hours h to h+12, pads the hour and keeps minutes and seconds as given |
| Clock.To24HourOfFormat12 | Router/getTimeSheet.js:607-614 | converting the daily view's `hh:mm:ss A` text back gives the stored `HH:MM:SS` |
| Clock.MeridiemHour | Router/getTimeSheet.js:611-612 | the period and the clock-face hour determine the 24-hour hour |
| Clock.DurationReadsBack | Router/getTimeSheet.js:116-118 | an `H:mm:ss` duration reads back through `timeStringToSeconds` as the same seconds |
| Timelog.TimerLog.constructor | Router/ActivityRouter.js:91-98 | a new document holds the given date, project, source, time type and entries |
| Timelog.StartOfIsoWeek | Router/getTimeSheet.js:194 | `startOf("isoWeek")` is a Monday at most six days before the date |
| Timelog.StartOfIsoWeekUnique | Router/getTimeSheet.js:194-195 | that Monday is the only Monday in the seven days ending at the date |
| Timelog.WeekdayOfOffset | Router/getTimeSheet.js:198-201 | the i-th day of the ISO week has ISO weekday i+1 |
| Timelog.IsoWeekday | Router/getTimeSheet.js:238 | `isoWeekday()` lies in 1..7 |
| Timelog.BelowIsValueLess | Router/getTimeSheet.js:111 | the integer threshold test is exactly "the mean rate is below the threshold" |
| Timelog.Select | Router/getTimeSheet.js:90-98 | a sample is kept exactly when it is one of the input samples and satisfies the test; never more samples than given |
| Timelog.SelectAppend | Router/getTimeSheet.js:90-98 | `filter` keeps the input order: selecting from two runs of samples is selecting from each, one after the other |
| Timelog.SelectCounts | Router/getTimeSheet.js:90-98 | `filter` keeps each accepted sample as often as it occurs and drops the others entirely |
| Timelog.MeanOf | Router/getTimeSheet.js:101-108 | the mean counts every sample it is given |
| Timelog.InclusiveMeanCount | Router/getTimeSheet.js:89-108 | the mean counts the samples that overlap the entry in the closed sense, and it is 0 when none does |
| Timelog.InclusiveMeanAtMost100 | Router/getTimeSheet.js:101-108 | with rates of at most 100 the mean never exceeds 100 |
| Timelog.MeanOfBound | Router/getTimeSheet.js:101-104 | rates of at most 100 sum to at most 100 per sample |
| Timelog.MeanAtMost100 | Router/getTimeSheet.js:105-108 | a sum of at most 100 per sample averages to at most 100 |
| Timelog.PassingEntries | Router/getTimeSheet.js:110-113 | an entry is kept exactly when its mean passes the threshold; with no threshold every entry is kept |
| Timelog.SumDurationsAppend | Router/getTimeSheet.js:469-471 | summing durations distributes over concatenation |
| Timelog.SumDurationsNonnegative | Router/getTimeSheet.js:469-471 | entries that stop no earlier than they start have a nonnegative sum |
| Timelog.EntryCountOnSnoc | Router/getTimeSheet.js:380-427 | one more log adds its entries to the count of its own date only |
| Merge.FindStart | Router/ActivityRouter.js:71 | the first entry with the given start, or none |
| Merge.MaxStop | Router/ActivityRouter.js:76-79 | the latest stop a batch gives a start, attained by one of its entries |
| Merge.ReduceCharacterized | Router/ActivityRouter.js:65-84 | the reduction has one entry per distinct incoming start and no other; each stop is the latest stop for that start; the reason is the first entry's; entries keep first-seen order |
| Merge.ReduceStartsOnce | Router/ActivityRouter.js:65-84 | each incoming start appears exactly once after the reduction |
| Merge.ReduceBatch | Router/ActivityRouter.js:65-84 | the dictionary loop and `Object.values` compute the reduction |
| Merge.Tally | Router/ActivityRouter.js:67-81 | one batch entry keeps the dictionary equal to the reduction so far: a new start is added last, a known start takes the strictly later stop |
| Merge.TabulatesNew | Router/ActivityRouter.js:71-73 | inserting a new start keeps the dictionary equal to the reduction |
| Merge.TabulatesKnown | Router/ActivityRouter.js:74-79 | raising a known start's stop keeps the dictionary equal to the reduction |
| Merge.StartIndex | Router/ActivityRouter.js:101-104 | every stored start is indexed, at its last position |
| Merge.BuildStartIndex | Router/ActivityRouter.js:101-104 | the indexing loop builds that map |
| Merge.FirstOverlap | Router/ActivityRouter.js:121-132 | `find` returns the first stored entry that contains the new start or the new stop (closed test), or none |
| Merge.FoldStep | Router/ActivityRouter.js:107-148 | one reduced entry keeps every stored entry in place, with the same start and reason and a stop no earlier, and adds at most one entry |
| Merge.FoldExtends | Router/ActivityRouter.js:107-148 | the fold never removes an entry, never changes a start or a reason, never shortens a stop, and adds at most one entry per reduced entry |
| Merge.ExtendsTransitive | Router/ActivityRouter.js:107-148 | "keeps and never shortens" composes |
| Merge.FoldStepAppends | Router/ActivityRouter.js:119-139 | a reduced entry is appended exactly when its start is not stored and no stored entry passes the closed test; the new entry has no reason |
| Merge.FoldAppended | Router/ActivityRouter.js:134-139 | every entry past the stored ones has no reason, the start of some reduced entry, and a stop no earlier than that entry's stop |
| Merge.FoldAppendsInOrder | Router/ActivityRouter.js:119-139 | the fold ends with the stored entries followed by one entry per appended reduced entry, in the order the batch was processed; each has that entry's start, no reason, and a stop no earlier than its stop |
| Merge.FoldStepCovers | Router/ActivityRouter.js:107-148 | after one step some stored entry reaches the new stop and shares its start or contains one of its endpoints |
| Merge.FoldCovers | Router/ActivityRouter.js:107-148 | after the fold every reduced entry is so accounted for |
| Merge.CoversExtended | Router/ActivityRouter.js:111-146 | an entry accounted for stays accounted for as stops grow |
| Merge.MergeIntoStored | Router/ActivityRouter.js:107-148 | the in-place loop over the stored document leaves exactly the fold of the reduced batch |
| Merge.FoldOne | Router/ActivityRouter.js:108-147 | one iteration updates the document in place to one fold step |
| Merge.IngestDay | Router/ActivityRouter.js:87-149 | with no stored log a new document holds exactly the reduced batch; otherwise the stored document holds the fold of it |
| Merge.ContainmentAppended | Router/ActivityRouter.js:121-139 | an incoming interval that strictly contains a stored one is appended, so the log overlaps itself |
| Merge.EarlierStartLost | Router/ActivityRouter.js:119-146 | an incoming interval that starts before a stored one and stops inside it changes nothing |
| Merge.ReingestNotIdempotent | Router/ActivityRouter.js:99-148 | uploading the same batch twice leaves a different log than uploading it once |
| Merge.ReducePair | Router/ActivityRouter.js:65-84 | two entries with different starts reduce to themselves |
| Merge.StartIndexOfPair | Router/ActivityRouter.js:101-104 | two different starts are indexed at 0 and 1 |
| Merge.FoldPair | Router/ActivityRouter.js:107-148 | folding two entries is two fold steps |
| Merge.FirstUploadFolds | Router/ActivityRouter.js:107-148 | the first upload of the example batch lengthens both stored entries |
| Merge.SecondUploadFolds | Router/ActivityRouter.js:107-148 | the second upload of the same batch lengthens the first entry again |
| Edits.ConflictsIsOverlap | Router/getTimeSheet.js:525-529 | for intervals of positive length the three-clause test is exactly half-open overlap |
| Edits.BackToBackAccepted | Router/getTimeSheet.js:525-529 | an interval starting at an entry's stop, or stopping at its start, does not conflict |
| Edits.EmptyIntervalInside | Router/getTimeSheet.js:525-529 | a zero-length interval inside an entry, or at its start, conflicts |
| Edits.Snapshots | Router/getTimeSheet.js:515-516 | the documents as the overlap loop reads them |
| Edits.FindConflict | Router/getTimeSheet.js:515-537 | the nested loop finds a conflict exactly when some entry of some document conflicts |
| Edits.AddTime | Router/getTimeSheet.js:515-583 | rejected with Conflict and no change exactly when an entry conflicts; otherwise the entry, reason included, is appended to the project's log or stored as a one-entry log, and a rate-50 sample over the same times is recorded |
| Edits.AddKeepsDisjoint | Router/getTimeSheet.js:515-559 | an accepted addition keeps a disjoint log disjoint |
| Edits.AddedSampleMatches | Router/getTimeSheet.js:576-583 | the recorded sample matches the added interval in the inclusive join |
| Edits.FindEntry | Router/getTimeSheet.js:671-673 | the first entry with exactly the old start and stop, or none |
| Edits.EditTime | Router/getTimeSheet.js:660-705 | NotFound without a log or a matching entry; Conflict with no change when the new times conflict with another entry; otherwise only that entry's start and stop change |
| Edits.EditKeepsDisjoint | Router/getTimeSheet.js:680-705 | an accepted edit keeps a disjoint log disjoint |
| Edits.Remove | Router/getTimeSheet.js:637-639 | the filter keeps exactly the entries not equal in both start and stop text |
| Edits.RemoveAppend | Router/getTimeSheet.js:637-639 | the filter works entry by entry and keeps the survivors' order |
| Edits.RemoveAbsent | Router/getTimeSheet.js:637-639 | removing times that no entry has changes nothing |
| Edits.RemoveBySeconds | Router/getTimeSheet.js:637-639 | removing by rendered times removes exactly the entries with those times |
| Edits.DeleteEntry | Router/getTimeSheet.js:607-644 | a time without a period throws before the try block (Unanswered: no response, no change); no log is NotFound; otherwise the document keeps exactly the entries not matching the converted times |
| Edits.DisjointUncons | Router/getTimeSheet.js:637-639 | the head of a disjoint log overlaps none of the rest, and the rest is disjoint |
| Edits.DisjointCons | Router/getTimeSheet.js:637-639 | an entry overlapping none of a disjoint log can be put in front of it |
| Edits.RemoveKeepsDisjoint | Router/getTimeSheet.js:637-639 | deletion keeps a disjoint log disjoint |
| Edits.DeleteUndoesAdd | Router/getTimeSheet.js:607-639 | deleting, by its displayed 12-hour times, an entry just added gives the log back |
| Timesheet.ProjectName | Router/getTimeSheet.js:120-131 | the stored project name, or "Unknown" when there is no project, no such project or an empty name |
| Timesheet.EntryColumns | Router/getTimeSheet.js:130-152 | manual time shows the mean and 100% manual; idle time shows its duration as idle and 0% activity; other time shows the mean; every column not named stays 0% |
| Timesheet.EntryLabelsReadBack | Router/getTimeSheet.js:135-136 | a row's start and end labels convert back to the stored times |
| Timesheet.EntryRows | Router/getTimeSheet.js:85-155 | one row per entry, in order, with that entry's inclusive mean |
| Timesheet.EntriesOnNonEmpty | Router/getTimeSheet.js:160-161 | a date has rows exactly when one of its logs has an entry passing the threshold |
| Timesheet.EntriesOnCount | Router/getTimeSheet.js:110-113 | with no threshold every entry of every log of the date is a row |
| Timesheet.DatesOf | Router/getTimeSheet.js:69-74 | the grouping holds each date of the logs once |
| Timesheet.FirstLogOf | Router/getTimeSheet.js:69-74 | the index of the first log of a date: that log has the date and no earlier one does |
| Timesheet.DatesOfOrdered | Router/getTimeSheet.js:69-78 | `Object.keys` lists the dates in the order of their first logs (date keys are never array indices) |
| Timesheet.NonEmptyGroups | Router/getTimeSheet.js:160-168 | only dates with rows are kept, each with all of its rows, each once |
| Timesheet.NonEmptyGroupsOrdered | Router/getTimeSheet.js:165-167 | dropping the dates without rows keeps the others in the order of their first logs |
| Timesheet.DailyViewCharacterized | Router/getTimeSheet.js:18-168 | Invalid without a start or an end date; with both, NotFound exactly when no log is found; otherwise each date once, in the order of its first log, present exactly when it has a passing entry, with all its rows, and never empty |
| Timesheet.TotalSecondsAppend | Router/getTimeSheet.js:468-474 | the total is additive over the logs |
| Timesheet.TotalSecondsNonnegative | Router/getTimeSheet.js:468-474 | with well-formed entries the total is not negative |
| Timesheet.TotalWorkedReadsBack | Router/getTimeSheet.js:443-479 | Invalid without a date; with one, NotFound exactly when no log is found; otherwise the rendered total reads back as the sum of every entry's duration |
| Timesheet.TotalWorkedExample | Router/getTimeSheet.js:468-479 | half an hour in one log and a quarter hour in another render as 0:45:00 |
| Weekly.BuildWeekDates | Router/getTimeSheet.js:193-201 | seven consecutive dates from the Monday of the anchor's ISO week, Monday to Sunday, containing the anchor |
| Weekly.LastLogFor | Router/getTimeSheet.js:237-302 | the last log of the project on the weekday, or none |
| Objects.FilterCounts | Router/getTimeSheet.js:308 | filtering keeps each accepted key as often as it occurs and drops the others entirely |
| Objects.InsertBy | Router/getTimeSheet.js:308 | the result holds the keys plus exactly the inserted one, and starts with the inserted key or the first old key |
| Objects.InsertByAscending | Router/getTimeSheet.js:308 | inserting a key into keys of ascending rank keeps them ascending |
| Objects.SortBy | Router/getTimeSheet.js:308 | the sorted keys ascend by rank and are a permutation of the input |
| Objects.FilterAppend | Router/getTimeSheet.js:308 | filtering distributes over concatenation |
| Objects.PropertyOrderPermutes | Router/getTimeSheet.js:308 | `Object.values` lists every entry exactly once |
| Objects.PropertyOrderIndicesFirst | Router/getTimeSheet.js:308 | array-index keys come before all other keys, in ascending numeric order |
| Objects.PropertyOrderNamesInOrder | Router/getTimeSheet.js:308 | the other keys keep their insertion order |
| Objects.PropertyOrderOfNames | Router/getTimeSheet.js:308 | with no array-index key the order is the insertion order |
| Objects.IndexKeyFirstExample | Router/getTimeSheet.js:308 | rows added as "Beta" then "7" are listed "7" first |
| Weekly.ProjectOrder | Router/getTimeSheet.js:237-254 | each project name of the logs once, in the order its row is added; a name inherited from `Object.prototype` never gets a row |
| Weekly.BlankRow | Router/getTimeSheet.js:242-254 | a new row has seven cells |
| Weekly.CellTextAppend | Router/getTimeSheet.js:300-302 | one more log moves only the cell of its own project and weekday, to its own passing time |
| Weekly.CellTextUnseen | Router/getTimeSheet.js:242-254 | a project not seen yet has every cell "-" |
| Weekly.ProjectOrderAppend | Router/getTimeSheet.js:242-254 | the order grows by a log's project exactly when the project is new and not an inherited name |
| Weekly.BlankRowHolds | Router/getTimeSheet.js:242-254 | a blank row is the row of a project no log mentions yet |
| Weekly.RowsHoldStep | Router/getTimeSheet.js:256-302 | setting the log's cell keeps every row equal to its specification |
| Weekly.RecordLog | Router/getTimeSheet.js:237-303 | one iteration keeps the rows and their order equal to their specification after one more log; a project with an inherited name gets no row and changes none |
| Weekly.Values | Router/getTimeSheet.js:308 | `Object.values(projectData)`: one row per key in `Object.values` order, each the row stored under that key |
| Weekly.RowsHoldOther | Router/getTimeSheet.js:242-303 | a log of a project without a row leaves every row as it was |
| Weekly.WeeklyView | Router/getTimeSheet.js:183-316 | Invalid without a date; ServerError exactly when a log has no populated project; otherwise the seven week dates and one row per project that is not an inherited name, in `Object.values` order (array-index names ascending, then the others in first-appearance order), each cell "-" or the passing time of the last log there |
| Weekly.FilteredCellIsZero | Router/getTimeSheet.js:267-302 | a touched cell whose entries all fail the threshold shows "0:00:00", not "-" |
| Weekly.LaterLogOverwritesCell | Router/getTimeSheet.js:300-302 | a later log of the same project and weekday overwrites the cell instead of adding to it |
| Calendar.TasksOf | Router/getTimeSheet.js:421-425 | one task per entry |
| Calendar.TaskAt | Router/getTimeSheet.js:421-425 | the task at any position is the task of the entry at that position |
| Calendar.TasksOfEntries | Router/getTimeSheet.js:421-425 | task `i` is the task of entry `i`: its start and stop as `HH:mm` and the project's name |
| Calendar.PassingEntriesSnoc | Router/getTimeSheet.js:410-418 | the passing entries grow by one more entry exactly when it passes |
| Calendar.TasksOnSnoc | Router/getTimeSheet.js:380-427 | one more log adds its tasks to its own day only |
| Calendar.TasksOfSnoc | Router/getTimeSheet.js:421-425 | tasks are appended in entry order |
| Calendar.EntryTasksArePassing | Router/getTimeSheet.js:386-426 | the inner loop's tasks are those of the passing entries, in order |
| Calendar.FindDay | Router/getTimeSheet.js:384 | `find` returns the first day with the log's date, or none |
| Calendar.EmptyWeek | Router/getTimeSheet.js:371-377 | seven days from the Monday, with no tasks |
| Calendar.WithPending | Router/getTimeSheet.js:421-425 | appending tasks to one day keeps seven days |
| Calendar.WithPendingPush | Router/getTimeSheet.js:421-425 | pushing one more task extends that day's pending tasks by it |
| Calendar.WithPendingDone | Router/getTimeSheet.js:380-427 | after one log's entries the week holds the tasks of one more log |
| Calendar.ReadEntries | Router/getTimeSheet.js:386-426 | the inner loop appends each passing entry to the log's day; it throws exactly when an entry is read without a populated project or a passing entry's date is outside the week |
| Calendar.ReadLog | Router/getTimeSheet.js:380-427 | one log read keeps the week equal to its specification, unless that log throws |
| Calendar.CalendarView | Router/getTimeSheet.js:322-434 | Invalid without a date; ServerError exactly when some log throws; otherwise seven days from the Monday, each with the tasks of its logs' passing entries in log order |
| Calendar.EntryTasksGrow | Router/getTimeSheet.js:386-426 | once an entry passes, every longer prefix has a task |
| Calendar.TasksOnCount | Router/getTimeSheet.js:380-427 | a day shows exactly one task per passing entry of its logs |
| Calendar.NoThresholdShowsEveryEntry | Router/getTimeSheet.js:416-418 | with no threshold a day shows one task per entry of its logs |
| Calendar.NoThresholdCount | Router/getTimeSheet.js:416-418 | with no threshold every entry passes |
| Calendar.TaskTimesReadBack | Router/getTimeSheet.js:421-425 | a task's times are its entry's times cut to the minute, and its project is the log's |
| Screenshots.FirstStampFrom | Router/screenshotRouter.js:11-12 | the regular-expression search finds the leftmost stamp, and no stamp before it |
| Screenshots.StampDigits | Router/screenshotRouter.js:11 | the three time fields of a stamp are digits |
| Screenshots.ExtractDateTime | Router/screenshotRouter.js:10-26 | a stamp is returned exactly when the URL contains `dddd-dd-dd_dd-dd-dd_`, with the fields of a match; otherwise null |
| Screenshots.ExtractStampText | Router/screenshotRouter.js:10-26 | a URL starting with a stamp gives back that stamp's date and fields, whatever follows |
| Screenshots.SecondsOfFields | Router/screenshotRouter.js:20-22 | hours, minutes and seconds in range read back from their seconds |
| Screenshots.CaptureSeconds | Router/screenshotRouter.js:20-22 | the stamp is a valid UTC date-time exactly when its month is 01-12, its day 01-31 and its time in range (24:00:00 as the next midnight), and then gives that time of day |
| Screenshots.MonthThirteenInvalid | Router/screenshotRouter.js:20-22 | month 13 with a valid time of day is an Invalid Date |
| Screenshots.Upload | Router/screenshotRouter.js:29-66 | NotFound without the user; Invalid without a stamp; ServerError for a stamp whose month, day or time is out of range; otherwise the URL with its capture time is saved |
| Screenshots.UploadMonthThirteen | Router/screenshotRouter.js:10-66 | uploading `2024-13-01_10-00-00_` finds the stamp, and the save of its Invalid Date fails with 500 |
| Screenshots.LocaleTimeParts | Router/screenshotRouter.js:91-99 | a label time is `hh:mm AM`: the clock-face hour, the minute and the period |
| Screenshots.LocaleTimeSameMinute | Router/screenshotRouter.js:91-94 | two times have the same label time exactly when they fall in the same minute |
| Screenshots.SameHalfSameHour | Router/screenshotRouter.js:91-94 | the same clock-face hour and period mean the same hour |
| Screenshots.FirstPart | Router/screenshotRouter.js:109 | `split(" - ")[0]` is a prefix of the label |
| Screenshots.FirstPartOf | Router/screenshotRouter.js:109 | text without '-' is the first part of itself followed by " - " |
| Screenshots.NoDashInLocaleTime | Router/screenshotRouter.js:109-110 | a label time has no '-', and its minute part has no ':' |
| Screenshots.LabelStart | Router/screenshotRouter.js:109 | the start of a capture's label is the capture's own time |
| Screenshots.LocaleTimeFields | Router/screenshotRouter.js:110 | split on ':', a label time gives the hour, then "mm AM" or "mm PM" |
| Screenshots.BlockKeyOfCapture | Router/screenshotRouter.js:109-111 | a capture's block is `hh:00 - (hh+1):00` for its 12-hour clock-face hour |
| Screenshots.SameBlockIff | Router/screenshotRouter.js:109-111 | two captures share a block exactly when their clock-face hours agree |
| Screenshots.HourKeyDistinct | Router/screenshotRouter.js:111 | block names of different hours differ |
| Screenshots.TwelveHoursApartShareBlock | Router/screenshotRouter.js:109-111 | captures twelve hours apart share a block |
| Screenshots.BlockKeyWithoutHour | Router/screenshotRouter.js:110-111 | a label starting with no digit gets a block with a NaN end |
| Screenshots.InvalidDateText | Router/screenshotRouter.js:91-99 | "Invalid Date" has no '-', no ':' and no leading digit |
| Screenshots.BlockKeyOfInvalidDate | Router/screenshotRouter.js:109-111 | every Invalid Date capture lands in the one block `Invalid Date:00 - NaN:00` |
| Screenshots.TenMinutesLater | Router/screenshotRouter.js:127-129 | ten minutes more carries minutes into hours and leaves seconds alone |
| Screenshots.AddTenMinutesOfFields | Router/screenshotRouter.js:122-133 | the string carry arithmetic on three digit fields |
| Screenshots.AddTenMinutesOfNumbers | Router/screenshotRouter.js:122-133 | the carry arithmetic on a total whose fields read as numbers |
| Screenshots.AddTenMinutesToDuration | Router/screenshotRouter.js:116-133 | adding ten minutes to a rendered `H:MM:SS` total renders the total ten minutes longer |
| Screenshots.AddTenMinutesToClock | Router/screenshotRouter.js:122-133 | the carry arithmetic on an unpadded hour and padded minutes and seconds |
| Screenshots.KeysSnoc | Router/screenshotRouter.js:108-111 | one more interval adds its own key |
| Screenshots.FirstAppearances | Router/screenshotRouter.js:113-119 | each key once, exactly the keys given |
| Screenshots.FirstAppearancesSnoc | Router/screenshotRouter.js:113-119 | a new key is added at the end; a known key changes nothing |
| Screenshots.KeyOrder | Router/screenshotRouter.js:180-181 | the blocks are listed each once, in the order their keys first appear, and exactly the keys of the intervals |
| Screenshots.InBlock | Router/screenshotRouter.js:134 | a block holds at most all the intervals |
| Screenshots.InBlockSnoc | Router/screenshotRouter.js:134 | one more interval joins the end of its own block only |
| Screenshots.InBlockOfNewKey | Router/screenshotRouter.js:113-119 | a key not seen yet has no intervals |
| Screenshots.InBlockMembers | Router/screenshotRouter.js:108-134 | a block holds exactly the intervals whose key is its key |
| Screenshots.BlockContents | Router/screenshotRouter.js:108-134 | a block holds exactly the intervals of the view whose label falls in it |
| Screenshots.EmptyDuration | Router/screenshotRouter.js:116 | "0:00:00" is the rendering of no time |
| Screenshots.NewBlockHolds | Router/screenshotRouter.js:113-119 | a new block starts empty at "0:00:00" |
| Screenshots.BlockGrows | Router/screenshotRouter.js:121-134 | an interval joins the end of its block and adds ten minutes to its total |
| Screenshots.TenMoreMinutes | Router/screenshotRouter.js:121-133 | ten minutes per interval: n intervals then one more render as n+1 times ten minutes |
| Screenshots.BlockKept | Router/screenshotRouter.js:108-134 | an interval of another block leaves a block as it was |
| Screenshots.AddInterval | Router/screenshotRouter.js:108-135 | one iteration keeps every block equal to its specification after one more interval |
| Screenshots.TableStep | Router/screenshotRouter.js:108-135 | storing the grown block keeps the table and the key order correct |
| Screenshots.OrderStep | Router/screenshotRouter.js:113-119 | a new key is added to the order and the table alike |
| Screenshots.BlocksStep | Router/screenshotRouter.js:121-134 | storing the grown block keeps every block correct |
| Screenshots.OthersKept | Router/screenshotRouter.js:121-134 | every other block is unchanged |
| Screenshots.GroupBlocks | Router/screenshotRouter.js:106-135 | one block per key, in first-appearance order, each holding its intervals in order and ten minutes per interval |
| Screenshots.BlockSizesSnoc | Router/screenshotRouter.js:108-134 | one more interval adds one to the blocks it belongs to |
| Screenshots.BlockSizesAppendKey | Router/screenshotRouter.js:108-134 | one more block adds its size |
| Screenshots.BlocksCoverKeys | Router/screenshotRouter.js:106-135 | every interval is in exactly one block |
| Screenshots.BlocksCoverEveryCapture | Router/screenshotRouter.js:106-135 | the block sizes add up to the number of screenshots |
| Screenshots.WindowActivity | Router/screenshotRouter.js:157-174 | the mean rate of the samples that strictly overlap the interval's ten minutes, and 0 when none does |
| Screenshots.WindowActivityAtMost100 | Router/screenshotRouter.js:166-174 | with rates of at most 100 the activity never exceeds 100 |
| Screenshots.MomentSeconds | Router/screenshotRouter.js:150-153 | `moment({hour, minute})` is a time of the day, or invalid |
| Screenshots.ScreenshotActivityAlwaysZero | Router/screenshotRouter.js:144-178 | as written, every interval's activity is 0 whatever the samples |
| Screenshots.CaptureActivityZero | Router/screenshotRouter.js:146-164 | a capture's minute field reads "mm AM", which is NaN, so no sample matches |
| Screenshots.InvalidDateActivityZero | Router/screenshotRouter.js:146-164 | an Invalid Date label's hour is NaN, so no sample matches |
| Screenshots.ActivityLostExample | Router/screenshotRouter.js:144-178 | a 09:05 capture with a rate-80 sample over 09:00–09:10 should show 80 and shows 0 |
| Screenshots.IntervalOf | Router/screenshotRouter.js:86-104 | one interval per stamped screenshot, with its URL as the only image and "No Department" |
| Screenshots.Intervals | Router/screenshotRouter.js:86-104 | one interval per screenshot, in order, exactly when every URL has a stamp |
| Screenshots.ScreenshotView | Router/screenshotRouter.js:70-189 | NotFound without screenshots; ServerError exactly when a URL has no stamp; otherwise the blocks of the intervals in first-appearance order, each with its intervals and ten minutes per interval |

## Left out

- The HTTP layer is not modelled: routing, status codes and response shaping. Outcomes are `Result` values.
- Mongoose is not modelled: the queries and their `$in` filters, `save` and `populate`. Logs, samples and project names are inputs.
- The differing store keys are not modelled. The merge looks up (user, date, project); add, edit and delete use other keys. Callers pass the document found.
- `IngestDay` covers one day. The handler's outer loop over days, and its saves, are not modelled.
- `ProjectModal.findById` is a map from project id to name.
- The user lookup of the upload is the parameter `userExists`.
- The S3 pipeline is not modelled.
- Floating-point `toFixed(2)` is not modelled. The mean is an exact rational (`Mean.Value`), and the threshold test compares `total < threshold × count` in integers.
- JavaScript's string-versus-number `<` of the activity threshold, at Router/getTimeSheet.js:111, :291 and :416, is modelled as the numeric comparison. A threshold of 0 stands for "no threshold".
- Time zones and locales are fixed to UTC and en-US. `toLocaleTimeString` is modelled as `hh:mm AM` with an ASCII space before the period, and capture times are read as UTC. Recent Node releases, with newer ICU locale data, put a narrow no-break space (U+202F) there instead. The interval `time` text would then differ from the model; the block keys and the NaN minute of the Findings row would not.
- `moment` parsing of stored times is modelled only on canonical `HH:MM:SS` strings.
- Gregorian calendar arithmetic is not modelled. A date is a day number. The stamp's date text is checked only for month 01-12 and day 01-31, which is what V8 checks; a day past the month's end (February 30) rolls over into the next month there and leaves the time of day unchanged, so the model's capture time is still right.
- `Number` and `parseInt` are modelled only on the strings the code meets: digit strings, "mm AM" and "Invalid Date". Signs, exponents and whitespace are not modelled.
- Concurrent requests and their read-modify-write races are not modelled.
- The `/activity` POST handler and its request validation are not modelled.
- Screenshots.ScreenshotView: each interval's activity is computed when the interval is built, rather than by a second loop over the shared interval objects. The result is the same, but the aliasing between `intervals` and `hourlyBlocks` is not modelled.
- Screenshots.ScreenshotView: intervals carry the corrected activity (`WindowActivity`). The as-written activity is always 0 (see Findings).
- Merge.FirstOverlap: the `find` over the stored entries is a recursive function, not a loop.
- Both Modals files are schema declarations and are not modelled as code. `Interval` follows the shape of their log entries, except as the next line says.
- A log entry's `stopTime` is optional in the schema (Modals/userTimerLogModal.js:34-37), but `Interval.stop` is mandatory. Entries stored without a stop, and what the handlers do with the `undefined` they read, are not modelled.
- Weekly.Initial: `toUpperCase` is modelled on ASCII letters only (`Text.Upper`). Unicode case mapping of a project's first character (Router/getTimeSheet.js:240) is not modelled.
- Weekly.WeeklyView: a project named `__proto__` makes the handler write its cell onto `Object.prototype` itself. That pollution outlives the request and hides later projects named after a weekday. It is not modelled: an inherited name only gets no row.

## Findings

| source | as written | input that shows it | evidently intended | confidence | as-written member | corrected member |
|---|---|---|---|---|---|---|
| Router/screenshotRouter.js:146-164 | the interval start is read back from its `hh:mm AM` label with `split(":")` and `Number`. The minute field is "mm AM", which is NaN, so `moment({hour, minute})` is invalid and no activity sample ever matches: every interval's activity is 0 | a capture at 09:05 with one sample from 09:00 to 09:10 at rate 80 gets activity 0 | the mean rate (80) of the samples that strictly overlap the ten minutes from the capture's minute | not executed | Screenshots.ScreenshotActivityAlwaysZero | Screenshots.WindowActivity |
