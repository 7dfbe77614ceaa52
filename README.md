# MoodPeek weekly insights, calendar and reminders in Dafny

This project models the analysis core of MoodPeek, a mood journal. It covers:

- the weekly report (`computeWeekMetrics`): average score, grade, best and toughest day, top tags, summary;
- the distinct-day count (`countDistinctEntryDays`);
- the pattern summary (`deriveWeekPatternDetails`): most common mood, most used tag, morning/evening comparison;
- the streaks (`computeStreaks`);
- the calendar page: the month grid, the entries grouped by day, the selected week and its entries, and the week and month navigation;
- the dashboard helpers of the home page;
- the iCalendar text of the weekly reminder.

A journal entry is an `Entries.Entry`: its date, already parsed (`None` when it does not parse), an optional mood, and its tags.

- A parsed date is a `DayKeys.Stamp`: the local day, counted in days from 1970-01-01, and the milliseconds since that day's local midnight.
- `Gregorian` converts day numbers to and from proleptic Gregorian dates. It proves that the two are inverse (`CivilDayNumber`, `CivilOfDayNumber`).
- Maps the source keys by `YYYY-MM-DD` day key are keyed by day number here. This is sound because `LocalISO` is one-to-one (`LocalISOInjective`).
- Every value the source reads from the clock is a parameter: `today` on the home page, the creation time of the calendar page, and `now` for the reminder's `DTSTAMP`.
- Where the source runs a loop that fills a map, a set or a list, the model has a `method` with that loop. The method is proved equal to a function of its input (for example `WeekMetrics.TallyEntries`, `Streaks.ScanRuns`, `MonthGrid.BuildRows`), and lemmas state what the source promises about that function.

## Model

| member | source | states |
|---|---|---|
| Moods.EntryScore | client/src/utils/weekInsights.ts:27-38 | the score of an entry is its mood's score from 1 to 5, 3 for a missing mood; 5 exactly for happy/VERY_GOOD and 1 exactly for stressed/VERY_BAD |
| Moods.MeanBounds | client/src/utils/weekInsights.ts:115 | the mean of a non-empty list of scores lies between 1 and 5 |
| Moods.LabelInjective | client/src/utils/weekInsights.ts:192-193 | different moods have different labels, so counting moods by label is counting them by mood |
| Moods.LocaleRankInjective | client/src/utils/weekInsights.ts:226 | the `localeCompare` order of the ten mood labels is strict: no two labels tie |
| Gregorian.CivilDayNumber | client/src/utils/weekInsights.ts:52-57 | the date read off day `n` (`getFullYear`, `getMonth() + 1`, `getDate`) numbers back to `n` |
| Gregorian.CivilOfDayNumber | client/src/utils/weekInsights.ts:52-57 | every valid date is the date of its own day number |
| Gregorian.CivilOrder | client/src/pages/CalendarPage.tsx:174 | earlier days have earlier dates and later days later ones |
| Gregorian.DaysInMonth | client/src/pages/CalendarPage.tsx:52 | a month has 28 to 31 days, and 29 exactly for February of a leap year |
| Gregorian.MakeDay | client/src/utils/weekInsights.ts:61 | `new Date(year, monthIndex, day)` with month and day carried over: for a month index in 0..11 it is the day number of that date |
| Gregorian.NextMonthStart | client/src/pages/CalendarPage.tsx:52 | the day after the last of a month is the first of the next month, across the year's end too |
| DayKeys.ToStartOfDay | client/src/utils/weekInsights.ts:43-50 | `toStartOfDay` is null exactly for a date that does not parse, and otherwise the same local day at midnight |
| DayKeys.ToStartOfDayIdempotent | client/src/utils/weekInsights.ts:43-50 | normalising a normalised date changes nothing |
| DayKeys.TimeOrder | client/src/pages/CalendarPage.tsx:154 | time order is day order, then order within the day |
| DayKeys.DateKey | client/src/utils/weekInsights.ts:52-57 | the key is `String(year)`, a hyphen, two month digits, a hyphen, two day digits |
| DayKeys.DateKeyInjective | client/src/utils/weekInsights.ts:52-57 | different dates have different keys |
| DayKeys.LocalISOInjective | client/src/utils/weekInsights.ts:52-57 | different days have different keys, so grouping by key is grouping by day |
| DayKeys.KeyFieldsOfDateKey | client/src/utils/weekInsights.ts:59-60 | the key of a date from year 0 on splits at its two hyphens, and `parseInt` reads its year, month and day back |
| DayKeys.LocalISORoundTrip | client/src/utils/weekInsights.ts:52-64 | from year 100 on, `fromLocalISO(localISO(day))` is that day |
| DayKeys.LocalISORoundTripFailsBefore100 | client/src/utils/weekInsights.ts:61 | for a day in years 0 to 99 the round trip lands on a later day (the constructor adds 1900 to the year) |
| DayKeys.Year50Example | client/src/utils/weekInsights.ts:61 | the key of 0050-03-01 reads back as 1950-03-01 |
| DayKeys.LocalISORoundTripFixed | client/src/utils/weekInsights.ts:59-64 | with the year taken as written, the round trip gives back every day from year 0 on |
| DayKeys.NegativeYearKey | client/src/utils/weekInsights.ts:52-64 | the key of a day before year 0 starts with a minus sign, so its year field is empty and the key reads as an invalid date, as written and as corrected |
| DayKeys.StartOfWeek | client/src/utils/weekInsights.ts:66-72 | the start of a day's week is a Sunday, on or at most six days before the day |
| DayKeys.EndOfWeek | client/src/utils/weekInsights.ts:74-78 | the end of a day's week is the Saturday six days after its Sunday |
| DayKeys.StartOfWeekUnique | client/src/utils/weekInsights.ts:66-72 | a Sunday no more than six days before a day is the start of its week |
| DayKeys.WeekBoundsIdempotent | client/src/utils/weekInsights.ts:66-78 | the start and end of the week of a week's start or end are that week's start and end |
| Text.IntStrInjective | client/src/utils/weekInsights.ts:53 | `String(year)` is one-to-one |
| Text.Pad2Shape | client/src/utils/reminders.ts:1 | `String(n).padStart(2, '0')` below 100 is two digits worth `n` |
| Text.Pad2Digits | client/src/utils/reminders.ts:1 | below 100 the padded text is the tens digit followed by the units digit |
| Text.ParseIntStr | client/src/utils/weekInsights.ts:60 | `parseInt` reads back `String(i)` for every integer |
| Text.SplitJoin | client/src/utils/reminders.ts:48 | splitting a join on its separator gives the parts back when no part holds the separator's first character |
| Entries.DayEntriesNonEmpty | client/src/utils/weekInsights.ts:98-105 | a day has entries exactly when some entry's date falls on it |
| Entries.TagCountPositive | client/src/utils/weekInsights.ts:109-112 | a tag is counted exactly when some entry carries it and it is not empty |
| Entries.DatedScoresEmpty | client/src/utils/weekInsights.ts:98-107 | no score is collected exactly when no entry's date parses |
| Sorting.SortBy | client/src/utils/weekInsights.ts:129 | a sort is a permutation of its input |
| Sorting.SortSorted | client/src/utils/weekInsights.ts:129 | a sort orders its output by the key |
| Sorting.SortStable | client/src/utils/weekInsights.ts:135 | the sort is stable: elements with equal keys keep their input order |
| ObjectKeys.OwnKeysOrder | client/src/utils/weekInsights.ts:134 | `Object.entries` lists the array-index keys first in ascending numeric order, then the other keys in creation order, and lists every key once |
| WeekMetrics.GradeOf | client/src/utils/weekInsights.ts:117-122 | the grade is A from 4.2, B from 3.4, C from 2.6, D below or for NaN, and there is no grade without entries |
| WeekMetrics.GradeTexts | client/src/utils/weekInsights.ts:117-122 | the grade's letter is the dash and its label "No entries yet" exactly without a score; otherwise the letter is A from 4.2, B from 3.4, C from 2.6, and D below or for NaN |
| WeekMetrics.GradeTextsInjective | client/src/utils/weekInsights.ts:117-122 | different grades have different letters and different labels |
| WeekMetrics.GradeMonotone | client/src/utils/weekInsights.ts:117-122 | a higher average never earns a lower grade |
| WeekMetrics.TallyEntries | client/src/utils/weekInsights.ts:94-113 | the `forEach` pass fills the day groups, the tag counts and the score list as their specification functions say |
| WeekMetrics.AddEntry | client/src/utils/weekInsights.ts:98-113 | one pass of the loop body adds one entry to the tally |
| WeekMetrics.GroupEntry | client/src/utils/weekInsights.ts:99-105 | an entry joins the list of its day, which is created on first use; an entry whose date does not parse is skipped |
| WeekMetrics.CountTags | client/src/utils/weekInsights.ts:109-112 | each non-empty tag adds one to its count and is recorded on first use |
| WeekMetrics.ComputeWeekMetrics | client/src/utils/weekInsights.ts:80-160 | the report is the one its specification function builds, and with no entries it is the empty report: no average, no grade, no days, no best or tough day, no tags |
| WeekMetrics.CountDistinctEntryDays | client/src/utils/weekInsights.ts:162-171 | the count is the number of distinct days on which some entry's date falls |
| WeekMetrics.Ends | client/src/utils/weekInsights.ts:131-132 | the best day is the head of the ranking and the tough day its tail, or the head again for a single day |
| WeekReport.ReportAverage | client/src/utils/weekInsights.ts:115-122 | the report's grade is the grade of its average |
| WeekReport.ReportGradeTexts | client/src/utils/weekInsights.ts:81-92 | the report reads `–` and "No entries yet" exactly when there are no entries |
| WeekReport.AverageOfWeek | client/src/utils/weekInsights.ts:107-115 | the average is the mean score of the entries whose date parses, between 1 and 5, and NaN when none parses |
| WeekReport.AllDatedAverage | client/src/utils/weekInsights.ts:115 | a non-empty week whose dates all parse has a numeric average |
| WeekReport.DaysLogged | client/src/utils/weekInsights.ts:139 | `daysLogged` is the number of distinct days with an entry |
| WeekReport.DaySummaries | client/src/utils/weekInsights.ts:124-128 | one summary per logged day, in first-logged order, scored with the day's mean |
| WeekReport.BestAndToughDays | client/src/utils/weekInsights.ts:124-132 | best and tough day are absent exactly when no day is logged; otherwise both are logged days scored with their means, no day scores above the best or below the tough day, they coincide exactly when one day is logged, and ties go to the first-logged day for best and the last-logged day for tough |
| WeekReport.RankedEnds | client/src/utils/weekInsights.ts:124-132 | the ends of the ranking satisfy the bounds and the tie rules above |
| WeekReport.RankedEndBounds | client/src/utils/weekInsights.ts:124-132 | the ends of the ranking bound every day's mean, and coincide exactly when one day is logged |
| WeekReport.RankedEndTies | client/src/utils/weekInsights.ts:129 | the head of the ranking is the first-logged of the highest-scoring days and the tail the last-logged of the lowest |
| WeekReport.RankedCount | client/src/utils/weekInsights.ts:124 | there are as many summaries as logged days |
| WeekReport.RankedExtremes | client/src/utils/weekInsights.ts:129 | the head of the score ranking scores highest and its tail lowest |
| WeekReport.SummariesDistinct | client/src/utils/weekInsights.ts:124 | no day is summarised twice |
| WeekReport.TopTagsLength | client/src/utils/weekInsights.ts:136 | the top tags are six, or all the tags when there are fewer |
| WeekReport.TopTagsChosen | client/src/utils/weekInsights.ts:134-137 | the top tags are distinct tags that occur |
| WeekReport.TopTagsDescending | client/src/utils/weekInsights.ts:135 | the top tags are listed by count, most used first |
| WeekReport.TopTagsOmitted | client/src/utils/weekInsights.ts:134-137 | no tag left out is used more often than one kept |
| WeekReport.TopTagsTies | client/src/utils/weekInsights.ts:134-135 | tags with the same count keep the order `Object.entries` lists them in |
| WeekPatterns.DeriveWeekPatternDetails | client/src/utils/weekInsights.ts:177-257 | the `forEach` pass and the choices after it compute the details their specification function defines |
| WeekPatterns.PatternStep | client/src/utils/weekInsights.ts:191-222 | one pass of the loop body adds one entry to the mood counts, tag statistics and daypart buckets |
| WeekPatterns.TagStep | client/src/utils/weekInsights.ts:198-209 | a non-empty tag adds one to its count and, for an entry whose date parses, its day to the tag's days |
| WeekPatterns.AddToDaypart | client/src/utils/weekInsights.ts:211-221 | an entry from 5:00 to before noon adds its score to the morning bucket, one from 17:00 on to the evening bucket, and an entry without a parsed date to neither |
| WeekPatterns.MorningStep | client/src/utils/weekInsights.ts:215-217 | the morning bucket holds the sum and count of the morning scores |
| WeekPatterns.EveningStep | client/src/utils/weekInsights.ts:218-220 | the evening bucket holds the sum and count of the evening scores |
| PatternSummary.ModeOf | client/src/utils/weekInsights.ts:224-229 | there is no mode exactly when there are no entries |
| PatternSummary.MoodModeIsMode | client/src/utils/weekInsights.ts:224-229 | the mode is a mood no other outnumbers, and a tie goes to the label first in `localeCompare` order; a missing mood counts as neutral |
| PatternSummary.StatTableEntry | client/src/utils/weekInsights.ts:198-209 | a tag's statistics hold its number of uses and the days of the dated entries using it, no more days than uses |
| PatternSummary.VisitDaysBound | client/src/utils/weekInsights.ts:205-208 | a tag is seen on no more days than it is used |
| PatternSummary.VisitDaysOfEntries | client/src/utils/weekInsights.ts:195-208 | a tag's days are the days of the entries whose date parses and which carry it |
| PatternSummary.TopTagIsMostUsed | client/src/utils/weekInsights.ts:231-241 | the top tag is a most used tag, the first such met; it carries its number of uses and of distinct days |
| PatternSummary.TopTagRecord | client/src/utils/weekInsights.ts:235-241 | the top tag record names the head of the ranking with its counts |
| PatternSummary.TopTagMost | client/src/utils/weekInsights.ts:232 | no tag is used more often than the head of the ranking |
| PatternSummary.TopTagFirstMet | client/src/utils/weekInsights.ts:232 | among the most used tags the head is the first one met |
| PatternSummary.DaypartChoice | client/src/utils/weekInsights.ts:243-254 | no message when either part of the day has no score; otherwise evenings heavier exactly when the morning mean exceeds the evening mean by 0.35 or more, mornings dip exactly in the opposite case, and fairly even otherwise |
| PatternSummary.DaypartCases | client/src/utils/weekInsights.ts:243-254 | the same, for the morning and evening scores of the entries |
| Streaks.SortedDays | client/src/utils/weekInsights.ts:264-269 | the logged days, each once, in increasing order |
| Streaks.Latest | client/src/utils/weekInsights.ts:292 | the last sorted day is a logged day no logged day follows |
| Streaks.ScanRuns | client/src/utils/weekInsights.ts:270-289 | the scan ends with `best` the length of a longest run of consecutive logged days, and `streak` the length of the run ending on the last day, from 1 up to `best` |
| Streaks.WalkBack | client/src/utils/weekInsights.ts:291-299 | walking back from the last day stops on the first day not logged, having collected every day after it |
| Streaks.ComputeStreaks | client/src/utils/weekInsights.ts:259-306 | all zero for no logged day; otherwise `streakDays` is the run of logged days ending on the latest, `current` its length, and `best` the length of a longest run |
| Streaks.DescribesBounds | client/src/utils/weekInsights.ts:301-305 | with a logged day, the current streak is at least 1, at most the best, and counts the streak days |
| Streaks.DescribesUnique | client/src/utils/weekInsights.ts:259-306 | the description fixes the result: only one result meets it |
| MonthGrid.LastDay | client/src/pages/CalendarPage.tsx:52 | day 0 of the next month is the last day of the month |
| MonthGrid.MatrixSpan | client/src/pages/CalendarPage.tsx:53-54 | the grid spans whole weeks, four to six of them |
| MonthGrid.BuildMonthMatrix | client/src/pages/CalendarPage.tsx:50-84 | the grid built by the two loops is the month grid of the viewed month |
| MonthGrid.BuildRows | client/src/pages/CalendarPage.tsx:57-83 | the `cursor` loop adds one row per week from the first Sunday to the last Saturday |
| MonthGrid.BuildWeek | client/src/pages/CalendarPage.tsx:61-79 | the inner loop fills the seven days of a row |
| MonthGrid.MonthMatrixRows | client/src/pages/CalendarPage.tsx:50-84 | four to six rows; the first starts on a Sunday and holds the month's first day; the last holds its last day and ends on a Saturday |
| MonthGrid.MonthDayCell | client/src/pages/CalendarPage.tsx:57-81 | every day of the month has a cell in the grid, flagged as in the month |
| MonthGrid.GridCell | client/src/pages/CalendarPage.tsx:64-76 | each cell holds the day its row and column name, flagged as in the month exactly when it lies in the month |
| MonthGrid.GridCellMarks | client/src/pages/CalendarPage.tsx:64-76 | each cell holds the day its row and column name, and its `hasEntries`, `isToday` and `isStreakDay` flags hold exactly when the day is a key of `entriesByDay`, is today, or is a streak day |
| MonthGrid.GridCellUnique | client/src/pages/CalendarPage.tsx:57-81 | no day has two cells |
| MonthGrid.MonthOfNearbyDay | client/src/pages/CalendarPage.tsx:72 | within a week of the month, comparing month numbers alone tells the month's days from the neighbours' |
| CalendarView.FirstOfMonth | client/src/pages/CalendarPage.tsx:104-107 | `setDate(1)` gives the first day of the same month, on or before the day |
| CalendarView.Calendar.constructor | client/src/pages/CalendarPage.tsx:91-108 | the initial week is the week of the parsed `start` parameter, or of today when it is absent or does not parse; the visible month is the month of that week's Sunday |
| CalendarView.Calendar.SelectWeek | client/src/pages/CalendarPage.tsx:188-194 | selecting a day selects its week and shows the month of that week's Sunday |
| CalendarView.Calendar.ChangeMonth | client/src/pages/CalendarPage.tsx:196-209 | the visible month moves one month back or forward; the selected week stays when it lies in the new month, otherwise it becomes the week of the month's first day |
| CalendarView.Calendar.Weeks | client/src/pages/CalendarPage.tsx:138-141 | the grid shown is the visible month's, and the selected week is one of its rows |
| CalendarView.FirstOfMonthIsMakeDay | client/src/pages/CalendarPage.tsx:104-107 | `setDate(1)` on a day is `new Date(year, month, 1)` of its year and month, the day `buildMonthMatrix` starts its month from |
| CalendarView.MonthStep | client/src/pages/CalendarPage.tsx:197-199 | from the first of a month, `setMonth` lands on the first of the month `delta` months away |
| CalendarView.ShiftRoundTrip | client/src/pages/CalendarPage.tsx:197-199 | a month back undoes a month forward and the other way round |
| CalendarView.ShiftLandsOn | client/src/pages/CalendarPage.tsx:197-199 | the step lands on the first of the target month |
| CalendarView.SelectedWeekInGrid | client/src/pages/CalendarPage.tsx:138-141 | the selected Sunday starts a row of the visible month's grid |
| CalendarView.SelectedInSpan | client/src/pages/CalendarPage.tsx:188-209 | the selected Sunday lies within the grid's weeks |
| CalendarWeek.EntriesByDay | client/src/pages/CalendarPage.tsx:124-136 | the loop groups the entries by day as the day-group function does |
| CalendarWeek.DayGroupsMeaning | client/src/pages/CalendarPage.tsx:124-136 | a day has a group exactly when an entry falls on it, and its group lists that day's entries in input order |
| CalendarWeek.PageCellMarks | client/src/pages/CalendarPage.tsx:68-75 | a grid cell has entries exactly when an entry's date falls on its day, is today exactly on today, and is a streak day exactly for the streak days |
| CalendarWeek.InWeekSameSunday | client/src/pages/CalendarPage.tsx:145-152 | an entry is in the selected week exactly when its day has the same Sunday |
| CalendarWeek.WeekEntriesMembers | client/src/pages/CalendarPage.tsx:143-155 | the week's entries are the entries whose date parses and falls in the selected week, and no others |
| CalendarWeek.WeekEntriesChronological | client/src/pages/CalendarPage.tsx:154 | the week's entries are in time order |
| CalendarWeek.WeekEntriesStable | client/src/pages/CalendarPage.tsx:148-154 | the sort permutes the filtered entries and keeps entries with equal times in input order |
| CalendarWeek.HasWeekReport | client/src/pages/CalendarPage.tsx:159-160 | the report is shown exactly when the week's entries fall on two different days |
| CalendarWeek.GroupWeekEntries | client/src/pages/CalendarPage.tsx:162-180 | the loop and the sorts build the grouped week the specification function defines |
| CalendarWeek.GroupedDays | client/src/pages/CalendarPage.tsx:162-180 | one group per logged day of the week, in day order |
| CalendarWeek.GroupedEntries | client/src/pages/CalendarPage.tsx:171-178 | a group lists exactly the entries of its day, in time order |
| HomePage.RangeMembers | client/src/pages/HomePage.tsx:32-38 | the filtered entries are the entries whose day lies from `start` up to `end`, in input order |
| HomePage.WeekWindow | client/src/pages/HomePage.tsx:198-203 | the dashboard week runs from the Sunday on or before today for seven days |
| HomePage.DashboardWeekIsCalendarWeek | client/src/pages/HomePage.tsx:198-206 | the dashboard's week entries are the calendar page's filtered week of today |
| HomePage.FillScoreBuckets | client/src/pages/HomePage.tsx:41-50 | the loop collects each day's scores |
| HomePage.DayPoint | client/src/pages/HomePage.tsx:56-65 | one pass of the countdown gives the day's point |
| HomePage.BuildLastSevenDaySeries | client/src/pages/HomePage.tsx:40-69 | seven points, one per day of the week ending today, each the day's mean score or null |
| HomePage.SeriesDays | client/src/pages/HomePage.tsx:55-66 | the points run over seven consecutive days, ending today |
| HomePage.PointValue | client/src/pages/HomePage.tsx:59-60 | a point's value is null exactly when no entry falls on its day, and otherwise the day's mean score, between 1 and 5 |
| HomePage.HasTodayEntryMeaning | client/src/pages/HomePage.tsx:211-215 | the flag holds exactly when some entry's date falls on today |
| HomePage.MonthLoggedDays | client/src/pages/HomePage.tsx:219-232 | the count is the number of logged days in today's month and year |
| HomePage.MonthDaysWithin | client/src/pages/HomePage.tsx:219-232 | the counted days lie in today's month |
| HomePage.MonthLoggedDaysBound | client/src/pages/HomePage.tsx:219-232 | the count is at most the month's length and at most the number of logged days |
| HomePage.WeeklyGoalTarget | client/src/pages/HomePage.tsx:260 | the goal is between 5 and 7: 5 up to a current streak of 3, 7 from 5, and the streak plus 2 in between |
| Reminders.TimeClip | client/src/utils/reminders.ts:29 | `new Date(ms)` is invalid beyond 8.64e15 milliseconds from the epoch |
| Reminders.UtcOf | client/src/utils/reminders.ts:4-9 | the UTC fields of a time value form a valid date and a clock time |
| Reminders.UtcOfInstant | client/src/utils/reminders.ts:4-9 | the UTC fields of a time value name it to the second |
| Reminders.StampRoundTrip | client/src/utils/reminders.ts:3-11 | the stamp of any fields with two-digit month, day and clock reads back as those fields |
| Reminders.ICSDateRoundTrip | client/src/utils/reminders.ts:3-11 | the stamp of a valid date reads back as its UTC fields, which name its instant to the second; the stamp of an invalid date does not read |
| Reminders.ICSDateInjective | client/src/utils/reminders.ts:3-11 | equal stamps name the same second |
| Reminders.StampShape | client/src/utils/reminders.ts:3-11 | with a four-digit year the stamp is `YYYYMMDDTHHMMSSZ`: sixteen characters, all digits except the `T` and the `Z` |
| Reminders.ICSDateShape | client/src/utils/reminders.ts:3-11 | the same for a date in a four-digit UTC year |
| Reminders.ReminderLines | client/src/utils/reminders.ts:32-47 | the calendar has fifteen lines |
| Reminders.ReminderSplit | client/src/utils/reminders.ts:32-48 | splitting the text on CRLF gives back the fifteen lines |
| Reminders.ReminderCalendar | client/src/utils/reminders.ts:32-48 | the text is fifteen lines, `BEGIN:VCALENDAR` only first and `END:VCALENDAR` only last, with one event: `BEGIN:VEVENT` only on line 6 and `END:VEVENT` only on line 14 |
| Reminders.CalendarFrame | client/src/utils/reminders.ts:33-47 | whatever the values, no other line opens or closes the calendar or the event |
| Reminders.ReminderValues | client/src/utils/reminders.ts:39-45 | UID, DTSTAMP, DTSTART, DTEND, SUMMARY, DESCRIPTION and the RRULE count follow their property names |
| Reminders.OptionDefaults | client/src/utils/reminders.ts:21-27 | omitted options take 10 minutes, the MoodPeek summary and description, and 6 occurrences; given ones are used as they are |
| Reminders.EventSpan | client/src/utils/reminders.ts:28-29 | DTSTART and DTEND read back and lie the duration apart; an invalid start leaves both unreadable, and an end out of a Date's range leaves DTEND unreadable |
| Reminders.UidInjective | client/src/utils/reminders.ts:30 | different start dates give different UIDs |
| Reminders.ClockOnlyInStamp | client/src/utils/reminders.ts:40 | the clock changes only the DTSTAMP line |

## Left out

- Parsing of `new Date(input)` for an entry's date string is not modelled. An entry holds the parsed local day and time (`Option<Stamp>`), and `None` stands for a date that does not parse. Time zones, and the formats `Date` accepts, are outside the model.
- `getTime()` is taken up to the fixed offset of one time zone (`DayKeys.Time`): a local day always lasts 24 hours.
- The `Intl.DateTimeFormat` labels (day labels, week heading, month title, times) are not modelled. A day summary and a series point carry the day number instead of the label.
- The React rendering, hooks, navigation, scrolling and emoji tables are not modelled, nor the `weekPatternSummary`, `weekRangeLabel` and `streakMessage` strings built for display.
- `downloadICS` (client/src/utils/reminders.ts:51-61) is browser I/O (Blob, object URL, link click) and is not modelled.
- Moods.Mood: a closed list of the ten labels the server accepts (server/models/Entry.js:19). A mood string outside it, which the client would score 3 and count as a mood of its own, is not modelled. `localeCompare` is modelled by its fixed order on these ten labels (`LocaleRank`).
- DayKeys.LocalISORoundTripFixed: covers the days from year 0 on. The key of an earlier day starts with the minus sign of `String(year)` and reads as an invalid date, in the source and in the model alike (DayKeys.NegativeYearKey).
- Streaks.SortedDays: sorts the logged days by number. The source sorts the `YYYY-MM-DD` strings, which is the same order only while every year has four digits; 999-12-31 sorts after 1000-01-01 as a string.
- Streaks.ComputeStreaks: takes each sorted key as its own day. The source reads keys back through `fromLocalISO`, which maps years 0 to 99 to 1900 to 1999 (see Findings). The source also tests adjacency with `getTime()` differences of exactly 86400000 ms (weekInsights.ts:278) but walks back with `setDate` (weekInsights.ts:297). So across a daylight-saving change, which makes a local day 23 or 25 hours long, it counts two consecutive days as separate runs for `best` yet joins them for `current`. With entries on 2024-03-10 and 2024-03-11 in New York, the source gives best 1 and current 2; the model gives 2 and 2.
- Streaks.DescribesBounds: `current <= best` holds for the model, and for the source only where no daylight-saving change falls inside the current streak (see ComputeStreaks above).
- CalendarWeek.TimeKey: orders by local day and time of day. The source orders by `getTime()`, which differs when clocks are set back: an entry in the repeated hour can sort before an earlier-looking one. WeekEntriesChronological and GroupedEntries inherit this.
- MonthGrid.FirstDay and MonthGrid.LastDay: take the viewed year as it is. The source's `new Date(year, month, day)` (CalendarPage.tsx:51-52) maps a year from 0 to 99 to 1900 to 1999.
- CalendarWeek.GroupedWeek: orders the groups by day number. The source orders them by `fromLocalISO(key).getTime()` (CalendarPage.tsx:174), which places a day in years 0 to 99 in the 1900s.
- WeekPatterns.DaypartMessage and PatternSummary.DaypartCases compare exact rational means, where the source subtracts two IEEE doubles. Example: morning scores summing to 87 over 20 entries against an evening mean of 4. The source computes 4.35 - 4 = 0.34999999999999964 and says the mood stays fairly even; the model says evenings are heavier.
- Moods.Mean: averages and day scores are exact rationals. Equal ratios and the order of distinct ratios agree with the rounded doubles, so the grade thresholds and the day ranking are unaffected for realistic entry counts.
- WeekMetrics.TopTags, WeekMetrics.TallyOf and WeekReport.TopTagsChosen model the plain object `tagsFrequency` (weekInsights.ts:95, 111, 134) as a dictionary with `Object.entries` key order. A tag named `__proto__` is not stored as an own key of a plain object, and tags such as `constructor` or `toString` start from an inherited function value. The source therefore drops or mis-counts such tags, and the model does not.
- Reminders.ReminderOptions: `durationMinutes` and `occurrences` are integers. Fractional and non-numeric values, and `null` (which, unlike an omitted option, takes no default), are not modelled.
- Reminders.EndDate adds `durationMinutes * 60000` exactly. The source computes it in doubles, which can differ by a millisecond once the product exceeds 2^53.
- Reminders.ReminderSplit and Reminders.ReminderCalendar: stated for a summary and description without a carriage return. The source writes the texts unescaped and unfolded, so one holding CRLF breaks the text into more lines.

## Findings

| source | as written | input that shows it | evidently intended | confidence | as-written member | corrected member |
|---|---|---|---|---|---|---|
| client/src/utils/weekInsights.ts:61 | `fromLocalISO` builds the day with `new Date(year, month - 1, day)`, which reads a year from 0 to 99 as 1900 + year | the key `50-03-01` of 0050-03-01 reads back as 1950-03-01 | `fromLocalISO(localISO(d))` is `d` for every day from year 0 on, as with `setFullYear(year, month - 1, day)` | not executed | DayKeys.LocalISORoundTripFailsBefore100 | DayKeys.LocalISORoundTripFixed |
