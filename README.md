# Cold-shower habit tracker, modelled in Dafny

The application tracks one daily habit, a cold shower. It keeps a list of tracked days, computes the current and best streaks, and derives several views from the list:

- completion rates and analytics;
- a month calendar;
- a CSV export;
- achievements to share.

It also provides:

- a guided shower timer and a stopwatch with duration goals;
- mood logging before and after a shower;
- habit stacks;
- fixed-length challenges;
- a simplified screen with goals and reading minutes.

Three services support development: a prompt-template store, a design-inspiration search, and an optimizer that builds structured prompts and keeps session statistics.

This project models the list logic and the computations of those parts, and proves what they promise.

One module per part of the application:

| module | part |
|---|---|
| `Common` | options, exact fractions, counting, filtering and the string operations used throughout |
| `Dates` | Gregorian dates as day numbers, weekdays and `YYYY-MM-DD` formatting |
| `Sorting` | a stable sort by numeric key |
| `Streaks` | the current and best streak shared by the trackers and the export |
| `Tracker` | the local trackers' updaters, month count and completion rate |
| `Analytics` | the analytics panel |
| `DataExport` | the CSV export and summary statistics |
| `ColdShowerApp` | the simplified screen |
| `Sync` | the in-memory list logic of the data-synchronising hook |
| `HabitStacking` | habit stacks |
| `TimeTracking` | the stopwatch, as a class |
| `MoodTracking` | mood logging, as a class |
| `Challenges` | fixed-length challenges |
| `ShowerTimer` | the timer, as a class |
| `Calendar` | the month calendar |
| `SocialSharing` | achievements and the share panel |
| `PromptTemplates` | the template service |
| `DesignInspiration` | the inspiration search |
| `McpOptimizer` | the optimizer, with classes for the optimizer and its sessions |

Conventions of the model:

- A `YYYY-MM-DD` date is an integer day number, where 0 is 1970-01-01. The local time zone is taken to be UTC. An instant is a `Clock` (day, milliseconds into the day).
- The source works in JavaScript floating point. Here percentages, rates and averages are exact fractions with positive denominators, compared by cross-multiplication. `Math.round` and `Math.min(…, 100)` are written out on these fractions.
- Design-inspiration relevance is counted in tenths.
- The optimizer's averages over no responses divide by zero in the source. They are modelled as a `Number` that is either a fraction or NaN, and every comparison with NaN is false. The source's own result follows, and no precondition excludes the empty session. The recommendations of an empty session are proved from it.
- Timers and intervals become an explicit `Tick` step. The current instant and fresh record stamps are parameters.
- Components that mutate fields become classes with `modifies` clauses: the stopwatch, the shower timer, the mood log and the optimizer. Handlers that build a new list from the old one become functions from the old list to the new one. Loops in the source (streak walks, trend builders, counters, prompt builders) are methods with loop invariants, proved against specification functions.
- `formatTime` in `src/components/features/ColdShowerTimer.tsx:156-160` and `formatDuration` in `src/components/features/TimeTracking.tsx:185-189` are the same computation, modelled once as `Common.MinutesSeconds`.
- The streak code repeated in the two trackers and the export is modelled once, in `Streaks`.

## Model

| member | source | states |
|---|---|---|
| Tracker.IndexOf | src/components/SimpleColdShowerTracker.tsx:53 | the index of the first record with the date, or -1 exactly when no record has it |
| Tracker.Upserted | src/components/SimpleColdShowerTracker.tsx:51-81 | with a record for the date, only that slot is rewritten and the length is kept; without one, the created record is appended |
| Tracker.Upsert | src/components/SimpleColdShowerTracker.tsx:52-63 | copying the list into an array and overwriting the found slot, or appending, gives the upserted list |
| Tracker.UpsertedKeepsUnique | src/components/SimpleColdShowerTracker.tsx:51-81 | an upsert that keeps dates and creates a record for the date keeps the dates unique |
| Tracker.Toggled | src/components/SimpleColdShowerTracker.tsx:51-65 | toggleDay: afterwards the date has a record, completed exactly when it was not completed before (no record counting as not completed); the list grows by one only for a new date |
| Tracker.WithFlag | src/components/SimpleColdShowerTracker.tsx:67-81 | setDayProperty: afterwards the date's record has the flag set to the value, the other flag as before (unset for a new date) and `completed` as before (false for a new date) |
| Tracker.WithDuration | src/components/SimpleColdShowerTracker.tsx:158-172 | handleDurationUpdate: afterwards the date's record holds the duration and `completed` as before (false for a new date) |
| Tracker.WithMoods | src/components/SimpleColdShowerTracker.tsx:174-189 | handleMoodUpdate: afterwards the date's record holds both moods and `completed` as before (false for a new date) |
| Tracker.ToggledEffect | src/components/SimpleColdShowerTracker.tsx:51-65 | toggleDay flips `completed` of the present record and nothing else, or appends `{date, completed: true}` |
| Tracker.ToggleTwice | src/components/SimpleColdShowerTracker.tsx:51-65 | toggling a present date twice gives back the list |
| Tracker.PropertyUpdatesKeepCompleted | src/components/SimpleColdShowerTracker.tsx:67-81 | setDayProperty, handleDurationUpdate and handleMoodUpdate keep every record's date and `completed` and append only uncompleted records for the date |
| Tracker.UpdatersKeepUnique | src/components/BasicColdShowerTracker.tsx:28-58 | all four updaters keep at most one record per date |
| Tracker.CompletedThisMonth | src/components/SimpleColdShowerTracker.tsx:133-136 | the number of completed records dated in the month: positive exactly when there is one, and never more than all completed records |
| Tracker.ToggleMonthCount | src/components/SimpleColdShowerTracker.tsx:51-65 | toggling a day of the month lowers the month's count by one when its record was completed and raises it by one otherwise (a new record included); toggling a day of another month leaves it |
| Tracker.CompletionRate | src/components/SimpleColdShowerTracker.tsx:138-142 | 0 for no records, otherwise 100 × completed / total, between 0 and 100 |
| Tracker.Marks | src/components/SimpleColdShowerTracker.tsx:90-111 | the (date, completed) view keeps every record in place |
| Tracker.MarksUnique | src/components/BasicColdShowerTracker.tsx:60-108 | unique dates stay unique in that view |
| Streaks.MinDate | src/components/SimpleColdShowerTracker.tsx:90 | the earliest date: no record is earlier and some record has it |
| Streaks.CompletedOnInSet | src/components/SimpleColdShowerTracker.tsx:91-94 | a date found completed is a completed date; with unique dates the converse holds |
| Streaks.CurrentStreak | src/components/SimpleColdShowerTracker.tsx:83-104 | 0 for no records; otherwise n where the n days ending today are completed and the day before is not |
| Streaks.CurrentStreakDeterminate | src/components/SimpleColdShowerTracker.tsx:83-104 | that description fixes the streak: two such n are equal |
| Streaks.RunLenIsRun | src/components/SimpleColdShowerTracker.tsx:117-127 | the running counter always describes consecutive days that are all present |
| Streaks.RunLenIsLongest | src/components/SimpleColdShowerTracker.tsx:117-127 | on strictly ascending dates no run ending at a date is longer than the counter there |
| Streaks.ScanRuns | src/components/SimpleColdShowerTracker.tsx:113-130 | 0 exactly on no dates; a run of the result's length exists; on strictly ascending dates it is the longest run |
| Streaks.FilterDoneDistinct | src/components/SimpleColdShowerTracker.tsx:109-110 | filtering completed records keeps dates unique |
| Common.FilterPositions | src/components/SimpleColdShowerTracker.tsx:109-110 | two positions of the filtered list come from two positions of the list in the same order |
| Streaks.CompletedAscendingFacts | src/components/SimpleColdShowerTracker.tsx:109-111 | the sorted completed dates are ascending, are exactly the completed dates, and are strictly ascending when dates are unique |
| Streaks.BestStreak | src/components/SimpleColdShowerTracker.tsx:106-131 | 0 exactly when nothing is completed; a run of that length exists; with unique dates it is the longest run of consecutive completed days |
| Streaks.CompletedDescendingReversedFacts | src/utils/dataExport.ts:94-96 | sorting newest first and reversing gives the completed dates ascending, and strictly so when dates are unique |
| Streaks.ReverseMultiset | src/utils/dataExport.ts:121 | reversing keeps the elements |
| Streaks.CurrentWithinBest | src/components/SimpleColdShowerTracker.tsx:83-131 | the current streak never exceeds the best streak |
| DataExport.NumberOrEmpty | src/utils/dataExport.ts:32-35 | empty exactly for an absent or zero number, otherwise digits and sign only |
| DataExport.Fields | src/utils/dataExport.ts:27-37 | nine fields: the date text, Yes/No for completed, extra cold and felt amazing, and the quoted notes last |
| DataExport.Rows | src/utils/dataExport.ts:27-37 | one row per record, in order |
| DataExport.HeaderColumns | src/utils/dataExport.ts:15-25 | the header splits at commas into exactly the nine column names |
| DataExport.HeaderOneLine | src/utils/dataExport.ts:15-25 | the header holds no line break |
| DataExport.FieldsAvoid | src/utils/dataExport.ts:28-35 | no field but the notes holds a comma or a line break |
| DataExport.RowColumns | src/utils/dataExport.ts:27-37 | a row whose notes hold no comma splits back into its nine fields |
| DataExport.RowOneLine | src/utils/dataExport.ts:27-37 | a row holds a line break only when its notes do |
| DataExport.CsvLines | src/utils/dataExport.ts:14-40 | without line breaks in notes, the CSV splits into the header then one row per record, n + 1 lines |
| DataExport.Csv | src/utils/dataExport.ts:15-39 | the export opens with the header line; with no records it is the header alone, otherwise a line break follows the header |
| DataExport.CalculateStats | src/utils/dataExport.ts:90-147 | totals and counts of the completed days; success rate 100 × completed / total or 0; the current streak as above; the longest streak is the longest run when dates are unique; each of the four averages (mood before, mood after, duration, temperature) is 0 without completed days, else the sum of that field over the completed days divided by their number |
| DataExport.StatsStreaksAgree | src/utils/dataExport.ts:98-132 | the exported current streak never exceeds the longest |
| Analytics.FilterByTimeRange | src/components/features/HabitAnalytics.tsx:120-131 | 'all' returns the records unchanged; every window keeps at most the records it is given |
| Analytics.FilterByTimeRangeKeeps | src/components/features/HabitAnalytics.tsx:123-130 | 'week' and 'month' keep exactly the records dated after the cutoff day, and those on it only when now is a midnight |
| Analytics.DaysInRange | src/components/features/HabitAnalytics.tsx:133-137 | the window size is 7, 30 or the number of tracked days |
| Analytics.CompletionRate | src/components/features/HabitAnalytics.tsx:63-66 | 0 for an empty window, otherwise 100 × completed records in the window / window size, never negative |
| Analytics.AllTimeRateAtMost100 | src/components/features/HabitAnalytics.tsx:63-66 | over the whole history the rate is at most 100 |
| Analytics.Durations | src/components/features/HabitAnalytics.tsx:69 | exactly the `duration` values of the completed records that have a positive one, in record order, each positive |
| Analytics.SumPositive | src/components/features/HabitAnalytics.tsx:70-72 | positive durations have a positive sum |
| Analytics.AverageDuration | src/components/features/HabitAnalytics.tsx:68-72 | 0 without durations, otherwise their positive mean |
| Analytics.WeeklyTrend | src/components/features/HabitAnalytics.tsx:139-149 | seven values, oldest first and today last, each 1 exactly when that date's first record is completed and 0 otherwise |
| Analytics.WindowSplit | src/components/features/HabitAnalytics.tsx:159-164 | the completed records of a window are those of its two halves |
| Analytics.WindowEmpty | src/components/features/HabitAnalytics.tsx:159-164 | an empty window counts nothing |
| Analytics.MonthlyTrendAsWritten | src/components/features/HabitAnalytics.tsx:151-168 | twelve counts, each the completed records between the first day the time-of-day-keeping weekStart admits and the weekEnd day |
| Analytics.AsWrittenWindowsMissDays | src/components/features/HabitAnalytics.tsx:154-162 | when now is not a midnight, the earliest day of every week lies in none of the twelve windows |
| Analytics.AsWrittenTrendLosesRecord | src/components/features/HabitAnalytics.tsx:151-168 | a completed record six days before now is counted in no week although it lies in the last 84 days |
| Analytics.MonthlyTrend | src/components/features/HabitAnalytics.tsx:151-168 | twelve counts of completed records over whole seven-day windows, oldest first; they add up to the completed records of the last 84 days |
| Analytics.Hour | src/components/features/HabitAnalytics.tsx:182 | the hour of a moment lies in 0..23 |
| Analytics.SlotOf | src/components/features/HabitAnalytics.tsx:181-189 | a record falls in bucket b exactly when its completion hour lies in [5+3b, 8+3b); hours outside [5,23) fall in none |
| Analytics.SlotCounts | src/components/features/HabitAnalytics.tsx:180-190 | the six counters hold the number of records in each bucket |
| Analytics.PickSlot | src/components/features/HabitAnalytics.tsx:192-194 | the chosen bucket is maximal; it is 'Morning' whenever that is maximal, otherwise the first maximal one |
| Analytics.BestTimeOfDay | src/components/features/HabitAnalytics.tsx:170-195 | the name of the chosen bucket of the records' six counts |
| Analytics.Slots | src/components/features/HabitAnalytics.tsx:171-178 | six counts, one per bucket |
| Analytics.WeekdayCompletion | src/components/features/HabitAnalytics.tsx:197-215 | exactly the seven weekday keys; each the completed share of that weekday's records, 0 without records |
| Analytics.RatesByName | src/components/features/HabitAnalytics.tsx:209-212 | exactly the seven weekday keys, each the percentage of its two counters, 0 for a zero total |
| Analytics.WeekdayRatesOfCompletedDays | src/components/features/HabitAnalytics.tsx:84 | fed only completed records, every weekday value is 0 or 100 |
| Analytics.CountByMonth | src/components/features/HabitAnalytics.tsx:221-227 | per month name the number of records and of completed records, with keys only for months that occur |
| Analytics.MonthlyCompletion | src/components/features/HabitAnalytics.tsx:217-235 | a key exactly for each month some record falls in; its value the completed share of that month's records |
| Analytics.MonthPresent | src/components/features/HabitAnalytics.tsx:221-230 | a month has records exactly when some record is dated in it |
| Analytics.MaximalRunsExample | src/components/features/HabitAnalytics.tsx:240-256 | completed, completed, missed, completed gives the runs 2 then 1, in that order |
| Analytics.MaximalRunsFacts | src/components/features/HabitAnalytics.tsx:240-256 | every maximal run of completed records has a positive length, the lengths add up to the completed records and there is one length per run start |
| Analytics.RunLengths | src/components/features/HabitAnalytics.tsx:240-256 | the result is exactly the lengths of the maximal runs of completed records in array order (the runs peeled off the end of the list one whole run at a time), so all positive, one per run, summing to the completed records |
| Analytics.Bucket | src/components/features/HabitAnalytics.tsx:259-263 | every run length falls in one of the five buckets |
| Analytics.Distribute | src/components/features/HabitAnalytics.tsx:258-264 | each bucket counts the runs in it, and the counts sum to the number of runs |
| Analytics.BucketStep | src/components/features/HabitAnalytics.tsx:258-264 | adding one run to its bucket keeps every bucket's count right |
| Analytics.StreakDistribution | src/components/features/HabitAnalytics.tsx:237-267 | bucket b holds the number of maximal runs of completed records whose length falls in it, and the five counts sum to the number of runs |
| ColdShowerApp.DefaultGoals | src/components/SimpleColdShowerApp.tsx:18-22 | three goals with distinct ids, none completed |
| ColdShowerApp.AddEntryForDate | src/components/SimpleColdShowerApp.tsx:102-115 | unchanged when the date has an entry, otherwise the completed 5-minute, 15-degree entry appended; the date then has an entry |
| ColdShowerApp.AddEntryIdempotent | src/components/SimpleColdShowerApp.tsx:102-115 | adding the entry twice is adding it once |
| ColdShowerApp.AddTo | src/components/SimpleColdShowerApp.tsx:122-126 | entries of the date gain the minutes, all others are kept, length kept |
| ColdShowerApp.AddToTotal | src/components/SimpleColdShowerApp.tsx:122-126 | the total rises by the minutes once per entry of the date |
| ColdShowerApp.TotalAppend | src/components/SimpleColdShowerApp.tsx:132 | appending an entry adds its minutes to the total |
| ColdShowerApp.AddReadingMinutes | src/components/SimpleColdShowerApp.tsx:117-134 | every entry of the date gains the minutes and every other entry is unchanged; without an entry for the date one `{date, minutes}` entry is appended |
| ColdShowerApp.AddReadingMinutesTotal | src/components/SimpleColdShowerApp.tsx:117-134 | the total rises by exactly the minutes when the date has at most one entry; entries of other dates are unchanged |
| ColdShowerApp.NewestFirst | src/components/SimpleColdShowerApp.tsx:163-165 | the completed entries' dates, newest first |
| ColdShowerApp.AsWrittenWalk | src/components/SimpleColdShowerApp.tsx:170-180 | the count lies between the entries accepted so far and that plus the entries left |
| ColdShowerApp.CalculateStreakAsWritten | src/components/SimpleColdShowerApp.tsx:162-183 | the loop computes the as-written walk over the newest-first dates from now |
| ColdShowerApp.WholeDays | src/components/SimpleColdShowerApp.tsx:172 | the floored day difference from a moment back to a midnight is the difference of day numbers |
| ColdShowerApp.AsWrittenNeedsToday | src/components/SimpleColdShowerApp.tsx:170-180 | as written the streak is 0 unless the newest completed entry is dated today |
| ColdShowerApp.AsWrittenCapsAtTwo | src/components/SimpleColdShowerApp.tsx:170-180 | as written, consecutive daily entries ending today give at most 2 |
| ColdShowerApp.CompletedAt | src/components/SimpleColdShowerApp.tsx:163-164 | a completed entry with no earlier entry of its date makes its date completed |
| ColdShowerApp.AsWrittenMissesThirdDay | src/components/SimpleColdShowerApp.tsx:162-183 | three completed days ending today are a current streak of 3, but the loop as written gives 2 |
| ColdShowerApp.EntryMarks | src/components/SimpleColdShowerApp.tsx:163-164 | the (date, completed) view of the entries, in place |
| ColdShowerApp.CalculateStreak | src/components/SimpleColdShowerApp.tsx:162-183 | corrected: the number of completed days counted back from today |
| ColdShowerApp.TrendOf | src/components/SimpleColdShowerApp.tsx:158 | 'up' exactly from 5 entries, 'stable' exactly for 3-4, 'down' exactly below 3 |
| ColdShowerApp.CalculateStats | src/components/SimpleColdShowerApp.tsx:136-160 | the completed entries of the last week against a target of 7, their progress, total and mean duration (0 for none), the trend and the corrected streak |
| ColdShowerApp.FlipGoals | src/components/SimpleColdShowerApp.tsx:193-197 | goals with the id flipped, all others kept, length kept |
| ColdShowerApp.ToggleGoal | src/components/SimpleColdShowerApp.tsx:185-208 | only the selected date's list changes: its default-or-stored goals with that id flipped, ids and titles kept |
| ColdShowerApp.ToggleGoalTwice | src/components/SimpleColdShowerApp.tsx:185-208 | toggling a goal twice restores the date's list |
| ColdShowerApp.AddGoal | src/components/SimpleColdShowerApp.tsx:210-223 | only the selected date's list changes: it gains one uncompleted goal 'New Goal n+1' after the n goals it had |
| ColdShowerApp.GoalProgress | src/components/SimpleColdShowerApp.tsx:239-241 | 0 for no goals, otherwise 100 × completed / goals, in [0,100] |
| ColdShowerApp.ReadingProgress | src/components/SimpleColdShowerApp.tsx:244-246 | 0 without a reading entry for the date; otherwise the first such entry's minutes / 30 × 100 while at most 30 minutes, and 100 above |
| ColdShowerApp.ColdShowerProgress | src/components/SimpleColdShowerApp.tsx:249-252 | 100 exactly when the date has a completed entry, else 0 |
| Sync.OwnerId | src/hooks/useSupabaseData.ts:146-149 | the signed-in user's id, or 'local' without a user |
| Sync.Upserted | src/hooks/useSupabaseData.ts:152-158 | the new list is sorted by date, newest first |
| Sync.Pushed | src/hooks/useSupabaseData.ts:152-154 | the list before sorting: the records of other dates, then the stamped record last |
| Sync.UpsertedCount | src/hooks/useSupabaseData.ts:152-158 | the upserted date has exactly one record; every other date keeps its number of records |
| Sync.UpsertedMembers | src/hooks/useSupabaseData.ts:153-157 | sorting keeps exactly the records of the filtered and pushed list |
| Sync.UpsertedFacts | src/hooks/useSupabaseData.ts:145-158 | the stamped record, with the owner's id, is the only record of its date; records of other dates are kept; one record per date is preserved |
| Sync.Deleted | src/hooks/useSupabaseData.ts:182-185 | deleteTrackedDay's list holds exactly the records of other dates and is never longer |
| Sync.DeletedFacts | src/hooks/useSupabaseData.ts:180-185 | no record of the date is left, all others are kept as often as before; deleting an absent date or deleting twice changes nothing more |
| Sync.FilterKeepsAll | src/hooks/useSupabaseData.ts:184 | filtering out an absent date keeps the list |
| Sync.Existing | src/hooks/useSupabaseData.ts:227 | `find`: the first record with that date, or none exactly when no record has it |
| Sync.Toggled | src/hooks/useSupabaseData.ts:226-240 | toggleDay's list is newest first and has one record of the date, owned by the user and completed exactly when the record `find` returned was not (none counting as not completed); every other date keeps exactly its records |
| Sync.ToggledFacts | src/hooks/useSupabaseData.ts:226-240 | the date then has one record: the found one with `completed` negated, or `{date, completed: true}`, stamped with the owner; each other date keeps the same number of records, and a record of another date is in the result exactly when it was in the input |
| Sync.WithFlag | src/hooks/useSupabaseData.ts:242-254 | setDayProperty's list is newest first and has one record of the date, owned by the user, with the flag set and `completed` as the found record had it (false without one); every other date keeps exactly its records |
| Sync.WithFlagFacts | src/hooks/useSupabaseData.ts:242-254 | the date then has one record: the found one or `{date, completed: false}` with the flag set, its `completed` unchanged; each other date keeps the same number of records, and a record of another date is in the result exactly when it was in the input |
| Sync.UpdatedProfile | src/hooks/useSupabaseData.ts:200-207 | no change without a user; otherwise the keys of profile, updates and `id`, with update values winning over the profile's and `id` the user's id |
| Sync.FromLegacy | src/hooks/useSupabaseData.ts:102-108 | each cached element becomes `{date, completed, extra_cold, felt_amazing, user_id}` from its camelCase fields, in order |
| Sync.FromRows | src/hooks/useSupabaseData.ts:102-108 | the same mapping applied to current rows keeps only date and completed |
| Sync.LoadLocal | src/hooks/useSupabaseData.ts:90-115 | legacy arrays are rewritten field by field (date, completed, the two camelCase flags, owner); a non-empty row array becomes, element by element, a record keeping only its date and completed with the owner set (every other field dropped); an empty row array stays empty; missing or unparsable data gives no records |
| Sync.Marks | src/utils/dataExport.ts:94-105 | the (date, completed) view of the rows, in place |
| Sync.MarksUnique | src/utils/dataExport.ts:94-132 | unique dates stay unique in that view |
| HabitStacking.FindStack | src/components/features/HabitStacking.tsx:115 | `find`: the first stack with that id, or none exactly when no stack has it |
| HabitStacking.FreshSteps | src/components/features/HabitStacking.tsx:96-100 | every step gets a stamped id and is uncompleted, in order |
| HabitStacking.CreateStackFromPreset | src/components/features/HabitStacking.tsx:89-106 | the old stacks stay in place and one stack is appended: id `Date.now()`, the preset's name and description, the preset's steps under ids `<stamp>-<id>` and uncompleted with every other field kept, inactive, not completed today, with the creation time |
| HabitStacking.CreatedStackFacts | src/components/features/HabitStacking.tsx:89-104 | a created stack takes as long in total as the preset, is 0% complete, and has as many steps of each type as the preset |
| HabitStacking.Activated | src/components/features/HabitStacking.tsx:109-112 | each stack's `isActive` becomes whether its id matches |
| HabitStacking.ActivateStack | src/components/features/HabitStacking.tsx:108-117 | exactly the stacks with the id are active, nothing else changes, and the active stack is the first of them |
| HabitStacking.DeleteStack | src/components/features/HabitStacking.tsx:149-156 | exactly the stacks with another id stay; the active stack is cleared only when it is deleted |
| HabitStacking.DeleteKeepsOrder | src/components/features/HabitStacking.tsx:150 | the stacks that stay keep their order: any two of them sit in that order in the old list, and stacks appended without the id stay after the others |
| HabitStacking.SurvivorsInOrder | src/components/features/HabitStacking.tsx:150 | any two stacks left after a delete sit at two positions of the old list in the same order |
| HabitStacking.FilterAll | src/components/features/HabitStacking.tsx:150 | a list without the id is kept whole |
| HabitStacking.ToggleStep | src/components/features/HabitStacking.tsx:122-124 | the steps with that id are flipped, all others kept |
| HabitStacking.CompleteAll | src/components/features/HabitStacking.tsx:120-138 | the update applied to every stack, in place |
| HabitStacking.CompleteHabit | src/components/features/HabitStacking.tsx:119-147 | only the matching stack changes: its habits toggled and `completedToday` true exactly when every required habit is completed; the active stack is refreshed only when it is the one changed |
| HabitStacking.NoRequiredIsComplete | src/components/features/HabitStacking.tsx:127-129 | a stack with no required habits is completed today after completeHabit |
| HabitStacking.CompleteHabitTwice | src/components/features/HabitStacking.tsx:119-138 | completing the same habit twice restores every stack's habits |
| HabitStacking.ClearSteps | src/components/features/HabitStacking.tsx:161 | every step uncompleted, nothing else changed |
| HabitStacking.ClearStacks | src/components/features/HabitStacking.tsx:159-163 | every stack's steps cleared and `completedToday` false |
| HabitStacking.ResetDailyProgress | src/components/features/HabitStacking.tsx:158-171 | every habit uncompleted and no stack completed today, every other field of each stack and step kept; the active stack refreshed from the new list |
| HabitStacking.ResetIdempotent | src/components/features/HabitStacking.tsx:158-163 | resetting twice is resetting once |
| HabitStacking.Durations | src/components/features/HabitStacking.tsx:174 | the steps' durations in order |
| HabitStacking.TotalDurationAppend | src/components/features/HabitStacking.tsx:173-175 | the total duration adds up over concatenation |
| HabitStacking.TotalDurationNonNegative | src/components/features/HabitStacking.tsx:173-175 | non-negative durations give a non-negative total |
| HabitStacking.CompletionRate | src/components/features/HabitStacking.tsx:177-180 | 0 for no steps, otherwise 100 × completed / steps, in [0,100] |
| HabitStacking.HabitsByType | src/components/features/HabitStacking.tsx:182-184 | exactly the steps of that type, each as often as before, sorted by ascending order, steps with equal order keeping their input order |
| TimeTracking.Stopwatch.constructor | src/components/features/TimeTracking.tsx:92-98 | not tracking, nothing elapsed, no start, no sessions, the one-minute goal selected |
| TimeTracking.Stopwatch.StartTracking | src/components/features/TimeTracking.tsx:132-137 | tracking from now with nothing elapsed; sessions and goal unchanged |
| TimeTracking.Stopwatch.Tick | src/components/features/TimeTracking.tsx:115-125 | while tracking, the elapsed time becomes the whole seconds since the start; nothing else changes |
| TimeTracking.Stopwatch.PauseTracking | src/components/features/TimeTracking.tsx:139-141 | not tracking; everything else unchanged |
| TimeTracking.Stopwatch.ResumeTracking | src/components/features/TimeTracking.tsx:143-150 | with a start, tracking again from a start moved back by the elapsed time; without one, nothing changes |
| TimeTracking.Stopwatch.ResetTracking | src/components/features/TimeTracking.tsx:179-183 | not tracking, nothing elapsed, no start; sessions unchanged |
| TimeTracking.Stopwatch.StopTracking | src/components/features/TimeTracking.tsx:152-177 | with a start and positive elapsed time, today's sessions are replaced by one new session, which becomes today's, and the duration is reported; otherwise nothing is recorded; always ends reset |
| TimeTracking.StopKeepsOneSessionPerDay | src/components/features/TimeTracking.tsx:167-170 | after a recording stop today has exactly one session and other days' sessions are the same, in order |
| TimeTracking.ProgressTowardsGoal | src/components/features/TimeTracking.tsx:191-194 | 0 without a session today; otherwise the session's duration / target × 100 while within the target, and 100 above it; never negative for a non-negative duration |
| TimeTracking.AchievedIffFullProgress | src/components/features/TimeTracking.tsx:191-199 | the goal is achieved exactly when the progress reaches 100 |
| TimeTracking.HasAchievedGoal | src/components/features/TimeTracking.tsx:196-199 | achieved only with a session today, exactly when the capped progress reaches 100, and then every smaller target is met too |
| TimeTracking.Durations | src/components/features/TimeTracking.tsx:217 | the sessions' durations in order |
| TimeTracking.BestTime | src/components/features/TimeTracking.tsx:215-218 | 0 for no sessions, otherwise the largest duration |
| TimeTracking.TotalTime | src/components/features/TimeTracking.tsx:220-222 | 0 for no sessions; with non-negative durations it is non-negative and at least every session's duration |
| TimeTracking.BestWithinTotal | src/components/features/TimeTracking.tsx:215-222 | with non-negative durations the best time lies between 0 and the total time |
| TimeTracking.GoalIdsDistinct | src/components/features/TimeTracking.tsx:30-87 | the goal ids are distinct and the targets strictly ascend |
| TimeTracking.AchievementsFor | src/components/features/TimeTracking.tsx:224-234 | the achievement map has exactly the goal ids as keys, each mapped to the number of sessions meeting that goal's target |
| TimeTracking.CountsDescend | src/components/features/TimeTracking.tsx:224-234 | with strictly ascending targets, a later goal is never met by more sessions than an earlier one |
| TimeTracking.GoalAchievements | src/components/features/TimeTracking.tsx:224-234 | a key per goal with the number of sessions meeting its target; the counts never increase along the goal list |
| Common.MinutesSeconds | src/components/features/TimeTracking.tsx:185-189 | `m:ss`: digits, a ':' third from the end and two digits after it; four characters below ten minutes |
| Common.MinutesSecondsRoundTrip | src/components/features/TimeTracking.tsx:185-189 | the text splits at ':' into digits and two digits that read back as the number of seconds |
| Common.MinutesSecondsExample | src/components/features/TimeTracking.tsx:185-189 | 90 seconds is '1:30' |
| MoodTracking.StoredNotes | src/components/features/MoodTracking.tsx:80 | nothing exactly for blank notes, otherwise the trimmed notes, which start and end with a non-space |
| MoodTracking.MoodLog.constructor | src/components/features/MoodTracking.tsx:39-44 | no entries, no entry today, no moods selected, the logger hidden and empty notes |
| MoodTracking.MoodLog.LogMood | src/components/features/MoodTracking.tsx:69-92 | without both moods nothing changes; otherwise today's entries are replaced by one new entry, which becomes today's, the logger closes and (date, before, after) is reported |
| MoodTracking.LogKeepsOneEntryPerDay | src/components/features/MoodTracking.tsx:84-87 | today then has exactly one entry, other days' entries are kept in order, and moods on the scale stay on it |
| MoodTracking.MoodScaleOf | src/components/features/MoodTracking.tsx:94-96 | the scale entry with that value, and Neutral (value 3) outside 1-5 |
| MoodTracking.AverageImprovement | src/components/features/MoodTracking.tsx:98-102 | 0 for no entries, otherwise the mean of after − before, within [−4, 4] for moods on the scale |
| MoodTracking.WeeklyMoodTrend | src/components/features/MoodTracking.tsx:104-118 | (0, 0) without entries in the last week, otherwise the mean before and after moods of those entries |
| MoodTracking.WeeklyTrendOnScale | src/components/features/MoodTracking.tsx:104-118 | both weekly means lie on the 1-5 scale, and an entry is recent exactly when dated after the day a week ago, or on it at midnight |
| MoodTracking.BestIndex | src/components/features/MoodTracking.tsx:122-124 | the reduce ends on a largest after mood that no earlier entry reaches |
| MoodTracking.BestMoodDay | src/components/features/MoodTracking.tsx:120-125 | null exactly for no entries; otherwise the earliest entry with the largest after mood |
| Challenges.StartChallenge | src/components/features/ChallengeDurations.tsx:156-172 | the new record, starting today with progress 0, uncompleted and ending `duration` days later, comes last |
| Challenges.StartChallengeFacts | src/components/features/ChallengeDurations.tsx:156-170 | the challenge then has exactly one record, the new one, which is its current progress; other challenges' records are kept in order |
| Challenges.StartedIsCurrent | src/components/features/ChallengeDurations.tsx:169-175 | a new uncompleted record after none of its challenge is the current progress |
| Challenges.CurrentProgress | src/components/features/ChallengeDurations.tsx:174-176 | the first uncompleted record of the challenge; nothing exactly when every record of it is completed |
| Challenges.CompletedChallenges | src/components/features/ChallengeDurations.tsx:178-180 | exactly the completed records |
| Challenges.InChallengeDays | src/components/features/ChallengeDurations.tsx:187-190 | a tracked day counts exactly when it is completed and dated from the start through today |
| Challenges.Progress | src/components/features/ChallengeDurations.tsx:182-193 | counted days / length × 100 while the count is within the length, and exactly 100 once it exceeds it |
| Challenges.MilestoneReachedIff | src/components/features/ChallengeDurations.tsx:260 | a milestone shows as reached exactly when both the counted days and the length reach it |
| Challenges.ScaleIff | src/components/features/ChallengeDurations.tsx:260 | scaling both sides by a positive number keeps the comparison |
| Challenges.DaysRemaining | src/components/features/ChallengeDurations.tsx:240-241 | the length minus the whole days since the start, never below 0 |
| Challenges.WholeDaysSince | src/components/features/ChallengeDurations.tsx:241 | the floored day difference from now back to the start's midnight is the difference of day numbers |
| Challenges.RecommendedIndex | src/components/features/ChallengeDurations.tsx:205-219 | always a position in the challenge list |
| Challenges.RecommendedChallenge | src/components/features/ChallengeDurations.tsx:205-219 | streak 0 gives 7 days, 1-6 gives 14, 7-20 gives 21, 21-29 gives 30, 30-59 gives 60, 60 and more gives 90 |
| Challenges.RecommendationMonotone | src/components/features/ChallengeDurations.tsx:205-219 | a longer streak never gets a shorter challenge, and below 90 days the challenge is longer than the streak |
| ShowerTimer.PhaseSearch | src/components/features/ColdShowerTimer.tsx:75-84 | always a phase index: the first phase whose cumulative end is not before t, and 0 when none is |
| ShowerTimer.PhaseAtThresholds | src/components/features/ColdShowerTimer.tsx:75-84 | the phase of t is the first whose cumulative end (10, 40, 100, 190, 490) is at least t, and 0 past 490 |
| ShowerTimer.TotalGuidedTime | src/components/features/ColdShowerTimer.tsx:164 | the guided session lasts 490 seconds |
| ShowerTimer.Timer.constructor | src/components/features/ColdShowerTimer.tsx:57-65 | nothing elapsed, stopped, phase 0, sound on, 180 seconds custom duration, guided mode |
| ShowerTimer.Timer.Tick | src/components/features/ColdShowerTimer.tsx:69-103 | for a running timer, one more second; in guided mode a phase differing from the last is recorded, with a cue for a phase after the first, and the same phase changes nothing; in custom mode the cue sounds at half the duration |
| ShowerTimer.Timer.StartTimer | src/components/features/ColdShowerTimer.tsx:124-129 | running, with the start cue only from zero with sound on |
| ShowerTimer.Timer.PauseTimer | src/components/features/ColdShowerTimer.tsx:131-133 | stopped, everything else unchanged |
| ShowerTimer.Timer.ResetTimer | src/components/features/ColdShowerTimer.tsx:149-154 | stopped with elapsed time and phase 0 |
| ShowerTimer.Timer.StopTimer | src/components/features/ColdShowerTimer.tsx:135-147 | a positive elapsed time is reported, with the completion cue when sound is on; a zero one is not; always ends reset |
| ShowerTimer.Timer.SetCustomDuration | src/components/features/ColdShowerTimer.tsx:225 | the custom duration becomes the clamped parse of the input |
| ShowerTimer.ClampDuration | src/components/features/ColdShowerTimer.tsx:225 | at least 30; no number or 0 gives 30; a number of at least 30 is kept |
| ShowerTimer.ClampTypedNumber | src/components/features/ColdShowerTimer.tsx:225 | a typed number of at least 30 is kept, a smaller one gives 30, and text without digits gives 30 |
| ShowerTimer.Progress | src/components/features/ColdShowerTimer.tsx:162-169 | in [0,100]: the elapsed share of 490 seconds in guided mode or of the custom duration otherwise, full once that is reached |
| ShowerTimer.CurrentMessage | src/components/features/ColdShowerTimer.tsx:171-182 | the phase's message in guided mode; in custom mode exactly one of four messages for progress below 25, below 50, below 75, and from 75 |
| Common.ParseInt | src/components/features/ColdShowerTimer.tsx:225 | parseInt gives NaN exactly when no digit follows the leading white space and sign |
| Common.ParseIntNatToString | src/components/features/ColdShowerTimer.tsx:225 | parseInt reads back the decimal text of every natural number |
| Dates.CivilOfDayNumber | src/components/Calendar.tsx:29-33 | converting a valid (year, month, day) to a day number and back gives the same date, so the day-number model of `new Date(year, month, day)` loses nothing |
| Dates.DayNumberInjective | src/components/Calendar.tsx:29-33 | two valid calendar dates with the same day number are the same date |
| Dates.LastOfMonth | src/components/Calendar.tsx:33 | the last day of a month is the day before the first of the next month, as `new Date(year, month + 1, 0)` reads it |
| Dates.FormatDate | src/components/Calendar.tsx:51-53 | the date text is at least ten characters of digits and signs, and exactly `YYYY-MM-DD` (dashes at positions 4 and 7) for the years 0 to 9999 |
| Dates.YearText | src/components/Calendar.tsx:51-53 | the year as `toISOString` writes it: four digits for 0 to 9999, otherwise a sign and six or more digits |
| Dates.YearTextReadsBack | src/components/Calendar.tsx:51-53 | the first character tells the three year forms apart and the digits read back as the year's magnitude |
| Dates.YearTextInjective | src/components/Calendar.tsx:51-53 | distinct years have distinct year texts |
| Dates.PaddedNumber | src/components/Calendar.tsx:51-53 | a two-digit field is the number's digits padded with zeros to width two, and exactly two characters below 100 |
| Dates.ParsePadded | src/components/Calendar.tsx:51-53 | a zero-padded number reads back as that number |
| Dates.FormatCivilReadsBack | src/components/Calendar.tsx:51-53 | the text of a date is the year text, '-', two month digits, '-', two day digits, and the fields read back as year, month and day |
| Dates.FormatCivilInjective | src/components/Calendar.tsx:51-53 | two valid calendar dates with the same text are the same date |
| Dates.FormatDateReadsBack | src/components/Calendar.tsx:51-53 | the text of a day number reads back as that day's year, month and day |
| Dates.FormatDateInjective | src/components/Calendar.tsx:51-53 | distinct days have distinct date texts, so looking a record up by its date text finds that day's record |
| Dates.DayNumberOfCivil | src/components/Calendar.tsx:29-33 | the calendar date of a day number has that day number again (the other half of the round trip) |
| Dates.CivilOfInjective | src/components/Calendar.tsx:29-33 | distinct day numbers have distinct calendar dates |
| Calendar.MonthGrid | src/components/Calendar.tsx:29-49 | as many blank cells as the weekday of the 1st, then days 1 to the month's last day in order, so the length is that weekday plus the days in the month; every day cell lies in the displayed month and year |
| Calendar.LastDayOfMonth | src/components/Calendar.tsx:33 | the day before the 1st of the next month is the last day of the month |
| Calendar.CellsInMonth | src/components/Calendar.tsx:38-46 | every day cell of a grid built that way lies in the displayed month and year |
| Calendar.FormatCell | src/components/Calendar.tsx:51-53 | a grid cell formats as the `YYYY-MM-DD` text of its own calendar date |
| Calendar.ShiftMonth | src/components/Calendar.tsx:60-68 | the neighbouring month is a valid month exactly one month before or after, across year ends |
| Calendar.NavigateAsWritten | src/components/Calendar.tsx:60-68 | `setMonth(getMonth() ± 1)` lands day-of-month − 1 days after the first of the neighbouring month, so past that month's end for a late day |
| Calendar.NavigateAsWrittenSkipsFebruary | src/components/Calendar.tsx:60-68 | keeping the day of the month, "next" from 31 January 2025 lands on 3 March and "previous" from 31 March stays in March |
| Calendar.NavigateLands | src/components/Calendar.tsx:60-68 | navigating as written keeps the day of the month and moves to the neighbouring month and year |
| Calendar.NavigateMonth | src/components/Calendar.tsx:60-68 | the corrected navigation shows the 1st of exactly the neighbouring month |
| Calendar.NavigateThereAndBack | src/components/Calendar.tsx:60-68 | next then previous returns to the same month and year |
| Calendar.RecordFor | src/components/Calendar.tsx:86 | the first record with that date text, and none exactly when no record has it |
| Calendar.DayData | src/components/Calendar.tsx:55-58 | a record is returned only if its date is the cell's formatted date, and none exactly when no record has that date |
| Calendar.HandleDayClick | src/components/Calendar.tsx:70-73 | the click toggles exactly the clicked cell's `YYYY-MM-DD` date text |
| Calendar.ToggleDayProperty | src/components/Calendar.tsx:84-90 | nothing happens without a selected date; otherwise the flag of the selected date is set to the negation of its shown value, an absent record or flag counting as false |
| SocialSharing.Achievements | src/components/features/SocialSharing.tsx:32-69 | four achievements in order: 7-Day Warrior unlocked iff either streak reaches 7, Streak Master iff either reaches 30, Consistency Champion iff the rate reaches 80, Centurion iff 100 completions; the consistency text starts with the rounded rate |
| SocialSharing.RateMonotone | src/components/features/SocialSharing.tsx:56 | a rate no smaller than one reaching a threshold reaches it too |
| SocialSharing.UnlockOrder | src/components/features/SocialSharing.tsx:38-65 | Streak Master is never unlocked without 7-Day Warrior, and more progress never locks an achievement again |
| SocialSharing.Hashtags | src/components/features/SocialSharing.tsx:73 | each tag prefixed with '#', in order |
| SocialSharing.ShareText | src/components/features/SocialSharing.tsx:71-77 | the text always ends with the handle `@bigdaddysbigtips`; an achievement's text opens with its share text and a blank line |
| SocialSharing.ShareTextLines | src/components/features/SocialSharing.tsx:71-77 | an achievement's share text splits back into its text, a blank line, the hashtag line, a blank line and the handle, and the hashtag line splits back into the '#'-prefixed tags |
| SocialSharing.ShareCurrentProgress | src/components/features/SocialSharing.tsx:170-173 | the options are shown with no achievement selected |
| SocialSharing.ShareAchievement | src/components/features/SocialSharing.tsx:175-179 | a locked achievement leaves the state unchanged; an unlocked one is selected and the options shown |
| SocialSharing.CloseShareOptions | src/components/features/SocialSharing.tsx:181-184 | the options are hidden and the selection cleared |
| SocialSharing.PanelKeepsSelectionUnlocked | src/components/features/SocialSharing.tsx:170-184 | every handler keeps the selected achievement an unlocked one |
| SocialSharing.ClicksKeepSelectionUnlocked | src/components/features/SocialSharing.tsx:170-184 | after any sequence of clicks only an unlocked achievement is selected, and a selected achievement is the one selected before or one that was clicked |
| PromptTemplates.GetTemplate | src/services/promptTemplates.ts:294-296 | the first template with that id, and nothing exactly when no template has it |
| PromptTemplates.TemplatesByType | src/services/promptTemplates.ts:298-300 | exactly the templates of that type, as many as there are |
| PromptTemplates.TemplatesByTypeOrder | src/services/promptTemplates.ts:298-300 | the result keeps the templates in their original order |
| PromptTemplates.EstimateTokenUsage | src/services/promptTemplates.ts:316-319 | the found template's estimate, and 0 for an unknown id |
| PromptTemplates.ReplaceAll | src/services/promptTemplates.ts:310 | the scan `replace` makes with a value inserted as written: text without an occurrence of the placeholder comes back unchanged |
| PromptTemplates.ReplaceAllConcat | src/services/promptTemplates.ts:310 | when no occurrence straddles the join, replacing in a concatenation replaces in each part |
| PromptTemplates.PlaceholderReplaced | src/services/promptTemplates.ts:310 | in the scan with the value inserted as written, an occurrence of `{{key}}` becomes the value, the text on each side scanned on its own |
| PromptTemplates.Expand | src/services/promptTemplates.ts:310 | the text `replace` inserts for one match: `$$`, `$&`, `` $` `` and `$'` expanded, every other character kept, and a value without `$` inserted unchanged |
| PromptTemplates.ReplaceGlobalLiteral | src/services/promptTemplates.ts:310 | for a value without `$`, `replace` with the `g` flag is the plain scan |
| PromptTemplates.GlobalPlaceholderReplaced | src/services/promptTemplates.ts:310 | for a value without `$`, `replace` turns an occurrence of `{{key}}` into the value, the text on each side scanned on its own |
| PromptTemplates.DollarDollarExample | src/services/promptTemplates.ts:310 | the value `A$$B` is inserted as `A$B` |
| PromptTemplates.MatchPatternExample | src/services/promptTemplates.ts:310 | the value `$&` leaves `{{x}}` in place, where the plain scan would insert `$&` |
| PromptTemplates.RenderLiteral | src/services/promptTemplates.ts:308-311 | with values without `$` the rendering is the plain entry-by-entry scan |
| PromptTemplates.PlaceholderSurvives | src/services/promptTemplates.ts:310 | a placeholder of a different key passes through the replacement unchanged |
| PromptTemplates.RenderTemplate | src/services/promptTemplates.ts:302-314 | an unknown id is an error "Template <id> not found" and a known one never is; otherwise the `replace` calls for the entries in entry order, replacement patterns included; with values without `$` the plain entry-by-entry scan; with no variables the text unchanged |
| PromptTemplates.UnsuppliedPlaceholderRemains | src/services/promptTemplates.ts:308-313 | with values without `$`, a placeholder whose key has no entry is still in the rendered text |
| DesignInspiration.Relevance | src/services/designInspiration.ts:123-141 | relevance in tenths is positive exactly when the query is in the name or the description or some tag contains a query term; a name hit alone gives at least 5, and the score never exceeds 8 plus 2 per tag |
| DesignInspiration.Score | src/services/designInspiration.ts:122-149 | one result per resource, in order, carrying its relevance |
| DesignInspiration.CandidatesFacts | src/services/designInspiration.ts:121-151 | the candidates are exactly the scored resources of the category filter with positive relevance |
| DesignInspiration.SearchInspiration | src/services/designInspiration.ts:117-154 | at most ten results, sorted by descending relevance, each a candidate with positive relevance meeting the category filter; a candidate left out means ten results each at least as relevant |
| DesignInspiration.FirstByUrlFrom | src/services/designInspiration.ts:170-172 | every result kept by the duplicate filter is one of the inputs |
| DesignInspiration.FirstByUrlCovers | src/services/designInspiration.ts:170-172 | every input url keeps a result |
| DesignInspiration.FirstByUrlDistinct | src/services/designInspiration.ts:170-172 | the kept results have distinct urls |
| DesignInspiration.AllResultsComponents | src/services/designInspiration.ts:164-167 | every result of the four searches is a component with positive relevance |
| DesignInspiration.CollectResults | src/services/designInspiration.ts:164-167 | the collected results are the component searches for the queries, concatenated in query order |
| DesignInspiration.ComponentInspiration | src/services/designInspiration.ts:156-177 | at most eight results, sorted by descending relevance, distinct by url, all components with positive relevance and drawn from the four searches; a url of the searches is missing only when eight results are returned, and a deduplicated result left out is no more relevant than any of the eight |
| DesignInspiration.TopUniqueFacts | src/services/designInspiration.ts:170-176 | deduplicating, sorting and taking eight gives sorted, url-distinct results drawn from the input, covering every url unless eight are returned, and no deduplicated result left out is more relevant than a kept one |
| DesignInspiration.GetTrendingPatterns | src/services/designInspiration.ts:179-202 | the same fixed list of twenty patterns, from "Glassmorphism UI Design" to "Loading State Animations" |
| McpOptimizer.SuccessRate | src/services/mcpOptimizer.ts:182-184 | 100 × successful / responses, 0 before any response, between 0 and 100 |
| McpOptimizer.SuccessRateBounds | src/services/mcpOptimizer.ts:182-184 | the success rate of at least one response lies between 0 and 100, and is 100 exactly when every response succeeded |
| McpOptimizer.AllCounted | src/services/mcpOptimizer.ts:183 | every response counts as successful exactly when all of them succeeded |
| McpOptimizer.Session.constructor | src/services/mcpOptimizer.ts:44-52 | a session with the given id and start time, no requests or responses, and zero resets, prompts and rate |
| McpOptimizer.Optimizer.constructor | src/services/mcpOptimizer.ts:35-39 | no sessions, no current session and no context used |
| McpOptimizer.Optimizer.StartSession | src/services/mcpOptimizer.ts:43-54 | a new empty session with zero counters becomes the current one and is appended to the sessions; the context usage is kept |
| McpOptimizer.Optimizer.ShouldResetContext | src/services/mcpOptimizer.ts:160-163 | a reset is due exactly when usage/80000×100 exceeds 70, that is, when more than 56000 characters are used |
| McpOptimizer.Optimizer.ResetContext | src/services/mcpOptimizer.ts:166-172 | with a session, its reset count rises by one and the usage becomes 0, nothing else changing; without one, nothing changes |
| McpOptimizer.Optimizer.OptimizeRequest | src/services/mcpOptimizer.ts:57-73 | an error without a session; otherwise the request is appended, the built prompt returned, and the context reset exactly when more than 56000 characters were in use |
| McpOptimizer.Optimizer.RecordResponse | src/services/mcpOptimizer.ts:175-185 | nothing without a session; otherwise the response is appended, the prompts rise by one, its context is added to the usage and the rate becomes 100×successful/responses |
| McpOptimizer.Average | src/services/mcpOptimizer.ts:206-207 | the mean as sum over count, and NaN exactly for no values |
| McpOptimizer.Optimizer.SessionAnalytics | src/services/mcpOptimizer.ts:188-227 | zeros and the single "No active session" note without a session; otherwise the session's rate and resets, the mean iterations and efficiency, and each note exactly when its threshold is crossed, at most once each and in the source's order |
| McpOptimizer.AnalyticsRateBounds | src/services/mcpOptimizer.ts:182-184 | the reported rate lies in 0..100, and the specificity note is missing only when at least one response was recorded and at least 80% succeeded |
| McpOptimizer.Optimizer.OptimizationRecommendations | src/services/mcpOptimizer.ts:254-281 | only the start-session hint before any session has been started; afterwards the hints of the current analytics |
| McpOptimizer.Hints | src/services/mcpOptimizer.ts:264-278 | each hint appears exactly when its threshold is crossed (rate below 80, iterations above 2, more than 2 resets, efficiency below 70), at most once each and in the source's order, never the start hint |
| McpOptimizer.EmptySessionAdvice | src/services/mcpOptimizer.ts:206-278 | a session without responses has rate 0 and NaN means, so it gets the specificity hint and, with more than 2 resets, the batching hint, and nothing else |
| McpOptimizer.ToolLinesFacts | src/services/mcpOptimizer.ts:133-154 | three tool lines for every request type, none of them the parallel heading |
| McpOptimizer.Objective | src/services/mcpOptimizer.ts:80-84 | five lines, starting with the objective heading and the upper-cased type |
| McpOptimizer.Numbered | src/services/mcpOptimizer.ts:89-91 | line i is the number k + i, a dot, a space and requirement i |
| McpOptimizer.ToolSectionFacts | src/services/mcpOptimizer.ts:132-154 | the tool heading followed by the three lines of the type |
| McpOptimizer.FixedSectionsFacts | src/services/mcpOptimizer.ts:96-121 | the fixed sections are 22 lines without the parallel heading |
| McpOptimizer.BuildOptimizedPrompt | src/services/mcpOptimizer.ts:76-157 | the prompt is the objective, requirements, fixed, parallel and tool sections joined by line breaks |
| McpOptimizer.NumberRequirements | src/services/mcpOptimizer.ts:87-93 | nothing without requirements; otherwise the heading, the requirements numbered from 1 and a blank line |
| McpOptimizer.NumberedSnoc | src/services/mcpOptimizer.ts:89-91 | numbering one more requirement appends its numbered line |
| McpOptimizer.RequirementsNumbered | src/services/mcpOptimizer.ts:87-93 | right after the objective come the requirements heading and requirement i numbered i + 1 |
| McpOptimizer.ParallelSectionIff | src/services/mcpOptimizer.ts:124-129 | the parallel-execution heading is in the prompt exactly when there are related requests |
| McpOptimizer.NotAHeading | src/services/mcpOptimizer.ts:80-121 | no objective, requirement or fixed line is the parallel heading |
| McpOptimizer.RequirementsNotParallel | src/services/mcpOptimizer.ts:87-93 | no requirements line is the parallel heading |
| McpOptimizer.NumberedLineStart | src/services/mcpOptimizer.ts:90 | every numbered requirement line starts with a digit |
| McpOptimizer.PromptFrame | src/services/mcpOptimizer.ts:76-157 | the prompt has 5 + (n + 2 with requirements) + 22 + (4 with related requests) + 4 lines, opens with the objective and type, and ends with the tool heading and the three lines of the type |
| McpOptimizer.Bullets | src/services/mcpOptimizer.ts:240 | line i is "- " followed by requirement i |
| McpOptimizer.GenerateBatchRequest | src/services/mcpOptimizer.ts:230-251 | the batch prompt is the heading, the note, each request's block and the strategy joined by line breaks |
| McpOptimizer.PushRequest | src/services/mcpOptimizer.ts:237-241 | the block of one request: its numbered heading, context, label, bulleted requirements and expected output |
| McpOptimizer.BulletsSnoc | src/services/mcpOptimizer.ts:240 | one more requirement appends its bullet |
| McpOptimizer.BlocksSnoc | src/services/mcpOptimizer.ts:236-242 | one more request appends its block numbered after the others |
| McpOptimizer.BlocksConcat | src/services/mcpOptimizer.ts:236-242 | the blocks of two lists of requests are those of the first followed by those of the second, numbered on |
| McpOptimizer.BlockPosition | src/services/mcpOptimizer.ts:236-242 | the block of request i is numbered i + 1 and stands between the blocks before and after it |
| McpOptimizer.BlocksLength | src/services/mcpOptimizer.ts:236-242 | four lines per request plus one per requirement |
| McpOptimizer.BatchLength | src/services/mcpOptimizer.ts:230-251 | the batch has the heading and note, four lines per request and one per requirement, and the five strategy lines |
| Common.Round | src/components/features/SocialSharing.tsx:57 | Math.round: the nearest integer, halves rounded up |
| Common.CapAt100 | src/components/features/ChallengeDurations.tsx:192 | Math.min(x, 100): never above 100, and unchanged when x is at most 100 |
| Common.CappedShare | src/components/features/ChallengeDurations.tsx:192 | Math.min(part / whole × 100, 100): the percentage while part is at most whole, exactly 100 above, never negative for a non-negative part |
| Common.Trim | src/components/features/MoodTracking.tsx:80 | String.prototype.trim: a slice of the text with only white space cut off before and after it, no white space left at either end, and empty exactly when the text was all white space |
| Sorting.SortBy | src/services/designInspiration.ts:152 | the sorted list is a permutation of the input, ordered by the key |
| Sorting.SortByStable | src/services/designInspiration.ts:152 | the sort is stable: the elements sharing any one key keep their input order |
| Sorting.InsertKeepsTies | src/services/designInspiration.ts:152 | inserting an element puts it ahead of every element already present with the same key |
| Sorting.TopFacts | src/services/designInspiration.ts:152-153 | the first n after sorting are sorted, drawn from the input, and a left-out element means n kept elements whose keys are no larger |

## Left out

- Storage and I/O: localStorage reads and writes, JSON parsing and printing, and the console. Only the list transforms that are persisted are modelled. Loading today's session, mood entry or entries from storage when a component mounts is left out with them.
- The network: the hosted database client, authentication, subscriptions, the offline queue and the asynchronous branches of the synchronising hook. These are foreign client calls.
- The browser: timers and intervals, audio, the clipboard, the canvas progress card, `window.open`, file downloads and the service worker. A timer tick is an explicit `Tick` method. A sound is a boolean cue returned by the step.
- The program's calls to the clock: `new Date()` is a parameter (`now`, a day number or a `Clock`). Record identifiers and creation stamps are parameters too.
- Dates and time zones: the local time zone is taken to be UTC, so local getters and `toISOString` agree. Daylight saving time and the parsing of other date formats are left out. The range limit of a JavaScript `Date` (about 275760 years either side of 1970) and the `RangeError` that `toISOString` throws beyond it are not modelled: every day number has a text.
- Floating point: fractions stand in for JavaScript numbers. Rounding error in the source, such as ties between relevances 0.5 + 0.2 and 0.3 + 0.2 + 0.2, is not modelled.
- JavaScript strings: a string is a sequence of characters. `toLowerCase` covers ASCII letters only. `trim` and `parseInt` white space covers the common space characters, not every Unicode space separator.
- Rendering: all JSX, the UI component library, design tokens and the developer panels.
- `getWeeklyAverage` in `src/components/features/TimeTracking.tsx:201-213`: not one of the modelled operations.
- `generateInsights` in `src/components/features/HabitAnalytics.tsx:269`: turns the computed analytics into display sentences and is not modelled.
- `generateProgressStats` and the share buttons in `src/components/features/SocialSharing.tsx:79-117`: text for external sites and the clipboard.
- `getColdTherapyInspiration` and `getSaaSInspiration` in `src/services/designInspiration.ts`: fixed queries passed to `searchInspiration`, which is modelled.
- The template and resource catalogues: the prompt-template service takes its template list as a parameter. The curated resource list is a constant used the same way. The long texts of the templates are not reproduced.
- `exportToJSON`, `exportToPDF` and `downloadFile` in `src/utils/dataExport.ts`: serialisation and downloads.
- Metacharacters in template keys: `renderTemplate` builds a regular expression from each key. The model treats keys as plain text without braces, which matches for identifier keys.
- The `output` of an optimizer response: untyped in the source and never read by the modelled operations.
- `PromptTemplates.RenderTemplate`: states the result as the entry-by-entry `replace` calls `Render`, which expand `$` patterns in the values. That a supplied brace-free key's placeholders are replaced by the value and an unsupplied key's survive is proved only for values without `$` (`ApplyAll`). With `$&`, `` $` `` or `$'` a value can copy text, placeholders included, into the result, and no closed form is stated for that case.
- `ColdShowerApp.CalculateStats`: the summary's streak is the corrected streak `CalculateStreak`. The source calls its own `calculateStreak`, whose value is `CalculateStreakAsWritten` and differs from the third consecutive day on (see Findings). The as-written streak of the summary is therefore not stated.
- `Common.ParseInt`: does not model the `0x` prefix, which makes `parseInt` without a radix read hexadecimal. The parsed text comes from a number input, whose value is never written that way.
- `DesignInspiration.SearchInspiration`: the ordering among equal relevances is not stated. The sort is stable, but the contract only says the results are sorted by descending relevance.
- `DesignInspiration.Relevance`: the contract states when the score is positive and bounds it. The exact sum 5 + 3 + 2 per matching tag is the function's definition and is not restated as an ensures.
- `McpOptimizer.BuildOptimizedPrompt`: does not state that splitting the prompt at line breaks gives back its lines. Some lines hold no line break, and proving that for the long literal texts is out of reach. The facts are proved about the list of lines instead: numbering, the parallel section iff related requests, length, first and last lines.
- `McpOptimizer.GenerateBatchRequest`: like `BuildOptimizedPrompt`, the contract states the list of lines before joining, not a split round trip. The note and every expected-output line themselves end in a line break, as in the source.

## Findings

| source | as written | input that shows it | evidently intended | confidence | as-written member | corrected member |
|---|---|---|---|---|---|---|
| src/components/features/HabitAnalytics.tsx:151-168 | each week's window starts at `now` moved back 7i+6 days, keeping now's time of day, and records are compared by their UTC midnight | `now` not at midnight and one completed record six days earlier: it is counted in none of the twelve weeks | twelve whole seven-day windows covering the last 84 days | not executed | Analytics.MonthlyTrendAsWritten, Analytics.AsWrittenTrendLosesRecord | Analytics.MonthlyTrend |
| src/components/SimpleColdShowerApp.tsx:162-183 | `daysDiff` is measured from the previous accepted entry but compared with the running streak, so from the third entry on it must be 2, 3, … days | completed entries today, yesterday and the day before: the streak is 2 | the number of consecutive completed days ending today (3) | not executed | ColdShowerApp.CalculateStreakAsWritten, ColdShowerApp.AsWrittenMissesThirdDay | ColdShowerApp.CalculateStreak |
| src/components/Calendar.tsx:60-68 | `setMonth(getMonth() ± 1)` keeps the day of the month, and a day the new month lacks runs over into the following month | from 31 January 2025, "next" shows March; from 31 March 2025, "previous" stays in March | move to the neighbouring month | not executed | Calendar.NavigateAsWritten, Calendar.NavigateAsWrittenSkipsFebruary | Calendar.NavigateMonth |
