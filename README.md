# Study tracker core, modelled in Dafny

The study tracker lets a user record study time and vocabulary work per subject. It has two parts.

- **The React pages.**
  - The log-study page runs a timer that survives reloads through browser storage. It sends study sessions or word logs.
  - The history page merges sessions and word logs into one list, newest first.
  - The calendar page buckets a month's records per day and colours each day by its minutes.
  - The dashboard shows today's totals per subject and the goal progress.
  - The flip clock shows `hhiiss` digits on flip cards.
- **The Spring controllers.**
  - Study sessions are stored and queried by Beijing day.
  - Word logs are stored and queried by date.
  - Analytics builds the daily series of the last N days.
  - Subjects are created, patched and deleted.
  - Times are written as Beijing local text.
  - Registration needs an invite code.

The model has one Dafny module per source file, plus shared modules. The shared modules cover:

- records: the JSON shapes the pages receive, and JavaScript rounding;
- text: digits, `parseInt`, `Integer.parseInt`, padding;
- the proleptic Gregorian calendar;
- ISO-8601 text;
- time zones;
- a stable insertion sort (the library `sort`);
- sums;
- an in-memory database standing in for the Spring Data repositories.

**How the source's behaviour is represented.**

- **Page state.** A page whose state React updates in place is a `class`:
  - `LogStudy.StudyTimer`;
  - `Dashboard.DashboardView`;
  - `FlipCard.Flipper`;
  - `Store.Database` for the server's tables.
- **Loops.** The pages' `forEach` loops are `method`s with loop invariants. Each is proved equal to a recursive specification function. The properties are then proved about that function as lemmas.
- **Clocks, randomness, the network.** These are parameters:
  - the clock readings are instants in milliseconds, or LocalDateTime values;
  - random picks of the invite-code alphabet;
  - whether the server accepted a request;
  - the browser's parse of a `datetime-local` text;
  - the password encoder.

## Model

| member | source | states |
|---|---|---|
| History.Positive | frontend/src/pages/History.tsx:158-160 | an optional duration field is present exactly when its value is positive, and then holds that value |
| History.StudyRecord | frontend/src/pages/History.tsx:100-124 | a session's record completes at its end and shows the subject's colour when it has one, else the study default; for a non-negative duration its whole minutes and remaining seconds (below 60) add back up to its rounded seconds |
| History.WordRecord | frontend/src/pages/History.tsx:126-163 | a word log's record completes at its span's end if it has both ends, else at its date, and shows the subject's colour when it has one, else the word default; seconds are shown exactly when the span rounds to a positive number, and are then that rounded span, split into whole minutes and remaining seconds that add up to it; without seconds there are no minutes and no remaining seconds either |
| History.LoadHistory | frontend/src/pages/History.tsx:81-174 | the loops build the subject map, push a record per resolvable session and word log, and sort; the result is ordered newest completion first and is a permutation of the pushed records |
| History.HistoryOrdered | frontend/src/pages/History.tsx:166 | the history list is ordered by non-increasing completion time |
| History.HistoryStable | frontend/src/pages/History.tsx:166 | records completed at the same instant keep their push order: study records before word records, each in input order |
| History.StudyRecordsCount | frontend/src/pages/History.tsx:100-104 | one study record per session whose subject is in the map |
| History.WordRecordsCount | frontend/src/pages/History.tsx:126-131 | one word record per word log with a truthy, known subject id |
| History.HistoryLength | frontend/src/pages/History.tsx:100-166 | the list holds exactly as many records as resolvable sessions plus resolvable word logs |
| History.StudyRecordsMembers | frontend/src/pages/History.tsx:100-124 | a record is a study record iff it is the projection of some session whose subject is known |
| History.WordRecordsMembers | frontend/src/pages/History.tsx:126-163 | a record is a word record iff it is the projection of some word log with a truthy, known subject id |
| History.SubjectMapLookup | frontend/src/pages/History.tsx:92-95 | an id is in the subject map iff some subject has it, and it maps to the last subject listed with that id |
| History.RecordColour | frontend/src/pages/History.tsx:114-152 | every listed record names a known subject and shows exactly `subject.colorHex || <its kind's default>`; a word record never has subject id 0 |
| Calendar.Add | frontend/src/pages/Calendar.tsx:85-103 | adding to a day's bucket creates the day if missing and changes only that day, by exactly the minutes and words given |
| Calendar.SessionStep | frontend/src/pages/Calendar.tsx:83-91 | one session iteration keeps every day's bucket equal to the sums over the sessions seen so far |
| Calendar.WordStep | frontend/src/pages/Calendar.tsx:93-105 | one word-log iteration keeps every day's bucket equal to the sums over the records seen so far |
| Calendar.LoadMonthData | frontend/src/pages/Calendar.tsx:81-107 | the month data has a key exactly for each day with a record, and each day's bucket is the sum of its sessions' minutes, its word logs' counts and its timed word logs' minutes |
| Calendar.DayBucketOrderFree | frontend/src/pages/Calendar.tsx:83-105 | a day's bucket does not depend on the order in which the server returns the records |
| Calendar.DayWithoutRecords | frontend/src/pages/Calendar.tsx:81-85 | a day without records reads as zero minutes and zero words |
| Calendar.DayDetailMatchesBucket | frontend/src/pages/Calendar.tsx:146-167 | for one day's records, the dialog's totals equal that day's bucket in the month view |
| Calendar.MonthStart | frontend/src/pages/Calendar.tsx:116 | `new Date(year, month - 1, 1)` is a valid date on the 1st whose month count from year 0 is the requested one, so months out of range carry into the year |
| Calendar.GetDaysInMonth | frontend/src/pages/Calendar.tsx:113-123 | the grid starts with one empty cell per weekday before the 1st (Monday first, so 6 for a Sunday), then the numbers 1 to the month's length |
| Calendar.GridColumn | frontend/src/pages/Calendar.tsx:113-123 | day n lands in the grid column of its own weekday in the header 一 … 日 |
| Calendar.Reached | frontend/src/pages/Calendar.tsx:125-133 | for ascending thresholds the minutes reach exactly the first r of them, r being the result |
| Calendar.Level | frontend/src/pages/Calendar.tsx:125-133 | a day's level is one of the five colour classes |
| Calendar.IntensityByLevel | frontend/src/pages/Calendar.tsx:125-133 | `getIntensity` gives the class of the day's level: none at 0, then one step per full hour up to four |
| Calendar.ReachedMonotone | frontend/src/pages/Calendar.tsx:127-132 | more minutes never reach fewer thresholds |
| Calendar.LevelMonotone | frontend/src/pages/Calendar.tsx:125-133 | more study never gives a lighter colour |
| Dashboard.AddTo | frontend/src/pages/Dashboard.tsx:185 | `m[k] = (m[k] \|\| 0) + v` adds v to key k only, creating it if missing |
| Dashboard.SessionTallyGet | frontend/src/pages/Dashboard.tsx:180-186 | a subject's tally after the session loop is the sum of its sessions' rounded minutes |
| Dashboard.SpanTallyGet | frontend/src/pages/Dashboard.tsx:194-206 | the word-log loop adds to a subject exactly the span minutes of its timed word logs |
| Dashboard.WordTallyGet | frontend/src/pages/Dashboard.tsx:191-197 | a subject's word tally is the sum of the counts of its word logs |
| Dashboard.SubjectTotals | frontend/src/pages/Dashboard.tsx:180-213 | a subject's minutes are its sessions' minutes plus its timed word logs' minutes; its words are its word logs' counts; word logs without a subject count for none |
| Dashboard.SubjectWithoutRecords | frontend/src/pages/Dashboard.tsx:209-213 | a subject without records today shows 0 minutes and 0 words |
| Dashboard.SessionTallyTotal | frontend/src/pages/Dashboard.tsx:180-186 | the values of the session tally add up to all sessions' minutes |
| Dashboard.SpanTallyTotal | frontend/src/pages/Dashboard.tsx:194-206 | the word-log loop adds to the total exactly the span minutes of the word logs that name a subject |
| Dashboard.TodayMinutesTotal | frontend/src/pages/Dashboard.tsx:216-218 | the day's minutes are every session's minutes plus every subject-tagged timed word log's minutes, whichever subjects are listed |
| Dashboard.ProgressBounds | frontend/src/pages/Dashboard.tsx:285-345 | the goal bar never exceeds 100, is full exactly when the goal is met (words for a WORDS subject, minutes otherwise), and is non-negative for non-negative progress |
| Dashboard.InitialFitMode | frontend/src/pages/Dashboard.tsx:29 | the fit mode is never empty and is the stored text when one is stored |
| Dashboard.NextFitMode | frontend/src/pages/Dashboard.tsx:137-138 | toggling gives cover or contain, and always changes a cover or contain mode |
| Dashboard.ToggleTwice | frontend/src/pages/Dashboard.tsx:137-141 | toggling twice restores cover or contain; any other stored text becomes contain |
| Dashboard.ValuesTotal | frontend/src/pages/Dashboard.tsx:217 | `Object.values(m).reduce(+)` is the sum of the map's values, in whatever order the keys are visited |
| Dashboard.DashboardView.constructor | frontend/src/pages/Dashboard.tsx:18-29 | the panel starts with zero totals, no subjects and the fit mode read from storage |
| Dashboard.DashboardView.LoadData | frontend/src/pages/Dashboard.tsx:166-224 | the day's minutes are the sum over the minute tally, the day's words the sum of all counts, and each listed subject carries its own tallies |
| Dashboard.DashboardView.ToggleFitMode | frontend/src/pages/Dashboard.tsx:137-141 | switches the fit mode and stores the new mode under `image_fit_mode`, changing nothing else |
| FlipCard.Substr | frontend/src/lib/Flipper.ts:119 | `substr(start)` gives a suffix: of length \|s\| - start for start >= 0; for a negative start, the last -start characters, capped at \|s\| |
| FlipCard.PadLeftZero | frontend/src/lib/Flipper.ts:152-154 | padding gives two characters: "00" for "", a leading 0 for one character, and the last two characters otherwise |
| FlipCard.PadLeftZeroDigits | frontend/src/lib/Flipper.ts:142-143 | padding a number below 100 gives its two-digit form |
| FlipCard.IndexFrom | frontend/src/lib/Flipper.ts:120 | the first occurrence at or after an index, and none before it |
| FlipCard.ReplaceFirst | frontend/src/lib/Flipper.ts:120 | `replace` with a string pattern changes nothing when the pattern is absent, else replaces one occurrence |
| FlipCard.FirstIndex | frontend/src/lib/Flipper.ts:117 | the index of the first occurrence of a character, absent exactly when the character is absent |
| FlipCard.RunLength | frontend/src/lib/Flipper.ts:117 | the length of the maximal run of a character from an index |
| FlipCard.MatchRun | frontend/src/lib/Flipper.ts:117 | `match(/(c+)/)` finds the leftmost maximal run of c, and finds nothing exactly when c is absent |
| FlipCard.ReplaceMatchedRun | frontend/src/lib/Flipper.ts:117-120 | replacing the matched text by its first occurrence replaces exactly the matched run |
| FlipCard.MatchRunAfter | frontend/src/lib/Flipper.ts:133 | after a prefix without c, the run of c is found at the same place, shifted |
| FlipCard.RunLengthAfter | frontend/src/lib/Flipper.ts:133 | a run's length is unchanged by a prefix |
| FlipCard.FieldValues | frontend/src/lib/Flipper.ts:124-130 | the field values are month + 1, date, hours, minutes and seconds, in the `for..in` order |
| FlipCard.FormatDate | frontend/src/lib/Flipper.ts:115-149 | the loop computes the year replacement and then one replacement per field key, in order |
| FlipCard.FieldStepReplaces | frontend/src/lib/Flipper.ts:133-145 | a field token is replaced in place by the value: unpadded for one letter, two digits for a longer token |
| FlipCard.YearStepReplaces | frontend/src/lib/Flipper.ts:117-121 | a run of k <= 4 y's becomes the last k digits of a four-digit year |
| FlipCard.PairedTokenStep | frontend/src/lib/Flipper.ts:133-145 | a two-letter token right after digits becomes the value's two digits |
| FlipCard.ClockDate | frontend/src/lib/Flipper.ts:117-146 | the clock format has no year, month or day token, so those passes leave it unchanged |
| FlipCard.HoursPass | frontend/src/lib/Flipper.ts:128 | the hours pass turns `hh` into the two-digit hours |
| FlipCard.MinutesPass | frontend/src/lib/Flipper.ts:129 | the minutes pass turns `ii` into the two-digit minutes |
| FlipCard.SecondsPass | frontend/src/lib/Flipper.ts:130 | the seconds pass turns `ss` into the two-digit seconds |
| FlipCard.FormatClock | frontend/src/lib/Flipper.ts:115-149 | `formatDate(d, "hhiiss")` is six digits: the hours, minutes and seconds, each zero padded to two |
| FlipCard.FlipClass | frontend/src/lib/Flipper.ts:78-83 | the node class is "flip down" exactly for a down flip and "flip up" exactly for an up flip |
| FlipCard.FrontClass | frontend/src/lib/Flipper.ts:46-51 | the front card's class is "digital front " followed by the text |
| FlipCard.BackClass | frontend/src/lib/Flipper.ts:54-59 | the back card's class is "digital back " followed by the text |
| FlipCard.Flipper.constructor | frontend/src/lib/Flipper.ts:19-43 | the defaults "number0", "number1" and 600 apply to falsy settings; the cards show the initial faces; the card is idle |
| FlipCard.Flipper.Flip | frontend/src/lib/Flipper.ts:62-101 | a flip starts iff none is running; a refused flip changes nothing; a started flip shows both faces, adds `go` and schedules the completion |
| FlipCard.Flipper.FlipDown | frontend/src/lib/Flipper.ts:104-106 | a started down flip sets "flip down go" and schedules "flip down" |
| FlipCard.Flipper.FlipUp | frontend/src/lib/Flipper.ts:109-111 | a started up flip sets "flip up go" and schedules "flip up" |
| FlipCard.Flipper.AnimationEnd | frontend/src/lib/Flipper.ts:89-98 | the completion drops `go`, ends the flip and shows the flipped-in text in front, leaving the back card as it was |
| LogStudy.FindById | frontend/src/pages/LogStudy.tsx:119-123 | `find` returns the first subject with the id, or nothing exactly when no subject has it |
| LogStudy.StartStorageFacts | frontend/src/pages/LogStudy.tsx:159-164 | starting stores the active flag "1", the start's ISO text and the selected subject's id |
| LogStudy.StartThenResume | frontend/src/pages/LogStudy.tsx:106-129 | after a start at an instant with a four-digit year, a reload resumes from the same instant and re-selects the subject with the same id |
| LogStudy.ClearedStorageResumesNothing | frontend/src/pages/LogStudy.tsx:106-110 | once the timer keys are removed, a reload resumes nothing |
| LogStudy.ClearTwice | frontend/src/pages/LogStudy.tsx:181-184 | removing the timer keys again changes nothing |
| LogStudy.PaddedValue | frontend/src/pages/LogStudy.tsx:234-239 | a padded field has at least two digits, and they read back as the number |
| LogStudy.FormatTimeNonNegative | frontend/src/pages/LogStudy.tsx:234-239 | for a non-negative count, the text is the hours, padded to at least two digits, then the minutes and seconds, each as two digits |
| LogStudy.ClockSecondsOfFormatTime | frontend/src/pages/LogStudy.tsx:234-239 | the timer text of a non-negative count reads back as exactly that many seconds (minutes and seconds below 60) |
| LogStudy.StudyTimer.constructor | frontend/src/pages/LogStudy.tsx:12-25 | the page starts idle, with an empty form, no selection and no elapsed time, over the current browser storage |
| LogStudy.StudyTimer.LoadSubjects | frontend/src/pages/LogStudy.tsx:100-136 | stores the subjects; resumes a saved timer (start, elapsed seconds, selection when the saved id is found); otherwise changes nothing |
| LogStudy.StudyTimer.Tick | frontend/src/pages/LogStudy.tsx:68-80 | the elapsed time is the whole seconds since the start; nothing else changes |
| LogStudy.StudyTimer.StartStudy | frontend/src/pages/LogStudy.tsx:143-165 | the timer runs from now, and the storage holds exactly the start keys for now and the selection |
| LogStudy.StudyTimer.ResetForm | frontend/src/pages/LogStudy.tsx:216-232 | back to idle with an empty form, and all four timer keys removed from storage |
| LogStudy.StudyTimer.SelectSubject | frontend/src/pages/LogStudy.tsx:138-141 | selects the subject and resets the form and timer |
| LogStudy.StudyTimer.Deselect | frontend/src/pages/LogStudy.tsx:395 | drops the selection and resets the form and timer |
| LogStudy.StudyTimer.StopStudy | frontend/src/pages/LogStudy.tsx:167-214 | stops and clears storage; for WORDS it asks for a count; otherwise it posts one session from the saved start to now and resets only when accepted |
| LogStudy.StudyTimer.SetCount | frontend/src/pages/LogStudy.tsx:441 | the count becomes `parseInt(text) \|\| 0`; only the form changes |
| LogStudy.StudyTimer.CancelCountInput | frontend/src/pages/LogStudy.tsx:475 | the count entry closes and the elapsed time is zeroed; the form and storage are kept |
| LogStudy.StudyTimer.HandleSubmitCount | frontend/src/pages/LogStudy.tsx:241-274 | without a subject or a positive count nothing happens; otherwise it posts one word log for the timed span and resets only when accepted |
| LogStudy.StudyTimer.HandleSubmit | frontend/src/pages/LogStudy.tsx:276-313 | nothing is sent unless the form passes the browser's validation (`Submittable`: the `required` and `min="1"` inputs at lines 501-502, 577 and 591); a WORDS subject then posts a word log dated now whose count is at least 1; another posts a session from the converted form times (none when a time is invalid); reset only when accepted; when nothing is sent or the post is refused, every field but the post list stays as it was |
| StudySessions.Create | backend/src/main/java/com/studytracker/study/StudySessionController.java:33-42 | the saved row is appended under a fresh id for the caller; both times are the same instants read on a UTC clock; the other tables are untouched |
| StudySessions.PlusDaysNumber | backend/src/main/java/com/studytracker/study/StudySessionController.java:51 | `plusDays(k)` moves the date exactly k days |
| StudySessions.WindowBounds | backend/src/main/java/com/studytracker/study/StudySessionController.java:49-51 | the query window for Beijing days from..to runs from 16:00 UTC the day before `from` to 16:00 UTC on `to` |
| StudySessions.WindowLength | backend/src/main/java/com/studytracker/study/StudySessionController.java:50-51 | the window spans exactly to - from + 1 days |
| StudySessions.List | backend/src/main/java/com/studytracker/study/StudySessionController.java:44-53 | the caller's sessions that start from 16:00 UTC before `from` to 16:00 UTC on `to`, both included, earliest first |
| StudySessions.DayWindowMembers | backend/src/main/java/com/studytracker/study/StudySessionController.java:58-60 | a session is fetched for day d iff it starts on d in Beijing or exactly at the closing midnight (the bound is inclusive) |
| StudySessions.AdjacentDaysShareMidnight | backend/src/main/java/com/studytracker/study/StudySessionController.java:58-59 | the closing bound of one day's window is the opening bound of the next day's, so a session starting at that midnight is counted on both days |
| StudySessions.Day | backend/src/main/java/com/studytracker/study/StudySessionController.java:55-63 | the sessions of `day(date)` are exactly those of `list(date, date)` |
| StudySessions.DayTotal | backend/src/main/java/com/studytracker/study/StudySessionController.java:61 | the total is the sum of the truncated minutes of exactly the user's sessions in the window, whatever order the query returns them in |
| WordLogs.Create | backend/src/main/java/com/studytracker/words/WordLogController.java:30-50 | the saved row keeps the client's local date and the given fields; it has a span iff both ends were sent, and each end is the request's instant as a UTC wall-clock time, nanoseconds included; the other tables are untouched |
| WordLogs.StoredDateIsClientDate | backend/src/main/java/com/studytracker/words/WordLogController.java:35-38 | a request at 01:00 on day d at +08:00 is filed under d, although it is the day before in UTC |
| WordLogs.List | backend/src/main/java/com/studytracker/words/WordLogController.java:52-59 | the caller's logs dated from `from` to `to`, both included, earliest date first |
| WordLogs.CreatedThenListed | backend/src/main/java/com/studytracker/words/WordLogController.java:52-59 | a created log is in exactly the listings whose date range holds its date |
| Analytics.DaysFor | backend/src/main/java/com/studytracker/analytics/AnalyticsController.java:31-32 | "7d" asks for 7 days, and every other range for 30 |
| Analytics.GroupSumGet | backend/src/main/java/com/studytracker/analytics/AnalyticsController.java:44-54 | `groupingBy(.., summingInt(..))`: a group's total is the sum over exactly the elements with its key |
| Analytics.GroupSumKeys | backend/src/main/java/com/studytracker/analytics/AnalyticsController.java:44-54 | groups exist only for keys that some element has |
| Analytics.Entries | backend/src/main/java/com/studytracker/analytics/AnalyticsController.java:56-66 | one entry per day walked |
| Analytics.EntriesAt | backend/src/main/java/com/studytracker/analytics/AnalyticsController.java:57-65 | entry i is the entry of day from + i |
| Analytics.DailyOf | backend/src/main/java/com/studytracker/analytics/AnalyticsController.java:30-68 | the answer has one entry per day of the range |
| Analytics.Daily | backend/src/main/java/com/studytracker/analytics/AnalyticsController.java:30-68 | the loop from the first day while not after today yields exactly the specified entries |
| Analytics.NextDay | backend/src/main/java/com/studytracker/analytics/AnalyticsController.java:64-65 | `current.plusDays(1)` keeps the loop's current day one past the last entry |
| Analytics.DailyDates | backend/src/main/java/com/studytracker/analytics/AnalyticsController.java:32-34 | entry i is dated today - (days - 1) + i: the dates are consecutive and the last is today |
| Analytics.DateTextMatches | backend/src/main/java/com/studytracker/analytics/AnalyticsController.java:46-59 | for four-digit years, the date text equals the day's text iff it is the same date |
| Analytics.GroupedMinutes | backend/src/main/java/com/studytracker/analytics/AnalyticsController.java:44-48 | grouping by date text sums exactly the sessions starting on that (four-digit-year) day |
| Analytics.NanoKeyInDay | backend/src/main/java/com/studytracker/analytics/AnalyticsController.java:36-37 | a date-time lies in its own day's nanosecond interval |
| Analytics.StartOnDayInWindow | backend/src/main/java/com/studytracker/analytics/AnalyticsController.java:36-40 | a session starting on a day of the range lies inside the fetched window |
| Analytics.WindowMinutes | backend/src/main/java/com/studytracker/analytics/AnalyticsController.java:36-48 | over the fetched window, a day's sessions are all of the user's sessions of that day |
| Analytics.RangeDay | backend/src/main/java/com/studytracker/analytics/AnalyticsController.java:33-34 | day i of the range is i days after the first, which is days - 1 before today |
| Analytics.DailyMinutes | backend/src/main/java/com/studytracker/analytics/AnalyticsController.java:30-68 | an entry's minutes are the truncated minutes of the user's sessions whose UTC start date is that day (0 when none) |
| Analytics.GroupedWords | backend/src/main/java/com/studytracker/analytics/AnalyticsController.java:50-54 | grouping by date text sums exactly the logs of that (four-digit-year) day |
| Analytics.WindowWords | backend/src/main/java/com/studytracker/analytics/AnalyticsController.java:41-42 | over the fetched dates, a day's logs are all of the user's logs of that day |
| Analytics.DailyWords | backend/src/main/java/com/studytracker/analytics/AnalyticsController.java:30-68 | an entry's words are the counts of the user's word logs dated that day (0 when none) |
| BeijingSerializer.YearOfEraText | backend/src/main/java/com/studytracker/study/LocalDateTimeToBeijingSerializer.java:14 | the `yyyy` field of years 1 to 9999 is the year's four digits |
| BeijingSerializer.BeijingTime | backend/src/main/java/com/studytracker/study/LocalDateTimeToBeijingSerializer.java:23-24 | the Beijing time is the same instant eight hours later on the clock, with the same nanoseconds |
| BeijingSerializer.Serialize | backend/src/main/java/com/studytracker/study/LocalDateTimeToBeijingSerializer.java:17-27 | the output is JSON null iff the value is null |
| BeijingSerializer.SerializeLayout | backend/src/main/java/com/studytracker/study/LocalDateTimeToBeijingSerializer.java:14-25 | for four-digit years the text has 19 characters: digits, with - - T : : at positions 4, 7, 10, 13, 16 |
| BeijingSerializer.BeijingClock | backend/src/main/java/com/studytracker/study/LocalDateTimeToBeijingSerializer.java:23-24 | the Beijing clock is 8 hours ahead: the date moves on exactly when the UTC hour is 16 or later |
| BeijingSerializer.SerializeDropsFraction | backend/src/main/java/com/studytracker/study/LocalDateTimeToBeijingSerializer.java:14 | two times that differ only below the second are written alike |
| BeijingSerializer.BackEightHours | backend/src/main/java/com/studytracker/study/LocalDateTimeToBeijingSerializer.java:23-24 | going 8 hours back from the Beijing time, to the second, gives the value to the second |
| BeijingSerializer.SerializeRoundTrip | backend/src/main/java/com/studytracker/study/LocalDateTimeToBeijingSerializer.java:17-27 | parsing the text and going 8 hours back gives the stored value truncated to the second |
| Subjects.Create | backend/src/main/java/com/studytracker/subject/SubjectController.java:35-46 | a name that is missing or holds no character above U+0020 (`@NotBlank`, which trims) is a 400 and saves nothing; otherwise the new subject gets a fresh id, the request's fields and the defaults MINUTES and 0, is not archived, and is listed for its owner |
| Subjects.List | backend/src/main/java/com/studytracker/subject/SubjectController.java:30-33 | the caller's subjects that are not archived, newest first |
| Subjects.OwnedIndex | backend/src/main/java/com/studytracker/subject/SubjectController.java:52 | finds the row with the id only when it belongs to the caller; otherwise no row with that id is the caller's |
| Subjects.Patch | backend/src/main/java/com/studytracker/subject/SubjectController.java:50-62 | an unknown id or another user's subject is a 404 and changes nothing; otherwise exactly that row is replaced by its patched form |
| Subjects.PatchNothing | backend/src/main/java/com/studytracker/subject/SubjectController.java:54-58 | a request with every field left out changes nothing |
| Subjects.PatchIdempotent | backend/src/main/java/com/studytracker/subject/SubjectController.java:54-58 | sending the same patch twice is the same as sending it once |
| Subjects.PatchCompose | backend/src/main/java/com/studytracker/subject/SubjectController.java:54-58 | two patches equal one patch whose present fields from the later request win |
| Subjects.PatchKeeps | backend/src/main/java/com/studytracker/subject/SubjectController.java:54-58 | id, owner and creation time never change, and a field the request leaves out keeps its value |
| Subjects.Delete | backend/src/main/java/com/studytracker/subject/SubjectController.java:64-77 | an unknown id or another user's subject is a 404 and changes nothing; otherwise every session and word log filed under the id, and the subject, are removed |
| Subjects.FilterKeepsIdsUnique | backend/src/main/java/com/studytracker/subject/SubjectController.java:73 | removing subjects keeps the remaining ids distinct |
| Subjects.DeleteLeavesNoOrphans | backend/src/main/java/com/studytracker/subject/SubjectController.java:70-73 | after a delete no record refers to the subject, and every other record is kept |
| InviteCodes.CodeOf | backend/src/main/java/com/studytracker/auth/InviteCodeService.java:15-22 | a generated code is 8 characters drawn from the alphabet |
| InviteCodes.Generate | backend/src/main/java/com/studytracker/auth/InviteCodeService.java:15-22 | the loop appends one alphabet character per random draw and yields the specified code |
| InviteCodes.AlphabetAvoidsLookAlikes | backend/src/main/java/com/studytracker/auth/InviteCodeService.java:16 | the alphabet has 32 characters and holds none of I, O, 0, 1 |
| InviteCodes.NoLookAlikes | backend/src/main/java/com/studytracker/auth/InviteCodeService.java:16-20 | no generated code holds I, O, 0 or 1 |
| InviteCodes.EveryCodeReachable | backend/src/main/java/com/studytracker/auth/InviteCodeService.java:18-20 | every 8-character code over the alphabet is produced by some sequence of draws |
| InviteCodes.IndexOf | backend/src/main/java/com/studytracker/auth/InviteCodeService.java:16 | the position of a character in the alphabet |
| Auth.ExpiryDays | backend/src/main/java/com/studytracker/auth/AuthController.java:45-53 | the parsed day count is a 32-bit int |
| Auth.ExpiryDaysDefault | backend/src/main/java/com/studytracker/auth/AuthController.java:46-47 | a missing or empty field means 30 days |
| Auth.ExpiryDaysOfNumber | backend/src/main/java/com/studytracker/auth/AuthController.java:49 | any 32-bit day count written in decimal, negative included, is taken as it is |
| Auth.ExpiryDaysRejects | backend/src/main/java/com/studytracker/auth/AuthController.java:47-52 | a field holding a character that is neither a decimal digit of the Basic Multilingual Plane nor a leading sign (white space and characters above U+FFFF included) is refused with a 400 |
| Auth.ExpiryDaysRejectsSupplementary | backend/src/main/java/com/studytracker/auth/AuthController.java:47-52 | any character above U+FFFF, digits of other planes such as mathematical bold "𝟑𝟎" included, makes the day count a 400 |
| Auth.ExpiryDaysOtherScripts | backend/src/main/java/com/studytracker/auth/AuthController.java:49 | `Integer.parseInt` reads digits of other scripts: fullwidth "３０" is 30 days and Arabic-Indic "-٧" is -7 |
| Auth.CodeIndex | backend/src/main/java/com/studytracker/auth/AuthController.java:78-79 | `findByCode` finds a row holding the code, or reports that no row holds it |
| Auth.CodeIndexIs | backend/src/main/java/com/studytracker/auth/AuthController.java:78-79 | the first row holding the code is the one found |
| Auth.CreateInviteCode | backend/src/main/java/com/studytracker/auth/AuthController.java:41-65 | an unparsable day count is a 400 before anything else; a code already stored is refused (unique column); otherwise the new row expires `days` days after the clock reading; code uniqueness is preserved |
| Auth.Consume | backend/src/main/java/com/studytracker/auth/AuthController.java:103-105 | spending a code keeps the number of code rows |
| Auth.Register | backend/src/main/java/com/studytracker/auth/AuthController.java:67-111 | the first failing check (a field missing or holding no character above U+0020, email taken, unknown, used or expired code) is the error and nothing changes; otherwise the user is saved with the encoded password and that code row is marked used by the new id |
| Auth.SecondUseFails | backend/src/main/java/com/studytracker/auth/AuthController.java:86-89 | once a registration succeeds, a later one with the same code fails, as EmailTaken when the email is reused and as CodeUsed otherwise, at any clock reading |
| Auth.NoExpiryNeverExpires | backend/src/main/java/com/studytracker/auth/AuthController.java:91 | a code without an expiry is judged alike at every clock reading and never as expired |
| Auth.ExpiryIsMonotone | backend/src/main/java/com/studytracker/auth/AuthController.java:91-94 | a later check can only turn an accepted code into an expired one, never the reverse |
| Auth.FreshCodeLastsItsDays | backend/src/main/java/com/studytracker/auth/AuthController.java:55-60 | a new code for `days` days lets a new email register up to and including its expiry instant, and is refused as expired after it |
| Store.FirstWhere | backend/src/main/java/com/studytracker/auth/InviteCodeRepository.java:9 | the first row passing the test, and no earlier one; none exactly when no row passes |
| Store.SortedFilter | backend/src/main/java/com/studytracker/study/StudySessionRepository.java:12 | a derived query holds exactly the rows passing its filter, as a permutation of them, in key order |
| Store.SessionsBetween | backend/src/main/java/com/studytracker/study/StudySessionRepository.java:12 | the user's sessions starting between the bounds, both included, ordered by start |
| Store.WordLogsBetween | backend/src/main/java/com/studytracker/words/WordLogRepository.java:12 | the user's logs dated between the bounds, both included, ordered by date |
| Store.ActiveSubjects | backend/src/main/java/com/studytracker/subject/SubjectRepository.java:8 | the user's non-archived subjects, newest first |
| Store.Database.constructor | backend/src/main/java/com/studytracker/subject/Subject.java:16-17 | the tables start empty and the identity counter at 1 |
| Store.Database.NewId | backend/src/main/java/com/studytracker/subject/Subject.java:16-17 | an identity column hands out the next key, which no row has yet |
| Store.Database.InsertSession | backend/src/main/java/com/studytracker/study/StudySessionController.java:41 | `save` appends the row under a fresh id |
| Store.Database.InsertWordLog | backend/src/main/java/com/studytracker/words/WordLogController.java:49 | `save` appends the row under a fresh id |
| Store.Database.InsertSubject | backend/src/main/java/com/studytracker/subject/SubjectController.java:45 | `save` appends the row under a fresh id, keeping subject ids unique |
| Store.Database.InsertUser | backend/src/main/java/com/studytracker/auth/AuthController.java:100 | `save` appends the user under a fresh id |
| Store.Database.InsertInviteCode | backend/src/main/java/com/studytracker/auth/AuthController.java:61 | `save` appends the code under a fresh id |
| Zones.UtcLocal | backend/src/main/java/com/studytracker/study/StudySessionController.java:38-39 | `withOffsetSameInstant(UTC).toLocalDateTime()` names the same instant and keeps the nanoseconds |
| Zones.BeijingMidnightUtc | backend/src/main/java/com/studytracker/study/StudySessionController.java:50 | Beijing midnight of d, on a UTC clock, is the day's start minus 8 hours |
| Zones.BeijingMidnightIsFourPm | backend/src/main/java/com/studytracker/study/StudySessionController.java:50 | Beijing midnight is 16:00 UTC the day before |
| Zones.ToMinutes | backend/src/main/java/com/studytracker/study/StudySessionController.java:61 | `Duration.toMinutes` of a non-negative span is the whole minutes it holds, truncated |
| Zones.TruncatedBelowRounded | backend/src/main/java/com/studytracker/analytics/AnalyticsController.java:47 | for the same span, the backend's truncated minutes and the pages' rounded minutes differ by at most one, the pages' never lower |
| Zones.DateTextInjective | backend/src/main/java/com/studytracker/analytics/AnalyticsController.java:46 | for four-digit years, distinct dates have distinct `toString` texts |
| Gregorian.DayNumberOfFromDayNumber | backend/src/main/java/com/studytracker/analytics/AnalyticsController.java:34 | `LocalDate.ofEpochDay` then `toEpochDay` is the identity |
| Gregorian.FromDayNumberOfDate | backend/src/main/java/com/studytracker/analytics/AnalyticsController.java:65 | every valid date is the date of its own day number |
| Gregorian.IsAfterIffLaterDay | backend/src/main/java/com/studytracker/analytics/AnalyticsController.java:58 | `isAfter` holds exactly when the day number is larger |
| Gregorian.PlusDays | backend/src/main/java/com/studytracker/analytics/AnalyticsController.java:34 | `plusDays` and `minusDays` give a valid date |
| Gregorian.EpochSecondOfFromEpochSecond | backend/src/main/java/com/studytracker/study/StudySessionController.java:38 | a date-time built from an epoch second reads back as that second |
| Gregorian.FromEpochSecondOfDateTime | backend/src/main/java/com/studytracker/study/LocalDateTimeToBeijingSerializer.java:23-24 | every valid date-time is the date-time of its own epoch second |
| Text.JsParseIntOfIntToString | frontend/src/pages/LogStudy.tsx:120 | `parseInt(String(n), 10)` is n: a subject id written to storage reads back as itself |
| Text.JavaParseIntOfIntToString | backend/src/main/java/com/studytracker/auth/AuthController.java:49 | `Integer.parseInt` reads back every 32-bit number's decimal text |
| Text.JavaDigit | backend/src/main/java/com/studytracker/auth/AuthController.java:49 | `Character.digit(ch, 10)` on each UTF-16 `char`, as `Integer.parseInt` applies it: a value from 0 to 9, the offset of c from the zero of its run of decimal digits in the Basic Multilingual Plane; None for any character above U+FFFF |
| Text.JavaDigitOfAscii | backend/src/main/java/com/studytracker/auth/AuthController.java:49 | an ASCII digit is a Java digit of its usual value |
| Text.JavaDigitsValueOfAscii | backend/src/main/java/com/studytracker/auth/AuthController.java:49 | on ASCII digit strings the Java reading gives the usual decimal value |
| Text.NatDigitsValue | frontend/src/pages/LogStudy.tsx:162 | a number's decimal text reads back as the number |
| Text.PadStart | frontend/src/pages/LogStudy.tsx:235-238 | `padStart(w, "0")` keeps the text as its suffix and only adds zeros in front, up to width w |
| Text.PadStartDigits2 | frontend/src/pages/LogStudy.tsx:235-238 | padding a number below 100 to width 2 gives its two-digit form |
| Text.Before | frontend/src/pages/Calendar.tsx:84 | `split("T")[0]` is the longest prefix without a T |
| IsoText.ParseIsoOfToIso | frontend/src/pages/LogStudy.tsx:111 | an instant with a four-digit year reads back from its `toISOString` text |
| IsoText.ToIsoOfParseIso | frontend/src/pages/LogStudy.tsx:111-116 | every text `new Date` accepts in this form is the `toISOString` of the instant it names, so the resumed form's start equals the stored text |
| IsoText.ParseLocalOfLocalText | backend/src/main/java/com/studytracker/study/LocalDateTimeToBeijingSerializer.java:14 | formatting with `yyyy-MM-dd'T'HH:mm:ss` and parsing back gives the date-time without its fraction |
| IsoText.LocalTextOfParseLocal | backend/src/main/java/com/studytracker/study/LocalDateTimeToBeijingSerializer.java:14 | every text in that layout is the formatting of what it parses to |
| Records.TextOr | frontend/src/pages/History.tsx:114 | `a \|\| b` on text is a when a is a non-empty text, and b otherwise |
| Records.RoundSecondsNearest | frontend/src/pages/History.tsx:105 | `Math.round(ms / 1000)` is the nearest whole second, halves going up |
| Records.RoundMinutesNearest | frontend/src/pages/Calendar.tsx:89 | `Math.round(ms / 1000 / 60)` is the nearest whole minute, halves going up |
| Records.RoundMinutesMonotone | frontend/src/pages/Calendar.tsx:89 | a longer span never rounds to fewer minutes |
| Records.JsRem | frontend/src/pages/History.tsx:107 | JavaScript's `%` is the dividend minus the truncated quotient times the divisor, so it takes the dividend's sign and stays below the divisor in size |
| Records.TruncDiv | frontend/src/pages/History.tsx:107 | the quotient rounded towards zero: its multiple of the divisor lies between 0 and the dividend |
| Records.FloorDiv | frontend/src/pages/LogStudy.tsx:127 | `Math.floor(a / b)` is the q with q * b <= a < (q + 1) * b |
| Sorting.SortBySorted | frontend/src/pages/History.tsx:166 | the sort's result is ordered by key |
| Sorting.SortByPermutes | frontend/src/pages/History.tsx:166 | the sort's result is a permutation of its input |
| Sorting.SortByStable | frontend/src/pages/History.tsx:166 | the sort is stable: elements with equal keys keep their input order |
| Folds.SumPermutation | frontend/src/pages/Calendar.tsx:148-153 | a `reduce` total does not depend on the order of its terms |
| Folds.SumFilter | backend/src/main/java/com/studytracker/study/StudySessionController.java:61 | summing over a filtered list is summing the passing terms and zero for the rest |
| Folds.Filter | backend/src/main/java/com/studytracker/study/StudySessionRepository.java:12 | a filter keeps exactly the elements passing the test |

## Notes on the code

- **Only the page checks word-log counts.** The manual form's count input is `required` with `min="1"` (LogStudy.tsx:501-502), so the browser refuses a count below 1 before `handleSubmit` runs. The timed path, `handleSubmitCount`, is a button with no form (LogStudy.tsx:467), so its own check is its only gate. The server's word-log endpoint accepts any count it is sent.
- **Analytics and the session endpoints use different days.** The study-session endpoints select by Beijing calendar day. The analytics endpoint groups and windows by the UTC date of the stored time (AnalyticsController.java:36-46).
- **Unreadable dates are added up as they are.** The pages add up whatever `new Date(..)` yields. The model takes that parse as a given instant (see below).

## Left out

- **I/O.** HTTP, JSON bodies, alerts, console logging, loading flags and all rendering are not modelled. Themes, background images, dragging, and every storage key other than the four timer keys and `image_fit_mode` are left out too. They do not affect the data the pages compute.
- **Authentication.**
  - JWT issuing, login, refresh and the current-user lookup are left out. The caller's id is a parameter.
  - Password hashing is the parameter `encode`.
  - The `@Email` format check is not modelled. Only `@NotBlank` is.
- **Clocks and randomness.** These are parameters, one per reading the source takes:
  - `Date.now()` / `new Date()` and `Instant.now()`;
  - `LocalDate.now()`;
  - the random source's draws.
- **The browser's date parser.**
  - The pages' `new Date(text)` on a backend text (Beijing local time, read in the browser's own zone) is the `ms` field of a `Records.Stamp`.
  - The `datetime-local` conversion in `handleSubmit` is the parameter `convert`.
  - `IsoText.ParseIso` covers only the 24-character UTC form that `toISOString` writes.
- **Request dates.** Calendar's request range (`firstDay.toISOString()` in the browser's zone, Calendar.tsx:62-77), History's default date range (History.tsx:50-53) and Dashboard's `today` (the UTC date of `toISOString()`, Dashboard.tsx:168, sent to `/study-sessions/days/${today}` and as `from`/`to` at :171-174 and :189) are not modelled. The server windows those requests by Beijing day, so near midnight the page may ask for a different day than the local one. The records are given as the server's answer.
- **JavaScript numbers** are integers in the model. Fractions, NaN, and ids or durations beyond 2^53 are not modelled.
- **Java `int` overflow** is not modelled. The `(int)` casts of minutes and the `summingInt` / `sum()` totals are unbounded integers.
- **Years.** `Asia/Shanghai` is a fixed +08:00. Its historic offsets (before 1992, including the summer time of 1986-1991) are not modelled. The serializer and analytics lemmas hold for four-digit years only.
- **Database behaviour.**
  - Row order within equal sort keys follows insertion order. A real database may return ties in any order.
  - Transactions and concurrent requests are not modelled.
  - The `createdAt` of sessions and word logs is not stored, since nothing in the core reads it.
- **Duplicate invite code.** The unique `code` column refuses a duplicate generated code with a database exception. The model returns this as `Err(DuplicateCode)`.
- **String patterns in `replace`.** `String.prototype.replace` special `$` patterns in the replacement text never occur: the replacement is always digits.
- **Unmodelled methods.**
  - `Flipper`'s DOM lookups (`querySelector`) are not modelled. The card classes are fields.
  - The real timer of `setTimeout` is the separate call `AnimationEnd`.
  - The delay `duration` is kept but not timed.
- **Dashboard.DashboardView.LoadData** models the path on which every request succeeds. On it, the first `setTodayMinutes(dayRes.data.totalMinutes || 0)` (Dashboard.tsx:177) is overwritten by the tally at :218. When the `/word-logs` request fails, the page keeps the value set at :177; that path is not modelled. The `/analytics/daily` response it also fetches is unused.
- **Calendar.DayDetailMatchesBucket** holds when all the day's records carry that day's key. The dialog's own server query (a Beijing-day window) may also return a session starting exactly at the closing midnight. See StudySessions.AdjacentDaysShareMidnight.
- **History.StudyRecord** states the minutes/seconds split only for non-negative durations. For a negative duration, JavaScript's `%` and `Math.floor` disagree; the function itself computes them exactly as written.
- **LogStudy.StartThenResume** and **IsoText.ParseIsoOfToIso** are stated for instants with four-digit years (0000-9999). `toISOString` writes other years with a sign and six digits.
- **Analytics.DailyMinutes** and **Analytics.DailyWords** are stated for days with years 1-9999, where `LocalDate.toString` has four digits.
- **BeijingSerializer.SerializeRoundTrip** is stated for years 1-9999. Outside that range `yyyy` prints a sign.
- **Auth.Register** does not check the `@Email` format of the address. An address that is not blank is accepted.
- **Text.JavaDigit** uses the decimal digits of Unicode 15.0, the version Java 21 follows. An older Java runtime knows fewer runs of digits.
- **StudySessions.Create** keeps the times to the nanosecond. The columns are declared `DATETIME` (StudySession.java:26,29); on a database whose `DATETIME` drops the fraction, the stored times lose their sub-second part, and the minutes computed after a read can differ by one from the model's.
- **Subjects.Create** takes the persist-time clock as `now`. The `@PrePersist` hook itself is not modelled.
