# CRM sales pages — a verified model of their data logic

This project models the data logic beneath a React CRM and inventory application.
It covers five areas:

- **Daily sales report.** A store of reports keyed by date, the report on screen, the editing flag and the activity form. It has handlers that add and delete activities, upsert reports, recompute achievement counters, edit the working hours, counters and text areas of the report on screen, and total the work time.
- **Sales calendar.** The month grid, from the Sunday on or before the 1st to the Saturday on or after the last day, with per-cell events and flags. Also the per-type counts and the five upcoming events.
- **List views.** The inventory search and transaction filter with their badges and counts; the dashboard's ranking, timeline, open tasks and completion rate, and today's schedule; the customer's communication history; the opportunity kanban.
- **Opportunity form.** Its `||` defaults and number inputs, and the decision-maker list. The list is shown joined with `", "` and read back by splitting on `,`, trimming and dropping empty names.
- **Entity types.** Customers, opportunities, communications, tasks, calendar events and daily reports, with their closed string unions and their nullable fields as options.

Dates are civil dates `(year, month, day)` and times are clock values `(hour, minute)`. The source keeps them as fixed-width `YYYY-MM-DD` and `HH:MM` strings and compares those as strings. That order is the lexicographic order on the fields, and `CivilDate.DayNumberOrder` ties it to the day count the grid walks. "Now" is a parameter wherever the source reads the clock: today's date, `Date.now()` ids and ISO timestamps.

Modules:

- `Wrappers`: `Option`.
- `CivilDate`: Gregorian calendar arithmetic, `setDate` overflow and weekdays.
- `Seqs`: `filter`, `slice(0, n)` and a stable sort by an integer key.
- `Text`: `trim`, `split`, `join`, `toLowerCase`, `includes`, the `/\s+/g` replacement and `parseInt`.
- `CrmTypes`: the entities.
- One module per page: `SalesReport`, `SalesCalendar`, `Inventory`, `Dashboard`, `CustomerDetail`, `SalesOpportunities`, `OpportunityModal`.

The sales report page is a class (`SalesReport.ReportStore`) whose methods update its fields. The calendar grid is built by a method with a loop, as in the source. The dashboard's ranking sorts an array in place. Everything else is functions and lemmas.

Where the calendar grid is concerned, this model follows the code. A month whose days fill exactly four or five weeks gets a grid of 28 or 35 cells, not a fixed 42.

## Model

| member | source | states |
|---|---|---|
| CivilDate.DaysInMonth | src/components/pages/SalesCalendar.tsx:94 | every month has 28 to 31 days (the day before the next month's 1st) |
| CivilDate.Weekday | src/components/pages/SalesCalendar.tsx:98 | `getDay()` is a number 0..6 |
| CivilDate.NextDay | src/components/pages/SalesCalendar.tsx:109 | `setDate(getDate() + 1)` on a valid date gives a valid date |
| CivilDate.SetDate | src/components/pages/SalesCalendar.tsx:94-102 | `setDate(n)` with any n, including 0 and values past the month's end, gives a valid date |
| CivilDate.SetDateNumber | src/components/pages/SalesCalendar.tsx:94-102 | `setDate(n)` lands exactly n - 1 days after the 1st of the month, for every integer n |
| CivilDate.MonthStartStep | src/components/pages/SalesCalendar.tsx:94 | the next month's 1st is the month's length after this month's 1st, across year ends |
| CivilDate.NextDayNumber | src/components/pages/SalesCalendar.tsx:109 | stepping one day advances the day count by exactly one |
| CivilDate.DayNumberOrder | src/components/pages/SalesCalendar.tsx:107 | on valid dates, the ISO-string order equals the day-count order, and equal counts mean equal dates |
| CivilDate.DayNumberStrictlyMonotone | src/components/pages/SalesCalendar.tsx:107 | a date strictly earlier in string order has a strictly smaller day count |
| CivilDate.EarlierYear | src/components/pages/SalesCalendar.tsx:107 | a valid date in an earlier year has a smaller day count than any valid date of a later year |
| CivilDate.EarlierMonth | src/components/pages/SalesCalendar.tsx:107 | within one year, a valid date in an earlier month has a smaller day count |
| CivilDate.DayNumberWithinYear | src/components/pages/SalesCalendar.tsx:92-94 | a valid date's day count lies inside its own year's range |
| CivilDate.DaysBeforeMonthYear | src/components/pages/SalesCalendar.tsx:94 | the twelve month lengths add up to the year's length |
| CivilDate.DaysBeforeMonthMonotone | src/components/pages/SalesCalendar.tsx:92 | a later month of the same year starts at a larger day count |
| CivilDate.DaysBeforeYearMonotone | src/components/pages/SalesCalendar.tsx:92 | a later year starts at a larger day count |
| CivilDate.DaysBeforeYearStep | src/components/pages/SalesCalendar.tsx:92 | consecutive years' starts differ by the earlier year's length |
| CivilDate.DaysBeforeYearClosedForm | src/components/pages/SalesCalendar.tsx:92 | the recursive day count equals the closed form of the Gregorian leap-year rule (every 4th year, not every 100th, every 400th) |
| CivilDate.WeekdayOfNewYear2025 | src/components/pages/SalesCalendar.tsx:98 | the weekday numbering agrees with JavaScript's on a known date: 2025-01-01 is day 3, a Wednesday |
| Seqs.Filter | src/App.tsx:82-90 | a filter is never longer than its input |
| Seqs.FilterAll | src/App.tsx:82-90 | a predicate that holds of everything keeps the whole list |
| Seqs.FilterMembership | src/App.tsx:82-90 | a filter keeps exactly the elements satisfying the predicate |
| Seqs.FilterIsSubsequence | src/App.tsx:82-90 | a filter keeps the input's order |
| Seqs.FilterConcat | src/components/pages/SalesReport.tsx:146-148 | filtering distributes over concatenation |
| Seqs.FilterDisjointCount | src/App.tsx:306-310 | two never-overlapping filters count, together, what their disjunction counts |
| Seqs.FilterComplementCount | src/components/pages/Dashboard.tsx:450-453 | a predicate's filter and its negation's filter split the list's length |
| Seqs.FilterCountPermutation | src/components/pages/SalesReport.tsx:142-151 | reordering a list does not change any filter's count |
| Seqs.FilterRemoveAt | src/components/pages/SalesReport.tsx:142-151 | removing one element lowers a filter's count by one exactly when that element satisfies the predicate |
| Seqs.Take | src/components/pages/Dashboard.tsx:384 | `slice(0, n)` is a prefix of length min(n, length) |
| Seqs.Map | src/components/modals/OpportunityModal.tsx:140 | `map` keeps the length and applies the function to each element in place |
| Seqs.InsertBy | src/components/pages/Dashboard.tsx:93 | one insertion step of the sort adds exactly one element, the inserted one |
| Seqs.SortBy | src/components/pages/Dashboard.tsx:93 | `sort` on a copy keeps the length; order, permutation and stability are the lemmas below |
| Seqs.SortByPermutation | src/components/pages/Dashboard.tsx:93 | the stable sort returns a permutation of its input |
| Seqs.SortByElements | src/components/pages/Dashboard.tsx:93 | every element of the sorted list comes from the input |
| Seqs.SortBySorted | src/components/pages/Dashboard.tsx:93 | the stable sort's result is ordered by the key |
| Seqs.SortByStable | src/components/pages/Dashboard.tsx:93 | elements with equal keys keep their relative order |
| Seqs.SortedInputUnchanged | src/components/pages/SalesReport.tsx:444 | sorting a list already in key order leaves it unchanged |
| Seqs.InsertByMultiset | src/components/pages/Dashboard.tsx:93 | inserting into the sorted list adds exactly that element |
| Seqs.InsertBySorted | src/components/pages/Dashboard.tsx:93 | inserting into a sorted list keeps it sorted |
| Seqs.InsertByLowerBound | src/components/pages/Dashboard.tsx:93 | a bound below the inserted element and below every key of the list is below every key after insertion |
| Seqs.InsertByWithKey | src/components/pages/Dashboard.tsx:93 | insertion places the new element before every element with an equal key: among equal keys it comes first |
| Text.TrimStart | src/components/modals/OpportunityModal.tsx:140 | the result is a suffix of the input that starts with a non-white-space character, and everything dropped is white space |
| Text.TrimEnd | src/components/modals/OpportunityModal.tsx:140 | the result is a prefix of the input that ends with a non-white-space character, and everything dropped is white space |
| Text.Trim | src/components/modals/OpportunityModal.tsx:140 | `trim()` gives a slice of the input with no white space at either end and only white space outside it |
| Text.TrimTrimmed | src/components/modals/OpportunityModal.tsx:140 | trimming a trimmed string changes nothing |
| Text.TrimLeadingWhitespace | src/components/modals/OpportunityModal.tsx:139-140 | leading white space makes no difference to `trim()` |
| Text.TrimKeepsOnly | src/components/modals/OpportunityModal.tsx:140 | `trim()` only removes characters |
| Text.Lower | src/App.tsx:83-84 | `toLowerCase()` keeps the length and lower-cases each character |
| Text.ContainsOccurrence | src/App.tsx:83-84 | `includes(t)` holds iff t occurs at some position |
| Text.ContainsGivesOccurrence | src/App.tsx:83-84 | when `includes(t)` holds, t occurs at some position |
| Text.OccurrenceGivesContains | src/App.tsx:83-84 | an occurrence of t at any position makes `includes(t)` hold |
| Text.ContainsEmpty | src/App.tsx:83-84 | every string includes the empty string |
| Text.Join | src/components/modals/OpportunityModal.tsx:139 | `join` of no parts is empty, and the first part is a prefix of the joined text |
| Text.Split | src/components/modals/OpportunityModal.tsx:140 | `split(sep)` always gives at least one part |
| Text.SplitNoSeparator | src/components/modals/OpportunityModal.tsx:140 | a string without the separator splits into itself alone |
| Text.SplitAtSeparator | src/components/modals/OpportunityModal.tsx:140 | splitting at the first separator gives the text before it, then the split of the rest |
| Text.SplitPartsNoSeparator | src/components/modals/OpportunityModal.tsx:140 | no part of a split contains the separator |
| Text.JoinSplit | src/components/modals/OpportunityModal.tsx:139-140 | joining a split with the same separator gives the string back |
| Text.JoinAfterSeparator | src/components/modals/OpportunityModal.tsx:139-140 | an empty first part joins back as a leading separator |
| Text.JoinAfterChar | src/components/modals/OpportunityModal.tsx:139-140 | a character glued to the first part joins back in front of the joined rest |
| Text.ReplaceWhitespaceRuns | src/components/pages/CustomerDetail.tsx:66 | `replace(/\s+/g, '-')` leaves no white space and never lengthens the text |
| Text.ReplaceRuns | src/components/pages/CustomerDetail.tsx:66 | replacing white-space runs leaves no white space and never lengthens the text |
| Text.ReplaceRunsCollapse | src/components/pages/CustomerDetail.tsx:66 | a maximal non-empty run of white space becomes exactly one '-', and the text on either side is replaced on its own |
| Text.ReplaceRunsConcat | src/components/pages/CustomerDetail.tsx:66 | the replacement of a concatenation is the replacement of the first part followed by that of the second, started in the state the first part leaves |
| Text.ReplaceRunsWhitespace | src/components/pages/CustomerDetail.tsx:66 | a white-space run gives one '-' when it opens a run and nothing when it continues one |
| Text.ReplaceRunsCleanStart | src/components/pages/CustomerDetail.tsx:66 | text not starting with white space is replaced the same whether or not a run was open |
| Text.ReplaceRunsKeepsText | src/components/pages/CustomerDetail.tsx:66 | the replacement keeps every character other than white space and '-', in order |
| Text.ReplaceRunsNoWhitespace | src/components/pages/CustomerDetail.tsx:66 | a string without white space is left as it is |
| Text.VisibleConcat | src/components/pages/CustomerDetail.tsx:66 | the characters other than white space and '-' of a concatenation are those of its parts |
| Text.NatToDigits | src/App.tsx:341 | a number prints as a non-empty string of digits |
| Text.IntToString | src/App.tsx:341 | a number prints with a leading '-' iff it is negative |
| Text.DigitPrefix | src/components/modals/OpportunityModal.tsx:79 | `parseInt` reads the longest prefix of digits: all digits, and either the whole text or stopped at a non-digit |
| Text.ParseInt | src/components/modals/OpportunityModal.tsx:47 | `parseInt` is NaN exactly when no digit follows the leading white space and sign |
| Text.ParseIntOrZero | src/components/modals/OpportunityModal.tsx:79 | `parseInt(...) \|\| 0` is 0 exactly for NaN and for zero, and any parsed number otherwise |
| Text.DigitsRoundTrip | src/App.tsx:341 | printing a natural number and reading its digits gives it back |
| Text.DigitPrefixAll | src/components/modals/OpportunityModal.tsx:79 | an all-digit string is read to its end |
| Text.ParseIntRoundTrip | src/components/modals/OpportunityModal.tsx:79 | every printed integer parses back to itself |
| Text.ParsePlusSigned | src/App.tsx:341 | digits after an explicit '+' read back as the number |
| CrmTypes.EventTypeNames | src/types/index.ts:73 | the five event types and their names are inverse; no other string is a type |
| CrmTypes.EventStatusNames | src/types/index.ts:81 | the three event statuses and their names are inverse |
| CrmTypes.ActivityTypeNames | src/types/index.ts:97 | the six activity types and their names are inverse |
| CrmTypes.PriorityNames | src/types/index.ts:105 | 高/中/低 and the three priorities are inverse |
| SalesReport.InitializeReport | src/components/pages/SalesReport.tsx:29-51 | a blank report has the date, the id `now`, the fixed sales person, 09:00 to 18:00 with a 60-minute break (8 working hours), no activities, all counters zero, empty texts, and both timestamps from one clock reading |
| SalesReport.FindReportIndex | src/components/pages/SalesReport.tsx:116 | `findIndex` gives the first index with the date, or -1 when no report has it |
| SalesReport.FindReport | src/components/pages/SalesReport.tsx:55 | `find` succeeds iff some report has the date, and returns a stored report with that date |
| SalesReport.Upserted | src/components/pages/SalesReport.tsx:114-125 | the report replaces the one with its date, keeping the length, or is appended at the end; others are untouched; it is then found under its date; dates stay unique |
| SalesReport.UpsertedOtherDates | src/components/pages/SalesReport.tsx:114-125 | an upsert changes nothing found under any other date |
| SalesReport.UpsertedIdempotent | src/components/pages/SalesReport.tsx:114-125 | upserting a report twice is the same as once, so no second report appears for a date |
| SalesReport.ReportForDate | src/components/pages/SalesReport.tsx:54-60 | the effect shows the stored report of the date when there is one, otherwise a fresh empty one for that date |
| SalesReport.FindCustomer | src/components/pages/SalesReport.tsx:72 | `customers.find` returns the first customer with the id, or none when no customer has it |
| SalesReport.CompanyNameOr | src/components/pages/SalesReport.tsx:72 | the first customer with the id gives its company name when that is not empty; the fallback otherwise |
| SalesReport.ActivityCustomerName | src/components/pages/SalesReport.tsx:71-73 | an activity with a set customer id takes the first matching customer's company name; with none set, none found, or an empty name, it keeps the typed name |
| SalesReport.NewActivity | src/components/pages/SalesReport.tsx:68-74 | the added activity takes `now` as id, the customer name of ActivityCustomerName, and copies the draft's type, customer id, times, texts and priority |
| SalesReport.DraftWithCustomer | src/components/pages/SalesReport.tsx:310-320 | choosing a customer sets the id and fills in its company name ('' if not found); clearing keeps the typed name; nothing else changes |
| SalesReport.WithoutActivity | src/components/pages/SalesReport.tsx:105 | deleting never lengthens the list |
| SalesReport.WithoutActivityEffect | src/components/pages/SalesReport.tsx:100-111 | deleting removes exactly the activities with the id, keeps the rest in order, and changes nothing for an unknown id |
| SalesReport.KeepAllWithoutId | src/components/pages/SalesReport.tsx:105 | with no activity carrying the id, the filter returns the list unchanged |
| SalesReport.AchievementsOf | src/components/pages/SalesReport.tsx:142-151 | new leads, meetings and proposals are disjoint counts (their sum is at most the number of activities); contracts and revenue are 0 |
| SalesReport.AchievementsAppend | src/components/pages/SalesReport.tsx:146-148 | one more activity raises exactly its type's counter by one (call/email: new leads, meeting/visit: meetings, proposal: proposals) |
| SalesReport.AchievementsOrderFree | src/components/pages/SalesReport.tsx:142-151 | the counters do not depend on the order of the activities |
| SalesReport.TotalMinutes | src/components/pages/SalesReport.tsx:163-171 | the total is non-negative when no activity ends before it starts, and within a day per activity either way |
| SalesReport.TotalMinutesAppend | src/components/pages/SalesReport.tsx:166-170 | the total of a concatenation is the sum of the totals |
| SalesReport.TotalMinutesInsert | src/components/pages/SalesReport.tsx:166-170 | inserting an activity into the sorted list adds its duration |
| SalesReport.TotalMinutesSorted | src/components/pages/SalesReport.tsx:443-444 | sorting the activities for display does not change the total |
| SalesReport.TruncatedRemainder | src/components/pages/SalesReport.tsx:210 | the remainder that keeps the dividend's sign differs from the dividend by a multiple of the divisor |
| SalesReport.JsRemainder | src/components/pages/SalesReport.tsx:210 | JavaScript's `%` takes the dividend's sign, is smaller than the divisor in magnitude, and differs from the dividend by a multiple of the divisor |
| SalesReport.WorkTimeAsWritten | src/components/pages/SalesReport.tsx:210 | hours are the floor of total/60, minutes keep the total's sign and lie within 59 of 0, the total less the minutes is whole hours, and the two add up to the total when it is not negative |
| SalesReport.WorkTimeAsWrittenNegative | src/components/pages/SalesReport.tsx:210 | for a negative total the minutes are the total less its whole hours counted towards zero |
| SalesReport.WorkTimeAsWrittenMismatch | src/components/pages/SalesReport.tsx:210 | as written, a total of -30 minutes shows as -1 h -30 min, which does not add up to -30 |
| SalesReport.WorkTime | src/components/pages/SalesReport.tsx:210 | the corrected split: minutes 0..59, and hours * 60 + minutes is the total |
| SalesReport.WorkTimeAgrees | src/components/pages/SalesReport.tsx:210 | for non-negative totals the page's split and the corrected one agree |
| SalesReport.WithActivities | src/components/pages/SalesReport.tsx:443-444 | the in-place sort reorders exactly the report of the selected date; the length and the other reports are unchanged |
| SalesReport.WithActivitiesFind | src/components/pages/SalesReport.tsx:443-444 | after the in-place sort, dates stay unique and the report of the date is found, now with the sorted activities |
| SalesReport.ReportStore.constructor | src/components/pages/SalesReport.tsx:10-26 | the store starts at today's date with no report, no stored reports, editing off and the default draft |
| SalesReport.ReportStore.SyncWithSelectedDate | src/components/pages/SalesReport.tsx:54-62 | the effect shows the stored report of the selected date or a fresh one, and editing is turned off |
| SalesReport.ReportStore.SelectDate | src/components/pages/SalesReport.tsx:186 | picking a new date shows that date's stored or fresh report with editing off; picking the date already selected changes nothing; the invariant is kept |
| SalesReport.ReportStore.ToggleEditing | src/components/pages/SalesReport.tsx:191 | the button flips editing mode and changes nothing else |
| SalesReport.ReportStore.SelectDraftCustomer | src/components/pages/SalesReport.tsx:310-320 | the draft becomes `DraftWithCustomer` of the old draft |
| SalesReport.ReportStore.AddActivity | src/components/pages/SalesReport.tsx:65-97 | with a report on screen, one activity is appended at the end; the stored list is upserted and agrees with the report on screen; the draft is reset; editing is off. Without a report nothing changes |
| SalesReport.ReportStore.DeleteActivity | src/components/pages/SalesReport.tsx:100-111 | the report on screen loses the activities with the id and is upserted; the list and the screen agree |
| SalesReport.ReportStore.SaveReport | src/components/pages/SalesReport.tsx:128-139 | the report on screen gets the new update time and is upserted; editing is off |
| SalesReport.ReportStore.CalculateAchievements | src/components/pages/SalesReport.tsx:142-160 | only the report on screen changes: its counters become `AchievementsOf` its activities; the stored list is untouched |
| SalesReport.WithCounter | src/components/pages/SalesReport.tsx:516-522 | the edited counter reads the new number and every other counter keeps its value |
| SalesReport.WithReflection | src/components/pages/SalesReport.tsx:650-653 | the edited text area reads the new text; the other areas and every other field of the report are unchanged |
| SalesReport.ReportStore.EditStart | src/components/pages/SalesReport.tsx:235-238 | under the `isEditing &&` guard only the start time of the report on screen changes; outside editing mode nothing changes |
| SalesReport.ReportStore.EditEnd | src/components/pages/SalesReport.tsx:248-251 | under the `isEditing &&` guard only the end time changes; outside editing mode nothing changes |
| SalesReport.ReportStore.EditBreak | src/components/pages/SalesReport.tsx:261-264 | under the `isEditing &&` guard the break becomes `parseInt(value) \|\| 0`; outside editing mode nothing changes |
| SalesReport.ReportStore.EditCounter | src/components/pages/SalesReport.tsx:516-628 | a counter input (new leads, meetings, proposals, contracts, revenue) sets that counter to `parseInt(value) \|\| 0`, with no guard in the handler |
| SalesReport.ReportStore.EditReflection | src/components/pages/SalesReport.tsx:650-699 | a text area (challenges, tomorrow's plan, notes) stores the typed text and nothing else changes |
| SalesReport.ReportStore.SortActivitiesForDisplay | src/components/pages/SalesReport.tsx:443-444 | the activities on screen and in the stored report of the date are sorted by start time: a permutation, with the same total time and the same counters |
| SalesCalendar.CalendarDays | src/components/pages/SalesCalendar.tsx:87-110 | the grid starts on a Sunday and ends on a Saturday; cells are consecutive distinct days; it holds every day of the month once at offset w (the 1st's weekday), fewer than 7 days before and after; its length is 28, 35 or 42 |
| SalesCalendar.ExtendRun | src/components/pages/SalesCalendar.tsx:104-108 | appending the next day to a run of consecutive valid days keeps it such a run, numbered from the same start |
| SalesCalendar.GridEnds | src/components/pages/SalesCalendar.tsx:94-102 | day 0 of the next month is the month's last day; the start is w days before the 1st; the end is the last day plus 6 minus its weekday |
| SalesCalendar.GridLength | src/components/pages/SalesCalendar.tsx:97-102 | the grid's length is a multiple of 7 between 28 and 42, and covers the month with under a week to spare |
| SalesCalendar.GridShape | src/components/pages/SalesCalendar.tsx:104-110 | consecutive days from w days before the 1st are the previous month's tail, the month, then the next month's head |
| SalesCalendar.GridWeeks | src/components/pages/SalesCalendar.tsx:97-102 | the grid is whole weeks from a Sunday to a Saturday, 28 to 42 cells, covering the month with under a week to spare |
| SalesCalendar.WeekSpan | src/components/pages/SalesCalendar.tsx:97-102 | the grid length computed from the first day's number and the month length is a multiple of 7 that starts on a Sunday and ends on a Saturday |
| SalesCalendar.GridDistinct | src/components/pages/SalesCalendar.tsx:104-110 | cells with consecutive day numbers are pairwise distinct days |
| SalesCalendar.GridRegions | src/components/pages/SalesCalendar.tsx:104-110 | the cells are the previous month's last w days, then the month's days in order, then the next month's first days |
| SalesCalendar.DivModSeven | src/components/pages/SalesCalendar.tsx:98 | x = 7q + r with 0 <= r < 7 fixes x / 7 and x % 7; the week alignment of the grid rests on it |
| SalesCalendar.CellOfIndex | src/components/pages/SalesCalendar.tsx:104-110 | the cell at each index is the date the grid shape places there |
| SalesCalendar.Cell | src/components/pages/SalesCalendar.tsx:112-117 | a cell is for its own date and lists no more events than exist |
| SalesCalendar.Cells | src/components/pages/SalesCalendar.tsx:112 | one cell per grid day, in order |
| SalesCalendar.CellEvents | src/components/pages/SalesCalendar.tsx:114 | a cell's events are exactly the events with that date, in their original order |
| SalesCalendar.SelectedCell | src/components/pages/SalesCalendar.tsx:116-117 | exactly one cell, at index w + day - 1, is selected; a cell is current-month iff it is one of the month's own days |
| SalesCalendar.TypeCount | src/components/pages/SalesCalendar.tsx:161-169 | each type count is at most the total |
| SalesCalendar.TypeCountsBounded | src/components/pages/SalesCalendar.tsx:157-169 | visits + meetings + demos never exceed the total count |
| SalesCalendar.EventTimeOrder | src/components/pages/SalesCalendar.tsx:179 | the sort key orders by date, then by start time |
| SalesCalendar.UpcomingEvents | src/components/pages/SalesCalendar.tsx:177-180 | exactly the first min(5, n) of the n upcoming events, all among the events and dated today or later, in date-then-time order |
| SalesCalendar.UpcomingAreEarliest | src/components/pages/SalesCalendar.tsx:177-180 | the shown events are the first min(5, n) upcoming ones in time order, none later than any left out, and all of them when there are at most 5 |
| Inventory.StockStatusClass | src/App.tsx:64-71 | `status-low` iff low, `status-out` iff out, `status-normal` otherwise |
| Inventory.StockStatusLabel | src/App.tsx:73-80 | 低在庫 iff low, 在庫切れ iff out, 正常 otherwise |
| Inventory.UnknownStatusIsNormal | src/App.tsx:64-80 | every unknown status is shown as `normal`, and class and label always agree |
| Inventory.TransactionTypeClass | src/App.tsx:92-99 | 入庫/出庫/調整 map to tx-in/tx-out/tx-adjust, and every other type to tx-other, in both directions |
| Inventory.MatchesSearch | src/App.tsx:82-85 | an empty search term matches every item |
| Inventory.FilteredItems | src/App.tsx:82-85 | the search result is never longer than the inventory |
| Inventory.FilteredItemsSpec | src/App.tsx:82-85 | an item is kept iff its lower-cased name or id contains the lower-cased term; order is kept; an empty term keeps all |
| Inventory.FilteredTransactions | src/App.tsx:87-90 | the filtered history is never longer than the full history |
| Inventory.FilteredTransactionsSpec | src/App.tsx:87-90 | `all` keeps every transaction; otherwise exactly those of that type, in order |
| Inventory.TypeCount | src/App.tsx:306-310 | a type count is at most the number of transactions |
| Inventory.InOutCountBounded | src/App.tsx:306-310 | 入庫 count + 出庫 count never exceed the number of transactions |
| Inventory.QuantityText | src/App.tsx:341 | a quantity is shown starting with '+' iff positive and with '-' iff negative |
| Inventory.QuantityTextRoundTrip | src/App.tsx:341 | the shown quantity reads back as the quantity |
| Inventory.QuantityClass | src/App.tsx:340 | `qty-positive` iff the quantity is positive |
| Inventory.AmountShown | src/App.tsx:346 | the amount is shown as its magnitude |
| Inventory.AmountClass | src/App.tsx:345 | `amount-positive` iff the total is positive |
| Inventory.AmountRecoverable | src/App.tsx:345-346 | class and magnitude together give back the signed total |
| Dashboard.WhenLoaded | src/components/pages/Dashboard.tsx:17-19 | the loading view iff analytics are absent |
| Dashboard.RankSalesTeam | src/components/pages/Dashboard.tsx:92-93 | the array is reordered in place into the stable sort by descending progress |
| Dashboard.RankingSpec | src/components/pages/Dashboard.tsx:92-100 | the ranking never increases in progress, holds the same members, and keeps tied members in order |
| Dashboard.TimelineEntries | src/components/pages/Dashboard.tsx:384 | the first min(12, n) communications, in order |
| Dashboard.ParticipantsShown | src/components/pages/Dashboard.tsx:414-420 | nothing for no participants; otherwise the first two joined with ", ", plus a count of the others that appears iff there are more than two; the shown and counted participants add up to all |
| Dashboard.OpenTasks | src/components/pages/Dashboard.tsx:450 | the open count is at most the number of tasks |
| Dashboard.TaskList | src/components/pages/Dashboard.tsx:467 | the first min(8, n) open tasks, in order |
| Dashboard.OpenTasksSpec | src/components/pages/Dashboard.tsx:450-467 | open and done tasks add up to all tasks; open tasks are exactly those not 完了, in order; the list shows open tasks only |
| Dashboard.CompletionRate | src/components/pages/Dashboard.tsx:453 | for a non-empty list, the rate is in 0..100 and is the whole percentage nearest done/total (halves up) |
| Dashboard.RoundedPercentage | src/components/pages/Dashboard.tsx:453 | integer `Math.round(done / total * 100)`: in 0..100 and within half a percent of the quotient |
| Dashboard.TodaySchedule | src/components/pages/Dashboard.tsx:517-519 | today's events only, every one of them, ordered by start time |
| Dashboard.TodayScheduleStable | src/components/pages/Dashboard.tsx:517-519 | today's events with the same start time keep their original order (stable sort) |
| Dashboard.ShowsNoSchedule | src/components/pages/Dashboard.tsx:555 | the empty message is shown iff no event is dated today |
| Dashboard.NoScheduleSpec | src/components/pages/Dashboard.tsx:555 | the empty message appears iff no event is dated today, iff the schedule is empty |
| CustomerDetail.CustomerCommunications | src/components/pages/CustomerDetail.tsx:161-162 | the filtered history is never longer than all communications |
| CustomerDetail.CustomerCommunicationsSpec | src/components/pages/CustomerDetail.tsx:161-162 | exactly the communications with the customer's id, in their original order |
| CustomerDetail.History | src/components/pages/CustomerDetail.tsx:161-163 | the customer's communications only, all of them, newest first by date and time |
| CustomerDetail.HistoryStable | src/components/pages/CustomerDetail.tsx:163 | communications with the same date and time keep their original order |
| CustomerDetail.CommunicationCount | src/components/pages/CustomerDetail.tsx:136 | the count never exceeds the number of communications |
| CustomerDetail.CountSpec | src/components/pages/CustomerDetail.tsx:210 | the count (also shown in the summary at line 136) is the timeline's length, and it is 0 (the empty placeholder) iff no communication has the customer's id |
| CustomerDetail.StatusClass | src/components/pages/CustomerDetail.tsx:66 | the class is `status-` followed by text with no white space that keeps every character of the status other than white space and '-', in order; a status without white space is kept as is |
| CustomerDetail.StatusClassRuns | src/components/pages/CustomerDetail.tsx:66 | in the class name each maximal run of white space of the status becomes exactly one '-' |
| CustomerDetail.KeepsCleanStatus | src/components/pages/CustomerDetail.tsx:66 | the replacement leaves a status without white space unchanged |
| SalesOpportunities.Kanban | src/components/pages/SalesOpportunities.tsx:15-35 | loading iff analytics are absent; otherwise one column per stage entry, in order, labelled with its stage |
| SalesOpportunities.ColumnCards | src/components/pages/SalesOpportunities.tsx:34-35 | a column holds exactly the opportunities at its stage, in their original order |
| SalesOpportunities.CardPlacement | src/components/pages/SalesOpportunities.tsx:27-35 | an opportunity at no listed stage is on no column; with distinct stages, it is on at most one column |
| OpportunityModal.Modal | src/components/modals/OpportunityModal.tsx:21 | nothing is rendered iff the modal is closed |
| OpportunityModal.CustomerIdShown | src/components/modals/OpportunityModal.tsx:46 | the select shows 0 (the placeholder) iff no customer id or 0 is set, otherwise the id |
| OpportunityModal.StageShown | src/components/modals/OpportunityModal.tsx:61 | a stage is always shown: the set non-empty stage, otherwise 初回商談 |
| OpportunityModal.ProbabilityShown | src/components/modals/OpportunityModal.tsx:78 | a stored non-zero probability is shown as it is; an absent or zero probability shows as 30, so the field never shows 0 |
| OpportunityModal.ValueShown | src/components/modals/OpportunityModal.tsx:87 | the value field shows the stored value, or 0 when none is set |
| OpportunityModal.CustomerIdInput | src/components/modals/OpportunityModal.tsx:47 | the select's text reads as NaN exactly when it holds no digit |
| OpportunityModal.NumberInput | src/components/modals/OpportunityModal.tsx:79-88 | input that is not a number, or zero, is stored as 0; any other parsed number is stored as it is |
| OpportunityModal.NumberInputRoundTrip | src/components/modals/OpportunityModal.tsx:79-88 | every number typed in, or offered by the customer select at line 47, is read back as itself |
| OpportunityModal.ClearedProbabilityShowsDefault | src/components/modals/OpportunityModal.tsx:78-79 | entering text that is not a number stores 0, and the field then shows 30 |
| OpportunityModal.DecisionMakersText | src/components/modals/OpportunityModal.tsx:139 | no list shows as the empty text |
| OpportunityModal.TrimEach | src/components/modals/OpportunityModal.tsx:140 | each part is trimmed, and the number of parts is kept |
| OpportunityModal.ParseDecisionMakers | src/components/modals/OpportunityModal.tsx:140 | every name read is non-empty, trimmed and free of commas |
| OpportunityModal.ParsedNames | src/components/modals/OpportunityModal.tsx:140 | the trimmed, non-empty comma-separated parts are each a name: non-empty, trimmed, without commas |
| OpportunityModal.TrimmedParts | src/components/modals/OpportunityModal.tsx:140 | a non-empty trimmed part of a comma split is a well-formed name |
| OpportunityModal.LeadingSpace | src/components/modals/OpportunityModal.tsx:139-140 | the space after each comma of the shown text makes no difference when it is read back |
| OpportunityModal.DecisionMakersRoundTrip | src/components/modals/OpportunityModal.tsx:139-140 | a list of non-empty, trimmed, comma-free names, shown and read back, is the same list |
| OpportunityModal.SingleName | src/components/modals/OpportunityModal.tsx:139-140 | one name shown and read back is itself |
| OpportunityModal.NameThenMore | src/components/modals/OpportunityModal.tsx:139-140 | a name in front of a list that reads back survives showing and reading |
| OpportunityModal.JoinComma | src/components/modals/OpportunityModal.tsx:139 | the shown text is the first name, a comma, a space and the rest |
| OpportunityModal.TrimEachCons | src/components/modals/OpportunityModal.tsx:140 | trimming a trimmed first part keeps it |
| OpportunityModal.KeepFirstName | src/components/modals/OpportunityModal.tsx:140 | a non-empty first name survives the empty-name filter |
| OpportunityModal.DecisionMakersIdempotent | src/components/modals/OpportunityModal.tsx:139-140 | reading, showing and reading again gives what the first reading gave |

## Left out

- Rendering: markup, emoji, icons, styling, static KPI figures and chart geometry (floating-point trigonometry) are not modelled.
- The clock and time zones: "today", `Date.now()` ids and ISO timestamps are parameters. The UTC/local-time mismatch between `toISOString()` and `getMonth()`/`getDate()` east of UTC is not modelled; dates are civil dates throughout.
- Date and time strings are civil-date and clock values. An empty or malformed date or time field, which the source would turn into an Invalid Date or NaN, is not modelled.
- Month navigation through `setMonth(±1)` is not modelled; the grid is built for a given selected date.
- Locale-dependent text is reduced to fixed rules. `toLowerCase` is ASCII only. `trim` and `\s` use a fixed set of white-space characters. `localeCompare` of `HH:MM` strings is a comparison of minutes. `toLocaleString` digit grouping is not modelled.
- `parseInt` is radix 10 only: a `0x` prefix and decimal fractions are not modelled.
- Dashboard.CompletionRate: computed in whole numbers for a non-empty task list; the source's floating-point quotient, and the NaN it gives for no tasks, are not modelled.
- SalesReport.TotalMinutes: whole minutes from `HH:MM` values; the millisecond floating-point arithmetic of `getTime()` differences is not modelled.
- The JavaScript engine's sort algorithm is not modelled, only its stable result (required of `Array.prototype.sort` since ECMAScript 2019).
- The confirmation `alert` after saving a report is not modelled.
- Form field bindings of the customer and calendar modals, and the text inputs' `|| ''` defaults, are not modelled.
- The activity form's inputs other than the customer select (type, free customer name, start and end time, priority, description, result, next action; src/components/pages/SalesReport.tsx:291-425) copy the typed value into the draft without conversion and are not modelled as methods; the draft is a parameter of `ReportStore.AddActivity`.
- The analytics aggregate is fixture data that is never recomputed. Only the stage list and the sales team are modelled. The kanban header count is the fixture's own figure.
- Saving customers, opportunities and events happens in a container component that is not part of this model.
- Amounts and counts that the source types as JavaScript `number` are whole numbers here: `TeamMember.progress` (the ranking key), a transaction's `quantity`, `unitPrice` and `total`, revenues, opportunity values and probabilities. Fractional values, and floating-point rounding in comparing or subtracting them, are not modelled.
- The string unions `Communication.type`, `Task.status` and the customer status are plain strings in the source and stay strings here.

## Findings

| source | as written | input that shows it | evidently intended | confidence | as-written member | corrected member |
|---|---|---|---|---|---|---|
| src/components/pages/SalesReport.tsx:210 | hours are `Math.floor(total / 60)` and minutes are `total % 60`, and JavaScript's `%` keeps the dividend's sign | an activity ending 30 minutes before it starts: total -30 shows as "-1時間-30分", i.e. -90 minutes | hours and minutes that add up to the total, with minutes in 0..59 ("-1時間30分") | not executed | SalesReport.WorkTimeAsWrittenMismatch | SalesReport.WorkTime |
