# Shift planner allocation, modelled in Dafny

This project models the worker allocation of a small shift-planning web
application, and the shaping of its result for the dashboard.

`allocateWorkers` takes the uploaded workers and the week's stations (one
shift slot each: a day text, a location and an `HHMM-HHMM` time). It makes
one greedy pass over the stations in input order. For each station it:

- filters the workers on six conditions:
  - available that day;
  - prefers the shift type (or "any");
  - lists the location;
  - not yet working that day;
  - at least 12 hours of rest after the previous weekday's shift;
  - at most 72 hours in the week;
- sorts the eligible workers stably by the position of the location in
  their `canWorkStations`;
- commits the first one, or marks the station "Unassigned".

The run keeps three maps:

- the day texts each worker holds;
- a history of shifts by day;
- the hours each worker has worked.

The dashboard then pivots the annotated stations into a worker → day →
cell grid with "Unassigned" fillers. It also gives every station shown in
the grid a colour from a 12-colour palette.

Files:

- `optional.dfy`: the `Option` type.
- `text.dfy`: ASCII lower-casing, case-insensitive membership, and
  `indexOf`.
- `clock.dfy`: HHMM values, minutes of the day, durations with overnight
  wrap, rest gaps, shift types, and the weekly-cap test in minutes.
- `week.dfy`: the weekdays Monday..Sunday, the case-insensitive day lookup
  (`findIndex`), and the previous day.
- `ranking.dfy`: the stable sort by a key.
- `scheduler.dfy`: workers, stations, the run state, the six eligibility
  conditions, the choice, the commit, the run as a fold over the stations,
  and `allocateWorkers` in two variants.
- `scheduler_properties.dfy`: what a whole run guarantees. The three maps
  are views of one ledger, and on top of that the model proves no double
  booking, the weekly cap, the rest gap, and that whoever is assigned
  qualifies.
- `history_key_finding.dfy`: an input on which the source's history
  filing skips the rest rule (see Findings).
- `dashboard.dfy`: `formatSchedule`, `generateUniqueColors` and
  `assignStationColors`.
- `dashboard_properties.dfy`: what the grid shows of a run.

Times are the two integers read either side of the `-` (an
`HHMM-HHMM` string). Durations and hour totals are kept in whole minutes.
`Clock.CapTestInMinutes` shows that the source's test in hours is the same
as the test in minutes.

## Model

| member | source | states |
|---|---|---|
| Clock.MinutesOfDay | src/services/scheduler.js:31-44 | a valid HHMM time maps to a minute of the day below 1440 |
| Clock.MinutesOfDayRoundTrip | src/services/scheduler.js:38-44 | hour and minute are read back from the minute of the day: `m / 60` is HH, `m % 60` is MM |
| Clock.Forward | src/services/scheduler.js:92-93 | the forward distance is the plain difference, or that plus a day when negative; between minutes of the day it lies in [0, 1440) |
| Clock.ForwardIsClockDistance | src/services/scheduler.js:92-95 | the forward distance is the one value in [0, 1440) that carries the first minute to the second modulo 1440 |
| Clock.DurationMinutes | src/services/scheduler.js:14-28 | a shift's length lies in [0, 1440) minutes for valid times; end before start wraps past midnight; equal start and end give 0 |
| Clock.DurationHours | src/services/scheduler.js:14-28 | the hours are the minutes over 60 and lie in [0, 24) for valid times |
| Clock.RestMinutes | src/services/scheduler.js:89-93 | the gap from the previous shift's end to this shift's start, wrapping past midnight, in [0, 1440) |
| Clock.ShiftTypeByMinutes | src/services/scheduler.js:2-11 | the 600/1400/2200 HHMM thresholds are 06:00, 14:00 and 22:00: Early for [360, 840) minutes, Late for [840, 1320), Night otherwise |
| Clock.CapTestInMinutes | src/services/scheduler.js:102-103 | `hours + duration > 72` holds exactly when minutes plus duration exceed 4320 |
| Text.Lower | src/services/scheduler.js:69-80 | lower-casing keeps the length and lower-cases each character |
| Text.IndexOf | src/services/scheduler.js:115-117 | -1 exactly when absent; otherwise the first position holding the element |
| Week.Index | src/services/scheduler.js:47 | each weekday's position in Monday..Sunday order |
| Week.ParseDay | src/services/scheduler.js:83 | a text is a weekday exactly when its lower case is that day's lower-case name |
| Week.ParseDayMatchesName | src/services/scheduler.js:83 | the weekday found is the one whose name equals the text ignoring case |
| Week.NameInjective | src/services/scheduler.js:47 | different weekdays have different names, also ignoring case |
| Week.Previous | src/services/scheduler.js:84 | Monday has no previous day; otherwise the previous day is the one whose index is one less |
| Ranking.InsertBy | src/services/scheduler.js:115-117 | insertion keeps the elements as a multiset and puts the new one first when its key is the smallest |
| Ranking.InsertBySorted | src/services/scheduler.js:115-117 | inserting into a list sorted by key leaves it sorted |
| Ranking.SortBy | src/services/scheduler.js:115-117 | the sort is a permutation of its input, sorted by key |
| Scheduler.EligibleWorkers | src/services/scheduler.js:68-113 | the filter keeps exactly the input workers that meet all six conditions |
| Scheduler.EligibleWorkersAppend | src/services/scheduler.js:68-113 | the filter keeps input order: filtering a concatenation gives the filtered parts in turn (with the length and membership clauses this fixes the filter's result) |
| Scheduler.Choose | src/services/scheduler.js:115-139 | no choice exactly when nobody is eligible; otherwise an eligible input worker of smallest rank with no eligible worker of equal rank before it |
| Scheduler.ChooseBySortStep | src/services/scheduler.js:68-119 | filtering and stably sorting picks the first worker when it is eligible and ranks no worse than the pick among the rest, and otherwise the pick among the rest |
| Scheduler.SortedChoiceIsScan | src/services/scheduler.js:115-119 | the head of the stably sorted eligible workers is the first eligible worker of smallest `indexOf` rank |
| Scheduler.Commit | src/services/scheduler.js:121-128 | committing appends the day text, adds the duration and files the shift for the chosen worker only, leaving every other worker's entries unchanged |
| Scheduler.RunSlots | src/services/scheduler.js:63 | the pass takes one decision per station |
| Scheduler.AllocateWith | src/services/scheduler.js:130-139 | the output has one entry per input station, in order, each the input station plus the chosen name or "Unassigned", for either filing of the history |
| Scheduler.Allocate | src/services/scheduler.js:130-139 | the output has one entry per input station, in order, each the input station plus the chosen name or "Unassigned" |
| Scheduler.AllocateAsWritten | src/services/scheduler.js:63-139 | the same shape with the history filed under the raw day text, as the source does |
| SchedulerProperties.RunReflects | src/services/scheduler.js:122-128 | after any prefix of stations, each map is a view of the ledger of stations each worker holds: its day texts, the sum of their durations, and the last one filed under each key |
| SchedulerProperties.StepReflects | src/services/scheduler.js:121-128 | one decision keeps the three maps in step with the ledger |
| SchedulerProperties.RunPrefix | src/services/scheduler.js:63 | the decisions on a prefix of the stations are the prefix of the decisions, and each decision is the choice against the state left by the stations before it |
| SchedulerProperties.EachDecision | src/services/scheduler.js:105-139 | a station stays unassigned exactly when no worker is eligible against the state before it; otherwise the chosen input worker is eligible |
| SchedulerProperties.AssignedWorkerQualifies | src/services/scheduler.js:69-76 | whoever is assigned is available that day, prefers "any" or the shift type, and lists the location, all ignoring case |
| SchedulerProperties.NoDoubleBooking | src/services/scheduler.js:78-80 | no worker holds two stations whose day texts agree ignoring case |
| SchedulerProperties.RunTotalWithinCap | src/services/scheduler.js:102-103 | no worker's running total passes 72 hours |
| SchedulerProperties.WeeklyCap | src/services/scheduler.js:102-103 | the stations each worker holds add up to at most 72 hours |
| SchedulerProperties.HistoryHoldsEarlierStation | src/services/scheduler.js:88-89 | when a later station is decided, the history under an earlier held station's key holds a station the worker took on a day text filed under the same key |
| SchedulerProperties.LedgerHistoryFinds | src/services/scheduler.js:122-127 | on a ledger the maps reflect, the history under the key of a held station is the record of a station the worker holds under the same key |
| SchedulerProperties.CanonicalKeySameDay | src/services/scheduler.js:83 | two day texts filed under one weekday name agree ignoring case |
| SchedulerProperties.RestBetweenConsecutiveDays | src/services/scheduler.js:83-95 | with the history filed under canonical day names, a worker holding a station on one weekday and a later one on the next weekday has at least 720 minutes from the first one's end to the second one's start |
| SchedulerProperties.AsWrittenAgrees | src/services/scheduler.js:121-128 | when every day text is already the name it would be filed under (spelled as in `daysOfWeek`, or naming no weekday), the run as written and the corrected run take the same decisions and keep the same maps |
| SchedulerProperties.RestAsWrittenWhenSpelled | src/services/scheduler.js:83-95 | when every day text is spelled as in `daysOfWeek` or names no weekday, the allocator as written also leaves at least 720 minutes between a worker's stations on consecutive weekdays |
| HistoryKeyFinding.PreviousDayLookup | src/services/scheduler.js:83-89 | a station on a weekday other than Monday looks the history up under the name of the day before |
| HistoryKeyFinding.EligibleWhenFresh | src/services/scheduler.js:68-112 | before the first commit, a worker who is available, prefers the shift and lists the station is eligible for any station within the cap |
| HistoryKeyFinding.RawKeyingSkipsRestCheck | src/services/scheduler.js:127 | with the history filed under the raw day text, the sample worker gets both the Monday late and the Tuesday early station, only 480 minutes apart |
| HistoryKeyFinding.CanonicalKeyingKeepsRest | src/services/scheduler.js:88 | with canonical filing the same input leaves the Tuesday station unassigned |
| HistoryKeyFinding.ExactEarlierSpellingKeepsRest | src/services/scheduler.js:83-95 | the skip needs the earlier station to be misspelled: with Monday spelled as in `daysOfWeek`, the allocator as written finds Monday's shift and leaves the lower-case Tuesday station unassigned |
| Dashboard.Dedupe | src/components/Dashboard.js:66-75 | a JavaScript Set's contents: no repeats and exactly the elements of the input |
| Dashboard.DedupeFirstSeenOrder | src/components/Dashboard.js:66-75 | a Set lists its elements in order of first appearance in the input |
| Dashboard.CountedNames | src/components/Dashboard.js:36-38 | the names formatSchedule files are exactly the non-empty, non-"Unassigned" `allocatedTo` values |
| Dashboard.CountedNamesAppend | src/components/Dashboard.js:36-38 | names are collected in input order: a concatenation of stations gives the two lists of names in turn |
| Dashboard.PlacedWorkers | src/components/Dashboard.js:36-42 | the rows are the counted names, each once, in order of first appearance |
| Dashboard.PlacedCell | src/components/Dashboard.js:44-47 | a row has a cell under a day text exactly when a station puts the worker there, and the cell is the last such station's |
| Dashboard.FormatSchedule | src/components/Dashboard.js:33-63 | the rows are exactly the distinct counted names in order of first appearance, and each row covers the seven grid days |
| Dashboard.FormattedCell | src/components/Dashboard.js:44-60 | a row's cell under a day is the last station's for that worker and day text; a grid day no station fills holds the "Unassigned" cell with an empty time |
| Dashboard.UniqueColors | src/components/Dashboard.js:89-101 | exactly n colours, colour i being palette entry i mod 12 |
| Dashboard.SharedColor | src/components/Dashboard.js:96-98 | two positions share a colour exactly when they are congruent modulo 12 |
| Dashboard.FirstColorsDistinct | src/components/Dashboard.js:91-98 | the first twelve colours are pairwise different |
| Dashboard.RowStations | src/components/Dashboard.js:69-74 | the stations one row contributes are its shown locations on the given days |
| Dashboard.Visits | src/components/Dashboard.js:68-75 | walking the rows collects the stations of each row |
| Dashboard.VisitsShows | src/components/Dashboard.js:68-75 | the walk meets exactly the locations that are non-empty, not "Unassigned" and in some row on a grid day |
| Dashboard.UniqueStations | src/components/Dashboard.js:66-75 | the station set holds each shown location once, listed in the order the walk over rows and days first meets them |
| Dashboard.ColorsFor | src/components/Dashboard.js:77-84 | the k-th station in first-seen order gets palette entry k mod 12, and only the stations get a colour |
| Dashboard.ColorsDistinctWithinPalette | src/components/Dashboard.js:77-98 | with at most twelve stations, different stations get different colours |
| Dashboard.AssignStationColors | src/components/Dashboard.js:65-87 | the coloured stations are exactly those shown in the grid, coloured by their first-seen position |
| DashboardProperties.FormattedRowsAreWorkers | src/components/Dashboard.js:36-42 | every row of the grid of a run, as written or corrected, carries an input worker's name |
| DashboardProperties.AssignmentShown | src/components/Dashboard.js:44-47 | for a run as written or corrected, when names identify workers, every station given to a shown worker sits in that worker's row under its day text |
| DashboardProperties.StationColorsDistinct | src/components/Dashboard.js:65-101 | with at most twelve stations in the grid, no two share a colour |

## Left out

- Reading workers and stations from `localStorage`, the JSON deep copy and
  the `console.warn` calls (scheduler.js lines 51-61): workers and stations
  are parameters.
- Text parsing of `HHMM-HHMM`: a time is the pair of integers either side
  of the `-`. A part `parseInt` cannot read gives `NaN` in the source, and
  the model has no `NaN`. In the source a `NaN` start fails both range
  tests of `getShiftType`, so the station counts as a Night shift (scheduler.js
  lines 4-9). A `NaN` rest gap fails `diff >= 720`, so a worker with a
  previous-day entry is rejected (lines 92-95). A `NaN` duration makes
  `hours + duration > 72` false, so only the cap test is switched off
  (line 103). The worker's total then becomes `NaN`, and line 124 resets it
  to 0 at that worker's next commit.
- Floating point: hours are whole minutes over 60, so rounding in
  `workerTotalHours` is not modelled.
- `toLowerCase` is modelled for ASCII letters only.
- Worker ids are natural numbers. In the source they are object keys, so
  ids that print the same (1 and "1") would share entries.
- JavaScript objects list integer-like keys first. The model keeps rows in
  insertion order whatever the worker's name, and does not model names
  such as `constructor` that clash with object prototype members.
- Dashboard cells keep the time as a parsed range; the source keeps the
  string.
- Ranking.SortBy: stability is not stated of the whole sorted list. Only
  its consequence for the head is proved (`Scheduler.SortedChoiceIsScan`),
  which is all the allocator reads.
- `calculateHoursWorked`, the React state, the saved-schedule branch, the
  XLSX and PDF export, the stations and workers pages, authentication and
  routing: user interface, network, dates and floating point.
- Rules the allocator does not implement, which the model does not add:
  - the station's `hours` field is ignored;
  - each worker has one `preferredShift`, not one per day;
  - there is no cap on the number of shifts;
  - there is no next-day rest check and no check across weeks;
  - the ranking is by `canWorkStations.indexOf` alone. The comparison is
    case-sensitive and -1 sorts first.

## Findings

| source | as written | input that shows it | evidently intended | confidence | as-written member | corrected member |
|---|---|---|---|---|---|---|
| src/services/scheduler.js:127 | the history is filed under `station.day` as uploaded, but line 88 looks the previous day up under its `daysOfWeek` spelling, so a shift filed under a day text not spelled exactly "Monday".."Sunday" is never found by the next day's rest check, and the 12-hour rule is skipped for that pair of stations | worker 0, available "monday" and "tuesday", any shift, station "Depot"; stations "monday" 1400-2200 then "tuesday" 0600-1400: both go to worker 0 with 480 minutes of rest | file the history under the weekday the text names, as every other day comparison ignores case | medium, not executed | HistoryKeyFinding.RawKeyingSkipsRestCheck | SchedulerProperties.RestBetweenConsecutiveDays |

`Scheduler.AllocateAsWritten` is the allocator as written, with raw
filing. `Scheduler.Allocate` files each shift under the weekday name when
the text names one, and all properties of a run are proved of it.
`HistoryKeyFinding.CanonicalKeyingKeepsRest` runs the corrected allocator
on the same input: the Tuesday station stays unassigned.
`HistoryKeyFinding.ExactEarlierSpellingKeepsRest` shows that only the
earlier station's spelling matters: with "Monday" spelled exactly and
"tuesday" in lower case, the allocator as written rejects the Tuesday
station.
`SchedulerProperties.AsWrittenAgrees` shows the two allocators agree
whenever every day text is spelled as in `daysOfWeek` (or names no
weekday). So on such input the rest guarantee holds of the program as
written too (`SchedulerProperties.RestAsWrittenWhenSpelled`).
