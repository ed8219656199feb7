# Hours-of-Service log sheet engine

This project models the Hours-of-Service (HOS) engine of an electronic logging
device (ELD) log viewer for truck drivers. The engine has two parts.

- **The log sheet of one day** (`src/lib/utils/fmcsaUtils.ts`):
  - Times of day `HH:MM` map to the day's 96 quarter-hour slots and back.
  - The day's entries are sorted stably by start slot. They are painted in
    that order onto a 96-slot timeline. A later entry overwrites an earlier
    one where they overlap. An entry that ends at or before its start is cut
    at midnight. The exception is an entry from "00:00" to "00:00", which
    paints nothing. Slots no entry covers are off duty.
  - The timeline is summed into hours per duty status.
  - Consecutive entries are checked for gaps and overlaps.
  - The 96-row time grid of the log graph is generated, with its hour captions.
- **The multi-day trip** (`src/lib/utils/spatialAnalysis.ts`):
  - A route's driving time, in hours, is planned greedily into days. Each day
    drives up to 11 hours. It takes a 30-minute on-duty break when driving is
    left for later days. It then rests for the rest of the 24 hours, at least 10.
  - Each day's totals are checked against the three per-day limits: 11 hours
    of driving, 14 hours on duty and 10 hours of rest. A day driving more
    than 10 hours also draws a warning.

Modules, one per file:

| module | file | concern |
|---|---|---|
| `Text` | `text.dfy` | digit characters, `padStart(2, '0')`, `toString()` of a natural number |
| `LogTypes` | `log_types.dfy` | duty statuses, log entries, daily totals, daily logs |
| `SlotCodec` | `slot_codec.dfy` | `HH:MM` ↔ slot index |
| `EntryOrder` | `entry_order.dfy` | the stable sort by start slot |
| `TimelineBuilder` | `timeline_builder.dfy` | the 96-slot timeline, painted in place in an `array`; duty bars |
| `TimelineTotals` | `timeline_totals.dfy` | hours per status on a timeline |
| `EntryValidator` | `entry_validator.dfy` | gaps and overlaps between consecutive entries |
| `TimeGrid` | `time_grid.dfy` | the 96 rows of the log graph |
| `Compliance` | `compliance.dfy` | the per-day limits and warnings |
| `Schedule` | `schedule.dfy` | route duration and the greedy multi-day schedule |

Each loop in the source is a `method` with a loop. Each method is proved
against a specification function of its inputs:

- `CreateContinuousTimeline` against `TimelineOf`;
- `ValidateEntries` against `PairIssues` of the sorted entries;
- `GenerateTimeSlots` against `Grid`;
- `ValidateHOSCompliance` against `Violations` and `Warnings`;
- `GenerateHOSSchedule` against `PlannedSchedule`, a closed form of day `k`
  of the trip.

The lemmas state the source's promises about those functions. The loop
bodies of the timeline builder, the validator and the schedule are factored
into helper methods (`PaintEntry`, `FillUnset`, `CheckPairs`, `ScheduleDay`),
one per phase of the source's loop.

Time in the schedule is an exact real number of hours after midnight of the
start date. A wall-clock label is the minute of day that the instant falls
in, written `HH:MM`, as `toTimeString().slice(0, 5)` gives it. A day's date
is its whole number of days after the start date. The source builds each
entry with its labels already rendered. The model records each entry's two
instants as a `Stint` and renders the labels when the day's log is assembled.
The entries produced are the same.

The source's afternoon-driving branch (`spatialAnalysis.ts:159-177`) is kept
in `ScheduleDay`, but it can never run: the morning already drives
`min(remaining, 11)` hours, so the afternoon's allowance `min(remaining, 11 -
dayDrivingHours)` is never positive. `PlannedSchedule` has no afternoon, and
`ScheduleDay` is proved equal to it.

## Model

| member | source | states |
|---|---|---|
| Text.Pad2 | src/lib/utils/fmcsaUtils.ts:168 | `padStart(2, '0')` of a number below 100 gives two digits that spell the number |
| Text.Pad2OfDigits | src/lib/utils/fmcsaUtils.ts:168 | any two digits are the padded rendering of the number they spell |
| Text.NatToString | src/lib/utils/spatialAnalysis.ts:132 | `toString()` of a natural number is a nonempty digit string with no leading zero |
| Text.NatToStringRoundTrip | src/lib/utils/spatialAnalysis.ts:132 | reading a rendered number back as decimal gives the number |
| SlotCodec.TimeToSlotIndex | src/lib/utils/fmcsaUtils.ts:10-27 | slot ≤ 96; slot 96 exactly for "24:00"; a valid time gives slot `hours*4 + minutes/15`; anything else gives 0 |
| SlotCodec.SlotIndexToTime | src/lib/utils/fmcsaUtils.ts:161-169 | at or above 96 gives "24:00"; at or below 0 gives "00:00"; a slot of the day gives a valid time on a quarter hour that names that slot |
| SlotCodec.SlotRoundTrip | src/lib/utils/fmcsaUtils.ts:161-169 | every slot 0..96 survives slot → time → slot |
| SlotCodec.TimeRoundsDownToSlot | src/lib/utils/fmcsaUtils.ts:26 | time → slot → time keeps the hour and rounds the minutes down to a multiple of 15 |
| SlotCodec.AlignedTimeRoundTrip | src/lib/utils/fmcsaUtils.ts:26 | a time on a quarter hour survives time → slot → time exactly |
| EntryOrder.SortByStartIsSorted | src/lib/utils/fmcsaUtils.ts:48-52 | the sorted entries ascend by start slot |
| EntryOrder.SortByStartPermutes | src/lib/utils/fmcsaUtils.ts:48-52 | sorting is a permutation: the multiset of entries is unchanged |
| EntryOrder.SortByStartIsStable | src/lib/utils/fmcsaUtils.ts:48-52 | entries with equal start slots keep their input order |
| TimelineBuilder.PaintEnd | src/lib/utils/fmcsaUtils.ts:55-69 | the end slot of painting, for each case: "00:00" after a later start means 96; an end not after the start is cut at midnight (96); otherwise the entry's own end slot |
| TimelineBuilder.UnsetIffUncovered | src/lib/utils/fmcsaUtils.ts:54-77 | a slot stays unset exactly when no painted entry covers it |
| TimelineBuilder.LastCoveringEntryWins | src/lib/utils/fmcsaUtils.ts:54-77 | the last entry in painting order that covers a slot decides its status |
| TimelineBuilder.PaintEntry | src/lib/utils/fmcsaUtils.ts:55-76 | the slots the entry covers take its status; every other slot is unchanged |
| TimelineBuilder.FillUnset | src/lib/utils/fmcsaUtils.ts:79-84 | unset slots become off duty; filled slots are unchanged |
| TimelineBuilder.CreateContinuousTimeline | src/lib/utils/fmcsaUtils.ts:44-87 | the 96-slot array is the timeline of the entries painted in start-slot order, with gaps off duty |
| TimelineBuilder.TimelineIsFilled | src/lib/utils/fmcsaUtils.ts:79-84 | a built timeline has 96 slots and none is unset |
| TimelineBuilder.EmptyDayIsOffDuty | src/lib/utils/fmcsaUtils.ts:79-84 | a day without entries is off duty in every slot |
| TimelineBuilder.CreateDutyBar | src/lib/utils/fmcsaUtils.ts:30-41 | the bar starts at the start slot and reaches the end slot; its length is within ±96 slots; its colour is that of its status |
| TimelineTotals.CountPartition | src/lib/utils/fmcsaUtils.ts:119-123 | the counts of the four statuses and of unset slots add up to the timeline's length |
| TimelineTotals.CalculateTimelineTotals | src/lib/utils/fmcsaUtils.ts:111-126 | each status's total is a quarter hour per slot holding it; all four totals sum to a quarter hour per filled slot |
| TimelineTotals.BuiltTimelineCoversDay | src/lib/utils/fmcsaUtils.ts:111-126 | the totals of a built timeline add up to 24 hours |
| TimelineTotals.EmptyDayTotals | src/lib/utils/fmcsaUtils.ts:79-84 | a day without entries counts 96 off-duty slots and no other status |
| EntryValidator.PairIssuesBound | src/lib/utils/fmcsaUtils.ts:137-155 | at most one issue per consecutive pair; none when there are fewer than two entries |
| EntryValidator.NoIssuesIffContiguous | src/lib/utils/fmcsaUtils.ts:137-155 | there are no issues exactly when each entry ends in the slot the next starts in |
| EntryValidator.IssueMinutesAreWholeSlots | src/lib/utils/fmcsaUtils.ts:144-154 | every gap or overlap is a positive multiple of 15 minutes |
| EntryValidator.IssueMessageReadsBack | src/lib/utils/fmcsaUtils.ts:145-154 | the message opens with "Gap of " or "Overlap of " by the kind of issue; the number after it reads back as the issue's minutes; it ends with the next entry's start time |
| EntryValidator.CheckPairs | src/lib/utils/fmcsaUtils.ts:137-155 | the issues are those of the consecutive pairs, in pair order |
| EntryValidator.ValidateEntries | src/lib/utils/fmcsaUtils.ts:129-158 | the issues are those of the entries sorted by start slot; fewer issues than entries; none exactly when the sorted entries are contiguous |
| TimeGrid.GridRecord | src/lib/utils/fmcsaUtils.ts:94-104 | row `4*hour + quarter` holds the padded time, the hour, the quarter and the hour's caption |
| TimeGrid.GenerateTimeSlots | src/lib/utils/fmcsaUtils.ts:90-108 | the rows produced are the grid, hour by hour and quarter by quarter |
| TimeGrid.GridSlots | src/lib/utils/fmcsaUtils.ts:90-108 | 96 rows; row k is hour k/4 and quarter k%4; its time is valid, lies on a quarter hour and maps back to slot k |
| Compliance.NoViolationsIffWithinLimits | src/lib/utils/spatialAnalysis.ts:246-275 | no violations exactly when every day is within the driving, on-duty and rest limits |
| Compliance.ViolationsAreSound | src/lib/utils/spatialAnalysis.ts:246-263 | every violation names a day of the log and a limit that day breaks, with that day's figure |
| Compliance.ViolationsAreComplete | src/lib/utils/spatialAnalysis.ts:246-263 | every limit a day breaks is reported for that day, with its figure |
| Compliance.ViolationCountBound | src/lib/utils/spatialAnalysis.ts:246-263 | the whole log has at most three times as many violations as days; the per-day bound is `Compliance.ViolationsOfEachDay` |
| Compliance.ViolationsOfEachDay | src/lib/utils/spatialAnalysis.ts:246-263 | the violations reported for a day are exactly that day's, in rule order (driving, on duty, rest): at most three, no repeats, none from another day |
| Compliance.ViolationsInDayOrder | src/lib/utils/spatialAnalysis.ts:246 | violations are listed in day order |
| Compliance.WarningsIffHighDriving | src/lib/utils/spatialAnalysis.ts:265-268 | a day is warned exactly when it drives more than 10 hours, and the warning carries its hours |
| Compliance.WarningsOfEachDay | src/lib/utils/spatialAnalysis.ts:265-268 | the warnings for a day are exactly that day's: at most one, carrying its driving hours |
| Compliance.WarningDaysBounded | src/lib/utils/spatialAnalysis.ts:265-268 | every warning names a day of the log |
| Compliance.ValidateHOSCompliance | src/lib/utils/spatialAnalysis.ts:238-276 | the report's violations and warnings are those of the days in order; it is compliant exactly when every day is within the limits |
| Schedule.RouteDuration | src/lib/utils/spatialAnalysis.ts:20-22 | the hours, times 3600, are the route's seconds |
| Schedule.ClockLabelIsClockTime | src/lib/utils/spatialAnalysis.ts:129-130 | a label is a valid `HH:MM` naming the minute of the day the instant falls in |
| Schedule.ClockLabelEveryDay | src/lib/utils/spatialAnalysis.ts:129-130 | a label repeats every 24 hours |
| Schedule.StartLabel | src/lib/utils/spatialAnalysis.ts:106 | a start given as a time of day is labelled with that same time |
| Schedule.DaysNeededBounds | src/lib/utils/spatialAnalysis.ts:110 | the number of days is the least whole number of 11-hour days covering the route |
| Schedule.DayCountStep | src/lib/utils/spatialAnalysis.ts:110 | while driving remains after k days, more than k days are needed, and exactly k+1 when the rest fits in 11 hours |
| Schedule.DayStintsShape | src/lib/utils/spatialAnalysis.ts:122-190 | a day drives min(remaining, 11) hours from its start; it breaks 30 minutes at "Break Location" only when more than 11 hours remain; it ends with rest at "Rest Area" exactly 24 hours after its start; its stints chain and last their recorded hours |
| Schedule.PlannedEntries | src/lib/utils/spatialAnalysis.ts:109-190 | a planned day's entries are its rendered stints, and driving still remained at its start |
| Schedule.PlannedDayTotals | src/lib/utils/spatialAnalysis.ts:179-201 | each day drives between 0 and 11 hours; every day but the last drives 11 and is on duty 11.5; the last is on duty exactly its driving; off duty is 24 minus on duty; no sleeper berth; within all limits |
| Schedule.PlannedScheduleIsCompliant | src/lib/utils/spatialAnalysis.ts:94-207 | the generated schedule has no HOS violations |
| Schedule.PlannedDrivingSoFar | src/lib/utils/spatialAnalysis.ts:109-204 | the first n days drive min(route hours, 11n) |
| Schedule.PlannedScheduleDrivesRoute | src/lib/utils/spatialAnalysis.ts:109-204 | there are no days exactly when there is nothing to drive; the days together drive the whole route |
| Schedule.DayStintsSpanDay | src/lib/utils/spatialAnalysis.ts:122-190 | a day's stints start at its start instant and end 24 hours later |
| Schedule.DayStintsChained | src/lib/utils/spatialAnalysis.ts:122-190 | each stint of a day ends where the next begins |
| Schedule.RenderedChain | src/lib/utils/spatialAnalysis.ts:129-184 | chained stints render to entries whose end and start labels chain |
| Schedule.PlannedEntriesChain | src/lib/utils/spatialAnalysis.ts:122-190 | within a day each entry ends at the time the next one starts |
| Schedule.PlannedDaysChain | src/lib/utils/spatialAnalysis.ts:202 | each day's last entry ends at the time the next day's first entry starts |
| Schedule.PlannedDaysStartAlike | src/lib/utils/spatialAnalysis.ts:202 | every day starts at the wall-clock time of the first |
| Schedule.ScheduleKeepsStartTime | src/lib/utils/spatialAnalysis.ts:106 | a trip that starts at time of day `clock` begins every day's log at `clock` |
| Schedule.PlannedDayOffsets | src/lib/utils/spatialAnalysis.ts:192 | day k is dated k days after the start date |
| Schedule.PlannedTimesAreClockTimes | src/lib/utils/spatialAnalysis.ts:129-184 | every start and end time in the schedule is a valid `HH:MM` |
| Schedule.ScheduleDay | src/lib/utils/spatialAnalysis.ts:110-203 | one loop iteration yields day k of the trip; the next day starts 24 hours later; driving left drops by min(remaining, 11) |
| Schedule.GenerateHOSSchedule | src/lib/utils/spatialAnalysis.ts:94-207 | the daily logs are the planned schedule of the route from the given start time |

## Left out

- The rest of `spatialAnalysis.ts` is not part of this model: the route geometry (Turf), route statistics, rest-area search and route splitting.
- The UI components, API client and network code are not part of this model.
- Dates and time zones are modelled by position only.
  - A day's ISO date becomes `dayOffset`, its whole number of days after the start date.
  - The start date and time, which the source parses from a JS date string, become a minute of the day.
  - Local time-zone shifts and daylight saving are not modelled.
- All arithmetic is on exact reals. Floating-point rounding of hours and milliseconds is not modelled.
- Messages are structured values: `Issue`, `Violation` and `Warning`. `IssueMessage` renders an issue's text. The `toFixed(1)` wording of violation messages is not modelled.
- SlotCodec.TimeToSlotIndex: does not model the leniency of `Number()`. Only the strict `HH:MM` form counts as a time here.
  - The source maps "8:00", " 08:00" and "08:00:30" all to slot 32; the model gives 0.
  - The source can also return a non-integer slot: "8.1:00" gives 32.4. The model's slots are always whole numbers.
- The `console.warn` on an invalid time is I/O and is left out.
- Duty statuses are the four-value `DutyStatus`, so arbitrary status strings are not modelled. This leaves out two things that only such strings reach: the black fallback colour of `DUTY_STATUS_COLORS`, and the `status in totals` guard in `calculateTimelineTotals`.
- Compliance.ValidateHOSCompliance: applies the 14-hour rule to each day's on-duty total, as the source does. It does not model the 14-hour window of 49 CFR 395.3(a)(2).
- Schedule.GenerateHOSSchedule: takes the route's duration in seconds instead of the whole route object. Only the duration is used.
- Schedule.GenerateHOSSchedule: takes the start as a minute of the day, so the following are not modelled:
  - the default arguments, a start time of "08:00" and a start date of today;
  - a start time that does not parse: it gives an invalid date, and `toISOString()` then throws a `RangeError` when the first day's log is dated;
  - the date of each log is the UTC date of the day's start, which can be a day after the local date; the model's `dayOffset` counts local days.
