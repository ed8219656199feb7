/** The greedy multi-day schedule built from a route's driving time: each day
    drives up to 11 hours, takes a 30-minute break when driving remains, and
    rests for the remainder of the 24 hours, at least 10. */
module Schedule {
  import opened Text
  import opened LogTypes
  import opened SlotCodec
  import opened Compliance

  const BreakHours: real := 0.5

  /** A start time of day, in minutes after midnight. */
  type MinuteOfDay = m: int | 0 <= m < 1440

  /** A route's duration in hours from its duration in seconds. */
  function RouteDuration(durationSeconds: real): (hours: real)
    ensures hours * 3600.0 == durationSeconds
  {
    durationSeconds / 3600.0
  }

  function MinReal(a: real, b: real): real {
    if a <= b then a else b
  }

  function MaxReal(a: real, b: real): real {
    if a >= b then a else b
  }

  /** The `HH:MM` wall-clock label of instant `t`, given in hours after
      midnight of the start date; seconds are dropped. */
  function ClockLabel(t: real): string {
    var m := MinuteOfDayAt(t);
    Pad2(m / 60) + ":" + Pad2(m % 60)
  }

  /** A label is a time of day naming the whole minute the instant falls in. */
  lemma ClockLabelIsClockTime(t: real)
    ensures IsClockTime(ClockLabel(t))
    ensures ClockHours(ClockLabel(t)) * 60 + ClockMinutes(ClockLabel(t)) == (t * 60.0).Floor % 1440
  {
    var m := MinuteOfDayAt(t);
    var h, mm := Pad2(m / 60), Pad2(m % 60);
    var s := ClockLabel(t);
    assert s == h + ":" + mm;
    assert s[0] == h[0] && s[1] == h[1] && s[2] == ':' && s[3] == mm[0] && s[4] == mm[1];
  }

  /** The minute of the day an instant falls in. */
  function MinuteOfDayAt(t: real): int {
    (t * 60.0).Floor % 1440
  }

  lemma MinuteOfDayNextDay(t: real)
    ensures MinuteOfDayAt(t + 24.0) == MinuteOfDayAt(t)
  {
    var x := t * 60.0;
    assert (t + 24.0) * 60.0 == x + 1440.0;
    assert (x + 1440.0).Floor == x.Floor + 1440;
  }

  lemma {:induction false} MinuteOfDayEveryDay(t: real, k: nat)
    ensures MinuteOfDayAt(t + 24.0 * k as real) == MinuteOfDayAt(t)
  {
    if k > 0 {
      var u := t + 24.0 * (k - 1) as real;
      MinuteOfDayEveryDay(t, k - 1);
      MinuteOfDayNextDay(u);
      assert t + 24.0 * k as real == u + 24.0;
    }
  }

  /** A label repeats every 24 hours. */
  lemma ClockLabelEveryDay(t: real, k: nat)
    ensures ClockLabel(t + 24.0 * k as real) == ClockLabel(t)
  {
    MinuteOfDayEveryDay(t, k);
  }

  /** A start given in whole minutes is labelled with exactly the time of day it names. */
  lemma StartLabel(clock: string)
    requires IsClockTime(clock)
    ensures ClockLabel((ClockHours(clock) * 60 + ClockMinutes(clock)) as real / 60.0) == clock
  {
    var h, mm := ClockHours(clock), ClockMinutes(clock);
    var m := h * 60 + mm;
    assert MinuteOfDayAt(m as real / 60.0) == m by {
      assert m as real / 60.0 * 60.0 == m as real;
    }
    assert m / 60 == h && m % 60 == mm;
    var hh, mins := clock[..2], clock[3..];
    assert DigitValue(hh[0]) * 10 + DigitValue(hh[1]) == h;
    assert DigitValue(mins[0]) * 10 + DigitValue(mins[1]) == mm;
    Pad2OfDigits(hh);
    Pad2OfDigits(mins);
    assert clock == hh + ":" + mins;
  }

  /** The day, counted from the start date, that instant `t` falls on. */
  function DayOf(t: real): int {
    (t / 24.0).Floor
  }

  /** The number of driving days a route needs: its hours divided by 11, rounded up. */
  function DaysNeeded(total: real): nat {
    if total <= 0.0 then 0 else -((-total / MaxDrivingHours).Floor)
  }

  /** The day count is the least whole number of 11-hour days covering the route. */
  lemma DaysNeededBounds(total: real)
    requires total > 0.0
    ensures MaxDrivingHours * (DaysNeeded(total) - 1) as real < total <= MaxDrivingHours * DaysNeeded(total) as real
  {
  }

  /** While driving remains after `k` full days, the route needs more than `k`
      days, and exactly `k + 1` when what remains fits in one day. */
  lemma DayCountStep(total: real, k: nat)
    requires total - MaxDrivingHours * k as real > 0.0
    ensures k < DaysNeeded(total)
    ensures total - MaxDrivingHours * k as real <= MaxDrivingHours <==> DaysNeeded(total) == k + 1
  {
    DaysNeededBounds(total);
  }

  /** A stretch of one duty status between two instants, before its times are
      rendered as wall-clock labels. */
  datatype Stint = Stint(from: real, to: real, status: DutyStatus, location: string, hours: real)

  /** The log entry for a stint, labelled with its wall-clock times. */
  function Entry(s: Stint): LogEntry {
    LogEntry(ClockLabel(s.from), ClockLabel(s.to), s.status, s.location, s.hours)
  }

  function Rendered(stints: seq<Stint>): seq<LogEntry> {
    seq(|stints|, i requires 0 <= i < |stints| => Entry(stints[i]))
  }

  /** The stints of the day that starts at `dayStart` with `remaining` hours of
      driving left: drive, a break when driving is left over, then rest. */
  function DayStints(dayStart: real, remaining: real, dayNumber: nat): seq<Stint> {
    var driving := MinReal(remaining, MaxDrivingHours);
    var breakTaken := remaining > MaxDrivingHours;
    var onDuty := if breakTaken then driving + BreakHours else driving;
    var restStart := dayStart + onDuty;
    var rest := MaxReal(MinRestHours, 24.0 - onDuty);
    var drive := Stint(dayStart, dayStart + driving, Driving, "Route Segment " + NatToString(dayNumber), driving);
    var pause := if breakTaken then [Stint(dayStart + driving, restStart, OnDuty, "Break Location", BreakHours)] else [];
    [drive] + pause + [Stint(restStart, restStart + rest, OffDuty, "Rest Area", rest)]
  }

  /** The day that starts at `dayStart` with `remaining` hours of driving left. */
  function PlanDay(dayStart: real, remaining: real, dayNumber: nat): DailyLog {
    var driving := MinReal(remaining, MaxDrivingHours);
    var onDuty := if remaining > MaxDrivingHours then driving + BreakHours else driving;
    DailyLog(DayOf(dayStart), Rendered(DayStints(dayStart, remaining, dayNumber)),
             HosTotals(driving, onDuty, MaxReal(MinRestHours, 24.0 - onDuty), 0.0))
  }

  /** Day `k` (from 0) of a trip starting at `start` with `total` driving hours:
      it starts 24 hours after the previous one, after `k` full driving days. */
  function DayOfTrip(start: real, total: real, k: nat): DailyLog {
    PlanDay(start + 24.0 * k as real, total - MaxDrivingHours * k as real, k + 1)
  }

  /** The whole schedule: one planned day per day the route needs. */
  function PlannedSchedule(start: real, total: real): seq<DailyLog> {
    seq(DaysNeeded(total), k requires 0 <= k => DayOfTrip(start, total, k))
  }

  lemma DayOfTripIsPlanDay(start: real, total: real, k: nat, dayStart: real, remaining: real)
    requires dayStart == start + 24.0 * k as real
    requires remaining == total - MaxDrivingHours * k as real
    ensures DayOfTrip(start, total, k) == PlanDay(dayStart, remaining, k + 1)
  {
  }

  /** A planned day drives first, breaks for half an hour only when driving is
      left for later, and ends with rest; the stints follow one another without
      gaps and fill exactly 24 hours, and each lasts the hours it records. */
  lemma DayStintsShape(dayStart: real, remaining: real, dayNumber: nat)
    requires remaining > 0.0
    ensures var s := DayStints(dayStart, remaining, dayNumber);
            |s| == (if remaining > MaxDrivingHours then 3 else 2) &&
            s[0].status == Driving && s[0].hours == MinReal(remaining, MaxDrivingHours) &&
            s[0].from == dayStart &&
            (|s| == 3 ==> s[1].status == OnDuty && s[1].location == "Break Location" && s[1].hours == BreakHours) &&
            s[|s| - 1].status == OffDuty && s[|s| - 1].location == "Rest Area" &&
            s[|s| - 1].to == dayStart + 24.0 &&
            (forall i :: 0 <= i < |s| - 1 ==> s[i].to == s[i + 1].from) &&
            (forall i :: 0 <= i < |s| ==> s[i].to - s[i].from == s[i].hours > 0.0)
  {
  }

  /** The entries of planned day `k` are its stints, rendered. */
  lemma PlannedEntries(start: real, total: real, k: nat)
    requires k < DaysNeeded(total)
    ensures PlannedSchedule(start, total)[k].entries ==
              Rendered(DayStints(start + 24.0 * k as real, total - MaxDrivingHours * k as real, k + 1))
    ensures total - MaxDrivingHours * k as real > 0.0
  {
    DaysNeededBounds(total);
  }

  /** Every day but the last drives the full 11 hours and breaks; the last
      drives what is left, at most 11 hours; on-duty time never passes 11.5
      hours, the rest fills the day and so is never short of 10 hours, and no
      sleeper-berth time is planned. */
  lemma {:induction false} PlannedDayTotals(start: real, total: real, k: nat)
    requires k < DaysNeeded(total)
    ensures var t := PlannedSchedule(start, total)[k].totals;
            t.drivingHours == MinReal(total - MaxDrivingHours * k as real, MaxDrivingHours) &&
            0.0 < t.drivingHours <= MaxDrivingHours &&
            (k + 1 < DaysNeeded(total) ==> t.drivingHours == MaxDrivingHours && t.onDutyHours == MaxDrivingHours + BreakHours) &&
            (k + 1 == DaysNeeded(total) ==> t.onDutyHours == t.drivingHours) &&
            t.offDutyHours == 24.0 - t.onDutyHours && t.sleeperBerthHours == 0.0 &&
            WithinLimits(t)
  {
    DayCountStep(total, k);
  }

  /** The planned schedule never breaks an Hours-of-Service limit. */
  lemma PlannedScheduleIsCompliant(start: real, total: real)
    ensures Violations(PlannedSchedule(start, total)) == []
  {
    var plan := PlannedSchedule(start, total);
    forall d | 0 <= d < |plan|
      ensures WithinLimits(plan[d].totals)
    {
      PlannedDayTotals(start, total, d);
    }
    NoViolationsIffWithinLimits(plan);
  }

  /** The driving hours of a run of days, added up. */
  function DrivingTotal(logs: seq<DailyLog>): real {
    if logs == [] then 0.0 else DrivingTotal(logs[..|logs| - 1]) + logs[|logs| - 1].totals.drivingHours
  }

  lemma {:induction false} PlannedDrivingSoFar(start: real, total: real, n: nat)
    requires n <= DaysNeeded(total)
    ensures DrivingTotal(PlannedSchedule(start, total)[..n]) == MinReal(MaxReal(total, 0.0), MaxDrivingHours * n as real)
  {
    var plan := PlannedSchedule(start, total);
    if n > 0 {
      DaysNeededBounds(total);
      PlannedDrivingSoFar(start, total, n - 1);
      PlannedDayTotals(start, total, n - 1);
      assert plan[..n][..n - 1] == plan[..n - 1];
    }
  }

  /** The schedule drives the whole route, and nothing when there is nothing to drive. */
  lemma PlannedScheduleDrivesRoute(start: real, total: real)
    ensures total <= 0.0 <==> PlannedSchedule(start, total) == []
    ensures DrivingTotal(PlannedSchedule(start, total)) == MaxReal(total, 0.0)
  {
    var plan := PlannedSchedule(start, total);
    PlannedDrivingSoFar(start, total, |plan|);
    assert plan[..|plan|] == plan;
    if total > 0.0 {
      DaysNeededBounds(total);
    }
  }

  /** A planned day starts at its start instant and ends 24 hours later. */
  lemma DayStintsSpanDay(dayStart: real, remaining: real, dayNumber: nat)
    requires remaining > 0.0
    ensures var s := DayStints(dayStart, remaining, dayNumber);
            |s| >= 2 && s[0].from == dayStart && s[|s| - 1].to == dayStart + 24.0
  {
  }

  /** The stints of a planned day follow one another without gaps. */
  lemma DayStintsChained(dayStart: real, remaining: real, dayNumber: nat)
    ensures var s := DayStints(dayStart, remaining, dayNumber);
            forall i :: 0 <= i < |s| - 1 ==> s[i].to == s[i + 1].from
  {
  }

  /** Stints that follow one another render to entries whose labels chain. */
  lemma RenderedChain(s: seq<Stint>)
    requires forall i :: 0 <= i < |s| - 1 ==> s[i].to == s[i + 1].from
    ensures var e := Rendered(s);
            forall i :: 0 <= i < |e| - 1 ==> e[i].endTime == e[i + 1].startTime
  {
    var e := Rendered(s);
    forall i | 0 <= i < |e| - 1
      ensures e[i].endTime == e[i + 1].startTime
    {
      assert e[i].endTime == ClockLabel(s[i].to);
      assert e[i + 1].startTime == ClockLabel(s[i + 1].from);
    }
  }

  /** Within a day, each entry ends at the wall-clock time the next one starts. */
  lemma PlannedEntriesChain(start: real, total: real, k: nat)
    requires k < DaysNeeded(total)
    ensures var e := PlannedSchedule(start, total)[k].entries;
            |e| >= 2 && forall i :: 0 <= i < |e| - 1 ==> e[i].endTime == e[i + 1].startTime
  {
    var dayStart, remaining := start + 24.0 * k as real, total - MaxDrivingHours * k as real;
    PlannedEntries(start, total, k);
    DayStintsSpanDay(dayStart, remaining, k + 1);
    DayStintsChained(dayStart, remaining, k + 1);
    RenderedChain(DayStints(dayStart, remaining, k + 1));
  }

  /** A day's last entry ends at the wall-clock time the next day's first starts. */
  lemma PlannedDaysChain(start: real, total: real, k: nat)
    requires k + 1 < DaysNeeded(total)
    ensures var e := PlannedSchedule(start, total)[k].entries;
            |e| >= 2 && e[|e| - 1].endTime == PlannedSchedule(start, total)[k + 1].entries[0].startTime
  {
    var here, next := start + 24.0 * k as real, start + 24.0 * (k + 1) as real;
    var s := DayStints(here, total - MaxDrivingHours * k as real, k + 1);
    var s' := DayStints(next, total - MaxDrivingHours * (k + 1) as real, k + 2);
    PlannedEntries(start, total, k);
    PlannedEntries(start, total, k + 1);
    DayStintsSpanDay(here, total - MaxDrivingHours * k as real, k + 1);
    DayStintsSpanDay(next, total - MaxDrivingHours * (k + 1) as real, k + 2);
    assert here + 24.0 == next;
    var e, e' := Rendered(s), Rendered(s');
    assert e[|e| - 1] == Entry(s[|s| - 1]);
    assert e'[0] == Entry(s'[0]);
  }

  /** Every day starts at the same wall-clock time as the first. */
  lemma PlannedDaysStartAlike(start: real, total: real, k: nat)
    requires k < DaysNeeded(total)
    ensures PlannedSchedule(start, total)[k].entries[0].startTime == ClockLabel(start)
  {
    PlannedEntries(start, total, k);
    DayStintsSpanDay(start + 24.0 * k as real, total - MaxDrivingHours * k as real, k + 1);
    ClockLabelEveryDay(start, k);
  }

  /** A trip starting at time of day `clock` has every day's log begin at `clock`. */
  lemma ScheduleKeepsStartTime(clock: string, total: real, k: nat)
    requires IsClockTime(clock) && k < DaysNeeded(total)
    ensures var start := (ClockHours(clock) * 60 + ClockMinutes(clock)) as real / 60.0;
            PlannedSchedule(start, total)[k].entries[0].startTime == clock
  {
    var start := (ClockHours(clock) * 60 + ClockMinutes(clock)) as real / 60.0;
    PlannedDaysStartAlike(start, total, k);
    StartLabel(clock);
  }

  /** Day `k` of a trip starting on the start date is dated `k` days after it. */
  lemma PlannedDayOffsets(start: real, total: real, k: nat)
    requires 0.0 <= start < 24.0 && k < DaysNeeded(total)
    ensures PlannedSchedule(start, total)[k].dayOffset == k
  {
    var t := start + 24.0 * k as real;
    assert t / 24.0 == start / 24.0 + k as real;
  }

  /** Every time in the schedule is a well-formed `HH:MM` time of day. */
  lemma PlannedTimesAreClockTimes(start: real, total: real, k: nat, i: nat)
    requires k < DaysNeeded(total) && i < |PlannedSchedule(start, total)[k].entries|
    ensures var e := PlannedSchedule(start, total)[k].entries[i];
            IsClockTime(e.startTime) && IsClockTime(e.endTime)
  {
    var s := DayStints(start + 24.0 * k as real, total - MaxDrivingHours * k as real, k + 1);
    PlannedEntries(start, total, k);
    ClockLabelIsClockTime(s[i].from);
    ClockLabelIsClockTime(s[i].to);
  }

  /** One iteration of the day loop: drive, break if driving remains, try the
      afternoon, then rest out the day. */
  method ScheduleDay(startTime: real, remaining: real, dayNumber: nat, ghost start: real, ghost total: real)
    returns (log: DailyLog, nextDayStart: real, remainingDrivingHours: real)
    requires remaining > 0.0 && dayNumber > 0
    requires startTime == start + 24.0 * (dayNumber - 1) as real
    requires remaining == total - MaxDrivingHours * (dayNumber - 1) as real
    ensures log == DayOfTrip(start, total, dayNumber - 1)
    ensures nextDayStart == startTime + 24.0
    ensures remainingDrivingHours == remaining - MinReal(remaining, MaxDrivingHours)
  {
    var currentTime := startTime;
    remainingDrivingHours := remaining;
    var stints: seq<Stint> := [];
    var dayDrivingHours := 0.0;
    var dayOnDutyHours := 0.0;

    var morningDrivingHours := MinReal(remainingDrivingHours, MaxDrivingHours);
    if morningDrivingHours > 0.0 {
      var endTime := currentTime + morningDrivingHours;
      stints := stints + [Stint(currentTime, endTime, Driving, "Route Segment " + NatToString(dayNumber), morningDrivingHours)];
      dayDrivingHours := dayDrivingHours + morningDrivingHours;
      dayOnDutyHours := dayOnDutyHours + morningDrivingHours;
      remainingDrivingHours := remainingDrivingHours - morningDrivingHours;
      currentTime := endTime;
    }

    if remainingDrivingHours > 0.0 {
      var breakEndTime := currentTime + BreakHours;
      stints := stints + [Stint(currentTime, breakEndTime, OnDuty, "Break Location", BreakHours)];
      dayOnDutyHours := dayOnDutyHours + BreakHours;
      currentTime := breakEndTime;

      // The morning already used the whole 11 hours, so this never drives.
      var afternoonDrivingHours := MinReal(remainingDrivingHours, MaxDrivingHours - dayDrivingHours);
      if afternoonDrivingHours > 0.0 {
        var endTime := currentTime + afternoonDrivingHours;
        stints := stints + [Stint(currentTime, endTime, Driving,
                                  "Route Segment " + NatToString(dayNumber) + " (continued)", afternoonDrivingHours)];
        dayDrivingHours := dayDrivingHours + afternoonDrivingHours;
        dayOnDutyHours := dayOnDutyHours + afternoonDrivingHours;
        remainingDrivingHours := remainingDrivingHours - afternoonDrivingHours;
        currentTime := endTime;
      }
    }

    var offDutyHours := MaxReal(MinRestHours, 24.0 - dayOnDutyHours);
    var offDutyEndTime := currentTime + offDutyHours;
    stints := stints + [Stint(currentTime, offDutyEndTime, OffDuty, "Rest Area", offDutyHours)];
    assert stints == DayStints(startTime, remaining, dayNumber);
    log := DailyLog(DayOf(startTime), Rendered(stints),
                    HosTotals(dayDrivingHours, dayOnDutyHours, offDutyHours, 0.0));
    assert log == PlanDay(startTime, remaining, dayNumber);
    DayOfTripIsPlanDay(start, total, dayNumber - 1, startTime, remaining);
    nextDayStart := offDutyEndTime;
  }

  /** Drives, breaks and rests day after day until the route's driving time is
      used up. */
  method GenerateHOSSchedule(routeDurationSeconds: real, startMinute: MinuteOfDay)
    returns (dailyLogs: seq<DailyLog>)
    ensures dailyLogs == PlannedSchedule(startMinute as real / 60.0, RouteDuration(routeDurationSeconds))
  {
    var totalDuration := RouteDuration(routeDurationSeconds);
    dailyLogs := [];
    var currentTime := startMinute as real / 60.0;
    ghost var start := currentTime;
    var remainingDrivingHours := totalDuration;
    var dayNumber: nat := 1;
    ghost var days := DaysNeeded(totalDuration);
    while remainingDrivingHours > 0.0
      invariant dayNumber == |dailyLogs| + 1
      invariant currentTime == start + 24.0 * |dailyLogs| as real
      invariant |dailyLogs| <= days
      invariant remainingDrivingHours > 0.0 ==>
                  remainingDrivingHours == totalDuration - MaxDrivingHours * |dailyLogs| as real
      invariant remainingDrivingHours <= 0.0 ==> |dailyLogs| == days
      invariant dailyLogs == PlannedSchedule(start, totalDuration)[..|dailyLogs|]
      decreases days - |dailyLogs|
    {
      DayCountStep(totalDuration, |dailyLogs|);
      var log;
      log, currentTime, remainingDrivingHours := ScheduleDay(currentTime, remainingDrivingHours, dayNumber, start, totalDuration);
      ghost var plan := PlannedSchedule(start, totalDuration);
      assert plan[..|dailyLogs| + 1] == dailyLogs + [plan[|dailyLogs|]];
      dailyLogs := dailyLogs + [log];
      dayNumber := dayNumber + 1;
    }
    assert PlannedSchedule(start, totalDuration)[..days] == PlannedSchedule(start, totalDuration);
  }
}
