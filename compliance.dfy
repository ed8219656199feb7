/** The per-day Hours-of-Service limits checked over a multi-day log: 11 hours
    of driving, 14 hours on duty and 10 hours of rest (49 CFR 395.3(a)),
    each applied to the day's totals. */
module Compliance {
  import opened LogTypes

  const MaxDrivingHours: real := 11.0
  const MaxOnDutyHours: real := 14.0
  const MinRestHours: real := 10.0
  const HighDrivingHours: real := 10.0

  /** A violated limit, with the 1-based day and the offending figure. */
  datatype Violation =
    | DrivingLimitExceeded(day: nat, hours: real)
    | OnDutyLimitExceeded(day: nat, hours: real)
    | InsufficientRest(day: nat, hours: real)

  /** A day whose driving approaches the limit. */
  datatype Warning = HighDriving(day: nat, hours: real)

  datatype ComplianceReport = ComplianceReport(
    isCompliant: bool,
    violations: seq<Violation>,
    warnings: seq<Warning>)

  /** Off-duty plus sleeper-berth hours. */
  function RestHours(t: HosTotals): real {
    t.offDutyHours + t.sleeperBerthHours
  }

  predicate WithinLimits(t: HosTotals) {
    t.drivingHours <= MaxDrivingHours && t.onDutyHours <= MaxOnDutyHours && RestHours(t) >= MinRestHours
  }

  /** The violations of day `day`, in rule order: driving, on duty, rest. */
  function DayViolations(day: nat, t: HosTotals): seq<Violation> {
    (if t.drivingHours > MaxDrivingHours then [DrivingLimitExceeded(day, t.drivingHours)] else [])
    + (if t.onDutyHours > MaxOnDutyHours then [OnDutyLimitExceeded(day, t.onDutyHours)] else [])
    + (if RestHours(t) < MinRestHours then [InsufficientRest(day, RestHours(t))] else [])
  }

  function DayWarnings(day: nat, t: HosTotals): seq<Warning> {
    if t.drivingHours > HighDrivingHours then [HighDriving(day, t.drivingHours)] else []
  }

  /** The violations of all days, day by day. */
  function Violations(logs: seq<DailyLog>): seq<Violation> {
    if logs == [] then []
    else Violations(logs[..|logs| - 1]) + DayViolations(|logs|, logs[|logs| - 1].totals)
  }

  function Warnings(logs: seq<DailyLog>): seq<Warning> {
    if logs == [] then []
    else Warnings(logs[..|logs| - 1]) + DayWarnings(|logs|, logs[|logs| - 1].totals)
  }

  /** Which limit a violation reports as violated on its day's totals, and with what figure. */
  predicate Reports(v: Violation, t: HosTotals) {
    match v
    case DrivingLimitExceeded(_, h) => h == t.drivingHours && h > MaxDrivingHours
    case OnDutyLimitExceeded(_, h) => h == t.onDutyHours && h > MaxOnDutyHours
    case InsufficientRest(_, h) => h == RestHours(t) && h < MinRestHours
  }

  /** The log is free of violations exactly when every day is within all three limits. */
  lemma {:induction false} NoViolationsIffWithinLimits(logs: seq<DailyLog>)
    ensures Violations(logs) == [] <==> forall d :: 0 <= d < |logs| ==> WithinLimits(logs[d].totals)
  {
    if logs != [] {
      var p := logs[..|logs| - 1];
      NoViolationsIffWithinLimits(p);
      assert forall d :: 0 <= d < |p| ==> p[d] == logs[d];
    }
  }

  /** Every violation names a day of the log and a limit that day really breaks. */
  lemma {:induction false} ViolationsAreSound(logs: seq<DailyLog>)
    ensures forall v :: v in Violations(logs) ==>
              1 <= v.day <= |logs| && Reports(v, logs[v.day - 1].totals)
  {
    if logs != [] {
      var p := logs[..|logs| - 1];
      ViolationsAreSound(p);
      assert forall d :: 0 <= d < |p| ==> p[d] == logs[d];
    }
  }

  /** Every limit violated on a day is reported for that day. */
  lemma {:induction false} ViolationsAreComplete(logs: seq<DailyLog>, d: nat)
    requires d < |logs|
    ensures var t := logs[d].totals;
            (t.drivingHours > MaxDrivingHours ==> DrivingLimitExceeded(d + 1, t.drivingHours) in Violations(logs)) &&
            (t.onDutyHours > MaxOnDutyHours ==> OnDutyLimitExceeded(d + 1, t.onDutyHours) in Violations(logs)) &&
            (RestHours(t) < MinRestHours ==> InsufficientRest(d + 1, RestHours(t)) in Violations(logs))
  {
    var p := logs[..|logs| - 1];
    if d < |logs| - 1 {
      ViolationsAreComplete(p, d);
    }
  }

  /** A day contributes at most three violations, so the log at most three times its days. */
  lemma {:induction false} ViolationCountBound(logs: seq<DailyLog>)
    ensures |Violations(logs)| <= 3 * |logs|
  {
    if logs != [] {
      ViolationCountBound(logs[..|logs| - 1]);
    }
  }

  /** Violations are listed in day order. */
  lemma {:induction false} ViolationsInDayOrder(logs: seq<DailyLog>)
    ensures forall i, j :: 0 <= i < j < |Violations(logs)| ==>
              Violations(logs)[i].day <= Violations(logs)[j].day
  {
    if logs != [] {
      var p := logs[..|logs| - 1];
      ViolationsInDayOrder(p);
      ViolationsAreSound(p);
      var vs := Violations(logs);
      var n := |Violations(p)|;
      forall i | 0 <= i < n
        ensures vs[i].day <= |logs|
      {
        assert vs[i] == Violations(p)[i];
        assert Violations(p)[i] in Violations(p);
      }
    }
  }

  /** A warning is issued for a day exactly when its driving exceeds 10 hours,
      so a day over the 11-hour limit is also warned. */
  lemma {:induction false} WarningsIffHighDriving(logs: seq<DailyLog>, d: nat)
    requires d < |logs|
    ensures (exists w :: w in Warnings(logs) && w.day == d + 1) <==>
              logs[d].totals.drivingHours > HighDrivingHours
    ensures logs[d].totals.drivingHours > HighDrivingHours ==>
              HighDriving(d + 1, logs[d].totals.drivingHours) in Warnings(logs)
  {
    var p := logs[..|logs| - 1];
    WarningDaysBounded(p);
    if d < |logs| - 1 {
      WarningsIffHighDriving(p, d);
      assert p[d] == logs[d];
    }
  }

  lemma {:induction false} WarningDaysBounded(logs: seq<DailyLog>)
    ensures forall w :: w in Warnings(logs) ==> 1 <= w.day <= |logs|
  {
    if logs != [] {
      WarningDaysBounded(logs[..|logs| - 1]);
    }
  }

  function ViolationDay(v: Violation): nat {
    v.day
  }

  function WarningDay(w: Warning): nat {
    w.day
  }

  /** The items of `xs` that `dayOf` places on day `day`, in their order in `xs`. */
  function OnDay<T>(xs: seq<T>, dayOf: T -> nat, day: nat): seq<T> {
    if xs == [] then []
    else OnDay(xs[..|xs| - 1], dayOf, day) + (if dayOf(xs[|xs| - 1]) == day then [xs[|xs| - 1]] else [])
  }

  lemma {:induction false} OnDayConcat<T>(a: seq<T>, b: seq<T>, dayOf: T -> nat, day: nat)
    ensures OnDay(a + b, dayOf, day) == OnDay(a, dayOf, day) + OnDay(b, dayOf, day)
  {
    if b == [] {
      assert a + b == a;
    } else {
      var b' := b[..|b| - 1];
      assert (a + b)[..|a + b| - 1] == a + b';
      OnDayConcat(a, b', dayOf, day);
    }
  }

  lemma {:induction false} OnDayAll<T>(xs: seq<T>, dayOf: T -> nat, day: nat)
    requires forall i :: 0 <= i < |xs| ==> dayOf(xs[i]) == day
    ensures OnDay(xs, dayOf, day) == xs
  {
    if xs != [] {
      OnDayAll(xs[..|xs| - 1], dayOf, day);
      assert xs[..|xs| - 1] + [xs[|xs| - 1]] == xs;
    }
  }

  lemma {:induction false} OnDayNone<T>(xs: seq<T>, dayOf: T -> nat, day: nat)
    requires forall i :: 0 <= i < |xs| ==> dayOf(xs[i]) != day
    ensures OnDay(xs, dayOf, day) == []
  {
    if xs != [] {
      OnDayNone(xs[..|xs| - 1], dayOf, day);
    }
  }

  /** A day's own violations all name that day; there are at most three. */
  lemma DayViolationsName(day: nat, t: HosTotals)
    ensures |DayViolations(day, t)| <= 3
    ensures OnDay(DayViolations(day, t), ViolationDay, day) == DayViolations(day, t)
  {
    OnDayAll(DayViolations(day, t), ViolationDay, day);
  }

  lemma DayViolationsElsewhere(day: nat, t: HosTotals, other: nat)
    requires other != day
    ensures OnDay(DayViolations(day, t), ViolationDay, other) == []
  {
    OnDayNone(DayViolations(day, t), ViolationDay, other);
  }

  lemma DayWarningsName(day: nat, t: HosTotals)
    ensures |DayWarnings(day, t)| <= 1
    ensures OnDay(DayWarnings(day, t), WarningDay, day) == DayWarnings(day, t)
  {
    OnDayAll(DayWarnings(day, t), WarningDay, day);
  }

  lemma DayWarningsElsewhere(day: nat, t: HosTotals, other: nat)
    requires other != day
    ensures OnDay(DayWarnings(day, t), WarningDay, other) == []
  {
    OnDayNone(DayWarnings(day, t), WarningDay, other);
  }

  /** No violation of a log names the day after its last. */
  lemma NoViolationsAfter(logs: seq<DailyLog>)
    ensures OnDay(Violations(logs), ViolationDay, |logs| + 1) == []
  {
    ViolationsAreSound(logs);
    forall i | 0 <= i < |Violations(logs)|
      ensures ViolationDay(Violations(logs)[i]) != |logs| + 1
    {
      assert Violations(logs)[i] in Violations(logs);
    }
    OnDayNone(Violations(logs), ViolationDay, |logs| + 1);
  }

  lemma NoWarningsAfter(logs: seq<DailyLog>)
    ensures OnDay(Warnings(logs), WarningDay, |logs| + 1) == []
  {
    WarningDaysBounded(logs);
    forall i | 0 <= i < |Warnings(logs)|
      ensures WarningDay(Warnings(logs)[i]) != |logs| + 1
    {
      assert Warnings(logs)[i] in Warnings(logs);
    }
    OnDayNone(Warnings(logs), WarningDay, |logs| + 1);
  }

  /** The violations reported for day `d + 1` are exactly that day's, in rule
      order, so no day carries more than three, a repeat, or another day's. */
  lemma {:induction false} ViolationsOfEachDay(logs: seq<DailyLog>, d: nat)
    requires d < |logs|
    ensures OnDay(Violations(logs), ViolationDay, d + 1) == DayViolations(d + 1, logs[d].totals)
    ensures |OnDay(Violations(logs), ViolationDay, d + 1)| <= 3
  {
    var n := |logs|;
    var p := logs[..n - 1];
    var last := DayViolations(n, logs[n - 1].totals);
    assert Violations(logs) == Violations(p) + last;
    OnDayConcat(Violations(p), last, ViolationDay, d + 1);
    if d == n - 1 {
      NoViolationsAfter(p);
      DayViolationsName(n, logs[n - 1].totals);
    } else {
      ViolationsOfEachDay(p, d);
      assert p[d] == logs[d];
      DayViolationsElsewhere(n, logs[n - 1].totals, d + 1);
    }
  }

  /** The warnings for day `d + 1` are exactly that day's: at most one, with its driving hours. */
  lemma {:induction false} WarningsOfEachDay(logs: seq<DailyLog>, d: nat)
    requires d < |logs|
    ensures OnDay(Warnings(logs), WarningDay, d + 1) == DayWarnings(d + 1, logs[d].totals)
    ensures |OnDay(Warnings(logs), WarningDay, d + 1)| <= 1
  {
    var n := |logs|;
    var p := logs[..n - 1];
    var last := DayWarnings(n, logs[n - 1].totals);
    assert Warnings(logs) == Warnings(p) + last;
    OnDayConcat(Warnings(p), last, WarningDay, d + 1);
    if d == n - 1 {
      NoWarningsAfter(p);
      DayWarningsName(n, logs[n - 1].totals);
    } else {
      WarningsOfEachDay(p, d);
      assert p[d] == logs[d];
      DayWarningsElsewhere(n, logs[n - 1].totals, d + 1);
    }
  }

  /** Checks each day's totals against the three limits and the driving
      warning threshold; the log is compliant when nothing was violated. */
  method ValidateHOSCompliance(logs: seq<DailyLog>) returns (report: ComplianceReport)
    ensures report.violations == Violations(logs)
    ensures report.warnings == Warnings(logs)
    ensures report.isCompliant <==> forall d :: 0 <= d < |logs| ==> WithinLimits(logs[d].totals)
  {
    var violations: seq<Violation> := [];
    var warnings: seq<Warning> := [];
    for dayIndex := 0 to |logs|
      invariant violations == Violations(logs[..dayIndex])
      invariant warnings == Warnings(logs[..dayIndex])
    {
      var t := logs[dayIndex].totals;
      ghost var before := violations;
      if t.drivingHours > MaxDrivingHours {
        violations := violations + [DrivingLimitExceeded(dayIndex + 1, t.drivingHours)];
      }
      if t.onDutyHours > MaxOnDutyHours {
        violations := violations + [OnDutyLimitExceeded(dayIndex + 1, t.onDutyHours)];
      }
      var totalRestHours := t.offDutyHours + t.sleeperBerthHours;
      if totalRestHours < MinRestHours {
        violations := violations + [InsufficientRest(dayIndex + 1, totalRestHours)];
      }
      if t.drivingHours > HighDrivingHours {
        warnings := warnings + [HighDriving(dayIndex + 1, t.drivingHours)];
      }
      assert violations == before + DayViolations(dayIndex + 1, t);
      assert logs[..dayIndex + 1][..dayIndex] == logs[..dayIndex];
    }
    assert logs[..|logs|] == logs;
    report := ComplianceReport(|violations| == 0, violations, warnings);
    NoViolationsIffWithinLimits(logs);
  }
}
