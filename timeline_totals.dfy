/** Hours per duty status on a timeline, a quarter hour per slot. */
module TimelineTotals {
  import opened LogTypes
  import opened SlotCodec
  import opened TimelineBuilder

  /** Hours one slot stands for. */
  const SlotHours: real := 0.25

  datatype DutyTotals = DutyTotals(offDuty: real, sleeperBerth: real, driving: real, onDuty: real)

  function TotalHours(t: DutyTotals): real {
    t.offDuty + t.sleeperBerth + t.driving + t.onDuty
  }

  /** The number of slots holding `c`. */
  function Count(timeline: seq<Cell>, c: Cell): (n: nat)
    ensures n <= |timeline|
  {
    if timeline == [] then 0
    else Count(timeline[..|timeline| - 1], c) + (if timeline[|timeline| - 1] == c then 1 else 0)
  }

  /** Every slot holds one of the four statuses or is unset. */
  lemma {:induction false} CountPartition(timeline: seq<Cell>)
    ensures Count(timeline, Filled(OffDuty)) + Count(timeline, Filled(SleeperBerth))
          + Count(timeline, Filled(Driving)) + Count(timeline, Filled(OnDuty))
          + Count(timeline, Unset) == |timeline|
  {
    if timeline != [] {
      CountPartition(timeline[..|timeline| - 1]);
      match timeline[|timeline| - 1]
      case Unset =>
      case Filled(OffDuty) =>
      case Filled(SleeperBerth) =>
      case Filled(Driving) =>
      case Filled(OnDuty) =>
    }
  }

  /** A value that no slot holds counts zero. */
  lemma {:induction false} CountAbsent(timeline: seq<Cell>, c: Cell)
    requires forall i :: 0 <= i < |timeline| ==> timeline[i] != c
    ensures Count(timeline, c) == 0
  {
    if timeline != [] {
      CountAbsent(timeline[..|timeline| - 1], c);
    }
  }

  /** Adds a quarter hour to a status's total for every slot holding it;
      unset slots add nothing. */
  method CalculateTimelineTotals(timeline: seq<Cell>) returns (totals: DutyTotals)
    ensures totals.offDuty == SlotHours * Count(timeline, Filled(OffDuty)) as real
    ensures totals.sleeperBerth == SlotHours * Count(timeline, Filled(SleeperBerth)) as real
    ensures totals.driving == SlotHours * Count(timeline, Filled(Driving)) as real
    ensures totals.onDuty == SlotHours * Count(timeline, Filled(OnDuty)) as real
    ensures TotalHours(totals) == SlotHours * (|timeline| - Count(timeline, Unset)) as real
  {
    totals := DutyTotals(0.0, 0.0, 0.0, 0.0);
    for i := 0 to |timeline|
      invariant totals.offDuty == SlotHours * Count(timeline[..i], Filled(OffDuty)) as real
      invariant totals.sleeperBerth == SlotHours * Count(timeline[..i], Filled(SleeperBerth)) as real
      invariant totals.driving == SlotHours * Count(timeline[..i], Filled(Driving)) as real
      invariant totals.onDuty == SlotHours * Count(timeline[..i], Filled(OnDuty)) as real
    {
      assert timeline[..i + 1][..i] == timeline[..i];
      match timeline[i]
      case Filled(OffDuty) => totals := totals.(offDuty := totals.offDuty + SlotHours);
      case Filled(SleeperBerth) => totals := totals.(sleeperBerth := totals.sleeperBerth + SlotHours);
      case Filled(Driving) => totals := totals.(driving := totals.driving + SlotHours);
      case Filled(OnDuty) => totals := totals.(onDuty := totals.onDuty + SlotHours);
      case Unset =>
    }
    assert timeline[..|timeline|] == timeline;
    CountPartition(timeline);
  }

  /** The slots of a built timeline add up to a full day. */
  lemma BuiltTimelineCoversDay(entries: seq<LogEntry>)
    ensures var t := TimelineOf(entries);
            SlotHours * (Count(t, Filled(OffDuty)) + Count(t, Filled(SleeperBerth))
                         + Count(t, Filled(Driving)) + Count(t, Filled(OnDuty))) as real == 24.0
  {
    var t := TimelineOf(entries);
    TimelineIsFilled(entries);
    CountAbsent(t, Unset);
    CountPartition(t);
  }

  /** A day without entries totals 24 hours off duty and nothing else. */
  lemma EmptyDayTotals()
    ensures var t := TimelineOf([]);
            Count(t, Filled(OffDuty)) == SlotsPerDay &&
            Count(t, Filled(SleeperBerth)) == 0 && Count(t, Filled(Driving)) == 0 &&
            Count(t, Filled(OnDuty)) == 0
  {
    var t := TimelineOf([]);
    EmptyDayIsOffDuty();
    CountAbsent(t, Unset);
    CountAbsent(t, Filled(SleeperBerth));
    CountAbsent(t, Filled(Driving));
    CountAbsent(t, Filled(OnDuty));
    CountPartition(t);
  }
}
