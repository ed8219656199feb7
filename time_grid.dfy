/** The header grid of the daily log graph: one record per quarter hour. */
module TimeGrid {
  import opened Text
  import opened SlotCodec

  /** A quarter hour of the grid with its `HH:MM` label and hour caption. */
  datatype TimeSlot = TimeSlot(time: string, hour: nat, quarter: nat, displayHour: string)

  /** The caption of an hour: "Mid-night", "Noon", or a 12-hour clock label. */
  function DisplayHour(hour: nat): string {
    if hour == 0 then "Mid-night"
    else if hour == 12 then "Noon"
    else if hour > 12 then NatToString(hour - 12) + " PM"
    else NatToString(hour) + " AM"
  }

  /** The grid's records, slot by slot. */
  function Grid(): seq<TimeSlot> {
    seq(SlotsPerDay, k requires 0 <= k => TimeSlot(SlotIndexToTime(k), k / 4, k % 4, DisplayHour(k / 4)))
  }

  /** The record of quarter `quarter` of hour `hour`, written out. */
  lemma GridRecord(hour: nat, quarter: nat)
    requires hour < 24 && quarter < 4
    ensures Grid()[4 * hour + quarter] == TimeSlot(Pad2(hour) + ":" + Pad2(quarter * 15), hour, quarter, DisplayHour(hour))
  {
    var slot := 4 * hour + quarter;
    assert slot / 4 == hour && slot % 4 == quarter;
  }

  /** The 96 quarter hours of a day, hour by hour. */
  method GenerateTimeSlots() returns (slots: seq<TimeSlot>)
    ensures slots == Grid()
  {
    slots := [];
    for hour := 0 to 24
      invariant |slots| == 4 * hour
      invariant forall k :: 0 <= k < |slots| ==> slots[k] == Grid()[k]
    {
      for quarter := 0 to 4
        invariant |slots| == 4 * hour + quarter
        invariant forall k :: 0 <= k < |slots| ==> slots[k] == Grid()[k]
      {
        var minutes := quarter * 15;
        var timeString := Pad2(hour) + ":" + Pad2(minutes);
        GridRecord(hour, quarter);
        slots := slots + [TimeSlot(timeString, hour, quarter, DisplayHour(hour))];
      }
    }
  }

  /** The grid has one record per quarter hour; each names its hour, its
      quarter and the caption of its hour, and its time reads back as its own
      slot. */
  lemma GridSlots()
    ensures |Grid()| == SlotsPerDay
    ensures forall k :: 0 <= k < SlotsPerDay ==>
              Grid()[k].hour == k / 4 && Grid()[k].quarter == k % 4 &&
              Grid()[k].displayHour == DisplayHour(k / 4)
    ensures forall k :: 0 <= k < SlotsPerDay ==>
              IsClockTime(Grid()[k].time) && ClockMinutes(Grid()[k].time) % MinutesPerSlot == 0 &&
              TimeToSlotIndex(Grid()[k].time) == k
  {
    forall k | 0 <= k < SlotsPerDay
      ensures TimeToSlotIndex(Grid()[k].time) == k
    {
      SlotRoundTrip(k);
    }
  }
}
