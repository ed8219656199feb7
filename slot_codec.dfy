/** Conversion between `HH:MM` times of day and the 96 quarter-hour slots of a day. */
module SlotCodec {
  import opened Text

  const SlotsPerDay: nat := 96
  const MinutesPerSlot: nat := 15

  /** Two digits, a colon, two digits. */
  predicate IsHhMm(s: string) {
    |s| == 5 && IsDigit(s[0]) && IsDigit(s[1]) && s[2] == ':' && IsDigit(s[3]) && IsDigit(s[4])
  }

  function ClockHours(s: string): nat
    requires IsHhMm(s)
  {
    DigitValue(s[0]) * 10 + DigitValue(s[1])
  }

  function ClockMinutes(s: string): nat
    requires IsHhMm(s)
  {
    DigitValue(s[3]) * 10 + DigitValue(s[4])
  }

  /** A well-formed time of day: hours 00..23 and minutes 00..59. */
  predicate IsClockTime(s: string) {
    IsHhMm(s) && ClockHours(s) < 24 && ClockMinutes(s) < 60
  }

  /** The slot a time falls in; "24:00" is the end of the day, and anything
      that is not a time of day falls back to slot 0. */
  function TimeToSlotIndex(s: string): (slot: nat)
    ensures slot <= SlotsPerDay
    ensures slot == SlotsPerDay <==> s == "24:00"
    ensures IsClockTime(s) ==>
              slot / 4 == ClockHours(s) && slot % 4 == ClockMinutes(s) / MinutesPerSlot
    ensures !IsClockTime(s) && s != "24:00" ==> slot == 0
  {
    if s == "24:00" then SlotsPerDay
    else if s == "00:00" then 0
    else if IsClockTime(s) then ClockHours(s) * 4 + ClockMinutes(s) / MinutesPerSlot
    else 0
  }

  /** The time a slot starts at, clamped to "00:00" below and "24:00" above. */
  function SlotIndexToTime(slot: int): (t: string)
    ensures IsHhMm(t)
    ensures slot >= SlotsPerDay ==> t == "24:00"
    ensures slot <= 0 ==> t == "00:00"
    ensures 0 <= slot < SlotsPerDay ==>
              IsClockTime(t) && ClockMinutes(t) % MinutesPerSlot == 0 &&
              ClockHours(t) * 4 + ClockMinutes(t) / MinutesPerSlot == slot
  {
    if slot >= SlotsPerDay then "24:00"
    else if slot < 0 then "00:00"
    else Pad2(slot / 4) + ":" + Pad2((slot % 4) * MinutesPerSlot)
  }

  /** Every slot boundary of the day survives a trip through its time string. */
  lemma SlotRoundTrip(slot: int)
    requires 0 <= slot <= SlotsPerDay
    ensures TimeToSlotIndex(SlotIndexToTime(slot)) == slot
  {
    if slot < SlotsPerDay {
      var t := SlotIndexToTime(slot);
      assert t != "24:00";
    }
  }

  /** A time of day maps back to the start of its quarter hour: the same hour,
      the minutes rounded down to a multiple of 15. */
  lemma TimeRoundsDownToSlot(t: string)
    requires IsClockTime(t)
    ensures SlotIndexToTime(TimeToSlotIndex(t)) == t[..3] + Pad2(ClockMinutes(t) / 15 * 15)
  {
    var slot := TimeToSlotIndex(t);
    assert slot / 4 == ClockHours(t) && slot % 4 == ClockMinutes(t) / 15;
    Pad2OfDigits(t[..2]);
    assert Pad2(slot / 4) == t[..2];
    assert t[..3] == t[..2] + ":";
  }

  /** A time on a quarter-hour boundary survives the trip exactly. */
  lemma AlignedTimeRoundTrip(t: string)
    requires IsClockTime(t) && ClockMinutes(t) % 15 == 0
    ensures SlotIndexToTime(TimeToSlotIndex(t)) == t
  {
    TimeRoundsDownToSlot(t);
    Pad2OfDigits(t[3..]);
    assert t == t[..3] + t[3..];
  }
}
