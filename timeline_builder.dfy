/** Builds the 96-slot duty-status timeline of one day from its log entries. */
module TimelineBuilder {
  import opened LogTypes
  import opened SlotCodec
  import opened EntryOrder

  /** A timeline slot: not yet painted, or holding a duty status. */
  datatype Cell = Unset | Filled(status: DutyStatus)

  function Min(a: int, b: int): int {
    if a <= b then a else b
  }

  /** The slot at which an entry stops painting. An end of "00:00" after a
      later start means the end of the day; an end that is not after the start
      crosses midnight, and only the part before midnight is painted. */
  function PaintEnd(e: LogEntry): (end: nat)
    ensures end <= SlotsPerDay
    ensures e.endTime == "00:00" && e.startTime != "00:00" ==> end == SlotsPerDay
    ensures e.endTime == "00:00" && e.startTime == "00:00" ==> end == 0
    ensures e.endTime != "00:00" && EndSlot(e) <= StartSlot(e) ==> end == SlotsPerDay
    ensures e.endTime != "00:00" && StartSlot(e) < EndSlot(e) ==> end == EndSlot(e)
  {
    var startSlot := StartSlot(e);
    var endSlot := if e.endTime == "00:00" && e.startTime != "00:00" then SlotsPerDay else EndSlot(e);
    var endSlot' := if endSlot <= startSlot && e.endTime != "00:00" then endSlot + SlotsPerDay else endSlot;
    Min(endSlot', SlotsPerDay)
  }

  /** The slots an entry paints: from its start slot up to its paint end. */
  predicate Covers(e: LogEntry, slot: int) {
    StartSlot(e) <= slot < PaintEnd(e)
  }

  /** The cell at `slot` after painting the entries of `painted`, in order,
      onto an unset day. */
  function PaintedCell(painted: seq<LogEntry>, slot: int): Cell {
    if painted == [] then Unset
    else if Covers(painted[|painted| - 1], slot) then Filled(painted[|painted| - 1].status)
    else PaintedCell(painted[..|painted| - 1], slot)
  }

  /** A slot stays unset exactly when no painted entry covers it. */
  lemma {:induction false} UnsetIffUncovered(painted: seq<LogEntry>, slot: int)
    ensures PaintedCell(painted, slot) == Unset <==>
              forall j :: 0 <= j < |painted| ==> !Covers(painted[j], slot)
  {
    if painted != [] {
      var n := |painted| - 1;
      UnsetIffUncovered(painted[..n], slot);
      assert forall j :: 0 <= j < n ==> painted[..n][j] == painted[j];
    }
  }

  /** Painting in order means the last entry that covers a slot decides it. */
  lemma {:induction false} LastCoveringEntryWins(painted: seq<LogEntry>, slot: int, j: nat)
    requires j < |painted| && Covers(painted[j], slot)
    requires forall j' :: j < j' < |painted| ==> !Covers(painted[j'], slot)
    ensures PaintedCell(painted, slot) == Filled(painted[j].status)
  {
    var n := |painted| - 1;
    if j < n {
      LastCoveringEntryWins(painted[..n], slot, j);
    }
  }

  /** The status slot `slot` ends up with: the last covering entry in
      start-slot order, or off duty when no entry covers it. */
  function SlotStatus(entries: seq<LogEntry>, slot: int): DutyStatus {
    match PaintedCell(SortByStart(entries), slot)
    case Filled(s) => s
    case Unset => OffDuty
  }

  /** The day's timeline as a sequence of slots. */
  function TimelineOf(entries: seq<LogEntry>): seq<Cell> {
    seq(SlotsPerDay, i => Filled(SlotStatus(entries, i)))
  }

  /** Paints one entry's slots, from its start slot up to its paint end. */
  method PaintEntry(timeline: array<Cell>, entry: LogEntry)
    requires timeline.Length == SlotsPerDay
    modifies timeline
    ensures forall i :: 0 <= i < SlotsPerDay ==>
              timeline[i] == if Covers(entry, i) then Filled(entry.status) else old(timeline[i])
  {
    var startSlot := TimeToSlotIndex(entry.startTime);
    var endSlot := TimeToSlotIndex(entry.endTime);
    if entry.endTime == "00:00" && entry.startTime != "00:00" {
      endSlot := SlotsPerDay;
    }
    if endSlot <= startSlot && entry.endTime != "00:00" {
      endSlot := endSlot + SlotsPerDay;
    }
    var actualEndSlot := Min(endSlot, SlotsPerDay);
    assert actualEndSlot == PaintEnd(entry);
    var slot: int := startSlot;
    while slot < actualEndSlot && slot < SlotsPerDay
      invariant startSlot <= slot
      invariant slot <= actualEndSlot || slot == startSlot
      invariant forall i :: 0 <= i < SlotsPerDay ==>
                  timeline[i] == if startSlot <= i < slot then Filled(entry.status) else old(timeline[i])
    {
      if slot >= 0 {
        timeline[slot] := Filled(entry.status);
      }
      slot := slot + 1;
    }
  }

  /** Fills every slot still unset with off duty. */
  method FillUnset(timeline: array<Cell>)
    modifies timeline
    ensures forall i :: 0 <= i < timeline.Length ==>
              timeline[i] == if old(timeline[i]) == Unset then Filled(OffDuty) else old(timeline[i])
  {
    for i := 0 to timeline.Length
      invariant forall j :: 0 <= j < i ==>
                  timeline[j] == if old(timeline[j]) == Unset then Filled(OffDuty) else old(timeline[j])
      invariant forall j :: i <= j < timeline.Length ==> timeline[j] == old(timeline[j])
    {
      if timeline[i] == Unset {
        timeline[i] := Filled(OffDuty);
      }
    }
  }

  /** Sorts the entries by start slot, paints each one's slots in that order
      so that later entries overwrite earlier ones, then fills every slot
      still unset with off duty. */
  method CreateContinuousTimeline(entries: seq<LogEntry>) returns (timeline: array<Cell>)
    ensures timeline[..] == TimelineOf(entries)
  {
    timeline := new Cell[SlotsPerDay](_ => Unset);
    var sorted := SortByStart(entries);
    for k := 0 to |sorted|
      invariant timeline.Length == SlotsPerDay
      invariant forall i :: 0 <= i < SlotsPerDay ==> timeline[i] == PaintedCell(sorted[..k], i)
    {
      PaintEntry(timeline, sorted[k]);
      assert sorted[..k + 1][..k] == sorted[..k];
      assert sorted[..k + 1][k] == sorted[k];
    }
    assert sorted[..|sorted|] == sorted;
    FillUnset(timeline);
    assert forall i :: 0 <= i < SlotsPerDay ==> timeline[i] == TimelineOf(entries)[i];
  }

  /** No slot of a built timeline is left unset. */
  lemma TimelineIsFilled(entries: seq<LogEntry>)
    ensures |TimelineOf(entries)| == SlotsPerDay
    ensures forall i :: 0 <= i < SlotsPerDay ==> TimelineOf(entries)[i] != Unset
  {
  }

  /** A day without entries is off duty throughout. */
  lemma EmptyDayIsOffDuty()
    ensures forall i :: 0 <= i < SlotsPerDay ==> TimelineOf([])[i] == Filled(OffDuty)
  {
  }

  /** A painted bar of the log graph: start slot, signed length in slots and colour. */
  datatype DutyBar = DutyBar(startSlot: nat, duration: int, status: DutyStatus, color: string)

  /** Red for driving, green for on duty, black for the two rest statuses. */
  function StatusColor(status: DutyStatus): string {
    match status
    case Driving => "#FF0000"
    case OnDuty => "#00FF00"
    case OffDuty => "#000000"
    case SleeperBerth => "#000000"
  }

  /** The bar for one interval, measured in slots from its start to its end. */
  function CreateDutyBar(startTime: string, endTime: string, status: DutyStatus): (bar: DutyBar)
    ensures bar.startSlot == TimeToSlotIndex(startTime)
    ensures bar.startSlot + bar.duration == TimeToSlotIndex(endTime)
    ensures -(SlotsPerDay as int) <= bar.duration <= SlotsPerDay
    ensures bar.status == status && bar.color == StatusColor(status)
  {
    var startSlot := TimeToSlotIndex(startTime);
    var endSlot := TimeToSlotIndex(endTime);
    DutyBar(startSlot, endSlot - startSlot, status, StatusColor(status))
  }
}
