/** The log records shared by the timeline and the Hours-of-Service code. */
module LogTypes {

  /** The four duty statuses of a log entry. */
  datatype DutyStatus = OffDuty | SleeperBerth | Driving | OnDuty

  /** One duty interval: `HH:MM` start and end, status, place and length in hours. */
  datatype LogEntry = LogEntry(
    startTime: string,
    endTime: string,
    status: DutyStatus,
    location: string,
    duration: real)

  /** A day's hours per duty category. */
  datatype HosTotals = HosTotals(
    drivingHours: real,
    onDutyHours: real,
    offDutyHours: real,
    sleeperBerthHours: real)

  /** One day's record; the date is a day offset from the trip's start date. */
  datatype DailyLog = DailyLog(dayOffset: int, entries: seq<LogEntry>, totals: HosTotals)
}
