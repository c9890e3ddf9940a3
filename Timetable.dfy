/**
 * The weekly prayer timetable of the namaz page (script.js, the
 * DOMContentLoaded handler at the end of the file).  The host clock is not
 * read: the zero-based month and the host weekday index (0 = Sunday) are
 * parameters, and the output is a season label plus seven row records
 * instead of HTML.
 */
module Timetable {
  import opened Options

  /** The five daily prayer times of one kind of day, as wall-clock strings. */
  datatype PrayerTimes = PrayerTimes(fajr: string, dhuhr: string, asr: string, maghrib: string, isha: string)

  /** A seasonal schedule: the set used Saturday to Thursday and the Friday set. */
  datatype Schedule = Schedule(default: PrayerTimes, friday: PrayerTimes)

  /** One rendered table row: the day, its times and whether it gets the `today` class. */
  datatype Row = Row(day: string, times: PrayerTimes, isToday: bool)

  /** What the page shows: the season indicator text and the table body. */
  datatype Table = Table(season: string, rows: seq<Row>)

  const SummerSchedule := Schedule(
    PrayerTimes("4:15 AM", "1:30 PM", "5:15 PM", "7:15 PM", "8:45 PM"),
    PrayerTimes("4:15 AM", "1:45 PM", "5:15 PM", "7:15 PM", "8:45 PM"))

  const WinterSchedule := Schedule(
    PrayerTimes("5:45 AM", "1:30 PM", "4:00 PM", "5:30 PM", "7:30 PM"),
    PrayerTimes("5:45 AM", "2:00 PM", "4:00 PM", "5:30 PM", "7:30 PM"))

  const SummerLabel := "Summer Schedule (April - September)"
  const WinterLabel := "Winter Schedule (October - March)"

  /** The table's row order, Monday first. */
  const DaysOfWeek: seq<string> := ["Monday", "Tuesday", "Wednesday", "Thursday", "Friday", "Saturday", "Sunday"]

  /** The host's weekday order, Sunday first (the table inside `getDayName`). */
  const HostDays: seq<string> := ["Sunday", "Monday", "Tuesday", "Wednesday", "Thursday", "Friday", "Saturday"]

  /** Position of Friday in `DaysOfWeek`. */
  const FridayRow := 4

  /** The schedule and label in force for a zero-based month. */
  function SeasonFor(month: int): (r: (Schedule, string))
    ensures r.0 == SummerSchedule <==> 3 <= month <= 8
    ensures r.0 == WinterSchedule <==> !(3 <= month <= 8)
    ensures r.1 == SummerLabel <==> 3 <= month <= 8
    ensures r.1 == WinterLabel <==> !(3 <= month <= 8)
  {
    var isSummer := month >= 3 && month <= 8;
    (if isSummer then SummerSchedule else WinterSchedule,
     if isSummer then SummerLabel else WinterLabel)
  }

  /**
   * `getDayName`: the host weekday index to a day name.  An index outside
   * 0..6 reads past the array and gives `undefined`, here `None`.  The name
   * found is the one at the shifted position of the Monday-first table.
   */
  function DayName(index: int): (r: Option<string>)
    ensures r.Some? <==> 0 <= index < 7
    ensures r.Some? ==> r.value == DaysOfWeek[(index + 6) % 7]
  {
    if 0 <= index < |HostDays| then Some(HostDays[index]) else None
  }

  /** The row the loop emits for one day. */
  function RowFor(s: Schedule, day: string, today: Option<string>): Row
  {
    var isFriday := day == "Friday";
    Row(day, if isFriday then s.friday else s.default, Some(day) == today)
  }

  /** Specification of the row-building loop: one row per day of `DaysOfWeek`. */
  function WeekRows(s: Schedule, today: Option<string>): seq<Row>
  {
    seq(|DaysOfWeek|, i requires 0 <= i < |DaysOfWeek| => RowFor(s, DaysOfWeek[i], today))
  }

  /** The whole rendering, as a value. */
  function TableFor(month: int, weekday: int): Table
  {
    var (schedule, name) := SeasonFor(month);
    Table(name, WeekRows(schedule, DayName(weekday)))
  }

  /** The `daysOfWeek.forEach` loop that appends one row per day. */
  method BuildRows(s: Schedule, today: Option<string>) returns (rows: seq<Row>)
    ensures rows == WeekRows(s, today)
  {
    rows := [];
    for i := 0 to |DaysOfWeek|
      invariant rows == WeekRows(s, today)[..i]
    {
      var day := DaysOfWeek[i];
      var isFriday := day == "Friday";
      var times := if isFriday then s.friday else s.default;
      var isToday := Some(day) == today;
      rows := rows + [Row(day, times, isToday)];
    }
  }

  /** The page handler: season choice, today's name, then the rows. */
  method Render(month: int, weekday: int) returns (t: Table)
    ensures t == TableFor(month, weekday)
  {
    var isSummer := month >= 3 && month <= 8;
    var schedule := if isSummer then SummerSchedule else WinterSchedule;
    var seasonName := if isSummer then SummerLabel else WinterLabel;
    var currentDayName := DayName(weekday);
    var rows := BuildRows(schedule, currentDayName);
    t := Table(seasonName, rows);
  }

  /** Seven rows, in Monday-to-Sunday order, whatever the schedule and today. */
  lemma RowsInWeekOrder(s: Schedule, today: Option<string>)
    ensures |WeekRows(s, today)| == 7
    ensures forall i :: 0 <= i < 7 ==> WeekRows(s, today)[i].day == DaysOfWeek[i]
  {
  }

  /** The Friday row carries the Friday set, every other row the default set. */
  lemma FridayRowUsesFridayTimes(s: Schedule, today: Option<string>)
    ensures WeekRows(s, today)[FridayRow].day == "Friday"
    ensures WeekRows(s, today)[FridayRow].times == s.friday
    ensures forall i :: 0 <= i < 7 && i != FridayRow ==> WeekRows(s, today)[i].times == s.default
  {
  }

  /**
   * For a host weekday index in 0..6 exactly one row is flagged today: the
   * row at position (index + 6) % 7, whose day is `DayName(index)`.
   */
  lemma ExactlyOneRowToday(s: Schedule, weekday: int)
    requires 0 <= weekday < 7
    ensures var rows := WeekRows(s, DayName(weekday));
      forall i :: 0 <= i < 7 ==> (rows[i].isToday <==> i == (weekday + 6) % 7)
    ensures WeekRows(s, DayName(weekday))[(weekday + 6) % 7].day == DayName(weekday).value
  {
  }

  /** An index the host never produces flags no row (the `undefined` day name). */
  lemma NoRowTodayOutsideWeek(s: Schedule, weekday: int)
    requires !(0 <= weekday < 7)
    ensures forall i :: 0 <= i < 7 ==> !WeekRows(s, DayName(weekday))[i].isToday
  {
  }

  /** In both seasons the Friday set differs from the default set in dhuhr alone. */
  lemma FridayDiffersOnlyInDhuhr()
    ensures SummerSchedule.friday == SummerSchedule.default.(dhuhr := "1:45 PM")
    ensures SummerSchedule.default.dhuhr == "1:30 PM"
    ensures WinterSchedule.friday == WinterSchedule.default.(dhuhr := "2:00 PM")
    ensures WinterSchedule.default.dhuhr == "1:30 PM"
  {
  }

  /** July on a Wednesday, December on a Friday, and the two season boundaries. */
  lemma WorkedExamples()
    ensures TableFor(6, 3).season == SummerLabel
    ensures TableFor(6, 3).rows[2] == Row("Wednesday", PrayerTimes("4:15 AM", "1:30 PM", "5:15 PM", "7:15 PM", "8:45 PM"), true)
    ensures !TableFor(6, 3).rows[4].isToday && TableFor(6, 3).rows[4].times.dhuhr == "1:45 PM"
    ensures TableFor(11, 5).season == WinterLabel
    ensures TableFor(11, 5).rows[4].isToday && TableFor(11, 5).rows[4].times.dhuhr == "2:00 PM"
    ensures TableFor(3, 0).season == SummerLabel && TableFor(9, 0).season == WinterLabel
    ensures TableFor(2, 0).season == WinterLabel && TableFor(8, 0).season == SummerLabel
  {
  }
}
