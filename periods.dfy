/** The record selections of the four reports (app.js, generarReporteDiario,
    generarReporteSemanal, generarReporteMensual, generarReporteAnual). */
module Periods {
  import opened Records
  import opened Sequences
  import opened Weeks

  /** What the browser's date library yields for a stored date text: its
      year, the number of days since 1 January of that year and the weekday
      of that 1 January (Sunday = 0). An unparseable text yields None. */
  datatype CalendarDay = CalendarDay(year: int, daysSinceJan1: int, jan1Weekday: int)

  /** The period a report covers, as entered in the report form. */
  datatype Period =
    | Daily(day: string)              // "YYYY-MM-DD"
    | Weekly(weekYear: int, week: int) // year and week number of "YYYY-Www"
    | Monthly(month: string)          // "YYYY-MM"
    | Annual(yearText: string)        // the year as typed

  /** An empty selection field: the report is not produced at all. */
  predicate SelectionMissing(p: Period)
  {
    match p
    case Daily(day) => day == []
    case Monthly(month) => month == []
    case Annual(yearText) => yearText == []
    case Weekly(_, _) => false
  }

  /** Whether a record belongs to the period: same date, same date prefix,
      or same calendar year and same week number. */
  predicate InPeriod(p: Period, calendar: string -> Option<CalendarDay>, w: Work)
  {
    match p
    case Daily(day) => w.date == day
    case Monthly(month) => month <= w.date
    case Annual(yearText) => yearText <= w.date
    case Weekly(year, week) =>
      var c := calendar(w.date);
      c.Some? && c.value.year == year && WeekNumber(c.value.daysSinceJan1, c.value.jan1Weekday) == week
  }

  /** The records of the period, in stored order, each as often as stored. */
  function Select(rs: seq<Work>, p: Period, calendar: string -> Option<CalendarDay>): (r: seq<Work>)
    ensures IsSubsequence(r, rs)
    ensures forall w :: multiset(r)[w] == if InPeriod(p, calendar, w) then multiset(rs)[w] else 0
  {
    var keep := (w: Work) => InPeriod(p, calendar, w);
    FilterIsSubsequence(rs, keep);
    Filter(rs, keep)
  }

  /** Every record of a day's report is in the report of a month that
      is a prefix of that day. */
  lemma DayWithinMonth(rs: seq<Work>, day: string, month: string, calendar: string -> Option<CalendarDay>)
    requires month <= day
    ensures forall w :: w in Select(rs, Daily(day), calendar) ==> w in Select(rs, Monthly(month), calendar)
  {
  }
}
