/** The week number of a date (app.js, obtenerNumeroSemana): the ceiling of
    (days since 1 January + weekday of 1 January + 1) / 7, weekdays counted
    from Sunday = 0. Weeks therefore run Sunday to Saturday and the week
    holding 1 January is week 1. */
module Weeks {

  function WeekNumber(days: int, jan1Weekday: int): (w: int)
    ensures 7 * (w - 1) < days + jan1Weekday + 1 <= 7 * w
  {
    var n := days + jan1Weekday + 1;
    -((-n) / 7)
  }

  /** The weekday (Sunday = 0) of the date `days` after 1 January. */
  function Weekday(days: int, jan1Weekday: int): (d: int)
    ensures 0 <= d < 7
    ensures (days + jan1Weekday - d) % 7 == 0
  {
    (days + jan1Weekday) % 7
  }

  /** 1 January is in week 1, whatever its weekday. */
  lemma NewYearIsWeekOne(jan1Weekday: int)
    requires 0 <= jan1Weekday <= 6
    ensures WeekNumber(0, jan1Weekday) == 1
  {
  }

  /** Later dates of a year never get a smaller week number. */
  lemma WeekNumberMonotone(d1: int, d2: int, jan1Weekday: int)
    requires d1 <= d2
    ensures WeekNumber(d1, jan1Weekday) <= WeekNumber(d2, jan1Weekday)
  {
  }

  /** The week number goes up by one exactly on Sundays and stays the same
      on every other day. */
  lemma {:induction false} NextDay(days: int, jan1Weekday: int)
    ensures WeekNumber(days + 1, jan1Weekday) ==
      WeekNumber(days, jan1Weekday) + (if Weekday(days + 1, jan1Weekday) == 0 then 1 else 0)
  {
    var n := days + jan1Weekday + 1;
    var q, r := n / 7, n % 7;
    assert n == 7 * q + r && 0 <= r < 7;
    assert Weekday(days + 1, jan1Weekday) == r;
    var w, w' := WeekNumber(days, jan1Weekday), WeekNumber(days + 1, jan1Weekday);
    if r == 0 {
      assert w == q && w' == q + 1;
    } else {
      assert w == q + 1 && w' == q + 1;
    }
  }

  /** Within a year (at most 366 days) the week number is between 1 and 54. */
  lemma WeekNumberRange(days: int, jan1Weekday: int)
    requires 0 <= days <= 365 && 0 <= jan1Weekday <= 6
    ensures 1 <= WeekNumber(days, jan1Weekday) <= 54
  {
  }

  /** Year-boundary values: 1 January 2024 (a Monday) is week 1; 31 December
      2024 (day 365 of a leap year) is week 53; 1 January 2025 (a Wednesday)
      is week 1 again; 31 December 2028 (leap year starting on a Saturday) is
      week 54. */
  lemma YearBoundaries()
    ensures WeekNumber(0, 1) == 1
    ensures WeekNumber(365, 1) == 53
    ensures WeekNumber(0, 3) == 1
    ensures WeekNumber(365, 6) == 54
  {
  }
}
