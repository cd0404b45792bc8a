/** The automatic shift rule: the shift selector is preset from the hour of
    the local clock (app.js, determinarTurnoAutomatico). */
module Shifts {

  const T1: string := "T1"
  const T2: string := "T2"

  /** The two shift names are different texts. */
  lemma ShiftsDiffer()
    ensures T1 != T2
  {
    assert T1[1] != T2[1];
  }

  /** T1 covers 00:00-13:59 and T2 covers 14:00-23:59; an hour outside the
      day leaves the selector untouched, modelled as the empty string. */
  function ShiftForHour(hour: int): (s: string)
    ensures s == T1 <==> 0 <= hour < 14
    ensures s == T2 <==> 14 <= hour < 24
    ensures s == "" <==> !(0 <= hour < 24)
  {
    if 0 <= hour < 14 then T1
    else if 14 <= hour < 24 then T2
    else ""
  }

  /** Every hour of the day falls in exactly one shift, and the day is
      split once: no hour after a T2 hour is a T1 hour again. */
  lemma ShiftPartitionsDay(h1: int, h2: int)
    requires 0 <= h1 <= h2 < 24
    ensures ShiftForHour(h1) in {T1, T2}
    ensures ShiftForHour(h1) == T2 ==> ShiftForHour(h2) == T2
    ensures ShiftForHour(h2) == T1 ==> ShiftForHour(h1) == T1
  {
  }

  /** The boundary hours: 13 is still T1, 14 already T2. */
  lemma ShiftBoundaries()
    ensures ShiftForHour(0) == T1 && ShiftForHour(13) == T1
    ensures ShiftForHour(14) == T2 && ShiftForHour(23) == T2
  {
  }
}
