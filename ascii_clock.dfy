/**
 * The calendar of the ASCII clock firmware: the Gregorian leap-year rule,
 * the month lengths and the one-second tick that carries over into minutes,
 * hours, days, months and years, kept in a global date-time record that the
 * tick updates field by field.
 */
module AsciiClock {

  /**
   * Gregorian rule. C's `%` truncates towards zero and Dafny's does not, but
   * the two agree on whether the remainder is zero, which is all that is used.
   */
  predicate IsLeapYear(y: int) {
    (y % 4 == 0 && y % 100 != 0) || y % 400 == 0
  }

  /** The leap rule repeats every 400 years; 2000 and 2024 are leap years, 1900 and 2100 are not. */
  lemma LeapYearCycle(y: int)
    ensures IsLeapYear(y + 400) == IsLeapYear(y)
    ensures IsLeapYear(2000) && IsLeapYear(2024) && !IsLeapYear(1900) && !IsLeapYear(2100)
  {
    assert (y + 400) % 4 == y % 4 && (y + 400) % 100 == y % 100 && (y + 400) % 400 == y % 400;
  }

  /** The fixed month table, February as 28. */
  function MonthTable(m: int): (d: int)
    requires 1 <= m <= 12
    ensures d == 28 <==> m == 2
    ensures d == 30 <==> m in {4, 6, 9, 11}
  {
    [31, 28, 31, 30, 31, 30, 31, 31, 30, 31, 30, 31][m - 1]
  }

  function DaysInMonth(m: int, y: int): (d: int)
    requires 1 <= m <= 12
    ensures 28 <= d <= 31
    ensures d == 29 <==> m == 2 && IsLeapYear(y)
    ensures m == 2 && !IsLeapYear(y) ==> d == 28
    ensures !(m == 2 && IsLeapYear(y)) ==> d == MonthTable(m)
    ensures d == 31 <==> m in {1, 3, 5, 7, 8, 10, 12}
  {
    if m == 2 && IsLeapYear(y) then 29 else MonthTable(m)
  }

  /** C's `a % 7`: the remainder takes the sign of the dividend. */
  function CRemainder7(a: int): (r: int)
    ensures -7 < r < 7 && (a - r) % 7 == 0
    ensures a >= 0 ==> r == a % 7
  {
    if a >= 0 then a % 7 else -((-a) % 7)
  }

  /** The fields of datetime_t. */
  datatype DateTime = DateTime(year: int, month: int, day: int, dotw: int, hour: int, minute: int, second: int)

  /** A date-time the clock can show. */
  predicate ValidDateTime(t: DateTime) {
    && 1 <= t.month <= 12
    && 1 <= t.day <= DaysInMonth(t.month, t.year)
    && 0 <= t.dotw < 7
    && 0 <= t.hour < 24
    && 0 <= t.minute < 60
    && 0 <= t.second < 60
  }

  /**
   * The state after tick_time: the next second with carries, dotw advancing
   * with the day.
   */
  function NextSecond(t: DateTime): (n: DateTime)
    requires 1 <= t.month <= 12
    ensures 0 <= t.second < 60 ==> n.second == (t.second + 1) % 60
    ensures n.second != 0 ==> n == t.(second := t.second + 1)
    ensures n.year != t.year ==> n.year == t.year + 1 && n.month == 1 && n.day == 1
  {
    if t.second + 1 < 60 then t.(second := t.second + 1)
    else if t.minute + 1 < 60 then t.(second := 0, minute := t.minute + 1)
    else if t.hour + 1 < 24 then t.(second := 0, minute := 0, hour := t.hour + 1)
    else
      var t1 := t.(second := 0, minute := 0, hour := 0, day := t.day + 1, dotw := CRemainder7(t.dotw + 1));
      if t1.day <= DaysInMonth(t.month, t.year) then t1
      else if t.month + 1 <= 12 then t1.(day := 1, month := t.month + 1)
      else t1.(day := 1, month := 1, year := t.year + 1)
  }

  /** Days in the months of year y before month m. */
  function DaysBeforeMonth(m: int, y: int): (d: int)
    requires 1 <= m <= 13
    ensures 0 <= d <= 31 * (m - 1)
  {
    if m == 1 then 0 else DaysBeforeMonth(m - 1, y) + DaysInMonth(m - 1, y)
  }

  function DaysInYear(y: int): int {
    if IsLeapYear(y) then 366 else 365
  }

  /** A month ends inside its year: the days before it and its own days make at most the year. */
  lemma {:induction false} MonthInsideYear(m: int, y: int)
    requires 1 <= m <= 12
    ensures DaysBeforeMonth(m, y) + DaysInMonth(m, y) <= DaysInYear(y)
    decreases 12 - m
  {
    if m == 12 {
      DaysBeforeEndOfYear(y);
    } else {
      MonthInsideYear(m + 1, y);
    }
  }

  lemma DaysBeforeEndOfYear(y: int)
    ensures DaysBeforeMonth(13, y) == DaysInYear(y)
  {
    var feb := DaysInMonth(2, y);
    assert DaysBeforeMonth(3, y) == 31 + feb;
    assert DaysBeforeMonth(5, y) == 92 + feb;
    assert DaysBeforeMonth(7, y) == 153 + feb;
    assert DaysBeforeMonth(9, y) == 215 + feb;
    assert DaysBeforeMonth(11, y) == 276 + feb;
    assert DaysBeforeMonth(13, y) == 337 + feb;
  }

  /** The second of the year a date-time names, counted from 1 January 00:00:00. */
  function SecondOfYear(t: DateTime): (s: int)
    requires ValidDateTime(t)
    ensures 0 <= s < DaysInYear(t.year) * 86400
  {
    MonthInsideYear(t.month, t.year);
    ((DaysBeforeMonth(t.month, t.year) + t.day - 1) * 24 + t.hour) * 3600 + t.minute * 60 + t.second
  }

  /** The tick does not leave the calendar. */
  lemma NextSecondValid(t: DateTime)
    requires ValidDateTime(t)
    ensures ValidDateTime(NextSecond(t))
  {
  }

  /**
   * The tick is one second later: within the year the second of the year
   * grows by one; at the last second of the year the year advances and the
   * count starts again.
   */
  lemma NextSecondIsOneLater(t: DateTime)
    requires ValidDateTime(t)
    ensures NextSecond(t).year == t.year ==> SecondOfYear(NextSecond(t)) == SecondOfYear(t) + 1
    ensures NextSecond(t).year != t.year ==>
      NextSecond(t).year == t.year + 1 && SecondOfYear(NextSecond(t)) == 0
      && SecondOfYear(t) == DaysInYear(t.year) * 86400 - 1
  {
    var n := NextSecond(t);
    if t.second + 1 == 60 && t.minute + 1 == 60 && t.hour + 1 == 24 && t.day + 1 > DaysInMonth(t.month, t.year) {
      if t.month < 12 {
        assert DaysBeforeMonth(t.month + 1, t.year) == DaysBeforeMonth(t.month, t.year) + DaysInMonth(t.month, t.year);
      } else {
        DaysBeforeEndOfYear(t.year);
      }
    }
  }

  /** Below 59 seconds only the seconds field changes, by one. */
  lemma NextSecondWithinMinute(t: DateTime)
    requires 1 <= t.month <= 12 && t.second < 59
    ensures NextSecond(t) == t.(second := t.second + 1)
  {
  }

  /** dotw advances by one, modulo 7, exactly when the hour wraps from 23 to 0. */
  lemma NextSecondDayOfWeek(t: DateTime)
    requires ValidDateTime(t)
    ensures NextSecond(t).dotw == if t.hour == 23 && t.minute == 59 && t.second == 59 then (t.dotw + 1) % 7 else t.dotw
    ensures NextSecond(t).hour == 0 && t.hour == 23 <==> t.hour == 23 && t.minute == 59 && t.second == 59
  {
  }

  /** The year changes only when 31 December 23:59:59 becomes 1 January 00:00:00. */
  lemma NextSecondNewYear(t: DateTime)
    requires ValidDateTime(t)
    ensures NextSecond(t).year != t.year <==>
      t.month == 12 && t.day == 31 && t.hour == 23 && t.minute == 59 && t.second == 59
    ensures NextSecond(t).year != t.year ==>
      var n := NextSecond(t); n.year == t.year + 1 && n.month == 1 && n.day == 1 && n.hour == 0 && n.minute == 0 && n.second == 0
  {
  }

  /** The six digit indices display_clock looks up in the DIGITS table. */
  function ClockDigits(t: DateTime): (d: seq<int>)
    requires ValidDateTime(t)
    ensures |d| == 6
    ensures forall i :: 0 <= i < 6 ==> 0 <= d[i] <= 9
    ensures d[0] <= 2 && d[2] <= 5 && d[4] <= 5
    ensures d[0] * 10 + d[1] == t.hour && d[2] * 10 + d[3] == t.minute && d[4] * 10 + d[5] == t.second
  {
    [t.hour / 10, t.hour % 10, t.minute / 10, t.minute % 10, t.second / 10, t.second % 10]
  }

  /** current_time, changed in place by init_time and tick_time. */
  class Clock {
    var year: int
    var month: int
    var day: int
    var dotw: int
    var hour: int
    var minute: int
    var second: int
    var timeSynced: bool

    function Now(): DateTime
      reads this
    {
      DateTime(year, month, day, dotw, hour, minute, second)
    }

    /** init_time: the manual fallback sets all fields at once. */
    constructor Init(y: int, m: int, d: int, w: int, h: int, mi: int, s: int)
      ensures Now() == DateTime(y, m, d, w, h, mi, s) && !timeSynced
    {
      year, month, day, dotw, hour, minute, second := y, m, d, w, h, mi, s;
      timeSynced := false;
    }

    /**
     * tick_time: increment the seconds and return early unless they carry,
     * and the same for minutes and hours; a new day advances dotw, and past
     * the month's last day the month (and possibly the year) advances.
     */
    method Tick()
      requires 1 <= month <= 12
      modifies this
      ensures Now() == NextSecond(old(Now())) && timeSynced == old(timeSynced)
      ensures old(ValidDateTime(Now())) ==> ValidDateTime(Now())
    {
      ghost var t := Now();
      if ValidDateTime(t) {
        NextSecondValid(t);
      }
      second := second + 1;
      if second < 60 {
        assert Now() == NextSecond(t);
        return;
      }
      second := 0;
      minute := minute + 1;
      if minute < 60 {
        assert Now() == NextSecond(t);
        return;
      }
      minute := 0;
      hour := hour + 1;
      if hour < 24 {
        assert Now() == NextSecond(t);
        return;
      }
      hour := 0;
      day := day + 1;
      dotw := CRemainder7(dotw + 1);
      if day > DaysInMonth(month, year) {
        day := 1;
        month := month + 1;
        if month > 12 {
          month := 1;
          year := year + 1;
        }
      }
      assert Now() == NextSecond(t);
    }

    /** timestamp_to_datetime: the broken-down time comes from libc gmtime. */
    method SetFromNtp(broken: DateTime)
      modifies this
      ensures Now() == broken && timeSynced
    {
      year, month, day, dotw := broken.year, broken.month, broken.day, broken.dotw;
      hour, minute, second := broken.hour, broken.minute, broken.second;
      timeSynced := true;
    }
  }

  /**
   * The manual start time of main: 1 February 2026, 10:48:00, with dotw 6.
   * In the tm_wday numbering the clock takes from gmtime (0 is Sunday), 6 is
   * Saturday, although 1 February 2026 is a Sunday: the fallback's day of
   * the week is one off, and display_clock prints it as "(Day 6)".
   */
  lemma ManualStartValid()
    ensures ValidDateTime(DateTime(2026, 2, 1, 6, 10, 48, 0))
  {
  }
}
