/** The calendar behind RAstro.to_mjd: an independent definition of the
    Julian and Gregorian calendars (leap years, month lengths, the next day)
    against which the day count of `RAstro.WholeDays` is checked. The count
    advances by exactly one from each valid date to the next one, on both
    sides of the October 1582 reform, and jumps from 4 to 15 October 1582
    as one day. */
module Calendar {
  import opened RAstro

  predicate IsJulianLeap(y: int) {
    y % 4 == 0
  }

  predicate IsGregorianLeap(y: int) {
    y % 4 == 0 && (y % 100 != 0 || y % 400 == 0)
  }

  function DaysInMonth(y: int, month: int, gregorian: bool): (n: int)
    requires 1 <= month <= 12
    ensures 28 <= n <= 31
  {
    if month == 2 then
      (if (if gregorian then IsGregorianLeap(y) else IsJulianLeap(y)) then 29 else 28)
    else if month == 4 || month == 6 || month == 9 || month == 11 then 30
    else 31
  }

  /** A date that exists in the given calendar. */
  predicate ValidDate(dt: DateTime, gregorian: bool) {
    1 <= dt.month <= 12 && 1 <= dt.mday <= DaysInMonth(dt.year, dt.month, gregorian)
  }

  /** The following calendar day at the same time of day. */
  function NextDay(dt: DateTime, gregorian: bool): (n: DateTime)
    requires ValidDate(dt, gregorian)
    ensures ValidDate(n, gregorian)
    ensures n.hour == dt.hour && n.min == dt.min && n.sec == dt.sec
    ensures Composite(n) > Composite(dt)
  {
    if dt.mday < DaysInMonth(dt.year, dt.month, gregorian) then dt.(mday := dt.mday + 1)
    else if dt.month < 12 then dt.(month := dt.month + 1, mday := 1)
    else dt.(year := dt.year + 1, month := 1, mday := 1)
  }

  /** The values of the truncated 30.6001 (m + 1) for shifted months 3..14:
      successive differences are the lengths of March .. January. */
  lemma {:induction false} MonthOffsetTable()
    ensures MonthOffset(3) == 122 && MonthOffset(4) == 153 && MonthOffset(5) == 183
    ensures MonthOffset(6) == 214 && MonthOffset(7) == 244 && MonthOffset(8) == 275
    ensures MonthOffset(9) == 306 && MonthOffset(10) == 336 && MonthOffset(11) == 367
    ensures MonthOffset(12) == 397 && MonthOffset(13) == 428 && MonthOffset(14) == 459
  {
    MonthOffsetExact(3);
    MonthOffsetExact(4);
    MonthOffsetExact(5);
    MonthOffsetExact(6);
    MonthOffsetExact(7);
    MonthOffsetExact(8);
    MonthOffsetExact(9);
    MonthOffsetExact(10);
    MonthOffsetExact(11);
    MonthOffsetExact(12);
    MonthOffsetExact(13);
    MonthOffsetExact(14);
  }

  /** The Gregorian leap-day count grows by one exactly at leap years. */
  lemma {:induction false} GregorianLeapStep(y: int)
    ensures GregorianLeapDays(y) - GregorianLeapDays(y - 1) == if IsGregorianLeap(y) then 1 else 0
  {
    DivStep4(y);
    DivStep100(y);
    DivStep400(y);
    if y % 100 == 0 {
      assert y == 4 * (25 * (y / 100));
    }
    if y % 400 == 0 {
      assert y == 100 * (4 * (y / 400));
    }
  }

  /** The Julian leap-day count grows by one exactly at leap years. */
  lemma {:induction false} JulianLeapStep(y: int)
    ensures JulianLeapDays(y) - JulianLeapDays(y - 1) == if IsJulianLeap(y) then 1 else 0
  {
    DivStep4(y + 4716);
    assert y + 4716 == y + 4 * 1179;
  }

  lemma DivStep4(y: int)
    ensures y / 4 - (y - 1) / 4 == if y % 4 == 0 then 1 else 0
  {
  }

  lemma DivStep100(y: int)
    ensures y / 100 - (y - 1) / 100 == if y % 100 == 0 then 1 else 0
  {
  }

  lemma DivStep400(y: int)
    ensures y / 400 - (y - 1) / 400 == if y % 400 == 0 then 1 else 0
  {
  }

  /** The day count without the leap days: 365 a year and the month offset. */
  function PlainDays(dt: DateTime): int {
    365 * ShiftedYearMonth(dt).0 - 679004 + MonthOffset(ShiftedYearMonth(dt).1) + dt.mday
  }

  /** Without the leap days, the next day counts one more; only from the last
      day of a 29-day February to 1 March does it count the same, and there
      the shifted year moves on by one. */
  lemma {:induction false} PlainDaysStep(dt: DateTime, gregorian: bool)
    requires ValidDate(dt, gregorian)
    ensures var n := NextDay(dt, gregorian);
      if dt.month == 2 && n.month == 3
      then PlainDays(n) == PlainDays(dt) + 1 - (if DaysInMonth(dt.year, 2, gregorian) == 29 then 1 else 0)
           && ShiftedYearMonth(n).0 == ShiftedYearMonth(dt).0 + 1
      else PlainDays(n) == PlainDays(dt) + 1 && ShiftedYearMonth(n).0 == ShiftedYearMonth(dt).0
  {
    var n := NextDay(dt, gregorian);
    var y := dt.year;
    if dt.mday < DaysInMonth(y, dt.month, gregorian) {
      assert ShiftedYearMonth(n) == ShiftedYearMonth(dt);
    } else if dt.month == 12 {
      assert ShiftedYearMonth(dt) == (y, 12) && ShiftedYearMonth(n) == (y, 13);
      MonthOffsetStep(12);
    } else if dt.month == 1 {
      assert ShiftedYearMonth(dt) == (y - 1, 13) && ShiftedYearMonth(n) == (y - 1, 14);
      MonthOffsetStep(13);
    } else if dt.month == 2 {
      assert ShiftedYearMonth(dt) == (y - 1, 14) && ShiftedYearMonth(n) == (y, 3);
      MonthOffsetTable();
    } else {
      assert ShiftedYearMonth(dt) == (y, dt.month) && ShiftedYearMonth(n) == (y, dt.month + 1);
      MonthOffsetStep(dt.month);
    }
  }

  /** Between the first days of successive shifted months the offset grows
      by the length of the earlier month (March .. January). */
  lemma {:induction false} MonthOffsetStep(m: int)
    requires 3 <= m <= 13
    ensures MonthOffset(m + 1) - MonthOffset(m) == if m == 4 || m == 6 || m == 9 || m == 11 then 30 else 31
  {
    MonthOffsetTable();
  }

  /** After the reform, the day count of the next day is one more. */
  lemma {:induction false} NextDayGregorian(dt: DateTime)
    requires ValidDate(dt, true)
    requires Composite(dt) > 15821004
    ensures WholeDays(NextDay(dt, true)) == WholeDays(dt) + 1
    ensures 0 <= dt.hour < 24 && 0 <= dt.min < 60 && 0 <= dt.sec < 60 ==>
      ToMjd(NextDay(dt, true)) == ToMjd(dt) + 1.0
  {
    var n := NextDay(dt, true);
    CutoverTest(dt);
    CutoverTest(n);
    PlainDaysStep(dt, true);
    var y := ShiftedYearMonth(dt).0;
    assert WholeDays(dt) == PlainDays(dt) + GregorianLeapDays(y);
    assert WholeDays(n) == PlainDays(n) + GregorianLeapDays(ShiftedYearMonth(n).0);
    if dt.month == 2 && n.month == 3 {
      GregorianLeapStep(y + 1);
      assert y + 1 == dt.year;
    }
  }

  /** Up to the reform, the day count of the next day is one more. */
  lemma {:induction false} NextDayJulian(dt: DateTime)
    requires ValidDate(dt, false)
    requires Composite(NextDay(dt, false)) <= 15821004
    ensures WholeDays(NextDay(dt, false)) == WholeDays(dt) + 1
    ensures 0 <= dt.hour < 24 && 0 <= dt.min < 60 && 0 <= dt.sec < 60 ==>
      ToMjd(NextDay(dt, false)) == ToMjd(dt) + 1.0
  {
    var n := NextDay(dt, false);
    CutoverTest(dt);
    CutoverTest(n);
    PlainDaysStep(dt, false);
    var y := ShiftedYearMonth(dt).0;
    assert WholeDays(dt) == PlainDays(dt) + JulianLeapDays(y);
    assert WholeDays(n) == PlainDays(n) + JulianLeapDays(ShiftedYearMonth(n).0);
    if dt.month == 2 && n.month == 3 {
      JulianLeapStep(y + 1);
      assert y + 1 == dt.year;
    }
  }

  /** From 28 February to 1 March at the same time of day the MJD grows by 2
      in a Gregorian leap year and by 1 otherwise. */
  lemma {:induction false} FebruaryToMarch(y: int, hour: int, min: int, sec: int)
    requires y >= 1583
    ensures var feb28 := DateTime(y, 2, 28, hour, min, sec);
      var mar1 := DateTime(y, 3, 1, hour, min, sec);
      ToMjd(mar1) - ToMjd(feb28) == if IsGregorianLeap(y) then 2.0 else 1.0
  {
    var feb28 := DateTime(y, 2, 28, hour, min, sec);
    var mar1 := DateTime(y, 3, 1, hour, min, sec);
    MonthOffsetTable();
    CutoverTest(feb28);
    CutoverTest(mar1);
    GregorianLeapStep(y);
    assert WholeDays(mar1) - WholeDays(feb28) == if IsGregorianLeap(y) then 2 else 1;
  }

  /** Thursday 4 October 1582 (Julian) is followed by Friday 15 October 1582
      (Gregorian): the count moves by one day across the reform. */
  lemma {:induction false} CalendarCutover()
    ensures WholeDays(DateTime(1582, 10, 4, 0, 0, 0)) == -100841
    ensures WholeDays(DateTime(1582, 10, 15, 0, 0, 0)) == -100840
  {
    MonthOffsetTable();
    CutoverTest(DateTime(1582, 10, 4, 0, 0, 0));
    CutoverTest(DateTime(1582, 10, 15, 0, 0, 0));
  }
}
