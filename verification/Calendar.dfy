/** util.c convert_time: seconds since 1970 to calendar fields, for whatever rule says which years
    are leap years. */
module Calendar {
  /** struct tm, with the year in full and the month from 0. */
  datatype Tm = Tm(year: int, mon: int, mday: int, hour: int, min: int, sec: int, wday: int, yday: int)

  type LeapRule = int -> bool

  const DAYS_IN_MONTH: seq<int> := [31, 28, 31, 30, 31, 30, 31, 31, 30, 31, 30, 31]

  function YearLength(leap: LeapRule, year: int): int { if leap(year) then 366 else 365 }

  function MonthLength(leap: bool, mon: int): (n: int)
    requires 0 <= mon < 12
    ensures 28 <= n <= 31
  {
    DAYS_IN_MONTH[mon] + if mon == 1 && leap then 1 else 0
  }

  /** Thirty days have April, June, September and November, February has 28 or 29, the others 31. */
  lemma {:induction false} MonthsHave(leap: bool, mon: int)
    requires 0 <= mon < 12
    ensures mon in {3, 5, 8, 10} ==> MonthLength(leap, mon) == 30
    ensures mon in {0, 2, 4, 6, 7, 9, 11} ==> MonthLength(leap, mon) == 31
    ensures mon == 1 ==> MonthLength(leap, mon) == if leap then 29 else 28
  {}

  /** Days from the start of 1970 to the start of a year. */
  function DaysBeforeYear(leap: LeapRule, year: int): (d: int)
    requires year >= 1970
    ensures d >= 365 * (year - 1970)
    decreases year
  {
    if year == 1970 then 0 else DaysBeforeYear(leap, year - 1) + YearLength(leap, year - 1)
  }

  /** Days from the start of a year to the start of a month; month 12 is the next year. */
  function DaysBeforeMonth(leap: bool, mon: int): (d: int)
    requires 0 <= mon <= 12
    ensures d >= 0
    decreases mon
  {
    if mon == 0 then 0 else DaysBeforeMonth(leap, mon - 1) + MonthLength(leap, mon - 1)
  }

  /** All fields in range for their year and month. */
  ghost predicate IsDate(leap: LeapRule, t: Tm)
  {
    && t.year >= 1970 && 0 <= t.mon < 12 && 1 <= t.mday <= MonthLength(leap(t.year), t.mon)
    && 0 <= t.hour < 24 && 0 <= t.min < 60 && 0 <= t.sec < 60
    && t.yday == DaysBeforeMonth(leap(t.year), t.mon) + t.mday - 1
    && 0 <= t.wday < 7
  }

  function DayNumber(leap: LeapRule, t: Tm): int
    requires t.year >= 1970 && 0 <= t.mon < 12
  {
    DaysBeforeYear(leap, t.year) + DaysBeforeMonth(leap(t.year), t.mon) + t.mday - 1
  }

  /** The time a date stands for. */
  function Seconds(leap: LeapRule, t: Tm): int
    requires t.year >= 1970 && 0 <= t.mon < 12
  {
    86400 * DayNumber(leap, t) + 3600 * t.hour + 60 * t.min + t.sec
  }

  lemma {:induction false} TwelveMonthsAreAYear(leap: bool)
    ensures DaysBeforeMonth(leap, 12) == if leap then 366 else 365
  {
    assert DaysBeforeMonth(leap, 3) == if leap then 91 else 90;
    assert DaysBeforeMonth(leap, 6) == DaysBeforeMonth(leap, 3) + 91;
    assert DaysBeforeMonth(leap, 9) == DaysBeforeMonth(leap, 6) + 92;
    assert DaysBeforeMonth(leap, 12) == DaysBeforeMonth(leap, 9) + 92;
  }

  /** convert_time. Every field is in range, the month search stops by December, the weekday counts
      on from a Thursday, and putting the fields together again gives back the time. */
  method ConvertTime(time: nat, leap: LeapRule) returns (t: Tm)
    ensures IsDate(leap, t) && Seconds(leap, t) == time
    ensures t.wday == (DayNumber(leap, t) + 4) % 7
  {
    var hour, min, sec := (time / 3600) % 24, (time / 60) % 60, time % 60;
    var days := time / 86400;
    var wday := (days + 4) % 7;
    Clock(time);

    var year := 1970;
    while days >= YearLength(leap, year)
      invariant year >= 1970 && days >= 0
      invariant DaysBeforeYear(leap, year) + days == time / 86400
      decreases days
    {
      days := days - YearLength(leap, year);
      year := year + 1;
    }
    var month, mday := FindMonth(leap(year), days);
    t := Tm(year, month, mday + 1, hour, min, sec, wday, days);
  }

  /** The month loop of convert_time, on the day of the year. */
  method FindMonth(leap: bool, yday: nat) returns (month: int, days: nat)
    requires yday < if leap then 366 else 365
    ensures 0 <= month < 12 && days < MonthLength(leap, month)
    ensures DaysBeforeMonth(leap, month) + days == yday
  {
    month, days := 0, yday;
    TwelveMonthsAreAYear(leap);
    while true
      invariant 0 <= month < 12 && DaysBeforeMonth(leap, month) + days == yday
      decreases days
    {
      var i := MonthLength(leap, month);
      if days < i {
        break;
      }
      assert DaysBeforeMonth(leap, month + 1) <= yday;
      days := days - i;
      month := month + 1;
    }
  }

  /** The time of day, put together again. */
  lemma {:induction false} Clock(time: nat)
    ensures 86400 * (time / 86400) + 3600 * ((time / 3600) % 24) + 60 * ((time / 60) % 60) + time % 60 == time
  {
    var m := time / 60;
    var h := m / 60;
    assert h == time / 3600;
    assert h / 24 == time / 86400;
  }

  /** One date before another, field by field. */
  predicate Before(a: Tm, b: Tm)
  {
    a.year < b.year || (a.year == b.year &&
    (a.mon < b.mon || (a.mon == b.mon &&
    (a.mday < b.mday || (a.mday == b.mday &&
    (a.hour < b.hour || (a.hour == b.hour &&
    (a.min < b.min || (a.min == b.min && a.sec < b.sec)))))))))
  }

  lemma {:induction false} YearsGrow(leap: LeapRule, a: int, b: int)
    requires 1970 <= a < b
    ensures DaysBeforeYear(leap, a) + YearLength(leap, a) <= DaysBeforeYear(leap, b)
    decreases b
  {
    if b > a + 1 { YearsGrow(leap, a, b - 1); }
  }

  lemma {:induction false} MonthsGrow(leap: bool, a: int, b: int)
    requires 0 <= a < b <= 12
    ensures DaysBeforeMonth(leap, a) + MonthLength(leap, a) <= DaysBeforeMonth(leap, b)
    decreases b
  {
    if b > a + 1 { MonthsGrow(leap, a, b - 1); }
  }

  lemma {:induction false} DayIsInItsYear(leap: LeapRule, t: Tm)
    requires IsDate(leap, t)
    ensures DaysBeforeYear(leap, t.year) <= DayNumber(leap, t) < DaysBeforeYear(leap, t.year) + YearLength(leap, t.year)
  {
    MonthFits(leap(t.year), t.mon);
  }

  lemma {:induction false} MonthFits(leap: bool, mon: int)
    requires 0 <= mon < 12
    ensures DaysBeforeMonth(leap, mon) + MonthLength(leap, mon) <= if leap then 366 else 365
  {
    MonthsGrow(leap, mon, 12);
    TwelveMonthsAreAYear(leap);
  }

  /** An earlier day stands for an earlier day number. */
  lemma {:induction false} DaysGrow(leap: LeapRule, a: Tm, b: Tm)
    requires IsDate(leap, a) && IsDate(leap, b)
    requires a.year < b.year || (a.year == b.year && (a.mon < b.mon || (a.mon == b.mon && a.mday < b.mday)))
    ensures DayNumber(leap, a) < DayNumber(leap, b)
  {
    if a.year < b.year {
      DayIsInItsYear(leap, a);
      DayIsInItsYear(leap, b);
      YearsGrow(leap, a.year, b.year);
    } else if a.mon < b.mon {
      MonthsGrow(leap(a.year), a.mon, b.mon);
    }
  }

  /** Dates are in order exactly as their times are, so convert_time is strictly monotone and its
      result is the only date for its time. */
  lemma {:induction false} OrderIsKept(leap: LeapRule, a: Tm, b: Tm)
    requires IsDate(leap, a) && IsDate(leap, b)
    ensures Before(a, b) <==> Seconds(leap, a) < Seconds(leap, b)
  {
    if Before(a, b) {
      BeforeIsLess(leap, a, b);
    } else if Before(b, a) {
      BeforeIsLess(leap, b, a);
    }
  }

  lemma {:induction false} BeforeIsLess(leap: LeapRule, a: Tm, b: Tm)
    requires IsDate(leap, a) && IsDate(leap, b) && Before(a, b)
    ensures Seconds(leap, a) < Seconds(leap, b)
  {
    if a.year != b.year || a.mon != b.mon || a.mday != b.mday { DaysGrow(leap, a, b); }
  }

  // ---- The rule as it is written --------------------------------------------------

  /** is_leap as written: the first remainder test answers for every year that is no multiple of
      400, and for the others the function ends without an answer. */
  ghost predicate AsWritten(leap: LeapRule) { forall y | y % 400 != 0 :: leap(y) }

  function Gregorian(year: int): bool { year % 4 == 0 && (year % 100 != 0 || year % 400 == 0) }

  /** From 1971 on, the written rule has put more days into the years before than there were. */
  lemma {:induction false} WrittenYearsRunAhead(leap: LeapRule, year: int)
    requires AsWritten(leap) && year >= 1971
    ensures DaysBeforeYear(leap, year) >= DaysBeforeYear(Gregorian, year) + if year % 2 == 0 then 2 else 1
    decreases year
  {
    var y := year - 1;
    if y > 1970 { WrittenYearsRunAhead(leap, y); }
    assert y % 400 != 0 ==> leap(y);
    assert y % 2 == 1 ==> y % 400 != 0 && !Gregorian(y);
    assert DaysBeforeYear(leap, year) == DaysBeforeYear(leap, y) + YearLength(leap, y);
    assert DaysBeforeYear(Gregorian, year) == DaysBeforeYear(Gregorian, y) + YearLength(Gregorian, y);
  }

  lemma {:induction false} LeapDayShifts(mon: int)
    requires 0 <= mon <= 12
    ensures DaysBeforeMonth(true, mon) == DaysBeforeMonth(false, mon) + if mon >= 2 then 1 else 0
    decreases mon
  {
    if mon > 0 { LeapDayShifts(mon - 1); }
  }

  /** With the rule as written, the date convert_time gives for a time is the right one exactly
      until the end of February 1970. */
  lemma {:induction false} WrittenRuleIsRightIff(leap: LeapRule, t: Tm)
    requires AsWritten(leap) && IsDate(leap, t)
    ensures IsDate(Gregorian, t) && Seconds(Gregorian, t) == Seconds(leap, t) <==> Seconds(leap, t) < 59 * 86400
  {
    LeapDayShifts(t.mon);
    if t.year >= 1971 {
      WrittenYearsRunAhead(leap, t.year);
      assert DayNumber(leap, t) >= 365;
    } else {
      assert leap(1970) && !Gregorian(1970);
      assert t.mon == 0 ==> DaysBeforeMonth(true, 0) == 0;
      assert t.mon == 1 ==> DaysBeforeMonth(true, 1) == 31;
      if t.mon >= 2 { MonthsReach(t.mon); }
    }
  }

  lemma {:induction false} MonthsReach(mon: int)
    requires 2 <= mon <= 12
    ensures DaysBeforeMonth(true, mon) >= 60
  {
    assert DaysBeforeMonth(true, 2) == 60;
    if mon > 2 { MonthsGrow(true, 2, mon); }
  }
}
