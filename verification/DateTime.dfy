/** Calendar time: the arithmetic that turns a date into seconds where the C library has no
    function for it, against the Gregorian calendar counted day by day. */
module DateTime {
  const INVALID: int := -1
  /** A date without a time zone. */
  const TIMEZONE_NONE: int := -0x8000_0000

  datatype Date = Date(year: int, month: int, day: int, hour: int, minute: int, second: int)

  // ---------- The calendar, counted ----------

  predicate IsLeap(year: int) {
    year % 4 == 0 && (year % 100 != 0 || year % 400 == 0)
  }

  function YearLength(year: int): nat {
    if IsLeap(year) then 366 else 365
  }

  function MonthLength(year: int, month: int): nat
    requires 1 <= month <= 12
  {
    if month == 2 then if IsLeap(year) then 29 else 28
    else if month == 4 || month == 6 || month == 9 || month == 11 then 30
    else 31
  }

  /** Days from the first of January 1970 to that of another year. */
  function DaysToYear(year: int): int
    decreases if year < 1970 then 1970 - year else year - 1970
  {
    if year == 1970 then 0
    else if year > 1970 then DaysToYear(year - 1) + YearLength(year - 1)
    else DaysToYear(year + 1) - YearLength(year)
  }

  function DaysToMonth(year: int, month: int): nat
    requires 1 <= month <= 12
    decreases month
  {
    if month == 1 then 0 else DaysToMonth(year, month - 1) + MonthLength(year, month - 1)
  }

  predicate IsDate(d: Date) {
    && 1 <= d.month <= 12 && 1 <= d.day <= MonthLength(d.year, d.month)
    && 0 <= d.hour <= 23 && 0 <= d.minute <= 59 && 0 <= d.second <= 60
  }

  function DaysTo(d: Date): int
    requires 1 <= d.month <= 12
  {
    DaysToYear(d.year) + DaysToMonth(d.year, d.month) + d.day - 1
  }

  function TimeOfDay(d: Date): int {
    (d.hour * 60 + d.minute) * 60 + d.second
  }

  /** Seconds since 1970, by the calendar. */
  function Counted(d: Date): int
    requires 1 <= d.month <= 12
  {
    DaysTo(d) * 86400 + TimeOfDay(d)
  }

  // ---------- The arithmetic of the library ----------

  /** Division as in C, towards zero. */
  function Quotient(a: int, b: int): int
    requires b > 0
  {
    if a >= 0 then a / b else -(-a / b)
  }

  const MONTH_DAYS: seq<int> := [0, 31, 59, 90, 120, 151, 181, 212, 243, 273, 304, 334]

  /** The year that the leap days are counted by: leap days come at the end of it. */
  function LeapYearOf(d: Date): int {
    d.year - if d.month <= 2 then 1 else 0
  }

  function Timegm(d: Date): int {
    if d.month < 1 || d.month > 12 || d.day < 1 || d.day > 31 || d.hour < 0 || d.hour > 23
       || d.minute < 0 || d.minute > 59 || d.second < 0 || d.second > 60 then INVALID
    else
      var year := LeapYearOf(d);
      var leapdays := (Quotient(year, 4) - Quotient(year, 100) + Quotient(year, 400))
                      - (1969 / 4 - 1969 / 100 + 1969 / 400);
      var days := (d.year - 1970) * 365 + leapdays + MONTH_DAYS[d.month - 1] + d.day - 1;
      ((days * 24 + d.hour) * 60 + d.minute) * 60 + d.second
  }

  function Mktime(d: Date, timezone: int): int {
    var t := Timegm(d);
    if t == INVALID then t else if timezone != TIMEZONE_NONE then t - timezone else t
  }

  // ---------- Leap days ----------

  /** Leap days up to the end of a year, from the end of year zero. */
  function Leaps(year: int): int {
    year / 4 - year / 100 + year / 400
  }

  lemma LeapsStep(year: int)
    ensures Leaps(year) == Leaps(year - 1) + if IsLeap(year) then 1 else 0
  {
    QuotientStep(year, 4);
    QuotientStep(year, 100);
    QuotientStep(year, 400);
    CenturiesDivide(year);
  }

  lemma CenturiesDivide(year: int)
    ensures year % 400 == 0 ==> year % 100 == 0
    ensures year % 100 == 0 ==> year % 4 == 0
  {
    if year % 400 == 0 {
      var q := MultipleOf400(year);
      HundredDivides(year, 4 * q);
    }
    if year % 100 == 0 {
      var q := MultipleOf100(year);
      FourDivides(year, 25 * q);
    }
  }

  lemma MultipleOf400(y: int) returns (q: int)
    requires y % 400 == 0
    ensures y == 400 * q
  {
    q := y / 400;
  }

  lemma MultipleOf100(y: int) returns (q: int)
    requires y % 100 == 0
    ensures y == 100 * q
  {
    q := y / 100;
  }

  lemma HundredDivides(y: int, k: int)
    requires y == 100 * k
    ensures y % 100 == 0
  {
  }

  lemma FourDivides(y: int, k: int)
    requires y == 4 * k
    ensures y % 4 == 0
  {
  }

  lemma QuotientStep(y: int, n: int)
    requires n == 4 || n == 100 || n == 400
    ensures y / n == (y - 1) / n + if y % n == 0 then 1 else 0
  {
  }

  /** Rounding towards zero loses a day before year zero, except in leap years. */
  lemma RoundedLeaps(year: int)
    ensures Quotient(year, 4) - Quotient(year, 100) + Quotient(year, 400)
            == Leaps(year) + if year < 0 && !IsLeap(year) then 1 else 0
  {
    if year < 0 {
      QuotientRounds(year, 4);
      QuotientRounds(year, 100);
      QuotientRounds(year, 400);
      CenturiesDivide(year);
    }
  }

  lemma QuotientRounds(y: int, n: int)
    requires y < 0 && (n == 4 || n == 100 || n == 400)
    ensures Quotient(y, n) == y / n + if y % n == 0 then 0 else 1
  {
  }

  lemma {:induction false} DaysToYearClosed(year: int)
    ensures DaysToYear(year) == 365 * (year - 1970) + Leaps(year - 1) - Leaps(1969)
    decreases if year < 1970 then 1970 - year else year - 1970
  {
    hide Leaps, IsLeap;
    if year > 1970 {
      DaysToYearClosed(year - 1);
      LeapsStep(year - 1);
    } else if year < 1970 {
      DaysToYearClosed(year + 1);
      LeapsStep(year);
    }
  }

  lemma DaysToMonthClosed(year: int, month: int)
    requires 1 <= month <= 12
    ensures DaysToMonth(year, month) == MONTH_DAYS[month - 1] + if month > 2 && IsLeap(year) then 1 else 0
    decreases month
  {
    hide IsLeap;
    if month > 1 {
      DaysToMonthClosed(year, month - 1);
    }
  }

  // ---------- What the arithmetic is right about ----------

  /** The arithmetic agrees with the calendar exactly if its year for leap days is not
      negative or is a leap year; otherwise it is a day ahead. */
  lemma TimegmCounts(d: Date)
    requires IsDate(d)
    ensures Timegm(d) == Counted(d) <==> LeapYearOf(d) >= 0 || IsLeap(LeapYearOf(d))
    ensures Timegm(d) == Counted(d) || Timegm(d) == Counted(d) + 86400
    ensures d.year >= 1 ==> Timegm(d) == Counted(d)
  {
    hide Leaps, IsLeap, DaysToYear, DaysToMonth, Quotient, MonthLength;
    MonthLengthBound(d.year, d.month);
    RoundedLeaps(LeapYearOf(d));
    DaysToYearClosed(d.year);
    DaysToMonthClosed(d.year, d.month);
    LeapsStep(d.year);
    Leaps1969();
  }

  /** It is the year before that counts in January and February: the first day of the leap
      year 0 is a day ahead, and that of the year -3, which is none, is right. */
  lemma DayAhead()
    ensures var d := Date(0, 1, 1, 0, 0, 0);
      IsDate(d) && IsLeap(d.year) && Timegm(d) == Counted(d) + 86400
    ensures var d := Date(-3, 1, 1, 0, 0, 0);
      IsDate(d) && !IsLeap(d.year) && Timegm(d) == Counted(d)
  {
    hide Timegm, Counted;
    TimegmCounts(Date(0, 1, 1, 0, 0, 0));
    TimegmCounts(Date(-3, 1, 1, 0, 0, 0));
  }

  lemma MonthLengthBound(year: int, month: int)
    requires 1 <= month <= 12
    ensures MonthLength(year, month) <= 31
  {
  }

  lemma Leaps1969()
    ensures Leaps(1969) == 1969 / 4 - 1969 / 100 + 1969 / 400
  {
  }

  // ---------- Order ----------

  predicate Before(a: Date, b: Date) {
    || a.year < b.year
    || (a.year == b.year && (
          || a.month < b.month
          || (a.month == b.month && (
                || a.day < b.day
                || (a.day == b.day && TimeOfDay(a) < TimeOfDay(b))))))
  }

  lemma {:induction false} YearsOrdered(a: int, b: int)
    requires a < b
    ensures DaysToYear(a) + YearLength(a) <= DaysToYear(b)
    decreases b - a
  {
    hide IsLeap;
    YearStep(b - 1);
    if a < b - 1 {
      YearsOrdered(a, b - 1);
    }
  }

  lemma YearStep(year: int)
    ensures DaysToYear(year + 1) == DaysToYear(year) + YearLength(year)
  {
    hide IsLeap;
  }

  lemma {:induction false} MonthsOrdered(year: int, a: int, b: int)
    requires 1 <= a < b <= 12
    ensures DaysToMonth(year, a) + MonthLength(year, a) <= DaysToMonth(year, b)
    decreases b - a
  {
    if a < b - 1 {
      MonthsOrdered(year, a, b - 1);
    }
  }

  lemma MonthsFitYear(year: int, month: int)
    requires 1 <= month <= 12
    ensures DaysToMonth(year, month) + MonthLength(year, month) <= YearLength(year)
  {
    DaysToMonthClosed(year, month);
  }

  /** Later dates have more seconds, leap seconds aside. */
  lemma CountedIncreases(a: Date, b: Date)
    requires IsDate(a) && IsDate(b) && a.second <= 59 && b.second <= 59 && Before(a, b)
    ensures Counted(a) < Counted(b)
  {
    hide IsLeap, MonthLength, YearLength, DaysToYear, DaysToMonth;
    if a.year < b.year {
      YearsOrdered(a.year, b.year);
      MonthsFitYear(a.year, a.month);
    } else if a.month < b.month {
      MonthsOrdered(a.year, a.month, b.month);
    }
  }

  lemma TimegmIncreases(a: Date, b: Date)
    requires IsDate(a) && IsDate(b) && a.second <= 59 && b.second <= 59 && Before(a, b) && a.year >= 1
    ensures Timegm(a) < Timegm(b)
  {
    hide Timegm, Counted, IsDate;
    TimegmCounts(a);
    TimegmCounts(b);
    CountedIncreases(a, b);
  }

  // ---------- Seconds since the epoch ----------

  /** The expression in section 4.16 of the Base Definitions of POSIX.1-2017, in terms of
      the years since 1900 and the days since the first of January. */
  function PosixSeconds(year: int, yday: int, hour: int, minute: int, second: int): int {
    second + minute * 60 + hour * 3600 + yday * 86400 + (year - 70) * 31536000
    + (year - 69) / 4 * 86400 - (year - 1) / 100 * 86400 + (year + 299) / 400 * 86400
  }

  lemma TimegmIsPosix(d: Date)
    requires IsDate(d) && d.year >= 1970
    ensures var yday := DaysToMonth(d.year, d.month) + d.day - 1;
      Timegm(d) == PosixSeconds(d.year - 1900, yday, d.hour, d.minute, d.second)
  {
    hide IsLeap, DaysToYear, DaysToMonth, MonthLength, Timegm, Leaps;
    TimegmCounts(d);
    DaysToYearClosed(d.year);
    PosixLeaps(d.year);
  }

  lemma PosixLeaps(year: int)
    requires year >= 1970
    ensures Leaps(year - 1) - Leaps(1969) == (year - 1969) / 4 - (year - 1901) / 100 + (year - 1601) / 400
  {
    assert (year - 1) / 4 == (year - 1969) / 4 + 492;
    assert (year - 1) / 100 == (year - 1901) / 100 + 19;
    assert (year - 1) / 400 == (year - 1601) / 400 + 4;
  }

  // ---------- Time zones ----------

  const LAST_OF_1969 := Date(1969, 12, 31, 23, 59, 59)

  /** The value that stands for an invalid date is also a time: that of the last second of
      1969. Its time zone is ignored, and that of no other date. */
  lemma ZoneIsApplied(d: Date, timezone: int)
    requires IsDate(d) && d.year >= 1 && timezone != TIMEZONE_NONE
    ensures Mktime(d, timezone) == Counted(d) - timezone <==> d != LAST_OF_1969 || timezone == 0
  {
    hide Timegm, Counted, IsLeap, MonthLength;
    TimegmCounts(d);
    MinusOne(d);
  }

  lemma MinusOne(d: Date)
    requires IsDate(d)
    ensures Counted(d) == -1 <==> d == LAST_OF_1969
  {
    hide IsLeap, MonthLength, DaysToYear, DaysToMonth;
    EndOf1969();
    if Counted(d) == -1 {
      assert TimeOfDay(d) == 86399 && DaysTo(d) == -1 by {
        assert 0 <= TimeOfDay(d) <= 86400;
      }
      if d.year < 1969 {
        YearsOrdered(d.year, 1969);
        MonthsFitYear(d.year, d.month);
      } else if d.year > 1969 {
        YearsOrdered(1969, d.year);
      } else if d.month < 12 {
        MonthsOrdered(1969, d.month, 12);
      }
    }
  }

  lemma EndOf1969()
    ensures DaysToYear(1969) == -365 && YearLength(1969) == 365 && DaysToMonth(1969, 12) == 334
    ensures MonthLength(1969, 12) == 31
  {
    DaysToMonthClosed(1969, 12);
    assert DaysToYear(1970) == 0;
  }

  /** An hour east of Greenwich the last second of 1969 is taken for one an hour later. */
  lemma ZoneIsLost()
    ensures IsDate(LAST_OF_1969) && Mktime(LAST_OF_1969, 3600) == -1 && Counted(LAST_OF_1969) - 3600 == -3601
  {
    MinusOne(LAST_OF_1969);
    TimegmCounts(LAST_OF_1969);
  }
}
