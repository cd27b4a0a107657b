/** epochToUTC: seconds since 1970 as a Gregorian date and a time of day. */
module Calendar {
  datatype Utc = Utc(year: int, month: int, day: int, hour: int, minute: int, second: int)

  predicate IsLeapYear(year: int) {
    (year % 4 == 0 && year % 100 != 0) || year % 400 == 0
  }

  function DaysInYear(year: int): int {
    if IsLeapYear(year) then 366 else 365
  }

  const MONTH_DAYS: seq<int> := [31, 28, 31, 30, 31, 30, 31, 31, 30, 31, 30, 31]

  function DaysInMonth(year: int, month: int): (days: int)
    requires 1 <= month <= 12
    ensures 28 <= days <= 31
  {
    if month == 2 && IsLeapYear(year) then 29 else MONTH_DAYS[month - 1]
  }

  /** Leap days in the years 1 to n, by the /4, /100, /400 rule. */
  function LeapDays(n: int): int {
    n / 4 - n / 100 + n / 400
  }

  /** Days from 1 January 1970 to 1 January of the year, in closed form. */
  function DaysBeforeYear(year: int): int {
    365 * (year - 1970) + LeapDays(year - 1) - LeapDays(1969)
  }

  const DAYS_BEFORE_MONTH: seq<int> := [0, 31, 59, 90, 120, 151, 181, 212, 243, 273, 304, 334, 365]

  /** Days from 1 January to the first of the month; month 13 stands for the end of the year. */
  function DaysBeforeMonth(year: int, month: int): int
    requires 1 <= month <= 13
  {
    DAYS_BEFORE_MONTH[month - 1] + if month > 2 && IsLeapYear(year) then 1 else 0
  }

  predicate ValidDate(u: Utc) {
    1970 <= u.year && 1 <= u.month <= 12 && 1 <= u.day <= DaysInMonth(u.year, u.month)
  }

  predicate ValidTime(u: Utc) {
    0 <= u.hour < 24 && 0 <= u.minute < 60 && 0 <= u.second < 60
  }

  function DayCount(u: Utc): int
    requires 1 <= u.month <= 12
  {
    DaysBeforeYear(u.year) + DaysBeforeMonth(u.year, u.month) + u.day - 1
  }

  function Epoch(u: Utc): int
    requires 1 <= u.month <= 12
  {
    86400 * DayCount(u) + 3600 * u.hour + 60 * u.minute + u.second
  }

  lemma NextLeapDays(n: int)
    ensures n / 4 == (n - 1) / 4 + if n % 4 == 0 then 1 else 0
    ensures n / 100 == (n - 1) / 100 + if n % 100 == 0 then 1 else 0
    ensures n / 400 == (n - 1) / 400 + if n % 400 == 0 then 1 else 0
  {
  }

  lemma NextYear(year: int)
    ensures DaysBeforeYear(year + 1) == DaysBeforeYear(year) + DaysInYear(year)
    ensures DaysBeforeMonth(year, 13) == DaysInYear(year)
  {
    NextLeapDays(year);
    assert year % 400 == 0 ==> year % 100 == 0;
    assert year % 100 == 0 ==> year % 4 == 0;
  }

  lemma NextMonth(year: int, month: int)
    requires 1 <= month <= 12
    ensures DaysBeforeMonth(year, month + 1) == DaysBeforeMonth(year, month) + DaysInMonth(year, month)
  {
  }

  lemma {:induction false} YearsIncrease(a: int, b: int)
    requires a < b
    ensures DaysBeforeYear(a) + DaysInYear(a) <= DaysBeforeYear(b)
    decreases b - a
  {
    NextYear(a);
    if a + 1 < b {
      YearsIncrease(a + 1, b);
    }
  }

  lemma {:induction false} MonthsIncrease(year: int, a: int, b: int)
    requires 1 <= a < b <= 13
    ensures DaysBeforeMonth(year, a) + DaysInMonth(year, a) <= DaysBeforeMonth(year, b)
    decreases b - a
  {
    NextMonth(year, a);
    if a + 1 < b {
      MonthsIncrease(year, a + 1, b);
    }
  }

  /** A valid date lies inside its year. */
  lemma DayInYear(u: Utc)
    requires ValidDate(u)
    ensures DaysBeforeYear(u.year) <= DayCount(u) < DaysBeforeYear(u.year) + DaysInYear(u.year)
  {
    NextYear(u.year);
    MonthsIncrease(u.year, u.month, 13);
  }

  /** No two valid dates have the same day count, so a date is determined by its count. */
  lemma DayCountInjective(u: Utc, v: Utc)
    requires ValidDate(u) && ValidDate(v) && DayCount(u) == DayCount(v)
    ensures u.year == v.year && u.month == v.month && u.day == v.day
  {
    DayInYear(u);
    DayInYear(v);
    if u.year < v.year {
      YearsIncrease(u.year, v.year);
    } else if v.year < u.year {
      YearsIncrease(v.year, u.year);
    } else if u.month < v.month {
      MonthsIncrease(u.year, u.month, v.month);
    } else if v.month < u.month {
      MonthsIncrease(u.year, v.month, u.month);
    }
  }

  lemma EpochInjective(u: Utc, v: Utc)
    requires ValidDate(u) && ValidTime(u) && ValidDate(v) && ValidTime(v) && Epoch(u) == Epoch(v)
    ensures u == v
  {
    assert DayCount(u) == DayCount(v);
    DayCountInjective(u, v);
  }

  /** C++ division and remainder truncate toward zero. */
  function Quotient(a: int, b: int): (q: int)
    requires 0 < b
    ensures 0 <= a ==> q == a / b
    ensures a < 0 ==> q <= 0
  {
    if a >= 0 then a / b else -((-a) / b)
  }

  function Remainder(a: int, b: int): (r: int)
    requires 0 < b
    ensures a == b * Quotient(a, b) + r
    ensures 0 <= a ==> 0 <= r < b
    ensures a < 0 ==> -b < r <= 0
  {
    a - b * Quotient(a, b)
  }

  /** The loops stop for every epoch; their result always counts back to the epoch, and it is a date of the calendar
      exactly when the epoch is not negative. */
  method EpochToUTC(epoch: int) returns (u: Utc)
    ensures 1 <= u.month <= 12 && Epoch(u) == epoch
    ensures ValidDate(u) && ValidTime(u) <==> epoch >= 0
  {
    var monthDays := new int[12] [31, 28, 31, 30, 31, 30, 31, 31, 30, 31, 30, 31];
    var rest := epoch;
    var second := Remainder(rest, 60);
    rest := Quotient(rest, 60);
    var minute := Remainder(rest, 60);
    rest := Quotient(rest, 60);
    var hour := Remainder(rest, 24);
    rest := Quotient(rest, 24);
    ghost var days := rest;
    assert epoch == 86400 * days + 3600 * hour + 60 * minute + second;

    var year := 1970;
    while true
      invariant 1970 <= year && (rest < 0 ==> year == 1970)
      invariant rest + DaysBeforeYear(year) == days
      invariant 0 <= days <==> 0 <= rest
      invariant monthDays[..] == MONTH_DAYS
      decreases rest
    {
      var daysInYear := if IsLeapYear(year) then 366 else 365;
      NextYear(year);
      if rest >= daysInYear {
        rest := rest - daysInYear;
        year := year + 1;
      } else {
        break;
      }
    }
    assert monthDays[..] == MONTH_DAYS;
    if IsLeapYear(year) {
      monthDays[1] := 29;
    }
    assert monthDays[..] == MONTH_DAYS[1 := DaysInMonth(year, 2)];
    assert forall m :: 1 <= m <= 12 ==> monthDays[m - 1] == DaysInMonth(year, m);
    NextYear(year);
    var month := 0;
    while rest >= monthDays[month]
      invariant 0 <= month < 12
      invariant rest + DaysBeforeMonth(year, month + 1) + DaysBeforeYear(year) == days
      invariant rest + DaysBeforeMonth(year, month + 1) < DaysInYear(year)
      invariant 0 <= days <==> 0 <= rest
      invariant forall m :: 1 <= m <= 12 ==> monthDays[m - 1] == DaysInMonth(year, m)
      decreases rest
    {
      NextMonth(year, month + 1);
      rest := rest - monthDays[month];
      month := month + 1;
    }
    u := Utc(year, month + 1, rest + 1, hour, minute, second);
    assert ValidDate(u) <==> days >= 0;
  }
}
