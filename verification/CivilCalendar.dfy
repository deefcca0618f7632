/** The proleptic Gregorian calendar: valid dates, day numbers, weekdays, and stepping by one day. */
module CivilCalendar {

  datatype Date = Date(year: int, month: int, day: int)

  datatype Weekday = Mon | Tue | Wed | Thu | Fri | Sat | Sun

  predicate IsLeap(year: int) {
    year % 4 == 0 && (year % 100 != 0 || year % 400 == 0)
  }

  function DaysInMonth(year: int, month: int): int {
    if month == 2 then (if IsLeap(year) then 29 else 28)
    else if month in {4, 6, 9, 11} then 30
    else 31
  }

  predicate Valid(d: Date) {
    1 <= d.month <= 12 && 1 <= d.day <= DaysInMonth(d.year, d.month)
  }

  /** Days from the first day of year one to the first of the given year. */
  function DaysBeforeYear(year: int): int {
    var y := year - 1;
    365 * y + y / 4 - y / 100 + y / 400
  }

  function DaysBeforeMonth(year: int, month: int): int
    requires 1 <= month <= 12
  {
    if month == 1 then 0 else DaysBeforeMonth(year, month - 1) + DaysInMonth(year, month - 1)
  }

  /** Day one is Monday, 1 January of year one. */
  function DayNumber(d: Date): int
    requires Valid(d)
  {
    DaysBeforeYear(d.year) + DaysBeforeMonth(d.year, d.month) + d.day
  }

  function WeekdayOf(n: int): Weekday {
    [Sun, Mon, Tue, Wed, Thu, Fri, Sat][n % 7]
  }

  function DayOfWeek(d: Date): Weekday
    requires Valid(d)
  {
    WeekdayOf(DayNumber(d))
  }

  predicate IsWeekend(d: Date)
    requires Valid(d)
  {
    DayOfWeek(d) == Sat || DayOfWeek(d) == Sun
  }

  lemma MultipleOfHundred(k: int)
    ensures 100 * k % 100 == 0
  {
  }

  lemma MultipleOfFour(k: int)
    ensures 4 * k % 4 == 0
  {
  }

  lemma MultiplesNest(n: int)
    ensures n % 400 == 0 ==> n % 100 == 0
    ensures n % 100 == 0 ==> n % 4 == 0
  {
    if n % 400 == 0 {
      MultipleOfHundred(4 * (n / 400));
    }
    if n % 100 == 0 {
      MultipleOfFour(25 * (n / 100));
    }
  }

  /** A quotient steps up exactly at the multiples. */
  lemma StepOfDivision(n: int, k: int)
    requires k == 4 || k == 100 || k == 400
    ensures n / k == (n - 1) / k + if n % k == 0 then 1 else 0
  {
  }

  lemma YearLength(year: int)
    ensures DaysBeforeYear(year + 1) == DaysBeforeYear(year) + 365 + if IsLeap(year) then 1 else 0
  {
    StepOfDivision(year, 4);
    StepOfDivision(year, 100);
    StepOfDivision(year, 400);
    MultiplesNest(year);
  }

  lemma MonthStarts(year: int)
    ensures var leap := if IsLeap(year) then 1 else 0;
            && DaysBeforeMonth(year, 3) == 59 + leap && DaysBeforeMonth(year, 4) == 90 + leap
            && DaysBeforeMonth(year, 12) == 334 + leap
  {
    assert DaysBeforeMonth(year, 2) == 31;
    assert DaysBeforeMonth(year, 5) == DaysBeforeMonth(year, 4) + 30;
    assert DaysBeforeMonth(year, 7) == DaysBeforeMonth(year, 5) + 61;
    assert DaysBeforeMonth(year, 9) == DaysBeforeMonth(year, 7) + 62;
    assert DaysBeforeMonth(year, 11) == DaysBeforeMonth(year, 9) + 61;
  }

  function NextWeekday(w: Weekday): Weekday {
    match w
    case Mon => Tue
    case Tue => Wed
    case Wed => Thu
    case Thu => Fri
    case Fri => Sat
    case Sat => Sun
    case Sun => Mon
  }

  /** A weekday does not come back within six days, and does after seven. */
  lemma WeekdayReturns(n: int, j: int)
    requires 0 < j <= 7
    ensures WeekdayOf(n - j) == WeekdayOf(n) <==> j == 7
  {
    assert (n - j) % 7 == (n % 7 - j) % 7;
  }

  lemma WeekdayAdvances(n: int)
    ensures WeekdayOf(n + 1) == NextWeekday(WeekdayOf(n))
  {
    assert (n + 1) % 7 == if n % 7 == 6 then 0 else n % 7 + 1;
  }

  lemma YearEnd(year: int)
    ensures DayNumber(Date(year, 12, 31)) == DaysBeforeYear(year + 1)
  {
    YearLength(year);
    MonthStarts(year);
  }

  function Succ(d: Date): (r: Date)
    requires Valid(d)
    ensures Valid(r) && DayNumber(r) == DayNumber(d) + 1
  {
    if d.day < DaysInMonth(d.year, d.month) then Date(d.year, d.month, d.day + 1)
    else if d.month < 12 then Date(d.year, d.month + 1, 1)
    else
      YearEnd(d.year);
      Date(d.year + 1, 1, 1)
  }

  function Pred(d: Date): (r: Date)
    requires Valid(d)
    ensures Valid(r) && DayNumber(r) == DayNumber(d) - 1
  {
    if d.day > 1 then Date(d.year, d.month, d.day - 1)
    else if d.month > 1 then Date(d.year, d.month - 1, DaysInMonth(d.year, d.month - 1))
    else
      YearEnd(d.year - 1);
      Date(d.year - 1, 12, 31)
  }

  lemma LaterYearsComeLater(a: int, b: int)
    requires a < b
    ensures DaysBeforeYear(a + 1) <= DaysBeforeYear(b)
  {
    var x, y := a, b - 1;
    assert y / 4 >= x / 4 && y / 400 >= x / 400;
    assert y / 100 - x / 100 <= y - x;
  }

  lemma {:induction false} DayOfMonthFits(d: Date, month: int)
    requires Valid(d) && d.month < month <= 12
    ensures DaysBeforeMonth(d.year, d.month) + d.day <= DaysBeforeMonth(d.year, month)
    decreases month
  {
    if d.month < month - 1 {
      DayOfMonthFits(d, month - 1);
    }
  }

  lemma {:induction false} MonthsStartAfterYear(year: int, month: int)
    requires 1 <= month <= 12
    ensures 0 <= DaysBeforeMonth(year, month)
  {
    if month > 1 {
      MonthsStartAfterYear(year, month - 1);
    }
  }

  lemma DayOfYearFits(d: Date)
    requires Valid(d)
    ensures DaysBeforeYear(d.year) < DayNumber(d) <= DaysBeforeYear(d.year + 1)
  {
    YearLength(d.year);
    MonthStarts(d.year);
    MonthsStartAfterYear(d.year, d.month);
    if d.month < 12 {
      DayOfMonthFits(d, 12);
    }
  }

  /** Two valid dates with the same number are the same date. */
  lemma DayNumberIsInjective(a: Date, b: Date)
    requires Valid(a) && Valid(b) && DayNumber(a) == DayNumber(b)
    ensures a == b
  {
    DayOfYearFits(a);
    DayOfYearFits(b);
    if a.year < b.year {
      LaterYearsComeLater(a.year, b.year);
    } else if b.year < a.year {
      LaterYearsComeLater(b.year, a.year);
    } else if a.month < b.month {
      DayOfMonthFits(a, b.month);
    } else if b.month < a.month {
      DayOfMonthFits(b, a.month);
    }
  }
}
