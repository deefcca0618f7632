/**
 The market calendar: Easter, observed holidays, market-day counts and business-day addition.
 Years are not negative.
 */
module MarketCalendar {
  import opened Common
  import opened CivilCalendar

  // ---- Easter ---------------------------------------------------------------------------------

  lemma EasterOffsetRange(a: int, h: int, l: int)
    requires 0 <= a < 19 && 0 <= h < 30 && 0 <= l < 7
    ensures var m := (a + 11 * h + 22 * l) / 451;
            && 0 <= h + l - 7 * m <= 34
            && m == if l == 6 && (h == 29 || (h == 28 && a > 10)) then 1 else 0
  {
  }

  /** Easter by the anonymous Gregorian algorithm, as days after 22 March. */
  function EasterOffset(year: nat): (offset: int)
    ensures 0 <= offset <= 34
  {
    var a := year % 19;
    var b := year / 100;
    var c := year % 100;
    var d := b / 4;
    var e := b % 4;
    var f := (b + 8) / 25;
    var g := (b - f + 1) / 3;
    var h := (19 * a + b - d - g + 15) % 30;
    var i := c / 4;
    var k := c % 4;
    var l := (32 + 2 * e + 2 * i - h - k) % 7;
    var m := (a + 11 * h + 22 * l) / 451;
    EasterOffsetRange(a, h, l);
    h + l - 7 * m
  }

  function EasterSunday(year: nat): (r: Date)
    ensures r.year == year && Valid(r)
    ensures (r.month == 3 && 22 <= r.day) || (r.month == 4 && r.day <= 25)
  {
    var n := EasterOffset(year) + 114;
    Date(year, n / 31, n % 31 + 1)
  }

  /** Days after 21 March of the ecclesiastical full moon, from the solar and lunar corrections. */
  function PaschalMoon(year: nat): int {
    var golden, century := year % 19, year / 100;
    var solar, lunar := century - century / 4, (8 * century + 13) / 25;
    var moon := (19 * golden + solar - lunar + 15) % 30;
    if moon == 29 || (moon == 28 && golden > 10) then moon - 1 else moon
  }

  /** The day number of the day `offset` days after 22 March. */
  lemma SpringDayNumber(year: int, offset: int)
    requires 0 <= offset <= 34
    ensures var n := offset + 114;
            var d := Date(year, n / 31, n % 31 + 1);
            Valid(d) && DayNumber(d) == DaysBeforeYear(year + 1) - 284 + offset
    ensures DayNumber(Date(year, 3, 21)) == DaysBeforeYear(year + 1) - 285
  {
    YearLength(year);
    MonthStarts(year);
  }

  lemma LunarCorrectionsAgree(b: nat)
    ensures (b - (b + 8) / 25 + 1) / 3 == (8 * b + 13) / 25
  {
    var q, r := b / 25, b % 25;
    assert b == 25 * q + r;
    assert (b + 8) / 25 == q + (r + 8) / 25;
    assert (8 * b + 13) / 25 == 8 * q + (8 * r + 13) / 25;
    assert b - (b + 8) / 25 + 1 == 3 * (8 * q) + (r - (r + 8) / 25 + 1);
    assert (b - (b + 8) / 25 + 1) / 3 == 8 * q + (r - (r + 8) / 25 + 1) / 3;
  }

  lemma DaysBySquareCenturies(d: int, e: int, i: int, k: int)
    requires 0 <= e < 4 && 0 <= i < 25 && 0 <= k < 4
    ensures DaysBeforeYear(400 * d + 100 * e + 4 * i + k + 1) == 146097 * d + 36524 * e + 1461 * i + 365 * k
  {
    var y := 400 * d + 100 * e + 4 * i + k;
    assert y / 4 == 100 * d + 25 * e + i;
    assert y / 100 == 4 * d + e;
    assert y / 400 == d;
  }

  lemma SevenDivides(total: int, d: int, e: int, i: int, k: int, h: int, m: int, sum: int)
    requires sum == 32 + 2 * e + 2 * i - h - k
    requires total == 146097 * d + 36524 * e + 1461 * i + 365 * k - 284 + (h + sum % 7 - 7 * m)
    ensures total % 7 == 0
  {
    assert sum % 7 == sum - 7 * (sum / 7);
    assert total == 7 * (20871 * d + 5218 * e + 209 * i + 52 * k - 36 - m - sum / 7);
  }

  lemma EasterIsSunday(year: nat)
    ensures (DaysBeforeYear(year + 1) - 284 + EasterOffset(year)) % 7 == 0
  {
    var a, b, c := year % 19, year / 100, year % 100;
    var d, e, i, k := b / 4, b % 4, c / 4, c % 4;
    var h := (19 * a + b - d - (b - (b + 8) / 25 + 1) / 3 + 15) % 30;
    var sum := 32 + 2 * e + 2 * i - h - k;
    var m := (a + 11 * h + 22 * (sum % 7)) / 451;
    assert EasterOffset(year) == h + sum % 7 - 7 * m;
    DaysBySquareCenturies(d, e, i, k);
    SevenDivides(DaysBeforeYear(year + 1) - 284 + EasterOffset(year), d, e, i, k, h, m, sum);
  }

  lemma EasterFollowsPaschalMoon(year: nat)
    ensures PaschalMoon(year) <= EasterOffset(year) < PaschalMoon(year) + 7
  {
    var a, b, c := year % 19, year / 100, year % 100;
    var h := (19 * a + b - b / 4 - (b - (b + 8) / 25 + 1) / 3 + 15) % 30;
    var l := (32 + 2 * (b % 4) + 2 * (c / 4) - h - c % 4) % 7;
    LunarCorrectionsAgree(b);
    EasterOffsetRange(a, h, l);
  }

  /**
   What the algorithm computes: for every year the Sunday strictly after the Paschal full moon, so a
   Sunday between 22 March and 25 April.
   */
  lemma EasterIsSundayAfterPaschalMoon(year: nat)
    ensures var moon := DayNumber(Date(year, 3, 21)) + PaschalMoon(year);
            && DayOfWeek(EasterSunday(year)) == Sun
            && moon < DayNumber(EasterSunday(year)) <= moon + 7
  {
    SpringDayNumber(year, EasterOffset(year));
    EasterIsSunday(year);
    EasterFollowsPaschalMoon(year);
  }

  lemma Easter1818()
    ensures EasterOffset(1818) == 0
  {
    assert 1818 % 19 == 13 && 1818 / 100 == 18 && 1818 % 100 == 18;
    assert (18 - (18 + 8) / 25 + 1) / 3 == 6 && (19 * 13 + 18 - 4 - 6 + 15) % 30 == 0;
    assert (32 + 2 * 2 + 2 * 4 - 0 - 2) % 7 == 0;
  }

  lemma Easter1961()
    ensures EasterOffset(1961) == 11
  {
    assert 1961 % 19 == 4 && 1961 / 100 == 19 && 1961 % 100 == 61;
    assert (19 - (19 + 8) / 25 + 1) / 3 == 6 && (19 * 4 + 19 - 4 - 6 + 15) % 30 == 10;
    assert (32 + 2 * 3 + 2 * 15 - 10 - 1) % 7 == 1;
  }

  lemma Easter2000()
    ensures EasterOffset(2000) == 32
  {
    assert 2000 % 19 == 5 && 2000 / 100 == 20 && 2000 % 100 == 0;
    assert (20 - (20 + 8) / 25 + 1) / 3 == 6 && (19 * 5 + 20 - 5 - 6 + 15) % 30 == 29;
    assert (32 + 2 * 0 + 2 * 0 - 29 - 0) % 7 == 3;
  }

  lemma Easter2024()
    ensures EasterOffset(2024) == 9
  {
    assert 2024 % 19 == 10 && 2024 / 100 == 20 && 2024 % 100 == 24;
    assert (20 - (20 + 8) / 25 + 1) / 3 == 6 && (19 * 10 + 20 - 5 - 6 + 15) % 30 == 4;
    assert (32 + 2 * 0 + 2 * 6 - 4 - 0) % 7 == 5;
  }

  lemma Easter2025()
    ensures EasterOffset(2025) == 29
  {
    assert 2025 % 19 == 11 && 2025 / 100 == 20 && 2025 % 100 == 25;
    assert (20 - (20 + 8) / 25 + 1) / 3 == 6 && (19 * 11 + 20 - 5 - 6 + 15) % 30 == 23;
    assert (32 + 2 * 0 + 2 * 6 - 23 - 1) % 7 == 6;
  }

  lemma Easter2038()
    ensures EasterOffset(2038) == 34
  {
    assert 2038 % 19 == 5 && 2038 / 100 == 20 && 2038 % 100 == 38;
    assert (20 - (20 + 8) / 25 + 1) / 3 == 6 && (19 * 5 + 20 - 5 - 6 + 15) % 30 == 29;
    assert (32 + 2 * 0 + 2 * 9 - 29 - 2) % 7 == 5;
  }

  /** Easter in years on which the calendars agree, the two extremes among them. */
  lemma KnownEasters()
    ensures EasterSunday(1818) == Date(1818, 3, 22) && EasterSunday(2038) == Date(2038, 4, 25)
    ensures EasterSunday(1961) == Date(1961, 4, 2) && EasterSunday(2000) == Date(2000, 4, 23)
    ensures EasterSunday(2024) == Date(2024, 3, 31) && EasterSunday(2025) == Date(2025, 4, 20)
  {
    Easter1818();
    Easter1961();
    Easter2000();
    Easter2024();
    Easter2025();
    Easter2038();
  }

  // ---- Holidays -------------------------------------------------------------------------------

  /** A fixed holiday moves from Saturday to Friday and from Sunday to Monday. */
  function NyseObserved(year: int, month: int, day: int): (r: Date)
    requires Valid(Date(year, month, day))
    ensures Valid(r) && !IsWeekend(r)
  {
    var raw := Date(year, month, day);
    WeekdayAdvances(DayNumber(raw) - 1);
    WeekdayAdvances(DayNumber(raw));
    match DayOfWeek(raw)
    case Sat => Pred(raw)
    case Sun => Succ(raw)
    case _ => raw
  }

  predicate IsFixedHoliday(d: Date)
    requires Valid(d)
  {
    || d == NyseObserved(d.year, 1, 1)
    || (d.month == 12 && d == NyseObserved(d.year + 1, 1, 1))
    || d == NyseObserved(d.year, 6, 19)
    || d == NyseObserved(d.year, 7, 4)
    || d == NyseObserved(d.year, 12, 25)
  }

  predicate IsFloatingHoliday(d: Date)
    requires Valid(d)
  {
    || (d.month == 1 && DayOfWeek(d) == Mon && 15 <= d.day <= 21)
    || (d.month == 2 && DayOfWeek(d) == Mon && 15 <= d.day <= 21)
    || (d.month == 5 && DayOfWeek(d) == Mon && 25 <= d.day <= 31)
    || (d.month == 9 && DayOfWeek(d) == Mon && 1 <= d.day <= 7)
    || (d.month == 11 && DayOfWeek(d) == Thu && 22 <= d.day <= 28)
  }

  predicate IsGoodFriday(d: Date)
    requires Valid(d) && d.year >= 0
  {
    d == Pred(Pred(EasterSunday(d.year)))
  }

  predicate IsNyseHoliday(d: Date)
    requires Valid(d) && d.year >= 0
  {
    IsFixedHoliday(d) || IsFloatingHoliday(d) || IsGoodFriday(d)
  }

  lemma GoodFridayIsFriday(year: nat)
    ensures DayOfWeek(Pred(Pred(EasterSunday(year)))) == Fri
  {
    EasterIsSundayAfterPaschalMoon(year);
    WeekdayAdvances(DayNumber(EasterSunday(year)) - 1);
    WeekdayAdvances(DayNumber(EasterSunday(year)) - 2);
  }

  lemma HolidaysAreWeekdays(d: Date)
    requires Valid(d) && d.year >= 0 && IsNyseHoliday(d)
    ensures !IsWeekend(d)
  {
    GoodFridayIsFriday(d.year);
  }

  lemma NewYearIsObserved(year: int)
    ensures NyseObserved(year, 1, 1) ==
            match DayOfWeek(Date(year, 1, 1))
            case Sat => Date(year - 1, 12, 31)
            case Sun => Date(year, 1, 2)
            case _ => Date(year, 1, 1)
  {
  }

  /** New Year's Day is accepted where it is observed, also on the previous 31 December. */
  lemma ObservedNewYearIsHoliday(year: nat)
    ensures var r := NyseObserved(year, 1, 1);
            && r.year == (if DayOfWeek(Date(year, 1, 1)) == Sat then year - 1 else year)
            && (r.year >= 0 ==> IsNyseHoliday(r))
  {
    var r := NyseObserved(year, 1, 1);
    NewYearIsObserved(year);
    if DayOfWeek(Date(year, 1, 1)) == Sat {
      assert r.month == 12 && r == NyseObserved(r.year + 1, 1, 1);
    } else {
      assert r == NyseObserved(r.year, 1, 1);
    }
    assert IsFixedHoliday(r);
  }

  /** The other fixed holidays are accepted where they are observed. */
  lemma ObservedHolidayIsHoliday(year: nat, month: int, day: int)
    requires (month, day) in {(6, 19), (7, 4), (12, 25)}
    ensures NyseObserved(year, month, day).year == year && IsNyseHoliday(NyseObserved(year, month, day))
  {
    var r := NyseObserved(year, month, day);
    assert r.year == year;
  }

  /** How many of the first `k` days of a month fall on a weekday. */
  function WeekdaysInMonth(year: int, month: int, w: Weekday, k: nat): nat
    requires 1 <= month <= 12 && k <= DaysInMonth(year, month)
  {
    if k == 0 then 0
    else WeekdaysInMonth(year, month, w, k - 1) + if DayOfWeek(Date(year, month, k)) == w then 1 else 0
  }

  /** The day is the n-th of its weekday in its month. */
  ghost predicate IsNth(d: Date, w: Weekday, n: nat)
    requires Valid(d)
  {
    DayOfWeek(d) == w && WeekdaysInMonth(d.year, d.month, w, d.day) == n
  }

  ghost predicate IsLast(d: Date, w: Weekday)
    requires Valid(d)
  {
    DayOfWeek(d) == w
    && WeekdaysInMonth(d.year, d.month, w, d.day) == WeekdaysInMonth(d.year, d.month, w, DaysInMonth(d.year, d.month))
  }

  lemma {:induction false} NoneJustBefore(year: int, month: int, w: Weekday, k: nat, j: nat)
    requires 1 <= month <= 12 && j < k <= DaysInMonth(year, month) && j <= 6
    requires DayOfWeek(Date(year, month, k)) == w
    ensures WeekdaysInMonth(year, month, w, k - 1) == WeekdaysInMonth(year, month, w, k - 1 - j)
  {
    if j > 0 {
      NoneJustBefore(year, month, w, k, j - 1);
      WeekdayReturns(DayNumber(Date(year, month, k)), j);
      assert DayNumber(Date(year, month, k - j)) == DayNumber(Date(year, month, k)) - j;
    }
  }

  lemma {:induction false} NoneJustAfter(year: int, month: int, w: Weekday, k: nat, j: nat)
    requires 1 <= month <= 12 && 1 <= k && k + j <= DaysInMonth(year, month) && j <= 6
    requires DayOfWeek(Date(year, month, k)) == w
    ensures WeekdaysInMonth(year, month, w, k + j) == WeekdaysInMonth(year, month, w, k)
  {
    if j > 0 {
      NoneJustAfter(year, month, w, k, j - 1);
      WeekdayReturns(DayNumber(Date(year, month, k + j)), j);
      assert DayNumber(Date(year, month, k)) == DayNumber(Date(year, month, k + j)) - j;
    }
  }

  lemma {:induction false} CountGrows(year: int, month: int, w: Weekday, k: nat, n: nat)
    requires 1 <= month <= 12 && k <= n <= DaysInMonth(year, month)
    ensures WeekdaysInMonth(year, month, w, k) <= WeekdaysInMonth(year, month, w, n)
    decreases n
  {
    if k < n {
      CountGrows(year, month, w, k, n - 1);
    }
  }

  /** The weekday of day `k` occurs for the first time in days 1 to 7, and so on week by week. */
  lemma {:induction false} OccurrenceOfDay(year: int, month: int, w: Weekday, k: nat)
    requires 1 <= month <= 12 && 1 <= k <= DaysInMonth(year, month)
    requires DayOfWeek(Date(year, month, k)) == w
    ensures WeekdaysInMonth(year, month, w, k) == (k - 1) / 7 + 1
  {
    if k <= 7 {
      NoneJustBefore(year, month, w, k, k - 1);
    } else {
      NoneJustBefore(year, month, w, k, 6);
      WeekdayReturns(DayNumber(Date(year, month, k)), 7);
      assert DayNumber(Date(year, month, k - 7)) == DayNumber(Date(year, month, k)) - 7;
      OccurrenceOfDay(year, month, w, k - 7);
    }
  }

  /** In a month of 31 days the last occurrence falls on the 25th or later. */
  lemma LastOccurrence(d: Date, w: Weekday)
    requires Valid(d) && DaysInMonth(d.year, d.month) == 31 && DayOfWeek(d) == w
    ensures IsLast(d, w) <==> 25 <= d.day
  {
    if 25 <= d.day {
      NoneJustAfter(d.year, d.month, w, d.day, 31 - d.day);
    } else {
      WeekdayReturns(DayNumber(d) + 7, 7);
      assert DayNumber(Date(d.year, d.month, d.day + 7)) == DayNumber(d) + 7;
      OccurrenceOfDay(d.year, d.month, w, d.day);
      OccurrenceOfDay(d.year, d.month, w, d.day + 7);
      CountGrows(d.year, d.month, w, d.day + 7, 31);
    }
  }

  /** The floating closures by their definitions. */
  ghost predicate IsFloatingClosure(d: Date)
    requires Valid(d)
  {
    || (d.month == 1 && IsNth(d, Mon, 3))
    || (d.month == 2 && IsNth(d, Mon, 3))
    || (d.month == 5 && IsLast(d, Mon))
    || (d.month == 9 && IsNth(d, Mon, 1))
    || (d.month == 11 && IsNth(d, Thu, 4))
  }

  lemma NthMatchesDayRange(d: Date, w: Weekday, n: nat)
    requires Valid(d) && 1 <= n
    ensures IsNth(d, w, n) <==> DayOfWeek(d) == w && 7 * n - 6 <= d.day <= 7 * n
  {
    if DayOfWeek(d) == w {
      OccurrenceOfDay(d.year, d.month, w, d.day);
    }
  }

  lemma FloatingHolidaysAreExact(d: Date)
    requires Valid(d)
    ensures IsFloatingHoliday(d) <==> IsFloatingClosure(d)
  {
    NthMatchesDayRange(d, Mon, 3);
    NthMatchesDayRange(d, Mon, 1);
    NthMatchesDayRange(d, Thu, 4);
    if d.month == 5 && DayOfWeek(d) == Mon {
      LastOccurrence(d, Mon);
    }
  }

  lemma GoodFridayIsExact(d: Date)
    requires Valid(d) && d.year >= 0
    ensures IsGoodFriday(d) <==> Succ(Succ(d)) == EasterSunday(d.year)
  {
    var easter := EasterSunday(d.year);
    if DayNumber(d) + 2 == DayNumber(easter) {
      DayNumberIsInjective(d, Pred(Pred(easter)));
      DayNumberIsInjective(Succ(Succ(d)), easter);
    }
  }

  predicate IsFixedDate(h: Date) {
    (h.month, h.day) in {(1, 1), (6, 19), (7, 4), (12, 25)}
  }

  /** The day a fixed date is kept: itself, the Friday before a Saturday, or the Monday after a Sunday. */
  predicate IsKeptOn(h: Date, d: Date)
    requires Valid(h) && Valid(d)
  {
    match DayOfWeek(h)
    case Sat => Succ(d) == h
    case Sun => Succ(h) == d
    case _ => h == d
  }

  ghost predicate IsFixedClosure(d: Date)
    requires Valid(d)
  {
    exists h: Date :: Valid(h) && IsFixedDate(h) && IsKeptOn(h, d)
  }

  lemma KeptWhereObserved(h: Date, d: Date)
    requires Valid(h) && Valid(d)
    ensures IsKeptOn(h, d) <==> d == NyseObserved(h.year, h.month, h.day)
  {
    if DayOfWeek(h) == Sat {
      if Succ(d) == h {
        DayNumberIsInjective(d, Pred(h));
      } else if d == Pred(h) {
        DayNumberIsInjective(Succ(d), h);
      }
    }
  }

  /** A fixed date is kept in its own year, or on the last day of the year before. */
  lemma KeptNearby(h: Date, d: Date)
    requires Valid(h) && Valid(d) && IsFixedDate(h) && d == NyseObserved(h.year, h.month, h.day)
    ensures d.year == h.year || (h.month == 1 && d.month == 12 && d.year + 1 == h.year)
  {
    if h.month == 1 {
      NewYearIsObserved(h.year);
    }
  }

  lemma ObservedIsClosure(year: int, month: int, day: int, d: Date)
    requires Valid(d) && Valid(Date(year, month, day)) && IsFixedDate(Date(year, month, day))
    ensures d == NyseObserved(year, month, day) ==> IsFixedClosure(d)
  {
    KeptWhereObserved(Date(year, month, day), d);
  }

  lemma ClosureIsFixedHoliday(d: Date)
    requires Valid(d) && IsFixedClosure(d)
    ensures IsFixedHoliday(d)
  {
    var h: Date :| Valid(h) && IsFixedDate(h) && IsKeptOn(h, d);
    KeptWhereObserved(h, d);
    KeptNearby(h, d);
  }

  lemma FixedHolidaysAreExact(d: Date)
    requires Valid(d)
    ensures IsFixedHoliday(d) <==> IsFixedClosure(d)
  {
    if IsFixedHoliday(d) {
      ObservedIsClosure(d.year, 1, 1, d);
      ObservedIsClosure(d.year + 1, 1, 1, d);
      ObservedIsClosure(d.year, 6, 19, d);
      ObservedIsClosure(d.year, 7, 4, d);
      ObservedIsClosure(d.year, 12, 25, d);
    } else if IsFixedClosure(d) {
      ClosureIsFixedHoliday(d);
    }
  }

  /**
   The test accepts exactly the closures by their definitions: the observed fixed dates, the n-th and
   last weekdays of their months, and the Friday two days before Easter.
   */
  lemma HolidaysAreExactlyTheClosures(d: Date)
    requires Valid(d) && d.year >= 0
    ensures IsNyseHoliday(d) <==>
            IsFixedClosure(d) || IsFloatingClosure(d) || Succ(Succ(d)) == EasterSunday(d.year)
  {
    FixedHolidaysAreExact(d);
    FloatingHolidaysAreExact(d);
    GoodFridayIsExact(d);
  }

  // ---- Counting market days -------------------------------------------------------------------

  predicate IsMarketDay(d: Date)
    requires Valid(d) && d.year >= 0
  {
    !IsWeekend(d) && !IsNyseHoliday(d)
  }

  /** Dates are compared in calendar order, which is the order of their day numbers. */
  predicate NotAfter(a: Date, b: Date)
    requires Valid(a) && Valid(b)
  {
    DayNumber(a) <= DayNumber(b)
  }

  /** Market days after `from`, up to and including `to`. */
  function MarketDays(from: Date, to: Date): nat
    requires Valid(from) && Valid(to) && from.year >= 0
    decreases DayNumber(to) - DayNumber(from)
  {
    if NotAfter(to, from) then 0
    else (if IsMarketDay(Succ(from)) then 1 else 0) + MarketDays(Succ(from), to)
  }

  method CountMarketDays(from: Date, to: Date) returns (count: nat)
    requires Valid(from) && Valid(to) && from.year >= 0
    ensures count == MarketDays(from, to)
  {
    if NotAfter(to, from) {
      return 0;
    }
    count := 0;
    var d := Succ(from);
    ghost var last := from;
    while NotAfter(d, to)
      invariant Valid(last) && last.year >= 0 && Valid(d) && d == Succ(last)
      invariant DayNumber(last) <= DayNumber(to)
      invariant count + MarketDays(last, to) == MarketDays(from, to)
      decreases DayNumber(to) - DayNumber(d) + 1
    {
      if IsMarketDay(d) {
        count := count + 1;
      }
      last := d;
      d := Succ(d);
    }
  }

  /** Counts over adjacent intervals add up. */
  lemma {:induction false} MarketDaysAdd(a: Date, b: Date, c: Date)
    requires Valid(a) && Valid(b) && Valid(c) && a.year >= 0 && b.year >= 0
    requires NotAfter(a, b) && NotAfter(b, c)
    ensures MarketDays(a, c) == MarketDays(a, b) + MarketDays(b, c)
    decreases DayNumber(b) - DayNumber(a)
  {
    if DayNumber(a) == DayNumber(b) {
      DayNumberIsInjective(a, b);
    } else {
      MarketDaysAdd(Succ(a), b, c);
    }
  }

  predicate PredictionsAreStale(predicted: Date, today: Date, maxAge: int)
    requires Valid(predicted) && Valid(today) && predicted.year >= 0
  {
    MarketDays(predicted, today) > maxAge
  }

  /** Once predictions are stale they stay stale as the date moves on. */
  lemma StalenessNeverReverts(predicted: Date, today: Date, later: Date, maxAge: int)
    requires Valid(predicted) && Valid(today) && Valid(later) && predicted.year >= 0 && today.year >= 0
    requires NotAfter(today, later) && maxAge >= 0
    requires PredictionsAreStale(predicted, today, maxAge)
    ensures PredictionsAreStale(predicted, later, maxAge)
  {
    MarketDaysAdd(predicted, today, later);
  }

  // ---- Adding business days -------------------------------------------------------------------

  /** Weekdays after `from`, up to and including `to`. */
  function BusinessDays(from: Date, to: Date): nat
    requires Valid(from) && Valid(to)
    decreases DayNumber(to) - DayNumber(from)
  {
    if NotAfter(to, from) then 0
    else (if IsWeekend(Succ(from)) then 0 else 1) + BusinessDays(Succ(from), to)
  }

  /** Days that may still pass before the next weekday. */
  function WeekendLeft(d: Date): nat
    requires Valid(d)
  {
    match DayOfWeek(d)
    case Sat => 1
    case Sun => 0
    case _ => 2
  }

  lemma WeekendEnds(d: Date)
    requires Valid(d)
    ensures IsWeekend(Succ(d)) ==> WeekendLeft(Succ(d)) < WeekendLeft(d)
  {
    WeekdayAdvances(DayNumber(d));
  }

  function LeftAfterNext(d: Date, days: int): int
    requires Valid(d)
  {
    if IsWeekend(Succ(d)) then days else days - 1
  }

  function AddBusinessDays(from: Date, days: int): (r: Date)
    requires Valid(from)
    ensures Valid(r) && NotAfter(from, r)
    decreases days, WeekendLeft(from)
  {
    if days <= 0 then from
    else
      WeekendEnds(from);
      AddBusinessDays(Succ(from), LeftAfterNext(from, days))
  }

  /** Steps day by day until enough weekdays have passed; unreadable input starts from today. */
  method CountBusinessDaysForward(from: Option<Date>, days: int, today: Date) returns (date: Date)
    requires Valid(today) && (from.Some? ==> Valid(from.value))
    ensures Valid(date) && date == AddBusinessDays(if from.Some? then from.value else today, days)
  {
    date := if from.Some? then from.value else today;
    ghost var start := date;
    var added := 0;
    while added < days
      invariant Valid(date) && added <= Max(days, 0)
      invariant AddBusinessDays(date, days - added) == AddBusinessDays(start, days)
      decreases days - added, WeekendLeft(date)
    {
      WeekendEnds(date);
      date := Succ(date);
      if !IsWeekend(date) {
        added := added + 1;
      }
    }
  }

  /** The result is the least date with exactly that many weekdays in between. */
  lemma {:induction false} LeastDateWithBusinessDays(from: Date, days: nat, d: Date)
    requires Valid(from) && Valid(d) && NotAfter(from, d)
    ensures BusinessDays(from, AddBusinessDays(from, days)) == days
    ensures DayNumber(d) < DayNumber(AddBusinessDays(from, days)) ==> BusinessDays(from, d) < days
    decreases days, WeekendLeft(from)
  {
    if days > 0 {
      var next := Succ(from);
      WeekendEnds(from);
      LeastDateWithBusinessDays(next, LeftAfterNext(from, days), if NotAfter(next, d) then d else next);
    }
  }

  lemma StepsToNext(x: Date, days: int, next: Date, left: int)
    requires Valid(x) && days > 0 && Valid(next) && next == Succ(x) && left == LeftAfterNext(x, days)
    ensures AddBusinessDays(x, days) == AddBusinessDays(next, left)
  {
  }

  lemma {:induction false} AddingInTwoSteps(x: Date, a: nat, b: nat) returns (mid: Date)
    requires Valid(x)
    ensures Valid(mid) && mid == AddBusinessDays(x, a)
    ensures AddBusinessDays(mid, b) == AddBusinessDays(x, a + b)
    decreases a, WeekendLeft(x)
  {
    mid := x;
    if a > 0 {
      WeekendEnds(x);
      var next, left := Succ(x), LeftAfterNext(x, a);
      mid := AddingInTwoSteps(next, left, b);
      StepsToNext(x, a, next, left);
      StepsToNext(x, a + b, next, left + b);
    }
  }

  lemma MoreDaysMoveFurther(x: Date, m: int, n: int)
    requires Valid(x) && m < n && 0 < n
    ensures DayNumber(AddBusinessDays(x, m)) < DayNumber(AddBusinessDays(x, n))
  {
    var from := Max(m, 0);
    var mid := AddingInTwoSteps(x, from, n - from);
  }

  lemma NegativeThenPositive(x: Date, a: int, b: int)
    requires Valid(x) && a < 0 < b
    ensures AddBusinessDays(AddBusinessDays(x, a), b) != AddBusinessDays(x, a + b)
  {
    MoreDaysMoveFurther(x, a + b, b);
  }

  lemma PositiveThenNegative(x: Date, a: int, b: int)
    requires Valid(x) && b < 0 < a
    ensures AddBusinessDays(AddBusinessDays(x, a), b) != AddBusinessDays(x, a + b)
  {
    MoreDaysMoveFurther(x, a + b, a);
  }

  lemma SameSigns(x: Date, a: int, b: int)
    requires Valid(x) && !(a < 0 < b) && !(b < 0 < a)
    ensures AddBusinessDays(AddBusinessDays(x, a), b) == AddBusinessDays(x, a + b)
  {
    if a >= 0 && b >= 0 {
      var mid := AddingInTwoSteps(x, a, b);
    }
  }

  /** Addition composes exactly when the two counts do not have opposite signs. */
  lemma AdditionComposesExactlyWhen(x: Date, a: int, b: int)
    requires Valid(x)
    ensures AddBusinessDays(AddBusinessDays(x, a), b) == AddBusinessDays(x, a + b)
            <==> !(a < 0 < b) && !(b < 0 < a)
  {
    if a < 0 < b {
      NegativeThenPositive(x, a, b);
    } else if b < 0 < a {
      PositiveThenNegative(x, a, b);
    } else {
      SameSigns(x, a, b);
    }
  }

  // ---- Market days against weekdays -----------------------------------------------------------

  /** Market closures on weekdays after `from`, up to and including `to`, by the closures' definitions. */
  ghost function Closures(from: Date, to: Date): nat
    requires Valid(from) && Valid(to) && from.year >= 0
    decreases DayNumber(to) - DayNumber(from)
  {
    if NotAfter(to, from) then 0
    else
      var d := Succ(from);
      (if IsFixedClosure(d) || IsFloatingClosure(d) || Succ(Succ(d)) == EasterSunday(d.year) then 1 else 0)
      + Closures(d, to)
  }

  /** Market days are the weekdays of the interval without the closures in it. */
  lemma {:induction false} MarketDaysAreWeekdaysWithoutClosures(from: Date, to: Date)
    requires Valid(from) && Valid(to) && from.year >= 0
    ensures MarketDays(from, to) + Closures(from, to) == BusinessDays(from, to)
    decreases DayNumber(to) - DayNumber(from)
  {
    if !NotAfter(to, from) {
      var d := Succ(from);
      HolidaysAreExactlyTheClosures(d);
      if IsNyseHoliday(d) {
        HolidaysAreWeekdays(d);
      }
      MarketDaysAreWeekdaysWithoutClosures(d, to);
    }
  }
}
