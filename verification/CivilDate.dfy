/**
 The benchmark report's date (crates/atlas-bench/src/report.rs): a closed form from seconds to a date, against
 counting the days one by one under the Gregorian leap-year rule (Appendix C of RFC 3339).
 */
module CivilDate {
  datatype Date = Date(year: int, month: int, day: int)

  // ----- counting days

  predicate IsLeap(year: int) { year % 4 == 0 && (year % 100 != 0 || year % 400 == 0) }

  function DaysInMonth(year: int, month: int): int
  {
    if month == 2 then (if IsLeap(year) then 29 else 28)
    else if month == 4 || month == 6 || month == 9 || month == 11 then 30
    else 31
  }

  predicate IsDate(date: Date)
  {
    1 <= date.month <= 12 && 1 <= date.day <= DaysInMonth(date.year, date.month)
  }

  function NextDay(date: Date): Date
  {
    if date.day < DaysInMonth(date.year, date.month) then date.(day := date.day + 1)
    else if date.month < 12 then Date(date.year, date.month + 1, 1)
    else Date(date.year + 1, 1, 1)
  }

  /** The date so many days after 1970-01-01. */
  function CountedDate(days: nat): Date
  {
    if days == 0 then Date(1970, 1, 1) else NextDay(CountedDate(days - 1))
  }

  // ----- the closed form

  /** Years begin in March here, so that the leap day comes last. */
  function YearOfEra(dayOfEra: int): int
  {
    (dayOfEra - dayOfEra / 1_460 + dayOfEra / 36_524 - dayOfEra / 146_096) / 365
  }

  function YearStart(yearOfEra: int): int { 365 * yearOfEra + yearOfEra / 4 - yearOfEra / 100 }

  function DayOfYear(dayOfEra: int): int { dayOfEra - YearStart(YearOfEra(dayOfEra)) }

  function MonthIndex(dayOfYear: int): int { (5 * dayOfYear + 2) / 153 }

  function MonthStart(monthIndex: int): int { (153 * monthIndex + 2) / 5 }

  /** A day of a year that begins in March, as a date. */
  function InCalendar(year: int, dayOfYear: int): Date
  {
    var monthIndex := MonthIndex(dayOfYear);
    InMonth(year, monthIndex, dayOfYear - MonthStart(monthIndex) + 1)
  }

  /** A day of a month, which is numbered from March. */
  function InMonth(year: int, monthIndex: int, day: int): Date
  {
    var month := if monthIndex < 10 then monthIndex + 3 else monthIndex - 9;
    Date(year + if month <= 2 then 1 else 0, month, day)
  }

  /** `civil_date`, before the numbers are written out. */
  function CivilDate(unixSeconds: nat): Date
  {
    var days := unixSeconds / 86_400;
    var shifted := days + 719_468;
    var era := shifted / 146_097;
    var dayOfEra := shifted % 146_097;
    InCalendar(YearOfEra(dayOfEra) + era * 400, DayOfYear(dayOfEra))
  }

  // ----- years

  /** How long a year that begins in March is: it ends with February of the next year. */
  function YearLength(year: int): int { if IsLeap(year + 1) then 366 else 365 }

  /** A day of an era as centuries, four-year groups, years and days. */
  lemma Digits(dayOfEra: int) returns (c: int, q: int, y: int, t: int)
    requires 0 <= dayOfEra < 146_097
    ensures dayOfEra == 36_524 * c + 1_461 * q + 365 * y + t
    ensures 0 <= c <= 3 && 0 <= q <= 24 && 0 <= y <= 3 && 0 <= t <= 365
    ensures t == 365 ==> y == 3 && (q < 24 || c == 3)
  {
    c := if dayOfEra == 146_096 then 3 else dayOfEra / 36_524;
    var r := dayOfEra - 36_524 * c;
    q := r / 1_461;
    var s := r - 1_461 * q;
    y := if s == 1_460 then 3 else s / 365;
    t := s - 365 * y;
  }

  lemma FourYears(c: int, q: int, y: int, t: int, dayOfEra: int)
    requires dayOfEra == 36_524 * c + 1_461 * q + 365 * y + t
    requires 0 <= c <= 3 && 0 <= q <= 24 && 0 <= y <= 3 && 0 <= t <= 365
    ensures dayOfEra / 1_460 == 25 * c + q + if 24 * c + q + 365 * y + t >= 1_460 then 1 else 0
  {
  }

  lemma Centuries(c: int, q: int, y: int, t: int, dayOfEra: int)
    requires dayOfEra == 36_524 * c + 1_461 * q + 365 * y + t < 146_097
    requires 0 <= c <= 3 && 0 <= q <= 24 && 0 <= y <= 3 && 0 <= t <= 365
    requires t == 365 ==> y == 3 && (q < 24 || c == 3)
    ensures dayOfEra / 36_524 - dayOfEra / 146_096 == c
  {
  }

  /** The year formula: which year, and that the day lies in it. */
  lemma YearIsRight(dayOfEra: int)
    requires 0 <= dayOfEra < 146_097
    ensures 0 <= YearOfEra(dayOfEra) < 400
    ensures 0 <= DayOfYear(dayOfEra) < YearLength(YearOfEra(dayOfEra))
  {
    var c, q, y, t := Digits(dayOfEra);
    FourYears(c, q, y, t, dayOfEra);
    Centuries(c, q, y, t, dayOfEra);
    var year := 100 * c + 4 * q + y;
    assert YearOfEra(dayOfEra) == year;
    assert year / 4 == 25 * c + q && year / 100 == c;
    assert DayOfYear(dayOfEra) == t;
    if t == 365 {
      assert year + 1 == 4 * (25 * c + q + 1);
    }
  }

  /** Years follow each other without gaps. */
  lemma YearsMeet(year: int)
    requires 0 <= year < 399
    ensures YearStart(year + 1) == YearStart(year) + YearLength(year)
  {
    OneMore(year, 4);
    OneMore(year, 100);
  }

  lemma OneMore(n: int, every: int)
    requires 0 <= n && (every == 4 || every == 100)
    ensures (n + 1) / every == n / every + if (n + 1) % every == 0 then 1 else 0
  {
  }

  lemma {:induction false} YearsOrdered(a: int, b: int)
    requires 0 <= a < b < 400
    ensures YearStart(a) + YearLength(a) <= YearStart(b)
    decreases b - a
  {
    YearsMeet(b - 1);
    if a < b - 1 {
      YearsOrdered(a, b - 1);
    }
  }

  /** The year formula gives exactly the year, one of the era's 400, in which the day lies. */
  lemma YearIsUnique(dayOfEra: int, year: int)
    requires 0 <= dayOfEra < 146_097 && 0 <= year < 400
    ensures YearOfEra(dayOfEra) == year <==> YearStart(year) <= dayOfEra < YearStart(year) + YearLength(year)
  {
    YearIsRight(dayOfEra);
    var other := YearOfEra(dayOfEra);
    if other < year {
      YearsOrdered(other, year);
    } else if year < other {
      YearsOrdered(year, other);
    }
  }

  // ----- months

  /** The month formula: which month of a year that begins in March, and that the day lies in it. */
  lemma MonthIsRight(dayOfYear: int)
    requires 0 <= dayOfYear <= 365
    ensures 0 <= MonthIndex(dayOfYear) <= 11
    ensures MonthStart(MonthIndex(dayOfYear)) <= dayOfYear < MonthStart(MonthIndex(dayOfYear) + 1)
  {
  }

  /** The length of a month, by its number from March; the last one, February, ends the year. */
  function MonthLength(year: int, monthIndex: int): int
  {
    if monthIndex == 11 then YearLength(year) - 337 else MonthStart(monthIndex + 1) - MonthStart(monthIndex)
  }

  /** A day within its month is a date, and what follows it. */
  lemma MonthSteps(year: int, monthIndex: int, day: int)
    requires 0 <= monthIndex <= 11 && 1 <= day <= MonthLength(year, monthIndex)
    ensures IsDate(InMonth(year, monthIndex, day))
    ensures NextDay(InMonth(year, monthIndex, day)) ==
            if day < MonthLength(year, monthIndex) then InMonth(year, monthIndex, day + 1)
            else if monthIndex < 11 then InMonth(year, monthIndex + 1, 1)
            else InMonth(year + 1, 0, 1)
  {
  }

  /** The month of a day, and of the day after it in the same year. */
  lemma DayInMonth(year: int, dayOfYear: int) returns (m: int, day: int)
    requires 0 <= dayOfYear < YearLength(year)
    ensures m == MonthIndex(dayOfYear) && day == dayOfYear - MonthStart(m) + 1 && 0 <= m <= 11
            && 1 <= day <= MonthLength(year, m)
    ensures InCalendar(year, dayOfYear) == InMonth(year, m, day)
    ensures dayOfYear + 1 < YearLength(year) ==>
              InCalendar(year, dayOfYear + 1) ==
                if day < MonthLength(year, m) then InMonth(year, m, day + 1) else InMonth(year, m + 1, 1)
    ensures dayOfYear + 1 < YearLength(year) && day == MonthLength(year, m) ==> m < 11
    ensures dayOfYear + 1 == YearLength(year) ==> m == 11 && day == MonthLength(year, m)
  {
    MonthIsRight(dayOfYear);
    m, day := MonthIndex(dayOfYear), dayOfYear - MonthStart(MonthIndex(dayOfYear)) + 1;
    if dayOfYear + 1 < YearLength(year) {
      NextMonthIndex(dayOfYear);
    }
  }

  /** A day in a year is a date of the calendar, and the day after it is the next date. */
  lemma CalendarSteps(year: int, dayOfYear: int)
    requires 0 <= dayOfYear < YearLength(year)
    ensures IsDate(InCalendar(year, dayOfYear))
    ensures NextDay(InCalendar(year, dayOfYear)) ==
            if dayOfYear + 1 < YearLength(year) then InCalendar(year, dayOfYear + 1) else InCalendar(year + 1, 0)
  {
    var m, day := DayInMonth(year, dayOfYear);
    MonthSteps(year, m, day);
  }

  lemma NextMonthIndex(dayOfYear: int)
    requires 0 <= dayOfYear < 365
    ensures var m := MonthIndex(dayOfYear);
            MonthIndex(dayOfYear + 1) == if dayOfYear + 1 < MonthStart(m + 1) then m else m + 1
  {
  }

  // ----- the whole form

  /** The closed form on days, split into era and day of era. */
  function OnDay(era: int, dayOfEra: int): Date
  {
    InCalendar(YearOfEra(dayOfEra) + era * 400, DayOfYear(dayOfEra))
  }

  lemma Mod4(a: int, k: int)
    ensures (a + 4 * k) % 4 == a % 4
  {
  }

  lemma Mod100(a: int, k: int)
    ensures (a + 100 * k) % 100 == a % 100
  {
  }

  lemma Mod400(a: int, k: int)
    ensures (a + 400 * k) % 400 == a % 400
  {
  }

  lemma LeapRepeats(year: int, era: int)
    ensures IsLeap(year + era * 400) == IsLeap(year)
  {
    Mod4(year, 100 * era);
    Mod100(year, 4 * era);
    Mod400(year, era);
  }

  lemma LengthRepeats(year: int, era: int)
    ensures YearLength(year + era * 400) == YearLength(year)
  {
    LeapRepeats(year + 1, era);
  }

  /** Counting from the first of March of a year. */
  function CountedInYear(year: int, day: nat): Date
  {
    if day == 0 then Date(year, 3, 1) else NextDay(CountedInYear(year, day - 1))
  }

  lemma MarchFirst(year: int)
    ensures InCalendar(year, 0) == Date(year, 3, 1)
  {
  }

  lemma StepInYear(year: int, day: nat, before: Date)
    requires 0 < day < YearLength(year) && before == InCalendar(year, day - 1)
    ensures InCalendar(year, day) == NextDay(before)
  {
    CalendarSteps(year, day - 1);
  }

  /** Inside a year the month formula counts days. */
  lemma {:induction false} InCalendarIsCounted(year: int, day: nat)
    requires day < YearLength(year)
    ensures InCalendar(year, day) == CountedInYear(year, day)
  {
    if day == 0 {
      MarchFirst(year);
    } else {
      InCalendarIsCounted(year, day - 1);
      StepInYear(year, day, CountedInYear(year, day - 1));
    }
  }

  lemma YearEnds(year: int, last: nat)
    requires last + 1 == YearLength(year)
    ensures NextDay(CountedInYear(year, last)) == Date(year + 1, 3, 1)
  {
    InCalendarIsCounted(year, last);
    CalendarSteps(year, last);
    MarchFirst(year + 1);
  }

  /** Counting from the first of March that begins an era. */
  function CountedInEra(era: int, day: nat): Date
  {
    if day == 0 then Date(era * 400, 3, 1) else NextDay(CountedInEra(era, day - 1))
  }

  /** Inside an era the years follow each other: `place` is the day of the era, `absolute` the year itself. */
  lemma {:induction false} EraCountsYears(era: int, year: nat, day: nat, absolute: int, place: nat)
    requires year < 400 && day < YearLength(year) && absolute == year + era * 400 && place == YearStart(year) + day
    ensures CountedInEra(era, place) == CountedInYear(absolute, day)
    decreases year, day
  {
    if day > 0 {
      EraCountsYears(era, year, day - 1, absolute, place - 1);
    } else if year > 0 {
      YearsMeet(year - 1);
      LengthRepeats(year - 1, era);
      var last := YearLength(year - 1) - 1;
      EraCountsYears(era, year - 1, last, absolute - 1, place - 1);
      YearEnds(absolute - 1, last);
    }
  }

  lemma EraEnds(era: int)
    ensures NextDay(CountedInEra(era, 146_096)) == CountedInEra(era + 1, 0)
  {
    assert YearStart(399) == 145_731 && YearLength(399) == 366;
    EraCountsYears(era, 399, 365, 399 + era * 400, 146_096);
    LengthRepeats(399, era);
    YearEnds(399 + era * 400, 365);
  }

  /** Inside an era the year formula and the month formula together count days. */
  lemma OnDayIsCounted(era: int, dayOfEra: nat)
    requires dayOfEra < 146_097
    ensures OnDay(era, dayOfEra) == CountedInEra(era, dayOfEra)
  {
    YearIsRight(dayOfEra);
    var year, day := YearOfEra(dayOfEra), DayOfYear(dayOfEra);
    LengthRepeats(year, era);
    InCalendarIsCounted(year + era * 400, day);
    EraCountsYears(era, year, day, year + era * 400, dayOfEra);
  }

  lemma Epoch()
    ensures OnDay(4, 135_080) == Date(1970, 1, 1)
  {
    assert YearOfEra(135_080) == 369 && DayOfYear(135_080) == 306 && MonthIndex(306) == 10;
  }

  lemma {:induction false} ErasCountDays(days: nat, era: int, place: nat)
    requires era == (days + 719_468) / 146_097 && place == (days + 719_468) % 146_097
    ensures CountedInEra(era, place) == CountedDate(days)
    decreases days
  {
    if days == 0 {
      assert 719_468 / 146_097 == 4 && 719_468 % 146_097 == 135_080;
      OnDayIsCounted(4, 135_080);
      Epoch();
    } else {
      DivStep(days - 1 + 719_468);
      if place > 0 {
        ErasCountDays(days - 1, era, place - 1);
      } else {
        ErasCountDays(days - 1, era - 1, 146_096);
        EraEnds(era - 1);
      }
    }
  }

  lemma {:induction false} CountedIsDate(days: nat)
    ensures IsDate(CountedDate(days))
  {
    if days > 0 {
      CountedIsDate(days - 1);
    }
  }

  lemma CivilDateIsOnDay(unixSeconds: nat, era: int, dayOfEra: int)
    requires era == (unixSeconds / 86_400 + 719_468) / 146_097 && dayOfEra == (unixSeconds / 86_400 + 719_468) % 146_097
    ensures CivilDate(unixSeconds) == OnDay(era, dayOfEra)
  {
  }

  /** For every number of seconds, the closed form is the date reached by counting days, and a valid date. */
  lemma CivilDateIsCounted(unixSeconds: nat)
    ensures CivilDate(unixSeconds) == CountedDate(unixSeconds / 86_400) && IsDate(CivilDate(unixSeconds))
  {
    var days := unixSeconds / 86_400;
    var era, dayOfEra := (days + 719_468) / 146_097, (days + 719_468) % 146_097;
    CivilDateIsOnDay(unixSeconds, era, dayOfEra);
    OnDayIsCounted(era, dayOfEra);
    ErasCountDays(days, era, dayOfEra);
    CountedIsDate(days);
  }

  lemma DivStep(n: nat)
    ensures (n + 1) % 146_097 == if n % 146_097 + 1 < 146_097 then n % 146_097 + 1 else 0
    ensures (n + 1) / 146_097 == if n % 146_097 + 1 < 146_097 then n / 146_097 else n / 146_097 + 1
  {
  }

  // ----- no overflow

  predicate FitsI64(n: int) { -0x8000_0000_0000_0000 <= n < 0x8000_0000_0000_0000 }

  /** Every number the year formula goes through, for a day of an era. */
  predicate YearFits(dayOfEra: int)
  {
    var yearOfEra := YearOfEra(dayOfEra);
    && FitsI64(dayOfEra / 1_460) && FitsI64(dayOfEra - dayOfEra / 1_460) && FitsI64(dayOfEra / 36_524)
    && FitsI64(dayOfEra - dayOfEra / 1_460 + dayOfEra / 36_524) && FitsI64(dayOfEra / 146_096)
    && FitsI64(dayOfEra - dayOfEra / 1_460 + dayOfEra / 36_524 - dayOfEra / 146_096) && FitsI64(yearOfEra)
    && FitsI64(365 * yearOfEra) && FitsI64(yearOfEra / 4) && FitsI64(365 * yearOfEra + yearOfEra / 4)
    && FitsI64(yearOfEra / 100) && FitsI64(YearStart(yearOfEra)) && FitsI64(DayOfYear(dayOfEra))
  }

  /** Every number the month formula goes through, for a day of a year. */
  predicate MonthFits(dayOfYear: int)
  {
    var monthIndex := MonthIndex(dayOfYear);
    && FitsI64(5 * dayOfYear) && FitsI64(5 * dayOfYear + 2) && FitsI64(monthIndex)
    && FitsI64(153 * monthIndex) && FitsI64(153 * monthIndex + 2) && FitsI64(MonthStart(monthIndex))
    && FitsI64(dayOfYear - MonthStart(monthIndex)) && FitsI64(dayOfYear - MonthStart(monthIndex) + 1)
    && FitsI64(monthIndex + 3) && FitsI64(monthIndex - 9)
  }

  /** Every number of `civil_date`, in the order in which it is computed. */
  predicate AllFit(unixSeconds: nat)
  {
    var days := unixSeconds / 86_400;
    var shifted := days + 719_468;
    var era, dayOfEra := shifted / 146_097, shifted % 146_097;
    && FitsI64(days) && FitsI64(shifted) && FitsI64(era) && FitsI64(dayOfEra) && YearFits(dayOfEra)
    && MonthFits(DayOfYear(dayOfEra))
    && FitsI64(era * 400) && FitsI64(YearOfEra(dayOfEra) + era * 400) && FitsI64(CivilDate(unixSeconds).year)
  }

  lemma YearStaysSmall(dayOfEra: int)
    requires 0 <= dayOfEra < 146_097
    ensures YearFits(dayOfEra) && 0 <= YearOfEra(dayOfEra) < 400 && 0 <= DayOfYear(dayOfEra) <= 365
  {
    YearIsRight(dayOfEra);
  }

  lemma MonthStaysSmall(dayOfYear: int)
    requires 0 <= dayOfYear <= 365
    ensures MonthFits(dayOfYear)
  {
    MonthIsRight(dayOfYear);
  }

  /** Nothing overflows: with any u64 of seconds, every number of the computation fits an i64. */
  lemma FitsSigned(unixSeconds: nat)
    requires unixSeconds < 0x1_0000_0000_0000_0000
    ensures AllFit(unixSeconds) && 1970 <= CivilDate(unixSeconds).year
  {
    CivilDateIsCounted(unixSeconds);
    CountsUp(unixSeconds / 86_400);
    var dayOfEra := (unixSeconds / 86_400 + 719_468) % 146_097;
    YearStaysSmall(dayOfEra);
    MonthStaysSmall(DayOfYear(dayOfEra));
  }

  lemma {:induction false} CountsUp(days: nat)
    ensures 1970 <= CountedDate(days).year
  {
    if days > 0 {
      CountsUp(days - 1);
    }
  }
}
