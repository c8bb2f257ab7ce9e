/** The calendar underneath JavaScript's `Date` as the datepicker uses it:
    every date is a UTC midnight, read and written through the UTC field
    accessors (`getUTCFullYear`, `getUTCMonth`, `getUTCDate`, `getUTCDay`) and
    the UTC setters, whose overflowing arguments roll into neighbouring months.

    A date is a civil triple; its day number counts days from 1970-01-01, the
    ECMAScript epoch, and is what the source's `valueOf()` comparisons see
    (scaled by `MsPerDay`). A triple whose day number leaves the ECMAScript
    time range is an "Invalid Date" (`NaN`). */
module Calendar {

  import opened Common

  /** Milliseconds in a day: the unit of the source's `valueOf()` arithmetic. */
  const MsPerDay: int := 86400000

  /** The ECMAScript TimeClip bound of 8.64e15 ms, counted in days either side
      of 1970-01-01: the last valid date is 275760-09-13, the first is
      -271821-04-20. */
  const MaxDays: int := 100000000

  /** `month` is 0-based as `getUTCMonth()` returns it; `day` is the 1-based
      day of the month as `getUTCDate()` returns it. */
  datatype Date = Date(year: int, month: int, day: int)

  predicate IsLeapYear(year: int)
  {
    (year % 4 == 0 && year % 100 != 0) || year % 400 == 0
  }

  function DaysInMonth(year: int, month: int): (n: int)
    requires 0 <= month < 12
    ensures 28 <= n <= 31
    ensures n == 29 <==> month == 1 && IsLeapYear(year)
    ensures n == 28 <==> month == 1 && !IsLeapYear(year)
    ensures n == 30 <==> month == 3 || month == 5 || month == 8 || month == 10
  {
    if month == 1 then (if IsLeapYear(year) then 29 else 28)
    else if month == 3 || month == 5 || month == 8 || month == 10 then 30
    else 31
  }

  /** The number of leap years among the years before `year`, up to a constant. */
  function LeapsBefore(year: int): int
  {
    (year - 1) / 4 - (year - 1) / 100 + (year - 1) / 400
  }

  /** The day number of January 1 of `year`. */
  function DaysBeforeYear(year: int): int
  {
    365 * (year - 1970) + LeapsBefore(year) - LeapsBefore(1970)
  }

  /** Days of `year` that precede the first of `month`; month 12 gives the
      length of the year. */
  function DaysBeforeMonth(year: int, month: int): int
    requires 0 <= month <= 12
  {
    if month == 0 then 0
    else if month == 1 then 31
    else 59 + (153 * (month - 2) + 2) / 5 + (if IsLeapYear(year) then 1 else 0)
  }

  function DayNumber(d: Date): int
    requires 0 <= d.month < 12
  {
    DaysBeforeYear(d.year) + DaysBeforeMonth(d.year, d.month) + d.day - 1
  }

  predicate IsCivil(d: Date)
  {
    0 <= d.month < 12 && 1 <= d.day <= DaysInMonth(d.year, d.month)
  }

  /** Month indices (see `MonthIndex`) of April -271821 and September
      275760, the months in which the time range begins and ends. */
  const FirstMonth: int := 12 * -271821 + 3
  const LastMonth: int := 12 * 275760 + 8

  /** Inside the ECMAScript time range: from -271821-04-20 to 275760-09-13,
      compared month first, then day (see `TimeRangeByDayNumber`). */
  predicate InTimeRange(d: Date)
  {
    var mi := MonthIndex(d);
    (FirstMonth < mi || (mi == FirstMonth && 20 <= d.day))
    && (mi < LastMonth || (mi == LastMonth && d.day <= 13))
  }

  predicate Valid(d: Date)
  {
    IsCivil(d) && InTimeRange(d)
  }

  /** A date a JavaScript `Date` object can hold. */
  type CalDate = d: Date | Valid(d) witness Date(1970, 0, 1)

  /** A JavaScript `Date` at UTC midnight: a valid date or "Invalid Date". */
  datatype Time = NaN | At(date: CalDate)

  /** `getUTCDay()`: 0 is Sunday; 1970-01-01 was a Thursday. */
  function Weekday(d: CalDate): (w: int)
    ensures 0 <= w < 7
  {
    (DayNumber(d) + 4) % 7
  }

  /** The `<` of two `Date` objects, which compares their time values. */
  predicate Before(a: CalDate, b: CalDate)
  {
    DayNumber(a) < DayNumber(b)
  }

  // ---------------------------------------------------------------------
  // Months counted from year 0: month index 12 * year + month.

  function MonthIndex(d: Date): int
  {
    12 * d.year + d.month
  }

  function MonthLength(mi: int): int
  {
    DaysInMonth(mi / 12, mi % 12)
  }

  function FirstDay(mi: int): int
  {
    DayNumber(Date(mi / 12, mi % 12, 1))
  }

  lemma Div4Step(a: int)
    ensures (a + 1) / 4 - a / 4 == if (a + 1) % 4 == 0 then 1 else 0
  {
    assert a == 4 * (a / 4) + a % 4;
    assert a + 1 == 4 * ((a + 1) / 4) + (a + 1) % 4;
  }

  lemma Div100Step(a: int)
    ensures (a + 1) / 100 - a / 100 == if (a + 1) % 100 == 0 then 1 else 0
  {
    assert a == 100 * (a / 100) + a % 100;
    assert a + 1 == 100 * ((a + 1) / 100) + (a + 1) % 100;
  }

  lemma Div400Step(a: int)
    ensures (a + 1) / 400 - a / 400 == if (a + 1) % 400 == 0 then 1 else 0
  {
    assert a == 400 * (a / 400) + a % 400;
    assert a + 1 == 400 * ((a + 1) / 400) + (a + 1) % 400;
  }

  lemma Mult400(q: int)
    ensures (400 * q) % 100 == 0
  {
  }

  lemma Mult100(q: int)
    ensures (100 * q) % 4 == 0
  {
  }

  /** A multiple of 400 is a multiple of 100, which is a multiple of 4. */
  lemma Multiples(year: int)
    ensures year % 400 == 0 ==> year % 100 == 0
    ensures year % 100 == 0 ==> year % 4 == 0
  {
    if year % 400 == 0 {
      var q := year / 400;
      assert year == 400 * q;
      Mult400(q);
    }
    if year % 100 == 0 {
      var q := year / 100;
      assert year == 100 * q;
      Mult100(q);
    }
  }

  lemma LeapsStep(year: int)
    ensures LeapsBefore(year + 1) - LeapsBefore(year) == if IsLeapYear(year) then 1 else 0
  {
    Div4Step(year - 1);
    Div100Step(year - 1);
    Div400Step(year - 1);
    Multiples(year);
  }

  lemma YearLength(year: int)
    ensures DaysBeforeYear(year + 1) - DaysBeforeYear(year)
         == if IsLeapYear(year) then 366 else 365
  {
    LeapsStep(year);
  }

  /** Consecutive months are adjacent on the day line. */
  lemma FirstDayStep(mi: int)
    ensures FirstDay(mi + 1) == FirstDay(mi) + MonthLength(mi)
  {
    var y, m := mi / 12, mi % 12;
    assert mi == 12 * y + m;
    if m == 11 {
      assert (mi + 1) / 12 == y + 1 && (mi + 1) % 12 == 0;
      YearLength(y);
    } else {
      assert (mi + 1) / 12 == y && (mi + 1) % 12 == m + 1;
    }
  }

  lemma {:induction false} FirstDayGap(i: int, j: int)
    requires i < j
    ensures FirstDay(i) + MonthLength(i) <= FirstDay(j)
    decreases j - i
  {
    FirstDayStep(i);
    if i + 1 < j {
      FirstDayGap(i + 1, j);
    }
  }

  lemma FirstDayMonotone(i: int, j: int)
    requires i <= j
    ensures FirstDay(i) <= FirstDay(j)
  {
    if i < j {
      FirstDayGap(i, j);
    }
  }

  lemma MonthIndexParts(d: Date)
    requires 0 <= d.month < 12
    ensures MonthIndex(d) / 12 == d.year && MonthIndex(d) % 12 == d.month
  {
  }

  lemma CivilDayNumber(d: Date)
    requires IsCivil(d)
    ensures DayNumber(d) == FirstDay(MonthIndex(d)) + d.day - 1
    ensures MonthLength(MonthIndex(d)) == DaysInMonth(d.year, d.month)
  {
    var mi := MonthIndex(d);
    assert mi / 12 == d.year && mi % 12 == d.month;
  }

  /** Dates in earlier months have smaller day numbers. */
  lemma MonthOrder(a: Date, b: Date)
    requires IsCivil(a) && IsCivil(b)
    requires MonthIndex(a) < MonthIndex(b)
    ensures DayNumber(a) < DayNumber(b)
  {
    CivilDayNumber(a);
    CivilDayNumber(b);
    FirstDayGap(MonthIndex(a), MonthIndex(b));
  }

  /** The day number determines the civil date: comparing `Date` objects by
      their time value is comparing calendar dates. */
  lemma DayNumberInjective(a: Date, b: Date)
    requires IsCivil(a) && IsCivil(b)
    requires DayNumber(a) == DayNumber(b)
    ensures a == b
  {
    if MonthIndex(a) < MonthIndex(b) {
      MonthOrder(a, b);
    } else if MonthIndex(b) < MonthIndex(a) {
      MonthOrder(b, a);
    } else {
      CivilDayNumber(a);
      CivilDayNumber(b);
      var mi := MonthIndex(a);
      assert a.year == mi / 12 == b.year && a.month == mi % 12 == b.month;
    }
  }

  /** Calendar order on the fields: by year, then month, then day. */
  predicate FieldsNotAfter(a: Date, b: Date)
  {
    a.year < b.year
    || (a.year == b.year && (a.month < b.month || (a.month == b.month && a.day <= b.day)))
  }

  /** Comparing time values, as `<=` on two `Date` objects does, is
      comparing calendar dates field by field. */
  lemma DayOrderIsCalendarOrder(a: Date, b: Date)
    requires IsCivil(a) && IsCivil(b)
    ensures DayNumber(a) <= DayNumber(b) <==> FieldsNotAfter(a, b)
  {
    if MonthIndex(a) < MonthIndex(b) {
      MonthOrder(a, b);
    } else if MonthIndex(b) < MonthIndex(a) {
      MonthOrder(b, a);
    } else {
      CivilDayNumber(a);
      CivilDayNumber(b);
    }
  }

  /** The two ends of the ECMAScript time range. */
  lemma TimeRangeEnds()
    ensures DayNumber(Date(275760, 8, 13)) == MaxDays
    ensures DayNumber(Date(-271821, 3, 20)) == -MaxDays
  {
  }

  /** The time range is TimeClip's: at most 8.64e15 ms, that is `MaxDays`
      days, either side of the epoch. */
  lemma TimeRangeByDayNumber(d: Date)
    requires IsCivil(d)
    ensures InTimeRange(d) <==> -MaxDays <= DayNumber(d) <= MaxDays
  {
    var lo, hi := Date(-271821, 3, 20), Date(275760, 8, 13);
    TimeRangeEnds();
    CivilDayNumber(d);
    CivilDayNumber(lo);
    CivilDayNumber(hi);
    if MonthIndex(d) < FirstMonth {
      MonthOrder(d, lo);
    } else if MonthIndex(d) > FirstMonth {
      MonthOrder(lo, d);
    }
    if MonthIndex(d) < LastMonth {
      MonthOrder(d, hi);
    } else if MonthIndex(d) > LastMonth {
      MonthOrder(hi, d);
    }
  }

  // ---------------------------------------------------------------------
  // ECMAScript's MakeDay: a year, a month and a day of the month, each of
  // which may lie outside its usual range, name the day
  //   (first day of month `month` of `year`) + day - 1,
  // where month 12 is January of the next year and month -1 December of the
  // previous one. This is how `setUTCDate(32)` lands on the 1st or 2nd of
  // the next month and `setUTCMonth(1)` on the 31st lands in March.

  /** The date `day - 1` days after the first of month index `mi`. */
  function Normalize(mi: int, day: int): Date
    decreases if day < 1 then 1 - day else 0, if day > MonthLength(mi) then day else 0
  {
    if day < 1 then
      Normalize(mi - 1, day + MonthLength(mi - 1))
    else if day > MonthLength(mi) then
      Normalize(mi + 1, day - MonthLength(mi))
    else
      Date(mi / 12, mi % 12, day)
  }

  /** One step of the normaliser keeps the day it names. */
  lemma NormalizeStep(mi: int, day: int)
    ensures day < 1 ==>
      (Normalize(mi, day) == Normalize(mi - 1, day + MonthLength(mi - 1))
       && FirstDay(mi - 1) + (day + MonthLength(mi - 1)) == FirstDay(mi) + day)
    ensures day > MonthLength(mi) ==>
      (Normalize(mi, day) == Normalize(mi + 1, day - MonthLength(mi))
       && FirstDay(mi + 1) + (day - MonthLength(mi)) == FirstDay(mi) + day)
    ensures 1 <= day <= MonthLength(mi) ==>
      (IsCivil(Normalize(mi, day)) && DayNumber(Normalize(mi, day)) == FirstDay(mi) + day - 1)
  {
    FirstDayStep(mi - 1);
    FirstDayStep(mi);
  }

  /** The normaliser is ECMAScript's MakeDay: it lands on a civil date whose
      day number is the first of the month plus `day - 1`. */
  lemma {:induction false} NormalizeMeaning(mi: int, day: int)
    ensures IsCivil(Normalize(mi, day))
    ensures DayNumber(Normalize(mi, day)) == FirstDay(mi) + day - 1
    decreases if day < 1 then 1 - day else 0, if day > MonthLength(mi) then day else 0
  {
    NormalizeStep(mi, day);
    if day < 1 {
      NormalizeMeaning(mi - 1, day + MonthLength(mi - 1));
    } else if day > MonthLength(mi) {
      NormalizeMeaning(mi + 1, day - MonthLength(mi));
    }
  }

  /** The normaliser with the civility of its result made known. */
  function DayOf(mi: int, day: int): (r: Date)
    ensures IsCivil(r)
  {
    NormalizeMeaning(mi, day);
    Normalize(mi, day)
  }

  function MakeDate(year: int, month: int, day: int): (r: Date)
    ensures IsCivil(r)
  {
    DayOf(12 * year + month, day)
  }

  /** MakeDay's day number, and the identity on dates already in range. */
  lemma MakeDateMeaning(year: int, month: int, day: int)
    ensures DayNumber(MakeDate(year, month, day))
         == FirstDay(12 * year + month) + day - 1
    ensures 0 <= month < 12 && 1 <= day <= DaysInMonth(year, month)
        ==> MakeDate(year, month, day) == Date(year, month, day)
  {
    var mi := 12 * year + month;
    NormalizeMeaning(mi, day);
    if 0 <= month < 12 {
      assert mi / 12 == year && mi % 12 == month;
    }
  }

  /** TimeClip: a date outside the time range becomes Invalid Date. */
  function Clip(d: Date): (t: Time)
    requires IsCivil(d)
  {
    if InTimeRange(d) then At(d) else NaN
  }

  /** `new Date(Date.UTC(year, month, day))`. */
  function UTCDate(year: int, month: int, day: int): Time
  {
    Clip(MakeDate(year, month, day))
  }

  /** `t.setUTCDate(day)`: same year and month, day of month `day`. */
  function SetUTCDate(t: Time, day: int): Time
  {
    match t
    case NaN => NaN
    case At(d) => Clip(MakeDate(d.year, d.month, day))
  }

  /** `t.setUTCMonth(month)`: same year and day of month. */
  function SetUTCMonth(t: Time, month: int): Time
  {
    match t
    case NaN => NaN
    case At(d) => Clip(MakeDate(d.year, month, d.day))
  }

  /** `t.setUTCFullYear(year)`: same month and day of month; an Invalid Date
      is first taken as time value 0, that is 1970-01-01. */
  function SetUTCFullYear(t: Time, year: int): Time
  {
    match t
    case NaN => Clip(MakeDate(year, 0, 1))
    case At(d) => Clip(MakeDate(year, d.month, d.day))
  }

  /** `getUTCMonth()`, NaN for an Invalid Date. */
  function MonthOf(t: Time): Option<int>
  {
    match t
    case NaN => None
    case At(d) => Some(d.month)
  }
}
