/** Moving a date by days, weeks, months and years: the picker's `moveDay`,
    `moveWeek`, `moveMonth` and `moveYear`, which keyboard navigation and the
    relative date grammar (`+1m`, `-2y`) are built from.

    `moveMonth` lands on the same day of the target month, or on that month's
    last day when the month is shorter. A single step sets the month and then
    walks the day back while the result has overflowed into the next month;
    several steps go one month at a time, then put back the original day of
    the month and clamp once, so that Jan 31 plus two months is Mar 31 and
    not Mar 29. */
module Stepping {

  import opened Common
  import opened Calendar

  // ---------------------------------------------------------------------
  // Days and weeks

  /** `moveDay`: the same `Date` moved `dir` days; an Invalid Date stays
      invalid. */
  function MoveDay(t: Time, dir: int): Time
  {
    match t
    case NaN => NaN
    case At(d) => SetUTCDate(t, d.day + dir)
  }

  lemma DayShift(d: CalDate, n: int)
    ensures DayNumber(MakeDate(d.year, d.month, d.day + n)) == DayNumber(d) + n
  {
    MakeDateMeaning(d.year, d.month, d.day + n);
    CivilDayNumber(d);
  }

  /** Moving by days is adding to the day number, until the time range ends. */
  lemma MoveDayShift(d: CalDate, n: int)
    ensures MoveDay(At(d), n).At? <==> -MaxDays <= DayNumber(d) + n <= MaxDays
    ensures MoveDay(At(d), n).At? ==> DayNumber(MoveDay(At(d), n).date) == DayNumber(d) + n
  {
    DayShift(d, n);
    TimeRangeByDayNumber(MakeDate(d.year, d.month, d.day + n));
  }

  /** Two moves within the time range add up to one. */
  lemma MoveDayCompose(d: CalDate, a: int, b: int)
    requires MoveDay(At(d), a).At?
    ensures MoveDay(MoveDay(At(d), a), b) == MoveDay(At(d), a + b)
  {
    var e := MoveDay(At(d), a).date;
    MoveDayShift(d, a);
    MoveDayShift(e, b);
    MoveDayShift(d, a + b);
    if MoveDay(At(d), a + b).At? {
      DayNumberInjective(MoveDay(At(e), b).date, MoveDay(At(d), a + b).date);
    }
  }

  /** Dates a whole number of weeks apart fall on the same weekday. */
  lemma SameWeekday(a: CalDate, b: CalDate, k: int)
    requires DayNumber(b) == DayNumber(a) + 7 * k
    ensures Weekday(b) == Weekday(a)
  {
    Mod7Shift(DayNumber(a) + 4, k);
  }

  lemma Mod7Shift(x: int, k: int)
    ensures (x + 7 * k) % 7 == x % 7
  {
    assert x + 7 * k == 7 * (x / 7 + k) + x % 7;
  }

  lemma WeekShift(d: CalDate, dir: int)
    ensures -MaxDays <= DayNumber(d) + 7 * dir <= MaxDays
        ==> MoveDay(At(d), dir * 7).At? && DayNumber(MoveDay(At(d), dir * 7).date) == DayNumber(d) + 7 * dir
    ensures MoveDay(At(d), dir * 7).At? ==> Weekday(MoveDay(At(d), dir * 7).date) == Weekday(d)
  {
    MoveDayShift(d, dir * 7);
    if MoveDay(At(d), dir * 7).At? {
      SameWeekday(d, MoveDay(At(d), dir * 7).date, dir);
    }
  }

  /** `moveWeek`: seven days per step, landing on the same weekday. */
  function MoveWeek(t: Time, dir: int): (r: Time)
    ensures t.At? && -MaxDays <= DayNumber(t.date) + 7 * dir <= MaxDays
        ==> r.At? && DayNumber(r.date) == DayNumber(t.date) + 7 * dir
    ensures t.At? && r.At? ==> Weekday(r.date) == Weekday(t.date)
  {
    match t
    case NaN => NaN
    case At(d) => WeekShift(d, dir); MoveDay(t, dir * 7)
  }

  // ---------------------------------------------------------------------
  // Months: the specification

  /** The date `n` months after `d`, on the same day of the month or on the
      last day of a shorter month. */
  function AddMonths(d: Date, n: int): (r: Date)
    requires 1 <= d.day
    ensures IsCivil(r)
    ensures MonthIndex(r) == MonthIndex(d) + n
    ensures r.day == Min(d.day, DaysInMonth(r.year, r.month))
  {
    var mi := 12 * d.year + (d.month + n);
    Date(mi / 12, mi % 12, Min(d.day, MonthLength(mi)))
  }

  /** One call of `moveMonth` with a direction of magnitude one; an Invalid
      Date gives the configured default view date. */
  function MonthStep(t: Time, sign: int, defaultViewDate: Time): Time
  {
    match t
    case NaN => defaultViewDate
    case At(d) => Clip(AddMonths(d, sign))
  }

  /** `k` single steps, one after the other. */
  function MonthSteps(t: Time, sign: int, k: nat, defaultViewDate: Time): Time
  {
    if k == 0 then t
    else MonthStep(MonthSteps(t, sign, k - 1, defaultViewDate), sign, defaultViewDate)
  }

  /** What `moveMonth(date, dir)` returns. */
  function MoveMonthSpec(t: Time, dir: int, defaultViewDate: Time): Time
  {
    match t
    case NaN => defaultViewDate
    case At(d) =>
      if dir == 0 then t
      else if dir == 1 || dir == -1 then Clip(AddMonths(d, dir))
      else
        match MonthSteps(t, if dir > 0 then 1 else -1, if dir > 0 then dir else -dir, defaultViewDate)
        case NaN => NaN
        case At(e) => Clip(Date(e.year, e.month, Min(d.day, DaysInMonth(e.year, e.month))))
  }

  // ---------------------------------------------------------------------
  // The day-resetting loop

  /** The source's `test` closure: for a single step back, "still in the
      original month"; otherwise "not in the expected month". */
  datatype Test = SameMonthAs(month: int) | OtherMonthThan(month: int)

  /** The loop guard, stopping on an Invalid Date (see Findings in README). */
  predicate Overflowed(test: Test, t: Time)
  {
    t.At? &&
    match test
    case SameMonthAs(m) => t.date.month == m
    case OtherMonthThan(m) => t.date.month != m
  }

  /** A day past the end of month `mi` by at most the length of the next
      month lands in the next month. */
  lemma NormalizeOverflow(mi: int, day: int)
    requires MonthLength(mi) < day <= MonthLength(mi) + MonthLength(mi + 1)
    ensures Normalize(mi, day) == Date((mi + 1) / 12, (mi + 1) % 12, day - MonthLength(mi))
  {
    NormalizeStep(mi, day);
  }

  /** Where the overflowed date is out of range, so is the clamped one: the
      range ends on September 13, and a date overflowing a short month lands
      on the 1st to 3rd of the next. */
  lemma ClampedInvalid(mi: int, day: int)
    requires 1 <= day <= 31
    requires !InTimeRange(DayOf(mi, day))
    ensures IsCivil(Date(mi / 12, mi % 12, Min(day, MonthLength(mi))))
    ensures !InTimeRange(Date(mi / 12, mi % 12, Min(day, MonthLength(mi))))
  {
    NormalizeStep(mi, Min(day, MonthLength(mi)));
    if day > MonthLength(mi) {
      NormalizeOverflow(mi, day);
    }
  }

  /** A month shorter than 31 days is not December and is followed, in the
      same year, by a 31-day month. */
  lemma ShortMonth(mi: int)
    requires MonthLength(mi) < 31
    ensures mi % 12 != 11
    ensures (mi + 1) / 12 == mi / 12 && (mi + 1) % 12 == mi % 12 + 1
    ensures MonthLength(mi + 1) == 31
    ensures 12 * (mi / 12) + mi % 12 == mi
    ensures mi + 1 != LastMonth
  {
  }

  /** `setUTCDate(day - 1)` on a date that overflowed a short month lands on
      day `day - 1` of the next month, still inside the time range: the range
      ends in September, after a 31-day August. */
  lemma OverflowIntoNext(mi: int, day: int)
    requires MonthLength(mi) < day <= 31
    requires InTimeRange(DayOf(mi, day))
    ensures IsCivil(Date(mi / 12, mi % 12 + 1, day - 1))
    ensures InTimeRange(Date(mi / 12, mi % 12 + 1, day - 1))
    ensures SetUTCDate(Clip(DayOf(mi, day)), day - 1) == Clip(Date(mi / 12, mi % 12 + 1, day - 1))
  {
    ShortMonth(mi);
    NormalizeOverflow(mi, day);
    MakeDateMeaning(mi / 12, mi % 12 + 1, day - 1);
  }

  /** `setUTCMonth(newMonth)` then names day `day - 1` of month `mi`. */
  lemma BackIntoMonth(mi: int, day: int)
    requires MonthLength(mi) < 31
    requires IsCivil(Date(mi / 12, mi % 12 + 1, day - 1))
    requires InTimeRange(Date(mi / 12, mi % 12 + 1, day - 1))
    ensures SetUTCMonth(At(Date(mi / 12, mi % 12 + 1, day - 1)), mi % 12) == Clip(DayOf(mi, day - 1))
  {
    ShortMonth(mi);
  }

  /** One turn of the loop, `setUTCDate(--day); setUTCMonth(newMonth)`,
      takes the overflowed date for `day` to the one for `day - 1`. */
  lemma ResetStep(mi: int, day: int)
    requires MonthLength(mi) < day <= 31
    requires InTimeRange(DayOf(mi, day))
    ensures SetUTCMonth(SetUTCDate(Clip(DayOf(mi, day)), day - 1), mi % 12)
         == Clip(DayOf(mi, day - 1))
  {
    OverflowIntoNext(mi, day);
    BackIntoMonth(mi, day);
  }

  /** The loop guard holds exactly when the date is valid and has
      overflowed month `mi`. */
  lemma OverflowedMeans(test: Test, mi: int, d: int)
    requires 1 <= d <= 31
    requires test == OtherMonthThan(mi % 12) || test == SameMonthAs((mi + 1) % 12)
    ensures Overflowed(test, Clip(DayOf(mi, d))) <==> Clip(DayOf(mi, d)).At? && d > MonthLength(mi)
  {
    NormalizeStep(mi, d);
    if d > MonthLength(mi) {
      NormalizeOverflow(mi, d);
    }
  }

  /** Once the guard fails, the date is the clamped one. */
  lemma ResetDone(mi: int, d: int, day: int)
    requires 1 <= d <= day <= 31
    requires d == day || d >= MonthLength(mi)
    requires !(Clip(DayOf(mi, d)).At? && d > MonthLength(mi))
    ensures IsCivil(Date(mi / 12, mi % 12, Min(day, MonthLength(mi))))
    ensures Clip(DayOf(mi, d)) == Clip(Date(mi / 12, mi % 12, Min(day, MonthLength(mi))))
  {
    NormalizeStep(mi, Min(day, MonthLength(mi)));
    if Clip(DayOf(mi, d)).NaN? {
      ClampedInvalid(mi, d);
    } else {
      NormalizeStep(mi, d);
    }
  }

  /** The common day-resetting loop of `moveMonth`: the date for `day` in
      month index `mi` (possibly overflowed into the next month) ends on the
      same day of month `mi`, or on its last day. */
  method ResetDay(newDate: Time, day: int, newMonth: int, test: Test, ghost mi: int) returns (r: Time)
    requires 1 <= day <= 31
    requires newDate == Clip(DayOf(mi, day))
    requires newMonth == mi % 12
    requires test == OtherMonthThan(newMonth) || test == SameMonthAs((mi + 1) % 12)
    ensures IsCivil(Date(mi / 12, mi % 12, Min(day, MonthLength(mi))))
    ensures r == Clip(Date(mi / 12, mi % 12, Min(day, MonthLength(mi))))
  {
    var t := newDate;
    var d := day;
    OverflowedMeans(test, mi, d);
    while Overflowed(test, t)
      invariant 1 <= d <= day
      invariant d == day || d >= MonthLength(mi)
      invariant t == Clip(DayOf(mi, d))
      invariant Overflowed(test, t) <==> t.At? && d > MonthLength(mi)
      decreases d
    {
      ResetStep(mi, d);
      d := d - 1;
      t := SetUTCDate(t, d);
      t := SetUTCMonth(t, newMonth);
      OverflowedMeans(test, mi, d);
    }
    ResetDone(mi, d, day);
    r := t;
  }

  // ---------------------------------------------------------------------
  // moveMonth and moveYear

  /** The source's wrap of the expected month, `(newMonth + 12) % 12` when it
      leaves 0..11, is the month of the target month index. */
  lemma ExpectedMonth(year: int, month: int, sign: int)
    requires 0 <= month < 12
    requires sign == 1 || sign == -1
    ensures (12 * year + (month + sign)) % 12
         == if month + sign < 0 || month + sign > 11 then (month + sign + 12) % 12 else month + sign
    ensures sign == -1 ==> (12 * year + (month + sign) + 1) % 12 == month
  {
    var mi := 12 * year + (month + sign);
    if month + sign < 0 {
      assert mi == 12 * (year - 1) + 11;
    } else if month + sign > 11 {
      assert mi == 12 * (year + 1) + 0;
    }
  }

  /** After several steps, `setUTCDate(day)` names day `day` of the month
      reached, overflowing it when it is shorter. */
  lemma ResetStart(e: CalDate, day: int)
    ensures MonthIndex(e) / 12 == e.year && MonthIndex(e) % 12 == e.month
    ensures SetUTCDate(At(e), day) == Clip(DayOf(MonthIndex(e), day))
  {
    MonthIndexParts(e);
  }

  /** A single-step `moveMonth` is one `MonthStep`. */
  lemma SingleStepSpec(t: Time, sign: int, dflt: Time)
    requires sign == 1 || sign == -1
    ensures MoveMonthSpec(t, sign, dflt) == MonthStep(t, sign, dflt)
  {
  }

  /** The `mag === 1` branch of `moveMonth` followed by the day-resetting
      loop: set the month, then walk the day back while the date has
      overflowed into the following month. */
  method MoveOneMonth(d: CalDate, sign: int) returns (r: Time)
    requires sign == 1 || sign == -1
    ensures r == Clip(AddMonths(d, sign))
  {
    var newDate := At(d);
    var day := d.day;
    var month := d.month;
    ghost var mi := 12 * d.year + (month + sign);
    var newMonth := month + sign;
    newDate := SetUTCMonth(newDate, newMonth);
    assert newDate == Clip(DayOf(mi, day));
    if newMonth < 0 || newMonth > 11 {
      newMonth := (newMonth + 12) % 12;
    }
    // The closure reads `newMonth` when it runs, after the wrap above.
    var test := if sign == -1 then SameMonthAs(month) else OtherMonthThan(newMonth);
    ExpectedMonth(d.year, month, sign);
    r := ResetDay(newDate, day, newMonth, test, mi);
    assert AddMonths(d, sign) == Date(mi / 12, mi % 12, Min(day, MonthLength(mi)));
  }

  /** `moveMonth`, with the day-resetting loop stopped on an Invalid Date.
      Several months are taken one at a time, as the source does by calling
      itself with a direction of magnitude one; the original day of the
      month is then put back and clamped once. */
  method MoveMonth(date: Time, dir: int, defaultViewDate: Time) returns (r: Time)
    ensures r == MoveMonthSpec(date, dir, defaultViewDate)
    decreases if dir < 0 then -dir else dir
  {
    if date.NaN? {
      return defaultViewDate;
    }
    if dir == 0 {
      return date;
    }
    var d := date.date;
    var newDate := date;
    var day := d.day;
    var mag := if dir < 0 then -dir else dir;
    var sign := if dir > 0 then 1 else -1;
    if mag == 1 {
      r := MoveOneMonth(d, sign);
      return;
    }
    var i := 0;
    while i < mag
      invariant 0 <= i <= mag
      invariant newDate == MonthSteps(date, sign, i, defaultViewDate)
    {
      newDate := MoveMonth(newDate, sign, defaultViewDate);
      SingleStepSpec(MonthSteps(date, sign, i, defaultViewDate), sign, defaultViewDate);
      i := i + 1;
    }
    r := RestoreDay(newDate, day);
  }

  /** The end of a multi-month `moveMonth`: put back the original day of the
      month and clamp it to the month reached. */
  method RestoreDay(newDate: Time, day: int) returns (r: Time)
    requires 1 <= day <= 31
    ensures newDate.NaN? ==> r == NaN
    ensures newDate.At? ==>
      var e := newDate.date;
      r == Clip(Date(e.year, e.month, Min(day, DaysInMonth(e.year, e.month))))
  {
    match newDate
    case NaN =>
      // getUTCMonth() is NaN and setUTCDate keeps the date invalid.
      r := SetUTCDate(newDate, day);
    case At(e) =>
      var newMonth := e.month;
      var t := SetUTCDate(newDate, day);
      ghost var mi := MonthIndex(e);
      ResetStart(e, day);
      r := ResetDay(t, day, newMonth, OtherMonthThan(newMonth), mi);
  }

  /** `moveYear`: twelve months per step. */
  method MoveYear(date: Time, dir: int, defaultViewDate: Time) returns (r: Time)
    ensures r == MoveMonthSpec(date, dir * 12, defaultViewDate)
  {
    r := MoveMonth(date, dir * 12, defaultViewDate);
  }

  // ---------------------------------------------------------------------
  // What moveMonth means

  /** One more single step, when the final target is valid: the new
      intermediate date lies between the start and the target, month first
      and then day, so it is valid too. */
  lemma StepInRange(d: CalDate, x: CalDate, sign: int, n: int)
    requires sign == 1 || sign == -1
    requires InTimeRange(AddMonths(d, n))
    requires var m := MonthIndex(x) + sign - MonthIndex(d);
      if sign > 0 then 0 < m <= n else n <= m < 0
    requires Min(d.day, 28) <= x.day <= d.day
    ensures InTimeRange(AddMonths(x, sign))
  {
  }

  /** Every intermediate month of a move by `n` months stays valid, in the
      expected month, and keeps the original day up to the 28th. */
  lemma {:induction false} MonthStepsInRange(d: CalDate, sign: int, i: nat, n: int, dflt: Time)
    requires sign == 1 || sign == -1
    requires if sign > 0 then i <= n else i <= -n
    requires InTimeRange(AddMonths(d, n))
    ensures MonthSteps(At(d), sign, i, dflt).At?
    ensures MonthIndex(MonthSteps(At(d), sign, i, dflt).date)
         == if sign > 0 then MonthIndex(d) + i else MonthIndex(d) - i
    ensures Min(d.day, 28) <= MonthSteps(At(d), sign, i, dflt).date.day <= d.day
  {
    if i > 0 {
      MonthStepsInRange(d, sign, i - 1, n, dflt);
      var x := MonthSteps(At(d), sign, i - 1, dflt).date;
      StepInRange(d, x, sign, n);
    }
  }

  /** Within the time range, `moveMonth(date, n)` is `AddMonths(date, n)`:
      the same day of the month `n` months on, or the last day of that month
      when it is shorter, whatever months lie in between. */
  lemma MoveMonthMeaning(d: CalDate, n: int, dflt: Time)
    requires n != 0
    requires InTimeRange(AddMonths(d, n))
    ensures MoveMonthSpec(At(d), n, dflt) == At(AddMonths(d, n))
  {
    if n != 1 && n != -1 {
      var sign := if n > 0 then 1 else -1;
      var k: nat := if n > 0 then n else -n;
      MonthStepsInRange(d, sign, k, n, dflt);
      var e := MonthSteps(At(d), sign, k, dflt).date;
      MonthIndexParts(e);
      assert MonthIndex(e) == 12 * d.year + (d.month + n);
      assert AddMonths(d, n) == Date(e.year, e.month, Min(d.day, DaysInMonth(e.year, e.month)));
    }
  }

  /** `moveYear` keeps the month and clamps February 29 to February 28. */
  lemma MoveYearMeaning(d: CalDate, n: int, dflt: Time)
    requires n != 0
    requires InTimeRange(AddMonths(d, 12 * n))
    ensures MoveMonthSpec(At(d), n * 12, dflt)
         == At(Date(d.year + n, d.month, Min(d.day, DaysInMonth(d.year + n, d.month))))
  {
    MoveMonthMeaning(d, 12 * n, dflt);
    var mi := MonthIndex(d) + 12 * n;
    assert mi / 12 == d.year + n && mi % 12 == d.month;
  }

  /** Several months at once keep the day that single steps would lose:
      Jan 31 2000 plus two months is Mar 31 ... */
  lemma TwoMonthsKeepDay(d: CalDate, dflt: Time)
    requires d == Date(2000, 0, 31)
    ensures MoveMonthSpec(At(d), 2, dflt) == At(Date(2000, 2, 31))
  {
    assert InTimeRange(AddMonths(d, 2));
    MoveMonthMeaning(d, 2, dflt);
  }

  /** ... while two single steps go through Feb 29 to Mar 29. */
  lemma SingleStepsLoseDay(d: CalDate, dflt: Time)
    requires d == Date(2000, 0, 31)
    ensures MonthStep(MonthStep(At(d), 1, dflt), 1, dflt) == At(Date(2000, 2, 29))
  {
    assert MonthStep(At(d), 1, dflt) == At(Date(2000, 1, 29));
  }

  /** Mar 31 minus one month is Feb 28 in 1999 and Feb 29 in 2000. */
  lemma BackFromMarch31(dflt: Time)
    ensures MoveMonthSpec(At(Date(1999, 2, 31)), -1, dflt) == At(Date(1999, 1, 28))
    ensures MoveMonthSpec(At(Date(2000, 2, 31)), -1, dflt) == At(Date(2000, 1, 29))
  {
  }

  /** A year after Feb 29 2000 is Feb 28 2001. */
  lemma YearAfterLeapDay(d: CalDate, dflt: Time)
    requires d == Date(2000, 1, 29)
    ensures MoveMonthSpec(At(d), 12, dflt) == At(Date(2001, 1, 28))
  {
    assert DaysInMonth(2001, 1) == 28;
    assert InTimeRange(AddMonths(d, 12));
    MoveYearMeaning(d, 1, dflt);
  }
  // ---------------------------------------------------------------------
  // The day-resetting loop as written (see Findings in README)

  /** The guard of the day-resetting loop as the source writes it. On an
      Invalid Date `getUTCMonth()` is NaN, so `NaN === month` is false and
      `NaN !== newMonth` is true; after several steps that ended invalid,
      `newMonth` is NaN too and `NaN !== NaN` is true. */
  predicate OverflowedAsWritten(test: Test, t: Time)
  {
    match t
    case NaN => test.OtherMonthThan?
    case At(x) =>
      match test
      case SameMonthAs(m) => x.month == m
      case OtherMonthThan(m) => x.month != m
  }

  /** As written, `moveMonth(275760-08-20, 1)` never returns: September 20
      of that year is past the end of the time range, so `setUTCMonth(8)`
      gives an Invalid Date; the guard `getUTCMonth() !== newMonth` holds on
      it, and the loop body `setUTCDate(--day); setUTCMonth(newMonth)` keeps
      it invalid, so the guard holds on every turn. The corrected loop stops
      at once and `moveMonth` returns the Invalid Date. */
  lemma ForwardStepSpinsAsWritten(d: CalDate, day: int, dflt: Time)
    requires d == Date(275760, 7, 20)
    ensures SetUTCMonth(At(d), d.month + 1) == NaN
    ensures OverflowedAsWritten(OtherMonthThan(8), NaN)
    ensures SetUTCMonth(SetUTCDate(NaN, day - 1), 8) == NaN
    ensures !Overflowed(OtherMonthThan(8), NaN)
    ensures MoveMonthSpec(At(d), 1, dflt) == NaN
  {
    assert !InTimeRange(MakeDate(275760, 8, 20));
    assert !InTimeRange(AddMonths(d, 1));
  }

  /** As written, `moveMonth(-271821-05-25, -2)` never returns either: the
      first step gives April 25, the second March 25, which is before the
      time range begins; the day is then put back on the Invalid Date and
      the guard `newMonth !== getUTCMonth()` compares NaN with NaN. The
      corrected loop stops and `moveMonth` returns the Invalid Date. */
  lemma BackwardStepsSpinAsWritten(d: CalDate, newMonth: int, dflt: Time)
    requires d == Date(-271821, 4, 25)
    ensures MonthSteps(At(d), -1, 1, dflt) == At(Date(-271821, 3, 25))
    ensures MonthSteps(At(d), -1, 2, dflt) == NaN
    ensures SetUTCDate(NaN, d.day) == NaN
    ensures OverflowedAsWritten(OtherMonthThan(newMonth), NaN)
    ensures MoveMonthSpec(At(d), -2, dflt) == NaN
  {
    assert AddMonths(d, -1) == Date(-271821, 3, 25);
    var e := Date(-271821, 3, 25);
    assert !InTimeRange(AddMonths(e, -1));
  }
}
