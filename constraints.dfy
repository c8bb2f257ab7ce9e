/** The picker's constraints on dates (`startDate`, `endDate`,
    `daysOfWeekDisabled`, `datesDisabled`) and `moveAvailableDate`, the
    keyboard move that skips disabled dates and gives up when it leaves the
    allowed range. */
module Constraints {

  import opened Common
  import opened Calendar
  import opened Stepping

  /** The processed constraint options. A missing `startDate` is
      -Infinity and a missing `endDate` is +Infinity; a bound or a disabled
      date read from text may be an Invalid Date. */
  datatype Limits = Limits(
    startDate: Option<Time>,
    endDate: Option<Time>,
    daysOfWeekDisabled: seq<int>,
    datesDisabled: seq<Time>)

  /** `date >= startDate`, comparing time values: false for an Invalid
      Date on either side. */
  predicate AfterStart(t: Time, c: Limits)
  {
    match c.startDate
    case None => t.At?
    case Some(s) => t.At? && s.At? && DayNumber(s.date) <= DayNumber(t.date)
  }

  /** `date <= endDate`. */
  predicate BeforeEnd(t: Time, c: Limits)
  {
    match c.endDate
    case None => t.At?
    case Some(e) => t.At? && e.At? && DayNumber(t.date) <= DayNumber(e.date)
  }

  /** `dateWithinRange(date)`. */
  predicate DateWithinRange(t: Time, c: Limits)
  {
    AfterStart(t, c) && BeforeEnd(t, c)
  }

  /** `weekOfDateIsDisabled(date)`: its UTC weekday is listed. */
  predicate WeekOfDateIsDisabled(d: CalDate, c: Limits)
  {
    Weekday(d) in c.daysOfWeekDisabled
  }

  /** `dateIsDisabled(date)`: its weekday is disabled, or a disabled date
      has the same UTC year, month and day. */
  predicate DateIsDisabled(d: CalDate, c: Limits)
  {
    WeekOfDateIsDisabled(d, c) || At(d) in c.datesDisabled
  }

  /** `dateWithinRange`: an Invalid Date is never within the range, and
      no date is within an Invalid bound; a missing bound (an infinity)
      imposes nothing; otherwise the date lies between the bounds in
      calendar order, both ends included. */
  lemma WithinRangeMeaning(t: Time, c: Limits)
    ensures t.NaN? ==> !DateWithinRange(t, c)
    ensures c.startDate == Some(NaN) || c.endDate == Some(NaN) ==> !DateWithinRange(t, c)
    ensures t.At? && c.startDate.None? && c.endDate.None? ==> DateWithinRange(t, c)
    ensures t.At? ==>
      (DateWithinRange(t, c) <==>
        (c.startDate.None? || (c.startDate.value.At? && FieldsNotAfter(c.startDate.value.date, t.date)))
        && (c.endDate.None? || (c.endDate.value.At? && FieldsNotAfter(t.date, c.endDate.value.date))))
  {
    if t.At? {
      if c.startDate.Some? && c.startDate.value.At? {
        DayOrderIsCalendarOrder(c.startDate.value.date, t.date);
      }
      if c.endDate.Some? && c.endDate.value.At? {
        DayOrderIsCalendarOrder(t.date, c.endDate.value.date);
      }
    }
  }

  /** `weekOfDateIsDisabled` depends on the weekday only: dates a whole
      number of weeks apart are disabled alike. */
  lemma WeekDisabledPeriodic(d: CalDate, e: CalDate, c: Limits)
    requires (DayNumber(e) - DayNumber(d)) % 7 == 0
    ensures WeekOfDateIsDisabled(d, c) <==> WeekOfDateIsDisabled(e, c)
  {
    var x, y := DayNumber(d) + 4, DayNumber(e) + 4;
    WholeWeeks(x, y);
    assert Weekday(e) == y % 7 == x % 7 == Weekday(d);
  }

  /** Numbers a whole number of weeks apart have the same remainder. */
  lemma WholeWeeks(x: int, y: int)
    requires (y - x) % 7 == 0
    ensures y % 7 == x % 7
  {
    var k := (y - x) / 7;
    assert y == x + 7 * k;
  }

  /** `getUTCDay()` counts from Sunday, so disabling `[0, 6]` disables
      exactly the weekend: 3 and 4 January 1970 but not 5 to 9 January. */
  lemma WeekendDisabled(c: Limits)
    requires c.daysOfWeekDisabled == [0, 6]
    ensures WeekOfDateIsDisabled(Date(1970, 0, 3), c) && WeekOfDateIsDisabled(Date(1970, 0, 4), c)
    ensures forall day :: 5 <= day <= 9 ==> !WeekOfDateIsDisabled(Date(1970, 0, day), c)
  {
    forall day | 5 <= day <= 9
      ensures !WeekOfDateIsDisabled(Date(1970, 0, day), c)
    {
      assert DayNumber(Date(1970, 0, day)) == day - 1;
    }
  }

  /** `dateIsDisabled`: the weekday is disabled, or some entry of
      `datesDisabled` has the same UTC year, month and day (`isUTCEquals`);
      an Invalid entry matches nothing. */
  lemma DisabledMeaning(d: CalDate, c: Limits)
    ensures DateIsDisabled(d, c) <==>
      WeekOfDateIsDisabled(d, c)
      || exists i :: 0 <= i < |c.datesDisabled| && c.datesDisabled[i].At?
           && c.datesDisabled[i].date.year == d.year
           && c.datesDisabled[i].date.month == d.month
           && c.datesDisabled[i].date.day == d.day
  {
    if i :| (0 <= i < |c.datesDisabled| && c.datesDisabled[i].At?
             && c.datesDisabled[i].date.year == d.year
             && c.datesDisabled[i].date.month == d.month
             && c.datesDisabled[i].date.day == d.day) {
      assert c.datesDisabled[i] == At(d);
    }
  }

  /** The first move of `moveAvailableDate`. */
  datatype Mover = ByDay | ByWeek | ByMonth | ByYear

  function Moved(fn: Mover, t: Time, dir: int, defaultViewDate: Time): Time
  {
    match fn
    case ByDay => MoveDay(t, dir)
    case ByWeek => MoveWeek(t, dir)
    case ByMonth => MoveMonthSpec(t, dir, defaultViewDate)
    case ByYear => MoveMonthSpec(t, dir * 12, defaultViewDate)
  }

  /** How far `d` is from the end of the time range the moves head for. */
  function Room(d: CalDate, dir: int): nat
  {
    TimeRangeByDayNumber(d);
    if dir > 0 then MaxDays - DayNumber(d) else DayNumber(d) + MaxDays
  }

  /** Single day moves from `d` until a date that is not disabled; `None`
      as soon as a date falls outside the allowed range. */
  function NextAvailable(d: CalDate, dir: int, c: Limits): (r: Option<CalDate>)
    requires dir != 0
    ensures r.Some? ==> DateWithinRange(At(r.value), c) && !DateIsDisabled(r.value, c)
    decreases Room(d, dir)
  {
    MoveDayShift(d, dir);
    match MoveDay(At(d), dir)
    case NaN => None
    case At(e) =>
      if !DateWithinRange(At(e), c) then None
      else if DateIsDisabled(e, c) then NextAvailable(e, dir, c)
      else Some(e)
  }

  /** What `moveAvailableDate(date, dir, fn)` returns: `None` for `false`. */
  function AvailableDate(t: Time, dir: int, fn: Mover, c: Limits, defaultViewDate: Time): (r: Option<CalDate>)
    requires dir != 0
    ensures r.Some? ==> DateWithinRange(At(r.value), c) && !DateIsDisabled(r.value, c)
  {
    var first := Moved(fn, t, dir, defaultViewDate);
    if !DateWithinRange(first, c) then None
    else if DateIsDisabled(first.date, c) then NextAvailable(first.date, dir, c)
    else Some(first.date)
  }

  /** The first move, made with the picker's own moves. */
  method MoveBy(fn: Mover, t: Time, dir: int, defaultViewDate: Time) returns (r: Time)
    ensures r == Moved(fn, t, dir, defaultViewDate)
  {
    match fn
    case ByDay => r := MoveDay(t, dir);
    case ByWeek => r := MoveWeek(t, dir);
    case ByMonth => r := MoveMonth(t, dir, defaultViewDate);
    case ByYear => r := MoveYear(t, dir, defaultViewDate);
  }

  /** `moveAvailableDate(date, dir, fn)`: move with `fn`, then a day at a
      time while the date is disabled; `None` (the source's `false`) as soon
      as a date leaves the range. The direction is never 0 in the picker
      (the arrow keys give 1, -1, 4 or -4); with 0 the loop would not end
      on a disabled date. */
  method MoveAvailableDate(date: Time, dir: int, fn: Mover, c: Limits, defaultViewDate: Time)
    returns (r: Option<CalDate>)
    requires dir != 0
    ensures r == AvailableDate(date, dir, fn, c, defaultViewDate)
  {
    var t := MoveBy(fn, date, dir, defaultViewDate);
    if !DateWithinRange(t, c) {
      return None;
    }
    var d := t.date;
    while DateIsDisabled(d, c)
      invariant AvailableDate(date, dir, fn, c, defaultViewDate)
             == if DateIsDisabled(d, c) then NextAvailable(d, dir, c) else Some(d)
      decreases Room(d, dir)
    {
      MoveDayShift(d, dir);
      var next := MoveDay(At(d), dir);
      if !DateWithinRange(next, c) {
        return None;
      }
      d := next.date;
    }
    return Some(d);
  }

  // ---------------------------------------------------------------------
  // What the move means

  /** A date the loop steps over: valid, in the range and disabled. */
  predicate Blocked(t: Time, c: Limits)
  {
    t.At? && DateWithinRange(t, c) && DateIsDisabled(t.date, c)
  }

  /** The first `k - 1` single days after `d` are all stepped over. */
  predicate SkipsTo(d: CalDate, dir: int, k: int, c: Limits)
  {
    forall j :: 1 <= j < k ==> Blocked(MoveDay(At(d), j * dir), c)
  }

  /** Moving `j` days from the day after `d` is moving `j + 1` days from
      `d`. */
  lemma MoveOneMore(d: CalDate, dir: int, j: int)
    requires MoveDay(At(d), dir).At?
    ensures MoveDay(MoveDay(At(d), dir), j * dir) == MoveDay(At(d), (j + 1) * dir)
  {
    MoveDayCompose(d, dir, j * dir);
    assert dir + j * dir == (j + 1) * dir;
  }

  lemma SkipsOneMore(d: CalDate, dir: int, k: int, c: Limits)
    requires Blocked(MoveDay(At(d), dir), c)
    requires SkipsTo(MoveDay(At(d), dir).date, dir, k, c)
    ensures SkipsTo(d, dir, k + 1, c)
  {
    forall j | 1 <= j < k + 1
      ensures Blocked(MoveDay(At(d), j * dir), c)
    {
      if j > 1 {
        MoveOneMore(d, dir, j - 1);
      } else {
        assert j * dir == dir;
      }
    }
  }

  /** The date found is the first date, a whole number of single days on,
      that is not disabled: every date skipped on the way was in the range
      and disabled. */
  lemma {:induction false} NextAvailableIsFirst(d: CalDate, dir: int, c: Limits)
    requires dir != 0
    requires NextAvailable(d, dir, c).Some?
    ensures exists k :: k >= 1 && MoveDay(At(d), k * dir) == At(NextAvailable(d, dir, c).value)
                        && SkipsTo(d, dir, k, c)
    decreases Room(d, dir)
  {
    MoveDayShift(d, dir);
    var e := MoveDay(At(d), dir).date;
    if DateIsDisabled(e, c) {
      NextAvailableIsFirst(e, dir, c);
      var k :| k >= 1 && MoveDay(At(e), k * dir) == At(NextAvailable(e, dir, c).value) && SkipsTo(e, dir, k, c);
      MoveOneMore(d, dir, k);
      SkipsOneMore(d, dir, k, c);
      assert MoveDay(At(d), (k + 1) * dir) == At(NextAvailable(d, dir, c).value);
    } else {
      assert 1 * dir == dir;
      assert SkipsTo(d, dir, 1, c);
    }
  }

  lemma SkipsOneLess(d: CalDate, dir: int, k: int, c: Limits)
    requires Blocked(MoveDay(At(d), dir), c)
    requires SkipsTo(d, dir, k, c)
    ensures SkipsTo(MoveDay(At(d), dir).date, dir, k - 1, c)
  {
    forall j | 1 <= j < k - 1
      ensures Blocked(MoveDay(MoveDay(At(d), dir), j * dir), c)
    {
      MoveOneMore(d, dir, j);
      assert Blocked(MoveDay(At(d), (j + 1) * dir), c);
    }
  }

  /** Conversely, the first date a whole number of single days on that is
      in the range and not disabled, with every date before it skipped, is
      the date found. */
  lemma {:induction false} NextAvailableReaches(d: CalDate, dir: int, k: int, c: Limits)
    requires dir != 0 && k >= 1
    requires SkipsTo(d, dir, k, c)
    requires DateWithinRange(MoveDay(At(d), k * dir), c) && !DateIsDisabled(MoveDay(At(d), k * dir).date, c)
    ensures NextAvailable(d, dir, c) == Some(MoveDay(At(d), k * dir).date)
    decreases k
  {
    MoveDayShift(d, dir);
    assert 1 * dir == dir;
    if k > 1 {
      assert Blocked(MoveDay(At(d), 1 * dir), c);
      var e := MoveDay(At(d), dir).date;
      SkipsOneLess(d, dir, k, c);
      MoveOneMore(d, dir, k - 1);
      NextAvailableReaches(e, dir, k - 1, c);
    }
  }

  /** No date is found only when the single-day moves leave the range
      before reaching a date that is not disabled. */
  lemma {:induction false} NextAvailableNone(d: CalDate, dir: int, c: Limits)
    requires dir != 0
    requires NextAvailable(d, dir, c).None?
    ensures exists k :: k >= 1 && SkipsTo(d, dir, k, c) && !DateWithinRange(MoveDay(At(d), k * dir), c)
    decreases Room(d, dir)
  {
    MoveDayShift(d, dir);
    assert 1 * dir == dir;
    var next := MoveDay(At(d), dir);
    if !DateWithinRange(next, c) {
      assert SkipsTo(d, dir, 1, c);
    } else {
      var e := next.date;
      NextAvailableNone(e, dir, c);
      var k :| k >= 1 && SkipsTo(e, dir, k, c) && !DateWithinRange(MoveDay(At(e), k * dir), c);
      MoveOneMore(d, dir, k);
      SkipsOneMore(d, dir, k, c);
    }
  }

  /** `moveAvailableDate` gives `false` only when the first move, or one of
      the single-day moves after it, leaves the range. */
  lemma AvailableDateNone(t: Time, dir: int, fn: Mover, c: Limits, defaultViewDate: Time)
    requires dir != 0
    requires AvailableDate(t, dir, fn, c, defaultViewDate).None?
    ensures var first := Moved(fn, t, dir, defaultViewDate);
      !DateWithinRange(first, c)
      || exists k :: k >= 1 && SkipsTo(first.date, dir, k, c) && !DateWithinRange(MoveDay(first, k * dir), c)
  {
    var first := Moved(fn, t, dir, defaultViewDate);
    if DateWithinRange(first, c) {
      NextAvailableNone(first.date, dir, c);
    }
  }

  /** With nothing disabled, a move lands on the first move's date, or
      fails when that leaves the range. */
  lemma NothingDisabled(t: Time, dir: int, fn: Mover, c: Limits, defaultViewDate: Time)
    requires dir != 0
    requires c.daysOfWeekDisabled == [] && c.datesDisabled == []
    ensures var first := Moved(fn, t, dir, defaultViewDate);
      AvailableDate(t, dir, fn, c, defaultViewDate)
        == if DateWithinRange(first, c) then Some(first.date) else None
  {
  }

  /** A date that is disabled or out of range is never the result. */
  lemma ResultIsAllowed(t: Time, dir: int, fn: Mover, c: Limits, defaultViewDate: Time, e: CalDate)
    requires dir != 0
    requires !DateWithinRange(At(e), c) || DateIsDisabled(e, c)
    ensures AvailableDate(t, dir, fn, c, defaultViewDate) != Some(e)
  {
  }
}
