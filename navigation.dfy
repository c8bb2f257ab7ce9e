/** The state a picker keeps for keyboard navigation: which date has the
    keyboard focus, which month or year the calendar shows, which view
    (days, months, years, ...) is open and whether the popup is shown; and
    the option processing that fixes the views a picker may open, its
    `multidate` policy and its first and last day of the week. */
module Navigation {

  import opened Common
  import opened Calendar
  import opened Stepping
  import opened Selection
  import opened Constraints

  // ---------------------------------------------------------------------
  // View names

  /** A view option as given: a number, a string, or anything else. */
  datatype ViewArg = ViewNumber(n: int) | ViewText(s: string) | ViewOther

  /** The two names each view goes by, in view order: days, months, years,
      decades, centuries. */
  const ViewNames: seq<(string, string)> := [
    ("days", "month"), ("months", "year"), ("years", "decade"),
    ("decades", "century"), ("centuries", "millennium")
  ]

  /** `view` denotes view `i`: by its number or by either of its names. */
  predicate NamesView(view: ViewArg, i: int)
  {
    0 <= i < |ViewNames|
    && (view == ViewNumber(i) || view == ViewText(ViewNames[i].0) || view == ViewText(ViewNames[i].1))
  }

  /** `_resolveViewName(view, defaultValue)`: the view's number; otherwise
      the default, `None` standing for `false` when there is no default. */
  function ResolveViewName(view: ViewArg, defaultValue: Option<int>): (r: Option<int>)
    ensures forall i :: NamesView(view, i) ==> r == Some(i)
    ensures (forall i :: 0 <= i < |ViewNames| ==> !NamesView(view, i)) ==> r == defaultValue
  {
    if view == ViewNumber(0) || view == ViewText("days") || view == ViewText("month") then
      assert NamesView(view, 0); Some(0)
    else if view == ViewNumber(1) || view == ViewText("months") || view == ViewText("year") then
      assert NamesView(view, 1); Some(1)
    else if view == ViewNumber(2) || view == ViewText("years") || view == ViewText("decade") then
      assert NamesView(view, 2); Some(2)
    else if view == ViewNumber(3) || view == ViewText("decades") || view == ViewText("century") then
      assert NamesView(view, 3); Some(3)
    else if view == ViewNumber(4) || view == ViewText("centuries") || view == ViewText("millennium") then
      assert NamesView(view, 4); Some(4)
    else
      defaultValue
  }

  // ---------------------------------------------------------------------
  // Option processing

  /** The `multidate` option as given: `true`, `false`, or a number
      (`Number(x)` of any other value). */
  datatype MultidateArg = MultidateTrue | MultidateFalse | MultidateNumber(n: int)

  /** `true` stays; anything else becomes `Number(x) || false`, and a number
      is then raised to at least 0. */
  function CoerceMultidate(m: MultidateArg): (r: Multidate)
    ensures r.Unlimited? <==> m.MultidateTrue?
    ensures r.Single? <==> m.MultidateFalse? || m == MultidateNumber(0)
    ensures m.MultidateNumber? && m.n > 0 ==> r == Cap(m.n)
    ensures m.MultidateNumber? && m.n < 0 ==> r == Cap(0)
  {
    match m
    case MultidateTrue => Unlimited
    case MultidateFalse => Single
    case MultidateNumber(n) =>
      if n == 0 then Single
      else Cap(if n < 0 then 0 else n)
  }

  /** JavaScript's `a % 7`: the remainder truncated toward zero, so it
      takes the sign of `a`. */
  function Rem7(a: int): (r: int)
    ensures -7 < r < 7
    ensures (a - r) % 7 == 0
    ensures a >= 0 ==> r >= 0
    ensures a < 0 ==> r <= 0
  {
    if a >= 0 then a % 7 else -((-a) % 7)
  }

  /** The options as given. */
  datatype RawOptions = RawOptions(
    startView: ViewArg,
    minViewMode: ViewArg,
    maxViewMode: ViewArg,
    multidate: MultidateArg,
    weekStart: int)

  /** The options after `_processOptions`. */
  datatype ViewOptions = ViewOptions(
    startView: int,
    minViewMode: int,
    maxViewMode: int,
    multidate: Multidate,
    weekStart: int,
    weekEnd: int)

  /** Views resolved with defaults 0, 0 and 4; the start view clamped into
      `[minViewMode, maxViewMode]` (the maximum applied first); `multidate`
      coerced; `weekStart %= 7` and `weekEnd = (weekStart + 6) % 7`. */
  function ProcessOptions(raw: RawOptions): (o: ViewOptions)
    ensures 0 <= o.minViewMode <= 4 && 0 <= o.maxViewMode <= 4
    ensures o.minViewMode <= o.maxViewMode ==> o.minViewMode <= o.startView <= o.maxViewMode
    ensures o.minViewMode > o.maxViewMode ==> o.startView == o.minViewMode
    ensures var s := ResolveViewName(raw.startView, Some(0));
      s.Some?
      && (o.minViewMode <= s.value <= o.maxViewMode ==> o.startView == s.value)
      && (o.minViewMode <= o.maxViewMode < s.value ==> o.startView == o.maxViewMode)
      && (s.value < o.minViewMode ==> o.startView == o.minViewMode)
    ensures o.multidate == CoerceMultidate(raw.multidate)
    ensures -7 < o.weekStart < 7 && 0 <= o.weekEnd < 7
    ensures raw.weekStart >= 0 ==> o.weekStart == raw.weekStart % 7 && (o.weekEnd + 1) % 7 == o.weekStart
  {
    var startView := ResolveViewName(raw.startView, Some(0)).value;
    var minViewMode := ResolveViewName(raw.minViewMode, Some(0)).value;
    var maxViewMode := ResolveViewName(raw.maxViewMode, Some(4)).value;
    var startView' := Max(Min(startView, maxViewMode), minViewMode);
    var weekStart := Rem7(raw.weekStart);
    ViewOptions(startView', minViewMode, maxViewMode, CoerceMultidate(raw.multidate),
      weekStart, Rem7(weekStart + 6))
  }

  /** A view given by name is the view of that number. */
  lemma NamedViews(raw: RawOptions, i: int)
    requires 0 <= i < |ViewNames|
    requires raw.startView == ViewText(ViewNames[i].1) && raw.minViewMode == ViewOther && raw.maxViewMode == ViewOther
    ensures ProcessOptions(raw).startView == i
  {
    assert NamesView(raw.startView, i);
    forall k | 0 <= k < |ViewNames|
      ensures !NamesView(ViewOther, k)
    {
    }
  }

  // ---------------------------------------------------------------------
  // The navigation state

  /** The options keyboard navigation reads, and two facts about the
      element: whether the picker is inline (always shown) and whether its
      input is disabled, or read-only with `enableOnReadonly` off. */
  datatype Options = Options(
    view: ViewOptions,
    limits: Limits,
    toggleActive: bool,
    keyboardNavigation: bool,
    forceParse: bool,
    autoclose: bool,
    defaultViewDate: Time,
    isInline: bool,
    inputLocked: bool)

  /** What a key press may change. */
  datatype State = State(
    focusDate: Option<CalDate>,
    viewDate: CalDate,
    viewMode: int,
    visible: bool,
    selected: seq<CalDate>)

  /** `dates.get(-1) || fallback`: the latest selected date, if any. */
  function LastOr(selected: seq<CalDate>, fallback: CalDate): (r: CalDate)
    ensures |selected| > 0 ==> r == selected[|selected| - 1]
    ensures |selected| == 0 ==> r == fallback
  {
    if |selected| > 0 then selected[|selected| - 1] else fallback
  }

  /** `showMode(dir)`: a non-zero step clamped into
      `[minViewMode, maxViewMode]`. */
  function ShowModeStep(viewMode: int, dir: int, v: ViewOptions): (r: int)
    ensures dir == 0 ==> r == viewMode
    ensures dir != 0 && v.minViewMode <= v.maxViewMode ==> v.minViewMode <= r <= v.maxViewMode
    ensures dir != 0 && v.minViewMode <= viewMode + dir <= v.maxViewMode ==> r == viewMode + dir
    ensures dir != 0 && v.minViewMode <= v.maxViewMode < viewMode + dir ==> r == v.maxViewMode
    ensures dir != 0 && viewMode + dir < v.minViewMode ==> r == v.minViewMode
    ensures dir != 0 && v.minViewMode > v.maxViewMode ==> r == v.minViewMode
  {
    if dir != 0 then Max(v.minViewMode, Min(v.maxViewMode, viewMode + dir)) else viewMode
  }

  /** `show()`, less the DOM work: nothing when the input is locked. */
  function ShowStep(s: State, o: Options): State
  {
    if o.inputLocked then s else s.(visible := true)
  }

  /** `hide()`, less the DOM work: nothing for an inline or hidden picker;
      otherwise the focus is dropped and the start view comes back. */
  function HideStep(s: State, o: Options): State
  {
    if o.isInline || !s.visible then s
    else s.(focusDate := None, visible := false, viewMode := o.view.startView)
  }

  /** The date an arrow key moves the focus to, if any. */
  function ArrowMove(s: State, key: int, ctrl: bool, shift: bool, o: Options): (r: Option<CalDate>)
    ensures r.Some? ==> DateWithinRange(At(r.value), o.limits) && !DateIsDisabled(r.value, o.limits)
  {
    if !o.keyboardNavigation || |o.limits.daysOfWeekDisabled| == 7 then None
    else
      var dir := if key == 37 || key == 38 then -1 else 1;
      var vertical := key == 38 || key == 40;
      var focus := At(if s.focusDate.Some? then s.focusDate.value else s.viewDate);
      if s.viewMode == 0 then
        if ctrl then AvailableDate(focus, dir, ByYear, o.limits, o.defaultViewDate)
        else if shift then AvailableDate(focus, dir, ByMonth, o.limits, o.defaultViewDate)
        else if !vertical then AvailableDate(focus, dir, ByDay, o.limits, o.defaultViewDate)
        else if !WeekOfDateIsDisabled(focus.date, o.limits) then AvailableDate(focus, dir, ByWeek, o.limits, o.defaultViewDate)
        else None
      else if s.viewMode == 1 then
        AvailableDate(focus, if vertical then dir * 4 else dir, ByMonth, o.limits, o.defaultViewDate)
      else if s.viewMode == 2 then
        AvailableDate(focus, if vertical then dir * 4 else dir, ByYear, o.limits, o.defaultViewDate)
      else None
  }

  /** Enter (with `forceParse`): toggle the focused date, or the latest
      selected one, or the view date; drop the focus; close when
      `autoclose` is set. */
  function EnterStep(s: State, o: Options): State
  {
    var focus := if s.focusDate.Some? then s.focusDate.value else LastOr(s.selected, s.viewDate);
    var selected := if o.keyboardNavigation then Toggled(s.selected, focus, o.view.multidate, o.toggleActive) else s.selected;
    var s' := s.(focusDate := None, viewDate := LastOr(selected, s.viewDate), selected := selected);
    if o.autoclose then HideStep(s', o) else s'
  }

  /** `keydown(e)` for the key code `key`, less the DOM work. */
  function KeyStep(s: State, key: int, ctrl: bool, shift: bool, o: Options): State
  {
    if !s.visible then
      if key == 40 || key == 27 then ShowStep(s, o) else s
    else if key == 27 then
      if s.focusDate.Some? then s.(focusDate := None, viewDate := LastOr(s.selected, s.viewDate))
      else HideStep(s, o)
    else if 37 <= key <= 40 then
      match ArrowMove(s, key, ctrl, shift, o)
      case None => s
      case Some(d) => s.(focusDate := Some(d), viewDate := d)
    else if key == 13 then
      if o.forceParse then EnterStep(s, o) else s
    else if key == 9 then
      HideStep(s.(focusDate := None, viewDate := LastOr(s.selected, s.viewDate)), o)
    else s
  }

  /** A picker's navigation state, with the selected dates it shares with
      `_toggleMultidate`. */
  class Picker {
    const o: Options
    const dates: DateArray
    var focusDate: Option<CalDate>
    var viewDate: CalDate
    var viewMode: int
    var visible: bool

    function Snapshot(): State
      reads this, dates
    {
      State(focusDate, viewDate, viewMode, visible, dates.items)
    }

    /** A picker over `dates`, showing `viewDate` in the start view; an
        inline picker is shown at once. */
    constructor (o: Options, dates: DateArray, viewDate: CalDate)
      ensures this.o == o && this.dates == dates
      ensures focusDate == None && this.viewDate == viewDate && viewMode == o.view.startView
      ensures visible == (o.isInline && !o.inputLocked)
    {
      this.o := o;
      this.dates := dates;
      focusDate := None;
      this.viewDate := viewDate;
      viewMode := o.view.startView;
      visible := o.isInline && !o.inputLocked;
    }

    /** `showMode(dir)`. */
    method ShowMode(dir: int)
      modifies this
      ensures viewMode == ShowModeStep(old(viewMode), dir, o.view)
      ensures focusDate == old(focusDate) && viewDate == old(viewDate) && visible == old(visible)
    {
      if dir != 0 {
        viewMode := Max(o.view.minViewMode, Min(o.view.maxViewMode, viewMode + dir));
      }
    }

    /** `show()`. */
    method Show()
      modifies this
      ensures Snapshot() == ShowStep(old(Snapshot()), o)
    {
      if o.inputLocked {
        return;
      }
      visible := true;
    }

    /** `hide()`. */
    method Hide()
      modifies this
      ensures Snapshot() == HideStep(old(Snapshot()), o)
    {
      if o.isInline || !visible {
        return;
      }
      focusDate := None;
      visible := false;
      viewMode := o.view.startView;
      ShowMode(0);
    }

    /** `dates.get(-1) || viewDate`. */
    method LastOrViewDate() returns (d: CalDate)
      ensures d == LastOr(dates.items, viewDate)
    {
      var last := dates.Get(-1);
      d := if last.Some? then last.value else viewDate;
    }

    /** `keydown(e)`: escape, the arrow keys, enter and tab. */
    method Keydown(key: int, ctrl: bool, shift: bool)
      modifies this, dates
      ensures Snapshot() == KeyStep(old(Snapshot()), key, ctrl, shift, o)
    {
      if !visible {
        if key == 40 || key == 27 {
          Show();
        }
        return;
      }
      var focus := if focusDate.Some? then focusDate.value else viewDate;
      if key == 27 {
        if focusDate.Some? {
          focusDate := None;
          viewDate := LastOrViewDate();
        } else {
          Hide();
        }
      } else if 37 <= key <= 40 {
        if !o.keyboardNavigation || |o.limits.daysOfWeekDisabled| == 7 {
          return;
        }
        var dir := if key == 37 || key == 38 then -1 else 1;
        var newViewDate: Option<CalDate> := None;
        if viewMode == 0 {
          if ctrl {
            newViewDate := MoveAvailableDate(At(focus), dir, ByYear, o.limits, o.defaultViewDate);
          } else if shift {
            newViewDate := MoveAvailableDate(At(focus), dir, ByMonth, o.limits, o.defaultViewDate);
          } else if key == 37 || key == 39 {
            newViewDate := MoveAvailableDate(At(focus), dir, ByDay, o.limits, o.defaultViewDate);
          } else if !WeekOfDateIsDisabled(focus, o.limits) {
            newViewDate := MoveAvailableDate(At(focus), dir, ByWeek, o.limits, o.defaultViewDate);
          }
        } else if viewMode == 1 {
          if key == 38 || key == 40 {
            dir := dir * 4;
          }
          newViewDate := MoveAvailableDate(At(focus), dir, ByMonth, o.limits, o.defaultViewDate);
        } else if viewMode == 2 {
          if key == 38 || key == 40 {
            dir := dir * 4;
          }
          newViewDate := MoveAvailableDate(At(focus), dir, ByYear, o.limits, o.defaultViewDate);
        }
        if newViewDate.Some? {
          focusDate := newViewDate;
          viewDate := newViewDate.value;
        }
      } else if key == 13 {
        if !o.forceParse {
          return;
        }
        var chosen := LastOrViewDate();
        if focusDate.Some? {
          chosen := focusDate.value;
        }
        if o.keyboardNavigation {
          ToggleMultidate(dates, chosen, o.view.multidate, o.toggleActive);
        }
        focusDate := None;
        viewDate := LastOrViewDate();
        if visible && o.autoclose {
          Hide();
        }
      } else if key == 9 {
        focusDate := None;
        viewDate := LastOrViewDate();
        Hide();
      }
    }
  }

  // ---------------------------------------------------------------------
  // What a key press means

  predicate ViewRange(s: State, v: ViewOptions)
  {
    v.minViewMode <= s.viewMode <= v.maxViewMode
  }

  /** No key press takes the view out of `[minViewMode, maxViewMode]` once
      the options have been processed. */
  lemma KeysKeepView(s: State, key: int, ctrl: bool, shift: bool, o: Options, raw: RawOptions)
    requires o.view == ProcessOptions(raw)
    requires ViewRange(s, o.view)
    ensures ViewRange(KeyStep(s, key, ctrl, shift, o), o.view)
  {
  }

  /** An arrow key either changes nothing or moves both the focus and the
      view to one date, in the range and not disabled; the selection never
      changes. */
  lemma ArrowLandsOnAllowedDate(s: State, key: int, ctrl: bool, shift: bool, o: Options)
    requires s.visible && 37 <= key <= 40
    ensures var s' := KeyStep(s, key, ctrl, shift, o);
      s' == s
      || (s'.focusDate == Some(s'.viewDate) && s' == s.(focusDate := s'.focusDate, viewDate := s'.viewDate)
          && DateWithinRange(At(s'.viewDate), o.limits) && !DateIsDisabled(s'.viewDate, o.limits))
  {
  }

  /** With nothing disabled and no bounds, the right arrow in the days view
      moves the focus to the next day. */
  lemma RightArrowNextDay(s: State, o: Options, e: CalDate)
    requires s.visible && s.viewMode == 0 && o.keyboardNavigation
    requires o.limits == Limits(None, None, [], [])
    requires MoveDay(At(if s.focusDate.Some? then s.focusDate.value else s.viewDate), 1) == At(e)
    ensures KeyStep(s, 39, false, false, o) == s.(focusDate := Some(e), viewDate := e)
  {
    NothingDisabled(At(if s.focusDate.Some? then s.focusDate.value else s.viewDate), 1, ByDay, o.limits, o.defaultViewDate);
  }

  /** With nothing disabled and no bounds, the up arrow in the months view
      moves the focus four months back, to the same day or the last day of a
      shorter month. */
  lemma UpArrowFourMonthsBack(s: State, o: Options, d: CalDate)
    requires s.visible && s.viewMode == 1 && o.keyboardNavigation
    requires o.limits == Limits(None, None, [], [])
    requires d == if s.focusDate.Some? then s.focusDate.value else s.viewDate
    requires InTimeRange(AddMonths(d, -4))
    ensures KeyStep(s, 38, false, false, o) == s.(focusDate := Some(AddMonths(d, -4)), viewDate := AddMonths(d, -4))
  {
    NothingDisabled(At(d), -4, ByMonth, o.limits, o.defaultViewDate);
    MoveMonthMeaning(d, -4, o.defaultViewDate);
  }

  /** Enter toggles the focused date, else the latest selected date, else
      the view date, and leaves no focus; the view follows the latest
      selected date. */
  lemma EnterToggles(s: State, o: Options)
    requires s.visible && o.forceParse && o.keyboardNavigation && !o.autoclose
    ensures var s' := KeyStep(s, 13, false, false, o);
      var focus := if s.focusDate.Some? then s.focusDate.value else LastOr(s.selected, s.viewDate);
      s'.selected == Toggled(s.selected, focus, o.view.multidate, o.toggleActive)
      && s'.focusDate == None && s'.visible
      && (|s'.selected| > 0 ==> s'.viewDate == s'.selected[|s'.selected| - 1])
  {
  }

  /** Escape first drops the focus, bringing the view back to the latest
      selected date; a second Escape closes the popup. */
  lemma EscapeTwice(s: State, o: Options)
    requires s.visible && s.focusDate.Some? && !o.isInline
    ensures var s1 := KeyStep(s, 27, false, false, o);
      var s2 := KeyStep(s1, 27, false, false, o);
      s1.focusDate == None && s1.visible && s1.viewDate == LastOr(s.selected, s.viewDate)
      && !s2.visible && s2.viewMode == o.view.startView && s2.selected == s.selected
  {
  }

  /** Only Down and Escape open a hidden picker; no key changes anything
      else while it is hidden. */
  lemma HiddenPickerOpens(s: State, key: int, ctrl: bool, shift: bool, o: Options)
    requires !s.visible
    ensures var s' := KeyStep(s, key, ctrl, shift, o);
      s' == s.(visible := s'.visible)
      && (s'.visible <==> (key == 40 || key == 27) && !o.inputLocked)
  {
  }
}
