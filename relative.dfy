/** The relative date grammar of `parseDate`: a whole input of the form
    `[+-]N[dmwy]`, further terms separated by white space or commas, read as
    moves from the current date, and the aliases `yesterday`, `today` and
    `tomorrow`.

    The moves are the picker's `moveDay`, `moveWeek`, `moveMonth` and
    `moveYear`, called on the prototype rather than on a picker. The month
    moves read `this.o.defaultViewDate` when given an Invalid Date, and the
    prototype has no options, so there they throw a TypeError. */
module Relative {

  import opened Common
  import opened Calendar
  import opened Numbers
  import opened Stepping

  datatype Unit = Days | Weeks | Months | Years

  /** One term: a signed amount and a unit. */
  datatype Offset = Offset(amount: int, unit: Unit)

  function UnitOf(c: char): (r: Option<Unit>)
    ensures r.Some? <==> c == 'd' || c == 'w' || c == 'm' || c == 'y'
  {
    if c == 'd' then Some(Days)
    else if c == 'w' then Some(Weeks)
    else if c == 'm' then Some(Months)
    else if c == 'y' then Some(Years)
    else None
  }

  /** A term `[+-]\d+[dmwy]` at the start of `s`: what it means and what
      follows it. The amount is `parseInt` of the sign and digits. */
  function TermAt(s: string): (r: Option<(Offset, string)>)
    ensures r.Some? ==> |r.value.1| + 3 <= |s| && r.value.1 == s[|s| - |r.value.1|..]
  {
    if |s| == 0 || !(s[0] == '+' || s[0] == '-') then None
    else
      var k := DigitRun(s[1..]);
      if k == 0 || 1 + k >= |s| || UnitOf(s[1 + k]).None? then None
      else
        var n: int := DigitsValue(s[1..][..k]);
        Some((Offset(if s[0] == '-' then -n else n, UnitOf(s[1 + k]).value), s[2 + k..]))
  }

  /** The `[\s,]` class: white space, line terminators and commas. */
  predicate IsGap(c: char)
  {
    IsSpace(c) || c == ','
  }

  /** The number of `[\s,]` characters `s` starts with. */
  function GapRun(s: string): (k: nat)
    ensures k <= |s|
    ensures forall i :: 0 <= i < k ==> IsGap(s[i])
    ensures k < |s| ==> !IsGap(s[k])
  {
    if |s| > 0 && IsGap(s[0]) then 1 + GapRun(s[1..]) else 0
  }

  /** The terms, when the whole of `s` matches
      `^[+-]\d+[dmwy]([\s,]+[+-]\d+[dmwy])*$`; `None` when it does not. */
  function Offsets(s: string): (r: Option<seq<Offset>>)
    ensures r.Some? ==> |r.value| >= 1
    decreases |s|
  {
    match TermAt(s)
    case None => None
    case Some((o, rest)) =>
      if |rest| == 0 then Some([o])
      else
        var k := GapRun(rest);
        if k == 0 then None
        else
          match Offsets(rest[k..])
          case None => None
          case Some(more) => Some([o] + more)
  }

  /** The names `dateAliases[date]` finds: the three aliases, and the
      properties every object inherits, for which `date.match` is then not a
      function and throws. */
  datatype AliasLookup = NotAlias | Shorthand(expansion: string) | Inherited

  const InheritedNames: set<string> := {
    "constructor", "hasOwnProperty", "isPrototypeOf", "propertyIsEnumerable",
    "toLocaleString", "toString", "valueOf", "__proto__",
    "__defineGetter__", "__defineSetter__", "__lookupGetter__", "__lookupSetter__"
  }

  function Alias(s: string): AliasLookup
  {
    if s == "yesterday" then Shorthand("-1d")
    else if s == "today" then Shorthand("+0d")
    else if s == "tomorrow" then Shorthand("+1d")
    else if s in InheritedNames then Inherited
    else NotAlias
  }

  // ---------------------------------------------------------------------
  // Moving on the prototype

  /** `k` single month steps, as the prototype's `moveMonth` takes them;
      `None` once a step is handed an Invalid Date and throws. */
  function ProtoSteps(t: Time, sign: int, k: nat): Option<Time>
  {
    if k == 0 then Some(t)
    else
      match ProtoSteps(t, sign, k - 1)
      case None => None
      case Some(NaN) => None
      case Some(At(e)) => Some(Clip(AddMonths(e, sign)))
  }

  /** `Datepicker.prototype.moveMonth(t, dir)`; `None` when it throws. */
  function ProtoMoveMonth(t: Time, dir: int): Option<Time>
  {
    match t
    case NaN => None
    case At(d) =>
      if dir == 0 then Some(t)
      else if dir == 1 || dir == -1 then Some(Clip(AddMonths(d, dir)))
      else
        match ProtoSteps(t, if dir > 0 then 1 else -1, if dir > 0 then dir else -dir)
        case None => None
        case Some(NaN) => Some(NaN)
        case Some(At(e)) => Some(Clip(Date(e.year, e.month, Min(d.day, DaysInMonth(e.year, e.month)))))
  }

  /** One term applied to the date so far; `None` when the move throws. */
  function Apply(t: Time, o: Offset): Option<Time>
  {
    match o.unit
    case Days => Some(MoveDay(t, o.amount))
    case Weeks => Some(MoveWeek(t, o.amount))
    case Months => ProtoMoveMonth(t, o.amount)
    case Years => ProtoMoveMonth(t, o.amount * 12)
  }

  /** The terms applied left to right. */
  function ApplyAll(t: Time, os: seq<Offset>): Option<Time>
    decreases |os|
  {
    if |os| == 0 then Some(t)
    else
      match Apply(t, os[0])
      case None => None
      case Some(u) => ApplyAll(u, os[1..])
  }

  /** The loop over the terms, starting from the current date; `None` when a
      move throws. The date is rebuilt from its UTC fields at the end. */
  method ApplyOffsets(now: CalDate, os: seq<Offset>) returns (r: Option<Time>)
    ensures r == ApplyAll(At(now), os)
  {
    var date := At(now);
    var i := 0;
    while i < |os|
      invariant 0 <= i <= |os|
      invariant ApplyAll(At(now), os) == ApplyAll(date, os[i..])
    {
      assert os[i..][1..] == os[i + 1..];
      var next := Apply(date, os[i]);
      if next.None? {
        return None;
      }
      date := next.value;
      i := i + 1;
    }
    match date
    case NaN =>
      r := Some(NaN);
    case At(d) =>
      RebuildSame(d);
      r := Some(UTCDate(d.year, d.month, d.day));
  }

  /** `UTCDate` of a date's own fields is that date. */
  lemma RebuildSame(d: CalDate)
    ensures UTCDate(d.year, d.month, d.day) == At(d)
  {
    MakeDateMeaning(d.year, d.month, d.day);
    CivilDayNumber(d);
    DayNumberInjective(MakeDate(d.year, d.month, d.day), d);
  }

  // ---------------------------------------------------------------------
  // What the prototype's moves mean

  /** When the prototype's steps do not throw, they are the picker's steps,
      whatever its default view date. */
  lemma {:induction false} ProtoStepsAgree(t: Time, sign: int, k: nat, dflt: Time)
    requires ProtoSteps(t, sign, k).Some?
    ensures ProtoSteps(t, sign, k).value == MonthSteps(t, sign, k, dflt)
  {
    if k > 0 {
      ProtoStepsAgree(t, sign, k - 1, dflt);
    }
  }

  /** The prototype's `moveMonth`, when it does not throw, is the picker's
      `moveMonth`; it throws on an Invalid Date. */
  lemma ProtoMoveMonthAgrees(t: Time, dir: int, dflt: Time)
    ensures t.NaN? ==> ProtoMoveMonth(t, dir).None?
    ensures ProtoMoveMonth(t, dir).Some? ==> ProtoMoveMonth(t, dir).value == MoveMonthSpec(t, dir, dflt)
  {
    if t.At? && dir != 0 && dir != 1 && dir != -1 {
      var sign := if dir > 0 then 1 else -1;
      var mag := if dir > 0 then dir else -dir;
      if ProtoSteps(t, sign, mag).Some? {
        ProtoStepsAgree(t, sign, mag, dflt);
      }
    }
  }

  /** While the final target is in the time range, no intermediate step is
      handed an Invalid Date. */
  lemma ProtoStepsInRange(d: CalDate, sign: int, i: nat, n: int, dflt: Time)
    requires sign == 1 || sign == -1
    requires if sign > 0 then i <= n else i <= -n
    requires InTimeRange(AddMonths(d, n))
    ensures ProtoSteps(At(d), sign, i) == Some(MonthSteps(At(d), sign, i, dflt))
  {
    forall j | 0 <= j < i
      ensures MonthSteps(At(d), sign, j, dflt).At?
    {
      MonthStepsInRange(d, sign, j, n, dflt);
    }
    ProtoStepsValid(At(d), sign, i, dflt);
  }

  /** The prototype's steps are the picker's as long as no step before the
      last is handed an Invalid Date. */
  lemma {:induction false} ProtoStepsValid(t: Time, sign: int, k: nat, dflt: Time)
    requires forall j :: 0 <= j < k ==> MonthSteps(t, sign, j, dflt).At?
    ensures ProtoSteps(t, sign, k) == Some(MonthSteps(t, sign, k, dflt))
  {
    if k > 0 {
      ProtoStepsValid(t, sign, k - 1, dflt);
      assert MonthSteps(t, sign, k - 1, dflt).At?;
    }
  }

  /** A relative month term lands on the same day `n` months on, or on the
      last day of a shorter month, whenever that date is in the time range. */
  lemma RelativeMonthMeaning(d: CalDate, n: int, dflt: Time)
    requires n != 0
    requires InTimeRange(AddMonths(d, n))
    ensures ProtoMoveMonth(At(d), n) == Some(At(AddMonths(d, n)))
  {
    MoveMonthMeaning(d, n, dflt);
    if n != 1 && n != -1 {
      ProtoStepsInRange(d, if n > 0 then 1 else -1, if n > 0 then n else -n, n, dflt);
      ProtoMoveMonthAgrees(At(d), n, dflt);
    }
  }

  /** The three aliases spell single day terms. */
  lemma AliasTerms()
    ensures Offsets("-1d") == Some([Offset(-1, Days)])
    ensures Offsets("+0d") == Some([Offset(0, Days)])
    ensures Offsets("+1d") == Some([Offset(1, Days)])
  {
    OneDayTerm("-1d");
    OneDayTerm("+0d");
    OneDayTerm("+1d");
  }

  lemma OneDayTerm(s: string)
    requires |s| == 3 && (s[0] == '+' || s[0] == '-') && IsDigit(s[1]) && s[2] == 'd'
    ensures Offsets(s) == Some([Offset(if s[0] == '-' then -DigitValue(s[1]) else DigitValue(s[1]), Days)])
  {
    var u := s[1..];
    assert u[1..] == s[2..] && u[0] == s[1] && u[1] == 'd';
    assert DigitRun(u[1..]) == 0;
    assert DigitRun(u) == 1;
    assert u[..1][..0] == [] && u[..1][0] == s[1];
    assert DigitsValue(u[..1]) == DigitValue(s[1]);
    assert s[3..] == [];
    var o := Offset(if s[0] == '-' then -DigitValue(s[1]) else DigitValue(s[1]), Days);
    assert TermAt(s) == Some((o, []));
  }
}
