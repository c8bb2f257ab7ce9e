/** `DateRangePicker`: several pickers linked into a range (a start and an
    end date, or more). The range picker keeps a snapshot `dates` of each
    picker's date, index-aligned with the pickers. When picker `i` reports
    a new date `d`, the left neighbours whose date is later than `d`, or
    else the right neighbours whose date is earlier, are set to `d`, so the
    range stays in order. An `updating` flag drops the notifications its
    own writes raise.

    Each picker is one slot holding its latest selected date, or nothing
    when it has none. */
module Ranges {

  import opened Common

  /** A picker's date at UTC midnight, by its time value counted in days
      from 1970-01-01: `dateUpdated` only compares dates and copies them. */
  type Stamp = int

  /** Who raised the change notification: an element with no picker, a
      picker that is not one of the range's inputs (with its latest date),
      or input `i` of the range. */
  datatype Source = NotAPicker | OtherPicker(selected: Option<Stamp>) | Linked(i: nat)

  /** How `dateUpdated` ends: it returns at once, it runs to the end, or an
      exception escapes it. */
  datatype Reaction = Ignored | Done | Threw

  /** The pickers' dates, the snapshot and the guard. */
  datatype RangeState = RangeState(
    slots: seq<Option<Stamp>>,
    dates: seq<Stamp>,
    updating: bool)

  predicate WellFormed(st: RangeState)
  {
    |st.dates| == |st.slots|
  }

  /** The source is one of `n` inputs, if it is an input at all. */
  predicate Comes(src: Source, n: nat)
  {
    src.Linked? ==> src.i < n
  }

  /** Every picker has a date. */
  predicate AllSet(slots: seq<Option<Stamp>>)
  {
    forall k :: 0 <= k < |slots| ==> slots[k].Some?
  }

  /** `getUTCDate()` of each picker, when every picker has a date. */
  function Values(slots: seq<Option<Stamp>>): (r: seq<Stamp>)
    requires AllSet(slots)
    ensures |r| == |slots|
    ensures forall k :: 0 <= k < |r| ==> slots[k] == Some(r[k])
  {
    seq(|slots|, k requires 0 <= k < |slots| => slots[k].value)
  }

  // ---------------------------------------------------------------------
  // The cascade

  /** How many neighbours `j, j - 1, ...` in a row hold a date later than
      `d`: the run the leftward walk overwrites. */
  function LeftRun(dates: seq<Stamp>, j: int, d: Stamp): (n: nat)
    requires -1 <= j < |dates|
    ensures n <= j + 1
    ensures forall k :: j - n < k <= j ==> d < dates[k]
    ensures j - n >= 0 ==> dates[j - n] <= d
    decreases j + 1
  {
    if j < 0 || dates[j] <= d then 0 else 1 + LeftRun(dates, j - 1, d)
  }

  /** How many neighbours `k, k + 1, ...` in a row hold a date earlier than
      `d`: the run the rightward walk overwrites. */
  function RightRun(dates: seq<Stamp>, k: nat, d: Stamp): (n: nat)
    requires k <= |dates|
    ensures k + n <= |dates|
    ensures forall m :: k <= m < k + n ==> dates[m] < d
    ensures k + n < |dates| ==> d <= dates[k + n]
    decreases |dates| - k
  {
    if k == |dates| || d <= dates[k] then 0 else 1 + RightRun(dates, k + 1, d)
  }

  /** The slots with those from `lo` up to `hi` set to `d`. */
  function Overwrite(slots: seq<Option<Stamp>>, lo: int, hi: int, d: Stamp): (r: seq<Option<Stamp>>)
    ensures |r| == |slots|
    ensures forall k :: 0 <= k < |r| ==> r[k] == if lo <= k < hi then Some(d) else slots[k]
  {
    seq(|slots|, k requires 0 <= k < |slots| => if lo <= k < hi then Some(d) else slots[k])
  }

  /** Writing dates into slots leaves no picker without one. */
  lemma OverwriteKeepsSet(before: seq<Option<Stamp>>, after: seq<Option<Stamp>>)
    requires AllSet(before) && |after| == |before|
    requires forall k :: 0 <= k < |after| ==> after[k] == before[k] || after[k].Some?
    ensures AllSet(after)
  {
  }

  /** The writes `dateUpdated` makes for picker `i` reporting `d`: the left
      run if the date just to the left is later than `d`, else the right
      run. */
  function Cascade(slots: seq<Option<Stamp>>, dates: seq<Stamp>, i: nat, d: Stamp): seq<Option<Stamp>>
    requires i < |dates|
  {
    var l := LeftRun(dates, i - 1, d);
    if l > 0 then Overwrite(slots, i - l, i, d)
    else Overwrite(slots, i + 1, i + 1 + RightRun(dates, i + 1, d), d)
  }

  /** One notification, with the neighbours' writes made as intended. */
  function Notify(st: RangeState, src: Source): (out: (Reaction, RangeState))
    requires WellFormed(st) && Comes(src, |st.slots|)
    ensures WellFormed(out.1) && |out.1.slots| == |st.slots|
    ensures out.1.updating <==> out.0 != Done
    ensures st.updating ==> out == (Ignored, st)
    ensures out.0 == Done ==> forall k :: 0 <= k < |out.1.dates| ==> out.1.slots[k] == Some(out.1.dates[k])
    ensures out.0 != Done ==> out.1.slots == st.slots && out.1.dates == st.dates
  {
    if st.updating then (Ignored, st)
    else
      var busy := st.(updating := true);
      match src
      case NotAPicker => (Ignored, busy)
      case OtherPicker(sel) => (if sel.None? then Threw else Ignored, busy)
      case Linked(i) =>
        if !AllSet(st.slots) then (Threw, busy)
        else
          var slots := Cascade(st.slots, st.dates, i, st.slots[i].value);
          (Done, RangeState(slots, Values(slots), false))
  }

  /** A notification from an input, with every picker holding a date,
      runs the cascade. */
  lemma NotifyLinked(st: RangeState, i: nat)
    requires WellFormed(st) && i < |st.slots| && !st.updating && AllSet(st.slots)
    ensures var slots := Cascade(st.slots, st.dates, i, st.slots[i].value);
      Notify(st, Linked(i)) == (Done, RangeState(slots, Values(slots), false))
  {
  }

  /** Notifications one after another. */
  function Replay(st: RangeState, srcs: seq<Source>): (out: (seq<Reaction>, RangeState))
    requires WellFormed(st) && forall s :: s in srcs ==> Comes(s, |st.slots|)
    ensures |out.0| == |srcs| && WellFormed(out.1) && |out.1.slots| == |st.slots|
    decreases |srcs|
  {
    if |srcs| == 0 then ([], st)
    else
      var (r, st') := Notify(st, srcs[0]);
      assert forall s :: s in srcs[1..] ==> s in srcs;
      var (rs, last) := Replay(st', srcs[1..]);
      ([r] + rs, last)
  }

  /** The range of pickers. */
  class RangePicker {
    var slots: seq<Option<Stamp>>
    var dates: seq<Stamp>
    var updating: bool

    function State(): RangeState
      reads this
    {
      RangeState(slots, dates, updating)
    }

    /** The range over pickers that each hold a date; the snapshot is
        taken at once. */
    constructor (init: seq<Stamp>)
      ensures |slots| == |init| && dates == init && !updating
      ensures forall k :: 0 <= k < |init| ==> slots[k] == Some(init[k])
    {
      slots := seq(|init|, k requires 0 <= k < |init| => Some(init[k]));
      dates := init;
      updating := false;
    }

    /** The `$.each` over the pickers: `getUTCDate()` throws at the first
        picker with no date. Returns whether every picker has one. */
    method AllPickersSet() returns (ok: bool)
      ensures ok == AllSet(slots)
    {
      var p := 0;
      while p < |slots|
        invariant 0 <= p <= |slots|
        invariant forall q :: 0 <= q < p ==> slots[q].Some?
      {
        if slots[p].None? {
          return false;
        }
        p := p + 1;
      }
      return true;
    }

    /** The leftward walk from `i - 1` while `d` is earlier than the
        snapshot's date. */
    method WalkLeft(i: nat, d: Stamp)
      requires |dates| == |slots| && i < |slots|
      modifies this
      ensures dates == old(dates) && updating == old(updating)
      ensures slots == Overwrite(old(slots), i - LeftRun(dates, i - 1, d), i, d)
    {
      var j := i - 1;
      while j >= 0 && d < dates[j]
        invariant -1 <= j < i
        invariant dates == old(dates) && updating == old(updating)
        invariant slots == Overwrite(old(slots), j + 1, i, d)
        invariant LeftRun(dates, i - 1, d) == i - 1 - j + LeftRun(dates, j, d)
      {
        slots := slots[j := Some(d)];
        j := j - 1;
      }
    }

    /** The rightward walk from `i + 1` while `d` is later than the
        snapshot's date. */
    method WalkRight(i: nat, d: Stamp)
      requires |dates| == |slots| && i < |slots|
      modifies this
      ensures dates == old(dates) && updating == old(updating)
      ensures slots == Overwrite(old(slots), i + 1, i + 1 + RightRun(dates, i + 1, d), d)
    {
      var k := i + 1;
      while k < |dates| && dates[k] < d
        invariant i < k <= |dates|
        invariant dates == old(dates) && updating == old(updating)
        invariant slots == Overwrite(old(slots), i + 1, k, d)
        invariant RightRun(dates, i + 1, d) == k - (i + 1) + RightRun(dates, k, d)
      {
        slots := slots[k := Some(d)];
        k := k + 1;
      }
    }

    /** The two walks, one of which writes, and the new snapshot. */
    method Settle(i: nat, d: Stamp)
      requires |dates| == |slots| && i < |slots| && AllSet(slots)
      modifies this
      ensures updating == old(updating)
      ensures slots == Cascade(old(slots), old(dates), i, d) && AllSet(slots)
      ensures dates == Values(slots)
    {
      assert (i >= 1 && d < dates[i - 1]) <==> LeftRun(dates, i - 1, d) > 0;
      if i >= 1 && d < dates[i - 1] {
        WalkLeft(i, d);
      } else {
        WalkRight(i, d);
      }
      OverwriteKeepsSet(old(slots), slots);
      dates := Values(slots);
    }

    /** `dateUpdated(e)`, the neighbours written as intended. */
    method DateUpdated(src: Source) returns (r: Reaction)
      requires WellFormed(State()) && Comes(src, |slots|)
      modifies this
      ensures (r, State()) == Notify(old(State()), src)
    {
      ghost var st := State();
      if updating {
        return Ignored;
      }
      updating := true;
      match src
      case NotAPicker =>
        return Ignored;
      case OtherPicker(sel) =>
        if sel.None? {
          return Threw;
        }
        return Ignored;
      case Linked(i) =>
        if slots[i].None? {
          return Threw;
        }
        var newDate := slots[i].value;
        var ok := AllPickersSet();
        if !ok {
          return Threw;
        }
        Settle(i, newDate);
        updating := false;
        NotifyLinked(st, i);
        return Done;
    }

    /** The user sets picker `i` to `v` (or clears it), which raises its
        change notification. */
    method Pick(i: nat, v: Option<Stamp>) returns (r: Reaction)
      requires WellFormed(State()) && i < |slots|
      modifies this
      ensures (r, State()) == Notify(old(State()).(slots := old(slots)[i := v]), Linked(i))
    {
      slots := slots[i := v];
      r := DateUpdated(Linked(i));
    }
  }

  // ---------------------------------------------------------------------
  // What the cascade means

  /** Dates in order, ties allowed. */
  predicate Ordered(xs: seq<Stamp>)
  {
    forall a, b :: 0 <= a < b < |xs| ==> xs[a] <= xs[b]
  }

  /** Picker `i` has just been set to `d` and every other picker still
      holds the date in the snapshot. */
  predicate JustPicked(st: RangeState, i: nat, d: Stamp)
  {
    WellFormed(st) && i < |st.slots| && st.slots[i] == Some(d)
    && forall k :: 0 <= k < |st.slots| && k != i ==> st.slots[k] == Some(st.dates[k])
  }

  /** The date a picker ends with: a left neighbour is pulled down to `d`
      and a right neighbour pushed up to `d`. */
  function Clamped(dates: seq<Stamp>, i: nat, d: Stamp, k: nat): Stamp
    requires k < |dates|
  {
    if k < i && d < dates[k] then d
    else if k > i && dates[k] < d then d
    else if k == i then d
    else dates[k]
  }

  /** On an ordered range, the cascade leaves every picker at its date
      clamped against `d`. */
  lemma CascadeClamps(st: RangeState, i: nat, d: Stamp)
    requires JustPicked(st, i, d) && Ordered(st.dates) && !st.updating
    ensures var out := Notify(st, Linked(i));
      out.0 == Done
      && forall k :: 0 <= k < |st.dates| ==> out.1.dates[k] == Clamped(st.dates, i, d, k)
  {
    var dates := st.dates;
    assert AllSet(st.slots) by {
      forall k | 0 <= k < |st.slots|
        ensures st.slots[k].Some?
      {
        if k != i {
          assert st.slots[k] == Some(st.dates[k]);
        }
      }
    }
    var l := LeftRun(dates, i - 1, d);
    var out := Notify(st, Linked(i));
    forall k | 0 <= k < |dates|
      ensures out.1.slots[k] == Some(Clamped(dates, i, d, k))
    {
      if l > 0 {
        if k < i && d < dates[k] {
          LeftRunCovers(dates, i, d, k);
        } else if k > i {
          assert dates[i - 1] <= dates[k];
        }
      } else {
        var r := RightRun(dates, i + 1, d);
        if k < i {
          assert i - 1 >= 0 && dates[i - 1] <= d;
          assert dates[k] <= dates[i - 1];
        } else if k > i && dates[k] < d {
          RightRunCovers(dates, i, d, k);
        }
      }
    }
  }

  /** A left neighbour later than `d` is in the left run. */
  lemma LeftRunCovers(dates: seq<Stamp>, i: nat, d: Stamp, k: nat)
    requires Ordered(dates) && i < |dates| && k < i
    requires d < dates[k]
    ensures k >= i - LeftRun(dates, i - 1, d)
  {
  }

  /** A right neighbour earlier than `d` is in the right run. */
  lemma RightRunCovers(dates: seq<Stamp>, i: nat, d: Stamp, k: nat)
    requires Ordered(dates) && i < k < |dates|
    requires dates[k] < d
    ensures k < i + 1 + RightRun(dates, i + 1, d)
  {
  }

  /** The cascade keeps an ordered range ordered, whichever picker moves
      and wherever it moves to. */
  lemma CascadeKeepsOrder(st: RangeState, i: nat, d: Stamp)
    requires JustPicked(st, i, d) && Ordered(st.dates) && !st.updating
    ensures Ordered(Notify(st, Linked(i)).1.dates)
  {
    CascadeClamps(st, i, d);
    var dates := st.dates;
    var out := Notify(st, Linked(i)).1.dates;
    forall a, b | 0 <= a < b < |out|
      ensures out[a] <= out[b]
    {
      assert out[a] == Clamped(dates, i, d, a) && out[b] == Clamped(dates, i, d, b);
      assert dates[a] <= dates[b];
    }
  }

  /** Once the guard is set, every further notification is dropped and
      nothing changes again. */
  lemma {:induction false} GuardSetDropsAll(st: RangeState, srcs: seq<Source>)
    requires WellFormed(st) && forall s :: s in srcs ==> Comes(s, |st.slots|)
    requires st.updating
    ensures Replay(st, srcs).1 == st
    ensures forall k :: 0 <= k < |srcs| ==> Replay(st, srcs).0[k] == Ignored
  {
    if |srcs| > 0 {
      assert forall s :: s in srcs[1..] ==> s in srcs;
      GuardSetDropsAll(st, srcs[1..]);
    }
  }

  /** A notification from an element with no picker, or from a picker that
      is not one of the inputs, returns with the guard still set: the range
      ignores every notification after it. */
  lemma EarlyReturnSticks(st: RangeState, srcs: seq<Source>)
    requires WellFormed(st) && !st.updating && |srcs| > 0
    requires forall s :: s in srcs ==> Comes(s, |st.slots|)
    requires srcs[0].NotAPicker? || srcs[0].OtherPicker?
    ensures var out := Replay(st, srcs);
      out.1 == st.(updating := true)
      && forall k :: 1 <= k < |srcs| ==> out.0[k] == Ignored
  {
    var busy := st.(updating := true);
    assert forall s :: s in srcs[1..] ==> s in srcs;
    GuardSetDropsAll(busy, srcs[1..]);
  }

  // ---------------------------------------------------------------------
  // The cascade as written

  /** `dateUpdated(e)` as written: `setUTCDate` is assigned to the
      `Datepicker` class itself rather than to its prototype, so a picker
      has no such method and the first write to a neighbour throws a
      TypeError, leaving the guard set. */
  function NotifyAsWritten(st: RangeState, src: Source): (out: (Reaction, RangeState))
    requires WellFormed(st) && Comes(src, |st.slots|)
    ensures out.1.slots == st.slots
  {
    if st.updating then (Ignored, st)
    else
      var busy := st.(updating := true);
      match src
      case NotAPicker => (Ignored, busy)
      case OtherPicker(sel) => (if sel.None? then Threw else Ignored, busy)
      case Linked(i) =>
        if !AllSet(st.slots) then (Threw, busy)
        else
          var d := st.slots[i].value;
          if LeftRun(st.dates, i - 1, d) > 0 || RightRun(st.dates, i + 1, d) > 0 then (Threw, busy)
          else (Done, RangeState(st.slots, Values(st.slots), false))
  }

  /** Whenever a neighbour needs to move, the code as written throws, keeps
      the guard set, and leaves the range out of order; the intended
      cascade runs to the end with the range in order. */
  lemma CascadeWritesAsWritten(st: RangeState, i: nat, d: Stamp)
    requires JustPicked(st, i, d) && Ordered(st.dates) && !st.updating
    requires 0 < i && d < st.dates[i - 1]
    ensures NotifyAsWritten(st, Linked(i)) == (Threw, st.(updating := true))
    ensures !Ordered(Values(NotifyAsWritten(st, Linked(i)).1.slots))
    ensures Notify(st, Linked(i)).0 == Done && Ordered(Notify(st, Linked(i)).1.dates)
  {
    CascadeKeepsOrder(st, i, d);
    var vs := Values(st.slots);
    assert vs[i] == d && vs[i - 1] == st.dates[i - 1];
  }

  /** Two linked pickers on 10 and 20 January 2024 (days 19732 and 19742);
      the second is moved to 5 January (day 19727). */
  lemma MovedBeforeStartAsWritten(st: RangeState)
    requires st == RangeState([Some(19732), Some(19727)],
                              [19732, 19742], false)
    ensures NotifyAsWritten(st, Linked(1)).0 == Threw
    ensures Notify(st, Linked(1)) == (Done, RangeState([Some(19727), Some(19727)],
                                                       [19727, 19727], false))
  {
    assert LeftRun(st.dates, 0, 19727) == 1;
    var slots := Cascade(st.slots, st.dates, 1, 19727);
    assert slots == [Some(19727), Some(19727)];
    assert Values(slots) == [19727, 19727];
  }
}
