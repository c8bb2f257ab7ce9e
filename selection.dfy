/** The selection: `DateArray`, the array of selected dates a picker keeps
    in `this.dates`, and `_toggleMultidate`, which adds or removes the date
    the user picked according to the `multidate` and `toggleActive`
    options. Every stored date is a valid date at UTC midnight. */
module Selection {

  import opened Common
  import opened Calendar

  /** A `Date`'s time value in milliseconds. */
  function TimeValue(d: CalDate): int
  {
    DayNumber(d) * MsPerDay
  }

  /** The test `contains` applies to a stored date: at or after `d`, and
      less than a day later. */
  predicate SameDay(stored: CalDate, d: CalDate)
  {
    0 <= TimeValue(stored) - TimeValue(d) < MsPerDay
  }

  /** For dates at midnight that test is equality of dates. */
  lemma SameDayMeansEqual(a: CalDate, b: CalDate)
    ensures SameDay(a, b) <==> a == b
  {
    var k := DayNumber(a) - DayNumber(b);
    assert TimeValue(a) - TimeValue(b) == k * MsPerDay;
    if k == 0 {
      DayNumberInjective(a, b);
    } else if k > 0 {
      assert k * MsPerDay >= MsPerDay;
    } else {
      assert k * MsPerDay < 0;
    }
  }

  /** The index `contains` reports: the first position holding `d`, or -1
      when there is none. */
  function IndexOf(items: seq<CalDate>, d: CalDate): (ix: int)
    ensures -1 <= ix < |items|
    ensures ix == -1 <==> d !in items
    ensures ix >= 0 ==> items[ix] == d && d !in items[..ix]
  {
    if |items| == 0 then -1
    else if items[0] == d then 0
    else
      var r := IndexOf(items[1..], d);
      assert items[1..][..r + 1] == items[1..r + 2];
      if r == -1 then -1 else r + 1
  }

  /** Where `slice(i)` and `splice(i, 1)` start: counted from the end when
      `i` is negative, and kept within `0..n`. */
  function StartIndex(i: int, n: nat): (s: nat)
    ensures s <= n
    ensures 0 <= i <= n ==> s == i
    ensures -(n as int) <= i < 0 ==> s == n + i
    ensures i < -(n as int) ==> s == 0
    ensures i > n ==> s == n
  {
    if i < 0 then (if n + i < 0 then 0 else n + i)
    else if i > n then n
    else i
  }

  /** The array after `splice(i, 1)`. */
  function Removed(items: seq<CalDate>, i: int): (r: seq<CalDate>)
    ensures var s := StartIndex(i, |items|);
      s < |items| ==> r == items[..s] + items[s + 1..] && multiset(r) + multiset{items[s]} == multiset(items)
    ensures StartIndex(i, |items|) == |items| ==> r == items
  {
    var s := StartIndex(i, |items|);
    if s < |items| then
      assert items == items[..s] + [items[s]] + items[s + 1..];
      items[..s] + items[s + 1..]
    else items
  }

  /** What `replace` is given: nothing (a falsy value, which leaves the
      array alone), a single date, or an array of dates. */
  datatype Replacement = NoValue | OneDate(date: CalDate) | Dates(dates: seq<CalDate>)

  /** The selected dates, in the order they were selected. */
  class DateArray {
    var items: seq<CalDate>

    /** `new DateArray(...)` with the dates given. */
    constructor (init: seq<CalDate>)
      ensures items == init
    {
      items := init;
    }

    /** `get(i)`, that is `slice(i)[0]`: counted from the end when `i` is
        negative; `None` (undefined) past the end or on an empty array. */
    function Get(i: int): (r: Option<CalDate>)
      reads this
      ensures r.Some? <==> |items| > 0 && i < |items|
      ensures 0 <= i < |items| ==> r == Some(items[i])
      ensures -|items| <= i < 0 ==> r == Some(items[|items| + i])
      ensures i < -|items| && |items| > 0 ==> r == Some(items[0])
    {
      var s := StartIndex(i, |items|);
      if s < |items| then Some(items[s]) else None
    }

    /** `contains(d)`: the first index whose date is on `d`'s day, or -1. */
    method Contains(d: CalDate) returns (ix: int)
      ensures ix == IndexOf(items, d)
    {
      var i := 0;
      while i < |items|
        invariant 0 <= i <= |items|
        invariant d !in items[..i]
      {
        SameDayMeansEqual(items[i], d);
        if SameDay(items[i], d) {
          return i;
        }
        assert items[..i + 1] == items[..i] + [items[i]];
        i := i + 1;
      }
      assert items[..i] == items;
      return -1;
    }

    /** `remove(i)`: `splice(i, 1)`. */
    method Remove(i: int)
      modifies this
      ensures items == Removed(old(items), i)
    {
      var s := StartIndex(i, |items|);
      if s < |items| {
        items := items[..s] + items[s + 1..];
      }
    }

    /** `push(d)`. */
    method Push(d: CalDate)
      modifies this
      ensures items == old(items) + [d]
    {
      items := items + [d];
    }

    /** `clear()`: `length = 0`. */
    method Clear()
      modifies this
      ensures items == []
    {
      items := [];
    }

    /** `replace(newArray)`: nothing for a falsy argument; otherwise the
        array is cleared and refilled, a single date counting as an array
        of one. */
    method Replace(r: Replacement)
      modifies this
      ensures r.NoValue? ==> items == old(items)
      ensures r.OneDate? ==> items == [r.date]
      ensures r.Dates? ==> items == r.dates
    {
      if r.NoValue? {
        return;
      }
      var newArray := if r.OneDate? then [r.date] else r.dates;
      Clear();
      items := items + newArray;
    }

    /** `copy()`: a new array with the same dates. */
    method Copy() returns (a: DateArray)
      ensures fresh(a) && a.items == items
    {
      a := new DateArray([]);
      a.Replace(Dates(items));
    }
  }

  // ---------------------------------------------------------------------
  // Toggling a date

  /** The processed `multidate` option: `true` (no limit), `false` (single
      selection) or a number, the cap. */
  datatype Multidate = Unlimited | Single | Cap(n: nat)

  /** Whether a date that is already selected is removed when picked
      again. */
  predicate RemovesSelected(multidate: Multidate, toggleActive: bool)
  {
    multidate.Unlimited? || (multidate.Cap? && multidate.n > 1) || toggleActive
  }

  /** The dates after the add-or-remove step, before any eviction. */
  function Picked(items: seq<CalDate>, d: CalDate, multidate: Multidate, toggleActive: bool): (r: seq<CalDate>)
    ensures d in items && RemovesSelected(multidate, toggleActive) ==> r == Removed(items, IndexOf(items, d))
    ensures d in items && !RemovesSelected(multidate, toggleActive) ==> r == items
    ensures d !in items && multidate.Single? ==> r == [d]
    ensures d !in items && !multidate.Single? ==> r == items + [d]
  {
    var ix := IndexOf(items, d);
    if ix != -1 then
      if RemovesSelected(multidate, toggleActive) then Removed(items, ix) else items
    else if multidate.Single? then [d]
    else items + [d]
  }

  /** The newest `n` dates: the oldest are dropped first. */
  function Evicted(items: seq<CalDate>, n: nat): (r: seq<CalDate>)
    ensures |r| == if |items| <= n then |items| else n
    ensures r == items[|items| - |r|..]
  {
    if |items| <= n then items else items[|items| - n..]
  }

  /** `_toggleMultidate(date)` on the selected dates. */
  function Toggled(items: seq<CalDate>, d: CalDate, multidate: Multidate, toggleActive: bool): seq<CalDate>
  {
    var picked := Picked(items, d, multidate, toggleActive);
    match multidate
    case Cap(n) => Evicted(picked, n)
    case _ => picked
  }

  /** The eviction loop: `remove(0)` while there are more dates than the
      cap. */
  method Evict(dates: DateArray, n: nat)
    modifies dates
    ensures dates.items == Evicted(old(dates.items), n)
  {
    ghost var start := dates.items;
    while |dates.items| > n
      invariant |dates.items| <= |start|
      invariant dates.items == start[|start| - |dates.items|..]
      invariant |start| <= n ==> dates.items == start
      invariant |start| > n ==> |dates.items| >= n
      decreases |dates.items|
    {
      dates.Remove(0);
    }
  }

  /** `_toggleMultidate(date)`: remove the date if it is selected and the
      options allow it, else add it (replacing the selection in single
      mode), then evict the oldest dates down to a numeric cap. */
  method ToggleMultidate(dates: DateArray, date: CalDate, multidate: Multidate, toggleActive: bool)
    modifies dates
    ensures dates.items == Toggled(old(dates.items), date, multidate, toggleActive)
  {
    var ix := dates.Contains(date);
    if ix != -1 {
      if multidate.Unlimited? || (multidate.Cap? && multidate.n > 1) || toggleActive {
        dates.Remove(ix);
      }
    } else if multidate.Single? {
      dates.Clear();
      dates.Push(date);
    } else {
      dates.Push(date);
    }
    if multidate.Cap? {
      Evict(dates, multidate.n);
    }
  }

  // ---------------------------------------------------------------------
  // What toggling means

  predicate NoDuplicates(items: seq<CalDate>)
  {
    forall i, j :: 0 <= i < j < |items| ==> items[i] != items[j]
  }

  /** In single mode a selection of at most one date becomes exactly the
      date picked, unless picking the selected date again turns it off
      under `toggleActive`. */
  lemma SingleModeLeavesDate(items: seq<CalDate>, d: CalDate, toggleActive: bool)
    requires |items| <= 1
    ensures Toggled(items, d, Single, toggleActive) == if toggleActive && items == [d] then [] else [d]
  {
    if d in items {
      assert items == [d];
      if toggleActive {
        assert Removed(items, IndexOf(items, d)) == [];
      }
    }
  }

  /** With a numeric cap, at most `n` dates stay selected, and they are the
      newest ones. */
  lemma CapKeepsNewest(items: seq<CalDate>, d: CalDate, n: nat, toggleActive: bool)
    ensures var p := Picked(items, d, Cap(n), toggleActive);
      var r := Toggled(items, d, Cap(n), toggleActive);
      |r| <= n && r == p[|p| - |r|..]
  {
  }

  /** Removing the entry at `ix` keeps every other date of a list without
      duplicates, drops that one, and adds no duplicate. */
  lemma RemovedEntry(items: seq<CalDate>, ix: int)
    requires NoDuplicates(items) && 0 <= ix < |items|
    ensures var r := items[..ix] + items[ix + 1..];
      items[ix] !in r
      && (forall e :: e != items[ix] ==> (e in r <==> e in items))
      && NoDuplicates(r)
  {
    var r := items[..ix] + items[ix + 1..];
    forall e | e in items && e != items[ix]
      ensures e in r
    {
      var k :| 0 <= k < |items| && items[k] == e;
      if k < ix {
        assert r[k] == e;
      } else {
        assert r[k - 1] == e;
      }
    }
    forall i, j | 0 <= i < j < |r|
      ensures r[i] != r[j]
    {
      var i' := if i < ix then i else i + 1;
      var j' := if j < ix then j else j + 1;
      assert r[i] == items[i'] && r[j] == items[j'];
    }
    forall k | 0 <= k < |r|
      ensures r[k] != items[ix]
    {
      var k' := if k < ix then k else k + 1;
      assert r[k] == items[k'];
    }
  }

  /** Without a limit, picking a date flips whether it is selected and
      leaves every other date as it was; no date is ever selected twice. */
  lemma UnlimitedFlips(items: seq<CalDate>, d: CalDate, toggleActive: bool)
    requires NoDuplicates(items)
    ensures var r := Toggled(items, d, Unlimited, toggleActive);
      (d in r <==> d !in items)
      && (forall e :: e != d ==> (e in r <==> e in items))
      && NoDuplicates(r)
  {
    if d in items {
      RemovedEntry(items, IndexOf(items, d));
    } else {
      assert Toggled(items, d, Unlimited, toggleActive) == items + [d];
    }
  }
}
