/** Date formats: compiling a format string such as `mm/dd/yyyy` into its
    field tokens and the literal separators between them (`parseFormat`),
    and writing a date out through a compiled format (`formatDate`).

    A token is a maximal match of `dd?|DD?|mm?|MM?|yy(?:yy)?`, taken left to
    right. The separators are what `format.replace(tokens, '\0')` leaves
    between the NUL characters once it is split on them, so a format that
    itself contains NUL has more separators than the tokens account for. */
module Formats {

  import opened Common
  import opened Calendar
  import opened Numbers

  /** The field tokens: `d`, `dd`, `D`, `DD`, `m`, `mm`, `M`, `MM`, `yy` and
      `yyyy`. */
  datatype Part =
    | Day | Day2 | DayShort | DayLong
    | Month | Month2 | MonthShort | MonthLong
    | Year2 | Year4

  /** The spelling of a token in a format string. */
  function Text(p: Part): string
  {
    match p
    case Day => "d"
    case Day2 => "dd"
    case DayShort => "D"
    case DayLong => "DD"
    case Month => "m"
    case Month2 => "mm"
    case MonthShort => "M"
    case MonthLong => "MM"
    case Year2 => "yy"
    case Year4 => "yyyy"
  }

  const Nul: char := '\0'

  /** The token the pattern matches at the start of `s`, if any: the first
      alternative whose letter fits, taken greedily. */
  function TokenAt(s: string): (r: Option<Part>)
    ensures r.Some? ==> Text(r.value) <= s
  {
    if |s| == 0 then None
    else if s[0] == 'd' then Some(if |s| > 1 && s[1] == 'd' then Day2 else Day)
    else if s[0] == 'D' then Some(if |s| > 1 && s[1] == 'D' then DayLong else DayShort)
    else if s[0] == 'm' then Some(if |s| > 1 && s[1] == 'm' then Month2 else Month)
    else if s[0] == 'M' then Some(if |s| > 1 && s[1] == 'M' then MonthLong else MonthShort)
    else if s[0] == 'y' && |s| > 1 && s[1] == 'y' then
      Some(if |s| > 3 && s[2] == 'y' && s[3] == 'y' then Year4 else Year2)
    else None
  }

  /** The token at the start of `s` is the longest token spelling that `s`
      starts with, and there is none exactly when no token spelling is a
      prefix of `s`. */
  lemma TokenAtLongest(s: string, p: Part)
    ensures Text(p) <= s ==> TokenAt(s).Some? && |Text(p)| <= |Text(TokenAt(s).value)|
  {
    if Text(p) <= s {
      assert s[0] == Text(p)[0];
      match p
      case Year2 => assert s[1] == 'y';
      case Year4 => assert s[1] == 'y' && s[2] == 'y' && s[3] == 'y';
      case Day2 => assert s[1] == 'd';
      case DayLong => assert s[1] == 'D';
      case Month2 => assert s[1] == 'm';
      case MonthLong => assert s[1] == 'M';
      case _ =>
    }
  }

  /** `format.match(validParts)`: the tokens of `s`, left to right. */
  function Matches(s: string): seq<Part>
    decreases |s|
  {
    if |s| == 0 then []
    else match TokenAt(s)
      case Some(p) => [p] + Matches(s[|Text(p)|..])
      case None => Matches(s[1..])
  }

  /** `format.replace(validParts, '\0')`: every token replaced by NUL. */
  function Replaced(s: string): string
    decreases |s|
  {
    if |s| == 0 then []
    else match TokenAt(s)
      case Some(p) => [Nul] + Replaced(s[|Text(p)|..])
      case None => [s[0]] + Replaced(s[1..])
  }

  function CountNul(s: string): nat
  {
    if |s| == 0 then 0 else (if s[0] == Nul then 1 else 0) + CountNul(s[1..])
  }

  /** The pieces joined back together, a NUL between neighbours. */
  function JoinNul(pieces: seq<string>): string
  {
    if |pieces| == 0 then []
    else if |pieces| == 1 then pieces[0]
    else pieces[0] + [Nul] + JoinNul(pieces[1..])
  }

  /** `s.split('\0')`: the pieces between NULs, one more than there are
      NULs, none holding a NUL, and joining them gives `s` back. */
  function Split(s: string): (r: seq<string>)
    ensures |r| == CountNul(s) + 1
    ensures forall i :: 0 <= i < |r| ==> CountNul(r[i]) == 0
    ensures JoinNul(r) == s
  {
    if |s| == 0 then [[]]
    else
      var rest := Split(s[1..]);
      if s[0] == Nul then
        assert s == [Nul] + s[1..];
        [[]] + rest
      else
        assert s == [s[0]] + s[1..];
        [[s[0]] + rest[0]] + rest[1..]
  }

  /** A compiled format. */
  datatype Format = Format(separators: seq<string>, parts: seq<Part>)

  /** `parseFormat` on a format string; `None` when it throws "Invalid date
      format.", which is exactly when the string holds no token. */
  function ParseFormat(s: string): (r: Option<Format>)
    ensures r.None? <==> |Matches(s)| == 0
    ensures r.Some? ==> r.value.parts == Matches(s) && r.value.separators == Split(Replaced(s))
  {
    var parts := Matches(s);
    if |parts| == 0 then None
    else Some(Format(Split(Replaced(s)), parts))
  }

  /** Replacing each token by NUL adds one NUL per token. */
  lemma {:induction false} ReplacedNuls(s: string)
    ensures CountNul(Replaced(s)) == |Matches(s)| + CountNul(s)
    decreases |s|
  {
    if |s| > 0 {
      match TokenAt(s)
      case Some(p) =>
        var t := Text(p);
        var rest := s[|t|..];
        ReplacedNuls(rest);
        assert s == t + rest;
        NulFree(t);
        CountNulAppend(t, rest);
        assert ([Nul] + Replaced(rest))[1..] == Replaced(rest);
      case None =>
        ReplacedNuls(s[1..]);
        assert ([s[0]] + Replaced(s[1..]))[1..] == Replaced(s[1..]);
    }
  }

  lemma NulFree(t: string)
    requires forall i :: 0 <= i < |t| ==> t[i] != Nul
    ensures CountNul(t) == 0
  {
    if |t| > 0 {
      NulFree(t[1..]);
    }
  }

  lemma {:induction false} CountNulAppend(a: string, b: string)
    ensures CountNul(a + b) == CountNul(a) + CountNul(b)
  {
    if |a| > 0 {
      assert (a + b)[0] == a[0];
      assert (a + b)[1..] == a[1..] + b;
      CountNulAppend(a[1..], b);
    } else {
      assert a + b == b;
    }
  }

  /** A compiled format has one separator more than it has tokens, plus one
      for every NUL already in the format string. */
  lemma SeparatorCount(s: string)
    requires ParseFormat(s).Some?
    ensures |ParseFormat(s).value.separators| == |ParseFormat(s).value.parts| + 1 + CountNul(s)
  {
    ReplacedNuls(s);
  }

  // ---------------------------------------------------------------------
  // Writing a date

  /** What the `formatDate` loop emits: for i from 0 up to the number of
      values, the next separator if one is left, then value i if there is
      one. Separators beyond that are dropped. */
  function Emit(seps: seq<string>, vals: seq<string>): string
    decreases |vals|
  {
    (if |seps| > 0 then seps[0] else "")
    + (if |vals| == 0 then "" else vals[0] + Emit(if |seps| > 0 then seps[1..] else [], vals[1..]))
  }

  function Spellings(parts: seq<Part>): (r: seq<string>)
    ensures |r| == |parts|
    ensures forall i :: 0 <= i < |parts| ==> r[i] == Text(parts[i])
  {
    if |parts| == 0 then [] else [Text(parts[0])] + Spellings(parts[1..])
  }

  lemma EmitFirstChar(c: char, seps: seq<string>, vals: seq<string>)
    requires |seps| > 0
    ensures Emit([[c] + seps[0]] + seps[1..], vals) == [c] + Emit(seps, vals)
  {
  }

  /** Writing each token back as its own spelling gives the format string
      back: the separators and tokens of a compiled format are the format
      string cut into pieces, in order. */
  lemma {:induction false} CompileRoundTrip(s: string)
    requires CountNul(s) == 0
    ensures Emit(Split(Replaced(s)), Spellings(Matches(s))) == s
    decreases |s|
  {
    if |s| > 0 {
      match TokenAt(s)
      case Some(p) =>
        var rest := s[|Text(p)|..];
        assert s == Text(p) + rest;
        CountNulAppend(Text(p), rest);
        CompileRoundTrip(rest);
        assert Replaced(s) == [Nul] + Replaced(rest);
        assert Split(Replaced(s)) == [[]] + Split(Replaced(rest)) by {
          assert Replaced(s)[1..] == Replaced(rest);
        }
        assert Spellings(Matches(s)) == [Text(p)] + Spellings(Matches(rest));
      case None =>
        var rest := s[1..];
        assert s == [s[0]] + rest;
        CompileRoundTrip(rest);
        assert Replaced(s) == [s[0]] + Replaced(rest);
        assert Replaced(s)[1..] == Replaced(rest);
        assert Split(Replaced(s)) == [[s[0]] + Split(Replaced(rest))[0]] + Split(Replaced(rest))[1..];
        EmitFirstChar(s[0], Split(Replaced(rest)), Spellings(Matches(rest)));
    }
  }

  /** The locale's names: `days`, `daysShort`, `months`, `monthsShort`. */
  datatype Locale = Locale(days: seq<string>, daysShort: seq<string>,
                           months: seq<string>, monthsShort: seq<string>)

  /** `names[i]`, where a missing entry (`undefined`) joins as the empty
      string. */
  function Name(names: seq<string>, i: int): string
  {
    if 0 <= i < |names| then names[i] else ""
  }

  /** `s.substring(2)`. */
  function FromThird(s: string): string
  {
    if |s| <= 2 then "" else s[2..]
  }

  /** The text `formatDate` writes for one token. An Invalid Date still
      reaches the formatter (only a missing date is caught), and its fields
      are NaN: numbers print as "NaN", names are missing, `yy` is "N". */
  function Value(p: Part, t: Time, locale: Locale): string
  {
    match t
    case NaN =>
      (match p
       case DayShort => ""
       case DayLong => ""
       case MonthShort => ""
       case MonthLong => ""
       case Year2 => "N"
       case _ => "NaN")
    case At(d) =>
      match p
      case Day => NumberText(d.day)
      case Day2 => Pad2(d.day)
      case DayShort => Name(locale.daysShort, Weekday(d))
      case DayLong => Name(locale.days, Weekday(d))
      case Month => NumberText(d.month + 1)
      case Month2 => Pad2(d.month + 1)
      case MonthShort => Name(locale.monthsShort, d.month)
      case MonthLong => Name(locale.months, d.month)
      case Year2 => FromThird(NumberText(d.year))
      case Year4 => NumberText(d.year)
  }

  function Values(parts: seq<Part>, t: Time, locale: Locale): (r: seq<string>)
    ensures |r| == |parts|
    ensures forall i :: 0 <= i < |parts| ==> r[i] == Value(parts[i], t, locale)
  {
    if |parts| == 0 then [] else [Value(parts[0], t, locale)] + Values(parts[1..], t, locale)
  }

  /** The format argument: a string still to be compiled, or a compiled
      format. */
  datatype FormatArg = Pattern(pattern: string) | Compiled(format: Format)

  /** The compiled format; `None` when compiling throws. */
  function Compile(arg: FormatArg): Option<Format>
  {
    match arg
    case Pattern(s) => ParseFormat(s)
    case Compiled(f) => Some(f)
  }

  /** `pieces.join('')`. */
  function Concat(pieces: seq<string>): string
  {
    if |pieces| == 0 then "" else Concat(pieces[..|pieces| - 1]) + pieces[|pieces| - 1]
  }

  lemma ConcatPush(pieces: seq<string>, x: string)
    ensures Concat(pieces + [x]) == Concat(pieces) + x
  {
    assert (pieces + [x])[..|pieces|] == pieces;
  }

  /** One round of the `formatDate` loop keeps the emitted text plus what is
      still to come unchanged. */
  lemma PushStep(pieces: seq<string>, seps: seq<string>, vals: seq<string>, i: int)
    requires 0 <= i <= |vals|
    ensures var pushed := (if |seps| > 0 then pieces + [seps[0]] else pieces)
                          + [if i < |vals| then vals[i] else ""];
            var left := if |seps| > 0 then seps[1..] else seps;
            Concat(pushed) + (if i < |vals| then Emit(left, vals[i + 1..]) else "")
            == Concat(pieces) + Emit(seps, vals[i..])
  {
    if |seps| > 0 {
      ConcatPush(pieces, seps[0]);
      ConcatPush(pieces + [seps[0]], if i < |vals| then vals[i] else "");
    } else {
      ConcatPush(pieces, if i < |vals| then vals[i] else "");
    }
    if i < |vals| {
      EmitStep(seps, vals, i);
    }
  }

  lemma EmitStep(seps: seq<string>, vals: seq<string>, i: int)
    requires 0 <= i < |vals|
    ensures Emit(seps, vals[i..]) ==
      (if |seps| > 0 then seps[0] else "") + vals[i] + Emit(if |seps| > 0 then seps[1..] else [], vals[i + 1..])
  {
    assert vals[i..][1..] == vals[i + 1..];
  }

  /** `formatDate(date, format, language)`: `None` when the format string
      does not compile (it throws); the empty string for a missing date, which
      is checked first; otherwise the separators and the token values,
      interleaved. */
  method FormatDate(date: Option<Time>, format: FormatArg, locale: Locale) returns (out: Option<string>)
    ensures date.None? ==> out == Some("")
    ensures date.Some? && Compile(format).None? ==> out.None?
    ensures date.Some? && Compile(format).Some? ==>
      var f := Compile(format).value;
      out == Some(Emit(f.separators, Values(f.parts, date.value, locale)))
  {
    if date.None? {
      return Some("");
    }
    var compiled := Compile(format);
    if compiled.None? {
      return None;
    }
    var f := compiled.value;
    var text := Interleave(f.separators, Values(f.parts, date.value, locale));
    out := Some(text);
  }

  /** The `formatDate` loop: for i from 0 to the number of tokens inclusive,
      shift the next separator off the copied list if any is left, then push
      value i; the pieces are joined at the end. */
  method Interleave(separators: seq<string>, vals: seq<string>) returns (text: string)
    ensures text == Emit(separators, vals)
  {
    var pieces: seq<string> := [];
    var seps := separators;
    var cnt := |vals|;
    var i := 0;
    while i <= cnt
      invariant 0 <= i <= cnt + 1
      invariant i <= cnt ==> Concat(pieces) + Emit(seps, vals[i..]) == Emit(separators, vals)
      invariant i == cnt + 1 ==> Concat(pieces) == Emit(separators, vals)
    {
      ghost var before := pieces;
      ghost var left := seps;
      if |seps| > 0 {
        pieces := pieces + [seps[0]];
        seps := seps[1..];
      }
      // `val[undefined]` past the last token joins as the empty string.
      var v := if i < cnt then vals[i] else "";
      pieces := pieces + [v];
      PushStep(before, left, vals, i);
      i := i + 1;
    }
    text := Concat(pieces);
  }
}
