/** `parseDate`: reading a date from what the user typed.

    In order:
    - a missing or empty input is `undefined`;
    - a `Date` object is returned as it is;
    - a format string is compiled, which may throw;
    - an input that is entirely relative terms (`+1d -2m`), or one of the
      aliases, is moved from the current date;
    - anything else is cut into words at punctuation, each word is paired
      with the format's token at the same position, and the values found are
      applied to today's date by setters in a fixed order (years, then
      months, then days), each kept only if it leaves a valid date.

    The clock enters as parameters: `new Date()` as `now`, `UTCToday()` as
    `today`, and the local full year the two-digit year inference compares
    against. */
module Parsing {

  import opened Common
  import opened Calendar
  import opened Numbers
  import opened Formats
  import opened Stepping
  import opened Relative

  // ---------------------------------------------------------------------
  // Cutting the input into words

  /** The class `nonpunctuation` excludes: ASCII space to `/`, `:` to `@`,
      `[` to the backquote, `{` to `~`, tab, line feed, carriage return, and
      the CJK year, month and day signs. */
  predicate IsPunctuation(c: char)
  {
    (' ' <= c <= '/') || (':' <= c <= '@') || ('[' <= c <= '`') || ('{' <= c <= '~')
    || c == '\t' || c == '\n' || c == '\r'
    || c == '\U{5E74}' || c == '\U{6708}' || c == '\U{65E5}'
  }

  predicate AllPunctuation(s: string)
  {
    forall i :: 0 <= i < |s| ==> IsPunctuation(s[i])
  }

  /** A non-empty run of characters outside the punctuation class. */
  predicate IsWord(w: string)
  {
    |w| > 0 && forall i :: 0 <= i < |w| ==> !IsPunctuation(w[i])
  }

  /** The number of non-punctuation characters `s` starts with. */
  function WordRun(s: string): (k: nat)
    ensures k <= |s|
    ensures forall i :: 0 <= i < k ==> !IsPunctuation(s[i])
    ensures k < |s| ==> IsPunctuation(s[k])
  {
    if |s| > 0 && !IsPunctuation(s[0]) then 1 + WordRun(s[1..]) else 0
  }

  /** `date.match(nonpunctuation) || []`: the maximal runs of characters
      outside the punctuation class, left to right. */
  function Words(s: string): (r: seq<string>)
    ensures forall i :: 0 <= i < |r| ==> IsWord(r[i])
    decreases |s|
  {
    if |s| == 0 then []
    else if IsPunctuation(s[0]) then Words(s[1..])
    else
      var k := WordRun(s);
      [s[..k]] + Words(s[k..])
  }

  // ---------------------------------------------------------------------
  // Month names

  function LowerChar(c: char): char
  {
    if 'A' <= c <= 'Z' then (c as int + 32) as char else c
  }

  /** `toLowerCase`, on the ASCII letters. */
  function Lower(s: string): (r: string)
    ensures |r| == |s|
  {
    if |s| == 0 then "" else [LowerChar(s[0])] + Lower(s[1..])
  }

  /** The source's `matchPart`: the name cut to the word's length equals,
      ignoring case, the word cut to that length; so either is a prefix of
      the other. */
  predicate NameMatches(name: string, word: string)
  {
    var m := name[..Min(|name|, |word|)];
    Lower(m) == Lower(word[..|m|])
  }

  /** The index of the first name that matches, or -1. */
  function FirstMatch(names: seq<string>, word: string): (i: int)
    ensures -1 <= i < |names|
    ensures i >= 0 ==> NameMatches(names[i], word)
    ensures forall j :: 0 <= j < |names| && (i < 0 || j < i) ==> !NameMatches(names[j], word)
  {
    if |names| == 0 then -1
    else if NameMatches(names[0], word) then 0
    else
      var k := FirstMatch(names[1..], word);
      if k < 0 then -1 else k + 1
  }

  /** The value recorded for one word: `parseInt(word, 10)`, or, when that
      is NaN and the token is `MM` or `M`, the 1-based position of the first
      matching month name, which is 0 when no name matches. */
  function FieldValue(word: string, part: Part, locale: Locale): (r: Option<int>)
    ensures ParseInt(word).Some? ==> r == ParseInt(word)
    ensures ParseInt(word).None? && part == MonthLong ==> r == Some(FirstMatch(locale.months, word) + 1)
    ensures ParseInt(word).None? && part == MonthShort ==> r == Some(FirstMatch(locale.monthsShort, word) + 1)
    ensures ParseInt(word).None? && part != MonthLong && part != MonthShort ==> r.None?
  {
    match ParseInt(word)
    case Some(v) => Some(v)
    case None =>
      if part == MonthLong then Some(FirstMatch(locale.months, word) + 1)
      else if part == MonthShort then Some(FirstMatch(locale.monthsShort, word) + 1)
      else None
  }

  /** The `parsed` object after the first loop: each token mapped to the
      value of its word, a later occurrence of a token overwriting an
      earlier one. */
  function Collect(words: seq<string>, parts: seq<Part>, locale: Locale): map<Part, Option<int>>
    requires |words| == |parts|
  {
    if |parts| == 0 then map[]
    else
      var n := |parts| - 1;
      Collect(words[..n], parts[..n], locale)[parts[n] := FieldValue(words[n], parts[n], locale)]
  }

  /** The tokens mapped are exactly the tokens of the format. */
  lemma {:induction false} CollectKeys(words: seq<string>, parts: seq<Part>, locale: Locale)
    requires |words| == |parts|
    ensures forall p :: p in Collect(words, parts, locale) <==> p in parts
  {
    if |parts| > 0 {
      var n := |parts| - 1;
      CollectKeys(words[..n], parts[..n], locale);
      assert parts == parts[..n] + [parts[n]];
    }
  }

  /** A token that occurs once is mapped to the value of its own word. */
  lemma {:induction false} CollectDistinct(words: seq<string>, parts: seq<Part>, locale: Locale, i: int)
    requires |words| == |parts|
    requires 0 <= i < |parts|
    requires forall j :: 0 <= j < |parts| && j != i ==> parts[j] != parts[i]
    ensures parts[i] in Collect(words, parts, locale)
    ensures Collect(words, parts, locale)[parts[i]] == FieldValue(words[i], parts[i], locale)
  {
    CollectKeys(words, parts, locale);
    var n := |parts| - 1;
    if i < n {
      CollectKeys(words[..n], parts[..n], locale);
      assert parts[..n][i] == parts[i] && words[..n][i] == words[i];
      assert forall j :: 0 <= j < n && j != i ==> parts[..n][j] != parts[..n][i];
      CollectDistinct(words[..n], parts[..n], locale, i);
    }
  }

  // ---------------------------------------------------------------------
  // Setters

  /** `settersOrder`: years, then months, then days, whatever the order of
      the tokens in the format. */
  const SettersOrder: seq<SetterPart> := [Year4, Year2, MonthShort, MonthLong, Month, Month2, Day, Day2]

  /** A token that has a setter. */
  type SetterPart = p: Part | IsSetter(p) witness Year4

  /** The tokens with a setter: all but the weekday names. */
  predicate IsSetter(p: Part)
  {
    p != DayShort && p != DayLong
  }

  lemma SettersOrderHasSetters(p: Part)
    ensures IsSetter(p) <==> p in SettersOrder
  {
  }

  lemma SettersOrderAllSetters()
    ensures forall i :: 0 <= i < |SettersOrder| ==> IsSetter(SettersOrder[i])
  {
  }

  /** The format's tokens without the weekday names, which the parser drops
      when the number of words does not match. */
  function SetterParts(parts: seq<Part>): (r: seq<Part>)
    ensures forall i :: 0 <= i < |r| ==> IsSetter(r[i])
    ensures forall p :: IsSetter(p) ==> (p in r <==> p in parts)
    ensures |r| <= |parts|
  {
    if |parts| == 0 then []
    else (if IsSetter(parts[0]) then [parts[0]] else []) + SetterParts(parts[1..])
  }

  /** The `assumeNearby` argument: off (any falsy value), `true`, or a
      threshold in years. */
  datatype Nearby = NotNearby | NearbyDefault | NearbyWithin(threshold: int)

  /** The threshold, if the inference is on; `true` means 10 years, and a
      threshold of 0 is falsy and turns it off. */
  function Threshold(nearby: Nearby): (r: Option<int>)
    ensures r.Some? ==> r.value != 0
  {
    match nearby
    case NotNearby => None
    case NearbyDefault => Some(10)
    case NearbyWithin(n) => if n == 0 then None else Some(n)
  }

  /** `applyNearbyYear`: a year below 100 is taken in the century that puts
      it no more than `threshold` years after the current year, or else in
      the century before. */
  function ApplyNearbyYear(year: int, threshold: int, currentYear: int): (r: int)
    ensures year >= 100 ==> r == year
    ensures year < 100 ==> r == year + 2000 || r == year + 1900
    ensures year < 100 ==> (r == year + 2000 <==> year + 2000 <= currentYear + threshold)
  {
    if year < 100 then
      var y := year + 2000;
      if y > currentYear + threshold then y - 100 else y
    else year
  }

  /** The year the `yyyy` and `yy` setters set. */
  function YearFor(v: int, nearby: Nearby, currentYear: int): int
  {
    match Threshold(nearby)
    case None => v
    case Some(t) => ApplyNearbyYear(v, t, currentYear)
  }

  /** The month the month setter aims at: `v - 1`, brought into 0..11 by
      adding 12 while negative and then taking the remainder. */
  function MonthTarget(v: int): (m: int)
    ensures 0 <= m < 12
    ensures (m - (v - 1)) % 12 == 0
  {
    (v - 1) % 12
  }

  /** The month setter on a valid date: the same year, month `MonthTarget(v)`,
      the day kept or clamped to that month's last day. */
  function MonthSetter(e: CalDate, v: int): (r: Time)
    ensures r.At? ==> r.date.year == e.year && r.date.month == MonthTarget(v)
    ensures r.At? ==> r.date.day == Min(e.day, DaysInMonth(e.year, MonthTarget(v)))
  {
    var m := MonthTarget(v);
    Clip(Date(e.year, m, Min(e.day, DaysInMonth(e.year, m))))
  }

  /** `settersMap[p](date, v)` on a copy of the (always valid) date. */
  function Setter(p: Part, e: CalDate, v: int, nearby: Nearby, currentYear: int): Time
    requires IsSetter(p)
  {
    match p
    case Year4 => SetUTCFullYear(At(e), YearFor(v, nearby, currentYear))
    case Year2 => SetUTCFullYear(At(e), YearFor(v, nearby, currentYear))
    case Day => SetUTCDate(At(e), v)
    case Day2 => SetUTCDate(At(e), v)
    case _ => MonthSetter(e, v)
  }

  /** One round of the setter loop: a token that was parsed to a number has
      its setter applied, and the result is kept only if it is a valid
      date. */
  function Step(e: CalDate, p: Part, parsed: map<Part, Option<int>>, nearby: Nearby, currentYear: int): (r: CalDate)
    requires IsSetter(p)
    ensures p !in parsed || parsed[p].None? ==> r == e
    ensures p in parsed && parsed[p].Some? ==>
      var c := Setter(p, e, parsed[p].value, nearby, currentYear);
      r == (if c.At? then c.date else e)
  {
    if p in parsed && parsed[p].Some? then
      match Setter(p, e, parsed[p].value, nearby, currentYear)
      case NaN => e
      case At(d) => d
    else e
  }

  /** The setter loop over `order`. */
  function Applied(e: CalDate, parsed: map<Part, Option<int>>, order: seq<Part>, nearby: Nearby, currentYear: int): CalDate
    requires forall i :: 0 <= i < |order| ==> IsSetter(order[i])
    decreases |order|
  {
    if |order| == 0 then e
    else Applied(Step(e, order[0], parsed, nearby, currentYear), parsed, order[1..], nearby, currentYear)
  }

  /** The clock, read once: `new Date()` as a UTC date, `UTCToday()`, and
      the local full year. */
  datatype Clock = Clock(now: CalDate, today: CalDate, currentYear: int)

  /** The literal path: today's date, changed by the setters when the
      number of words matches the number of tokens (after dropping the
      weekday names if it did not), and today's date unchanged otherwise. */
  function LiteralParse(words: seq<string>, parts: seq<Part>, locale: Locale, nearby: Nearby, clock: Clock): CalDate
  {
    SettersOrderAllSetters();
    var fparts := if |words| != |parts| then SetterParts(parts) else parts;
    if |words| != |fparts| then clock.today
    else Applied(clock.today, Collect(words, fparts, locale), SettersOrder, nearby, clock.currentYear)
  }

  // ---------------------------------------------------------------------
  // The whole of parseDate

  /** What `parseDate` is given: `undefined`, `null` or nothing; a `Date`
      object; or a string. */
  datatype Input = NoInput | Given(time: Time) | Typed(text: string)

  /** What it does: returns `undefined`, returns a `Date`, or throws. */
  datatype Outcome = Undefined | Parsed(time: Time) | Thrown

  function Moved(r: Option<Time>): Outcome
  {
    match r
    case None => Thrown
    case Some(t) => Parsed(t)
  }

  /** An alias replaced by its expansion, which is matched against the
      relative grammar again and otherwise read field by field. */
  function Expanded(x: string, f: Format, locale: Locale, nearby: Nearby, clock: Clock): Outcome
  {
    match Offsets(x)
    case Some(os) => Moved(ApplyAll(At(clock.now), os))
    case None => Parsed(At(LiteralParse(Words(x), f.parts, locale, nearby, clock)))
  }

  /** A non-empty string under a compiled format: the relative grammar,
      then the aliases, then the fields. */
  function TextOutcome(s: string, f: Format, locale: Locale, nearby: Nearby, clock: Clock): Outcome
  {
    match Offsets(s)
    case Some(os) => Moved(ApplyAll(At(clock.now), os))
    case None =>
      match Alias(s)
      case Inherited => Thrown
      case Shorthand(x) => Expanded(x, f, locale, nearby, clock)
      case NotAlias => Parsed(At(LiteralParse(Words(s), f.parts, locale, nearby, clock)))
  }

  /** `parseDate(date, format, language, assumeNearby)`. */
  function ParseDateSpec(input: Input, format: FormatArg, locale: Locale, nearby: Nearby, clock: Clock): Outcome
  {
    match input
    case NoInput => Undefined
    case Given(t) => Parsed(t)
    case Typed(s) =>
      if |s| == 0 then Undefined
      else
        match Compile(format)
        case None => Thrown
        case Some(f) => TextOutcome(s, f, locale, nearby, clock)
  }

  /** Text that is neither relative nor an alias is read field by field. */
  lemma LiteralPath(s: string, f: Format, locale: Locale, nearby: Nearby, clock: Clock)
    requires |s| > 0 && Offsets(s).None? && Alias(s) == NotAlias
    ensures TextOutcome(s, f, locale, nearby, clock)
         == Parsed(At(LiteralParse(Words(s), f.parts, locale, nearby, clock)))
  {
  }

  // ---------------------------------------------------------------------
  // The imperative parser

  /** The `m` setter: bring the month into range with a loop, set it, then
      step the day back one at a time while the date is in another month.
      The loop stops on an Invalid Date (see Findings in README). */
  method SetMonth(e: CalDate, v: int) returns (r: Time)
    ensures r == MonthSetter(e, v)
  {
    var m := v - 1;
    while m < 0
      invariant (m - (v - 1)) % 12 == 0
      decreases -m
    {
      m := m + 12;
    }
    m := m % 12;
    assert m == MonthTarget(v);
    var t := SetUTCMonth(At(e), m);
    ghost var mi := 12 * e.year + m;
    ghost var d := e.day;
    MonthSetAt(e, m);
    OverflowedMeans(OtherMonthThan(m), mi, d);
    while t.At? && t.date.month != m
      invariant 1 <= d <= e.day
      invariant d == e.day || d >= MonthLength(mi)
      invariant t == Clip(DayOf(mi, d))
      invariant (t.At? && t.date.month != m) <==> t.At? && d > MonthLength(mi)
      decreases d
    {
      OneDayBack(mi, d);
      t := SetUTCDate(t, t.date.day - 1);
      d := d - 1;
    }
    SetterDone(e, m, d);
    r := t;
  }

  /** One turn of the setter's loop, `setUTCDate(getUTCDate() - 1)`, on a
      date that overflowed month `mi` (so lies on the 1st to 3rd of the
      next month) names the day before it, counted from month `mi`; the
      loop test on that day again asks whether it is past the month end. */
  lemma OneDayBack(mi: int, d: int)
    requires MonthLength(mi) < d <= 31
    requires Clip(DayOf(mi, d)).At?
    ensures SetUTCDate(Clip(DayOf(mi, d)), Clip(DayOf(mi, d)).date.day - 1) == Clip(DayOf(mi, d - 1))
    ensures var t := Clip(DayOf(mi, d - 1));
      (t.At? && t.date.month != mi % 12) <==> t.At? && d - 1 > MonthLength(mi)
  {
    OverflowedMeans(OtherMonthThan(mi % 12), mi, d - 1);
    var len := MonthLength(mi);
    ShortMonth(mi);
    NormalizeOverflow(mi, d);
    assert DayOf(mi, d) == Date(mi / 12, mi % 12 + 1, d - len);
    assert MakeDate(mi / 12, mi % 12 + 1, d - len - 1) == DayOf(mi + 1, d - len - 1);
    if d - 1 > len {
      NormalizeStep(mi, d - 1);
    } else {
      NormalizeStep(mi + 1, 0);
    }
  }

  /** When the setter's loop stops, the date is the target month's day,
      clamped to that month's length. */
  lemma SetterDone(e: CalDate, m: int, d: int)
    requires 0 <= m < 12 && 1 <= d <= e.day
    requires d == e.day || d >= MonthLength(12 * e.year + m)
    requires !(Clip(DayOf(12 * e.year + m, d)).At? && d > MonthLength(12 * e.year + m))
    ensures IsCivil(Date(e.year, m, Min(e.day, DaysInMonth(e.year, m))))
    ensures Clip(DayOf(12 * e.year + m, d)) == Clip(Date(e.year, m, Min(e.day, DaysInMonth(e.year, m))))
  {
    MonthSetAt(e, m);
    ResetDone(12 * e.year + m, d, e.day);
  }

  /** Setting month `m` on a valid date is the same day of month index
      `12 * year + m`, which has that year and month. */
  lemma MonthSetAt(e: CalDate, m: int)
    requires 0 <= m < 12
    ensures SetUTCMonth(At(e), m) == Clip(DayOf(12 * e.year + m, e.day))
    ensures (12 * e.year + m) / 12 == e.year && (12 * e.year + m) % 12 == m
    ensures MonthLength(12 * e.year + m) == DaysInMonth(e.year, m)
  {
    MonthIndexParts(Date(e.year, m, 1));
  }

  /** As written, the `m` setter never returns when setting the month
      takes the date past the end of the time range. Reading "12/05/275760"
      with the format `mm/dd/yyyy` on a 15 January, the year setter gives
      275760-01-15; `setUTCMonth(11)` then gives an Invalid Date, on which
      the guard `getUTCMonth() !== v` holds and `setUTCDate(getUTCDate() - 1)`
      keeps the date invalid, so the guard holds on every turn. The
      corrected setter stops at once and returns the Invalid Date, which
      the parser skips. */
  lemma MonthSetterSpinsAsWritten(e: CalDate, day: int)
    requires e == Date(275760, 0, 15)
    ensures MonthTarget(12) == 11
    ensures SetUTCMonth(At(e), 11) == NaN
    ensures OverflowedAsWritten(OtherMonthThan(11), NaN)
    ensures SetUTCDate(NaN, day) == NaN
    ensures !Overflowed(OtherMonthThan(11), NaN)
    ensures MonthSetter(e, 12) == NaN
  {
    MonthSetAt(e, 11);
    assert !InTimeRange(Date(275760, 11, 15));
  }

  method ApplySetter(p: Part, e: CalDate, v: int, nearby: Nearby, currentYear: int) returns (r: Time)
    requires IsSetter(p)
    ensures r == Setter(p, e, v, nearby, currentYear)
  {
    match p
    case Year4 =>
      r := SetUTCFullYear(At(e), YearFor(v, nearby, currentYear));
    case Year2 =>
      r := SetUTCFullYear(At(e), YearFor(v, nearby, currentYear));
    case Day =>
      r := SetUTCDate(At(e), v);
    case Day2 =>
      r := SetUTCDate(At(e), v);
    case _ =>
      r := SetMonth(e, v);
  }

  /** One more token recorded. */
  lemma CollectStep(words: seq<string>, parts: seq<Part>, locale: Locale, i: int)
    requires |words| == |parts| && 0 <= i < |parts|
    ensures Collect(words[..i + 1], parts[..i + 1], locale)
         == Collect(words[..i], parts[..i], locale)[parts[i] := FieldValue(words[i], parts[i], locale)]
  {
    assert words[..i + 1][..i] == words[..i] && parts[..i + 1][..i] == parts[..i];
  }

  /** The first loop of the literal path: a value per token. */
  method CollectValues(words: seq<string>, fparts: seq<Part>, locale: Locale) returns (parsed: map<Part, Option<int>>)
    requires |words| == |fparts|
    ensures parsed == Collect(words, fparts, locale)
  {
    parsed := map[];
    var i := 0;
    while i < |fparts|
      invariant 0 <= i <= |fparts|
      invariant parsed == Collect(words[..i], fparts[..i], locale)
    {
      CollectStep(words, fparts, locale, i);
      parsed := parsed[fparts[i] := FieldValue(words[i], fparts[i], locale)];
      i := i + 1;
    }
    assert words[..i] == words && fparts[..i] == fparts;
  }

  /** The second loop of the literal path: the setters in their fixed order,
      each on a copy of the date and kept only when the copy is valid. */
  method RunSetters(today: CalDate, parsed: map<Part, Option<int>>, nearby: Nearby, currentYear: int) returns (date: CalDate)
    ensures date == Applied(today, parsed, SettersOrder, nearby, currentYear)
  {
    date := today;
    var j := 0;
    while j < |SettersOrder|
      invariant 0 <= j <= |SettersOrder|
      invariant Applied(date, parsed, SettersOrder[j..], nearby, currentYear)
             == Applied(today, parsed, SettersOrder, nearby, currentYear)
    {
      AppliedStep(date, parsed, j, nearby, currentYear);
      var s := SettersOrder[j];
      if s in parsed && parsed[s].Some? {
        var candidate := ApplySetter(s, date, parsed[s].value, nearby, currentYear);
        if candidate.At? {
          date := candidate.date;
        }
      }
      j := j + 1;
    }
  }

  /** One round of the setter loop. */
  lemma AppliedStep(e: CalDate, parsed: map<Part, Option<int>>, j: int, nearby: Nearby, currentYear: int)
    requires 0 <= j < |SettersOrder|
    ensures Applied(e, parsed, SettersOrder[j..], nearby, currentYear)
         == Applied(Step(e, SettersOrder[j], parsed, nearby, currentYear), parsed, SettersOrder[j + 1..], nearby, currentYear)
  {
    assert SettersOrder[j..][1..] == SettersOrder[j + 1..];
  }

  /** The literal path: today's date, changed by the setters when the words
      and the tokens pair up. */
  method ParseLiteral(words: seq<string>, formatParts: seq<Part>, locale: Locale, nearby: Nearby, clock: Clock)
    returns (date: CalDate)
    ensures date == LiteralParse(words, formatParts, locale, nearby, clock)
  {
    date := clock.today;
    var fparts := formatParts;
    if |words| != |fparts| {
      fparts := SetterParts(fparts);
    }
    if |words| == |fparts| {
      var parsed := CollectValues(words, fparts, locale);
      date := RunSetters(clock.today, parsed, nearby, clock.currentYear);
    }
  }

  /** `parseDate`. */
  method ParseDate(input: Input, format: FormatArg, locale: Locale, nearby: Nearby, clock: Clock)
    returns (r: Outcome)
    ensures r == ParseDateSpec(input, format, locale, nearby, clock)
  {
    match input
    case NoInput =>
      return Undefined;
    case Given(t) =>
      return Parsed(t);
    case Typed(s) =>
      if |s| == 0 {
        return Undefined;
      }
      var compiled := Compile(format);
      if compiled.None? {
        return Thrown;
      }
      var f := compiled.value;
      var terms := Offsets(s);
      if terms.Some? {
        var moved := ApplyOffsets(clock.now, terms.value);
        return Moved(moved);
      }
      var text := s;
      match Alias(s) {
        case Inherited =>
          return Thrown;
        case Shorthand(x) =>
          text := x;
          var aliasTerms := Offsets(x);
          if aliasTerms.Some? {
            var moved := ApplyOffsets(clock.now, aliasTerms.value);
            return Moved(moved);
          }
        case NotAlias =>
      }
      var date := ParseLiteral(Words(text), f.parts, locale, nearby, clock);
      r := Parsed(At(date));
  }
}
