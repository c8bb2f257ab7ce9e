/** Reading back what was written: a date written with a numeric format (a
    `yyyy` year, an `m` or `mm` month and a `d` or `dd` day, in any order,
    between punctuation) and parsed with the same format is the same date,
    for the years 0 to 275759, whatever the current date is. This is the
    formatter and the parser agreeing, and it exercises the fixed setter
    order: the year is set first, so a February 29 today does not disturb
    the month, and the month setter's clamp keeps the day from spilling over
    before the day setter runs. */
module RoundTrip {

  import opened Common
  import opened Calendar
  import opened Numbers
  import opened Formats
  import opened Stepping
  import opened Relative
  import opened Parsing

  // ---------------------------------------------------------------------
  // Cutting written text back into words

  /** Punctuation in front of the text does not change the words. */
  lemma {:induction false} SkipPunctuation(p: string, x: string)
    requires AllPunctuation(p)
    ensures Words(p + x) == Words(x)
  {
    if |p| > 0 {
      assert (p + x)[1..] == p[1..] + x;
      SkipPunctuation(p[1..], x);
    } else {
      assert p + x == x;
    }
  }

  lemma {:induction false} WordRunOf(w: string, rest: string)
    requires forall i :: 0 <= i < |w| ==> !IsPunctuation(w[i])
    requires |rest| == 0 || IsPunctuation(rest[0])
    ensures WordRun(w + rest) == |w|
  {
    if |w| > 0 {
      assert (w + rest)[1..] == w[1..] + rest;
      WordRunOf(w[1..], rest);
    } else {
      assert w + rest == rest;
    }
  }

  /** A word followed by punctuation or the end is one word. */
  lemma WordThenPunctuation(w: string, rest: string)
    requires IsWord(w)
    requires |rest| == 0 || IsPunctuation(rest[0])
    ensures Words(w + rest) == [w] + Words(rest)
  {
    WordRunOf(w, rest);
    assert (w + rest)[..|w|] == w;
    assert (w + rest)[|w|..] == rest;
  }

  /** The conditions under which written text cuts back into its values:
      the values are words, the separators are punctuation, and the ones
      between two values are not empty. */
  predicate Separable(seps: seq<string>, vals: seq<string>)
  {
    |seps| == |vals| + 1
    && (forall i :: 0 <= i < |vals| ==> IsWord(vals[i]))
    && (forall i :: 0 <= i < |seps| ==> AllPunctuation(seps[i]))
    && (forall i :: 0 < i < |vals| ==> |seps[i]| > 0)
  }

  lemma EmitStart(seps: seq<string>, vals: seq<string>)
    requires |seps| > 0 && AllPunctuation(seps[0])
    requires |vals| > 0 ==> |seps[0]| > 0
    ensures var e := Emit(seps, vals); |e| == 0 || IsPunctuation(e[0])
  {
    if |seps[0]| > 0 {
      assert Emit(seps, vals)[0] == seps[0][0];
    }
  }

  /** The words of the written text are the values written. */
  lemma {:induction false} WordsOfEmit(seps: seq<string>, vals: seq<string>)
    requires Separable(seps, vals)
    ensures Words(Emit(seps, vals)) == vals
    decreases |vals|
  {
    if |vals| == 0 {
      assert Emit(seps, vals) == seps[0] + "";
      SkipPunctuation(seps[0], "");
    } else {
      var rest := Emit(seps[1..], vals[1..]);
      assert Emit(seps, vals) == seps[0] + (vals[0] + rest);
      assert Separable(seps[1..], vals[1..]) by {
        forall i | 0 < i < |vals[1..]|
          ensures |seps[1..][i]| > 0
        {
          assert seps[1..][i] == seps[i + 1];
        }
      }
      WordsOfEmit(seps[1..], vals[1..]);
      EmitStart(seps[1..], vals[1..]);
      SkipPunctuation(seps[0], vals[0] + rest);
      WordThenPunctuation(vals[0], rest);
      assert [vals[0]] + vals[1..] == vals;
    }
  }

  // ---------------------------------------------------------------------
  // Written text is not relative and not an alias

  predicate DigitOrPunctuation(c: char)
  {
    IsDigit(c) || IsPunctuation(c)
  }

  predicate Plain(s: string)
  {
    forall i :: 0 <= i < |s| ==> DigitOrPunctuation(s[i])
  }

  lemma PlainAppend(a: string, b: string)
    requires Plain(a) && Plain(b)
    ensures Plain(a + b)
  {
    assert forall i :: 0 <= i < |a + b| ==> (a + b)[i] == if i < |a| then a[i] else b[i - |a|];
  }

  lemma {:induction false} PlainEmit(seps: seq<string>, vals: seq<string>)
    requires forall i :: 0 <= i < |seps| ==> Plain(seps[i])
    requires forall i :: 0 <= i < |vals| ==> Plain(vals[i])
    ensures Plain(Emit(seps, vals))
    decreases |vals|
  {
    var first := if |seps| > 0 then seps[0] else "";
    if |vals| == 0 {
      PlainAppend(first, "");
    } else {
      var left := if |seps| > 0 then seps[1..] else [];
      assert forall i :: 0 <= i < |left| ==> left[i] == seps[i + 1];
      assert forall i :: 0 <= i < |vals[1..]| ==> vals[1..][i] == vals[i + 1];
      PlainEmit(left, vals[1..]);
      PlainAppend(vals[0], Emit(left, vals[1..]));
      PlainAppend(first, vals[0] + Emit(left, vals[1..]));
    }
  }

  /** Text of digits and punctuation holds no relative term: a term ends in
      a letter. */
  lemma PlainNotRelative(s: string)
    requires Plain(s)
    ensures Offsets(s).None?
  {
  }

  /** Text of digits and punctuation is not an alias nor an inherited
      property name: each of those has a letter in its third place. */
  lemma PlainNotAlias(s: string)
    requires Plain(s)
    ensures Alias(s) == NotAlias
  {
    if |s| > 2 {
      assert !('a' <= s[2] <= 'z') && !('A' <= s[2] <= 'Z');
    }
  }

  // ---------------------------------------------------------------------
  // The values written for the numeric fields

  predicate NumericField(p: Part)
  {
    p == Year4 || p == Month || p == Month2 || p == Day || p == Day2
  }

  /** The number a numeric field writes: the year, the 1-based month or the
      day of the month. */
  function FieldNumber(p: Part, d: CalDate): int
  {
    if p == Year4 then d.year
    else if p == Month || p == Month2 then d.month + 1
    else d.day
  }

  /** Which of year, month and day a numeric field is. */
  function FieldKind(p: Part): int
  {
    if p == Year4 then 0 else if p == Month || p == Month2 then 1 else 2
  }

  /** A non-empty run of digits is a word of digits and punctuation. */
  lemma DigitsWord(s: string)
    requires AllDigits(s) && |s| > 0
    ensures IsWord(s) && Plain(s)
  {
  }

  /** A natural number written by `String` is a word that reads back. */
  lemma TextReadsBack(n: int)
    requires n >= 0
    ensures IsWord(NumberText(n)) && Plain(NumberText(n)) && ParseInt(NumberText(n)) == Some(n)
  {
    DigitsWord(NumberText(n));
    ParseIntText(n);
  }

  /** A zero-padded number is a word that reads back. */
  lemma PaddedReadsBack(n: nat)
    requires n < 100
    ensures IsWord(Pad2(n)) && Plain(Pad2(n)) && ParseInt(Pad2(n)) == Some(n)
  {
    DigitsWord(Pad2(n));
    ParsePad2(n);
  }

  /** A numeric field of a date from year 0 on writes a word of digits, and
      reading that word gives the field's number. */
  lemma FieldReadsBack(p: Part, d: CalDate, locale: Locale)
    requires NumericField(p)
    requires d.year >= 0
    ensures IsWord(Value(p, At(d), locale)) && Plain(Value(p, At(d), locale))
    ensures FieldValue(Value(p, At(d), locale), p, locale) == Some(FieldNumber(p, d))
  {
    match p
    case Year4 =>
      assert Value(p, At(d), locale) == NumberText(d.year);
      TextReadsBack(d.year);
    case Month =>
      assert Value(p, At(d), locale) == NumberText(d.month + 1);
      TextReadsBack(d.month + 1);
    case Day =>
      assert Value(p, At(d), locale) == NumberText(d.day);
      TextReadsBack(d.day);
    case Month2 =>
      assert Value(p, At(d), locale) == Pad2(d.month + 1);
      PaddedReadsBack(d.month + 1);
    case Day2 =>
      assert Value(p, At(d), locale) == Pad2(d.day);
      PaddedReadsBack(d.day);
  }

  /** Twelve month names that `parseInt` rejects, none of which matches a
      later one under `matchPart`'s prefix test (otherwise the earlier name
      wins). */
  predicate ReadableNames(names: seq<string>)
  {
    |names| == 12
    && (forall i :: 0 <= i < 12 ==> IsWord(names[i]) && ParseInt(names[i]).None?)
    && (forall i, j :: 0 <= i < j < 12 ==> !NameMatches(names[i], names[j]))
  }

  /** A month-name field reads back as the 1-based month, for a locale
      whose names for that field are readable. */
  lemma MonthNameReadsBack(p: Part, d: CalDate, locale: Locale)
    requires p == MonthShort || p == MonthLong
    requires ReadableNames(if p == MonthLong then locale.months else locale.monthsShort)
    ensures IsWord(Value(p, At(d), locale))
    ensures FieldValue(Value(p, At(d), locale), p, locale) == Some(d.month + 1)
  {
    var names := if p == MonthLong then locale.months else locale.monthsShort;
    NameReadsBack(names, d.month);
    assert Value(p, At(d), locale) == names[d.month];
  }

  /** Each name of a readable list is a word that `parseInt` rejects and
      that is found at its own position. */
  lemma NameReadsBack(names: seq<string>, k: int)
    requires ReadableNames(names) && 0 <= k < 12
    ensures IsWord(names[k]) && ParseInt(names[k]).None?
    ensures FirstMatch(names, names[k]) == k
  {
    FirstMatchOwn(names, k);
  }

  /** In a list where no name matches a later one, a name is found at its
      own position. */
  lemma FirstMatchOwn(names: seq<string>, k: int)
    requires 0 <= k < |names|
    requires forall i, j :: 0 <= i < j < |names| ==> !NameMatches(names[i], names[j])
    ensures FirstMatch(names, names[k]) == k
  {
    var w := names[k];
    assert w[..Min(|w|, |w|)] == w && w[..|w|] == w;
    assert NameMatches(w, w);
  }

  // ---------------------------------------------------------------------
  // The setters on the values read

  /** Every year from 0 to 275759 lies wholly inside the time range. */
  lemma SafeYear(dt: Date)
    requires 0 <= dt.year <= 275759 && 0 <= dt.month < 12
    ensures InTimeRange(dt)
  {
  }

  /** Setting such a year on a valid date gives a valid date in that year
      (on March 1 when the date was February 29 and the year is not a leap
      year). */
  lemma YearSetterLands(e: CalDate, y: int)
    requires 0 <= y <= 275759
    ensures SetUTCFullYear(At(e), y).At? && SetUTCFullYear(At(e), y).date.year == y
  {
    var mi := 12 * y + e.month;
    MonthIndexParts(Date(y, e.month, 1));
    var r := MakeDate(y, e.month, e.day);
    assert r == Normalize(mi, e.day);
    if e.day <= MonthLength(mi) {
      NormalizeStep(mi, e.day);
    } else {
      ShortMonth(mi);
      NormalizeOverflow(mi, e.day);
      NormalizeStep(mi + 1, e.day - MonthLength(mi));
    }
    SafeYear(r);
  }

  /** The setter loop written out, one round per entry of `SettersOrder`. */
  lemma SettersUnrolled(e: CalDate, parsed: map<Part, Option<int>>, nearby: Nearby, cy: int)
    ensures Applied(e, parsed, SettersOrder, nearby, cy)
         == Step(Step(Step(Step(Step(Step(Step(Step(e, Year4, parsed, nearby, cy), Year2, parsed, nearby, cy),
              MonthShort, parsed, nearby, cy), MonthLong, parsed, nearby, cy), Month, parsed, nearby, cy),
              Month2, parsed, nearby, cy), Day, parsed, nearby, cy), Day2, parsed, nearby, cy)
  {
    var o := SettersOrder;
    assert o[1..] == [Year2, MonthShort, MonthLong, Month, Month2, Day, Day2];
    assert o[1..][1..] == [MonthShort, MonthLong, Month, Month2, Day, Day2];
    assert o[1..][1..][1..] == [MonthLong, Month, Month2, Day, Day2];
    assert o[1..][1..][1..][1..] == [Month, Month2, Day, Day2];
    assert o[1..][1..][1..][1..][1..] == [Month2, Day, Day2];
    assert o[1..][1..][1..][1..][1..][1..] == [Day, Day2];
    assert o[1..][1..][1..][1..][1..][1..][1..] == [Day2];
    assert o[1..][1..][1..][1..][1..][1..][1..][1..] == [];
  }

  /** What the parser recorded for a date's numeric fields. */
  predicate RecordsFields(parsed: map<Part, Option<int>>, d: CalDate)
  {
    (forall p :: p in parsed ==> NumericField(p) && parsed[p] == Some(FieldNumber(p, d)))
    && Year4 in parsed && (Month in parsed || Month2 in parsed) && (Day in parsed || Day2 in parsed)
  }

  /** The year, then the month, then the day: any valid starting date ends
      on `d`. */
  lemma SettersReachDate(today: CalDate, parsed: map<Part, Option<int>>, d: CalDate, nearby: Nearby, cy: int)
    requires RecordsFields(parsed, d)
    requires 0 <= d.year <= 275759
    requires Threshold(nearby).None? || d.year >= 100
    ensures Applied(today, parsed, SettersOrder, nearby, cy) == d
  {
    SettersUnrolled(today, parsed, nearby, cy);
    var e1 := Step(today, Year4, parsed, nearby, cy);
    YearStepLands(today, parsed, d, nearby, cy);
    NamesSkipped(e1, parsed, d, nearby, cy);
    var e2 := Step(Step(e1, Month, parsed, nearby, cy), Month2, parsed, nearby, cy);
    MonthStepLands(e1, parsed, d, nearby, cy);
    DayStepLands(e2, parsed, d, nearby, cy);
  }

  /** No name field was recorded, so their setters change nothing. */
  lemma NamesSkipped(e: CalDate, parsed: map<Part, Option<int>>, d: CalDate, nearby: Nearby, cy: int)
    requires RecordsFields(parsed, d)
    ensures Step(Step(Step(e, Year2, parsed, nearby, cy), MonthShort, parsed, nearby, cy), MonthLong, parsed, nearby, cy) == e
  {
    assert Year2 !in parsed && MonthShort !in parsed && MonthLong !in parsed;
  }

  lemma YearStepLands(today: CalDate, parsed: map<Part, Option<int>>, d: CalDate, nearby: Nearby, cy: int)
    requires RecordsFields(parsed, d)
    requires 0 <= d.year <= 275759
    requires Threshold(nearby).None? || d.year >= 100
    ensures Step(today, Year4, parsed, nearby, cy).year == d.year
  {
    assert parsed[Year4] == Some(d.year);
    assert YearFor(d.year, nearby, cy) == d.year;
    YearSetterLands(today, d.year);
  }

  lemma MonthStepLands(e1: CalDate, parsed: map<Part, Option<int>>, d: CalDate, nearby: Nearby, cy: int)
    requires RecordsFields(parsed, d)
    requires 0 <= d.year <= 275759 && e1.year == d.year
    ensures var e2 := Step(Step(e1, Month, parsed, nearby, cy), Month2, parsed, nearby, cy);
            e2.year == d.year && e2.month == d.month
  {
    assert MonthTarget(d.month + 1) == d.month;
    var c := Date(d.year, d.month, Min(e1.day, DaysInMonth(d.year, d.month)));
    SafeYear(c);
    var m1 := Step(e1, Month, parsed, nearby, cy);
    assert Month in parsed ==> m1 == c;
    if Month in parsed {
      SafeYear(Date(d.year, d.month, Min(m1.day, DaysInMonth(d.year, d.month))));
    }
  }

  lemma DayStepLands(e2: CalDate, parsed: map<Part, Option<int>>, d: CalDate, nearby: Nearby, cy: int)
    requires RecordsFields(parsed, d)
    requires e2.year == d.year && e2.month == d.month
    ensures Step(Step(e2, Day, parsed, nearby, cy), Day2, parsed, nearby, cy) == d
  {
    RebuildSame(d);
    assert SetUTCDate(At(e2), d.day) == At(d);
  }

  // ---------------------------------------------------------------------
  // The round trip

  /** The formats the round trip is about: a `yyyy` year, an `m` or `mm`
      month and a `d` or `dd` day, each once and in any order, with
      punctuation between them and, optionally, around them. */
  predicate NumericFormat(f: Format)
  {
    |f.parts| == 3 && |f.separators| == 4
    && NumericField(f.parts[0]) && NumericField(f.parts[1]) && NumericField(f.parts[2])
    && FieldKind(f.parts[0]) != FieldKind(f.parts[1])
    && FieldKind(f.parts[0]) != FieldKind(f.parts[2])
    && FieldKind(f.parts[1]) != FieldKind(f.parts[2])
    && AllPunctuation(f.separators[0]) && AllPunctuation(f.separators[1])
    && AllPunctuation(f.separators[2]) && AllPunctuation(f.separators[3])
    && |f.separators[1]| > 0 && |f.separators[2]| > 0
  }

  lemma PunctuationPlain(s: string)
    requires AllPunctuation(s)
    ensures Plain(s)
  {
  }

  /** The value a numeric format writes at position `i` is a word of
      digits that reads back as the field's number. */
  lemma ValueReadsBack(d: CalDate, f: Format, locale: Locale, i: int)
    requires NumericFormat(f)
    requires d.year >= 0
    requires 0 <= i < 3
    ensures var w := Values(f.parts, At(d), locale)[i];
      IsWord(w) && Plain(w) && FieldValue(w, f.parts[i], locale) == Some(FieldNumber(f.parts[i], d))
  {
    FieldReadsBack(f.parts[i], d, locale);
  }

  /** The three values of a numeric format are separable by its
      separators. */
  lemma ValuesSeparable(d: CalDate, f: Format, locale: Locale)
    requires NumericFormat(f)
    requires d.year >= 0
    ensures Separable(f.separators, Values(f.parts, At(d), locale))
  {
    var vals := Values(f.parts, At(d), locale);
    forall i | 0 <= i < 3
      ensures IsWord(vals[i])
    {
      ValueReadsBack(d, f, locale, i);
    }
  }

  /** The text a numeric format writes is made of digits and punctuation. */
  lemma WrittenPlain(d: CalDate, f: Format, locale: Locale)
    requires NumericFormat(f)
    requires d.year >= 0
    ensures Plain(Emit(f.separators, Values(f.parts, At(d), locale)))
  {
    var vals := Values(f.parts, At(d), locale);
    forall i | 0 <= i < 3
      ensures Plain(vals[i])
    {
      ValueReadsBack(d, f, locale, i);
    }
    forall i | 0 <= i < 4
      ensures Plain(f.separators[i])
    {
      PunctuationPlain(f.separators[i]);
    }
    PlainEmit(f.separators, vals);
  }

  /** The words of a date written with a numeric format are its three field
      values, and the text is neither relative nor an alias. */
  lemma WrittenText(d: CalDate, f: Format, locale: Locale)
    requires NumericFormat(f)
    requires d.year >= 0
    ensures var text := Emit(f.separators, Values(f.parts, At(d), locale));
      |text| > 0 && Offsets(text).None? && Alias(text) == NotAlias
      && Words(text) == Values(f.parts, At(d), locale)
  {
    var vals := Values(f.parts, At(d), locale);
    ValuesSeparable(d, f, locale);
    WordsOfEmit(f.separators, vals);
    WrittenPlain(d, f, locale);
    var text := Emit(f.separators, vals);
    PlainNotRelative(text);
    PlainNotAlias(text);
  }

  lemma DistinctParts(f: Format, i: int)
    requires NumericFormat(f)
    requires 0 <= i < 3
    ensures forall j :: 0 <= j < 3 && j != i ==> f.parts[j] != f.parts[i]
  {
  }

  /** A numeric format names a year, a month and a day. */
  lemma KindsCovered(f: Format)
    requires NumericFormat(f)
    ensures Year4 in f.parts && (Month in f.parts || Month2 in f.parts) && (Day in f.parts || Day2 in f.parts)
  {
    var k0, k1, k2 := FieldKind(f.parts[0]), FieldKind(f.parts[1]), FieldKind(f.parts[2]);
    assert k0 == 0 || k1 == 0 || k2 == 0;
    assert k0 == 1 || k1 == 1 || k2 == 1;
    assert k0 == 2 || k1 == 2 || k2 == 2;
  }

  /** What the parser records from those words. */
  lemma RecordedFields(d: CalDate, f: Format, locale: Locale)
    requires NumericFormat(f)
    requires d.year >= 0
    ensures RecordsFields(Collect(Values(f.parts, At(d), locale), f.parts, locale), d)
  {
    var vals := Values(f.parts, At(d), locale);
    var parsed := Collect(vals, f.parts, locale);
    CollectKeys(vals, f.parts, locale);
    KindsCovered(f);
    forall p | p in parsed
      ensures NumericField(p) && parsed[p] == Some(FieldNumber(p, d))
    {
      var i :| 0 <= i < 3 && f.parts[i] == p;
      DistinctParts(f, i);
      CollectDistinct(vals, f.parts, locale, i);
      ValueReadsBack(d, f, locale, i);
    }
  }

  /** Parsing what the formatter wrote gives the date back, for every
      numeric format, every date from year 0 to 275759 and every clock, as
      long as the two-digit year inference is off or the year has three
      digits or more. */
  lemma ParseFormattedDate(d: CalDate, f: Format, locale: Locale, nearby: Nearby, clock: Clock)
    requires NumericFormat(f)
    requires 0 <= d.year <= 275759
    requires Threshold(nearby).None? || d.year >= 100
    ensures ParseDateSpec(Typed(Emit(f.separators, Values(f.parts, At(d), locale))),
                          Compiled(f), locale, nearby, clock) == Parsed(At(d))
  {
    var vals := Values(f.parts, At(d), locale);
    var text := Emit(f.separators, vals);
    WrittenText(d, f, locale);
    ReadFieldByField(text, vals, f, locale, nearby, clock);
    RecordedFields(d, f, locale);
    SettersReachDate(clock.today, Collect(vals, f.parts, locale), d, nearby, clock.currentYear);
  }

  /** Text whose words match the format's tokens one for one is read by
      the setters. */
  lemma ReadFieldByField(text: string, vals: seq<string>, f: Format, locale: Locale, nearby: Nearby, clock: Clock)
    requires |text| > 0 && Offsets(text).None? && Alias(text) == NotAlias
    requires Words(text) == vals && |vals| == |f.parts|
    ensures ParseDateSpec(Typed(text), Compiled(f), locale, nearby, clock)
         == Parsed(At(Applied(clock.today, Collect(vals, f.parts, locale), SettersOrder, nearby, clock.currentYear)))
  {
    LiteralPath(text, f, locale, nearby, clock);
    WordsMatchParts(vals, f.parts, locale, nearby, clock);
    CompiledTextOutcome(text, f, locale, nearby, clock);
  }

  /** As many words as tokens: the setters run on every token's value. */
  lemma WordsMatchParts(vals: seq<string>, parts: seq<Part>, locale: Locale, nearby: Nearby, clock: Clock)
    requires |vals| == |parts|
    ensures LiteralParse(vals, parts, locale, nearby, clock)
         == Applied(clock.today, Collect(vals, parts, locale), SettersOrder, nearby, clock.currentYear)
  {
  }

  /** A compiled format goes straight to the text branches. */
  lemma CompiledTextOutcome(text: string, f: Format, locale: Locale, nearby: Nearby, clock: Clock)
    requires |text| > 0
    ensures ParseDateSpec(Typed(text), Compiled(f), locale, nearby, clock)
         == TextOutcome(text, f, locale, nearby, clock)
  {
  }
}
