# bootstrap-datepicker date engine in Dafny

This project models the calendar engine inside the datepicker widget of
`index.js`, without its DOM. It covers six parts:

- the `DPGlobal` format compiler, formatter and parser (`parseFormat`,
  `formatDate`, `parseDate`, with the relative grammar `+1d -2w`, the aliases
  `yesterday`/`today`/`tomorrow` and two-digit-year inference);
- the picker's calendar moves (`moveDay`, `moveWeek`, `moveMonth`, `moveYear`)
  over `isLeapYear` and `getDaysInMonth`;
- the constraint checks (`dateWithinRange`, `dateIsDisabled`,
  `weekOfDateIsDisabled`) and `moveAvailableDate`;
- the date-related state of `keydown`, `show`, `hide` and `showMode`, and the
  option normalisation in `_processOptions` and `_resolveViewName`;
- the selection: `DateArray` and `_toggleMultidate`;
- the linked-range cascade of `DateRangePicker.dateUpdated`.

A JavaScript `Date` at UTC midnight is modelled as `Time`:

- `At(d)` holds a valid civil date `Date(year, month 0-11, day)` within the
  ECMAScript time range of ±10^8 days around 1970-01-01;
- `NaN` is the Invalid Date.

`setUTCDate`, `setUTCMonth` and `setUTCFullYear` are modelled as an explicit
normaliser (`Calendar.Normalize`) followed by the time clip. That way the
overflow of out-of-range fields and the edge of the time range both behave as
in ECMAScript.

Modules, one per file:

- `Common`: `Option`.
- `Calendar`: dates, day numbers, leap years and the setters.
- `Numbers`: digits, `parseInt` and zero padding.
- `Formats`: `parseFormat` and `formatDate`.
- `Stepping`: the moves.
- `Relative`: the relative grammar.
- `Parsing`: `parseDate`.
- `RoundTrip`: formatting followed by parsing.
- `Selection`: `DateArray` and `_toggleMultidate`.
- `Constraints`: the checks and `moveAvailableDate`.
- `Navigation`: options and the picker's keyboard state.
- `Ranges`: the range picker.

The wall clock becomes parameters:

- "now", "today" and the current year in `parseDate` are passed in as
  `Parsing.Clock`;
- the relative grammar takes "now" as an argument.

## Model

| member | source | states |
|---|---|---|
| Calendar.DaysInMonth | index.js:1959-1966 | February has 29 days exactly in leap years (divisible by 4, not by 100 unless by 400) and 28 otherwise; April, June, September and November have 30 days; every other month has 31 |
| Calendar.MakeDateMeaning | index.js:92-94 | `UTCDate(y, m, d)` with overflowing month or day fields lands on the day that is `d - 1` days after the first of month `m` of year `y`; in-range fields give exactly that date |
| Calendar.NormalizeMeaning | index.js:92-94 | the setters' normaliser always yields a civil date, and that date is `day - 1` days after the first day of the given month index |
| Calendar.DayNumberInjective | index.js:103-109 | two civil dates with the same day number are the same date, so comparing time values is the same as comparing UTC year, month and day |
| Numbers.DigitsRoundTrip | index.js:2112 | reading back the decimal digits of `n` gives `n` |
| Numbers.ParseIntText | index.js:2112 | `parseInt` of the decimal text of any integer, signed or not, gives that integer |
| Numbers.ParsePad2 | index.js:2154-2165 | a value zero-padded to two digits (`dd`, `mm`) reads back with `parseInt` as the same value |
| Numbers.TrimStart | index.js:2112 | `parseInt` skips exactly the leading white space, and what is left starts with a non-space character |
| Formats.TokenAt | index.js:1974-1986 | a token found at the start of the format is a prefix of it |
| Formats.TokenAtLongest | index.js:1974-1986 | the token found is the longest of `d dd D DD m mm M MM yy yyyy` that starts the format (maximal munch) |
| Formats.Split | index.js:1974-1986 | splitting on the NUL marker gives pieces free of NUL, one more than there are markers, and joining them back gives the input |
| Formats.ParseFormat | index.js:1974-1986 | `parseFormat` fails (throws) exactly when the format has no token; otherwise its parts are the tokens in order and its separators are the text between them |
| Formats.SeparatorCount | index.js:1974-1986 | there is one more separator than parts (plus one per NUL the format already held) |
| Formats.CompileRoundTrip | index.js:1974-1986 | interleaving the separators with the spellings of the parts rebuilds the format string |
| Formats.Values | index.js:2154-2165 | the field values are computed part by part, one value per part |
| Formats.Interleave | index.js:2166-2175 | the output loop emits `sep[0] val[0] sep[1] ... sep[n]` |
| Formats.FormatDate | index.js:2143-2175 | no date gives the empty string; a format without tokens throws; otherwise the text is the separators interleaved with the field values of the date |
| Stepping.MoveDayShift | index.js:1515-1520 | `moveDay(d, n)` is `n` days later; it is the Invalid Date exactly when that leaves the time range |
| Stepping.MoveDayCompose | index.js:1515-1520 | moving `a` days then `b` days is moving `a + b` days |
| Stepping.MoveWeek | index.js:1523-1525 | `moveWeek(d, n)` is `moveDay(d, 7n)` and keeps the weekday |
| Stepping.AddMonths | index.js:1528-1580 | the intended month move: `n` months on, day `min(original day, length of the target month)` |
| Stepping.MoveOneMonth | index.js:1541-1559 | a one-month step gives the same day of the next (or previous) month, clamped to that month's last day |
| Stepping.ResetDay | index.js:1573-1578 | the day-decrementing loop ends on the last day of the intended month whenever the first try overflowed |
| Stepping.RestoreDay | index.js:1566-1572 | restoring the original day after the single steps and then clamping gives `min(day, month length)` of the final month |
| Stepping.MoveMonth | index.js:1528-1580 | `moveMonth` returns `defaultViewDate` for an Invalid Date and the date for `dir == 0`; otherwise it is the step-by-step specification `MoveMonthSpec` |
| Stepping.MoveYear | index.js:1583-1585 | `moveYear(d, n)` is `moveMonth(d, 12n)` |
| Stepping.MoveMonthMeaning | index.js:1528-1580 | whenever the target month is within the time range, `moveMonth(d, n)` is the same day `n` months on, clamped to the length of the final month |
| Stepping.MoveYearMeaning | index.js:1583-1585 | `moveYear(d, n)` keeps month and day, clamping 29 February to the 28th in a common year |
| Stepping.TwoMonthsKeepDay | index.js:1560-1572 | 31 January plus two months is 31 March: the multi-step path restores the day |
| Stepping.SingleStepsLoseDay | index.js:1541-1559 | two single steps from 31 January end on 29 February 2000: each step clamps |
| Stepping.BackFromMarch31 | index.js:1543-1548 | one month back from 31 March is the last day of February, 28th or 29th by leap year |
| Stepping.YearAfterLeapDay | index.js:1583-1585 | a year after 29 February 2000 is 28 February 2001 |
| Stepping.ForwardStepSpinsAsWritten | index.js:1575-1578 | as written, a one-month step from 20 August 275760 makes the month Invalid, and the loop test then stays true forever; the specification returns the Invalid Date |
| Stepping.BackwardStepsSpinAsWritten | index.js:1560-1578 | as written, two months back from 25 May -271821 steps onto an Invalid Date, and the restoring loop then never ends |
| Relative.TermAt | index.js:2003-2004 | a term `[+-]\d+[dmwy]` consumes at least three characters and leaves a suffix of the input |
| Relative.UnitOf | index.js:2005-2010 | exactly the letters `d`, `w`, `m` and `y` name a unit |
| Relative.GapRun | index.js:2017 | the run of white space and commas between terms is maximal |
| Relative.Offsets | index.js:2017-2025 | a whole input matching the relative grammar yields at least one term |
| Relative.ApplyOffsets | index.js:2017-2026 | the terms are applied left to right from "now", and the result is rebuilt from its UTC fields |
| Relative.RebuildSame | index.js:2026 | rebuilding a valid date from its own UTC year, month and day gives the same date |
| Relative.ProtoMoveMonthAgrees | index.js:2024 | the prototype's `moveMonth` throws on an Invalid Date; when it does not throw, it agrees with the picker's `moveMonth` |
| Relative.RelativeMonthMeaning | index.js:2024 | a month term `+Nm` lands on the same day `N` months on, clamped, whenever that date is in the time range |
| Relative.AliasTerms | index.js:2011-2015 | `yesterday`, `today` and `tomorrow` are the single terms -1, 0 and +1 days |
| Parsing.WordRun | index.js:2046 | a word is a maximal run of non-punctuation characters |
| Parsing.Words | index.js:2046 | the input is cut into its non-punctuation words |
| Parsing.FirstMatch | index.js:2104-2108 | the month name chosen is the first whose prefix matches the word case-insensitively, or none |
| Parsing.FieldValue | index.js:2112-2126 | a numeric word gives its `parseInt` value; otherwise month names give their 1-based index (0 when none matches) and other parts give NaN |
| Parsing.CollectKeys | index.js:2109-2127 | the parsed map has an entry exactly for each part of the format |
| Parsing.CollectDistinct | index.js:2109-2127 | a part that occurs once in the format holds the value of its own word |
| Parsing.SetterParts | index.js:2096-2102 | the filter keeps exactly the setter parts, in order |
| Parsing.ApplyNearbyYear | index.js:2049-2064 | years of 100 or more are unchanged; a year below 100 becomes 2000+y unless that exceeds the current year plus the threshold, when it becomes 1900+y |
| Parsing.Threshold | index.js:2050-2052 | `assumeNearby` of `true` means a threshold of 10 |
| Parsing.MonthTarget | index.js:2079-2081 | the month set is `v - 1` reduced into 0..11 |
| Parsing.MonthSetter | index.js:2075-2087 | the month setter keeps the year and lands in the target month, clamping the day to that month's length |
| Parsing.SetMonth | index.js:2075-2087 | the month setter, with its own loops (the month brought into range, then the day stepped back one at a time while the month differs), computes `MonthSetter`, and stops on an Invalid Date at the edge of the time range |
| Parsing.OneDayBack | index.js:2083-2085 | one pass of the setter's loop on an overflowed day moves the date back exactly one day |
| Parsing.MonthSetterSpinsAsWritten | index.js:2082-2085 | as written, setting December in the year 275760 gives an Invalid Date, and the loop test stays true forever; the corrected setter returns the Invalid Date |
| Parsing.ApplySetter | index.js:2068-2094 | each part applies its setter: the year setters with year inference, the month setters, the day setters |
| Parsing.Step | index.js:2128-2137 | a setter whose value is missing or NaN, or whose result is an Invalid Date, leaves the date as it was; otherwise the date becomes the setter's result |
| Parsing.CollectValues | index.js:2109-2127 | the loop builds the map of part values |
| Parsing.RunSetters | index.js:2128-2137 | the setters run in the fixed order year, month, day, whatever the order of the format |
| Parsing.ParseLiteral | index.js:2095-2139 | with a word count that differs from the part count even after filtering, the result is today; otherwise it is the setters applied to today |
| Parsing.ParseDate | index.js:1989-2140 | no input gives `undefined`; a `Date` comes back unchanged; relative text and aliases move from now; other text is read field by field |
| Parsing.LiteralPath | index.js:2046-2139 | text that is neither relative nor an alias is read field by field |
| RoundTrip.WordsOfEmit | index.js:2166-2175 | the words of formatted text are the field values, when the separators are punctuation |
| RoundTrip.PlainNotRelative | index.js:2017 | formatted numeric text never matches the relative grammar |
| RoundTrip.PlainNotAlias | index.js:2029 | formatted numeric text is never an alias |
| RoundTrip.FieldReadsBack | index.js:2154-2165 | each numeric field value reads back as the field it came from |
| RoundTrip.MonthNameReadsBack | index.js:2116-2123 | a month name written by `M` or `MM` reads back as the 1-based month, in a locale whose names are non-numeric words none of which is a prefix-match of a later one |
| RoundTrip.FirstMatchOwn | index.js:2104-2108 | in such a list of names, `matchPart` finds each name at its own position |
| RoundTrip.SettersReachDate | index.js:2128-2137 | applying the setters in order to any today gives exactly the date whose fields were recorded |
| RoundTrip.ParseFormattedDate | index.js:1989-2175 | parsing what `formatDate` wrote with a numeric day-month-year format gives the original date back (years 0 to 275759; with year inference only from the year 100) |
| RoundTrip.ReadFieldByField | index.js:2046-2139 | text whose words match the parts one to one is read with the setters |
| Selection.SameDayMeansEqual | index.js:132-139 | the test `0 <= stored - d < 24h` on dates at midnight is equality of dates |
| Selection.IndexOf | index.js:129-140 | the index is the first position holding the date, or -1 exactly when it is absent |
| Selection.StartIndex | index.js:126-128 | negative indexes count from the end, and the index is kept within the array |
| Selection.Removed | index.js:141-143 | `splice(i, 1)` removes exactly one entry at the start index, or nothing past the end |
| Selection.DateArray.constructor | index.js:164-169 | a new array holds the dates given |
| Selection.DateArray.Get | index.js:126-128 | `get(i)` is undefined exactly past the end or on an empty array; negative indexes count from the end |
| Selection.DateArray.Contains | index.js:129-140 | `contains` returns the first index of the date, or -1 |
| Selection.DateArray.Remove | index.js:141-143 | `remove(i)` leaves the array without its entry at the start index |
| Selection.DateArray.Push | index.js:1475-1479 | the date is appended |
| Selection.DateArray.Clear | index.js:154-156 | the array becomes empty |
| Selection.DateArray.Replace | index.js:144-153 | a falsy argument leaves the array alone; otherwise the array holds exactly the new dates |
| Selection.DateArray.Copy | index.js:157-161 | the copy is a new array with the same dates |
| Selection.Picked | index.js:1468-1482 | a selected date is removed when the options allow it and kept otherwise; a new date replaces the selection in single mode and is appended otherwise |
| Selection.Evicted | index.js:1484-1488 | the newest `n` dates stay, in order |
| Selection.Evict | index.js:1484-1488 | the loop removes dates from the front until at most `n` are left |
| Selection.ToggleMultidate | index.js:1468-1490 | `_toggleMultidate` computes `Toggled`: add-or-remove, then eviction down to a numeric cap |
| Selection.SingleModeLeavesDate | index.js:1475-1479 | in single mode the selection becomes exactly the date picked, unless `toggleActive` turns the selected date off |
| Selection.CapKeepsNewest | index.js:1484-1488 | with a numeric cap at most `n` dates stay, and they are the newest |
| Selection.UnlimitedFlips | index.js:1468-1482 | without a limit, picking a date flips whether it is selected, leaves the other dates alone, and never selects a date twice |
| Constraints.WithinRangeMeaning | index.js:1618-1620 | `dateWithinRange` is false for an Invalid Date and against an Invalid bound; a missing bound (an infinity) imposes nothing; otherwise the date lies between the bounds in calendar order, both ends included |
| Calendar.DayOrderIsCalendarOrder | index.js:1618-1620 | comparing two dates' time values is comparing their year, month and day in that order |
| Constraints.WeekDisabledPeriodic | index.js:1603-1605 | `weekOfDateIsDisabled` depends on `getUTCDay()` only: dates a whole number of weeks apart are disabled alike |
| Constraints.WeekendDisabled | index.js:1603-1605 | `getUTCDay()` counts from Sunday: with `[0, 6]` a Saturday and a Sunday are disabled and the weekdays between are not |
| Constraints.DisabledMeaning | index.js:1608-1615 | `dateIsDisabled` holds exactly when the weekday is disabled or a `datesDisabled` entry has the same UTC year, month and day; an Invalid entry matches nothing |
| Constraints.NextAvailable | index.js:1588-1600 | a date found by single-day moves is within the range and not disabled |
| Constraints.AvailableDate | index.js:1588-1600 | a date `moveAvailableDate` returns is within the range and not disabled |
| Constraints.MoveBy | index.js:1590 | the first move is the one named by `fn` |
| Constraints.MoveAvailableDate | index.js:1588-1600 | the `do...while` loop returns `false` once a date leaves the range, and otherwise the first date after the skipped ones that is not disabled |
| Constraints.NextAvailableIsFirst | index.js:1588-1600 | the date found is a whole number of single days on, and every date skipped on the way was within the range and disabled |
| Constraints.NextAvailableReaches | index.js:1588-1600 | conversely, when the k-th date on is within the range and not disabled and every date before it is blocked, that k-th date is the date found |
| Constraints.NextAvailableNone | index.js:1588-1600 | no date is found only when, after some run of disabled dates within the range, the next date leaves the range |
| Constraints.AvailableDateNone | index.js:1588-1600 | `moveAvailableDate` returns `false` only when the first move, or a later single-day move after disabled dates, leaves the range |
| Constraints.NothingDisabled | index.js:1603-1615 | with nothing disabled, the move is the first move itself, or `false` when that leaves the range |
| Constraints.ResultIsAllowed | index.js:1603-1620 | a date that is disabled or out of the range is never the result |
| Navigation.ResolveViewName | index.js:247-264 | a number or a name of a view (`days`, `month`, `year`, ...) resolves to that view; anything else gives the default |
| Navigation.CoerceMultidate | index.js:312-318 | `true` means no limit; `false` and 0 mean single selection; a positive number is a cap |
| Navigation.Rem7 | index.js:321 | `%` in the source truncates: the remainder takes the sign of the dividend |
| Navigation.ProcessOptions | index.js:304-322 | min and max view are within 0..4; the start view is kept when it lies between them, becomes `maxViewMode` above it and `minViewMode` below it (and `minViewMode` when the two cross); `weekEnd` is the day before `weekStart` |
| Navigation.NamedViews | index.js:247-264 | each view name resolves to its own index |
| Navigation.LastOr | index.js:1636-1650 | the date a key starts from is the newest selected date, or else the view date |
| Navigation.ShowModeStep | index.js:1730-1733 | `showMode(dir)` moves the view mode by `dir` when that stays within `[minViewMode, maxViewMode]`, and otherwise saturates at `maxViewMode` above and `minViewMode` below (`minViewMode` when the bounds cross); no direction leaves the bounds |
| Navigation.ArrowMove | index.js:1646-1689 | an arrow key lands only on a date within the range and not disabled |
| Navigation.Picker.constructor | index.js:175-243 | a new picker shows its start view at the view date it is given, with no focus, and is visible when inline |
| Navigation.Picker.ShowMode | index.js:1730-1733 | only the view mode changes, by the clamp |
| Navigation.Picker.Show | index.js:574-590 | `show` makes the picker visible unless its input is locked, and changes no date |
| Navigation.Picker.Hide | index.js:592-607 | `hide` leaves an inline or hidden picker alone; otherwise it hides the picker, brings back the start view and drops the focus |
| Navigation.Picker.LastOrViewDate | index.js:1636-1650 | the date the keys start from |
| Navigation.Picker.Keydown | index.js:1623-1727 | the key handler changes the picker's state as `KeyStep` does: escape, the arrows, enter and tab |
| Navigation.KeysKeepView | index.js:1623-1733 | no key takes the view mode outside the processed bounds |
| Navigation.ArrowLandsOnAllowedDate | index.js:1646-1689 | after an arrow key, a focused date is within the range and not disabled |
| Navigation.RightArrowNextDay | index.js:1646-1689 | with no constraints, the right arrow in the days view focuses the next day |
| Navigation.UpArrowFourMonthsBack | index.js:1646-1689 | with no constraints, the up arrow in the months view focuses the date four months back |
| Navigation.EnterToggles | index.js:1690-1707 | enter toggles the focused date (else the newest selected date, else the view date), drops the focus and moves the view to the newest selected date |
| Navigation.EscapeTwice | index.js:1635-1645 | the first escape drops the focus and the second hides the picker |
| Navigation.HiddenPickerOpens | index.js:1627-1633 | on a hidden picker only the down arrow and escape change anything, and they only show it (unless the input is locked) |
| Ranges.Values | index.js:1769-1774 | `updateDates` reads every picker's date, in order |
| Ranges.LeftRun | index.js:1818-1822 | the left walk covers exactly the neighbours whose date is after the new one, stopping at the first that is not |
| Ranges.RightRun | index.js:1823-1827 | the right walk covers exactly the neighbours whose date is before the new one |
| Ranges.Overwrite | index.js:1818-1827 | the walk writes the new date into the walked slots and nowhere else |
| Ranges.Notify | index.js:1787-1832 | while `updating`, notifications are ignored; a notification from outside the range leaves the guard set; a handled one ends with the guard cleared and every slot showing the dates read back |
| Ranges.NotifyLinked | index.js:1812-1831 | a picker of the range with every slot set runs the cascade |
| Ranges.Replay | index.js:1787-1832 | a sequence of notifications, each handled in turn |
| Ranges.RangePicker.constructor | index.js:1753-1767 | a new range picker holds every picker's date, with the guard clear |
| Ranges.RangePicker.AllPickersSet | index.js:1812-1816 | tells whether every picker has a date |
| Ranges.RangePicker.WalkLeft | index.js:1818-1822 | the left loop overwrites the left run and nothing else |
| Ranges.RangePicker.WalkRight | index.js:1823-1827 | the right loop overwrites the right run and nothing else |
| Ranges.RangePicker.Settle | index.js:1818-1829 | the cascade followed by `updateDates` |
| Ranges.RangePicker.DateUpdated | index.js:1787-1832 | `dateUpdated` changes the range as `Notify` does |
| Ranges.RangePicker.Pick | index.js:1787-1832 | a picker's date changes, then the range is notified |
| Ranges.CascadeClamps | index.js:1818-1829 | after a pick, each other picker's date is clamped towards the new date: earlier pickers end no later and later pickers no earlier |
| Ranges.LeftRunCovers | index.js:1818-1822 | in an ordered range, every left neighbour after the new date is inside the left run |
| Ranges.RightRunCovers | index.js:1823-1827 | in an ordered range, every right neighbour before the new date is inside the right run |
| Ranges.CascadeKeepsOrder | index.js:1818-1829 | if the dates were in order before a pick, they are in order after the cascade |
| Ranges.GuardSetDropsAll | index.js:1791-1793 | while the guard is set, every notification is dropped and nothing changes |
| Ranges.EarlyReturnSticks | index.js:1794-1810 | a notification from a non-picker or an unknown input leaves the guard set, so every later notification is dropped |
| Ranges.NotifyAsWritten | index.js:1818-1827 | as written (`setUTCDate` being a static of the class, index.js:1747), the cascade never changes a slot: the first write throws and leaves the guard set |
| Ranges.CascadeWritesAsWritten | index.js:1818-1822 | as written (`setUTCDate` being a static of the class), a pick earlier than its left neighbour throws and leaves the range out of order, while the corrected cascade restores the order |
| Ranges.MovedBeforeStartAsWritten | index.js:1818-1822 | moving the end picker before the start picker throws as written; the corrected cascade moves both to the new date |

## Left out

- DOM rendering, templates, popover placement, event wiring and jQuery plugin glue. They are markup and host-toolkit plumbing. `show` and `hide` are modelled only by their effect on the visible flag, the view mode and the focus.
- Conversion between local time and UTC (`_utcToLocal`, `_localToUtc`, `_zeroTime`), and the week helpers. They depend on the host time zone. Every date is a UTC day, and the time of day of "now" is dropped.
- Custom codecs (`format.toValue`, `format.toDisplay`) and the `beforeShow` callbacks. They are foreign functions. The model takes the built-in paths only, and treats no date as disabled by a callback.
- The wall clock (`new Date()`). "Now", "today" and the current year are parameters.
- Dates as floating-point milliseconds. Only whole days at midnight are modelled, and integers are unbounded.
- Text. `toLowerCase` folds ASCII letters only, and `parseInt` reads ASCII digits only.
- `parseDate`'s `assumeNearby` non-numeric values other than `true`: they are not modelled.
- `_toggleMultidate` with no date (the `!date` branch clears the selection): not modelled. The model always receives a date.
- `daysOfWeekDisabled` entries that are not integers: not modelled.
- An Invalid `viewDate`. The picker's `viewDate` is always a valid date.
- Events fired after a change (`setValue`, `fill`, `_trigger`): not modelled.
- `multidate` given as a string or a non-integer number: not modelled. `weekStart` that is not an integer: not modelled.
- Navigation.ProcessOptions: `weekEnd` is stated as the day before `weekStart` only for a non-negative `weekStart`. For a negative one, the source's truncating `%` gives a negative `weekStart`, and the model computes that value but states only its bounds.
- RoundTrip.ParseFormattedDate: stated only for formats of `d`/`dd`, `m`/`mm` and `yyyy` parts with punctuation separators. `yy` is left out because index.js:2161 writes only the year text after its first two characters, which gives back the year only when year inference happens to restore the dropped century. A negative year is left out because its `-` is punctuation and the word match at index.js:2046 drops it. The year 275760 is left out because the year setter can give an Invalid Date there, depending on today's month and day. `M`/`MM` are left out of the whole-date round trip because they depend on the locale's names; RoundTrip.MonthNameReadsBack proves the per-field read-back under stated locale conditions. `D`/`DD` write day names, which are words of the locale that the parser does not read as a day.
- Stepping.MoveMonth: on an Invalid Date, `moveMonth` returns the `defaultViewDate` option object itself, not a copy (index.js:1529-1531). In the multi-step branch, `setUTCDate(day)` at index.js:1568 then writes into that object, and a later `viewDate` is the same object. The model's options are immutable values, so this aliasing and the write into the option are not modelled; the returned date is the same. It happens only at the lower edge of the time range.
- Constraints.MoveAvailableDate: requires a non-zero direction. The arrow keys only ever give ±1 or ±4, and with 0 the source loop would not end on a disabled date.
- Ranges.RangePicker.constructor: a range whose pickers are not all set throws in `updateDates` at construction, so only ranges built from set dates are modelled.
- In `Ranges`, dates are day numbers, because only their order matters to the cascade. A write into a picker is a plain assignment: the picker's own `startDate`/`endDate` filtering of that write is not modelled.
- `keepEmptyValues` only matters in the adoption step `index.js:1812-1816`. That step is dead code, because `getUTCDate` throws on a picker with no date.
- Where the code and its documentation differ, the model follows the code:
  - a month name that matches nothing gives 0, and so December, not an Invalid Date;
  - after its first move, `moveAvailableDate` moves with `moveDay` using the same `dir`, which is ±4 in the months and years views.

## Findings

| source | as written | input that shows it | evidently intended | confidence | as-written member | corrected member |
|---|---|---|---|---|---|---|
| index.js:1575-1578 | `moveMonth`'s reset loop tests `getUTCMonth() !== newMonth`; once a step makes the date Invalid, the test stays true and the loop never ends | `moveMonth(20 August 275760, 1)` (or two months back from 25 May -271821) | return the Invalid Date at the edge of the time range | high, not executed | Stepping.ForwardStepSpinsAsWritten | Stepping.MoveMonth |
| index.js:2082-2085 | the `m` setter decrements the day until the month matches; an Invalid Date never matches | `parseDate("12/05/275760", "mm/dd/yyyy")` on a 15 January | return the Invalid Date, which the setter loop then skips | high, not executed | Parsing.MonthSetterSpinsAsWritten | Parsing.SetMonth |
| index.js:1747 | `setUTCDate` is attached to the `Datepicker` class, not to its prototype, so `this.pickers[j].setUTCDate` throws; the cascade never runs and `updating` stays set | a range of 10 and 20 January 2024 whose end picker is moved to 5 January 2024 | overwrite the out-of-order neighbours, then clear the guard | high, not executed | Ranges.MovedBeforeStartAsWritten | Ranges.RangePicker.DateUpdated |
