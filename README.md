# Multimedios XMLTV scraper: the schedule parser, modelled and proved in Dafny

This project models the core of `scrape.py`: the part that turns the text
lines of the Multimedios programming page into a timeline of TV programmes.
It has three parts:

- **Section date resolver** (`choose_date_for_section`). A header such as
  "Programación de Jueves 1" gives a weekday and a day of the month, but no
  month. The resolver tries the months at offsets −1, 0 and +1. It keeps the
  dates with that day and weekday and returns the one closest to today. When
  no date matches, it falls back to the current month, or to today.
- **Scan loop** of `parse_schedule`. It walks the lines and keeps the
  current section's date and the start time waiting for its title. It
  creates a provisional programme for each title line that follows a time
  line. Headers are found anywhere in a line, ignoring case (`SECTION_RE`).
  Time lines are whole lines `HH:MM` (`TIME_RE`). Weekday words are looked
  up in `WEEKDAY_ES`.
- **Finalizer**. It sorts the programmes by start and returns early when
  there are none. Each stop is set to the next start, and the last stop to
  the following midnight. Entries with an empty title or `stop <= start`
  are dropped, then repeated `(start, stop, title)` entries are removed.

Modules, one file each:

- `Wrappers`: `Option` and `Result`.
- `Calendar`: Python's proleptic Gregorian `date` arithmetic. Ordinals start
  with 0001-01-01 as day 1, the weekday is `(ordinal + 6) % 7`, and
  `timedelta` day addition goes month by month.
- `DateResolver`: the resolver.
- `Timeline`: wall-clock timestamps (minutes) and programmes.
- `LineSyntax`: the two patterns and the weekday table.
- `Scanner`: the scan loop.
- `Finalizer`: sort, stops, filter and dedup.
- `Schedule`: the whole of `parse_schedule`.
- `Scenarios`: worked pages, with what `parse_schedule` returns for each proved end to end.

A timestamp is `ordinal * 1440 + hour * 60 + minute`. Every start carries
the same `TZ` object, and Python compares and adds datetimes that share a
tzinfo by their wall-clock fields, so no UTC offset enters the model.
Today's date and the list of lines are parameters. They stand in for
`datetime.now(TZ).date()` and `extract_lines(html)`.

The code does its work step by step, so the model is imperative where the
code is:

- `ChooseDateForSection` is a method with the offset loop and the
  best-candidate loop.
- `ScanLines` is the `while` loop over the lines.
- `SetStops` assigns the stops in place on an array.
- `DedupProgrammes` is the loop with its `seen` set.

Each method is proved equal to a specification function. The properties
the code promises are proved about those functions.

## Model

| member | source | states |
|---|---|---|
| Calendar.IsLeap | scrape.py:125 | The Gregorian leap-year rule `date` applies. Its consequences are stated by `DaysInMonth` and `DaysBeforeYearClosedForm`. |
| Calendar.DaysInMonth | scrape.py:125-127 | A month has 28 to 31 days. It has 31 exactly in January, March, May, July, August, October and December. It has 29 exactly in February of a leap year, and 28 exactly in February of any other year. |
| Calendar.ToOrdinal | scrape.py:139 | `date.toordinal()`. `OrdinalInjective`, `AddDays` and `WeekdayAnchor` state its properties. |
| Calendar.AddDays | scrape.py:122 | `d + timedelta(days=n)` is a valid date whose ordinal is the ordinal of `d` plus `n`. |
| Calendar.AddDaysUnique | scrape.py:122 | That valid date is the only one with the shifted ordinal. |
| Calendar.OrdinalInjective | scrape.py:139 | Two valid dates with the same ordinal are equal, so day differences identify dates. |
| Calendar.DaysBeforeYearClosedForm | scrape.py:139 | Days before year `y` equal `365(y-1) + (y-1)/4 - (y-1)/100 + (y-1)/400`, as in Python's `_days_before_year`. |
| Calendar.Weekday | scrape.py:128 | `date.weekday()` lies in 0..6. `WeekdayShift` and `WeekdayAnchor` together fix it on every date. |
| Calendar.WeekdayShift | scrape.py:128 | Moving a date by n days, forwards or backwards, moves its weekday by n modulo 7. |
| Calendar.WeekdayAnchor | scrape.py:128 | 2024-01-01 is day 738886 and a Monday (weekday 0). |
| DateResolver.Probe | scrape.py:121-122 | `first_of_month + timedelta(days=31*offset)` is a valid date. |
| DateResolver.CandidateAt | scrape.py:123-129 | An offset contributes a date exactly when the target day exists in the month it examines and falls on the target weekday. The date is then that day of that month. |
| DateResolver.MonthWindowCurrent | scrape.py:120-123 | Offset 0 examines the current month. |
| DateResolver.MonthWindowNext | scrape.py:120-123 | Offset +1 examines the next calendar month. |
| DateResolver.MonthWindowPrevious | scrape.py:120-123 | Offset −1 examines the previous month when it has 31 days. Otherwise it examines the month before that. |
| DateResolver.Candidates | scrape.py:117-129 | Every candidate collected is a valid date with the target day and the target weekday. |
| DateResolver.CollectCandidates | scrape.py:117-129 | The offset loop collects exactly the matching dates, in offset order. |
| DateResolver.FirstLeast | scrape.py:139-140 | The index found has the least key, and every earlier index has a strictly larger key. This is what a stable sort followed by `[0]` returns. |
| DateResolver.NearestCandidate | scrape.py:139-140 | The best-candidate loop returns that first index of least distance. |
| DateResolver.ResolveDate | scrape.py:111-140 | The resolver is total for any day number and any valid today. It always returns a valid date, and that date has the target day unless it is today itself. |
| DateResolver.ChooseDateForSection | scrape.py:111-140 | The method returns the resolver's answer. |
| DateResolver.FirstLeastOffset | scrape.py:139-140 | Among Some entries, the first entry of least key is found, at an offset no earlier entry ties. |
| DateResolver.ResolverMatch | scrape.py:117-140 | When some examined date matches, the result is one. It is at minimal distance from today, and every earlier offset is strictly farther, so ties go to the earliest offset. |
| DateResolver.CandidatesAscend | scrape.py:120-129 | The offsets -1, 0 and +1 examine months in order, so a later offset's candidate is a later date. |
| DateResolver.ResolverTie | scrape.py:139-140 | Of two candidates equally far from today, one before it and one after, the stable sort keeps the earlier date. |
| DateResolver.ResolverFallback | scrape.py:131-137 | When nothing matches, the result is the target day of the current month if that exists, and today otherwise. |
| Timeline.NextMidnight | scrape.py:229-233 | The last stop is later than the start, at most one day later, and on a midnight. |
| Timeline.ValidTime | scrape.py:194 | What `time(hh, mm)` accepts. `ScanReference` and `ParseFailure` state that a time line outside it ends the parse. |
| Timeline.Combine | scrape.py:209 | `datetime.combine` as a wall-clock minute count. `CombineInjective` and `NextMidnightIsNextDay` state its properties. |
| Timeline.CombineInjective | scrape.py:209 | Different valid date and time pairs give different start timestamps. |
| Timeline.NextMidnightIsNextDay | scrape.py:229-233 | `(start + 1 day).replace(hour=0, minute=0)` is 00:00 on the calendar day after the start's date. |
| LineSyntax.LowerChar | scrape.py:64 | Case folding keeps letters of the weekday class as letters and leaves everything else alone. `CapitalAlphabet` and `AccentedCapitals` state that each capital folds to its own small letter. |
| LineSyntax.CapitalAlphabet | scrape.py:178 | `.lower()` maps "A" to "Z" to "a" to "z", letter by letter. |
| LineSyntax.AccentedCapitals | scrape.py:178 | `.lower()` maps Á, É, Í, Ó, Ú and Ñ to á, é, í, ó, ú and ñ. |
| LineSyntax.SpaceRun | scrape.py:63 | `\s+` takes the longest run of whitespace. |
| LineSyntax.LetterRun | scrape.py:63 | The weekday group takes the longest run of its letters. |
| LineSyntax.DigitsEnd | scrape.py:63 | `\d{1,2}` takes two digits when a second one follows, and one otherwise. |
| LineSyntax.MatchHeaderAt | scrape.py:62-65 | A header match starts with the keyword, ignoring case. It has a non-empty word of weekday letters and a day in 0..99. `MatchHeaderShape` and `ShapeMatches` state both directions of its agreement with the pattern. |
| LineSyntax.MatchHeaderShape | scrape.py:62-65 | Every match has the pattern's shape: the line cuts into text before the match, the keyword and "de" in any case, non-empty whitespace runs, a non-empty word of weekday letters, one or two digits with no digit after a single one, and the rest. Its groups are that word and the value of those digits. |
| LineSyntax.SearchHeader | scrape.py:176 | `SECTION_RE.search`. `SearchHeaderLeftmost`, `SearchHeaderNone`, `SearchHeaderShape`, `HeaderFound` and `TimeLineIsNotHeader` state its properties. |
| LineSyntax.SearchHeaderShape | scrape.py:62-65 | A header `search` reports has the pattern's shape, starting at the first position where a match starts. Its groups are the word and the day of that match. |
| LineSyntax.ShapeMatches | scrape.py:62-65 | Any line cut into the pattern's parts (the keyword and "de" in any case, non-empty whitespace runs, a word of weekday letters, one or two digits with no digit after a single one) matches at the keyword, with the word and the digits' value as groups. |
| LineSyntax.ShapeSearched | scrape.py:62-65 | Such a line with no match starting before its keyword is what `search` reports, whatever text precedes the keyword. |
| LineSyntax.SearchHeaderLeftmost | scrape.py:176 | `search` returns the match at the leftmost position where one starts. |
| LineSyntax.SearchHeaderNone | scrape.py:176 | When `search` finds nothing, no position starts a match. |
| LineSyntax.HeaderFound | scrape.py:62-65 | A header is found anywhere in a line: after any text with no character that folds to 'p', with the keyword and "de" in any mix of cases, any whitespace runs between the parts, and a day of one or two digits. Its groups are the word and the value of the digits. |
| LineSyntax.NoKeywordNoHeader | scrape.py:62-65 | A line in which no character folds to 'p' holds no header anywhere. |
| LineSyntax.HeaderRoundTrip | scrape.py:61-65 | A header printed as "Programación de <word> <day>" is found with that word and day. |
| LineSyntax.HeaderInCapitals | scrape.py:62-65 | "PROGRAMACIÓN DE MIÉRCOLES 05" is found, with the word "MIÉRCOLES" and the day 5. |
| LineSyntax.HeaderInText | scrape.py:62-65 | "xx Programación", two spaces, "de", a tab, "Sábado 123 yy" is found, with the word "Sábado" and the day 12: `\d{1,2}` takes two of the three digits. |
| LineSyntax.ParseTime | scrape.py:68 | A time line gives hour and minute in 0..99. |
| LineSyntax.ParseTimeComplete | scrape.py:68 | Whitespace, `HH:MM`, whitespace is always recognised, with those numbers. |
| LineSyntax.ParseTimeSound | scrape.py:68 | Every recognised line is whitespace, the printed `HH:MM` of its time, whitespace. |
| LineSyntax.TimeLineIsNotHeader | scrape.py:62-68 | No time line contains a section header. |
| LineSyntax.WeekdayOf | scrape.py:178-180 | `WEEKDAY_ES.get(word.lower())`: a word whose small-letter form is a key gives that key's number, in 0..6. Any other word gives none. |
| LineSyntax.CapitalWeekdays | scrape.py:178-180 | Each of the weekday keys LUNES to JUEVES (with and without accent), written in capitals, is found with its own number. |
| LineSyntax.CapitalWeekend | scrape.py:178-180 | VIERNES, SÁBADO, SABADO and DOMINGO in capitals are found with their own numbers. |
| LineSyntax.CapitalisedWeekdays | scrape.py:178-180 | Lunes, Martes, Miercoles and Jueves with a capital initial are found with their own numbers. |
| LineSyntax.CapitalisedWeekend | scrape.py:178-180 | Viernes, Sábado, Sabado and Domingo with a capital initial are found with their own numbers. |
| LineSyntax.UnknownWeekday | scrape.py:180 | "Feriado" and "ESPECIAL" are not weekdays: the lookup gives none. |
| LineSyntax.WeekdayWords | scrape.py:71-81 | "Miércoles" and "SABADO" are found, as 2 and 5. |
| LineSyntax.WeekdayOfLower | scrape.py:178-180 | The lookup ignores case: a word and its lower-cased form find the same weekday. |
| LineSyntax.WeekdayTable | scrape.py:71-81 | Every name in the table is found as itself, with its own number. |
| Scanner.HeaderDate | scrape.py:178-184 | A header sets a date exactly when its word, in small letters, is a key of the table. That date is valid, and it has the header's day unless it is today. |
| Scanner.Classify | scrape.py:176-192 | A line is a header exactly when `search` finds one. Headers are looked for first, yet every line `TIME_RE` matches is classified as a time line with its time, because no time line holds a header. |
| Scanner.Step | scrape.py:172-215 | One turn of the loop. `ScanReference`, `HeaderResets` and `ScanTitleText` state what it does. Its branch for the guard at scrape.py:204-207 holds `assert false`: that branch is never taken. |
| Scanner.ScanPrefix | scrape.py:171-215 | The loop after its first `n` lines. `FailureStops` and `ScanReference` state its properties. |
| Scanner.Scan | scrape.py:171-215 | The whole loop. `ScanLines`, `ScanOutput` and `ScanTitleText` state its properties. |
| Scanner.FailureStops | scrape.py:193-194 | After `time()` raises, no later line changes the outcome. |
| Scanner.ScanLines | scrape.py:171-215 | The `while` loop returns the scan function's result, including the error. |
| Scanner.ScanReference | scrape.py:171-215 | The scan succeeds exactly when no time line in a dated section is out of range. The error then names the first such line and its time. On success, the state is what an independent account says: the last header's date, the waiting time, and the title programmes in order. |
| Scanner.HeaderResets | scrape.py:176-188 | A header always clears the waiting start time and sets the date its weekday word gives. |
| Scanner.UnknownWeekdaySilences | scrape.py:181-182 | After a header line that sets no date, no programme is emitted until the next header. |
| Scanner.UnknownHeaderLine | scrape.py:176-182 | A line in which `search` finds a header whose word, in small letters, is not a key of the table is a header line that sets no date. |
| Scanner.UnknownHeaderSilences | scrape.py:176-213 | After a line with such a header, the lines up to the next header leave no date in force and add no programme. |
| Scanner.TitlesOrigin | scrape.py:197-213 | Each provisional programme comes from a title line of the account. |
| Scanner.ScannedProgramme | scrape.py:197-213 | Each programme comes from a text line right after a valid time line, inside a dated section. |
| Scanner.ScanOutput | scrape.py:191-213 | Each programme's title is a text line. The line just above is a time line with a valid time, so the later of two time lines wins. The start is the section's valid date combined with that time, and the stop equals the start. |
| Scanner.SectionDateValid | scrape.py:176-184 | Whenever the loop is inside a dated section, that date is a valid calendar date. |
| Scanner.TextKind | scrape.py:176-192 | A text line matches neither pattern. |
| Scanner.TimeKind | scrape.py:191-194 | A time line matches no header, and `TIME_RE` reads its time. |
| Scanner.ScanTitleText | scrape.py:197-206 | No title is a line that `TIME_RE` or `SECTION_RE` matches. |
| Finalizer.SortByStart | scrape.py:218 | `programmes.sort(key=start)`. `SortSorted`, `SortPermutation` and `SortStable` state its properties. |
| Finalizer.SortSorted | scrape.py:218 | The sorted list is ordered by start. |
| Finalizer.SortPermutation | scrape.py:218 | The sorted list is a permutation of the provisional list. |
| Finalizer.SortStable | scrape.py:218 | Entries with the same start keep their relative order. |
| Finalizer.WithStops | scrape.py:224-233 | The stops the `for idx` loop assigns. `WithStopsLinked` and `SetStops` state its properties. |
| Finalizer.WithStopsLinked | scrape.py:224-233 | Setting stops keeps starts, titles and order. Each stop but the last is the next start, and the last is the following midnight. |
| Finalizer.SetStops | scrape.py:224-233 | The in-place loop leaves the array holding exactly those stops. |
| Finalizer.KeepValid | scrape.py:235 | The comprehension that drops degenerate entries. `KeepValidContents` and `KeepValidAllKept` state its properties. |
| Finalizer.KeepValidContents | scrape.py:235 | The filter keeps exactly the entries with a title and `stop > start`, each as often as it occurs in the input, and in order. |
| Finalizer.KeepValidAllKept | scrape.py:235 | The filter changes nothing when every entry passes. |
| Finalizer.Dedup | scrape.py:237-245 | The dedup loop as a function. `DedupElements`, `DedupDistinct`, `DedupSubsequence` and `DedupKeepsFirst` state its properties. |
| Finalizer.DedupElements | scrape.py:237-245 | Dedup keeps every key of its input. |
| Finalizer.DedupDistinct | scrape.py:237-245 | No key is kept twice. |
| Finalizer.DedupSubsequence | scrape.py:237-245 | The output is a subsequence of the input. |
| Finalizer.DedupKeepsFirst | scrape.py:237-245 | An entry is appended exactly when its key did not occur before, so the first occurrence is kept. |
| Finalizer.DedupOfDistinct | scrape.py:237-245 | Dedup removes nothing from input without repeats. |
| Finalizer.DedupProgrammes | scrape.py:237-245 | The loop with its `seen` set computes the dedup. |
| Finalizer.KeptChain | scrape.py:224-235 | Of the linked entries, each kept one stops no later than any later kept one starts. |
| Finalizer.KeptContiguous | scrape.py:224-235 | With non-empty titles, the filter drops only entries that start where the next one does, so the kept entries stay contiguous. |
| Finalizer.ChainedIncreasing | scrape.py:235 | Kept entries with chained stops have strictly increasing starts and no repeats. |
| Finalizer.Finalize | scrape.py:217-247 | Sort, early return, stops, filter and dedup. `FinalizeOrdered`, `FinalizeContiguous`, `FinalizeIdempotent` and `FinalizeEmpty` state its properties. |
| Finalizer.FinalizeOrdered | scrape.py:217-247 | Every returned entry has a non-empty title and `stop > start`. Starts strictly increase, and the dedup pass removes nothing. |
| Finalizer.FinalizeIdempotent | scrape.py:235-247 | Filtering and deduplicating the result again returns it unchanged. |
| Finalizer.FinalizeEmpty | scrape.py:220-222 | Empty input gives empty output. |
| Finalizer.FinalizeContiguous | scrape.py:224-235 | With non-empty titles, `stop[k] == start[k+1]`. Some entry is returned whenever any was given. The last entry is the last sorted one and stops at the following midnight. |
| Finalizer.FinalizeLatest | scrape.py:218-233 | The last returned entry starts no earlier than any provisional one. |
| Finalizer.FinalizeLastFrom | scrape.py:224-233 | The last returned entry starts where some provisional one does and stops at the next midnight. |
| Finalizer.FinalizeRollover | scrape.py:229-233 | The last stop is 00:00 on the calendar day after the last start's date. |
| Finalizer.FinalizeTimeline | scrape.py:217-247 | Sort, early return, stop loop, filter and dedup loop compute the finalizer function. |
| Schedule.ParseResult | scrape.py:154-247 | The scan followed by the finalizer, or the scan's error. `ParseFailure`, `ParseOrdered`, `ParseContiguous` and `ParseRollover` state its properties. |
| Schedule.ParseSchedule | scrape.py:153-247 | `parse_schedule` is the scan followed by the finalizer, or the scan's error. |
| Schedule.ParseFailure | scrape.py:193-194 | The parse fails exactly when a time line in a dated section is out of range. It names the first such line. |
| Schedule.ParseOrdered | scrape.py:217-247 | A successful parse returns non-degenerate programmes with strictly increasing starts. |
| Schedule.ScanTitlesNonEmpty | scrape.py:197-212 | Non-blank input lines give provisional titles that are all non-empty. |
| Schedule.ParseContiguous | scrape.py:224-235 | With non-blank lines, consecutive programmes meet: each stop is the next start. |
| Schedule.ParseRollover | scrape.py:229-233 | With non-blank lines, the last programme starts on a valid date `d` at a valid time. It stops at 00:00 on the day after `d`. |
| Schedule.NoHeaderNoProgrammes | scrape.py:171-222 | A page in which no line holds a section header parses without error to no programmes. |
| Scenarios.ThursdayHeader | scrape.py:176-184 | The line "Programación de Jueves 1" opens a section on the date the resolver picks for Thursday the 1st. |
| Scenarios.PlainLine | scrape.py:176-192 | A line that is no clock time and has no character folding to 'p' is neither a header nor a time line. |
| Scenarios.TwoProgrammesPage | scrape.py:171-247 | Any page of header, time, title, time, title with increasing times gives two programmes: the first stops when the second starts, the second at the next midnight. |
| Scenarios.TwoProgrammes | scrape.py:171-247 | The Thursday page with 08:00 "Morning News" and 09:30 "Talk Show" gives 08:00-09:30 and 09:30-midnight. |
| Scenarios.RepeatedTimeLine | scrape.py:191-213 | When 08:00 is directly followed by 09:30 and then "Talk Show", the later time wins: one programme from 09:30 to midnight. |
| Scenarios.RepeatedPage | scrape.py:171-247 | Any page of header, time, time, title gives one programme, from the second time to the next midnight. |
| Scenarios.UnknownWordHeader | scrape.py:176-222 | "Programación de Feriado 3", 08:00, "Morning News" gives no programmes: the header's word is no weekday, so the section has no date. |
| Scenarios.UnknownPage | scrape.py:171-222 | Any page of a header that sets no date, a time line and a text line gives no programmes. |

## Left out

- `fetch_html` (scrape.py:275-279) is left out: it is an HTTP request.
- `extract_lines` (scrape.py:143-151) is left out: it is BeautifulSoup's HTML-to-text conversion. The lines are a parameter. That its lines are stripped and never blank (scrape.py:150) appears as a precondition (non-empty titles or lines) of the members that depend on it: `Schedule.ScanTitlesNonEmpty`, `Schedule.ParseContiguous`, `Schedule.ParseRollover`, the Finalizer lemmas about contiguous output (`KeptContiguous`, `FinalizeContiguous`, `FinalizeLatest`, `FinalizeLastFrom`, `FinalizeRollover` and their helpers `SortedTitles`, `KeptLinked` and `KeptLast`), and the generic pages `Scenarios.TwoProgrammesPage` and `Scenarios.RepeatedPage` with their helpers `FinalizeTwo` and `FinalizeOne`.
- `datetime.now(TZ).date()` (scrape.py:165) is left out: today's date is a parameter, assumed valid.
- `build_xmltv`, `_indent_xml` and `xmltv_dt` (scrape.py:91-109, 250-272) are left out: they build and serialise XML, and depend on the time zone's UTC offset and DST rules.
- Environment configuration, `ensure_output_dir` and `main` (scrape.py:40-54, 282-310) are left out: they handle printing, files and exit codes.
- Finalizer.SortByStart: `list.sort` is Python's library sort, not part of the repository. It is modelled by its result, a stable insertion sort function, not as an in-place algorithm.
- Finalizer.SetStops: it replaces each array entry with a copy whose stop changed, where Python mutates the dataclass object. Since no programme object is shared, the difference is invisible.
- Calendar.ValidDate: the `date` year range 1..9999 is not modelled.
- LineSyntax.LowerChar: case folding covers only the letters the weekday class names (A-Z and ÁÉÍÓÚÑ), not all of Unicode. Under `re.IGNORECASE` Python's letter class also accepts İ (U+0130), ı (U+0131), ſ (U+017F) and the Kelvin sign K (U+212A); the model's `IsWordLetter` does not. Likewise the 'i' of the keyword "Programación" (scrape.py:62) also matches İ and ı in Python, and the model's `FoldedAt` does not accept them.
- LineSyntax.IsDigit: `\d` is restricted to ASCII digits, where Python's `str` patterns also accept other Unicode decimal digits.
