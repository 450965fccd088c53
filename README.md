# Schoology summary emailer: a Dafny model of its core

`scrape.py` signs in to a Schoology parent account and walks the configured
children. For each child it makes that child active and picks a query window
by mode: next week for `weekly`, tomorrow otherwise. It fetches the child's
calendar for that window, turns every calendar item into an event record and
stores the list under the child's name. It then formats one message for all
children: a header section of short bullets, then a details section of
longer blocks. Finally it sends the message by mail.

This project models that core in Dafny and proves what it does:

- `TimeRanges`: the three window functions, over a clock given as local
  wall-clock seconds plus a fixed UTC offset. It also holds `main`'s choice of
  window by mode.
- `CivilDate`: the proleptic Gregorian calendar behind `datetime`. It covers
  weekday reckoning with Monday as 0, chronological order, and the two
  `strftime` formats the message uses (`%a %b %d` and `%A, %b %d at %I:%M %p`,
  in the C locale).
- `StartParser`: `datetime.strptime(s, '%Y-%m-%d %H:%M:%S')`, modelled as
  CPython's `_strptime` accepts its input. Numeric fields may have one or two
  digits (`%Y` has exactly four), `%d` also accepts a leading space, and the
  blank matches any run of the whitespace `\s` matches, U+001C to U+001F
  included. The fields are then range-checked the way `datetime` checks them.
- `Events`: the record mapping of `get_calendar`. There is one event per item,
  in order, and the first failing item stops the whole call. A failure is
  either a `TypeError` when a `None` reaches `html.unescape` or BeautifulSoup,
  or a `ValueError` for a start string that does not parse.
- `EventSort`: `sorted(events, key=lambda x: x['start'])`, modelled as a
  stable insertion sort. It is proved sorted, a permutation, and stable.
- `OrderedMaps`: the insertion-ordered Python `dict` that `child_summaries` is.
  Assigning to a key already present replaces the value and keeps the key's
  position.
- `Summary`: `format_multi_child_summary`, written with the source's loops, and
  proved equal to a declarative description of the message (`Report`).
- `SummaryLayout`: what that message is made of. Its unit is an entry of the
  list `header + details` before the join, and several entries hold a newline
  themselves (the titles, the name entries, the event entries). So the counts
  are of entries, not of lines of the joined text. A classification of entries
  by their leading marks gives the order of the sections, the children's name
  entries in both sections, the count of every kind of entry, the description
  entries, and the empty cases.
- `Pipeline`: the loop of `main` up to the formatter. The active child, the
  clock and the portal's answers are parameters. The results are collected
  into the dictionary, and the first error aborts the run.
- `Wrappers`: `Option` and `Result`.

## Model

| member | source | states |
|---|---|---|
| TimeRanges.TomorrowRange | scrape.py:36-40 | the window starts at a local midnight, on the day after now, and spans exactly one day |
| TimeRanges.TomorrowIsNextDay | scrape.py:37-38 | the start is the local midnight of today plus one day |
| TimeRanges.ThisWeekRange | scrape.py:75-83 | the start is now moved back `weekday(now)` days: a Monday, with the same time of day, at most six days earlier; the end is six days after the start |
| TimeRanges.NextWeekRange | scrape.py:85-93 | the start is a Monday 1 to 7 days ahead, with the same time of day; the window spans six days; both ends are the this-week ends plus seven days |
| TimeRanges.NextWeekAfterToday | scrape.py:87 | the next-week start is after now and no earlier than tomorrow's midnight |
| TimeRanges.RangeForMode | scrape.py:157-160 | mode `weekly` gives the next-week window; every other mode gives the tomorrow window |
| TimeRanges.TimeOfDay | scrape.py:38 | the time of day is in [0, 86400) and splits the instant with the day number |
| TimeRanges.Midnight | scrape.py:38 | midnight is the start of the instant's own day |
| TimeRanges.Weekday | scrape.py:77 | the weekday is in 0..6 |
| TimeRanges.WeekdayAfterShift | scrape.py:77 | moving k days moves the weekday by k modulo 7 |
| TimeRanges.ShiftByDays | scrape.py:37 | moving k days moves the day number by k and keeps the time of day |
| CivilDate.DayOfWeekMatchesClock | scrape.py:77 | the weekday from seconds agrees with the calendar weekday of `datetime.weekday()`, for every valid datetime |
| CivilDate.NotAfterTotalOrder | scrape.py:124 | the start order used as the sort key is a total order |
| CivilDate.NotAfterIsChronological | scrape.py:124 | comparing datetimes field by field is the same as comparing their instants |
| CivilDate.NextDateOrdinal | scrape.py:37 | the next calendar day has the next ordinal and is valid, except after 9999-12-31 |
| CivilDate.NextDateWeekday | scrape.py:37 | the next calendar day has the next weekday |
| CivilDate.DaysInMonth | scrape.py:109 | every month has 28 to 31 days |
| CivilDate.ShortDate | scrape.py:125 | `%a %b %d` is ten characters: weekday abbreviation, month abbreviation, two-digit day |
| CivilDate.LongDate | scrape.py:129 | the `%A, %b %d at %I:%M %p` text is the full weekday name plus 20 characters |
| CivilDate.LongDateLayout | scrape.py:129 | the full weekday name and a comma, then the month abbreviation and two-digit day, then ` at `, then the last eight characters `%I:%M %p` |
| CivilDate.LongDateMatchesShortDate | scrape.py:125-129 | a detail date line and a header bullet name the same weekday, month and day |
| CivilDate.ExampleShortDate | scrape.py:125 | 2025-10-06 renders as `Mon Oct 06` |
| CivilDate.ExampleLongDate | scrape.py:129 | 2025-10-06 09:00 renders as `Monday, Oct 06 at 09:00 AM` |
| CivilDate.Pad2 | scrape.py:125 | `%d` prints two digits whose value is the day |
| CivilDate.WeekdayName | scrape.py:129 | the full weekday name starts with its abbreviation |
| CivilDate.Meridiem | scrape.py:129 | `%p` is two letters, `AM` exactly before noon |
| CivilDate.Hour12 | scrape.py:129 | `%I` is between 1 and 12 |
| CivilDate.TwelveHourClockRecovers | scrape.py:129 | `%I` and `%p` together determine the hour |
| CivilDate.MidnightAndNoon | scrape.py:129 | midnight is 12 AM and noon is 12 PM |
| StartParser.Parse | scrape.py:109 | a parsed start is a valid datetime, read from a string with the `YYYY-` layout; ParseSpelled and ParseOnlySpelled give the accepted strings exactly |
| StartParser.ParseSpelled | scrape.py:109 | every string that writes a datetime's fields in the format (four-digit year; other fields in one or two digits, the day also as a space and a digit; any non-empty run of whitespace between date and time) parses to that datetime when it is valid, and fails when it is not |
| StartParser.ParseOnlySpelled | scrape.py:109 | every string that parses is such a spelling of the returned datetime, with nothing before or after it, so trailing text, a missing field or a wrong separator fails |
| StartParser.ParseCanonical | scrape.py:109 | every zero-padded `YYYY-MM-DD HH:MM:SS` string parses back to its datetime exactly when that datetime is valid |
| StartParser.ParseExampleStart | scrape.py:109 | `2025-10-06 09:00:00` parses to 2025-10-06 09:00:00 |
| StartParser.ParseAcceptsShortFields | scrape.py:109 | unpadded fields and a run of blanks are accepted |
| StartParser.ParseAcceptsFileSeparator | scrape.py:109 | U+001C between date and time is whitespace to `\s` and is accepted |
| StartParser.ParseRejectsIsoSeparator | scrape.py:109 | a `T` between date and time is rejected |
| StartParser.SpaceRunEnd | scrape.py:109 | the blank run ends at the first character that is not whitespace |
| StartParser.DayField | scrape.py:109 | a day field is 1 to 31, one or two characters |
| StartParser.DatePart | scrape.py:109 | the date fields are in range, and the year has four digits |
| StartParser.TimePart | scrape.py:109 | hours 0-23, minutes 0-59, seconds 0-61 |
| Events.UnescapeField | scrape.py:100-102 | a string is unescaped; `null`, or a missing key with no default, is a TypeError (the model tags it with the key); a missing key with a default unescapes the default |
| Events.BodyField | scrape.py:103-104 | a body is reduced to its text and unescaped; a missing body is treated as `''`; a `null` body is a TypeError, which the model tags with the key |
| Events.TypeField | scrape.py:105 | `e_type` is kept unchanged when it is a string, otherwise `None` |
| Events.Normalize | scrape.py:100-113 | a mapped item keeps `e_type`, had a string start and course, and its start is the parse of the unescaped start; an unparsable start fails; NormalizeFields gives the other fields |
| Events.NormalizeFields | scrape.py:100-104 | a mapped item's title is the unescaped `titleText` (`''` when missing), its course the unescaped `content_title`, and its description the unescaped `get_text` of the body, unescaping after `get_text` |
| Events.MissingKeys | scrape.py:100-102 | a missing title gives `""`; a missing or null start or course is a TypeError, which the model tags with that key |
| Events.MissingBodyIsEmpty | scrape.py:103-104 | a missing body gives an empty description |
| Events.MapAll | scrape.py:98-115 | mapping a fallible function over a list succeeds iff it succeeds on every element; it then gives the results in order; otherwise it fails with the first failure |
| Events.NormalizeAll | scrape.py:98-115 | the mapping succeeds iff every item does; it then gives one event per item, in order; otherwise it fails with the error of some item |
| Events.FirstFailure | scrape.py:99-113 | the error is that of the first failing item |
| Events.AllSucceed | scrape.py:99-115 | the events are exactly the per-item results, in order |
| Events.ParseCalendar | scrape.py:98-115 | the loop computes the mapping |
| Events.ExampleItem | scrape.py:100-113 | a sample item maps to the expected event, for a `get_text` that decodes the body's `&amp;` (as `html.parser` does) and an `unescape` that then leaves `& ` alone |
| EventSort.SortByStart | scrape.py:124 | `sorted` keeps the number of events; its order, permutation and stability are the lemmas below |
| EventSort.Insert | scrape.py:124 | one insertion adds one event |
| EventSort.SortSorted | scrape.py:124 | the sorted events are in start order |
| EventSort.SortPermutes | scrape.py:124 | the sorted events are a permutation of the child's events |
| EventSort.SortStable | scrape.py:124 | events with equal starts keep their relative order |
| EventSort.SortKeepsSorted | scrape.py:124 | sorting a list already in start order returns it unchanged |
| EventSort.SortLength | scrape.py:124 | sorting keeps the number of events |
| EventSort.EqualStartsKeepOrder | scrape.py:124 | two events with the same start stay in their order |
| EventSort.InsertPermutes | scrape.py:124 | one insertion adds exactly that event |
| EventSort.InsertSorted | scrape.py:124 | one insertion keeps the order |
| EventSort.InsertStable | scrape.py:124 | one insertion puts the event ahead of those with the same start; since the sort inserts earlier input elements last, equal starts keep their input order |
| OrderedMaps.Empty | scrape.py:151 | `{}` has no keys |
| OrderedMaps.Put | scrape.py:163 | assignment sets the value; a new key goes last; an existing key keeps its position |
| OrderedMaps.Items | scrape.py:122 | the items are the keys in insertion order, each with its value |
| OrderedMaps.FirstIndex | scrape.py:163 | the first position of a key |
| OrderedMaps.LastIndex | scrape.py:163 | the last position of a key |
| OrderedMaps.FirstOccurrencesSpec | scrape.py:163 | the key order is each assigned name once, ordered by first assignment |
| OrderedMaps.AccumulatesPut | scrape.py:163 | one more assignment keeps the dictionary equal to the assignments made so far: keys by first assignment, each holding its last value |
| Summary.AppendBullets | scrape.py:124-125 | the inner header loop appends one bullet per event, in the given order |
| Summary.AppendBlocks | scrape.py:128-132 | the inner details loop appends one block per event, in the given order |
| Summary.FormatSummary | scrape.py:118-134 | the function's text is the newline join of the title, children and bullets, then the details title, children and blocks |
| Summary.Join | scrape.py:134 | `sep.join` of no entries is empty, of one entry is that entry, and otherwise starts with the first entry |
| Summary.JoinAppend | scrape.py:134 | joining two non-empty lists is joining each with one separator between them |
| Summary.Report | scrape.py:134 | the text starts with the header title |
| Summary.ReportSections | scrape.py:134 | the text is the joined header list, a newline, then the joined details list |
| Summary.MapLinesSnoc | scrape.py:124-125 | one more event appends its line |
| Summary.FlatLinesSnoc | scrape.py:122-132 | one more child or event appends its lines |
| SummaryLayout.TitleKinds | scrape.py:119-120 | the two titles are recognised as titles |
| SummaryLayout.ChildLineKind | scrape.py:123 | a child's name line is recognised as such |
| SummaryLayout.EventLineKinds | scrape.py:125-132 | bullets, event lines and description lines are recognised as such |
| SummaryLayout.KindsPartition | scrape.py:134 | every line has exactly one kind |
| SummaryLayout.BulletsInOrder | scrape.py:124-125 | one bullet per event, in order, and no other line |
| SummaryLayout.BlockShape | scrape.py:129-132 | a block is its event line, then a description line exactly when the description is non-empty |
| SummaryLayout.BlocksInOrder | scrape.py:128-132 | one event line per event, in order; one description line per described event; no other line |
| SummaryLayout.ChildHeaderShape | scrape.py:123-125 | a child's header part is its name line and one bullet per event |
| SummaryLayout.ChildDetailsShape | scrape.py:127-132 | a child's details part is its name line, one event line per event and one description line per described event |
| SummaryLayout.ChildEventsInStartOrder | scrape.py:122-132 | in both sections a child's events appear in stable start order: sorted, the same events, equal starts in fetched order |
| SummaryLayout.DescribedSort | scrape.py:128-131 | sorting keeps the number of described events |
| SummaryLayout.HeaderSectionShape | scrape.py:122-125 | the header section holds the children's name lines in dictionary order, one bullet per event, nothing else |
| SummaryLayout.DetailSectionShape | scrape.py:127-132 | the details section holds the children's name lines in dictionary order, one event line per event, one description line per described event, nothing else |
| SummaryLayout.TitledSections | scrape.py:119-120 | the list splits at the details title into the titled header part and the titled details part |
| SummaryLayout.HeaderBeforeDetails | scrape.py:119-134 | the header title comes first; the details title follows the header section; no event or description line comes before it and no bullet after it; both sides name the children in the same order |
| SummaryLayout.LineCounts | scrape.py:118-134 | counting entries of `header + details`, not lines of the joined text: one title of each kind, two name entries per child, one bullet and one event entry per event, one description entry per described event, and no other entry |
| SummaryLayout.NoChildren | scrape.py:119-120 | with no children the text is the two titles joined by a newline |
| SummaryLayout.ChildWithoutEvents | scrape.py:122-128 | a child with no events gives only its name line in each section |
| SummaryLayout.ChildrenInInsertionOrder | scrape.py:122 | the name lines follow the dictionary's key order |
| SummaryLayout.OfKindAppend | scrape.py:134 | selecting lines of a kind distributes over concatenation |
| Pipeline.Names | scrape.py:155 | the children's names, in configured order |
| Pipeline.Collect | scrape.py:151-163 | a successful collection is a well-formed dictionary |
| Pipeline.Values | scrape.py:162 | the results' values, in order |
| Pipeline.CollectSucceeds | scrape.py:153-163 | the loop completes iff every child's fetch succeeds |
| Pipeline.SuccessMeansAllSucceed | scrape.py:153-163 | a completed loop had no failing fetch |
| Pipeline.FailureMeansOneFails | scrape.py:153-163 | an aborted loop had a failing fetch |
| Pipeline.CollectAccumulates | scrape.py:151-163 | the dictionary is the assignments in order: names by first assignment, each holding the events of the last child with that name |
| Pipeline.CollectFirstError | scrape.py:153-163 | the loop aborts with the error of the first failing child; all before it succeeded |
| Pipeline.CollectStops | scrape.py:153-163 | once a child fails, the later children do not change the outcome |
| Pipeline.Fetches | scrape.py:157-162 | one result per child |
| Pipeline.Summaries | scrape.py:151-163 | a completed loop gives a well-formed dictionary |
| Pipeline.CollectSummaries | scrape.py:151-163 | the loop, with its choice of window by mode and its calendar fetch, computes `Summaries` |
| Pipeline.CollectNext | scrape.py:162-163 | one more loop step stores the next child's events, or stops with its error |
| Pipeline.MainReport | scrape.py:147-165 | `main` produces a report iff every child's calendar fetch and mapping succeeds; the report is that of the collected dictionary; otherwise the error is the first failing child's |
| Pipeline.Run | scrape.py:147-165 | `main` up to delivery produces the report of the collected dictionary, or the first error |
| Pipeline.ReportNamesChildrenInOrder | scrape.py:151-165 | the report's name lines are the distinct configured names, in order of first appearance |

## Left out

- Network I/O is not modelled: the login, `switch_child` and the HTTP calendar request. The portal is a parameter that maps the active child's id and the window to the raw items, so it always answers for the child just switched to. `switch_child` (scrape.py:68-73) ignores a failed switch: the previous child then stays active, and its events are stored under the next child's name. The model cannot express that case.
- `send_email` and the SMTP delivery are not modelled, nor is the `PREVIEW_ONLY` branch that prints instead. They are I/O.
- `argparse`, `dotenv`, the environment variables and decoding the configured JSON are not modelled. The mode and the children are parameters.
- The clock is not modelled: the model takes a clock per child (`clockAt`), since each range call reads `datetime.now()` afresh.
- Time zones with daylight saving time are left out. The model uses a fixed UTC offset for `timestamp()`.
- Sub-second time is not modelled. With whole seconds, `int()` of a timestamp truncates nothing.
- `html.unescape` and BeautifulSoup's `get_text(separator='\n').strip()` are library code. They are parameters (`Library`).
- Events.BodyField: assumes BeautifulSoup raises a TypeError on a `null` body, as `len(None)` does.
- Events.RawItem: JSON values other than strings, `null` or missing are not modelled.
- Pipeline.Child: the child id is modelled as a string.
- StartParser.Parse: handles ASCII digits and ASCII whitespace only (the blank, tab to carriage return, and U+001C to U+001F). On a str pattern CPython's `\d` and `\s` also accept the non-ASCII Unicode digits and whitespace, such as U+00A0 or U+3000, and those are not modelled.
- CivilDate.LongDate: `strftime` is rendered in the C locale only.
- TimeRanges.ThisWeekRange: follows the code, which keeps the time of day: the week windows start on Monday at the current time, not at midnight, and span six days.
- TimeRanges.ThisWeekRange: `get_this_week_range` is never called by `main`. The model defines it and relates it to the next-week window.
