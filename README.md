# Bryntum Gantt ↔ ServiceNow: a verified Dafny model

The system is a small Express server. It sits between a Bryntum Gantt chart
and a ServiceNow instance's project tasks (`pm_project_task`) and task
relations (`planned_task_rel_planned_task`). This project models the server's
logic and proves properties of it:

- **Load path.** ServiceNow task rows become Gantt tasks and dependencies.
  The project record is added as the root task, and the tasks are sorted by
  `parentIndex`.
- **Sync path.** A Gantt sync request (`added` / `updated` / `removed` for
  tasks, then for dependencies) becomes table-API calls: POST, PATCH, DELETE,
  and DELETE+POST for an updated relation. The rows the client needs come
  back in the response.
- **Codecs.** The `utils.js` helpers convert values between the two systems:
  - ServiceNow date text;
  - the `"DD HH:MM:SS"` duration;
  - the start date computed from an end date and a duration;
  - dependency types (`fs`/`ss`/`ff`/`sf` ↔ 2/0/1/3);
  - dependency lags (GlideDuration text ↔ a magnitude and a unit).

Modules:

- `Wrappers` holds `Option` and `Result`.
- `Text` holds decimal text and `String.prototype.replace` with a
  one-character pattern.
- `Js` models JavaScript values: `undefined`, `null`, booleans, numbers as
  exact reals, NaN and strings. It also covers truthiness, `String(v)`,
  `parseInt`, `Math.round`, and objects as ordered records with distinct
  keys. `Number(v)` follows the StringNumericLiteral grammar: white space
  trimmed at both ends, decimal fractions and exponents, `0x`/`0o`/`0b`
  literals, and `Infinity`.
- `Calendar` is the proleptic Gregorian calendar in UTC. It covers
  `toISOString` and the `Date` constructor's reading of the date time string
  format: a date alone (`YYYY`, `YYYY-MM`, `YYYY-MM-DD`), or a date, `T` or a
  space, and a clock (`HH:MM`, `HH:MM:SS`, `HH:MM:SS.sss`) followed by `Z`, a
  `±HH:MM` offset or nothing. ServiceNow's `YYYY-MM-DD HH:MM:SS` text is one
  of these forms.
- `Utils` models `utils.js`.
- `Load` models the GET handler's translation and its sort. The sort is an
  in-place insertion sort on an `array`, proved equal to a stable
  specification sort.
- `Payloads` holds the create payloads and the update bodies. The update
  bodies are built by imperative loops over `Object.entries`.
- `Calls` is the table API as a reply oracle, plus the calls made for one
  record.
- `Handler` wires the payload builders in the way `server.js` does.
- `Sync` holds:
  - `applyTableChanges` and the sync handler, as specification functions;
  - the imperative versions of both, run against a `TableApi` object that
    logs every request;
  - the proofs that tie the two together.

The table API is an oracle: a list of replies, where the k-th reply answers
the k-th call. `Promise.all` over a batch is modelled as a sequential,
order-preserving loop. Every record of a batch is still processed, and the
batch fails when any record fails.

## Model

| member | source | states |
|---|---|---|
| Text.NatTextLength | utils.js:25-27 | `String(n)` is one character exactly when n < 10, has no leading zero from 10 up, and has at least three digits from 100 up |
| Text.NatTextFourDigits | utils.js:203 | for a four-digit year, `String(year)` is the same text as zero-padding it to four places |
| Text.NatTextTwoDigits | utils.js:203-210 | `padStart(2, "0")` of `String(n)` below 100 is the two-digit field whose digits read back as n |
| Text.Fixed2Value | utils.js:203-210 | a two-digit field reads back as its number |
| Text.ReplaceFirstAbsent | utils.js:4 | `replace` of a character the text lacks leaves the text unchanged |
| Text.ReplaceFirstAfter | utils.js:4 | `replace` leaves alone a prefix that lacks the character and acts on the rest |
| Js.Truthy | server.js:189-195 | the test of `if (changes.added)` and the like: false exactly for undefined, null, false, 0, NaN and the empty string |
| Js.ToString | server.js:342 | `String(v)` and template interpolation: the keyword texts, the plain decimal text of a number, which is JavaScript's form for 1e-6 ≤ |x| < 1e21 (ParseIntOfInteger and ToNumberOfInteger read it back), a string itself |
| Js.Get | server.js:214-224 | property access `data.key`: the value stored under the key, or undefined when the record has none (GetIndex, GetAbsent) |
| Js.TrimStartDrops | server.js:92 | the leading white space `parseInt` and `Number` skip: what is kept is a suffix not starting with white space, and every dropped character is white space |
| Js.TrimEndDrops | utils.js:52-78 | the trailing white space `Number` ignores: what is kept is a prefix not ending with white space, and every dropped character is white space |
| Js.TrimPadded | utils.js:52-78 | trimming ignores white space added at either end |
| Js.ParseIntDigits | server.js:92 | `parseInt` of a digit string, with or without a leading minus, is its decimal value, negated for the minus |
| Js.ParseInt | server.js:92 | `parseInt` gives an integer or NaN |
| Js.ParseIntText | server.js:92 | `parseInt` reads back the decimal text of every integer |
| Js.ParseIntOfInteger | server.js:223-225 | `parseInt(String(x))` of an integer-valued number below 1e21 in magnitude is that number |
| Js.ToNumber | utils.js:52-78 | the `Number` coercion the `-` and `*` operators apply to a duration or lag: undefined and NaN give NaN, null 0, booleans 0 or 1, numbers themselves, strings their StringNumericLiteral value (the lemmas below), with None standing for NaN and the infinities |
| Js.StringToNumberIntText | utils.js:52-78 | `Number` reads back the decimal text of every integer |
| Js.ToNumberOfInteger | utils.js:52-78 | `Number(String(x))` of an integer-valued number is that number |
| Js.DecimalText | utils.js:52-78 | decimal text `W.FeE` reads as W.F × 10^E for all digit strings W (non-empty) and F and every integer E |
| Js.StringToNumberPadded | utils.js:52-78 | white space around a literal does not change the number it reads as |
| Js.FractionExample | utils.js:52-78 | `"1.5"` is 1.5 |
| Js.SignedExponentExample | utils.js:52-78 | `"-2.5e-1"` is −0.25 |
| Js.PointExample | utils.js:52-78 | `".5"` is 0.5 |
| Js.PaddedExample | utils.js:52-78 | `" .5\n"` is 0.5 |
| Js.ExponentExample | utils.js:52-78 | `"1e3"` is 1000 |
| Js.RadixExample | utils.js:52-78 | `"0x1F"` is 31 |
| Js.BlankExample | utils.js:52-78 | blank text is 0 |
| Js.InfinityExample | utils.js:52-78 | `"-Infinity"` is not a finite number |
| Js.TrailingTextExample | utils.js:52-78 | `"12px"` is NaN |
| Js.SignedRadixExample | utils.js:52-78 | `"-0x10"` is NaN: a radix literal takes no sign |
| Js.Round | server.js:93 | `Math.round(v)` first coerces v with `Number`; it then gives the integer within half of that number, halves rounding up, and NaN when the coercion gives NaN |
| Js.Without | server.js:208 | the rest object of `{ $PhantomId, ...data }` lacks the key and keeps every other key's value |
| Js.Put | server.js:332 | `o[key] = v` makes `key` read v, changes no other key, and adds exactly that key |
| Calendar.TimeClip | utils.js:2 | a time value is valid exactly within ±8.64e15 ms, and is then unchanged |
| Calendar.YearOfDay | utils.js:3 | the year found for a day number contains that day |
| Calendar.YearOfDayUnique | utils.js:3 | each day lies in exactly one year |
| Calendar.MonthOfDay | utils.js:3 | the month found for a day of the year contains that day |
| Calendar.MonthOfDayUnique | utils.js:3 | each day of a year lies in exactly one month |
| Calendar.CivilFromDays | utils.js:3 | the date of a day number is a valid date whose day number is the one given |
| Calendar.CivilRoundTrip | utils.js:3 | every valid date is the date of its own day number |
| Calendar.DateTimeOf | utils.js:203-210 | the UTC fields of a time value are valid and denote that time value |
| Calendar.DateTimeRoundTrip | utils.js:203-210 | valid fields are recovered from the time they denote, so different fields never denote the same time |
| Calendar.IsoString | utils.js:3 | `toISOString`: the year in four digits (or a sign and six outside 0..9999), then the two-digit fields and three-digit milliseconds; ParseIsoString and ReadFields read it back |
| Calendar.ParseDate | utils.js:2 | `new Date(text)` on the date time string format: a date alone, or a date and a clock followed by Z, an offset or nothing; None for an Invalid Date (the lemmas below and ParseIsoString) |
| Calendar.ParseDateUtc | utils.js:2 | a date-time followed by `Z` denotes the same instant as without it |
| Calendar.ParseDateZone | utils.js:2 | a date-time followed by an offset `±HH:MM` denotes its UTC reading moved back by the offset |
| Calendar.ParseDateOnly | utils.js:2 | a date alone denotes midnight UTC of that day |
| Calendar.ParseIsoString | utils.js:2-3 | `new Date(d.toISOString())` is the same instant for four-digit years |
| Calendar.ReadFields | utils.js:3 | each field of a four-digit-year ISO string reads back as the field it was written from |
| Utils.TimeClipReal | utils.js:2 | `new Date(number)` is valid exactly within ±8.64e15 and truncates toward zero |
| Utils.NewDate | utils.js:2 | `new Date(v)`: text through ParseDate, a number through TimeClip (TimeClipReal), null as 0, booleans as 0 or 1, undefined and NaN as an Invalid Date |
| Utils.NewDateIso | utils.js:2-3 | reading a four-digit-year `toISOString` text gives the same instant |
| Utils.FormatDateServiceNow | utils.js:1-7 | `formatDateServiceNow` fails exactly when `new Date(dateString)` is an Invalid Date (toISOString throws a RangeError) |
| Utils.FormatDateServiceNowShape | utils.js:1-7 | for four-digit years, the result is 23 characters long and `new Date` reads it back as the same instant |
| Utils.ServiceNowOfTime | utils.js:3-4 | the `replace` chain on a four-digit-year ISO string gives `YYYY-MM-DD HH:MM:SS.sss`, which reads back as the same instant |
| Utils.IsoToServiceNow | utils.js:4 | the two `replace` calls swap `T` for a space and drop `Z`, touching nothing else |
| Utils.ParseServiceNow | utils.js:4 | ServiceNow date text is read by `new Date` as the instant of its fields |
| Utils.ElapsedOf | utils.js:17-22 | days by floor division, then hours, minutes and seconds from `%` remainders that keep the dividend's sign (ElapsedOfBounds, ElapsedWhole) |
| Utils.ElapsedOfBounds | utils.js:17-22 | for a non-negative span, hours < 24, minutes < 60 and seconds < 60, and the parts add up to the span minus less than a second |
| Utils.ElapsedWhole | utils.js:17-22 | the days, hours, minutes and seconds add up to the span truncated to whole seconds |
| Utils.Pad | utils.js:25-27 | `pad(n)`: "0" prefixed exactly when n < 10 (PadText, PadValue) |
| Utils.PadText | utils.js:25-27 | `pad` writes 0..9 as two digits and leaves larger numbers as their decimal text |
| Utils.PadValue | utils.js:25-27 | the padded text of a non-negative number reads back as that number |
| Utils.ElapsedLayout | utils.js:28-29 | the duration text is `pad(days) hh:mm:ss` with two-digit fields |
| Utils.ElapsedTextRoundTrip | utils.js:9-32 | reading the duration text back gives the span truncated to whole seconds |
| Utils.CalculateDuration | utils.js:9-32 | the elapsed text from start to end, and `"NaN NaN:NaN:NaN"` when either date is invalid (ElapsedTextRoundTrip, CalculateDurationExample) |
| Utils.CalculateDurationExample | utils.js:9-32 | 2024-01-01T00:00:00Z to 2024-01-03T05:30:15Z is `"02 05:30:15"` |
| Utils.NegativeSpanText | utils.js:17-29 | a span of −1000 ms is written `"0-1 0-1:0-1:0-1"` (floor and truncated remainder give −1 in every field, and `pad` prefixes "0") |
| Utils.FieldMapsInjective | utils.js:34-45 | no two Gantt fields map to the same ServiceNow column, in either field map |
| Utils.CalcStartDate | utils.js:47-84 | the result is `Err(InvalidDurationUnit)` exactly when the unit is none of the nine names; with a known unit, an invalid end date or duration gives an invalid date |
| Utils.CalcStartDateDefaultUnit | utils.js:47 | a missing unit behaves as `"day"` |
| Utils.CalcStartDateSameNumber | utils.js:52-78 | the duration enters only through `Number(duration)`: durations with the same number give the same start |
| Utils.CalcStartDateIntegerText | utils.js:52-78 | a duration given as integer text gives the same start as that number |
| Utils.MakeDay | utils.js:70-75 | MakeDay: the day number of a date whose 0-based month index may run outside 0..11, carrying into the year (MonthsBack) |
| Utils.SetField | utils.js:52-78 | the UTC setter of the unit's field: the other fields are kept and overflow carries (ShiftFixed, MonthsBack) |
| Utils.ShiftFields | utils.js:52-78 | the field is set to its value minus n units, truncated toward zero, then clipped to the Date range (ShiftFixed, WeekIsSevenDays, QuarterIsThreeMonths, ShiftMonths, ShiftYears) |
| Utils.CalcStartDateFixed | utils.js:52-69 | for ms/s/min/h/day/week, the start is the end minus n times the unit's length, as an ISO string, or an invalid date outside the range |
| Utils.StartBeforeFixed | utils.js:52-69 | the same, for the shift once the end date has been read |
| Utils.ShiftFixed | utils.js:52-69 | setting a UTC field back by n units moves the time back by n times the unit's length |
| Utils.WeekIsSevenDays | utils.js:67-69 | n weeks back is 7n days back |
| Utils.QuarterIsThreeMonths | utils.js:73-75 | n quarters back is 3n months back |
| Utils.AddMonths | utils.js:70-72 | moving by k months keeps the day and moves the month count (year·12 + month) by exactly k |
| Utils.MonthsBack | utils.js:70-72 | `setUTCMonth(month − k)` gives the date k months earlier, with the year carried |
| Utils.ShiftMonths | utils.js:70-72 | for days up to the 28th, n months back is the same day, n months earlier |
| Utils.ShiftYears | utils.js:76-78 | for days up to the 28th, n years back is the same day and month, n years earlier |
| Utils.DurationUnitNames | utils.js:51-78 | every duration unit is recognised by its name |
| Utils.BryntumDepType | utils.js:86-99 | a relation's sub type decodes exactly when it is fs, ss, ff or sf, to a type in 0..3; otherwise the error is an invalid dependency type |
| Utils.ServiceNowDepType | utils.js:215-228 | a Gantt dependency type encodes exactly when it is 0, 1, 2 or 3 |
| Utils.DepTypeRoundTrip | utils.js:86-99 | decoding then encoding gives back the sub type, and encoding then decoding gives back the type, in both directions |
| Utils.UnitMillis | utils.js:111-120 | every lag unit is at least one millisecond long |
| Utils.UnitMillisMonotone | utils.js:111-120 | the coarser a unit, the longer it is, and conversely |
| Utils.Coarser | utils.js:126-150 | the next unit tried is one rank coarser |
| Utils.UnitForCoarsest | utils.js:126-150 | the unit chosen for a span is the coarsest unit that fits into it at least once; spans under a second use milliseconds |
| Utils.UnitFor | utils.js:126-150 | the if-chain that picks a lag unit for a span (UnitForCoarsest, UnitForOf) |
| Utils.UnitForOf | utils.js:126-150 | a span of at least one unit and less than the next coarser unit is given in that unit |
| Utils.PerUnitScale | utils.js:126-150 | the magnitude before rounding is the span divided by the unit's length |
| Utils.InUnit | utils.js:152 | the rounded magnitude is a number |
| Utils.InUnitError | utils.js:152 | rounding to hundredths moves the magnitude by at most 0.005 |
| Utils.InUnitExact | utils.js:152 | a whole number of units is reported as exactly that number |
| Utils.BryntumDepLag | utils.js:101-153 | `"1970-01-01 00:00:00"` decodes to (0, d); unreadable text decodes to (NaN, y) |
| Utils.ZeroLagText | utils.js:102-104 | the default GlideDuration decodes to 0 days |
| Utils.ParseDateZeroLag | utils.js:106-108 | the default GlideDuration text is read as time 0 |
| Utils.ServiceNowDepLag | utils.js:155-213 | encoding fails exactly when the unit is not one of the sixteen short or long names, with an invalid lag unit error |
| Utils.LagUnitNames | utils.js:162-196 | every lag unit is recognised by both its short and its long name |
| Utils.InMillisScale | utils.js:162-194 | the lag in milliseconds is the magnitude times the unit's length |
| Utils.LagTarget | utils.js:157-200 | the time of `new Date(0 + durationMillis)`: `0 + lag` for milliseconds (string concatenation for a string lag), otherwise the lag coerced by `Number` times the unit's length (InMillisScale, SubSecondTarget) |
| Utils.LagIn | utils.js:155-210 | the GlideDuration text of that time, or the NaN text for an Invalid Date (LagInRoundTrip, SubSecondLagLost) |
| Utils.LagText | utils.js:203-210 | the UTC fields as `YYYY-MM-DD HH:MM:SS`, the year unpadded (LagTextParts, LagTextRoundTrip) |
| Utils.EncodeWhole | utils.js:162-200 | a whole lag in any unit but ms is the exact number of milliseconds |
| Utils.LagTextParts | utils.js:203-210 | for four-digit years, the GlideDuration text is the zero-padded year plus the two-digit fields |
| Utils.ReadLagFields | utils.js:203-210 | each field of the GlideDuration text reads back as the field it was written from |
| Utils.ParseLagFields | utils.js:203-210 | `new Date` reads the GlideDuration text as the instant of its fields, without milliseconds |
| Utils.LagTextRoundTrip | utils.js:200-210 | reading the GlideDuration text of a time back gives that time truncated to whole seconds |
| Utils.WholeLagText | utils.js:200-210 | a whole-second time within year 9999 reads back exactly |
| Utils.LagRoundTrip | utils.js:155-213 | encoding a whole lag n ≥ 1 in unit u (by either name), where n·u is under the next coarser unit, then decoding it, gives back (n, u) |
| Utils.LagInRoundTrip | utils.js:101-213 | the same round trip, once the unit is known |
| Utils.FirstSecondText | utils.js:203-210 | every time in the first second after the epoch is written `"1970-01-01 00:00:00"` |
| Utils.EpochFields | utils.js:203-210 | a time in the first second after the epoch has the fields 1970-01-01 00:00:00 plus its milliseconds |
| Utils.SubSecondTarget | utils.js:199-200 | a lag under one second, or zero in any unit, lands within the first second after the epoch |
| Utils.SubSecondLagLost | utils.js:155-213 | a lag under one second, or zero in any unit, encodes to `"1970-01-01 00:00:00"` and decodes back as 0 days |
| Load.TaskOf | server.js:86-99 | a task row becomes a well-formed Gantt task with the row's sys_id, whose parent is a string or undefined |
| Load.ProjectTask | server.js:114-127 | the project row becomes a well-formed task with its sys_id and a null parent |
| Load.TasksOf | server.js:65-100 | each row maps, in order, to its task |
| Load.DependencyOf | server.js:67-84 | a relation becomes a dependency exactly when its sub type decodes, with id, from, to, type, lag and lag unit taken from the relation |
| Load.DependenciesOf | server.js:63-84 | the dependencies of the related rows in order, or the first decoding error (DependenciesOfRelated, DependenciesErrPersists) |
| Load.Related | server.js:67 | the rows that carry a relation are rows of the input that have one |
| Load.DependenciesOfRelated | server.js:63-84 | dependency extraction succeeds exactly when every related row's sub type decodes; it then yields one dependency per related row, in order, and otherwise an invalid dependency type error |
| Load.DependenciesErrPersists | server.js:78-80 | once a row's sub type fails to decode, the whole load fails |
| Load.InsertPermutes | server.js:128 | inserting into the sorted prefix adds exactly that task |
| Load.InsertStable | server.js:128 | insertion keeps tasks with the same parent index in their original order |
| Load.InsertSorted | server.js:128 | inserting a numeric task into a sorted sequence keeps it sorted |
| Load.SortByParentIndex | server.js:128 | the stable sort by parent index (SortByParentIndexCorrect) |
| Load.SortByParentIndexCorrect | server.js:128 | the sort is a permutation, is stable for every parent index, and is sorted when all parent indexes are numbers |
| Load.InsertInto | server.js:128 | one insertion-sort step on the array inserts element i into the sorted prefix and leaves the rest |
| Load.SortTasks | server.js:128 | sorting the array in place leaves exactly the specification sort of its old contents |
| Load.SortedCopy | server.js:128 | the tasks copied into an array, sorted and read back, are the specification sort |
| Load.LoadRows | server.js:63-128 | an undecodable sub type fails the load first; then a missing project fails it; otherwise the result is the sorted tasks plus the project task, and the dependencies |
| Load.LoadedTasks | server.js:114-128 | the loaded tasks are the task rows plus one, a stable permutation, sorted when all parent indexes are numbers, and well formed; the project task is the only one with a null parent |
| Load.MappedTasks | server.js:86-99 | no mapped task row has a null parent |
| Payloads.TaskCreatePayload | server.js:213-226 | a task payload is built exactly when both dates are valid, and otherwise the error is an invalid date |
| Payloads.TaskCreateFields | server.js:213-226 | the payload's dates are the formatted dates, its duration is `calculateDuration`, its project is the one given, its description defaults to "", and `override_status` is 0 when falsy and otherwise an integer or NaN |
| Payloads.TaskCreateDates | server.js:216-218 | for four-digit years, the created dates read back as the instants given, and the duration is the elapsed text between them |
| Payloads.DependencyCreatePayload | server.js:248-253 | a relation payload is built exactly when the type and the lag unit encode; an invalid type is reported before an invalid unit; parent and child are `from` and `to` |
| Payloads.DependencyCreateRoundTrip | server.js:248-253 | the created relation's sub type and lag decode back to the Gantt type and to the whole lag in its unit |
| Payloads.MapFields | server.js:330-334 | the loop over `Object.entries` builds the field-mapped body |
| Payloads.MappedFields | server.js:330-334 | under an injective field map, the body has exactly the mapped columns of the fields present, each holding that field's value |
| Payloads.Mapped | server.js:330-334 | the fields of the record that the field map names, copied under their columns in entry order (MappedFields) |
| Payloads.WithBothDatesValues | server.js:338-342 | the both-dates branch stores the start, end, duration and percent given |
| Payloads.WithBothDatesKeys | server.js:338-342 | the both-dates branch adds exactly the four date columns |
| Payloads.WithStartFromEnd | server.js:349-351 | the end-and-duration branch stores the start, end and duration given, and adds exactly those columns |
| Payloads.TaskUpdateBody | server.js:328-352 | the task update loop plus the date adjustment gives the adjusted mapped body |
| Payloads.TaskColumnsOfMap | server.js:331-332 | every mapped column is a task column |
| Payloads.TaskMappedDates | server.js:330-334 | the mapped body's start_date, end_date and duration are the data's startDate, endDate and duration |
| Payloads.AdjustDatesKeys | server.js:336-352 | the date adjustment keeps every column and adds only date columns |
| Payloads.AdjustDates | server.js:336-352 | the two date cases of updateOperation (BothDatesValid, BothDatesUpdate, EndAndDurationUpdate, AdjustDatesKeys) |
| Payloads.TaskUpdateOf | server.js:327-352 | the PATCH body of an updated task: mapped fields, then the date cases (TaskUpdateBody, TaskUpdateColumns) |
| Payloads.TaskUpdateColumns | server.js:328-352 | an update body holds only task columns, including the column of every mapped field present |
| Payloads.BothDatesValid | server.js:338-342 | with both dates given, the update succeeds exactly when both are valid dates, and otherwise the error is an invalid date |
| Payloads.BothDatesOutcome | server.js:338-342 | the both-dates branch succeeds exactly when both dates format |
| Payloads.BothDatesUpdate | server.js:338-342 | for valid four-digit-year dates, the body holds their ServiceNow text, the elapsed text and the percent |
| Payloads.BothDatesOk | server.js:338-342 | for valid dates, the body is the mapped body with the four date columns set |
| Payloads.EndAndDurationUpdate | server.js:343-352 | the end-and-duration branch stores the computed start as an unformatted ISO string, the end in ServiceNow form, and the elapsed text from start to end |
| Payloads.EndAndDurationFixed | server.js:344-348 | for fixed units, the computed start is exactly n units before the end |
| Payloads.WithCodecs | server.js:379-383 | the encoded sub type and lag are set, and every other column is kept |
| Payloads.DependencyUpdateBody | server.js:372-383 | the relation update loop plus the codecs gives the relation update body |
| Payloads.DependencyUpdateOf | server.js:372-383 | the body posted for an updated relation: mapped fields, then the encoded sub type and lag (DependencyUpdateValid, DependencyUpdateColumns) |
| Payloads.DependencyUpdateValid | server.js:379-383 | a relation update body is built exactly when the type and lag unit encode; an invalid type is reported first |
| Payloads.DependencyMapped | server.js:373-377 | the mapped relation body has `parent` and `child` exactly when fromEvent and toEvent are present, holding their values |
| Payloads.DependencyUpdateColumns | server.js:372-383 | the update body has exactly sub_type, lag and the present parent/child columns, with their values |
| Payloads.CodecsKeepEnds | server.js:379-383 | setting the codecs leaves parent and child unchanged |
| Calls.Step | server.js:207-423 | one record makes at most two calls, all to its own table |
| Calls.CreateStep | server.js:205-276 | build the create body, POST it, report `$PhantomId` with the reply's sys_id; a body that does not build makes no call (Sync.CreateBatch, Sync.CreateRows) |
| Calls.TaskUpdateStep | server.js:327-371 | PATCH the task's update body to its id; resolves to undefined (Sync.TaskUpdateRows) |
| Calls.DependencyUpdateStep | server.js:372-424 | DELETE the old relation, then POST the update body, and report the old id with the new sys_id (Sync.DependencyUpdateRows) |
| Calls.RemoveStep | server.js:281-320 | DELETE the record's id in its table (Sync.RemoveBatch) |
| Handler.CreateBody | server.js:212-253 | a create body is built exactly when the table's payload builds |
| Handler.HandlerBuilders | server.js:207-327 | the server's builders strip `$PhantomId` before a create, and `id` before an update |
| Handler.KeptWithoutPhantom | server.js:208 | stripping `$PhantomId` keeps every other field |
| Handler.TaskBodyBuilds | server.js:208-226 | a task record is creatable exactly when its startDate and endDate are valid dates |
| Handler.DependencyBodyBuilds | server.js:208-253 | a dependency record is creatable exactly when its type and lag unit encode |
| Handler.HandlerCreatable | server.js:205-253 | under the server's builders, creatability is exactly those conditions for each table |
| Sync.CallbackOf | server.js:205-426 | the callback built from the builders and replies follows the per-record step |
| Sync.CallbacksOf | server.js:205-426 | so do the create, update and remove callbacks of a table |
| Sync.FollowsSendsTo | server.js:205-426 | a callback that follows the step only calls its own table |
| Sync.FollowAllSendsTo | server.js:205-426 | the same holds for all three callbacks of a table |
| Sync.BatchTable | server.js:205-426 | a batch of a callback that calls one table only calls that table |
| Sync.Batch | server.js:205-207 | `Promise.all(records.map(callback))`: every record runs in order, the rows come in record order, and the first failure fails the batch (CreateBatch, RemoveBatch, RunBatch) |
| Sync.CreatePosts | server.js:228-270 | a create batch posts at most one body per record |
| Sync.CreateSent | server.js:205-279 | when every record is creatable, each one is posted |
| Sync.CreateBatch | server.js:205-279 | a create batch posts the creatable records' bodies, and succeeds exactly when every record is creatable and every post is answered |
| Sync.CreateRows | server.js:275-276 | a successful create batch reports, per record in order, its `$PhantomId` and the sys_id of its reply |
| Sync.RemoveBatch | server.js:281-322 | a remove batch deletes every record by id in order, and succeeds exactly when every delete is answered |
| Sync.TaskUpdateRows | server.js:329-371 | a successful task update batch PATCHes each record's update body by id and reports undefined per record |
| Sync.DependencyUpdateRows | server.js:372-423 | a successful relation update batch DELETEs then POSTs per record, in order, and reports each old id with the new sys_id |
| Sync.Phase | server.js:189-197 | an absent list makes no calls and yields no rows; a present one yields rows when it succeeds |
| Sync.SelectRows | server.js:199-202 | the update rows are returned when their first entry is defined, and the create rows otherwise |
| Sync.PhaseTable | server.js:189-197 | a phase only calls its own table |
| Sync.ApplyChangesTable | server.js:186-203 | `applyTableChanges` only calls its own table |
| Sync.ApplyChanges | server.js:186-203 | added, then updated, then removed, a failed phase stopping the rest; the update rows when their first is defined, else the create rows (TaskChangesRows, DependencyChangesRows, ApplyTableChanges) |
| Sync.TaskChangesRows | server.js:186-203 | for tasks, a successful `applyTableChanges` returns the create rows, present exactly when `added` is given |
| Sync.DependencyChangesRows | server.js:186-203 | for relations, a successful `applyTableChanges` returns the update rows (one Moved per record, with its old id) when `updated` is non-empty, and the create rows otherwise |
| Sync.TaskRowsKey | server.js:154-160 | successful task changes yield rows exactly when `added` is given |
| Sync.DependencyRowsKey | server.js:162-168 | successful dependency changes yield rows exactly when `added` is given or `updated` is non-empty |
| Sync.SyncResponseKeys | server.js:152-168 | the response echoes the request id; a successful sync has `tasks` exactly when task changes with `added` were sent |
| Sync.SyncDependenciesKey | server.js:162-168 | a successful sync has `dependencies` exactly when dependency changes with `added` or non-empty `updated` were sent |
| Sync.SyncOrder | server.js:149-179 | every task call goes to the task table; a failed task phase stops the sync with the failure message; otherwise the dependency calls follow the task calls |
| Sync.Sync | server.js:149-179 | the task changes, then the dependency changes; any failure gives the error response with the request id (SyncResponseKeys, SyncDependenciesKey, SyncOrder, HandleSync) |
| Sync.TableChangesTable | server.js:154-166 | the calls for one table's changes all go to that table |
| Sync.TableApi.constructor | server.js:228-243 | a fresh API has logged no request and holds the given replies |
| Sync.TableApi.Send | server.js:228-243 | a call logs its request and returns the reply for its position |
| Sync.ProcessRecord | server.js:207-423 | the calls and result of one record are those of the per-record step |
| Sync.RunBatch | server.js:205-279 | the imperative batch loop makes the calls and gives the rows of the batch specification |
| Sync.RunPhase | server.js:189-197 | the same, for an optional list |
| Sync.ApplyTableChanges | server.js:186-203 | the imperative `applyTableChanges` makes the calls and gives the result of its specification |
| Sync.HandleSync | server.js:149-179 | the imperative handler makes the calls and gives the response of the sync specification |

## Left out

- HTTP and the Express plumbing, environment variables, Basic auth headers,
  `JSON.stringify` / `.json()`, `console.log`/`console.error`, the port and
  the `public/` client files are not modelled. The table API is a list of
  replies. A call past the end of the list fails, as a rejected fetch would.
- The GET handler's two fetches are inputs (the project rows and the task
  rows), and the `tasksResult` passthrough in its response is not modelled.
- Concurrency: `Promise.all` is modelled as a sequential, order-preserving
  loop. Every record of a batch makes its calls; the batch fails when any
  record fails. In the real server, calls of different records can interleave.
- Sync.HandleSync: the callbacks that relate the oracle to the specification
  are ghost parameters. `CallbacksOf` shows they exist for every list of
  replies.
- Sync.SyncOrder: the dependency calls are shown to go to the dependency
  table through TableChangesTable, for callbacks that call only their own
  table (FollowAllSendsTo).
- Sync.TaskUpdateRows, Sync.DependencyUpdateRows and Sync.CreateRows describe
  only successful batches. A failed batch is described by its calls alone.
- `changes.added`/`updated`/`removed` are modelled as present or absent lists.
  A truthy value that is not an array is not modelled.
- Record ids in URLs are kept as values; URL text is not built.
- Dates: the `Date` constructor reads the date time string format with
  four-digit years (Calendar.ParseDate). Not read: the expanded years
  `±YYYYYY`, the clock `24:00`, fractions of other than three digits,
  lowercase `t` and `z`, and the other texts V8's fallback parser accepts
  (`"Mar 5 2024"`, `"2024/03/05"`); these all give an Invalid Date here. A
  date-time without a zone is read as UTC, not local time. The local-time
  setters of calcStartDate are taken to be in UTC. Both amount to running the
  server in UTC.
- Utils.FormatDateServiceNow: a valid date means one Calendar.ParseDate
  reads. Text only V8's fallback parser accepts is reported as an invalid
  date here.
- Utils.CalcStartDate: the end date is read by Calendar.ParseDate, so an end
  date only V8's fallback parser accepts gives an invalid date here. The
  duration is read by Js.ToNumber.
- Payloads.TaskCreatePayload: a task is created only when both of its dates
  are valid under Calendar.ParseDate. Text only V8's fallback parser accepts
  is an invalid date here.
- Payloads.BothDatesValid: valid means valid under Calendar.ParseDate, as for
  Payloads.TaskCreatePayload.
- Handler.TaskBodyBuilds: valid means valid under Calendar.ParseDate, as for
  Payloads.TaskCreatePayload.
- Handler.HandlerCreatable: task creatability means valid under
  Calendar.ParseDate, as for Payloads.TaskCreatePayload.
- Js.ToNumber: numbers are exact rationals rather than IEEE doubles, with NaN
  a separate value, and −0 is read as 0. None stands for NaN and for both
  infinities. There is no rounding to the nearest double. Text beyond the
  double range (`"1e400"`) is a very large finite number rather than
  Infinity. In both places a number is read, it then gives what Infinity
  gives: an Invalid Date from calcStartDate, and the NaN GlideDuration from
  bryntumGanttDepLagToServiceNowDepLag.
- Utils.InUnit: the magnitude is the exact quotient rounded to hundredths
  (InUnitError bounds it by 0.005). Binary floating-point error in
  `Math.round(lag * 100) / 100` is not modelled.
- Utils.CalcStartDateFixed covers only the fixed-length units (ms, s, min,
  h, day, week). Months, quarters and years are covered by ShiftMonths,
  ShiftYears and QuarterIsThreeMonths, for days up to the 28th. The
  end-of-month overflow of `setUTCMonth` is not stated.
- Utils.LagRoundTrip holds for whole magnitudes that stay below the next
  coarser unit. Other lags are bounded only by InUnitError and UnitForCoarsest.
- Load.SortByParentIndexCorrect states sortedness only when every parent
  index is a number. With NaN indexes the comparator is inconsistent and
  `Array.prototype.sort` may order them any way. The model uses a stable
  insertion sort that leaves NaN-indexed tasks where the comparison sends
  them.
- Js.ToString: a number is written in plain decimal text, cut after 20
  fraction digits. JavaScript writes the exponent form for |x| ≥ 1e21 and for
  0 < |x| < 1e-6 (`"1e+21"`, `"1e-7"`), and writes every significant digit of
  the nearest double, which can take more than 20 places. Those digits depend
  on rounding to doubles, which the exact rationals of Js.ToNumber do not
  have. `${percentDone}` (server.js:342) therefore differs for such numbers,
  and Js.ParseIntOfInteger is stated below 1e21 only, since `parseInt("1e+21")`
  is 1.
- Js.ParseInt reads decimal digits only. Without a radix argument,
  `parseInt` reads a `0x` prefix as hexadecimal, and the model reads such
  text as 0. The server's fields (`wbs_order`, `percent_complete`,
  `override_status`) carry decimal text.
- Payloads.MapFields: a key counts as mapped when it is a key of the field
  map. In JavaScript, `bryntumTaskFieldsToServiceNowFields[key]` also finds
  the inherited `Object.prototype` members (`constructor`, `toString`, …),
  which are truthy. A record field with such a name would be copied under
  that non-column, and the model drops it instead. Gantt records carry no
  such fields.
