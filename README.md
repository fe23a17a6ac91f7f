# Weather log: a Dafny model

`weather_log.py` is a console application that keeps a per-day weather log and
prints forecast reports. This project models the core behind it:

- the **observation store** `WeatherLog` (lines 5-26). It is a dictionary from a
  `DD-MM-YYYY` date text to the temperature, precipitation and wind speed entered for
  that day. Every save writes the whole dictionary to a JSON file, and a new store
  loads that file, or starts empty when the file is missing;
- the **forecast lookup** `YRWeather.fetch_weather_data` (lines 34-52). The requested
  day becomes the noon UTC query time `YYYY-MM-DDT12:00:00Z`. The service's time series
  is scanned for the first timeslot whose date is that day, and that timeslot gives the
  temperature, the wind speed and the next-hour precipitation (0 when the block is
  missing). A status other than 200, or no timeslot on that day, gives `None`;
- the **report date ranges** (lines 96-132). The week report covers the seven days from
  the Monday that `strptime` resolves for `%Y-W%W-%w`. The month report walks from the 1st,
  one day at a time, up to the day before the 1st of the next month.

Modules:

- `Calendar`: the proleptic Gregorian calendar of Python's `date`, covering ordinals,
  weekdays, the next and previous day, and day arithmetic.
- `DateText`: `strptime`/`strftime` for `%d-%m-%Y`, the RFC 3339 full-date, the date
  of an RFC 3339 date-time, and the query time.
- `Forecast`: the timeslot scan, as a function and as the looping method proved
  equal to it.
- `DateRanges`: the week and month ranges, with the two defects found in them.
- `WeatherStore`: the class `WeatherLog`.
- `Wrappers`: `Option` and `Result`.

Exceptions are modelled as values. A `ValueError` is `None` or a `Failure` of the
operation's error type.

Two behaviours of the code are worth knowing:

- Week numbers follow `%W` (weeks start on Monday, and days before the first Monday are
  week 0), not ISO 8601 weeks.
- The December month report raises instead of covering the month.

## Model

| member | source | states |
|---|---|---|
| Calendar.IsLeapYear | weather_log.py:119 | the Gregorian leap-year rule (a definition) |
| Calendar.DaysInMonth | weather_log.py:119 | 28 to 31 days; February has 29 exactly in leap years, and April, June, September and November have 30 |
| Calendar.Ordinal | weather_log.py:100 | `toordinal()`: at least 1 for every valid date; OrdinalNextDay and OrdinalOrder state that it counts days |
| Calendar.Weekday | weather_log.py:99 | `weekday()`: a value in 0..6; WeekdayAddDays states how it advances |
| Calendar.WeekOfYear | weather_log.py:99 | `strftime('%W')` (a definition; StrptimeWeekRoundTrip states it against the week start) |
| Calendar.NextDay | weather_log.py:132 | `start_date += timedelta(days=1)`: the result is a valid date strictly after the argument |
| Calendar.PrevDay | weather_log.py:119 | `- timedelta(days=1)`: the result is the valid date whose next day is the argument |
| Calendar.AddDays | weather_log.py:100 | `start + timedelta(days=n)`: a valid date exactly `n` days (by ordinal) from the start |
| Calendar.OrdinalOrder | weather_log.py:121 | Python's `<=` on dates agrees with the ordinal day count, strictly for distinct dates |
| Calendar.DayOfWeek | weather_log.py:99 | `%w` numbering: Sunday 0, Monday 1, i.e. `weekday() + 1` modulo 7 |
| Calendar.WeekdayAddDays | weather_log.py:100 | adding `n` days moves the weekday by `n` modulo 7 |
| Calendar.Consecutive | weather_log.py:102 | `start + timedelta(n) for n in range(k)`: `k` valid dates whose ordinals are start's plus 0..k-1 |
| Calendar.ConsecutiveSteps | weather_log.py:102 | the range begins at the start and each element is the day after the previous |
| Calendar.ConsecutiveInRange | weather_log.py:102 | if the last day is within year 9999, every day of the range is representable |
| DateText.Pad2 | weather_log.py:103 | `%d`/`%m` output: two digits that read back as the number |
| DateText.Pad4 | weather_log.py:103 | `%Y` output: four digits that read back as the number |
| DateText.ParseDayMonthYear | weather_log.py:35 | `strptime(date, '%d-%m-%Y')`: only representable dates are accepted; everything else is the `ValueError` |
| DateText.FormatDayMonthYear | weather_log.py:122 | `strftime('%d-%m-%Y')` has ten characters |
| DateText.ParseFormatted | weather_log.py:103 | every date text the reports write reads back as the same date |
| DateText.FormatParsed | weather_log.py:35 | a parsed text is exactly the formatted text of its date if and only if it has ten characters |
| DateText.FormatIsoDate | weather_log.py:35 | `strftime('%Y-%m-%d')` has ten characters; its content is fixed by ParseIsoFormatted and FormattedIsoParsed |
| DateText.ParseIsoDate | weather_log.py:42 | `YYYY-MM-DD` read as a date only yields representable dates |
| DateText.ParseIsoFormatted | weather_log.py:35 | the RFC 3339 full-date of a date reads back as that date |
| DateText.LeadingDigits | weather_log.py:42 | the fraction-of-second digits: a digit run followed by a non-digit or the end |
| DateText.InstantDate | weather_log.py:42 | `fromisoformat(..).date()` only yields representable dates; other texts are the `ValueError` |
| DateText.AnyInstantDate | weather_log.py:42-43 | any date-time written on a day, whatever its valid time of day and offset, reads as that day |
| DateText.InstantDateWritten | weather_log.py:42-43 | conversely, a text that reads as a date is that date's full-date, `T` and a valid time of day |
| DateText.FormattedIsoParsed | weather_log.py:42 | a full-date that reads as a date is exactly the written form of that date |
| DateText.QueryTime | weather_log.py:35 | a query time exists exactly when the date text parses |
| DateText.NoonInstantDate | weather_log.py:35 | the date of the noon UTC instant written for a day is that day |
| DateText.QueryTimeNamesDay | weather_log.py:35 | the query time is a 20-character RFC 3339 instant whose date is the requested day and whose time is `T12:00:00Z` |
| Forecast.SampleOf | weather_log.py:44-48 | the returned dictionary of a timeslot: temperature and wind copied, precipitation from the next-hour block or 0 (a definition; FirstMatchIsReturned states it field by field) |
| Forecast.ScanFrom | weather_log.py:41-49 | the loop as a function: a Found or Unreadable index lies in the series at or after the start; ScanFromMeaning states the rest |
| Forecast.ScanFromMeaning | weather_log.py:41-49 | the scan stops at the first timeslot on the day, or the first unreadable one, having passed only timeslots on other days, or runs out with none on the day |
| Forecast.ScanSkips | weather_log.py:41-49 | a scan that passes only timeslots on other days continues unchanged after them |
| Forecast.FindDay | weather_log.py:41-49 | the for loop stops with exactly the outcome of the scan |
| Forecast.FetchOutcome | weather_log.py:34-52 | the specification of `fetch_weather_data` (a definition; the Forecast lemmas below state its behaviour) |
| Forecast.FetchWeatherData | weather_log.py:34-52 | the method returns exactly the specified outcome: the bad-date error, `None` on a failed status, or the scan's result |
| Forecast.BadDateRaises | weather_log.py:35 | a date text that does not parse raises before any request |
| Forecast.FailedStatusGivesNone | weather_log.py:50-52 | a status other than 200 yields `None` whatever the body |
| Forecast.FirstMatchIsReturned | weather_log.py:43-49 | the first timeslot on the day gives the temperature, the wind speed and the next-hour precipitation or 0 |
| Forecast.SampleComesFromFirstMatch | weather_log.py:41-49 | conversely, any returned sample is that of the first timeslot on the day, with status 200 |
| Forecast.NoMatchGivesNone | weather_log.py:41-52 | with status 200 the result is `None` if and only if every timeslot is on another day |
| Forecast.LaterTimeslotsIgnored | weather_log.py:41-45 | appending timeslots after one on the requested day does not change the result |
| Forecast.NoonFixture | weather_log.py:34-49 | a single noon timeslot on 15-06-2024 without a next-hour block gives its values and precipitation 0 |
| DateRanges.Julian | weather_log.py:99 | CPython's `%W`/`%w` day of the year (a definition; JulianIsMonday and JulianWeekNumber state its properties) |
| DateRanges.JulianIsMonday | weather_log.py:99 | the day of the year that the `%W`/`%w` rule computes is a Monday |
| DateRanges.StrptimeMonday | weather_log.py:99 | the resolved date is a valid Monday at the computed day of the year |
| DateRanges.WeekStart | weather_log.py:99 | success exactly for a four-digit year, week 1..54 and a resolved Monday within year 9999; the value is that Monday, representable with `%w` 1; failures are `ValueError` |
| DateRanges.StrptimeWeekRoundTrip | weather_log.py:99 | every day of the resolved week within the year has `%W` equal to the requested week, except week 0 of a Monday-starting year |
| DateRanges.StrptimeWeeksApart | weather_log.py:99 | consecutive `%W` numbers start seven days apart, except weeks 0 and 1 of a Monday-starting year |
| DateRanges.MondayYearRepeatsWeekOne | weather_log.py:99 | in a year beginning on a Monday, week numbers 1 and 2 both give 1 January |
| DateRanges.NewYear2024IsMonday | weather_log.py:99 | 1 January 2024 is a Monday |
| DateRanges.Weeks2024OneAndTwo | weather_log.py:97-99 | weeks 1 and 2 of 2024 both start on 2024-01-01 |
| DateRanges.NthMonday | weather_log.py:97-99 | the Monday `7 * (n - 1)` days after the Monday on or before 1 January |
| DateRanges.WeekStartFixed | weather_log.py:97-99 | the intended start: success exactly for the same year and week bounds with the `n`-th Monday within year 9999, the value being that Monday |
| DateRanges.WeekStartFixedNumbering | weather_log.py:97-99 | intended week 1 contains 1 January and each following week number starts seven days later |
| DateRanges.WeekStartVersusFixed | weather_log.py:99 | the code agrees with the intended start except in Monday-starting years, where its week n is the intended week n-1 |
| DateRanges.SameMonday | weather_log.py:99 | the `strptime` Monday for week `n` is the intended `n`-th Monday, or the `(n-1)`-th in a Monday-starting year with `n >= 2` |
| DateRanges.WeekDates | weather_log.py:99-102 | success exactly when the start resolves and its sixth day after is within year 9999; then seven representable dates from the resolved Monday, each the day after the previous, the last six days after the first; start errors propagate, and otherwise the failure is `OverflowError` |
| DateRanges.FirstWeekOf2024 | weather_log.py:99-102 | week 1 of 2024 is exactly 1 to 7 January 2024 |
| DateRanges.MonthDays | weather_log.py:121-132 | the days of the month, 1st to last (a definition; MonthDaysConsecutive states its properties) |
| DateRanges.MonthDaysConsecutive | weather_log.py:121-132 | the days of a month are its length in consecutive dates from the 1st |
| DateRanges.WalkDays | weather_log.py:121-132 | the while loop collects exactly the consecutive dates from the first to the last, none when the first is after the last |
| DateRanges.MonthEnd | weather_log.py:119 | the month's last day when the month is not December; December is the `ValueError` |
| DateRanges.DecemberHasNoEnd | weather_log.py:119 | `datetime(year, 13, 1)` raises for every year |
| DateRanges.MonthEndFixed | weather_log.py:119 | the intended end: a day of the month whose next day is in another month |
| DateRanges.MonthRange | weather_log.py:116-132 | the month report's dates exist exactly for years 1..9999 and months 1..11, and are then every day of the month in order; failures are `ValueError` |
| DateRanges.MonthRangeFixed | weather_log.py:116-132 | the intended month report covers months 1..12 |
| DateRanges.MonthLengthExamples | weather_log.py:118-132 | February 2024 has 29 days, February 2023 28, and December 2024 ends on the 31st |
| WeatherStore.WeatherLog.constructor | weather_log.py:6-8 | a new store holds the file's dictionary, or nothing without a file |
| WeatherStore.WeatherLog.LoadFromJson | weather_log.py:21-26 | the dictionary becomes the file's content, or empty when the file is missing |
| WeatherStore.WeatherLog.SaveToJson | weather_log.py:17-19 | the file holds the whole dictionary, which is unchanged |
| WeatherStore.WeatherLog.GetDayData | weather_log.py:14-15 | a record exactly for the saved dates, and it is the stored one |
| WeatherStore.WeatherLog.SaveDayData | weather_log.py:10-12 | the date now yields the new record, other dates are unchanged, at most that one key is added, and the file holds the new dictionary |
| WeatherStore.LastWriteWins | weather_log.py:10-15 | of two saves at one date the second wins |
| WeatherStore.FreshStoreIsEmpty | weather_log.py:6-15 | without a file a date never saved yields `None` |
| WeatherStore.ReloadAfterSave | weather_log.py:10-26 | a store loaded from the file a save wrote holds the same dictionary |

## Left out

- The HTTP request (lines 36-38) is left out: the URL, the latitude and longitude, and the `User-Agent` header (lines 29-32). `FetchWeatherData` receives the status code and the decoded time series of the answer as a parameter.
- JSON encoding and file I/O are abstracted. The file is the decoded dictionary, or absent. A corrupt file, which would make `json.load` raise, is not modelled.
- The menu loop of `WeatherApp` and its `run` loop (lines 54-135) is not modelled. That includes the prompts, the `float(...)`/`int(...)` conversions of typed input and all printing. The per-date fetch-and-print calls inside the week and month loops are also left out: the model produces the dates those loops visit.
- Measurements are `real` values that are only copied. Python floats and the `0` literal of line 48 are not distinguished.
- Missing keys in the service's JSON (`KeyError` at lines 41, 44, 46-48) are not modelled. A timeslot always has its instant details.
- DateText.ParseDayMonthYear: accepts ASCII digits only. `strptime` also accepts other Unicode decimal digits, and a space before a one-digit day.
- DateText.FormatDayMonthYear: always writes four year digits. The platform `strftime` may write years below 1000 unpadded.
- DateText.FormatIsoDate: always writes four year digits, and so does DateText.QueryTime. `%Y` at line 35 accepts a year such as `0999`, which the platform `strftime` may write unpadded, so DateText.QueryTimeNamesDay's 20 characters hold only for four-digit years. Only the URL, which is outside the model, would differ.
- DateText.InstantDate: accepts only the RFC 3339 date-time forms with offset `Z` or `±hh:mm`. `fromisoformat` accepts more forms. For a non-`Z` offset the date is the local date written in the text, as `.date()` gives it.
- DateRanges.MonthRangeFixed: proved for every year up to 9999. In Python, the loop's final increment for 31 December 9999 would raise `OverflowError`.

## Findings

| source | as written | input that shows it | evidently intended | confidence | as-written member | corrected member |
|---|---|---|---|---|---|---|
| weather_log.py:119 | the month end is computed as `datetime(year, month + 1, 1) - timedelta(days=1)` | month 12 of any year: `datetime(year, 13, 1)` raises `ValueError` | the month report for December covers 1-31 December | not executed | DateRanges.DecemberHasNoEnd | DateRanges.MonthRangeFixed |
| weather_log.py:99 | the week start is `strptime(f'{year}-W{week_number - 1}-1', "%Y-W%W-%w")` | year 2024, week numbers 1 and 2: 1 January 2024 is a Monday, so `%W` 0 and 1 both resolve to 2024-01-01 | distinct week numbers give distinct weeks seven days apart | not executed | DateRanges.Weeks2024OneAndTwo | DateRanges.WeekStartFixed |
