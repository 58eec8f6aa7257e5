# Electricity consumption of the city of Zurich: the record pipeline

A Dafny model of the data path of the Zurich electricity dashboard
(`app.py`). The dashboard reads the city's quarter-hourly gross load
readings (`bruttolastgang`) and turns them into three reports:

- the year report ("Jahresverlauf"): daily consumption per year, with a running total;
- the day report ("Tagesverlauf"): the mean load per time of day per year;
- the week report ("Wochenverbrauch"): identical to the day report in the code.

The model covers the steps between the raw rows and those report tables:

- cleaning: the row mask on `status` and date, the column projection, the unit conversion;
- the derived columns `year`, `day` (day of year) and `zeit` (time of day);
- the sidebar filters, including the skip of the day-range filter at its default `(1, 365)`;
- the three group-by reports;
- the caption `get_interval_dates` shown under the day slider.

Modules, in dependency order:

| module | file | what it holds |
|---|---|---|
| `Wrappers` | wrappers.dfy | `Option` |
| `Arith` | arith.dfy | small non-linear arithmetic facts |
| `Text` | text.dfy | code-point string order (Python's `<` on `str`), digit strings, zero padding |
| `Seqs` | seqs.dfy | subsequences, an order-keeping `Filter` (a pandas boolean mask), sortedness |
| `Calendar` | calendar.dfy | Gregorian leap years, day of year, ordinals, `date + timedelta(days)` |
| `Timestamp` | timestamp.dfy | parsing `zeitpunkt`, `strftime('%H:%M:%S')`, what string comparison of timestamps means |
| `Loader` | loader.dfy | `get_data` minus file reading |
| `Filters` | filters.dfy | `get_filtered_data` |
| `Grouping` | grouping.dfy | pandas `groupby(...).sum()` / `.mean()` with sorted keys |
| `Reports` | reports.dfy | the year, day and week reports, and the running per-year total |
| `Interval` | interval.dfy | `get_interval_dates` |

Each group-by is checked against a second, independent definition. `DaySum`,
`DaysUpTo`, `YearTotal`, `ZeitSum` and `ZeitCount` are plain recursive
sums over the filtered rows. The report contracts say that each table row
holds exactly those quantities. They also say the table is strictly
ordered by its key and lists every key that has rows.

Consumption values are `real`. The model does not use IEEE doubles. For
the division by `1e6`, the contract states the inverse relation
(`value * 1000000.0 == raw`); the day report's `* 1000` is stated as the
product itself.

Notes on `app.py`:

- No report value is rounded; `app.py` has no rounding step.
- At the slider's default `(1, 365)` the day-range filter is skipped, and every
  row passes unchanged. Skipping it is not the same as applying the range
  `(1, 365)`: applying it would drop day 366 of a leap year (31 December).
  So those rows show only at the default. Any other slider position removes
  them, because the slider cannot reach 366 (`Filters.LeapDayOnlyAtDefault`).
- The week report groups by `(year, zeit)` exactly as the day report does.
  It does not group by week or weekday.

## Model

| member | source | states |
|---|---|---|
| Loader.KeepRows | app.py:53 | the mask keeps, in order and with every duplicate, exactly the rows whose status is "E" or whose timestamp string sorts before "2020-06-15" |
| Text.LexLessIrreflexive | app.py:53 | Python's `<` on `str` (`Text.LexLess`, first differing character decides, a proper prefix first) never relates a string to itself |
| Text.LexLessTransitive | app.py:53 | string `<` is transitive |
| Text.LexLessTotal | app.py:123 | any two distinct strings are ordered one way or the other, so the sorted `(year, zeit)` keys of the group-by are well defined |
| Text.LexLessDigits | app.py:53 | on equally long digit strings, string `<` is exactly `<` on the numbers they denote |
| Loader.KeptIffStatusEOrEarly | app.py:53 | for a well-formed timestamp, the string comparison with "2020-06-15" means "dated before 15 June 2020", so a row is kept iff its status is "E" or it is dated before the cutoff |
| Loader.CutoffIsDate | app.py:53 | the cutoff literal is the canonical rendering of the date 2020-06-15 |
| Loader.Project | app.py:54-55 | one reading per kept row, same timestamp, consumption such that times 1e6 it gives the raw value back |
| Loader.Clean | app.py:53-55 | cleaning yields one reading per kept row, in order, each carrying its row's timestamp and converted value |
| Loader.Enrich | app.py:29-46 | a reading gains `year`, `day`, `zeit` iff its timestamp parses; `day` is the day of the year that maps back to the timestamp's month and day, `zeit` reads back as its hour, minute and second |
| Loader.EnrichAll | app.py:28-47 | the whole table is enriched iff every timestamp parses, row by row |
| Seqs.MapAll | app.py:28-47 | a step that may fail, applied to every row, succeeds iff it succeeds on each row, and then yields each row's result in place |
| Loader.GetData | app.py:53-56 | the dashboard's table: one row per kept raw row, derived columns consistent with the parsed timestamp, value scaled, and every row has status "E" unless dated before the cutoff |
| Timestamp.Parse | app.py:29 | a parsed timestamp is a real calendar date and time whose fields are the digits of the string |
| Timestamp.ParseComplete | app.py:29 | the converse of `Parse`'s contract: a string of the date or date-time shape whose fields form a valid date-time parses to exactly it, midnight for a bare date |
| Timestamp.ParseSpaceSeparated | app.py:29 | a date-time with a space separator, "2019-01-01 00:15:00", parses to 2019-01-01 00:15:00 |
| Timestamp.ParseFormat | app.py:29 | every valid date-time, rendered canonically, parses back to itself |
| Timestamp.FormatParse | app.py:29 | every parseable canonical string is reproduced by parse-then-render |
| Timestamp.LexLessDate | app.py:53 | for a parseable timestamp, comparing its string with a rendered date is comparing calendar days |
| Timestamp.Zeit | app.py:46 | the `%H:%M:%S` string reads back as hour, minute and second |
| Timestamp.ZeitOrder | app.py:46 | `zeit` strings sort exactly in clock order, so the day report's key order is chronological |
| Calendar.DayOfYear | app.py:45 | the day of year lies in 1..365/366 and inside its month's block of the year |
| Calendar.LeapDayExists | app.py:45 | the leap rule `IsLeapYear` (divisible by 4, centuries only by 400) decides exactly whether 29 February exists and whether the year has a day 366 |
| Calendar.DataYears | app.py:45 | of the data's years only 2020 is a leap year; 1900 is not and 2000 is |
| Calendar.MonthTableConsistent | app.py:45 | the cumulative month table `DaysBeforeMonth` steps by each month's length, starts at 0 and ends at the year's length |
| Calendar.YearStep | app.py:63-64 | the count of days before a year grows by exactly that year's length, so the leap rule and the ordinal count agree |
| Calendar.MonthDay | app.py:45 | every day number of a year names a valid date whose day of year is that number |
| Calendar.DayOfYearRoundTrip | app.py:45 | date to day of year to date is the identity |
| Calendar.DayOfYearOrder | app.py:45 | day of year is strictly monotone in (month, day) within a year, both directions |
| Calendar.DateOfDay | app.py:63-64 | `datetime(y,1,1) + timedelta(days=n-1)` is the valid date whose ordinal is that of 1 January plus n-1, for any n |
| Calendar.OrdinalInjective | app.py:63-64 | the ordinal determines the date |
| Calendar.OrdinalInRange | app.py:63-64 | a date lies in years 1..9999 iff its ordinal lies in 1..3652059 |
| Filters.FilterDays | app.py:84-85 | at the default range every row is kept; otherwise exactly the rows with day in the range, in order, with all duplicates |
| Filters.FilterYears | app.py:86-87 | with no year chosen every row is kept; otherwise exactly the rows of chosen years |
| Filters.GetFilteredData | app.py:79-88 | the result is an order-keeping selection of exactly the rows meeting both conditions, each as often as in the input; the identity at the default range with no years; day bounds when the range was moved; year membership when years were chosen |
| Filters.ComposeSelections | app.py:84-87 | applying the day mask and then the year mask keeps exactly the rows meeting both |
| Filters.LeapDayOnlyAtDefault | app.py:81-85 | 31 December of a leap year is day 366 and survives the filter iff the range is the default (and its year is selected) |
| Grouping.Keys | app.py:93 | the distinct group keys in ascending order, exactly those present |
| Grouping.GroupSum | app.py:93 | one bucket per present key, ascending, holding the sum of its entries |
| Grouping.GroupMean | app.py:123 | one bucket per present key, ascending, holding the mean: value times count equals the sum, count positive |
| Grouping.GroupSumPreservesSubtotals | app.py:93 | summing grouped buckets over any key set gives the same as summing the raw entries over it |
| Grouping.PrefixIsKeysUpTo | app.py:94 | a prefix of the sorted bucket table is the set of keys up to its last key |
| Reports.DailyTotals | app.py:91-94 | one row per (year, day) with readings, strictly ordered, holding the day's consumption and the year's consumption up to and including that day |
| Reports.CumulativeIsDaysUpTo | app.py:94 | the per-year cumulative sum over the sorted daily table equals the year's consumption up to that day |
| Reports.CumulativeByYear | app.py:94 | a single pass with a running total per year computes, at each row, the sum of its year's rows so far |
| Reports.YearTable | app.py:93-95 | the shown days are those above 2, in order, each with its day sum and the running total taken before the threshold |
| Reports.YearReport | app.py:90-95 | the year report of the filtered rows: ordered, every day above 2 present, values and running totals as the reference sums |
| Reports.LastDayCarriesYearTotal | app.py:94 | the last day of a year in the daily table carries the year's total |
| Reports.SingleHeavyDay | app.py:95 | when only one day exceeds the threshold, the report is that single day |
| Reports.DefaultYearReport | app.py:84-88 | with the full range and no year chosen, the year report covers every row |
| Reports.ThresholdExample | app.py:93-95 | 1.5 in 2021 and 3.0 in 2022 give the one row (2022, day 60, 3.0, 3.0) |
| Reports.DroppedDayStillCounts | app.py:94-95 | a dropped day (1.0) still counts in the next shown day's running total (4.0) |
| Reports.ZeitTable | app.py:120-123 | one row per (year, zeit) with readings, strictly ordered by year then zeit string, holding 1000 times the mean of that time's readings |
| Reports.ZeitEntriesKeySum | app.py:120 | after the `* 1000` (`Reports.ZeitEntries`), the entries of one (year, zeit) key sum to 1000 times that time's consumption in the rows |
| Reports.ZeitEntriesKeyCount | app.py:120 | each row gives one entry, so a key has as many entries as the rows at that time |
| Reports.DayReport | app.py:119-123 | the day report of the filtered rows, with the same facts |
| Reports.WeekReport | app.py:145-150 | the week report is the day report |
| Reports.EmptySelectionEmptyReports | app.py:90-95 | no selected rows give empty year and day reports |
| Interval.Strftime | app.py:62 | `%d.%m/%y` writes two-digit day, month and year of century |
| Interval.DayLabel | app.py:63-65 | a day number yields "dd.mm" of its date iff that date is inside Python's year range |
| Interval.RepresentableBounds | app.py:63-64 | `Interval.Representable`: `datetime(2022, 1, 1) + timedelta(days=n-1)` stays in Python's years exactly for n in -738154..2913904 |
| Interval.FirstOrdinal | app.py:63-64 | the lowest such day is 1 January of year 1 |
| Interval.LastOrdinal | app.py:63-64 | the highest such day is 31 December of year 9999 |
| Interval.GetIntervalDates | app.py:60-65 | "dd.mm - dd.mm" naming the dates of the first and last selected day, or an error when either date leaves Python's range |
| Interval.IntervalLabelRoundTrip | app.py:60-65 | for every slider position the caption exists and its two dates read back as the selected day numbers |
| Interval.FullYearCaption | app.py:60-65 | the default range is captioned "01.01 - 31.12" |
| Interval.FebruaryCaption | app.py:60-65 | days 32 to 59 are captioned "01.02 - 28.02" |

## Left out

- Reading the four CSV files and concatenating them (app.py lines 49-52): file I/O. `Loader.GetData` starts from the concatenated rows.
- The derived columns that no report uses (`year_date`, `hour`, `minute`, `date`, `week`, `month`, `week_date`, `month_date`, `day_in_month`, `hour_date`, app.py lines 30-44). They do not influence any output. One exception: `pd.to_datetime` on them could raise on an impossible date, but every row reaching them already has a valid timestamp.
- The Streamlit user interface: the sidebar widgets, the menu, `main` and the plots (`show_plot`, `plots.line_chart`). The widget values become the `Selection` parameter.
- `st.cache`: it changes when `get_data` runs, not what it returns.
- Timestamp.Parse: models only the ISO shapes "YYYY-MM-DD" and "YYYY-MM-DD[T ]HH:MM:SS". `pd.to_datetime` also accepts other formats, fractional seconds and timezone offsets, and it bounds years to 1677..2262; the model accepts years 1..9999. The model therefore assumes the files' timestamps have one of these two shapes without an offset; a timestamp such as "2019-01-01T00:15:00+01:00" fails to parse, and `Loader.GetData` then gives no table.
- Floating point: consumption is `real`. Doubles, their rounding in `/ 1e6`, `* 1000` and in sums and means, and NaN readings are not modelled.
- The week report's title and layout: it is rendered exactly like the day report. Grouping by ISO week is not modelled because the code does not do it.
