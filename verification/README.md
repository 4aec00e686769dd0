# WinCC Unified historian export — a Dafny model

`main.py` exports logged process values from the SQLite chunk files of a
WinCC Unified historian. For each logged tag it does the following:
- It queries every chunk for the tag's rows (`Value`, `pk_TimeStamp`) and
  concatenates them.
- It turns the raw LDAP/Active-Directory timestamps into datetimes with
  `convert_ldap`. A raw 0 or a NULL becomes the missing marker.
- It sorts by timestamp and finds the earliest and latest instant.
- It floors and ceils those two instants to an 8-hour grid.
- It draws one chart per 8-hour window between them. Each chart gets a title
  in the `TS_FORMAT` format and an image path in the `TS_FORMAT_FILE` format.

This project models that pipeline with pure functions and proves its
properties:

| file | what it holds |
|---|---|
| `results.dfy` | `Option` and `Result` |
| `ticks.dfy` | Instants as integer ticks of 100 ns since 1601-01-01 (the LDAP unit), the 8-hour grid, floor and ceiling. It also proves that pandas' 1970-anchored rounding in nanoseconds lands on the same grid points. |
| `calendar.dfy` | The proleptic Gregorian calendar: ticks ↔ year/month/day/hour/minute, proved in both directions. Also the range Python's `datetime` can hold (years 1 to 9999). |
| `ldap.dfy` | `convert_ldap`, and a NULL being turned into 0 by `fillna(0)`. |
| `samples.dfy` | `pd.concat` of the chunk tables, the column conversion, and `sort_values`. |
| `windows.dfy` | Minimum and maximum, the window partition (`period_range` + `range(len(idx) - 1)`), and the inclusive per-window filter. |
| `naming.dfy` | `strftime` with both timestamp formats, the chart title, and the image path. |
| `export.dfy` | The tag record, the SQL query, one tag's charts, and the whole run. |
| `scenarios.dfy` | Concrete instances on 2021-09-15. |

## Model

| member | source | states |
|---|---|---|
| Ldap.ConvertLdap | main.py:27-33 | Raw 0 and nothing else gives the missing marker. Every other raw count gives the instant `raw` ticks after 1601-01-01 exactly when Python's datetime can hold it. Otherwise the result is the overflow error, carrying the raw count. |
| Ldap.ConvertRoundTrip | main.py:27-33 | At tick precision a successful conversion loses nothing: the raw count can be read back from the stamp. The source keeps only microseconds (see Ldap.ConvertLdap under Left out). |
| Ldap.EncodeRoundTrip | main.py:27-33 | Every representable stamp except the 1601 epoch itself converts back from its raw count; the epoch's raw count 0 is taken as "missing". |
| Ldap.ConvertCell | main.py:97 | `fillna(0)` then `convert_ldap`. NULL and 0 both become the missing marker, and nothing else does. A non-zero count becomes the instant `raw` exactly when it is in the datetime range, and fails exactly when it is not. |
| Ticks.FloorWindow | main.py:105 | The result is a grid point at most t and less than one window below t. |
| Ticks.CeilWindow | main.py:106 | The result is a grid point at least t and less than one window above t. An instant on the grid stays where it is. |
| Ticks.FloorIsGreatest | main.py:105 | No grid point at or before t is later than the floor. |
| Ticks.CeilIsLeast | main.py:106 | No grid point at or after t is earlier than the ceiling. |
| Ticks.UnixFloorAgrees | main.py:105 | Flooring nanoseconds since 1970 to 8 hours, as pandas does, gives the same instant as flooring ticks since 1601. |
| Ticks.UnixCeilAgrees | main.py:106 | Ceiling nanoseconds since 1970 to 8 hours gives the same instant as ceiling ticks since 1601. |
| Ticks.AlignedUnique | main.py:104-108 | Two grid points less than one window apart are equal. |
| Calendar.YearWalk | main.py:30-32 | Finds the year of a day count, with the day inside that year's length. |
| Calendar.YearUnique | main.py:30-32 | The year and day-of-year of a day count are unique. |
| Calendar.MonthSearch | main.py:30-32 | Finds the month holding a day of the year. |
| Calendar.MonthUnique | main.py:30-32 | That month is unique. |
| Calendar.CivilOf | main.py:30-32 | The datetime fields of an instant are valid calendar fields and name exactly that instant. |
| Calendar.CivilOfTicksOf | main.py:30-32 | Valid calendar fields are recovered from the instant they name, so the two conversions are inverse. |
| Calendar.RangeYears | main.py:30-32 | Every instant in Python's datetime range falls in years 1 to 9999. |
| Calendar.EpochIsMidnight | main.py:30 | Tick 0 is 1601-01-01 00:00. |
| Calendar.UnixEpochIsMidnight | main.py:105-106 | The pandas anchor 1970-01-01 00:00 is tick 116444736000000000. |
| Samples.Concat | main.py:95 | The merged table has every row of every chunk, counted with multiplicity. |
| Samples.ConcatPlacesRows | main.py:95 | Row j of chunk i sits right after all rows of the earlier chunks, so chunk order and row order are kept. |
| Samples.DuplicatesKept | main.py:95 | A row present in two chunks appears at least twice after the merge; nothing is de-duplicated. |
| Samples.Normalize | main.py:97 | The column conversion succeeds iff every cell converts. Each value is kept beside its converted stamp, in order. On failure the error is that of the first failing row. |
| Samples.Insert | main.py:99 | Inserting into a sorted table keeps it sorted and adds exactly that sample. |
| Samples.SortByStamp | main.py:99 | The result is ordered by instant with missing stamps last, and it is a permutation of the input. |
| Samples.SortedMissingLast | main.py:99 | In a sorted table every sample with an instant comes before every missing one. |
| Windows.Earliest | main.py:101 | `min()` skipping missing stamps. It is absent iff every stamp is missing. Otherwise it is some sample's instant and no sample's instant is smaller. |
| Windows.Latest | main.py:102 | `max()` skipping missing stamps. It is absent iff every stamp is missing. Otherwise it is some sample's instant and no sample's instant is larger. |
| Windows.RangeDefinedTogether | main.py:101-102 | The minimum and maximum exist together, and the minimum is at most the maximum. |
| Windows.SortedEarliestIsFirst | main.py:99-101 | After sorting, a first row with an instant holds the minimum. |
| Windows.RangeIgnoresOrder | main.py:99-102 | Minimum and maximum depend only on the multiset of rows, so sorting does not change them. |
| Windows.Boundaries | main.py:104-108 | `period_range` from a lower bound on the grid (the floored minimum, which is all main.py passes). It gives aligned points 8 h apart, starting at the lower bound, with the last point at most the upper bound and less than 8 h below it. With an aligned upper bound, the last point is that bound. |
| Windows.PartitionFollowsBoundaries | main.py:104-115 | The windows are exactly the consecutive pairs of `period_range` points between the floor and the ceiling, one fewer than the points. |
| Windows.Partition | main.py:104-115 | (ceil − floor) / 8 h windows, each aligned and 8 h wide. The first starts at the floored minimum and the last ends at the ceiled maximum. Each starts where the previous ends. There are none iff minimum = maximum on the grid. |
| Windows.PartitionStart | main.py:113-115 | Window i starts i windows after the floored minimum. |
| Windows.SingleInstantOffGrid | main.py:104-115 | A single instant off the grid still gets exactly one window. |
| Windows.PartitionCovers | main.py:104-115 | Every instant between the floor and the ceiling lies in some window. |
| Windows.PartitionOverlap | main.py:113-119 | Two windows share an instant only if they are neighbours and the instant is their common boundary. |
| Windows.Filter | main.py:117-119 | A row is plotted iff start ≤ stamp ≤ stop, and with its full multiplicity. A missing stamp is never plotted. |
| Windows.FilterKeepsOrder | main.py:117-119 | The rows of a chart of a sorted table stay in time order. |
| Windows.FilterIgnoresOrder | main.py:117-119 | The rows a chart plots depend only on the multiset of the table, not on its order. |
| Windows.BoundarySampleInBoth | main.py:117-119 | A sample exactly on a shared boundary is plotted in both adjacent charts. |
| Windows.EverySampleCharted | main.py:101-119 | When there is a window, every sample with an instant is plotted in some chart. |
| Naming.Pad | main.py:17-18 | A zero-padded field has exactly its width and only digits. |
| Naming.PadRoundTrip | main.py:17-18 | Reading a padded field back gives the number written. |
| Naming.FormatStamp | main.py:17-18 | `%Y-%m-%d %H<sep>%M` is 16 characters, with '-', '-', ' ' and the separator at positions 4, 7, 10 and 13 and digits elsewhere. |
| Naming.ReadFormatted | main.py:17-18 | The formatted text reads back as the instant's year, month, day, hour and minute. |
| Naming.FileStampDashesTitle | main.py:17-18 | The file timestamp is the title timestamp with its colon replaced by a dash. It contains no colon. |
| Naming.DashColons | main.py:17-18 | Replaces every ':' by '-' and keeps every other character. |
| Naming.MinuteAlignedNoFraction | main.py:17-18 | An instant on a whole minute has no sub-minute part, so the minute format loses nothing. |
| Naming.FormatInjective | main.py:17-18 | Distinct whole-minute instants are formatted differently. |
| Naming.AlignedOnMinute | main.py:104-108 | Every grid point is on a whole minute. |
| Naming.Title | main.py:124-126 | The title is 37 characters longer than the tag name and starts with it. |
| Naming.FilePath | main.py:110-135 | The path has 2 × name + 49 characters, starts with `output/<name>/` and ends with `.png`. |
| Naming.TitleNamesWindow | main.py:124-126 | The title is the tag name, then ", ", then the start, " - " and the stop, each bound written in `TS_FORMAT` (so with its own '-', '-', ' ' and ':') and spelling that bound's year, month, day, hour and minute. |
| Naming.FilePathNamesWindow | main.py:110-135 | The image lies under `output/<name>/`. Its name is the tag name, ", ", the start, " - ", the stop and `.png`, each bound written in `TS_FORMAT_FILE` and spelling that bound to the minute. No colon appears after the tag name; a colon inside the tag name itself stays. |
| Naming.FilePathMirrorsTitle | main.py:124-135 | The file name is the title with its colons dashed, under the tag's folder, with `.png` appended. |
| Naming.DistinctWindowsDistinctFiles | main.py:113-135 | Different windows of one tag write different image files, so no chart overwrites another. |
| Export.Query | main.py:20-24 | The query returns (Value, pk_TimeStamp) of exactly the stored rows with that tag id, and no more rows than stored. |
| Export.QueryOne | main.py:20-24 | One stored row answers with itself iff its tag id matches, and with nothing otherwise. |
| Export.QueryAppend | main.py:20-24 | The answer for two stretches of storage is the first stretch's answer followed by the second's. With QueryOne, this fixes order and multiplicity row by row. |
| Export.TagChunks | main.py:83-93 | Entry i is the query result of chunk file i, for every chunk in order. |
| Export.SampleTable | main.py:95-99 | The table exists iff the merged rows all convert. It is then sorted, inside the datetime range, and a permutation of the converted merged rows. Otherwise it fails with the first conversion error. |
| Export.ChartFor | main.py:117-138 | The chart's title is Title and its path is FilePath, so they begin with the tag name and its folder. Its axis labels are 'Время' and the tag's y label. It plots exactly the table rows inside the window, each as many times as the table holds it. |
| Export.SortKeepsRange | main.py:99 | Sorting keeps every stamp in the datetime range. |
| Export.WindowsPrintable | main.py:104-108 | When the floored minimum and the ceiled maximum are in the datetime range, every window bound can be formatted. |
| Export.ExportTag | main.py:97-119 | A tag yields charts iff its table converts, it has an instant, and its ceiled maximum is in the datetime range. A conversion error is passed through. It fails with "no timestamps" iff the table converted and every stamp is missing. |
| Export.ExportTagCharts | main.py:101-138 | The number of charts times 8 h equals ceil(max) − floor(min). Chart i is titled, named and filled from the i-th window after the floored minimum, and no window is skipped even when it is empty. |
| Export.Collect | main.py:80 | All tags' charts in tag order, or the error of the first failing tag with every earlier tag succeeding. |
| Export.ExportAll | main.py:80-138 | The run succeeds iff every tag does. Chart set i is tag i's. Otherwise it fails with the first failing tag's error. |
| Export.OtherTagsIrrelevant | main.py:80-99 | A tag's charts depend only on the rows stored under its own tag id. |
| Export.SameTableSameCharts | main.py:101-138 | A tag's charts depend only on its sorted sample table. |
| Scenarios.ScenarioDates | main.py:30-32 | The scenario constants are 2021-09-15 at 00:00, 08:00 and 16:00. |
| Scenarios.ThreeSamplesTwoWindows | main.py:101-119 | Samples at 06:00, 10:00 and 15:00 give windows 00:00–08:00 and 08:00–16:00, holding one and two samples. |
| Scenarios.EmptyMiddleWindow | main.py:104-119 | Samples at 00:00 and 20:00 give three windows, and the middle one is charted empty. |
| Scenarios.SingleInstantOnBoundary | main.py:104-115 | A table whose only instant is on the grid gets no chart. |
| Scenarios.StampTexts | main.py:124-135 | 08:00 and 16:00 on 2021-09-15 in both formats. |
| Scenarios.TitleAndPathOfWindow | main.py:110-135 | The window 08:00–16:00 of tag 1H01A-TT02 is titled "1H01A-TT02, 2021-09-15 08:00 - 2021-09-15 16:00". It is written to "output/1H01A-TT02/1H01A-TT02, 2021-09-15 08-00 - 2021-09-15 16-00.png". |
| Scenarios.OverlappingChunksDoubleCount | main.py:95 | The same row stored in two chunks is counted twice after the merge. |

Behaviour worth noting:
- A tag whose observed instants all coincide at a point off the 8-hour grid
  gets one chart, not none. The floor and the ceiling differ, so
  `period_range` has two points (`Windows.SingleInstantOffGrid`). Only an
  instant exactly on the grid gives no chart.
- The window filter is inclusive at both ends, so a sample on a boundary is
  plotted twice (`Windows.BoundarySampleInBoth`).

## Left out

- SQLite access, file paths of the chunks and `sqlite3.connect` are left out. A chunk is its table's rows in storage order. Without an ORDER BY, SQLite does not promise any row order; the model assumes storage order (`Export.QueryAppend`). Every chart property holds for any order, because the table is sorted and the filter depends only on its multiset.
- `os.makedirs`, Plotly rendering, `write_image` and `IMAGE_SIZE` are left out. A chart is the data handed to them: title, path, axis labels and rows.
- The tag catalogue and the chunk list in the `__main__` block are configuration. They become the parameters of `Export.ExportAll`.
- Ldap.ConvertLdap: the model keeps the exact tick count. The source computes `timestamp / 10000000` as a float64 number of seconds, and `timedelta` then rounds it to microseconds. Near 2021 the float64 spacing of that quotient is 2^-19 s, about 1.9 µs, so the microsecond digit itself can change, and a count near a grid point can land exactly on it. This changes which windows plot that sample. When the sample is the tag's minimum or maximum, it can also change the floor or ceiling and so the number of windows. How far this reaches depends on the column's type. When no chunk returns a NULL stamp, the column is int64 and each cell reaches `convert_ldap` as a Python int, whose division is correctly rounded: a count 1.0 µs after 2021-09-15 08:00 becomes 08:00:00.000002, every count from 0.9 µs before to 0.9 µs after 08:00 gives 08:00, every count in the last 14.3 µs up to the maximum (MaxTicks − 142 to MaxTicks) raises OverflowError while the model accepts it, and counts up to 3.8 µs below the minimum (down to MinTicks − 38) convert while the model rejects them. When a chunk returns a NULL stamp, `read_sql_query` reads the column as float64 and `pd.concat` keeps it so. Each raw count is then first rounded to float64 (to a multiple of 16 ticks near 2021, of 512 near year 9999), and the bands are wider: 0.9 µs before 08:00 gives 07:59:59.999998 and 0.9 µs after gives 08:00:00.000002, only counts within 0.8 µs of 08:00 give 08:00, every count from MaxTicks − 246 to MaxTicks (24.7 µs) raises, and counts down to MinTicks − 32 (3.2 µs below the minimum) convert.
- Export.SampleTable: pandas' nanosecond `Timestamp` range (years 1677 to 2262) and column dtype inference are not modelled. The table holds any instant Python's `datetime` holds.
- Samples.SortByStamp: `sort_values` uses quicksort, which is not stable. The model fixes one stable order, and every property of the charts is stated on the multiset of rows (`Windows.FilterIgnoresOrder`, `Windows.RangeIgnoresOrder`), so it holds for any order pandas picks.
- Export.ExportTag: for a tag without a single instant, the converted column is all NaN floats, so `min()` gives NaN. `pd.to_datetime` turns that into NaT, `floor` keeps NaT, and `period_range` raises. The model reports this as the error `NoTimestamps` and does not model the exception type.
- Export.ExportTag: a ceiled maximum past year 9999 cannot be formatted. The model returns `BoundOutOfRange`, where pandas would fail earlier with its own range error.
- Naming.FormatStamp: `%Y` is modelled as four zero-padded digits. On glibc, `strftime('%Y')` does not pad years below 1000. The formatted bounds are pandas Timestamps, whose range (years 1677 to 2262) has only four-digit years, but the model's precondition admits years 1 to 999 too.
- Plotly's sorting of the x axis is not modelled. A chart's rows are given in table order, and they are in time order because the table is sorted (`Windows.FilterKeepsOrder`).
