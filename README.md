# weather-data in Dafny

A model of the three processing scripts of the weather-data repository, with proofs about each.
All three read NOAA GHCN-Daily data.

- **Station selection** (`scripts/pick-stations.py`).
  - Parses the fixed-width station list and the inventory.
  - Keeps the stations that have a state (US and Canadian ones).
  - Of those, keeps the ones whose inventory lines started before the given year and still report this year.
  - Keeps only the stations that track at least one element of the `CORE_TRACKING_ELEMENTS` table. The table is written out with them as the selected-stations document.
  - Modules `Stations` and `Config`.
- **The rolling 7-day aggregator** (`scripts/prepare-annual-weather-data.py`).
  - Buffers `date -> station -> element -> value` observations.
  - A cursor trails ten days behind the incoming dates.
  - Each step of the cursor finalises day `curr + 6`. It writes one row per selected station: the rounded average of each element over the seven days ending there, with the `-9999` sentinel and missing entries skipped.
  - Each step then deletes the oldest buffered day.
  - Per-year output files are rotated so that at most one is open.
  - A final drain finalises what is left.
  - Module `Window` holds the pure row computation. `Aggregator` holds one line and one step as a state transition. `Driver` holds `process_per_year_files` as a whole.
- **The anomaly picker** (`scripts/pick-anomalies.py`).
  - Reads the 7-day files back and keeps Sunday rows.
  - Respects a tracked-station limit.
  - Groups the values by (week of year, station, element) as compact comma-separated strings. A run of sentinels is spelt as `*` tokens from the precomputed `CONST_ZERO_LOOKUP` table.
  - Decodes each string and classifies it with `interpret`: a completeness gate, then sigma bands for average/sum elements, and a rate threshold for or_op elements.
  - Reports the first anomalous element of each group, in week-then-station order.
  - Modules `SeriesCodec`, `Classifier` and `Anomalies`.

Helper modules:
- `Wrappers`: Option and Result.
- `Order`: Python's string order, and `sorted` on the keys of a dict of strings or of ints.
- `Text`: Python's `strip`, clamped slicing, `split(',')`, `split()`, `','.join`, `str.replace`, `'%d'` and `int()`.

Dates are integer day numbers. The calendar functions are parameters:
- the year of a day, which must never fall and must rise by at most one from one day to the next;
- the week of year;
- the weekday;
- the parsing of a date string.

Output files are an event log of `Open(year)`, `Close(year)` and `Write(year, row)`.

`process_date` writes one row per selected station, each `date, station, value…`; there is no single line per date holding all stations.

## Model

| member | source | states |
|---|---|---|
| Config.CoreTableWellFormed | scripts/pick-stations.py:6-16 | every entry of `CORE_TRACKING_ELEMENTS` has agg_type average, sum or or_op and a positive interval |
| Config.CoreCodesSorted | scripts/pick-stations.py:6-16 | the table lists its codes in sorted order, so the column order the aggregator writes is the `sorted(selected_elements.keys())` order the anomaly picker reads |
| Stations.FilterStations | scripts/pick-stations.py:31-43 | a station is kept iff its element set meets the core codes; a kept entry has `station` equal to its key, lat/lon/start/name copied and `latest` equal to the end year; its `elements` are strictly ascending and list exactly the shared codes, all core keys |
| Stations.BuildNameMap | scripts/pick-stations.py:50-57 | the loop's map equals `NameMap` of the parsed station lines |
| Stations.NameMapKeys | scripts/pick-stations.py:53-57 | a station is in the name map iff some line for it has a non-empty trimmed state field |
| Stations.NameMapValue | scripts/pick-stations.py:55-57 | the stored name is the trimmed name field of the last line for that station with a state |
| Stations.ParseInventoryLine | scripts/pick-stations.py:64-69 | an inventory line parses iff both year fields are integers; the station is `line[0:11]` trimmed and the element is `line[31:35]` |
| Stations.BuildInventory | scripts/pick-stations.py:62-77 | the loop's result equals `InventoryMap` of the parsed inventory lines (None where `int()` raises) |
| Stations.InventoryKeys | scripts/pick-stations.py:72-77 | a station has details iff some line for it qualifies: in the name map, start year below `start_year`, end year equal to the current year |
| Stations.InventoryElements | scripts/pick-stations.py:75-76 | a station's element set is exactly the union of the element codes of its qualifying lines |
| Stations.InventoryLatest | scripts/pick-stations.py:73-77 | lat, lon, start and end come from the last qualifying line, and the name from the name map |
| Stations.NoneStaysNone | scripts/pick-stations.py:63-69 | once a line fails to parse, the whole inventory read fails |
| Stations.SelectedQualify | scripts/pick-stations.py:72-81 | every selected station has a state, a start year before `start_year`, a latest year equal to the current year, and the name from the station list |
| Stations.PickStations | scripts/pick-stations.py:47-85 | the document is absent iff the inventory read fails; otherwise it pairs `FilterStations` of the inventory map with exactly `CORE_TRACKING_ELEMENTS` |
| Window.AddData | scripts/prepare-annual-weather-data.py:38-45 | the triple (date, station, element) now holds the value, every other triple is unchanged, and the buffer's days gain that date |
| Window.TrailingHolds | scripts/prepare-annual-weather-data.py:15-25 | the values gathered for a station and element are exactly the buffered non-sentinel values of days `p-6..p`: each value occurs as many times as there are days that read it, missing entries are skipped and the sentinel never appears |
| Window.TrailingLocal | scripts/prepare-annual-weather-data.py:17-21 | the gathered values depend only on the buffer's readings on the seven days |
| Window.RoundHalfEven | scripts/prepare-annual-weather-data.py:28 | the result is within half of `num/den`, and on a tie it is even (Python's `round`) |
| Window.RoundHalfEvenUnique | scripts/prepare-annual-weather-data.py:28 | any integer within half of `num/den` that is even on a tie is `RoundHalfEven(num, den)` |
| Window.ElementValueBetween | scripts/prepare-annual-weather-data.py:27-30 | the rounded average of a non-empty window lies between its smallest and its largest value |
| Window.RowsPerStation | scripts/prepare-annual-weather-data.py:11-34 | day p's rows are one per selected station, in strictly ascending station order, each dated p and with one value per selected element |
| Window.RowsOfHolds | scripts/prepare-annual-weather-data.py:12-31 | the i-th row is the i-th sorted station with its element values in `selected_elements` order |
| Window.RowsLocal | scripts/prepare-annual-weather-data.py:17-21 | day p's rows depend only on the buffer's days `p-6..p` |
| Window.DeleteOldest | scripts/prepare-annual-weather-data.py:98-119 | deleting a day older than `p-6` leaves day p's rows unchanged |
| Window.ComputeElement | scripts/prepare-annual-weather-data.py:16-30 | the inner loop's value is the rounded average of the window's valid values, 0 for none |
| Window.ComputeRow | scripts/prepare-annual-weather-data.py:15-30 | the element loop yields `RowValues` of the station |
| Window.ProcessDate | scripts/prepare-annual-weather-data.py:7-34 | the station loop yields `Rows` of the day |
| Aggregator.RowsAtDated | scripts/prepare-annual-weather-data.py:11-34 | every row finalised for day p carries date p |
| Aggregator.WritesAre | scripts/prepare-annual-weather-data.py:33 | the i-th event is the write of the i-th row to the handle of the given year, one event per row |
| Aggregator.WritesKeep | scripts/prepare-annual-weather-data.py:33 | writing rows opens and closes nothing, and rows of the open handle's year keep the handle history well formed |
| Aggregator.RotationKeeps | scripts/prepare-annual-weather-data.py:88-95 | with at most the previous year's handle open, rotating to year Y leaves exactly Y open, keeps the history well formed and opens no later year |
| Aggregator.Rotate | scripts/prepare-annual-weather-data.py:88-95 | the handles become `Rotated` and the log gains `Rotation`: close Y-1 if open, open Y, unless Y is already open |
| Aggregator.HandlesAfterStep | scripts/prepare-annual-weather-data.py:87-97 | after a step for day p exactly p's year is open, and the history stays well formed with no later year created |
| Aggregator.CursorAfterStep | scripts/prepare-annual-weather-data.py:98-99 | a step deletes the cursor's day, advances the cursor by one and extends the finalised days by `curr + 6`, keeping the cursor invariant |
| Aggregator.StepKeeps | scripts/prepare-annual-weather-data.py:86-99 | a step keeps the driver's invariant when the cursor's day is buffered; its handles are just the finalised day's year |
| Aggregator.Step | scripts/prepare-annual-weather-data.py:86-99 | the step succeeds iff the cursor's day is buffered (else `del` raises `KeyError`), and its new state is `StepState` |
| Aggregator.Ingest | scripts/prepare-annual-weather-data.py:72-102 | one line's outcome and new state are `IngestState` |
| Aggregator.AddKeeps | scripts/prepare-annual-weather-data.py:101-102 | storing an observation not before the cursor keeps the cursor invariant |
| Aggregator.FirstKeeps | scripts/prepare-annual-weather-data.py:83-84 | the first accepted line sets the cursor to its own date and writes nothing |
| Aggregator.StepObservationKeeps | scripts/prepare-annual-weather-data.py:86-102 | a line at least 10 days past the cursor steps once; afterwards the cursor is at most `line_date - 9` and the invariant holds |
| Aggregator.StayObservationKeeps | scripts/prepare-annual-weather-data.py:86-102 | a line less than 10 days past the cursor writes nothing and keeps the invariant |
| Aggregator.IngestKeeps | scripts/prepare-annual-weather-data.py:72-102 | each line keeps the handle history well formed; a line that succeeds keeps the invariant, and the finalised days grow by `curr + 6` exactly when the line steps the cursor |
| Aggregator.Drain | scripts/prepare-annual-weather-data.py:107-120 | the drain steps while `last ≥ curr + 6`, logging exactly the steps' events and dropping exactly the stepped days; it succeeds exactly when every day from the cursor up to the last accepted date − 6 is buffered (`DrainClear`), and a failure stops at the first day that is not (`DrainFailed`); a drain that succeeds found every stepped day buffered and keeps the invariant, and if it finalised anything the last day is the last accepted date; with no accepted line it fails (`line_datetime` unbound) |
| Aggregator.DrainClearExample | scripts/prepare-annual-weather-data.py:107-119 | cursor at day 0 and last accepted date 6: the drain fails when day 0 has no entry and succeeds when it has one |
| Aggregator.DrainDone | scripts/prepare-annual-weather-data.py:107 | when the drain stops, `last < curr + 6` and everything it promised holds |
| Aggregator.DrainFail | scripts/prepare-annual-weather-data.py:118-119 | a drain step whose cursor day is not buffered writes its rows, then fails with the history still well formed |
| Aggregator.StepsLogNext | scripts/prepare-annual-weather-data.py:108-120 | the events of the drain's steps from c0 to c+1 are those up to c followed by step c's rotation and writes |
| Driver.CloseAll | scripts/prepare-annual-weather-data.py:123-124 | closes every open handle exactly once |
| Driver.CloseKeeps | scripts/prepare-annual-weather-data.py:123-124 | closing distinct open handles removes exactly them and keeps the history well formed |
| Driver.DrainedDays | scripts/prepare-annual-weather-data.py:107-120 | for non-decreasing dates, nothing is finalised iff the last date is under six days after the first, and otherwise the last day finalised is the last accepted date |
| Driver.ProcessPerYearFiles | scripts/prepare-annual-weather-data.py:53-124 | the run fails exactly when some line fails (`LinesOutcome`, the state it leaves being the one returned), when no line was accepted, or when the drain fails, i.e. when some day from the cursor the lines left up to the last accepted date − 6 has no entry (`DrainClear`, with `DrainFailed` describing the stop); the handle history is always well formed: at most one file open, each year's file created once, each row written to the file of its own year; a successful run ends with no handle open, its finalised days run consecutively from the first accepted date + 6, and it wrote one row per finalised day and selected station in day-then-sorted-station order; when dates never decrease the last finalised day is the last accepted date and the rows written are exactly `process_date`'s rows for those days computed from all accepted observations |
| Driver.LinesOutcomeStops | scripts/prepare-annual-weather-data.py:66-102 | once a line fails, the lines after it change nothing: the outcome of all lines is that failure, as an uncaught exception ends the loop |
| Driver.ReadLine | scripts/prepare-annual-weather-data.py:66-102 | one line's outcome and new state are exactly `IngestState` of its parsed record, and a line taken keeps the driver's invariant one line further |
| Driver.ReadLines | scripts/prepare-annual-weather-data.py:66-102 | the loop over the lines returns exactly `LinesOutcome`: the state after the last line, or after the first line that fails |
| Driver.OutputNext | scripts/prepare-annual-weather-data.py:72-102 | each accepted line keeps the written rows equal to the rows of the finalised days, computed from all observations accepted so far, and keeps the live buffer in agreement with those observations from the cursor on |
| Driver.RunOutputDone | scripts/prepare-annual-weather-data.py:107-124 | after the drain and the closing of the handles the rows written are one per finalised day and station, and, for non-decreasing dates, `process_date`'s rows of all finalised days from all accepted observations |
| Output.WrittenWrites | scripts/prepare-annual-weather-data.py:33 | writing rows to a handle writes exactly those rows |
| Output.FinalisedSlots | scripts/prepare-annual-weather-data.py:11-34 | whatever the buffer, the rows of a run of days are one per day and selected station, days in order and stations sorted within a day |
| Output.FinalisedLocal | scripts/prepare-annual-weather-data.py:15-21 | the rows of days `lo..hi-1` read only the buffered days `lo-6..hi-1` |
| Output.FinalisedAdd | scripts/prepare-annual-weather-data.py:101-102 | storing an observation of a day not before `hi` leaves the rows of the days before `hi` unchanged |
| Output.AgreeDelete | scripts/prepare-annual-weather-data.py:98-99 | deleting the cursor's day keeps the live buffer equal to all observations from the next day on |
| Output.StepsWritten | scripts/prepare-annual-weather-data.py:86-120 | the steps of the cursor from c0 to c1 write exactly the rows of days `c0+6..c1+5` computed from the buffer |
| Output.StepsOutput | scripts/prepare-annual-weather-data.py:86-120 | steps of the cursor extend the rows written by the next days' rows, computed from the accepted observations when the live buffer agrees with them from the cursor on |
| SeriesCodec.GenerateConstZeroList | scripts/pick-anomalies.py:8-16 | the table maps '' to '\*' and each run of 1 to 25 stars to the run one longer, and holds nothing else |
| SeriesCodec.ZeroLookupEntries | scripts/pick-anomalies.py:8-16 | the table's keys are exactly the runs of 0 to 25 stars, each mapped to the next run |
| SeriesCodec.SentinelsAreStars | scripts/pick-anomalies.py:168-170 | up to 26 sentinels in a row are encoded as a run of as many stars |
| SeriesCodec.RoundTrip | scripts/pick-anomalies.py:168-194 | decoding (stars back to -9999, split on commas, `int`) the encoding of any non-empty series gives back that series, sentinels included |
| SeriesCodec.ParseNumerals | scripts/pick-anomalies.py:194 | parsing the `'%d'` numerals of a series gives the series back |
| Classifier.Trimmed | scripts/pick-anomalies.py:73 | the trimmed points are exactly the non-sentinel points of the data |
| Classifier.TrimmedCounts | scripts/pick-anomalies.py:73 | trimming keeps each non-sentinel point as many times as it occurs and drops every sentinel (as multisets) |
| Classifier.Interpret | scripts/pick-anomalies.py:69-126 | a verdict is anomalous iff it has details, and its details carry the element and the whole data |
| Classifier.InBand | scripts/pick-anomalies.py:86-88 | a band holds exactly the non-sentinel points whose squared deviation exceeds k² times the variance |
| Classifier.BandsNested | scripts/pick-anomalies.py:83-102 | for an anomaly, `_3sigma ⊆ _2sigma ⊆ _1sigma ⊆ trimmed` as multisets, and no band holds the sentinel |
| Classifier.SigmaRule | scripts/pick-anomalies.py:74-105 | for average/sum: a share under 0.33 gives not anomalous with no details; otherwise all-sentinel data raises, and any other data is anomalous iff some point is more than 2 standard deviations from the mean |
| Classifier.RateRule | scripts/pick-anomalies.py:107-121 | for or_op: anomalous iff `len(data)/interval < 0.2`, with rate details (no mean or deviation) |
| Classifier.Faults | scripts/pick-anomalies.py:70-124 | `interpret` raises iff the element is missing, its interval is 0, its agg_type is unknown, or it is average/sum past the gate with no valid point |
| Classifier.ConstantNotFlagged | scripts/pick-anomalies.py:83-105 | with constant data (σ = 0) nothing is flagged |
| Classifier.FewPointsNotFlagged | scripts/pick-anomalies.py:83-105 | an average/sum series with at most 5 valid points is never flagged, since by Samuelson's inequality no point can lie strictly beyond 2σ |
| Anomalies.ReadValuesSpec | scripts/pick-anomalies.py:53-56 | the element columns parse iff every column `2+j` exists and is an integer, and element `keys[j]` gets column `2+j` |
| Anomalies.ParseLineSpec | scripts/pick-anomalies.py:42-59 | a line parses iff it has a date and a station word, the date parses and every element column parses; then the date, station, week, weekday and values are those columns |
| Anomalies.ParseLine | scripts/pick-anomalies.py:47-57 | a parsed line's values are keyed by exactly the selected elements |
| Anomalies.AcceptedAreSundays | scripts/pick-anomalies.py:152-154 | only parsed rows with weekday 6 contribute |
| Anomalies.NoLimitTakesAll | scripts/pick-anomalies.py:157-184 | with a limit ≤ 0 every Sunday row contributes and no station is tracked |
| Anomalies.LimitHolds | scripts/pick-anomalies.py:157-184 | with a limit n > 0 at most n stations are tracked, and every contributing row's station is tracked |
| Anomalies.FullDropsOthers | scripts/pick-anomalies.py:157-159 | once n stations are tracked, a row of an untracked station changes nothing |
| Anomalies.AddRowAt | scripts/pick-anomalies.py:163-176 | a row appends its value to each of its non-ignored elements' cells and leaves every other cell alone |
| Anomalies.CollectContents | scripts/pick-anomalies.py:161-179 | the (week, station, element) cell exists iff its series of contributing values is non-empty, and it is the encoding of that series in input order |
| Anomalies.AppendWithTable | scripts/pick-anomalies.py:168-176 | the table lookup or the `'%d'` formatting gives `Append` of the cell and the value |
| Anomalies.AppendElements | scripts/pick-anomalies.py:163-176 | the element loop gives `AddValues` of the data map |
| Anomalies.AcceptRow | scripts/pick-anomalies.py:157-184 | the limit test, the cell updates and the tracking give `Accept` of the collection |
| Anomalies.CollectSeries | scripts/pick-anomalies.py:133-184 | the line loop gives `Collect` of the parsed lines |
| Anomalies.VerdictSpec | scripts/pick-anomalies.py:195-205 | a series is reported iff it has a valid point and `interpret` finds it anomalous, with `interpret`'s details; the check raises iff it has a valid point and `interpret` raises; all-sentinel series are skipped |
| Anomalies.CheckEncoded | scripts/pick-anomalies.py:168-199 | checking the encoding of a series checks that series itself |
| Anomalies.FirstAnomalyDecided | scripts/pick-anomalies.py:191-205 | a group's element loop finds nothing iff no element is anomalous or raising; otherwise it yields the verdict of the first such element in sorted order |
| Anomalies.FirstAnomalyIsFirst | scripts/pick-anomalies.py:191-205 | the loop's verdict is that of the first element whose check is not 'nothing found' |
| Anomalies.ScanStationsSpec | scripts/pick-anomalies.py:190-205 | a week's station loop fails iff some group fails, and otherwise reports exactly its stations with an anomalous group |
| Anomalies.ScanWeeksOrdered | scripts/pick-anomalies.py:189-190 | reports come out ordered by week and then station, so a group yields at most one |
| Anomalies.ScanSpec | scripts/pick-anomalies.py:189-205 | the scan fails iff some group's check raises an exception that escapes; otherwise it reports every group with an anomalous element, with the first such element's details, nothing else, in week-then-station order |
| Anomalies.GroupFromSeries | scripts/pick-anomalies.py:161-205 | a group holds exactly the elements that took a value in one of its contributing rows, and its verdict is that of the first such element, in sorted order, whose series `Verdict` does not skip |
| Anomalies.ReportedFromSeries | scripts/pick-anomalies.py:161-205 | the scan fails iff for some week and station the first non-skipped element's series makes `interpret` raise; otherwise a week and station is reported with given details iff that first element is anomalous on its series with those details |
| Anomalies.PickedFromSeries | scripts/pick-anomalies.py:161-205 | every reported anomaly is `interpret`'s anomalous verdict on exactly the values its element took in the contributing Sunday rows of its week and station |
| Anomalies.ScanGroup | scripts/pick-anomalies.py:191-205 | the element loop with its `break` gives the group's verdict |
| Anomalies.ScanWeek | scripts/pick-anomalies.py:190-205 | the station loop gives the week's scan over its stations in sorted order |
| Anomalies.ScanAll | scripts/pick-anomalies.py:188-205 | the week loop gives the whole `Scan` |
| Anomalies.PickAnomalies | scripts/pick-anomalies.py:133-205 | building the table, collecting and scanning gives `Scan` of `Collect` of the parsed lines |

## Left out

- Files, `gzip`, `json`, `argparse`, `print` progress output, `main`, `prepare_output_handle`, `retrieve_selected_details` and `get_selected_stations_filename` are filesystem plumbing.
  - Input files are sequences of lines; the yearly files are read as one concatenated sequence.
  - Output files are an event log.
  - The selected-stations document is a value.
- `get_size` inspects interpreter memory and has no meaning here.
- `datetime`:
  - `strptime`, `isocalendar`, `weekday` and the calendar year of a day are function parameters;
  - `datetime.today()` is the `currentYear` parameter.
- Floating point:
  - `statistics.mean` and `pstdev` are exact real arithmetic;
  - `abs(x - mean) > k * stddev` is compared on squares;
  - the share `float(len(data)) / float(interval)` at scripts/pick-anomalies.py:74 is compared with `0.33` (line 79) and `0.2` (line 110) as exact rationals. A share n/m other than the threshold itself differs from it by at least 1/(100·m), far more than a double's rounding error, so the two comparisons agree for every interval below 10^13;
  - `float()` of lat/lon is kept as the raw text.
- Window.ElementValue: `round(sum(values)/len(values))` at scripts/prepare-annual-weather-data.py:28 divides in floating point; the model rounds the exact rational quotient half to even. The two agree while the quotient is exact enough in a double (a sum below about 2^50 in magnitude over at most 7 values), which GHCN-Daily values are far from reaching.
- Classifier.SigmaClassify: the `std_dev` field of the details at scripts/pick-anomalies.py:95 holds σ; the model's `SigmaDetails.variance` field reports σ² instead, since the square root is not computed exactly.
- Stations.ParseInventoryLine: a line whose lat/lon text is not a float makes `float()` at scripts/pick-stations.py:65-66 raise, which ends the whole read; the model keeps the raw text and parses such a line, so its iff is weaker than the source on that input.
- The progress `print` at scripts/prepare-annual-weather-data.py:68-69 calls `curr_datetime.date()`; if a yearly file reaches its 1,000,000th line before any observation was accepted, `curr_datetime` is still `None` and the source raises `AttributeError`. The model leaves out the progress output and with it this failure.
- `line.decode('utf-8')`: lines are already strings. Python's whitespace is its ASCII subset. `int()` is modelled as an optional sign and ASCII digits only: no underscores and no Unicode digits.
- Anomalies.ParseLine: a selected element named `DATE`, `WOY`, `DOW` or `STATION` would overwrite that column in the source's dictionary. The model keeps the values apart from those four columns.
- Anomalies.PickAnomalies:
  - Of the `ValueError`s the scan catches, the model covers the failed `int` parse of a cell, which the round trip shows cannot happen, and `statistics.mean([])`. Both are skipped.
  - A missing element, a zero interval or an unknown agg_type escapes as a `Failure`.
  - The caught error's message is not modelled.
- Aggregator.Ingest: a line whose value is not an integer ends the run, as the uncaught `ValueError` of `int(cols[3])` does. So does a line whose date does not parse, or whose station matches but which has fewer than three columns.
- Driver.ProcessPerYearFiles:
  - a run that ends in an exception is reported as `ok == false` with the state reached so far;
  - the `line_datetime` a drain would see unbound when no line was accepted is reported the same way;
  - the `close()` calls are `Close` events.
- Driver.ProcessPerYearFiles, Aggregator.Drain: the consecutive finalised days are promised only where the accepted dates never decrease. Out-of-order input can let the cursor pass the last date, and the drain then does nothing.
- The aggregator averages every element over 7 days and writes `0` when no value is found; it has no sum, or_op, per-element interval or sentinel-on-empty aggregation, so neither has the model.
- Output rows are values (date, station, integers), not tab-separated text.
- Dict iteration order appears only where the source sorts the keys.
  - `for element in columns` in the grouping loop touches each element's cell independently, so its order does not matter.
  - The column order the aggregator writes is the order of `CORE_TRACKING_ELEMENTS`, which Config.CoreCodesSorted shows is sorted.
