# Sensor readings: admission and aggregation

A Dafny model of the logic of a small sensor-reading web service. Devices post
readings as `(device_uuid, type, value, date_created)`. A validator admits a
reading only if its type is exactly `temperature` or `humidity` and its value
lies in 0..100. Clients then list a device's readings and search the table by
type or by creation-date range. They can also ask for per-device aggregates:
the maximum, the high median (with every reading that carries it), the mean,
the first and third quartiles, and a summary record for every device.

The SQLite `readings` table is a sequence of `Reading` rows, and a committed
insert is an append. Each `select ... where` is modelled as the comparison it
is meant to make (the device id, type or dates taken as literal values),
applied as an order-preserving filter over that sequence.

The modules follow the structure of the program:

- `Wrappers`: `Option`. It stands for SQL `NULL` and for the exceptions the
  statistics libraries raise on an empty list.
- `Sequences`: a generic order-preserving `Filter` and its algebra.
- `Validators`: `reading_is_valid`, `is_valid_type` and the error constants.
- `Readings`: the row datatype and the `where` selections.
- `Statistics`: sorting, max/min, sum, `statistics.median_high`,
  `statistics.mean` and `np.quantile` with its default `linear` method. That
  method is Hyndman and Fan definition 7: the rank is `p * (n - 1)`, and the
  result interpolates linearly between the two sorted values around that rank.
- `Queries`: the search endpoint's option dispatch and the interface's
  day-granularity date range.
- `Aggregation`: the per-device max, the median selection and the summary
  record.
- `Store`: the class `ReadingStore`, whose `rows` field is the table. Its
  methods are the write path and the aggregation handlers, including the
  loops that collect the value column and build the summary.

The mean and the quartiles are exact rationals (`real`). The quantile
probability `p` is the exact fraction `num / den`.

## Model

| member | source | states |
|---|---|---|
| Validators.ReadingIsValid | sensors/validators/validators.py:11-17 | Accepts exactly when the type is one of the two known types and 0 <= value <= 100. On success the code is ""; on failure it is a member of READINGS_TYPES_ERRORS. An unknown type gives NOT_VALID_TYPE; a known type with an out-of-range value gives READING_OUT_OF_RANGE. |
| Validators.IsValidType | sensors/validators/validators.py:20-24 | Succeeds exactly for the two known types, with code ""; otherwise the code is NOT_VALID_TYPE. |
| Validators.TypeCheckAgrees | sensors/validators/validators.py:11-24 | For every value, `is_valid_type` accepts a type exactly when `reading_is_valid` does not reject it with NOT_VALID_TYPE. |
| Validators.TypeCheckFirst | sensors/validators/validators.py:12-13 | An unknown type gives (False, NOT_VALID_TYPE) whatever the value, so the type check takes precedence over the range check. |
| Validators.RangeBoundaries | sensors/validators/validators.py:14-17 | 0 and 100 are admitted; -1 and 101 are rejected as out of range; an unknown type is rejected as a type. |
| Validators.TypeIsCaseSensitive | sensors/validators/validators.py:1-4 | "Temperature" and "HUMIDITY" are not known types, because matching is exact. |
| Sequences.Filter | app.py:449 | The result keeps exactly the elements that satisfy the predicate, each as many times as it occurs in the input, and is no longer than the input. |
| Sequences.FilterConcat | app.py:449 | Filtering a concatenation gives the concatenation of the filtered parts, so input order is kept. |
| Sequences.FilterPermutation | app.py:449 | Inputs with equal multisets give filtered results with equal multisets and lengths. |
| Sequences.FilterKeepsAll | app.py:449 | A filter that every element passes returns its input unchanged. |
| Sequences.FilterDropsAll | app.py:449 | A filter that no element passes returns the empty sequence. |
| Readings.ByDevice | app.py:335-339 | The listing of a device holds exactly the stored rows with that device_uuid, each with its stored multiplicity, and no other rows. |
| Readings.OfType | app.py:369 | Exactly the rows of the given type, each with its stored multiplicity. |
| Readings.CreatedBetween | app.py:375-376 | Exactly the rows with start <= date_created <= end, both bounds inclusive, each with its stored multiplicity. |
| Readings.WithValue | app.py:449 | Exactly the rows whose value equals the given one, each with its stored multiplicity. |
| Readings.ByDeviceAppend | app.py:324-339 | After a row is appended, its device's listing gains exactly that row at the end; every other device's listing is unchanged. |
| Readings.Values | app.py:444-445 | The value column: one value per row, in row order. |
| Readings.ValueListed | app.py:444-445 | The value of every fetched row appears in the value list. |
| Readings.ValueHasRow | app.py:444-445 | Every value in the value list comes from some fetched row. |
| Readings.DistinctDevices | app.py:552-553 | `select distinct device_uuid` lists every stored device and nothing else, without repetition. |
| Readings.DeviceHasRows | app.py:552-561 | A device that `select distinct` lists has at least one reading. |
| Statistics.Sort | app.py:447 | The result is ascending and is a permutation of the input. This is the sorting done inside `median_high` and `np.quantile`; by SortedUnique it is also what the handlers' `order by value` (app.py:437) yields. |
| Statistics.SortedUnique | app.py:437 | Two ascending sequences with the same multiset are equal, so the sorted order of a set of values is unique. |
| Statistics.SortIgnoresOrder | app.py:437 | Inputs with the same multiset sort to the same sequence. |
| Statistics.SortOfSorted | app.py:437 | Sorting an ascending sequence leaves it unchanged. |
| Statistics.Max | app.py:561 | SQL `max(value)` over a non-empty group is one of the values and bounds all of them. |
| Statistics.Mean | app.py:487 | `mean` over a non-empty list, sum / count, lies between min and max. |
| Statistics.MedianHigh | app.py:447 | `median_high` returns one of the values. |
| Statistics.MedianHighIsRank | app.py:447 | A value is the high median exactly when it occurs in the list, at most n div 2 values are below it, and at most n - 1 - n div 2 are above it. Both directions are proved. |
| Statistics.MedianHighOfSorted | app.py:437-447 | On ascending values the high median is the element at index n div 2. |
| Statistics.MedianHighEvenExample | app.py:447 | For an even count the high median is the larger middle value: [10,20,30,40] gives 30. |
| Statistics.MedianHighOddExample | app.py:447 | For an odd count it is the middle value: [10,20,30] gives 20. |
| Statistics.MeanExample | app.py:487 | The mean of [10,20,30] is 20. |
| Statistics.LowIndex | app.py:524-525 | The lower bracketing index is a valid index. |
| Statistics.LowIndexIsFloor | app.py:524-525 | The lower bracketing index is the floor of the rank p * (n - 1). |
| Statistics.Gamma | app.py:524-525 | The interpolation weight lies in [0, 1). |
| Statistics.GammaIsFraction | app.py:524-525 | The weight is the fractional part of the rank: LowIndex + Gamma equals p * (n - 1). |
| Statistics.HighIndex | app.py:524-525 | The upper bracketing index is a valid index. |
| Statistics.RankMonotone | app.py:524-525 | A larger p never gives a smaller lower index, and on the same lower index never a smaller weight. |
| Statistics.Quantile | app.py:524-525 | `np.quantile` over a non-empty list lies between min and max. |
| Statistics.QuantileBracketed | app.py:524-525 | The quantile lies between the two sorted values around its rank. |
| Statistics.QuantileMonotone | app.py:524-525 | A larger p never gives a smaller quantile. |
| Statistics.QuantileOfSorted | app.py:524-525 | On ascending values the quantile interpolates, with weight Gamma, between the elements at LowIndex and HighIndex. |
| Statistics.QuartilesOrdered | app.py:524-525 | min <= q1 <= q3 <= max. |
| Statistics.QuartileRanksOfTen | app.py:524-525 | For ten values, q1 sits at rank 2.25 and q3 at rank 6.75. |
| Statistics.FirstQuartileExample | app.py:524 | q1 of 1..10 is 3.25. |
| Statistics.ThirdQuartileExample | app.py:525 | q3 of 1..10 is 7.75. |
| Statistics.AggregatesIgnoreOrder | app.py:437-447 | Max, high median, mean and every quantile depend only on the multiset of values, not on the order in which the rows arrive. |
| Queries.Search | app.py:365-378 | Option "type": a rejected type gives BadRequest(NOT_VALID_TYPE); a known type gives exactly the rows of that type. Option "range": exactly the rows with start <= date_created <= end. Each returned row appears as often as it is stored. Any other option gives BadRequest(NOT_VALID_SEARCHING_TYPE). Every error code is one of the declared constants. |
| Queries.InvalidTypeIgnoresRows | app.py:365-371 | A rejected type search answers 400, and the answer does not depend on the table. |
| Queries.UiRangeBounds | app.py:151-159 | The start bound is the start of the start day. The end bound is the last second of the end day: at least day + 86399 and below the next day's start. |
| Queries.UiRangeSearch | app.py:151-159 | A reading is returned exactly when it was created between the first second of the start day and the end of the end day; nothing from the following day is returned. |
| Queries.SingleDayExample | app.py:151-159 | A one-day search keeps a reading from 23:59:00 and drops one from 00:00:01 of the next day. |
| Aggregation.DeviceMax | app.py:407-412 | NULL (None) exactly when the device has no rows. Otherwise the maximum is the value of one of the device's rows and bounds every value of that device. |
| Aggregation.MedianRecords | app.py:447-452 | For a device with readings, the result is non-empty and holds exactly the readings whose value equals the high median of the device's values, each with its stored multiplicity. |
| Aggregation.SummarizeDevice | app.py:559-586 | A device without rows has no summary. Otherwise the count is the number of its readings and is at least 1. The max, median, mean, q1 and q3 are Max, MedianHigh, Mean and the quantiles at 1/4 and 3/4 of the device's values. Max bounds every value, median <= max, min <= q1 <= q3 <= max, and min <= mean <= max. |
| Aggregation.SummaryWithinDomain | app.py:559-586 | If every stored row was admitted by the validator, every aggregate of a device lies in 0..100. |
| Store.CollectValues | app.py:444-445 | The append loop produces exactly the value column of the fetched rows, in order. |
| Store.ReadingStore.PostReading | app.py:313-332 | A valid reading appends exactly one row, with date_created defaulting to now, and answers ("success", 201). An invalid reading leaves the table unchanged and answers (validator's code, 400). The invariant that every stored row is admissible is preserved. |
| Store.ReadingStore.MedianReadings | app.py:437-452 | No answer (the library raises) exactly when the device has no rows. Otherwise the answer is MedianRecords of the device's readings: non-empty, and holding exactly the device's readings whose value is the high median, each as often as it is stored. |
| Store.ReadingStore.MeanReading | app.py:477-490 | No answer exactly when the device has no rows. Otherwise the answer is sum / count of the device's values and lies between their min and max. |
| Store.ReadingStore.QuartileReadings | app.py:514-528 | No answer exactly when the device has no rows. Otherwise the answer is the quantiles at 1/4 and 3/4 of the device's values, with min <= q1 <= q3 <= max. |
| Store.ReadingStore.DeviceEntry | app.py:560-586 | The record built for a listed device is that device's summary. |
| Store.ReadingStore.Summary | app.py:552-588 | One entry per distinct device (listed in first-appearance order, an order the model chooses), with no device repeated and no stored device missing. Each entry is that device's summary, with count >= 1 and median <= max. On a store whose invariant holds (every row admitted), every entry's median, max, mean and quartiles lie in 0..100. |
| Store.SummaryCoversDevices | app.py:552-588 | Entries that follow the distinct-device list name every stored device exactly once. |

## Left out

- HTTP routing, JSON encoding (`jsonify`), templates, redirects and the
  interface handlers that call the API internally are left out. They are
  transport and presentation only.
- The string-formatted SQL is not modelled as written. The handlers put the
  device id (and the search type) between double quotes, which SQLite reads
  as a column name when one matches: device `device_uuid` would list every
  row, and device `value` would compare against the value column. A `"`
  inside the id breaks the query. The model compares against the id as a
  literal string, which is what the queries are meant to do.
- The order of rows from a query without `order by` is not promised by SQL.
  The model returns rows in insertion order.
- Readings.DistinctDevices: lists devices in order of first appearance. The
  `select distinct device_uuid` query has no `order by`, so the source fixes
  no order; only the set of devices and the absence of repeats are promised.
- Store.ReadingStore.PostReading: takes `value` as an integer. The source
  validates `int(value)` but stores the raw posted value, so a JSON value
  such as 100.5 or -0.5 passes validation and is stored as sent. The store
  invariant that every stored row is admissible, and
  Aggregation.SummaryWithinDomain, rely on `value` being an integer.
  The posted `date_created` is likewise taken as an integer when present, and
  `None` stands only for an absent key. An explicit JSON `null` (which the
  source stores as SQL NULL, a row no range search matches, rather than the
  current time) and a string or float `date_created` (stored as sent) are not
  modelled.
- Queries.Search: takes the range bounds `start_date` and `end_date` as
  integers. The source formats them into the SQL as sent; a non-numeric text
  bound compares as TEXT, which SQLite orders above every integer, and that
  case is not modelled.
- SQLite connections, the test-database switch and commits are left out.
  The table is the in-memory `rows` field, and a committed insert is an
  append. Concurrent requests are not modelled.
- SQL `order by value` is not applied to the value list. The value list is
  taken in insertion order, and `AggregatesIgnoreOrder` shows that every
  aggregate depends only on the multiset of values.
- Store.ReadingStore.MedianReadings: returns the median readings in
  insertion order. The source returns them in the database's value order,
  and the order among equal values is chosen by SQLite.
- Aggregation.DeviceMax: models only the maximum value. The bare
  `device_uuid`, `type` and `date_created` columns of that query are filled
  in by SQLite from an engine-chosen row. For a device without rows the
  source answers a single row of NULLs; this model answers None.
- Exceptions on empty input are not raised. The source raises on an empty
  list in `median_high`, `mean` and `np.quantile` (`np.quantile` raises, it
  does not return NaN). The store methods answer None instead, and the pure
  functions require a non-empty list.
- Floating point is not modelled. The mean and quartiles are exact rationals
  (`real`), with no IEEE rounding.
- `int(value)` parsing is not modelled. A non-numeric value in the posted
  JSON raises in the source; here `value` is already an integer. A missing
  `type` field is treated like any unknown type string, which is how the
  validator treats it.
- Missing `start_date` / `end_date` fields in a range search are not
  modelled. The source then formats the text `None` into the SQL query.
- The clock is a parameter. The current time used as the default
  `date_created` is passed to `PostReading` as `now`.
- Queries.UiRangeBounds: takes the epoch of each day's midnight as a
  parameter. Date parsing with `strptime` and the local-timezone
  conversion are left out. The interface's search by type (which does not
  validate the type) and its redirect on an unknown option are left out as
  well.
- `sensors/forms/forms.py` is not part of this model. It only declares form
  fields.
