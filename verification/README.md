# Electricity aggregation worker — a Dafny model

This project models the background worker of the energy dashboard:
- the worker loads the electricity-generation dataset once;
- it reports a summary of what it loaded;
- it then answers aggregation requests with one bar trace per (country, technology) pair, summed per yearly, monthly or daily period.

It also models the two chart components that group rows into bar traces before handing them to the charting library.

The model is organised as follows:
- **Worker state.** The two module-level variables `rawData` and `isInitialized` are the fields of the class `ElectricityWorker.Worker`.
- **Messages.** `Handle` is the message handler. `HandleInitialization` and `PerformAggregation` are its two operations. `Accumulate`, `EmitTraces` and `EmitCountry` are the loops of `performAggregation`.
- **Specifications.** Each method is proved against a specification function:
  - `WorkerProtocol.Step` is the one-message transition and `WorkerProtocol.InitStep` the initialisation.
  - `Aggregation.Aggregate` is the aggregation result.
  - `ElectricityWorker.BucketsOf` is the nested period → country → technology dictionary after a prefix of the rows.
- **Properties.** Lemmas state what those functions promise:
  - the protocol over any sequence of messages;
  - the summary of a successful load;
  - the meaning, selection and order of the emitted traces;
  - the format and order of period keys;
  - the grouping done by the two chart components.

Module layout:
- `optional.dfy`, `sequences.dfy`, `strings.dfy`, `decimal.dfy`, `calendar.dfy`: values and library behaviour the worker relies on.
  - `Set` de-duplication in insertion order.
  - `filter`.
  - `sort` on strings.
  - `toString` and `padStart`.
  - The ISO rendering of a `Date`.
- `generation.dfy`, `gdp.dfy`, `plotly.dfy`, `worker_types.dfy`: the records and the message contract.
- `metadata.dfy`: the `PARSE_SUCCESS` summary.
- `aggregation.dfy`: the specification of `performAggregation`.
- `protocol.dfy`: the message handler as a state machine.
- `electricity_worker.dfy`: the worker class and its loops.
- `grouping.dfy`, `gdp_chart.dfy`, `electricity_chart.dfy`: the chart trace builders.

Three behaviours of the source worth noting:
- A trace is emitted when some value is strictly positive (`val > 0`), not merely non-zero. A pair whose totals are all negative is omitted.
- Yearly and monthly keys write the year with `toString()`, without padding. Only daily keys go through `toISOString()`. So lexicographic order is chronological only for four-digit years; the key-order lemmas state the year range they need.
- The reported date range holds ISO strings or `"N/A"`, not instants.

## Model

| member | source | states |
|---|---|---|
| WorkerTypes.MessageType | src/workers/workerTypes.ts:4-15 | A message to the worker is one of exactly two variants; its `type` is `"AGGREGATE"` exactly for the aggregate message |
| ElectricityWorker.Worker.constructor | src/workers/electricityWorker.ts:15-17 | The worker starts with no rows and not initialised, the state invariant holds, and it keeps the timestamp parser it is given |
| ElectricityWorker.Worker.Handle | src/workers/electricityWorker.ts:163-224 | Handling one message, given what the decode of this delivery yields, changes the state and replies exactly as `Step` prescribes; the invariant "initialised exactly when rows are held" is preserved |
| ElectricityWorker.Worker.HandleInitialization | src/workers/electricityWorker.ts:20-84 | The new state and the outcome (reply or raised error) are those of `InitStep` on what this attempt's decode produced |
| ElectricityWorker.Worker.PerformAggregation | src/workers/electricityWorker.ts:87-160 | The returned traces equal `Aggregate(rawData, request, parse)`, whose meaning the Aggregation lemmas give |
| ElectricityWorker.Worker.Accumulate | src/workers/electricityWorker.ts:107-137 | After the loop, the nested dictionary is `BucketsOf` the filtered rows; the period and technology enumeration orders are the distinct keys in order of first appearance |
| ElectricityWorker.Worker.EmitTraces | src/workers/electricityWorker.ts:143-158 | The pushed traces are, in order, the trace of each (country, technology) pair with a positive value, built from the selected rows' totals |
| ElectricityWorker.Worker.EmitCountry | src/workers/electricityWorker.ts:145-157 | For one country, one trace per technology whose column has a positive value, in technology order, each equal to `TraceFor` that pair |
| ElectricityWorker.Deposit | src/workers/electricityWorker.ts:128-135 | The period keys gain the row's period, and the amount is added to the total of its (period, country, technology) cell |
| ElectricityWorker.BucketsOf | src/workers/electricityWorker.ts:107-137 | The dictionary after a prefix of the rows has at most one period bucket per row |
| ElectricityWorker.Cell | src/workers/electricityWorker.ts:146-148 | A non-zero cell is present in the dictionary, and a missing period reads as 0, as `?.` and `|| 0` give |
| ElectricityWorker.DepositEffect | src/workers/electricityWorker.ts:128-135 | Depositing an amount creates the period's bucket if missing and adds the amount to exactly one (period, country, technology) cell; every other cell is unchanged |
| ElectricityWorker.BucketsHoldTotals | src/workers/electricityWorker.ts:128-135 | Every cell of the dictionary holds the sum of `generation` over the rows with that period, country and technology (0 when there are none) |
| ElectricityWorker.BucketsKeys | src/workers/electricityWorker.ts:128 | The dictionary's periods are exactly the period keys of the rows whose timestamp parses |
| ElectricityWorker.OrdersAdvance | src/workers/electricityWorker.ts:128-136 | A row that parses appends its period and technology to the enumeration orders exactly when they are new |
| ElectricityWorker.AccumulateRow | src/workers/electricityWorker.ts:107-137 | One loop step carries the three loop invariants from a prefix of the rows to the prefix one longer |
| ElectricityWorker.TracesForConcat | src/workers/electricityWorker.ts:144-158 | The traces of one country followed by those of the next are the traces of the concatenated pairs |
| WorkerProtocol.UnhandledError | src/workers/electricityWorker.ts:206-219 | An error escaping the handler yields `AGGREGATION_ERROR` exactly for `AGGREGATE` and `PARSE_ERROR` otherwise |
| WorkerProtocol.InitStep | src/workers/electricityWorker.ts:20-84 | The worker becomes initialised exactly when the reply is `PARSE_SUCCESS` and otherwise returns to the initial state. A non-empty decode is stored and replied with its `Summary`. An empty decode replies `PARSE_ERROR` "No records found after parsing." An `Error` thrown replies `PARSE_ERROR` with its message, or "Unknown parsing error" when the message is empty. Only a nullish thrown value escapes |
| WorkerProtocol.Step | src/workers/electricityWorker.ts:163-224 | A recognised message gets exactly one reply and an unknown type none. Only an uninitialised worker's `INIT_AND_PARSE` changes the state. Replies match their request kinds. `PARSE_SUCCESS` only moves uninitialised to initialised. `AGGREGATION_RESULT` only comes from an initialised worker |
| WorkerProtocol.Run | src/workers/electricityWorker.ts:163-224 | Over a sequence of deliveries, each carrying its own decode outcome, each message gets a reply exactly when it is recognised, and the state invariant is preserved |
| WorkerProtocol.InitWhenInitialized | src/workers/electricityWorker.ts:174-179 | `INIT_AND_PARSE` when initialised replies "Worker already initialized" and changes nothing |
| WorkerProtocol.AggregateBeforeInit | src/workers/electricityWorker.ts:188-196 | `AGGREGATE` before initialisation replies "Worker not initialized or no data." and changes nothing |
| WorkerProtocol.FailedInitAllowsRetry | src/workers/electricityWorker.ts:40-82 | An initialisation that does not succeed leaves the initial state, and a retry whose decode yields rows then succeeds: it stores those rows and replies with their summary |
| WorkerProtocol.RunProtocol | src/workers/electricityWorker.ts:163-224 | When messages are handled one after another, from the initial state at most one `PARSE_SUCCESS` is ever posted, the worker is initialised exactly when one was, and every `AGGREGATION_RESULT` comes after it. Concurrent delivery is not covered (see "Left out") |
| WorkerProtocol.InitializedIsStable | src/workers/electricityWorker.ts:170-201 | Once initialised, no message changes the stored rows, and every `AGGREGATE` is answered with the aggregation of those rows |
| Metadata.ParsedInstants | src/workers/electricityWorker.ts:47-54 | The timestamps that parse, at most one per row |
| Metadata.ParsedInstantsMembers | src/workers/electricityWorker.ts:47-54 | An instant is among them exactly when some row's timestamp parses to it |
| Metadata.EarliestIndex | src/workers/electricityWorker.ts:55-58 | The `reduce` picks an instant no later than any other, and the first of several equally early ones |
| Metadata.LatestIndex | src/workers/electricityWorker.ts:59-62 | The `reduce` picks an instant no earlier than any other, and the first of several equally late ones |
| Metadata.IsoStringIsNotPlaceholder | src/workers/electricityWorker.ts:70-71 | An ISO string is never the `"N/A"` placeholder, so the placeholder means exactly "no timestamp parsed" |
| Metadata.IsoOr | src/workers/electricityWorker.ts:70-71 | The reported bound is `"N/A"` exactly when there is no date |
| Metadata.Bounds | src/workers/electricityWorker.ts:55-72 | Both bounds are `"N/A"` exactly when no timestamp parsed |
| Metadata.SummaryFacts | src/workers/electricityWorker.ts:44-73 | `numberOfRecords` is the row count. `availableCountries` is strictly ascending and holds exactly the observed country ids. Each bound is `"N/A"` exactly when no timestamp parses |
| Metadata.Summary | src/workers/electricityWorker.ts:44-73 | The summary is a `PARSE_SUCCESS` whose `numberOfRecords` is the row count and whose `availableCountries` are strictly ascending |
| Metadata.BoundsSpan | src/workers/electricityWorker.ts:55-72 | For a non-empty list, min and max are the ISO strings of two of its instants, the first no later than the second, and every instant lies between them |
| Metadata.DateRangeBounds | src/workers/electricityWorker.ts:55-73 | When some timestamp parses, `dateRange.min <= dateRange.max` as instants, and every parsed instant lies between them |
| Aggregation.SelectedRows | src/workers/electricityWorker.ts:94-96 | The selected rows are exactly the rows whose country is selected |
| Aggregation.KeyOf | src/workers/electricityWorker.ts:108-115 | A row gets a period key exactly when its timestamp parses |
| Aggregation.PeriodKey | src/workers/electricityWorker.ts:117-126 | The daily key is the ISO date. Yearly and monthly keys start with the year's `toString()`. The monthly key adds a dash and two more characters |
| Aggregation.Column | src/workers/electricityWorker.ts:146-148 | A trace's `y` has one value per period |
| Aggregation.AnyPositive | src/workers/electricityWorker.ts:149 | Holds exactly when some value of the column is strictly positive, as `some(val => val > 0)` does |
| Aggregation.TraceFor | src/workers/electricityWorker.ts:150-155 | The trace's `x` is the periods and its `y` has one value per period, the `k`-th being the total for that period, country and technology. It is a bar |
| Aggregation.TechPairs | src/workers/electricityWorker.ts:145-157 | At most one pair per technology; every pair has the given country and one of the technologies |
| Aggregation.Pairs | src/workers/electricityWorker.ts:144-158 | Every pair has one of the iterated countries and one of the technologies |
| Aggregation.Periods | src/workers/electricityWorker.ts:139 | The periods are strictly ascending |
| Aggregation.PairsOf | src/workers/electricityWorker.ts:140-158 | Every pair's country is one of the requested countries, although the loop runs over their sorted copy |
| Aggregation.EmittedPairs | src/workers/electricityWorker.ts:90-158 | No rows give no pairs, and every emitted pair's country is one of the selected countries |
| Aggregation.SelectedTotal | src/workers/electricityWorker.ts:94-96 | After filtering, a cell's total is the unfiltered total for a selected country and 0 otherwise |
| Aggregation.PeriodKeysMembers | src/workers/electricityWorker.ts:117-128 | The period keys are exactly the keys of rows whose timestamp parses |
| Aggregation.TechnologiesMembers | src/workers/electricityWorker.ts:136 | The technologies are exactly those of rows whose timestamp parses, so a skipped row adds no technology |
| Aggregation.TotalNonZero | src/workers/electricityWorker.ts:128-136 | A non-zero total lies at an observed period and technology |
| Aggregation.ColumnPositive | src/workers/electricityWorker.ts:146-149 | A column has a positive value exactly when some period's total for that pair is positive |
| Aggregation.TechPairsMembers | src/workers/electricityWorker.ts:145-157 | For one country, the emitted technologies are exactly those whose column has a positive value |
| Aggregation.PairsMembers | src/workers/electricityWorker.ts:144-158 | The emitted pairs are exactly the (country, technology) pairs whose column has a positive value |
| Aggregation.PeriodsMeaning | src/workers/electricityWorker.ts:139 | `x` is strictly ascending and holds exactly the period keys of selected rows whose timestamp parses |
| Aggregation.PairsOfSelection | src/workers/electricityWorker.ts:140-158 | A pair is emitted exactly when its country is selected and some period's total for it is positive |
| Aggregation.PositiveSomewhereSelected | src/workers/electricityWorker.ts:94-96 | Filtering by selection keeps a positive total exactly for selected countries |
| Aggregation.AggregateSelection | src/workers/electricityWorker.ts:94-158 | `(c, t)` is emitted exactly when `c` is selected and some period's total of `c`'s `t` rows is strictly positive. Pairs whose totals are all zero or negative are omitted |
| Aggregation.AggregateTrace | src/workers/electricityWorker.ts:143-158 | Every trace has `x` equal to the sorted distinct periods. `y[i]` is the total for `(x[i], country, technology)`, 0 when absent. Some value is positive. The name is `country + " - " + tech` and the type is `"bar"` |
| Aggregation.Aggregate | src/workers/electricityWorker.ts:87-160 | One trace per emitted pair. Each trace's `x` is the sorted periods, its `y` has one value per period, and it is a bar |
| Aggregation.EmittedPairMembers | src/workers/electricityWorker.ts:144-156 | Each emitted pair has a selected country and a column with a positive value |
| Aggregation.TechPairsAscending | src/workers/electricityWorker.ts:145-157 | Within one country, traces follow the strictly ascending technology order |
| Aggregation.PairsAscendingOrder | src/workers/electricityWorker.ts:144-158 | The nested loops emit pairs in strictly ascending (country, technology) order |
| Aggregation.AggregateOrder | src/workers/electricityWorker.ts:139-158 | Traces are ordered by sorted country, then sorted technology |
| Aggregation.AggregateEmpty | src/workers/electricityWorker.ts:90-100 | No rows, or no row of a selected country, gives the empty result |
| Aggregation.UnparseableRowAddsNothing | src/workers/electricityWorker.ts:107-115 | A row whose timestamp does not parse adds no period, no technology and nothing to any column |
| Aggregation.UnparseableRowIgnored | src/workers/electricityWorker.ts:107-115 | Adding a row whose timestamp does not parse leaves the whole result unchanged; it is skipped rather than aborting the request |
| Aggregation.MonthlyKeyExtendsYearly | src/workers/electricityWorker.ts:117-126 | The yearly key is the year's `toString()`. The monthly key is the yearly key, a dash and the month padded to two digits |
| Aggregation.FourDigitYear | src/workers/electricityWorker.ts:125 | A year from 1000 to 9999 is written as exactly its four digits |
| Aggregation.TwoDigits | src/workers/electricityWorker.ts:120 | `padStart(2, "0")` of a number below 100 is its two digits |
| Aggregation.YearlyKeysChronological | src/workers/electricityWorker.ts:124-126 | For four-digit years, yearly keys sort like the years and coincide exactly for the same year |
| Aggregation.MonthlyKeysChronological | src/workers/electricityWorker.ts:118-121 | For four-digit years, monthly keys sort chronologically by (year, month) and coincide exactly for the same month |
| Aggregation.DailyKeysChronological | src/workers/electricityWorker.ts:122-123 | For years 0 to 9999, daily keys sort chronologically by (year, month, day) and coincide exactly for the same day |
| Calendar.IsoYear | src/workers/electricityWorker.ts:123 | The ISO year has at least four characters and no `T` |
| Calendar.IsoDate | src/workers/electricityWorker.ts:123 | The ISO date has at least ten characters and no `T` |
| Calendar.IsoStringSplitsAtT | src/workers/electricityWorker.ts:123 | Splitting the ISO string at `T` and taking the first part gives the ISO date |
| Calendar.ToIsoString | src/workers/electricityWorker.ts:70-71 | `toISOString()` is the ISO date, then a `T`, and it ends with `Z` (UTC) |
| Decimal.NatToString | src/workers/electricityWorker.ts:120 | `toString()` of a non-negative number is a non-empty string of decimal digits |
| Decimal.IntToString | src/workers/electricityWorker.ts:118-125 | `toString()` of an integer starts with `-` exactly when it is negative, and is all digits otherwise |
| Decimal.PadStart | src/workers/electricityWorker.ts:120 | `padStart` brings the string to the requested width, or leaves it when it is already that long |
| Decimal.PadStartShape | src/workers/electricityWorker.ts:120 | The padded string ends with the original and is fill characters before it |
| Strings.Sort | src/workers/electricityWorker.ts:139-141 | `sort()` returns a sorted permutation of its input |
| Strings.SortedDistinct | src/workers/electricityWorker.ts:44-46 | `Array.from(new Set(s)).sort()` is strictly ascending and holds exactly the elements of `s` |
| Strings.SortedUnique | src/workers/electricityWorker.ts:139 | Two strictly ascending lists with the same elements are equal, so the enumeration order of the period keys does not affect the result |
| Strings.SortOfAnyEnumeration | src/workers/electricityWorker.ts:139-141 | Sorting any repeat-free enumeration of a list's elements gives that list's sorted distinct elements, whatever the enumeration order |
| Strings.BeforeFirst | src/workers/electricityWorker.ts:123 | `split("T")[0]` is the longest prefix without a `T`: a prefix containing no `T`, followed by a `T` or the end of the string |
| Sequences.Dedup | src/components/charts/GDPChart.tsx:15 | `Array.from(new Set(s))` holds exactly the elements of `s` and is no longer |
| Sequences.DedupDistinct | src/components/charts/GDPChart.tsx:15 | A `Set` holds each element once |
| Sequences.DedupKeepsFirstAppearanceOrder | src/components/charts/GDPChart.tsx:15 | The distinct elements come in order of first appearance |
| Sequences.Map | src/components/charts/GDPChart.tsx:15 | `map` gives one value per element |
| Sequences.MapMembers | src/components/charts/GDPChart.tsx:15 | A value occurs in the mapped list exactly when it is the image of some element |
| Sequences.Where | src/components/charts/GDPChart.tsx:18 | `filter` keeps exactly the elements with the given key |
| Sequences.IndicesEnumerate | src/components/charts/GDPChart.tsx:18 | The positions of the elements with a given key, listed in increasing order, each once |
| Sequences.WhereByIndices | src/components/charts/GDPChart.tsx:18 | `filter` keeps, in input order, exactly the elements at the positions holding that key, each once |
| Sequences.WhereWhere | src/components/charts/ElectricityChart.tsx:17-22 | Filtering by one key then by another is filtering once by the pair of keys |
| Sequences.GroupsPartition | src/components/charts/GDPChart.tsx:15-21 | The groups of the distinct keys together hold exactly as many elements as the input |
| Grouping.Series | src/components/charts/GDPChart.tsx:18-24 | A trace has as many `x` as `y` values, one per row of its key, is named after the key and is a bar |
| Grouping.SeriesList | src/components/charts/GDPChart.tsx:17-25 | One trace per key |
| Grouping.GroupBy | src/components/charts/GDPChart.tsx:15-21 | At most one trace per row. Every trace is named by a key that occurs among the rows, has as many `x` as `y` values, and is a bar |
| Grouping.GroupByPartition | src/components/charts/GDPChart.tsx:15-21 | The traces partition the rows: the total number of points is the number of rows |
| Grouping.GroupByNames | src/components/charts/GDPChart.tsx:15-23 | Trace names are pairwise distinct, are exactly the keys that occur, and come in order of first appearance |
| Grouping.SeriesRowsInOrder | src/components/charts/GDPChart.tsx:18-21 | A trace lists the rows of its key, each once, in input order, with `x` and `y` of the same row |
| Grouping.GroupByRowsInOrder | src/components/charts/GDPChart.tsx:15-21 | Every trace lists exactly the rows of its key, each once, in input order, with each point's `x` and `y` taken from the same row |
| GdpChart.BuildGdpChart | src/components/charts/GDPChart.tsx:10-25 | Empty data gives the "No GDP data available to display." message. Otherwise the loop's traces are the grouping of the rows by country label |
| ElectricityChart.FirstCountryRows | src/components/charts/ElectricityChart.tsx:17 | Only rows of the first row's country are kept |
| ElectricityChart.BuildElectricityChart | src/components/charts/ElectricityChart.tsx:10-25 | Empty data, and only empty data, gives the "No Electricity Generation data available to display." message |
| ElectricityChart.ElectricityTraceNames | src/components/charts/ElectricityChart.tsx:19-24 | One trace per distinct technology of the first country's rows, each once, in order of first appearance |
| ElectricityChart.ElectricityRowsInOrder | src/components/charts/ElectricityChart.tsx:17-22 | Every trace lists exactly the first country's rows of its technology, each once, in input order, each point being that row's datetime and generation |
| ElectricityChart.ElectricityPointCount | src/components/charts/ElectricityChart.tsx:17-22 | The points number exactly the first country's rows |

## Left out

- Decoding the Parquet buffer is not modelled. Loading the WebAssembly module, reading the Parquet file and converting Arrow rows to records are foreign library calls. Each delivery carries its own decode outcome, rows or a thrown value, chosen independently, so the model does not assume two decodes of the same buffer agree.
- Building a `Date` from a timestamp is not modelled: the numeric-or-string `new Date(...)`, `getTime()` and the UTC field getters. The worker receives it as a `parse` function that returns an instant or `None` for an invalid date.
- `postMessage`, logging and the threading of the worker are left out, and so is the interleaving of `async` handlers. The model handles one message to completion before the next. In the source, the handler yields at `await handleInitialization(...)` (lines 181 and 25) before `isInitialized = true` (line 64). A second `INIT_AND_PARSE` arriving in that window passes the guard at line 175, so both may post `PARSE_SUCCESS` and the second overwrites `rawData` (line 31). An `AGGREGATE` arriving in that window is answered "Worker not initialized or no data.". `WorkerProtocol.RunProtocol`'s "at most one `PARSE_SUCCESS`" therefore holds only under one-at-a-time delivery.
- Floating-point arithmetic is left out. `generation` and `gdp` are whole numbers, so NaN, rounding and the NaN case of `|| 0` are not modelled.
- The `Number(...)` and `String(...)` conversions of decoded columns are left out. Rows arrive already typed, and country and technology are not checked against their declared enumerations.
- `selectedCountries.sort()` sorts the request's array in place. The model sorts a copy, so the caller-visible mutation of the request is not captured.
- `Object.keys` enumerates integer-like keys (a bare year such as "2021") before the others. The model enumerates periods in insertion order. `Strings.SortOfAnyEnumeration` shows that sorting any repeat-free enumeration of the same keys gives the same result, so the order does not matter.
- Dictionary keys inherited from `Object.prototype` are not modelled (a technology named `constructor`, say).
- String comparison is by character. The UTF-16 code-unit order of `sort()` differs only outside the Basic Multilingual Plane.
- An exception thrown while aggregating is not modelled. Typed requests cannot make `performAggregation` throw, so the `AGGREGATION_ERROR` arm of the outer `catch` is unreachable in the model. `UnhandledError` still states both arms.
- The `!rawData` test of the `AGGREGATE` guard is not modelled. `rawData` is always an array, so the test is always false.
- Chart components receiving `null` or `undefined` data are modelled as empty data.
- Plotly layout, titles and rendering are not modelled.
- ElectricityWorker.Worker.HandleInitialization requires `!isInitialized`: the handler only calls it then (line 175).
- Aggregation.AggregateOrder assumes the selected countries are distinct. With a repeated country, the source emits that country's traces twice, and the order is then only non-strictly ascending.
- Aggregation.YearlyKeysChronological and Aggregation.MonthlyKeysChronological hold only for years 1000 to 9999. Below that, `toString()` writes fewer digits, and lexicographic order is not chronological.
- Aggregation.DailyKeysChronological holds only for years 0 to 9999. Outside that range, `toISOString` writes a sign and six digits.
- ElectricityWorker.Worker.Accumulate, EmitTraces and EmitCountry are static methods stated for any bucketing of rows. `PerformAggregation` instantiates them with `BucketOf(parse, level)`.
