# Deribit options collector — verified model

A model of the collector that polls Deribit's public API for every option
of one currency, flattens each instrument's order book into one record, and
appends the records to a Parquet file per day named
`<currency>_options_<YYYYMMDD>.parquet`, together with the loader that reads
those daily files back, optionally restricted to a range of dates, and the
driver that repeats collect-and-save a number of times with a pause between
runs.

The model keeps the program's own structure:

- `Records` — the order book as the API returns it (each key absent, `null`
  or present; nested `greeks` and `stats` objects) and the flattened record.
  `AssembleRecord` is the dictionary built for one instrument, including the
  rule for bid, ask and mid prices and the `AttributeError` raised when
  `greeks` or `stats` is `null`.
- `Collection` — the collection loop as a specification: records in
  instrument order, one per truthy order book, and an exception that ends
  the loop.
- `Dates`, `DailyFiles`, `Lex` — `strftime('%Y%m%d')`, `strptime(…,
  '%Y%m%d')`, the daily file name, the date token after the last `_`, and
  Python's code-point ordering of strings with `sorted()`.
- `PartitionStore` — the data directory as a map from file name to the
  records stored in it: the append-merge save, the glob listing, the date
  filter and the load.
- `Collector` — the `DeribitDataCollector` class with its data directory
  (a `Directory` object whose map of files the save updates in place), its
  methods `CollectOptionsData`, `SaveToParquet` and `LoadData` as loops and
  state changes proved against the functions above, and
  `PeriodicCollection`, the driver.

Inputs that the program reads from the outside world are parameters: the
instrument list and the order book fetched for each instrument (`None`
where the request failed), the clock reading taken for each record, and
the current date at each save. Where the order of the instruments matters,
the records keep it.

Where the prose description of the program and the code differ, the model
follows the code:

- The loader compares midnight of each file's date with the bounds, which
  are full date-times. A start bound later than midnight therefore leaves out
  the file of its own day; only an end bound is inclusive of its whole day
  at any time of day (`PartitionStore.StartTimeExcludesStartDay`,
  `PartitionStore.MidnightBoundsInclusive`).
- A `null` `greeks` or `stats` object in an order book is not treated as
  empty: `orderbook.get('greeks', {})` returns `None`, and calling `.get` on
  it raises, which ends the whole collection and the driver with it.
- Records come out in the order of the instrument list, not in an
  unspecified order; the collection is sequential, with a pause after every
  tenth instrument.
- A request that fails is not an error of the collection: the instrument
  list becomes empty, or the order book `None`, and no record is made.

## Model

| member | source | states |
|---|---|---|
| Records.AssembleRecord | collector.py:107-141 | the record is built exactly when neither `greeks` nor `stats` is `null`, and the error names `greeks` first; bid and ask are copied only when truthy, and the mid price exists exactly when both are |
| Records.AssembledFields | collector.py:108-140 | each field of a built record is the instrument's field, the clock reading, or the order book's value for its key, with absent and `null` both giving `None`, and nested fields `None` when their object is absent |
| Records.MidPriceRule | collector.py:118-120 | the mid price is `(bid + ask) / 2` when both quotes are truthy and `None` when either is absent, `null` or zero |
| Collection.TruthyIndicesExact | collector.py:101-107 | the listed positions are exactly the positions whose order book is truthy, in increasing order |
| Collection.FailureIsFinal | collector.py:101-143 | once a record fails to assemble, the collection has failed whatever the later instruments hold |
| Collection.CollectedUpToIsFilter | collector.py:99-143 | the collection succeeds exactly when every truthy order book is readable, and its k-th record is the one assembled from the k-th truthy order book with its instrument and clock reading |
| Collection.OneRecordPerTruthyBook | collector.py:105-143 | a successful collection has as many records as there are truthy order books |
| Collection.NoTruthyBookNoRecord | collector.py:105-107 | when no order book is truthy (requests failed or books empty) the collection succeeds with no records |
| Collection.CollectedQuotesConsistent | collector.py:118-120 | every collected record has a mid price exactly when it has both a bid and an ask, and then the mid price lies halfway between them |
| Collector.DeribitDataCollector.CollectOptionsData | collector.py:86-153 | the loop returns the collection's records or its first assembly error, and sleeps once per ten instruments processed before it stopped |
| Dates.FormatDate | collector.py:168 | `%Y%m%d` gives eight decimal digits |
| Dates.ParseFormat | collector.py:223 | parsing the eight digits of a date gives that date back |
| Dates.FormatParse | collector.py:223 | any string that parses is the formatting of the date it parses to |
| Dates.FormatOrder | collector.py:168 | formatted dates compare as strings exactly as the dates compare in the calendar |
| DailyFiles.DailyFilename | collector.py:155-169 | the daily name matches the loader's glob for its currency and its date token parses back to the date |
| DailyFiles.LastToken | collector.py:223 | the token is the suffix after the last underscore, and has no underscore itself |
| DailyFiles.LastTokenAfterUnderscore | collector.py:223 | a name ending in `_` followed by an underscore-free token yields exactly that token |
| DailyFiles.DailyFilenameOrder | collector.py:168-169 | daily names of one currency sort in date order |
| DailyFiles.DailyFilenameInjective | collector.py:168-169 | different days get different files |
| Lex.SortNames | collector.py:212 | the loop puts the listed names into the order `sorted()` gives |
| Lex.SortedListsInOrder | collector.py:212 | `sorted()` of a set of names is strictly increasing and holds exactly those names |
| PartitionStore.SavedContents | collector.py:181-199 | saving nothing leaves the directory alone; otherwise only today's file changes, becoming its old records followed by the new ones, or the new ones when it did not exist |
| PartitionStore.SavedOnlyAppends | collector.py:185-196 | a save never removes or changes a stored record |
| PartitionStore.SaveTwice | collector.py:185-196 | two saves on the same day equal one save of both batches in order |
| PartitionStore.SavedKeepsQuotesConsistent | collector.py:185-196 | saving consistent records keeps every stored record consistent |
| Collector.DeribitDataCollector.SaveToParquet | collector.py:171-199 | the directory becomes the saved state; no path is returned exactly when there is nothing to save, else the path of today's file |
| PartitionStore.ListedInOrderExact | collector.py:212 | the listing holds each matching file of the directory once, in increasing name order |
| PartitionStore.SelectedExact | collector.py:220-228 | a file is kept exactly when there are no bounds, or its date lies within every bound given |
| PartitionStore.SelectedWithoutBounds | collector.py:222 | with no bound every listed file is kept |
| PartitionStore.LoadWithoutBounds | collector.py:212-239 | with no bound the load is the concatenation of every matching file in name order, and never fails |
| PartitionStore.LoadNothingListed | collector.py:212-216 | with no matching file the load is empty |
| PartitionStore.LoadSelects | collector.py:220-239 | a successful load is the concatenation, in name order, of exactly the kept files |
| PartitionStore.LoadFailsOnUnreadableName | collector.py:222-223 | with a bound, the load raises exactly when some matching file's date token is not a date |
| PartitionStore.MidnightBoundsInclusive | collector.py:225-228 | with bounds at midnight the range is inclusive of both end days, and an end bound keeps its own day at any time |
| PartitionStore.StartTimeExcludesStartDay | collector.py:225-226 | a start bound after midnight drops the file of its own day |
| PartitionStore.LoadInDateOrder | collector.py:212 | the listing of daily files is in strictly increasing date order, and the load gathers in listing order |
| PartitionStore.SaveThenLoad | collector.py:171-239 | saving a batch into an empty directory and loading with no bounds gives the batch back |
| Collector.DeribitDataCollector.LoadData | collector.py:201-239 | the loop over the sorted listing returns the load: the kept files' records in name order, or the error of the first unreadable file name when a bound is given |
| Collector.RunCounts | collector.py:253-263 | the driver runs one cycle per iteration and sleeps between cycles but not after the last; it stops early only when a collection raises or the interval is negative |
| Collector.RunOnlyAppends | collector.py:253-263 | the driver never removes or changes a stored record |
| Collector.RunKeepsQuotesConsistent | collector.py:253-263 | every record the driver stores has consistent quotes |
| Collector.PeriodicCollection | collector.py:242-263 | the loop's directory, cycle and sleep counts and exception are those of the run |

## Left out

- The HTTP requests of `get_instruments` and `get_orderbook` (collector.py:39-84) are not modelled; their results are inputs, with a failed request giving an empty instrument list or a `None` order book.
- Parquet encoding, Snappy compression and pandas are not modelled: a file is the sequence of its records. The column type coercions pandas applies (`None` becoming `NaN` in numeric columns) and a file that cannot be read are not modelled.
- `datetime.now()` is an input (the clock reading per record and the date of each save); the lengths of the sleeps (half a second, `interval_minutes * 60` seconds) are not modelled, only how many sleeps happen and the error of a negative one.
- Console output and the creation of the data directory in the constructor are not modelled; the base URL is not modelled.
- The demonstration at the end of collector.py and the example scripts are not modelled.
- Records.AssembleRecord: the mid price is exact real arithmetic, not floating point, and prices are assumed to be numbers (a non-numeric value in the API response is not modelled).
- Records.AssembleRecord: an instrument missing one of its keys (a `KeyError`) and a `greeks` or `stats` value that is neither an object nor `null` are not modelled.
- Dates.FormatDate: years are from 1 to 9999 and always padded to four digits; some C libraries print years below 1000 unpadded.
- Dates.ParseDate: accepts exactly eight ASCII digits; Python's `strptime` also accepts some shorter unpadded forms (such as `2024011`), a space-padded day or month (such as `202401 1`, read as 1 January 2024) and non-ASCII digits, which the model rejects.
- PartitionStore.Listed: the glob is modelled on file names only; a directory whose name matches the pattern, and currencies containing glob metacharacters, are not modelled.
- DailyFiles.DailyFilename: the path is the directory path and the name joined with `/`; path normalisation is not modelled.
- Time zones: the bounds and file dates are naive; comparing a time-zone-aware bound raises in Python and is not modelled.
- Concurrent writers to the same directory are not modelled.
