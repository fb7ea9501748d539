# DAX data handler, modelled in Dafny

This project models the market-data pipeline of `pca_dax/data_handler.py`: the
`DataHandler` object that
- resolves a ticker universe from the DAX, MDAX and SDAX constituent lists;
- reads stored daily price bars for a date range;
- pivots them into a wide date × symbol panel;
- drops sparse symbols and forward-fills the rest;
- turns prices into daily simple returns and compounds those into monthly returns;
- joins each symbol's mean return and variance with its company's sector.

The handler is a `class` (`Handler.DataHandler`) whose fields are the source's
cached attributes. Each of its methods overwrites them as the source does. The
pandas transformations it calls are pure functions over a `Panel`, a
date-indexed, symbol-labelled table:
- a float64 is a `real`, so the return and compounding identities are exact;
- a NaN is `None` in `Cell = Option<real>`.

The inputs the source gets from the outside world are parameters:
- the three scraped constituent lists (`Listings`);
- the two database tables (`Store`);
- today's date.

Modules, in dependency order:
- `Wrappers`: `Option`.
- `Order`: strict total orders, sorting with de-duplication, and Python's string order.
- `Dates`: calendar dates, clamping the end date, month indices and month ends.
- `Tickers`: the `.DE` suffix rule and the ticker universe.
- `Panels`: the panel type, columns, and row/column selection.
- `Stats`: pandas' NaN-skipping mean and sample variance.
- `Loader`: the stocks query, the long result and `pivot_table`.
- `Sql`: how the `IN` list of the queries is rendered (see Findings).
- `Preprocess`: `dropna(axis=1, thresh=…)`, `ffill` and the `preprocess` step.
- `Returns`: `pct_change(1)` and `dropna()`.
- `Monthly`: `resample('M')` with the compounding aggregate.
- `Summary`: the companies query and the mean/variance/sector table.
- `Handler`: the `DataHandler` class.

Where the code and its own docstring disagree, the model follows the code:
- The drop threshold is `int(0.9 * len(data))` non-missing cells, as the code has it. The docstring of `preprocess` says "more than 1% … missing".
- A symbol whose first rows are missing keeps those leading gaps after preprocessing, because forward-fill has nothing to copy into them, so the cleaned panel is not always free of missing values. `Preprocess.ForwardFillCells` states this.

## Model

| member | source | states |
|---|---|---|
| Tickers.Normalise | pca_dax/data_handler.py:52 | the result always contains `.DE`; a ticker already containing it is unchanged, any other gets `.DE` appended |
| Tickers.NormaliseIdempotent | pca_dax/data_handler.py:52 | normalising a normalised ticker changes nothing |
| Tickers.Universe | pca_dax/data_handler.py:50-52 | the universe is exactly the set of normalised members of the three lists: every member's normal form is in it, everything in it is some member's normal form, and all of it contains `.DE` |
| Tickers.UniverseNormalised | pca_dax/data_handler.py:50-52 | normalising the universe again gives the universe back |
| Tickers.UniverseIsUnion | pca_dax/data_handler.py:52 | the universe of the concatenated lists is the union of the three lists' universes, duplicates collapsing |
| Dates.ClampEndDate | pca_dax/data_handler.py:99-101 | the clamped end date is not after today nor after the given end date, and is one of the two |
| Dates.ClampEndDateStable | pca_dax/data_handler.py:100-101 | a second clamp changes nothing, and an end date that is not in the future is kept |
| Dates.DateLessIsOrder | pca_dax/data_handler.py:118-119 | date order, by which the pivot sorts its index, is a strict total order |
| Dates.MonthEnd | pca_dax/data_handler.py:190 | a monthly bin's label is a valid date in that month and is the last day of it |
| Dates.MonthIndexMonotone | pca_dax/data_handler.py:190 | later dates never fall in earlier months |
| Order.SortedDistinct | pca_dax/data_handler.py:118-119 | the pivot's axis is strictly increasing and holds exactly the values seen |
| Order.SymbolLessIsOrder | pca_dax/data_handler.py:119 | Python's string order on symbols is a strict total order |
| Loader.Query | pca_dax/data_handler.py:106-110 | a stock row is returned iff its date is between start and end (both included) and its symbol is one of the tickers |
| Loader.Project | pca_dax/data_handler.py:107 | each result row keeps date and symbol and carries the selected price columns in order |
| Loader.ValuesAt | pca_dax/data_handler.py:118-119 | the values gathered for a (date, symbol) key are non-empty iff some observation at that key is non-missing |
| Loader.PivotCell | pca_dax/data_handler.py:119 | `pivot_table`'s cell at (date, symbol) is defined iff some non-missing value was observed there, NaN otherwise |
| Loader.Pivot | pca_dax/data_handler.py:117-120 | the wide panel has one row per date and one column per symbol that has a non-missing value, both sorted ascending; each cell is the mean of the values observed there, NaN if none |
| Loader.PivotCellAtKey | pca_dax/data_handler.py:118-119 | with one bar per (date, symbol), the pivot cell is that bar's value |
| Loader.PivotKeepsObservations | pca_dax/data_handler.py:118-119 | every non-missing observation appears in the pivot at its date and symbol |
| Loader.PivotInventsNothing | pca_dax/data_handler.py:118-119 | every value in the pivot is an observation at its date and symbol |
| Loader.PivotRoundTrip | pca_dax/data_handler.py:117-120 | the pivot's (date, symbol, value) triples are exactly the non-missing observations |
| Sql.TupleRepr | pca_dax/data_handler.py:110 | as written: Python's rendering of `tuple(tickers)`, with a trailing comma for one element |
| Sql.SingletonTupleRejected | pca_dax/data_handler.py:110 | as written, a single-ticker universe renders an `IN` list SQL rejects |
| Sql.InList | pca_dax/data_handler.py:110 | corrected: the rendered list is a well-formed `IN` list that selects exactly the given tickers |
| Sql.TupleReprAgreesOtherwise | pca_dax/data_handler.py:110 | for any number of tickers other than one, the source's rendering equals the corrected one |
| Stats.Present | pca_dax/data_handler.py:200-201 | NaN-skipping: the values kept are exactly the non-missing cells |
| Stats.PresentCounts | pca_dax/data_handler.py:200-201 | every present value is kept as often as it occurs in the column, so the aggregates see duplicates |
| Stats.PresentOfComplete | pca_dax/data_handler.py:200-201 | on a column without NaN nothing is skipped |
| Stats.SumBounds | pca_dax/data_handler.py:201 | a sum of values in [lo, hi] lies between n·lo and n·hi |
| Stats.MeanBounds | pca_dax/data_handler.py:201 | the mean lies between the smallest and largest value |
| Stats.MeanOfConstant | pca_dax/data_handler.py:201 | the mean of a constant series is that constant |
| Stats.MeanTimesCount | pca_dax/data_handler.py:201 | the mean times the number of values is their sum |
| Stats.ColumnMean | pca_dax/data_handler.py:201 | `rts.mean()` of a column is defined iff some cell of it is present, NaN otherwise |
| Stats.ColumnVariance | pca_dax/data_handler.py:200 | the square of `rts.std()` is defined iff at least two cells are present, and is then never negative |
| Stats.ColumnMeanBounds | pca_dax/data_handler.py:201 | a column's mean is defined iff some cell is present, and then lies within the bounds of the present values |
| Stats.ColumnVarianceOfConstant | pca_dax/data_handler.py:200 | a constant column has variance 0 |
| Stats.NonNegativeSum | pca_dax/data_handler.py:200 | a sum of non-negative squared deviations is non-negative |
| Preprocess.Count | pca_dax/data_handler.py:151-154 | the non-missing count is at most the column length, with equality iff the column has no NaN |
| Preprocess.CountIsPresentLength | pca_dax/data_handler.py:153 | the count is the number of present values the mean and variance aggregate over |
| Preprocess.CountPresentRows | pca_dax/data_handler.py:151-154 | the count is the number of rows whose cell is present |
| Preprocess.Threshold | pca_dax/data_handler.py:153 | the threshold is the integer part of 0.9·n |
| Preprocess.KeptColumns | pca_dax/data_handler.py:150-154 | a column index is kept iff its non-missing count reaches the threshold; kept indices are increasing |
| Preprocess.DropSparse | pca_dax/data_handler.py:150-154 | dropping keeps every row and date, and keeps the kept columns with their labels and contents in their original order |
| Preprocess.DropSparseKeepsExactly | pca_dax/data_handler.py:150-154 | a symbol survives iff its count reaches the threshold, and then its column is unchanged |
| Preprocess.KeptColumnsOfComplete | pca_dax/data_handler.py:150-154 | on a panel without NaN every column index is kept |
| Preprocess.DropSparseOfComplete | pca_dax/data_handler.py:150-154 | a panel without NaN loses no column |
| Preprocess.LastOrConcat | pca_dax/data_handler.py:159 | the last present value of a concatenation is taken from the later part when it has one |
| Preprocess.FillRowsAt | pca_dax/data_handler.py:159 | the row-by-row fill writes the last present value up to that row |
| Preprocess.ForwardFillAt | pca_dax/data_handler.py:159 | a filled cell is the last present value of its column up to that row |
| Preprocess.ForwardFill | pca_dax/data_handler.py:159 | `ffill` keeps the dates, the symbols and the panel's shape |
| Preprocess.ForwardFillCells | pca_dax/data_handler.py:158-159 | present cells are unchanged; a cell stays missing iff nothing above it is present; a filled value comes from an earlier or the same row |
| Preprocess.ForwardFillTakesNearest | pca_dax/data_handler.py:159 | a gap receives the most recent present value above it |
| Preprocess.LastOrAfter | pca_dax/data_handler.py:159 | when no present cell follows row k, the last present value is the one at k |
| Preprocess.ForwardFillIdempotent | pca_dax/data_handler.py:159 | filling twice equals filling once |
| Preprocess.ForwardFillOfComplete | pca_dax/data_handler.py:158-159 | on a panel without NaN filling is the identity, so the guard changes no result |
| Preprocess.Clean | pca_dax/data_handler.py:150-161 | preprocessing keeps the dates and yields a well-formed panel |
| Preprocess.CleanIsFilledDrop | pca_dax/data_handler.py:150-161 | preprocessing is dropping sparse symbols then forward-filling, whichever way the guard goes |
| Returns.Change | pca_dax/data_handler.py:171 | a change is defined iff both prices are present and the base is non-zero, and then base·(1 + r) equals the new price |
| Panels.SelectRowsKeepsOrder | pca_dax/data_handler.py:172 | keeping rows at increasing positions, as `dropna` does, keeps the date index increasing |
| Returns.PctChange | pca_dax/data_handler.py:171 | the change panel keeps the dates and symbols |
| Returns.KeptRows | pca_dax/data_handler.py:172 | a row survives `dropna` iff none of its cells is missing |
| Returns.DropNa | pca_dax/data_handler.py:172 | the result has no missing cell and keeps the symbols |
| Returns.DailyReturns | pca_dax/data_handler.py:171-172 | the daily returns have no missing cell, keep the symbols and have at most as many rows as the prices |
| Returns.DailyReturnsKeepsOrder | pca_dax/data_handler.py:171-172 | the daily returns of prices with an increasing date index have an increasing date index |
| Returns.DailyReturnsAt | pca_dax/data_handler.py:171-172 | each surviving row comes from a price row t ≥ 1, in order, and holds the change between the padded prices at t − 1 and t |
| Returns.KeptRowsOfComplete | pca_dax/data_handler.py:171-172 | on complete non-zero prices exactly rows 1 … n − 1 survive |
| Returns.DailyReturnsOfComplete | pca_dax/data_handler.py:171-172 | on complete non-zero prices the result has n − 1 rows, dated from the second price date on, with cell p[t+1]/p[t] − 1 |
| Returns.DailyReturnsOfConstant | pca_dax/data_handler.py:171-172 | a constant non-zero price column yields 0 in every row |
| Returns.PaddingAfterCleanIsNoOp | pca_dax/data_handler.py:158-171 | after preprocessing, the padding inside `pct_change` changes nothing |
| Monthly.Growth | pca_dax/data_handler.py:190 | the `(x + 1).prod()` factor: positive when every return is above −100%, at least 1 when none is negative |
| Monthly.GrowthConcat | pca_dax/data_handler.py:190 | the growth factor ∏ (1 + r) of two consecutive runs is the product of their growth factors, so compounding a month in two parts and chaining them gives the whole month (`Compound` is the growth factor minus 1) |
| Monthly.CompoundShort | pca_dax/data_handler.py:190 | a single return compounds to itself, no return to 0 |
| Monthly.CompoundConstant | pca_dax/data_handler.py:190 | k days of a constant return c compound to (1 + c)^k − 1 |
| Monthly.Compound | pca_dax/data_handler.py:190 | the `agg` lambda ∏ (1 + r) − 1: returns above −100% compound to more than −100%, non-negative returns to a non-negative one |
| Monthly.InMonth | pca_dax/data_handler.py:190 | a month's bin holds no more cells than the column |
| Monthly.InMonthCount | pca_dax/data_handler.py:190 | a month's bin has as many cells as there are daily rows dated in that month |
| Monthly.InMonthMultiset | pca_dax/data_handler.py:190 | a month's bin holds each daily row of that month exactly once: every value occurs in it as often as among that month's cells |
| Monthly.InMonthSingle | pca_dax/data_handler.py:190 | a month with one daily row bins exactly that row |
| Monthly.InMonthNone | pca_dax/data_handler.py:190 | a month without daily rows bins nothing |
| Monthly.InMonthFrom | pca_dax/data_handler.py:190 | everything binned in a month is a daily cell of that month |
| Monthly.InMonthConstant | pca_dax/data_handler.py:190 | if a month's present cells all equal c, every value it compounds is c |
| Monthly.MonthEnds | pca_dax/data_handler.py:190 | the labels of consecutive bins are the month ends of consecutive months |
| Monthly.MonthlyReturns | pca_dax/data_handler.py:190 | one complete row per month from the first to the last daily month, same symbols, each cell the compounded present daily returns of that month |
| Monthly.MonthlyCell | pca_dax/data_handler.py:190 | monthly cell (k, j) is the compounded present daily returns of symbol j in the k-th month from the first |
| Monthly.MonthlyChronological | pca_dax/data_handler.py:190 | the monthly index increases and skips no month |
| Monthly.MonthlyCoversEveryDay | pca_dax/data_handler.py:190 | every daily row of a chronological panel falls in a monthly bin labelled with its month's end |
| Monthly.CompoundOfSingleDay | pca_dax/data_handler.py:190 | a bin holding a single present return compounds to that return |
| Monthly.MonthlyOfSingleDay | pca_dax/data_handler.py:190 | a month with a single daily return r yields r |
| Monthly.MonthlyOfConstantRate | pca_dax/data_handler.py:190 | a month of k days at constant return c yields (1 + c)^k − 1 |
| Summary.QueryCompanies | pca_dax/data_handler.py:128-130 | a company row is returned iff its symbol is a ticker and its sector is not null |
| Summary.StatsFrame | pca_dax/data_handler.py:200-206 | the statistics frame has one row per return column, in column order, each that column's symbol, mean and variance |
| Summary.JoinRow | pca_dax/data_handler.py:207-211 | the joined rows of a statistics row are exactly its pairings with the company rows of its symbol, each taking that row's sector |
| Summary.JoinRowAppend | pca_dax/data_handler.py:207-211 | joining against two runs of company rows gives the first run's joined rows followed by the second's |
| Summary.JoinRowCount | pca_dax/data_handler.py:207-211 | a joined row occurs as many times as there are company rows of the symbol that produce it |
| Summary.JoinRowCounts | pca_dax/data_handler.py:207-211 | a statistics row yields exactly one joined row per company row of its symbol, for every joined value at once |
| Summary.InnerJoin | pca_dax/data_handler.py:207-211 | every joined row pairs a statistics row with a company row of the same symbol |
| Summary.InnerJoinAppend | pca_dax/data_handler.py:207-211 | the join keeps the statistics frame's order: joining two runs of statistics rows gives the first run's rows followed by the second's |
| Summary.InnerJoinOne | pca_dax/data_handler.py:207-211 | a single statistics row joins to exactly its own joined rows, so with `Summary.InnerJoinAppend` and `Summary.JoinRowCounts` the join has one row per matching (statistics row, company row) pair, in statistics order |
| Summary.InnerJoinComplete | pca_dax/data_handler.py:207-211 | every statistics row meets every company row of its symbol in the join |
| Summary.MeanSectorTable | pca_dax/data_handler.py:203-211 | every row of the table is a return column's statistics joined with a company row of that symbol |
| Summary.MeanSectorTableSound | pca_dax/data_handler.py:203-211 | the join of the statistics frame invents no row: each comes from a return column and a company of its symbol |
| Summary.MeanSectorTableExact | pca_dax/data_handler.py:200-211 | a row is in the table iff it is built from a return column and a company row with the same symbol, a ticker symbol and a non-null sector (inner join) |
| Summary.MeanSectorTableRows | pca_dax/data_handler.py:200-211 | each row's symbol is a return column and a ticker, its sector is present, its mean is the column mean and its variance is non-negative |
| Handler.Resolved | pca_dax/data_handler.py:34-54 | a supplied ticker set is used unchanged; otherwise every computed ticker contains `.DE` |
| Handler.LongPrices | pca_dax/data_handler.py:105-115 | the long result carries one price column |
| Handler.PricePanel | pca_dax/data_handler.py:104-120 | the loaded panel is well formed with increasing dates, all its dates are in the queried range and all its symbols are queried tickers |
| Handler.PricePanelFacts | pca_dax/data_handler.py:109-110 | every observation the query yields is in range and of a queried ticker |
| Handler.DataHandler.constructor | pca_dax/data_handler.py:17-26 | the handler keeps the given tickers and dates, and every frame starts empty |
| Handler.DataHandler.Default | pca_dax/data_handler.py:17-26 | a handler built with the default arguments has no ticker set, starts at 2010-01-01 with no end date, and every frame starts empty |
| Handler.DataHandler.Prices | pca_dax/data_handler.py:146 | the adjusted-close panel `preprocess` loads is well formed, in increasing date order, dated between the start date and today, with only the handler's tickers as symbols |
| Handler.DataHandler.GetTickers | pca_dax/data_handler.py:28-54 | a supplied or cached set is returned unchanged; otherwise the universe is computed and cached, and later calls return the same set whatever the lists say; nothing else changes |
| Handler.DataHandler.FetchStocksFromDb | pca_dax/data_handler.py:98-122 | the end date becomes the clamped one (not after today); `_data` becomes the queried long rows, or their pivot in wide format |
| Handler.DataHandler.FetchInfoFromDb | pca_dax/data_handler.py:124-135 | `_companies_info` becomes the company rows of the tickers that have a sector |
| Handler.DataHandler.Preprocess | pca_dax/data_handler.py:137-161 | returns the cleaned adjusted-close panel, stores the raw pivot in `_data`, and leaves the panel it would load next unchanged |
| Handler.DataHandler.CreateDailyChange | pca_dax/data_handler.py:163-178 | `_dly_chg` becomes the daily returns of the preprocessed prices, complete and in increasing date order |
| Handler.DataHandler.StoredDailyChange | pca_dax/data_handler.py:185-188 | the stored daily returns are reused when present; when empty they are computed from the cleaned prices, with the end date, `_data` and the tickers updated as loading does |
| Handler.DataHandler.CreateMonthlyChange | pca_dax/data_handler.py:180-192 | stored daily returns are reused and computed only when empty; `_mth_chg` is their monthly compounding, the same as from fresh daily returns when the stored ones are current; the stored daily returns stay in increasing date order, so the bins run from the earliest to the latest month |
| Handler.DataHandler.ReturnsFor | pca_dax/data_handler.py:195-198 | the daily returns are always recomputed; the monthly ones compound stored daily returns, computing those only when empty; each field's new value is stated for both branches |
| Handler.DataHandler.Summarise | pca_dax/data_handler.py:200-214 | the tickers are resolved, `_companies_info` becomes the fetched company rows and `_mean_std` the mean/variance/sector table of the given returns; the return frames and dates are unchanged |
| Handler.DataHandler.CreateMeanVarDf | pca_dax/data_handler.py:194-214 | `_mean_std` becomes the mean/variance/sector table of the daily or monthly returns joined with the fetched company rows; in each branch the daily returns, the end date and `_data` are either recomputed from the current prices or left as they were |

## Left out

- Network I/O is not modelled: the Wikipedia scrape (`pd.read_html`, lines 35-48), `fetch_stocks_from_api` (`yf.download`, lines 56-70) and `fetch_info_from_api` (the per-ticker info loop with its bare `except` and `time.sleep`, lines 72-96). The scraped lists come in as `Listings`.
- The database connection and `pd.read_sql` are not modelled. The stored tables come in as `Store`, and each query is a filter over them. `pca_dax/db.py` is not part of this model.
- Today's date is a parameter of the methods that need it. The clock is not modelled.
- Handler.DataHandler.FetchStocksFromDb: `price_type` is one `Field`. The source pastes any text into the `SELECT` list. Several columns give a long frame whose pivot raises a `KeyError`, and that path is not modelled.
- Handler.DataHandler.FetchStocksFromDb: the query selects exactly the handler's tickers, as `Sql.InList` renders them. The source's single-ticker failure is recorded under Findings.
- Handler.DataHandler.FetchInfoFromDb: `_companies_info` keeps only the `symbol` and `sector` columns of the `SELECT *` at line 128, because no other column of `companies` is read by the pipeline.
- Handler.DataHandler.FetchInfoFromDb: the companies query selects exactly the handler's tickers, as `Sql.InList` renders them. The source's single-ticker failure at line 130 is recorded under Findings.
- Stats.Present: its own contract states length and membership only; the multiplicity of each present value is `Stats.PresentCounts`, kept apart so the many proofs that unfold `Present` stay small.
- Preprocess.Count: its own contract states the bound and the no-NaN case; the count as a number of present rows is `Preprocess.CountPresentRows`, kept apart for the same reason.
- Monthly.InMonth: its own contract states the bound; that a bin holds each row of its month exactly once is `Monthly.InMonthMultiset`, and its size is `Monthly.InMonthCount`, both kept apart for the same reason.
- Handler.DataHandler.CreateMeanVarDf: keeps the sample variance (ddof 1) in place of the `vol` column, because the square root of a real is not modelled. The standard deviation is its square root.
- Returns.Change: a zero base price gives NaN here. pandas gives ±inf, which then survives `dropna`. Division by zero is not modelled.
- Preprocess.Threshold: is the exact integer part of 0.9·n. The source computes `int(0.9*len(data))` in floating point, and the rounding of that product is not modelled.
- Float rounding in means, changes and products is not modelled: reals are exact.
- The `pd.Series` branch of `preprocess` (lines 155-156) is left out, because a `pivot_table` result is always a DataFrame.
- `pd.to_datetime` on the index (line 148) is left out, because dates are already calendar dates here.
- Monthly.MonthlyReturns: bins from the first row's month to the last row's. `resample('M')` bins from the earliest to the latest date, which is the same only on an increasing index. The handler keeps its stored daily returns increasing (`Handler.DataHandler.ValidFrames`, `Returns.DailyReturnsKeepsOrder`). Dates that are not calendar dates, which `pd.to_datetime` at line 148 would reject, are not excluded from the stored tables.
- Monthly.MonthlyReturns: a month without daily rows gets 0, the empty product minus one. This is how `resample('M').agg` with this lambda treats an empty bin. No other aggregate behaviour of pandas is modelled.
- The PCA engine, the Dash/Flask layouts and callbacks, and the configuration modules are not part of this model.

## Findings

| source | as written | input that shows it | evidently intended | confidence | as-written member | corrected member |
|---|---|---|---|---|---|---|
| pca_dax/data_handler.py:110, 130 | `symbol IN {tuple(self.get_tickers())}` renders a one-element tuple with a trailing comma | a handler built with the ticker set `{'SAP.DE'}` renders `symbol IN ('SAP.DE',)`, which SQLite rejects as a syntax error | an `IN` list selecting exactly the tickers for any number of them | high, not executed | Sql.SingletonTupleRejected | Sql.InList |
