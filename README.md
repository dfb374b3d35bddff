# backtrader_example: the data fetcher and the optimiser rules, in Dafny

This project models the core of a small trading-strategy workbench written in
Python around backtrader and Optuna, and proves properties of that model.

- **The incremental OHLCV cache of `DataFetcher`** (`strategies_tester/datafetcher.py`).
  A requested bin size maps to a stored granularity and a cache file
  `data/{exchange}_{symbol}_{granularity}.csv`. The fetcher loads the cached
  frame, falling back to an empty one. It brings the frame up to date from the
  exchange and returns `df[date_from:date_to]`, which pandas resolves by label
  on the frame's datetime index.
  - For Bitmex it computes how many pages of 750 bars separate the last cached
    bar from the newest remote one. It then fetches them round by round. A
    "too many requests" answer retries the same page. The growing frame is
    handed to a background save every `save_after`-th round.
  - For Binance it makes one bulk request, saves only the fresh rows, and
    returns the cache followed by them.
- **The rules of `OptunaOptimizeStrategy`** (`strategies_tester/strategies/_optimize.py`):
  - analyzer-name normalisation and acceptance;
  - which statistic a backtest reports;
  - the per-period objective, with its reports and pruning;
  - the per-period downloads of the constructor;
  - the number of trials still to run;
  - the defaults for parallel jobs and database engine options.
- **The feed configuration of `utils_backtest.py`**: the backtrader timeframe
  and compression derived from the spacing of a frame's index, and the date
  window that defaults to the whole frame.

Layout, one module per file:

| module | file | what it holds |
|---|---|---|
| `Bars` | `bars.dfy` | rows, the missing-value filters, the inclusive date window, and pandas' label slice on ascending, descending and unordered indexes |
| `Granularity` | `granularity.dfy` | the three bin-size tables and the cache path |
| `Gap` | `gap.dfy` | ceiling arithmetic, the number of rounds, page starts |
| `CacheStore` | `cache_store.dfy` | the cache files as a map, loading, single-slot background saves |
| `Reconcile` | `reconcile.dfy` | what a download computes and does, as functions of the cache and the remote's scripted answers |
| `DataFetcher` | `fetcher.dfy` | the `Fetcher` class: its files, save in flight, save log and request log, and the download methods, proved against `Reconcile` |
| `Optimize` | `optimize.dfy` | the optimiser's rules and its objective and constructor loops |
| `UtilsBacktest` | `utils_backtest.dfy` | spacing to timeframe and compression, the default date window |

How the outside world is represented:

- **The exchange** is a `Remote` value:
  - the oldest-bar and newest-bar probes (None: the call raised);
  - the answers to successive page requests, in the order they are asked:
    a page, "too many requests", or any other error;
  - the answer to the Binance bulk request.

  A download that is still retrying when the scripted answers run out ends as
  `Stalled`.
- **The fetcher's effects** are recorded on the `Fetcher` object:
  - every data request it sends;
  - the rounds `save_df` logs as saving;
  - the cache files, as a map from path to contents;
  - the save running on the background thread, as a single slot.

  A new save first waits for the one in flight, as `join` does.
- **Timestamps** are integer milliseconds since the epoch, UTC. The gap
  arithmetic is then exact, and Binance millisecond stamps and the 2017-01-01
  starting point are represented without loss. Prices and volumes are opaque
  integers with None standing for NaN. The optimiser's money values are `real`.
- **The backtest engine and the Optuna trial** are oracles. For each period,
  `Objective` takes the engine's outcome (`EngineRun`) and the trial's
  `should_prune()` answer as inputs.

Behaviour of the source that is kept as written:

- "3h" is stored as "1h" but steps 180 minutes.
- Bitmex page requests use the requested bin size, not the stored one.
- Appended pages are not de-duplicated, on either exchange.
- No save follows the last Bitmex round, so the rounds after the last
  multiple of `save_after` are not persisted.
- The Binance path persists only the freshly fetched rows, while it returns
  the cache and the fresh rows together.
- The Binance kline fields are labelled by position with a list that does not
  match the exchange's field order. The index is therefore built from the
  kline volumes, in no particular order. The final slice then follows pandas'
  rules for a descending index or an unordered one, and on an unordered one it
  can raise KeyError.
- "pnl" is rejected by the analyzer check although the metric dispatch has a
  branch for it.
- The days of a spacing are ignored when its resolution is hours or minutes.

Three edge cases of the source follow from the code:

- With `save_after == 0`, the first save raises, since `i % 0` raises.
- An empty Bitmex page raises. Dropping rows by columns that an empty frame
  does not have raises.
- Binance request times are cut to whole seconds, because they are formatted
  with `strftime`.

## Model

| member | source | states |
|---|---|---|
| `Bars.Admit` | strategies_tester/datafetcher.py:164-170 | a fetched page keeps at most its records, and every row kept has all five prices |
| `Bars.AdmitExactly` | strategies_tester/datafetcher.py:165-168 | a row is kept exactly when it comes from a record with a timestamp and all five prices |
| `Bars.AdmitConcat` | strategies_tester/datafetcher.py:164-171 | filtering two pages one after the other is filtering their concatenation |
| `Bars.AdmitKeepsFullPage` | strategies_tester/datafetcher.py:164-170 | a page with no missing required field keeps every record, in order |
| `Bars.Project` | strategies_tester/datafetcher.py:216 | the column selection keeps every row and its order and drops only the unnamed columns |
| `Bars.SliceMembership` | strategies_tester/datafetcher.py:75 | a row is in the window rows (what `df[from:to]` gives on an ascending index) exactly when it is in the frame and inside the inclusive window |
| `Bars.SliceUnbounded` | strategies_tester/datafetcher.py:75 | with no bounds the slice is the whole frame |
| `Bars.SliceEmptyWindow` | strategies_tester/datafetcher.py:75 | a window ending before it starts selects nothing |
| `Bars.SliceOfSlice` | strategies_tester/datafetcher.py:75 | slicing twice is slicing once by the intersection of the two windows |
| `Bars.FirstWhere` | strategies_tester/datafetcher.py:75 | the search position: every row before it fails the test and the row at it, when there is one, passes |
| `Bars.LabelRun` | strategies_tester/datafetcher.py:75 | `get_loc` finds a bound exactly when some row is labelled with it and all such rows are adjacent, and then the run holds exactly the rows with that label |
| `Bars.AscendingCut` | strategies_tester/datafetcher.py:75 | on an ascending index a row is inside the window exactly when it lies between the left and the right binary search |
| `Bars.DescendingCut` | strategies_tester/datafetcher.py:75 | on a descending index a row lies between `to` and `from` exactly when it lies between the two searches made on the reversed index |
| `Bars.PandasSliceAscending` | strategies_tester/datafetcher.py:75 | on an ascending index `df[from:to]` never raises and gives exactly the rows inside the inclusive window, in order |
| `Bars.PandasSliceDescending` | strategies_tester/datafetcher.py:75 | on a descending index `df[from:to]` never raises and gives the rows between `to` and `from`, in order |
| `Bars.PandasSliceUnordered` | strategies_tester/datafetcher.py:75 | on an index in neither order `df[from:to]` raises KeyError exactly when a given bound labels no row or labels rows that are not adjacent |
| `Bars.PandasSliceByLabel` | strategies_tester/datafetcher.py:75 | on an index in neither order with both bounds found, the slice runs by position from the first row labelled `from` through the last row labelled `to`, and is empty when those cross |
| `Granularity.Parse` | strategies_tester/datafetcher.py:31-33 | a bin size the tables know is found under its own name; any other string raises |
| `Granularity.ParseName` | strategies_tester/datafetcher.py:31-33 | every bin size of the tables is found again from its name |
| `Granularity.Canonical` | strategies_tester/datafetcher.py:32-33 | the stored granularity is one of 1m, 5m, 1h, 1d, and a stored one maps to itself |
| `Granularity.CanonicalIdempotent` | strategies_tester/datafetcher.py:32-33 | mapping a stored granularity again changes nothing |
| `Granularity.StepMinutes` | strategies_tester/datafetcher.py:31 | every bin size steps a positive number of minutes |
| `Granularity.StepFollowsCanonical` | strategies_tester/datafetcher.py:31-32 | a request steps as its stored granularity does, except exactly "3h" (180 minutes, stored as "1h") |
| `Granularity.NominalMinutes` | strategies_tester/datafetcher.py:34 | the nominal length agrees with the step for every stored granularity |
| `Granularity.SameCacheFileIff` | strategies_tester/datafetcher.py:47-48 | two bin sizes of one exchange and symbol share a cache file exactly when they share a stored granularity |
| `CacheStore.Load` | strategies_tester/datafetcher.py:50-58 | a missing or unreadable cache file gives an empty frame; otherwise no row with a missing cell survives, and none is added |
| `CacheStore.SaveThenLoad` | strategies_tester/datafetcher.py:50-58 | after a save lands, reading the file gives the saved rows without those with a missing cell, and all of them when none has one |
| `CacheStore.LoadSaveLoad` | strategies_tester/datafetcher.py:50-58 | saving what was read and reading again gives the same frame |
| `CacheStore.Landed` | strategies_tester/datafetcher.py:94-97 | once the save in flight finishes its file holds its frame, and no file disappears |
| `CacheStore.ReplayEffect` | strategies_tester/datafetcher.py:90-97 | after a run of save requests the last frame is in flight, the one before it has landed, and the file ends up holding the last frame |
| `Gap.CeilDivBounds` | strategies_tester/datafetcher.py:144-145 | `math.ceil(a / b)` times `b` lies within one divisor above `a` |
| `Gap.CeilDivLeast` | strategies_tester/datafetcher.py:144-145 | it is the least such multiple |
| `Gap.RoundsNonPositiveIff` | strategies_tester/datafetcher.py:143-147 | there are no rounds exactly when the newest remote bar is not after the resume point |
| `Gap.PageStartsIncrease` | strategies_tester/datafetcher.py:154-155 | the start of a round's page strictly increases with the round |
| `Gap.PagesCoverGap` | strategies_tester/datafetcher.py:143-155 | the last round starts before the newest bar and the round after it would start at or after it, so the pages cover the gap |
| `Gap.WholeBars` | strategies_tester/datafetcher.py:143-145 | a gap of a whole number of bars takes ceil(bars / 750) rounds |
| `Reconcile.Walk` | strategies_tester/datafetcher.py:149-186 | the page loop stops completed, aborted on the reply that raised, or out of answers, never past the replies it has |
| `Reconcile.WalkCompleted` | strategies_tester/datafetcher.py:149-178 | a completed loop received exactly one page per round, ended on a page, and met no reply that raises |
| `Reconcile.WalkAborted` | strategies_tester/datafetcher.py:152-178 | an aborted loop stopped at the first reply that raises, with rounds still to do |
| `Reconcile.WalkExhausted` | strategies_tester/datafetcher.py:152-178 | a loop out of answers met nothing that raises and too few pages |
| `Reconcile.RetryNeverDropsData` | strategies_tester/datafetcher.py:176-178 | one more rate-limit answer before the last page changes neither the pages received nor how the loop ends |
| `Reconcile.PageRequestsAt` | strategies_tester/datafetcher.py:154-161 | each request asks for 750 bars of the requested bin size, starting where the round of the pages received so far starts |
| `Reconcile.RetryRepeatsRequest` | strategies_tester/datafetcher.py:152-178 | a rate-limited request is followed by a request for the same page |
| `Reconcile.RequestsAdvancePastPages` | strategies_tester/datafetcher.py:154-161 | once a page has arrived, every later request starts strictly later |
| `Reconcile.FetchedIsAdmitOfAll` | strategies_tester/datafetcher.py:164-171 | appending pages one by one, each filtered, is filtering all their records: nothing is lost or repeated at a page boundary |
| `Reconcile.SaveRoundsExactly` | strategies_tester/datafetcher.py:90-92 | a round's save fires exactly when the round is a multiple of `save_after`, and the saved rounds increase |
| `Reconcile.LastSaveRound` | strategies_tester/datafetcher.py:174-186 | round 0 always saves, and the last round saved is the largest multiple of `save_after` below the round count, with no save after the loop |
| `Reconcile.SnapshotsAtSaveRounds` | strategies_tester/datafetcher.py:171-175 | one frame per saved round, holding the cache and every page up to that round |
| `Reconcile.Resume` | strategies_tester/datafetcher.py:105-119 | the Bitmex resume point is the last cached timestamp, or the probed oldest bar when nothing is cached |
| `Reconcile.BitmexPlan` | strategies_tester/datafetcher.py:142-147 | a fetch always has at least one round |
| `Reconcile.LoopHaltsAt` | strategies_tester/datafetcher.py:149-186 | a loop that meets a raising reply with rounds left raises, having sent one request per reply up to and including that one and saved only the due rounds among the pages before it |
| `Reconcile.LoopStallsAt` | strategies_tester/datafetcher.py:149-186 | a loop that runs out of answers with rounds left has sent one request per answer and saved the due rounds among all pages |
| `Reconcile.LoopCompletesAt` | strategies_tester/datafetcher.py:149-186 | a loop that received one page per round returns the cache followed by those pages, having saved every due round |
| `Reconcile.TraceClosedForm` | strategies_tester/datafetcher.py:149-186 | handling the replies one by one builds the cache plus every page, one request per reply, the saves of the due rounds and their files |
| `Reconcile.UpToDateCache` | strategies_tester/datafetcher.py:105-147 | when the newest remote bar is not after the resume point (the last cached bar, or for an empty cache the oldest remote bar), the cache comes back unchanged with no request or save |
| `Reconcile.CompletedDownload` | strategies_tester/datafetcher.py:149-186 | a completed download returns the cache followed by one page per round in round order, and its rounds reach the newest bar |
| `Reconcile.Relabel` | strategies_tester/datafetcher.py:198-202 | each positional column label names the kline field at that position |
| `Reconcile.BinanceRows` | strategies_tester/datafetcher.py:198-208 | the fetched klines keep at most their number of rows, each with all prices and the requested symbol |
| `Reconcile.KlineRow` | strategies_tester/datafetcher.py:198-208 | a kept kline's row is indexed by its volume and holds its low, open, high, open time and close under open, high, low, close and volume, with the symbol and the six other fields |
| `Reconcile.BinanceRowsStep` | strategies_tester/datafetcher.py:198-208 | one more kline adds its row at the end when it is kept and nothing otherwise, so the rows keep the klines' order |
| `Reconcile.BinanceRowsExactly` | strategies_tester/datafetcher.py:198-208 | a row comes out of the klines exactly when some kept kline becomes it |
| `Reconcile.BinanceRowsAllKept` | strategies_tester/datafetcher.py:198-208 | when every kline is kept there is one row per kline, row `i` being kline `i`'s row |
| `Reconcile.ToSecond` | strategies_tester/datafetcher.py:195-196 | a request time is its instant cut down to the whole second |
| `Reconcile.BinanceKeepsCacheButSavesFreshOnly` | strategies_tester/datafetcher.py:188-216 | the Binance path returns the whole cache followed by the fresh rows, saves only the fresh rows, and always sends one request |
| `Reconcile.PricedRowsKept` | strategies_tester/datafetcher.py:215 | dropping rows with a missing price keeps a frame that has none |
| `Reconcile.DownloadSliced` | strategies_tester/datafetcher.py:46-75 | an unknown bin size raises; a raised download stays raised; otherwise the frame brought up to date is sliced as pandas does: the window rows on an ascending index, the rows between `to` and `from` on a descending one, and KeyError on an index in neither order exactly when a bound is not a label of adjacent rows; any other exchange is not asked anything and its frame is the cache file |
| `Reconcile.FreshBinanceFrame` | strategies_tester/datafetcher.py:188-216 | a Binance download on an empty cache whose klines are all kept returns one row per kline, in their order, indexed by its volume and holding its relabelled prices and the symbol |
| `Reconcile.UnorderedBinanceIndexRaises` | strategies_tester/datafetcher.py:46-75 | klines with volumes 5, 3, 7 give an index in neither order, and a `date_from` of 4 makes `download_data` raise |
| `Reconcile.DescendingBinanceIndexSlices` | strategies_tester/datafetcher.py:46-75 | klines with volumes 5, 3 give a descending index, and a `date_from` of 4 returns the single row labelled 3 |
| `DataFetcher.Fetcher.constructor` | strategies_tester/datafetcher.py:41-44 | a new fetcher has its `save_after`, no save in flight and nothing logged |
| `DataFetcher.Fetcher.Settle` | strategies_tester/datafetcher.py:94-95 | the save in flight lands and nothing else changes |
| `DataFetcher.Fetcher.SaveDf` | strategies_tester/datafetcher.py:90-97 | raises exactly when `save_after` is 0; a due round lands the save in flight, puts the frame in flight and is logged; any other round changes nothing |
| `DataFetcher.Fetcher.FetchRounds` | strategies_tester/datafetcher.py:149-186 | the rounds loop ends as the page-loop specification says, with its requests, save log, files and save in flight |
| `DataFetcher.Fetcher.HandleReply` | strategies_tester/datafetcher.py:153-178 | one request and its reply advance the fetcher's state by exactly one step of the reply-by-reply trace, or end the download as specified |
| `DataFetcher.Fetcher.FetchRound` | strategies_tester/datafetcher.py:150-185 | one round keeps the fetcher's state equal to the reply-by-reply trace, or ends the download as specified |
| `DataFetcher.Fetcher.BitmexDownload` | strategies_tester/datafetcher.py:141-186 | the outcome, requests, save log, files and save in flight are those of the Bitmex specification |
| `DataFetcher.Fetcher.BinanceDownload` | strategies_tester/datafetcher.py:188-216 | the outcome, request, save log, files and save in flight are those of the Binance specification |
| `DataFetcher.Fetcher.DownloadData` | strategies_tester/datafetcher.py:46-75 | the outcome, requests, save log, files and save in flight are those of loading the cache file, bringing it up to date from the named exchange and slicing it as pandas does (`DownloadSliced`) |
| `Optimize.FoldChar` | strategies_tester/strategies/_optimize.py:44 | upper-case letters become lower-case, spaces become underscores, everything else stays |
| `Optimize.NormalizeAnalyzer` | strategies_tester/strategies/_optimize.py:44 | a missing or empty name becomes "none"; otherwise each character is folded, keeping the length |
| `Optimize.NormalizeIdempotent` | strategies_tester/strategies/_optimize.py:44 | a normalised name normalises to itself |
| `Optimize.PnlRejected` | strategies_tester/strategies/_optimize.py:44-45 | every spelling of "pnl" is rejected by the analyzer check |
| `Optimize.Backtest` | strategies_tester/strategies/_optimize.py:65-108 | a backtest fails exactly when the engine raised, no trade was lost or the name is unknown; pnl is the final value less the starting cash; winrate is won per lost times 100 |
| `Optimize.BacktestSelectsMetric` | strategies_tester/strategies/_optimize.py:93-104 | for an accepted analyzer only the engine or a run without a lost trade makes the backtest fail; the stats carry the engine's SQN, VWR and Sharpe ratio, and the value is the engine's SQN, VWR or Sharpe ratio, the win rate, or for "none" the final value less the starting cash, as the name selects |
| `Optimize.Objective` | strategies_tester/strategies/_optimize.py:113-138 | reports the periods' values at steps 1, 2, ... in order; scores exactly when every period has a value and none asks to prune, with the last period's value; otherwise prunes at the first period without a value or after the first prune request |
| `Optimize.SettledFilesFrame` | strategies_tester/datafetcher.py:90-97 | once a fetcher's saves have landed no file disappears, only the requested granularity's cache file may change, and it holds the last frame saved (unchanged when none was) |
| `Optimize.DownloadsShape` | strategies_tester/strategies/_optimize.py:56-63 | the period-by-period downloads give one frame per period, or raise at one of the periods |
| `Optimize.Prepare` | strategies_tester/strategies/_optimize.py:44-63 | the analyzer assertion fails exactly when the analyzer is not accepted; otherwise the frames are exactly those of the period-by-period downloads (`Downloads`), each read from the files the previous period's fetcher left, or the constructor raises at the first period whose download raised |
| `Optimize.FetchPeriod` | strategies_tester/strategies/_optimize.py:56-63 | one period's outcome is what `download_data` computes on the current files, and the files afterwards are those its fetcher leaves once its last save lands |
| `Optimize.NTrials` | strategies_tester/strategies/_optimize.py:186-190 | the trials left never go below zero and make up the missing completed ones |
| `Optimize.NTrialsResume` | strategies_tester/strategies/_optimize.py:158-165 | `optimize` runs exactly when fewer trials completed than asked, and after the remaining trials complete nothing is left |
| `Optimize.DefaultNJobs` | strategies_tester/strategies/_optimize.py:192-201 | an explicit job count is kept; otherwise 1 for SQLite storage and the CPU count for anything else |
| `Optimize.DefaultNJobsIdempotent` | strategies_tester/strategies/_optimize.py:192-201 | defaulting the job count twice is defaulting it once |
| `Optimize.DefaultEngineKwargs` | strategies_tester/strategies/_optimize.py:203-216 | explicit options are kept; PostgreSQL storage gets 20 pooled connections per job, or per CPU when the job count is not positive, no overflow and a 100 s timeout, and raises exactly when there is no positive job count and no CPU count; other storage gets none |
| `Optimize.RunEngineKwargs` | strategies_tester/strategies/_optimize.py:140-142 | `run` defaulting the job count before the engine options gives the same options as defaulting once |
| `Optimize.SqliteStorage` | strategies_tester/strategies/_optimize.py:192-216 | SQLite storage runs one job and gets no engine options |
| `UtilsBacktest.ComponentsOf` | strategies_tester/utils_backtest.py:21 | the components add back up to the spacing, with hours, minutes, seconds and milliseconds in their ranges |
| `UtilsBacktest.ComponentsRemainders` | strategies_tester/utils_backtest.py:19-27 | the part after whole days and the part after whole minutes are the spacing's remainders |
| `UtilsBacktest.ResolutionByDivisibility` | strategies_tester/utils_backtest.py:19-27 | the resolution is days exactly for a whole number of days, hours or minutes exactly for whole minutes that are not whole days, and finer otherwise |
| `UtilsBacktest.FeedParams` | strategies_tester/utils_backtest.py:16-27 | the feed fails (IndexError) exactly when the frame has fewer than three rows |
| `UtilsBacktest.FeedPassThrough` | strategies_tester/utils_backtest.py:18 | a given timeframe and compression pass through unchanged |
| `UtilsBacktest.FeedMinutes` | strategies_tester/utils_backtest.py:19-24 | whole minutes give minute bars as long as the spacing less its whole days: the spacing itself below a day, shorter above |
| `UtilsBacktest.FeedDays` | strategies_tester/utils_backtest.py:25-27 | whole days give day bars exactly as long as the spacing |
| `UtilsBacktest.FeedFinerThanMinutes` | strategies_tester/utils_backtest.py:18-27 | a spacing finer than a minute leaves the values as passed |
| `UtilsBacktest.MinOf` | strategies_tester/utils_backtest.py:55-56 | the minimum is in the index and not above any instant of it |
| `UtilsBacktest.MaxOf` | strategies_tester/utils_backtest.py:58-59 | the maximum is in the index and not below any instant of it |
| `UtilsBacktest.DateBounds` | strategies_tester/utils_backtest.py:55-59 | a given bound is kept; a missing one is the first or last instant of the frame, and missing for an empty frame |
| `UtilsBacktest.DefaultWindowKeepsFrame` | strategies_tester/utils_backtest.py:55-66 | the default window holds every row, so slicing by it keeps the frame |
| `UtilsBacktest.BacktestFeedDerived` | strategies_tester/utils_backtest.py:62-66 | the backtest feed always derives its values from the spacing; a timeframe is set exactly for whole minutes, and a finer spacing leaves both to backtrader |

## Left out

- The network clients (bitmex with bravado, python-binance) are left out. They are replaced by the scripted `Remote`. The `count=1` probe requests are not recorded among the requests.
- The filesystem work of `_save_df` is left out: `mkdir`, `mkstemp`, CSV writing and `move`. An exception there is only logged by the source. A save that lands is modelled as the file holding exactly the saved rows.
- The `RLock` and the background thread are left out. The model picks one interleaving: a save request waits for the one in flight, and the constructor of the optimiser lets each fetcher's last save land before the next period is read.
- DataFetcher.Fetcher.BitmexDownload: the one-second cooldown between requests (`time.time`, `time.sleep`) is not modelled. Neither is its quirk that `t` is refreshed only on success, so retries after the first within one round do not sleep.
- DataFetcher.Fetcher.BitmexDownload: the source retries a rate-limited page forever. The model stops with `Stalled` once the scripted answers run out, because the script is finite.
- Pandas internals are left out: datetime parsing and UTC conversion, column union and sorting on `append`, the index dtype. An unparsable timestamp in a cache file is covered only by the `Unreadable` file.
- The slice `df[date_from:date_to]` is modelled for datetime bounds on a datetime index, as pandas 1.x resolves them. Bounds given as strings (partial-string indexing) and the timezone checks on the bounds are left out. Callers pass both timezone-aware and naive datetimes as bounds. The model reads every bound as a UTC instant. How pandas treats a naive bound against the UTC index is left out: depending on its version it localizes the bound or raises.
- An empty cache frame has no datetime index in the source. The model slices it like any empty index, giving an empty frame.
- `real_bin_size` (`Granularity.NominalMinutes`) is declared by the fetcher but read by none of its operations. It is modelled only as a table.
- The `if cache_filepath` guards are not modelled. The path is always non-empty, so they are always true.
- Timestamps are milliseconds, not fractional seconds. The minute gap is therefore exact where the source divides floats.
- Optimize.FoldChar: lower-cases ASCII letters only. Python's `str.lower` also folds other Unicode letters.
- The constructor of the optimiser downloads through a fetcher whose `save_after` is the default 25. Its logging is left out.
- `trial.set_user_attr`, `get_parameters` (it returns no parameters), the study creation and loading in `run` and the returned `best_params` are Optuna calls. They are left out.
- Optimize.Backtest: exceptions raised inside the engine or by a missing analyzer key are folded into the engine's `Failed` answer.
- `backtest_strategy`'s cerebro wiring is left out: sizer, commission, analyzers, replay, resampling and plotting. Only its date defaults and the feed it builds are modelled.
- `Timedelta.resolution_string` follows pandas 1.x: 'H', 'T', 'D'. Pandas 2.2 reports 'h' and 'min', where neither hour nor minute branch would match. Spacings finer than a millisecond cannot occur with millisecond timestamps.
- The strategy classes, their indicators, `strategies/optimize.py` (an older copy of the same rules) and the command-line scripts are not part of this model.
