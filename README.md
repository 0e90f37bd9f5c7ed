# bvvmoneymaker, verified model of the trading core

bvvmoneymaker is a trading bot for the Bitvavo exchange. For every market quoted in the
configured fiat currency it keeps the holdings between a configured minimum and maximum. It
sells the excess and buys the shortfall, but it does not buy while the market is "under
water", that is, while the average rate paid for the holdings is above the current price.
It also estimates an expected price from the exchange's candles with log-space moving
averages.

This Dafny project models the arithmetic and bookkeeping core of the bot and proves what
that code promises:

- `Ema`: the log-space sliding-window estimator (`pkg/moving_average/ema.go`) with its
  running accumulators.
- `Sma`: the simple moving average (`pkg/moving_average/sma.go`).
- `Bandwidth`: the bandwidth percentages (`pkg/moving_average/main.go`).
- `Rate`: the signed rate accumulator of a market's trades (`internal/rate.go`).
- `Market`: the market algebra: reverse pair, total, name and price lookup
  (`internal/bvv_market.go`).
- `Generic` and `Config`: integer defaults, the percentage helper and the estimator
  configuration (`internal/generic.go`, `internal/config.go`).
- `Buckets`, `MovingAverageHandler` and `Ribbon`: how candles become buckets, are ordered by
  time and are fed to one estimator or to a ribbon of them
  (`internal/moving_average_handler.go`, `internal/ribbon_handler.go`).
- `Handler`: the decision chain of `Evaluate` and the amount and mode logic of `Sell`/`Buy`
  (`internal/bvv_handler.go`).

Modelling conventions:

- Decimals (shopspring) and `float64` are `real`, so the model is exact rational
  arithmetic.
- `math.Log` and `math.Exp` are the abstract functions `Log` and `Exp` an estimator is
  built with.
- `decimal.NewFromString` is an abstract partial function `parse: string -> Result<real>`.
- Go's `(value, error)` returns are `Result`, and a bare `error` is `Outcome`.
- Go's `int64` and `uint` are newtypes. Their wrap-around is written out where the source
  can overflow (`2 * Window`, `maxWindow + PreWarm`, and the `int` to `uint` conversion of
  the window).
- Everything the exchange provides is an input: candle responses, the list of markets, the
  asset table, and the answer to an order.
- The objects the source updates in place are classes: `EMA`, `SimpleMovingAverage`,
  `Rate`, `BvvMarket`, `MAConfig`, `MAHandler` and `RibbonHandler`. `eMAAvgVal`, which
  `EMA` embeds by value, is a datatype whose updates are assigned back to the field.
- `log.Fatalf` and the panic of a decimal division by zero both stop `Evaluate`. They are
  modelled as a failed `Outcome`.

## Model

| member | source | states |
|---|---|---|
| Ema.AvgVal.Sub | pkg/moving_average/ema.go:19-28 | refuses (and changes nothing) exactly when at most one value is held; otherwise adding the value back gives the original accumulator |
| Ema.AvgVal.Get | pkg/moving_average/ema.go:30-37 | an error exactly when the count is 0 |
| Ema.SummaryAdd | pkg/moving_average/ema.go:14-17 | adding a value to the accumulator of a sequence gives the accumulator of the sequence extended by it (sum and count grow together) |
| Ema.SummaryGet | pkg/moving_average/ema.go:30-37 | the mean of an accumulated sequence is its arithmetic mean; an empty one is the count-0 error |
| Ema.AccumulatedGet | pkg/moving_average/ema.go:30-37 | the value accumulator's mean is the mean logarithm of the retained observations |
| Ema.Push | pkg/moving_average/ema.go:65-69 | the FIFO step ends with the new observation, grows by one while the window is not full, and never overfills a bounded window |
| Ema.WindowStep | pkg/moving_average/ema.go:59-69 | pushing each added observation keeps exactly the last `window` observations (all of them for window 0) |
| Ema.SlidePush | pkg/moving_average/ema.go:64-69 | AddValue's add-then-evict update of the accumulator and history is a FIFO push, and the accumulator still sums and counts the kept logarithms |
| Ema.AddStep | pkg/moving_average/ema.go:59-71 | one AddValue keeps all invariants: accumulator = retained logs, history = what the window retains of everything added, one offset sample per added value |
| Ema.WindowBounds | pkg/moving_average/ema.go:66-68 | an unbounded window holds every value ever added; a bounded one holds the most recent min(added, window) values |
| Ema.EMA.constructor | pkg/moving_average/ema.go:55-57 | a new estimator is empty and consistent |
| Ema.EMA.AddValue | pkg/moving_average/ema.go:59-72 | the observation is recorded, the history is the FIFO push of it, the invariants are kept, and exactly one offset sample `log(v) - mean` is added whatever the window |
| Ema.EMA.GetExp | pkg/moving_average/ema.go:74-76 | an error exactly when the history is empty, otherwise the mean retained logarithm |
| Ema.EMA.Get | pkg/moving_average/ema.go:78-87 | an error exactly when the history is empty, otherwise Exp of the mean retained logarithm |
| Ema.EMA.GetWithOffset | pkg/moving_average/ema.go:89-102 | available exactly when at least one value was ever added (window 0 too); then Exp of the mean log plus the mean offset |
| Ema.EMA.GetBandwidth | pkg/moving_average/ema.go:104-122 | an error exactly when the history is empty; Min and Max are retained raw values bounding all of them; Cur is the estimate |
| Ema.FirstValueExample | pkg/moving_average/ema_test.go:20-23 | whatever the window (2 in this test, unbounded at lines 44-47), a single value 1 estimates 1 (given log and exp laws) |
| Ema.WindowTwoExample | pkg/moving_average/ema_test.go:10-29 | a window of 2 fed 1, 2, 8 keeps 2 and 8 and estimates 4 (given log and exp laws) |
| Ema.UnboundedExample | pkg/moving_average/ema_test.go:31-51 | an unbounded window fed 1, 2, 4 keeps all three and estimates 2 |
| Sma.SlideStep | pkg/moving_average/sma.go:29-37 | the append-and-evict step retains the last `window` values of all added ones, and the sum moves by the added minus the evicted value; window -1 evicts the value at once |
| Sma.SimpleMovingAverage.constructor | pkg/moving_average/sma.go:12-16 | the zero value: no values, sum 0 |
| Sma.SimpleMovingAverage.AddValue | pkg/moving_average/sma.go:29-37 | sum equals the sum of the retained values, which are the last `window` of all added ones; at most one (the oldest) is evicted; with a window below 1 nothing is kept and the sum does not change |
| Sma.SimpleMovingAverage.GetCurrentMA | pkg/moving_average/sma.go:39-47 | an error exactly when nothing is retained, otherwise the mean of the retained values |
| Sma.NewSimpleMovingAverage | pkg/moving_average/sma.go:18-27 | window 0 and windows below -1 are refused with "invalid window size N" and the zero value; otherwise the window is stored |
| Strings.NatToStringValue | pkg/moving_average/sma.go:22 | the decimal digits of a natural number read back as that number, with no leading zero except in "0" |
| Strings.IntToString | pkg/moving_average/sma.go:22 | what `%d` prints: a minus exactly for negative numbers, then only digits, no leading zero except in "0", reading back as the magnitude |
| Bandwidth.MABandwidth.GetMinPercent | pkg/moving_average/main.go:15-18 | the minimum is the estimate reduced by the percentage; 0 exactly when Min = Cur; in [0,100) for 0 < Min <= Cur |
| Bandwidth.MABandwidth.GetMaxPercent | pkg/moving_average/main.go:20-23 | the estimate is the maximum reduced by the percentage; 0 exactly when Cur = Max; in [0,100) for 0 < Cur <= Max |
| Rate.ConvertErrorSpec | internal/rate.go:20-22 | the conversion error names the field and carries the parse error's message inside fmt's `%!e(string=…)` report, as `%e` prints an error value |
| Rate.Effect | internal/rate.go:15-33 | a trade parses exactly when amount and price do (amount checked first, with the conversion error naming the field); "buy" adds (amount, price·amount), every other side subtracts them |
| Rate.Rate.constructor | internal/rate.go:10-13 | the zero value: both totals 0 |
| Rate.Rate.Buy | internal/rate.go:35-38 | adds both amounts, nothing else changes |
| Rate.Rate.Sell | internal/rate.go:40-43 | subtracts both amounts, nothing else changes |
| Rate.Rate.ExchangeFromTrade | internal/rate.go:15-33 | a parse failure is returned and leaves the totals unchanged; otherwise the totals move by the trade's effect |
| Rate.Rate.Average | internal/rate.go:45-50 | an error exactly when From is 0, otherwise the rate r with r·From = To |
| Rate.MovedShift | internal/rate.go:35-43 | a batch moves the totals by the same amount wherever they start |
| Rate.MovedConcat | internal/rate.go:35-43 | recording two batches in turn is recording their concatenation |
| Rate.MovedOrderIndependent | internal/rate.go:35-43 | the totals after a batch do not depend on the order of its trades |
| Rate.MovedSubPrefix | internal/rate.go:35-43 | a trade can be taken out of the middle of a batch and its effect applied first |
| Rate.BuySellCancel | internal/rate.go:35-43 | a buy followed by a sell of the same amount at the same price restores the totals |
| Market.Snapshot.Name | internal/bvv_market.go:43-45 | the name is the base symbol, a dash and the quote symbol |
| Market.Snapshot.Reversed | internal/bvv_market.go:21-33 | an error exactly when the price is 0; otherwise swapped symbols, the reciprocal price, and no range |
| Market.ReversedName | internal/bvv_market.go:25-27 | the reverse market's name is "To-From" |
| Market.ReversedTotal | internal/bvv_market.go:28-41 | the reverse balances are the originals exchanged at the price, and so is the total |
| Market.ReversedTwice | internal/bvv_market.go:21-37 | reversing twice restores symbols, price and balances |
| Market.BvvMarket.constructor | internal/bvv_market.go:21-33 | a market holding the given values and no inverse link |
| Market.BvvMarket.Reverse | internal/bvv_market.go:21-33 | a fresh market with the reversed snapshot and no inverse; with price 0 a zero market and the error |
| Market.BvvMarket.SetPrice | internal/bvv_market.go:47-56 | succeeds exactly when the market's name is in the table, taking its price; otherwise the price becomes 0 and the error names the market |
| Generic.Wrap64Spec | internal/config.go:53 | int64 arithmetic wraps modulo 2^64 and is exact within range |
| Generic.Wrap32Spec | internal/bvv_handler.go:183 | the int32 conversion keeps the value modulo 2^32 and is exact within range |
| Generic.WrapU64Spec | internal/ribbon_handler.go:47 | uint arithmetic wraps modulo 2^64 and is exact within range |
| Generic.DefaultInt64 | internal/generic.go:19-25 | the result is the value or the default, and 0 exactly when both are 0 |
| Generic.DefaultInt64Idempotent | internal/generic.go:19-25 | defaulting twice is defaulting once |
| Generic.NearestWholeBounds | internal/bvv_handler.go:191 | the whole number nearest to a value, halves away from zero, is within a half of it and has its sign |
| Generic.RoundToBounds | internal/bvv_handler.go:191 | `Round(places)` gives the whole number of units of the last place nearest to the value, within half a unit of it, with its sign |
| Generic.RoundToTwo | internal/generic.go:30 | `Round(places)` at two places is the `Round(2)` of the percentage helper |
| Generic.RoundToDownExample | internal/bvv_handler.go:191 | rounding can take a value below itself: 0.123 to two places is 0.12 |
| Generic.Round2Bounds | internal/generic.go:30 | rounding to two places moves a value by at most half a hundredth |
| Generic.Round2Monotonic | internal/generic.go:30 | rounding to two places preserves order |
| Generic.DecimalPercentBounds | internal/generic.go:27-31 | within half a hundredth of 100·(a−s)/a; 0 when s = a; not negative when 0 < a and s <= a |
| Generic.DecimalPercentAtMost100 | internal/generic.go:27-31 | at most 100 for a positive amount and a non-negative scale |
| Config.MAConfig.constructor | internal/config.go:32-36 | a configuration holding the given settings |
| Config.MAConfig.Enabled | internal/config.go:38-55 | the zero configuration is disabled, and every configuration SetDefaults has completed is enabled |
| Config.MAConfig.SetDefaults | internal/config.go:45-55 | empty interval becomes "1d", window 0 becomes 42, limit 0 becomes twice the defaulted window (in int64); set values are kept, a defaulted config is unchanged, and the result is enabled |
| Config.ZeroConfigDefaults | internal/config.go:45-55 | the all-zero configuration defaults to "1d", 42 and 84 |
| Buckets.AverageBounds | internal/moving_average_handler.go:81-83 | a bucket's average lies between its lowest and highest price, equals a common price, and is a quarter of the four prices' sum |
| Buckets.FirstError | internal/moving_average_handler.go:49-79 | none exactly when every field parses; otherwise the error of the first field that does not |
| Buckets.NewMABucketSpec | internal/moving_average_handler.go:49-79 | a candle becomes a bucket exactly when all five fields parse (low, open, close, high, volume order gives the error); the bucket copies timestamp and parsed values |
| Buckets.SortByTimestamp | internal/moving_average_handler.go:86-99 | the candles in non-decreasing timestamp order, a permutation of the response |
| Buckets.ParsePrefixSpec | internal/moving_average_handler.go:100-105 | the buckets are those of the leading candles, one each; a pass means every candle gave one, a failure carries the error of the first candle that did not parse |
| Buckets.ObservedSpec | internal/moving_average_handler.go:107-108 | one estimator observation per bucket, its average with its logarithm, in bucket order |
| MovingAverageHandler.MAHandler.constructor | internal/moving_average_handler.go:36-41 | the handler holds interval, limit and estimator and no buckets |
| MovingAverageHandler.MAHandler.Feed | internal/moving_average_handler.go:107-108 | one bucket appended and exactly its average added to the estimator |
| MovingAverageHandler.MAHandler.FeedAll | internal/moving_average_handler.go:100-109 | buckets and estimator follow the leading candles that parse, in order, and the first parse error is returned |
| MovingAverageHandler.MAHandler.InitFromCandles | internal/moving_average_handler.go:91-112 | a failed response is returned unchanged; otherwise the candles are fed sorted by timestamp |
| MovingAverageHandler.NewMAHandler | internal/moving_average_handler.go:30-47 | defaults are applied before the window, interval and limit are used; no handler exactly when feeding fails; the estimator has seen exactly the buckets' averages |
| Ribbon.MaxWindowSpec | internal/ribbon_handler.go:40-46 | the tracked maximum bounds every window and is one of them, or 0 with no windows |
| Ribbon.RibbonHandler.constructor | internal/ribbon_handler.go:35-38 | the handler holds the timeframe, no estimators and no buckets |
| Ribbon.RibbonHandler.AddEstimators | internal/ribbon_handler.go:40-46 | one fresh, empty estimator per window, in configuration order, and the largest window |
| Ribbon.RibbonHandler.Feed | internal/ribbon_handler.go:114-118 | one bucket appended and its average added to every estimator |
| Ribbon.RibbonHandler.FeedAll | internal/ribbon_handler.go:107-119 | buckets and every estimator follow the leading candles that parse, and the first parse error is returned |
| Ribbon.RibbonHandler.InitFromCandles | internal/ribbon_handler.go:98-122 | a failed response is returned unchanged; otherwise the candles are fed sorted by timestamp |
| Ribbon.NewRibbonHandler | internal/ribbon_handler.go:30-54 | a disabled configuration is refused; one estimator per configured window in order; limit = max window + PreWarm (uint); no handler exactly when feeding fails |
| Handler.ValuationSpec | internal/bvv_handler.go:64-75 | "under" exactly when the expected rate is above the price; the smaller rate is the larger reduced by the percentage; in [0,100), and 0 exactly when the rates agree, for positive rates |
| Handler.Advise | internal/bvv_handler.go:59-82 | a market with an estimator stops the evaluation when its expected rate or bandwidth is unavailable or a reported percentage divides by zero; one without always passes |
| Handler.DecideSpec | internal/bvv_handler.go:54-99 | non-fiat markets are skipped; above a positive Max the excess is sold, before anything else, leaving exactly Max; an unknown average rate or an under-water market never buys; otherwise below a positive Min the shortfall is bought, reaching exactly Min |
| Handler.BuyUnderwaterAllowsBuy | internal/bvv_handler.go:91-98 | either BuyUnderwater flag lets a market below its minimum buy even when under water |
| Handler.DecideIgnoresEstimator | internal/bvv_handler.go:59-99 | the valuation and bandwidth readings never change the decision |
| Handler.OrderAmount | internal/bvv_handler.go:170-172 | the amount raised to the minimum: at least both, and one of them |
| Handler.SentAmountSpec | internal/bvv_handler.go:169-191 | the amount sent is the whole number of units of the asset's last decimal place (decimals converted to int32) nearest to the larger of the amount and the minimum |
| Handler.SentBelowMinimumExample | internal/bvv_handler.go:169-191 | because rounding follows the raise to the minimum, the amount sent can be below the minimum: minimum 0.123 with 2 decimals sends 0.12 |
| Handler.Submit | internal/bvv_handler.go:169-229 | Sell and Buy alike, told apart by the side: a dry run sends nothing and succeeds; an unknown base asset is refused with "unknown asset X" before any order; otherwise exactly one market order on that side for the sent amount (the larger of the amount and the minimum, rounded to the asset's decimals), whose answer is the outcome |
| Handler.StepSpec | internal/bvv_handler.go:54-99 | a market sends at most one order, and only one justified by its decision; a non-fiat market does nothing |
| Handler.RunDryRun | internal/bvv_handler.go:173-177 | out of active mode no order is ever sent |
| Handler.RunOrdersJustified | internal/bvv_handler.go:54-100 | every order sent is justified by one of the markets; never more orders than markets |
| Handler.RunOutcome | internal/bvv_handler.go:49-101 | the evaluation completes exactly when every market's step passes, and otherwise stops with the first failure |
| Handler.Evaluate | internal/bvv_handler.go:49-101 | a failed market list ends the evaluation with its error; otherwise the loop's orders and outcome are those of `Run` |

## Left out

- Exchange I/O is not part of this model: the REST connection, `NewBvvHandler`,
  `getPrices`, `GetMarkets`, `GetAssets`, `GetBvvTime`, `GetRemainingLimit`, the candle
  request (its `limit` and `interval` options) and order placement. Their results are
  inputs.
  - The REST helpers return `err` instead of the transport error on a failed ticker or
    balance call (internal/bvv_handler.go:118-119 and 147-148). They are not modelled.
- internal/bvv_websocket.go, the command in cmd/bvv_moneymaker/main.go, `NewConfig`
  (environment, files, YAML), `PrettyPrint` and every log message are I/O or concurrency.
  The text of `log.Fatalf` messages is left out; the failure carries the underlying error.
- internal/moving_average.go is an older version of the handler and is not part of this
  model.
- Code that is not shown is an input:
  - `MinimumAmount`, `GetExpectedRate`, `GetBandWidth` and `markets.Sorted()` (the markets
    arrive already in order);
  - the trade history behind `rate`;
  - the `BuyUnderwater` settings;
  - the ribbon configuration, whose `Enabled` and `Initialize` are parameters.
- Float numerics: `math.Log`/`math.Exp` accuracy, `Float64()` conversions, the float
  division of `GetCurrentMA`, and the `2.828` offset value of the tests. The examples
  assume log(xy) = log x + log y and exp(log x) = x.
- shopspring decimals are exact: `Div`'s 16-digit rounding is not modelled. The rounding
  of an order's amount to the asset's decimals (`Round`, after the `int32` conversion) is
  modelled; the amount's `String()` text is not, the order carries the rounded value.
- The handler's `BvvMarket` is not defined in the files of this model. It is taken to have
  the fields of `bvvMarket` (internal/bvv_market.go:10-20), with its `Total` and `Name`.
- The `%e` of the conversion errors (internal/rate.go:20, 22) is rendered as fmt prints a pointer to
  the struct of errors.New (`&{%!e(string=msg)}`); the error type `decimal.NewFromString`
  returns is taken to be that one.
- Division by zero is a precondition of the pure helpers (`GetMinPercent`,
  `GetMaxPercent`, `DecimalPercent`, `Valuate`), where Go would panic. In `Evaluate` the
  panic is modelled as a failure.
- `sort.Sort` is not stable. The model sorts with a stable insertion sort, which is one of
  the orders `sort.Sort` may produce. Candles with equal timestamps may come out in
  another order in Go.
- Buckets.SortByTimestamp: proved sorted and a permutation of the response, not that it
  equals the order Go produces.
- Go's `int` is taken as 64 bits.
- The ema.go shown declares `NewEMA(window uint)` with a single result. The handler calls
  it with an `int` window and two results (internal/moving_average_handler.go:32-35). The
  model converts the window to `uint` (modulo 2^64); the error branch is dead and is not
  modelled.
- `MABucket`, `newMABucket`, `Average` and `candlesByTS` exist twice, in
  moving_average_handler.go and ribbon_handler.go. They are modelled once, in `Buckets`.
- The error of the eviction `Sub` in `AddValue` is discarded, as in Go. It cannot occur:
  a full bounded window holds at least two values when one is evicted.
