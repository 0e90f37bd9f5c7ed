/** The single-estimator market handler of internal/moving_average_handler.go: the candles
    of a market, ordered by time, each become a bucket whose average is fed to one EMA.
    The candle request to the exchange is left out; its response is an input. */
module MovingAverageHandler {
  import opened Wrappers
  import opened Generic
  import opened Config
  import opened Ema
  import opened Buckets

  class MAHandler {
    var interval: string
    var limit: int64
    var buckets: seq<MABucket>
    var ema: EMA

    /** The estimator is consistent and has seen exactly the averages of the buckets. */
    ghost predicate Valid()
      reads this, ema
    {
      ema.Valid() && ema.All == Observed(buckets, ema.Log)
    }

    constructor (interval: string, limit: int64, ema: EMA)
      requires ema.Valid() && ema.All == []
      ensures Valid()
      ensures this.interval == interval && this.limit == limit && this.ema == ema
      ensures buckets == []
    {
      this.interval := interval;
      this.limit := limit;
      this.ema := ema;
      buckets := [];
    }

    /** Records one bucket and feeds its average to the estimator. */
    method Feed(bucket: MABucket)
      requires Valid()
      modifies this, ema
      ensures Valid()
      ensures buckets == old(buckets) + [bucket]
      ensures ema == old(ema) && ema.window == old(ema.window) && interval == old(interval) && limit == old(limit)
    {
      ObservedSnoc(buckets, bucket, ema.Log);
      buckets := buckets + [bucket];
      ema.AddValue(bucket.Average());
    }

    /** Feeds the candles of a response, oldest first. An error response is returned as
        the error. */
    method InitFromCandles(response: Result<seq<Candle>>, parse: string -> Result<real>) returns (err: Outcome)
      requires Valid()
      modifies this, ema
      ensures Valid()
      ensures ema == old(ema) && interval == old(interval) && limit == old(limit)
      ensures ema.window == old(ema.window)
      ensures response.Err? ==> err == Fail(response.error) && buckets == old(buckets)
      ensures response.Ok? ==>
                var parsed := ParsePrefix(SortByTimestamp(response.value), parse);
                err == parsed.1 && buckets == old(buckets) + parsed.0
    {
      if response.Err? {
        return Fail(response.error);
      }
      err := FeedAll(SortByTimestamp(response.value), parse);
    }

    /** Each candle that parses becomes a bucket, and its average goes to the estimator,
        until one does not parse; its error is returned. */
    method FeedAll(candles: seq<Candle>, parse: string -> Result<real>) returns (err: Outcome)
      requires Valid()
      modifies this, ema
      ensures Valid()
      ensures ema == old(ema) && ema.window == old(ema.window) && interval == old(interval) && limit == old(limit)
      ensures err == ParsePrefix(candles, parse).1 && buckets == old(buckets) + ParsePrefix(candles, parse).0
    {
      ghost var start := buckets;
      var i := 0;
      while i < |candles|
        invariant 0 <= i <= |candles|
        invariant Valid() && ema == old(ema) && ema.window == old(ema.window)
        invariant interval == old(interval) && limit == old(limit)
        invariant ParsePrefix(candles[..i], parse).1.Pass?
        invariant buckets == start + ParsePrefix(candles[..i], parse).0
      {
        var bucket := NewMABucket(candles[i], parse);
        ParseStep(candles, i, parse);
        if bucket.Err? {
          return Fail(bucket.error);
        }
        Feed(bucket.value);
        i := i + 1;
      }
      assert candles[..i] == candles;
      err := Pass;
    }
  }

  /** A handler for the market: the configuration (copied, then defaulted) gives the interval,
      the candle limit and the estimator's window, converted to an unsigned integer; the
      candles of the response are then fed in. When feeding fails there is no handler. */
  method NewMAHandler(config: MAConfig, response: Result<seq<Candle>>, parse: string -> Result<real>,
                      log: real -> real, exp: real -> real)
    returns (mah: MAHandler?, err: Outcome)
    ensures err.Fail? <==> mah == null
    ensures response.Err? ==> err == Fail(response.error)
    ensures response.Ok? ==> err == ParsePrefix(SortByTimestamp(response.value), parse).1
    ensures mah != null ==>
              && fresh(mah) && fresh(mah.ema) && mah.Valid()
              && mah.interval == (if config.Interval == "" then DefaultInterval else config.Interval)
              && mah.ema.window == WrapU64(DefaultInt64(config.Window, DefaultWindow) as int) as int
              && mah.limit == DefaultInt64(config.Limit, Wrap64(2 * DefaultInt64(config.Window, DefaultWindow) as int))
              && mah.ema.Log == log && mah.ema.Exp == exp
              && response.Ok? && mah.buckets == ParsePrefix(SortByTimestamp(response.value), parse).0
  {
    var c := new MAConfig(config.Interval, config.Window, config.Limit);
    c.SetDefaults();
    var ema := new EMA(WrapU64(c.Window as int) as int, log, exp);
    mah := new MAHandler(c.Interval, c.Limit, ema);
    err := mah.InitFromCandles(response, parse);
    if err.Fail? {
      return null, err;
    }
  }
}
