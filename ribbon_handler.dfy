/** The multi-estimator market handler of internal/ribbon_handler.go: one EMA per configured
    window, every one of them fed the average of each candle. The ribbon configuration type,
    its Enabled and Initialize methods are not part of this model: they are inputs. The
    candle request to the exchange is left out; its response is an input. */
module Ribbon {
  import opened Wrappers
  import opened Generic
  import opened Ema
  import opened Buckets

  /** The settings the ribbon handler reads from its configuration. */
  datatype RibbonConfig = RibbonConfig(Windows: seq<uint64>, PreWarm: uint64, Timeframe: string)

  /** The largest window, as the constructor's loop tracks it from 0. */
  function MaxWindow(ws: seq<uint64>): uint64
  {
    if ws == [] then 0
    else
      var m := MaxWindow(ws[..|ws| - 1]);
      if m < ws[|ws| - 1] then ws[|ws| - 1] else m
  }

  /** No window exceeds the maximum, which is one of the windows, or 0 when there are none. */
  lemma {:induction false} MaxWindowSpec(ws: seq<uint64>)
    ensures forall k :: 0 <= k < |ws| ==> ws[k] <= MaxWindow(ws)
    ensures ws == [] ==> MaxWindow(ws) == 0
    ensures ws != [] ==> exists k :: 0 <= k < |ws| && ws[k] == MaxWindow(ws)
  {
    if ws != [] {
      var init := ws[..|ws| - 1];
      MaxWindowSpec(init);
      assert forall k :: 0 <= k < |init| ==> init[k] == ws[k];
      if init != [] {
        var k :| 0 <= k < |init| && init[k] == MaxWindow(init);
        assert ws[k] == MaxWindow(init);
      }
    }
  }

  /** No estimator appears twice. */
  predicate Distinct(emas: seq<EMA>)
  {
    forall i, j :: 0 <= i < j < |emas| ==> emas[i] != emas[j]
  }

  /** The estimator is consistent and has seen exactly the averages of the buckets. */
  ghost predicate Sees(ema: EMA, buckets: seq<MABucket>)
    reads ema
  {
    ema.Valid() && ema.All == Observed(buckets, ema.Log)
  }

  /** How many candles the ribbon asks for: the largest window plus the pre-warm count,
      added as unsigned integers. */
  function CandleLimit(cfg: RibbonConfig): uint64
  {
    WrapU64(MaxWindow(cfg.Windows) as int + cfg.PreWarm as int)
  }

  class RibbonHandler {
    var timeframe: string
    var buckets: seq<MABucket>
    var emas: seq<EMA>
    var limit: uint64

    /** The estimators are distinct objects, each consistent, and each has seen exactly the
        averages of the buckets. */
    ghost predicate Valid()
      reads this, emas
    {
      && Distinct(emas)
      && forall j :: 0 <= j < |emas| ==> Sees(emas[j], buckets)
    }

    constructor (timeframe: string)
      ensures Valid()
      ensures this.timeframe == timeframe && buckets == [] && emas == [] && limit == 0
    {
      this.timeframe := timeframe;
      buckets := [];
      emas := [];
      limit := 0;
    }

    /** Records one bucket and feeds its average to every estimator, in order. */
    method Feed(bucket: MABucket)
      requires Valid()
      modifies this, emas
      ensures Valid()
      ensures buckets == old(buckets) + [bucket]
      ensures emas == old(emas) && timeframe == old(timeframe) && limit == old(limit)
    {
      ghost var before := buckets;
      assert Distinct(emas);
      buckets := buckets + [bucket];
      ghost var after := buckets;
      var avg := bucket.Average();
      var k := 0;
      while k < |emas|
        invariant 0 <= k <= |emas|
        invariant emas == old(emas) && buckets == after && Distinct(emas)
        invariant timeframe == old(timeframe) && limit == old(limit)
        invariant forall j :: 0 <= j < k ==> Sees(emas[j], after)
        invariant forall j :: k <= j < |emas| ==> Sees(emas[j], before)
      {
        var ema := emas[k];
        ghost var seen := ema.All;
        assert forall j :: 0 <= j < |emas| && j != k ==> emas[j] != ema;
        ema.AddValue(avg);
        ObservedFed(seen, ema.All, before, bucket, ema.Log);
        assert Sees(ema, after);
        forall j | 0 <= j < |emas| && j != k
          ensures Sees(emas[j], if j < k then after else before)
        {
          assert emas[j] != ema;
        }
        k := k + 1;
      }
    }

    /** Appends one fresh estimator per window, in order, to a handler that has none and
        no buckets; returns the largest window, 0 when there are none. */
    method AddEstimators(windows: seq<uint64>, log: real -> real, exp: real -> real) returns (maxWindow: uint64)
      requires Valid() && buckets == [] && emas == []
      modifies this
      ensures Valid() && buckets == [] && timeframe == old(timeframe) && limit == old(limit)
      ensures maxWindow == MaxWindow(windows)
      ensures |emas| == |windows|
      ensures forall j :: 0 <= j < |emas| ==>
                fresh(emas[j]) && emas[j].window == windows[j] as int && emas[j].Log == log && emas[j].Exp == exp
    {
      maxWindow := 0;
      for i := 0 to |windows|
        invariant buckets == [] && timeframe == old(timeframe) && limit == old(limit)
        invariant |emas| == i && Distinct(emas)
        invariant forall j :: 0 <= j < i ==> fresh(emas[j]) && Sees(emas[j], [])
        invariant forall j :: 0 <= j < i ==> emas[j].window == windows[j] as int && emas[j].Log == log && emas[j].Exp == exp
        invariant maxWindow == MaxWindow(windows[..i])
      {
        var ema := new EMA(windows[i] as int, log, exp);
        assert Sees(ema, []);
        assert forall j :: 0 <= j < i ==> emas[j] != ema;
        assert windows[..i + 1][..i] == windows[..i];
        emas := emas + [ema];
        if maxWindow < windows[i] {
          maxWindow := windows[i];
        }
      }
      assert windows[..|windows|] == windows;
    }

    /** Feeds the candles of a response, oldest first. An error response is returned as
        the error. */
    method InitFromCandles(response: Result<seq<Candle>>, parse: string -> Result<real>) returns (err: Outcome)
      requires Valid()
      modifies this, emas
      ensures Valid()
      ensures emas == old(emas) && timeframe == old(timeframe) && limit == old(limit)
      ensures response.Err? ==> err == Fail(response.error) && buckets == old(buckets)
      ensures response.Ok? ==>
                var parsed := ParsePrefix(SortByTimestamp(response.value), parse);
                err == parsed.1 && buckets == old(buckets) + parsed.0
    {
      if response.Err? {
        return Fail(response.error);
      }
      err := FeedAll(SortByTimestamp(response.value), parse);
    }

    /** Each candle that parses becomes a bucket, and its average goes to every estimator,
        until one does not parse; its error is returned. */
    method FeedAll(candles: seq<Candle>, parse: string -> Result<real>) returns (err: Outcome)
      requires Valid()
      modifies this, emas
      ensures Valid()
      ensures emas == old(emas) && timeframe == old(timeframe) && limit == old(limit)
      ensures err == ParsePrefix(candles, parse).1 && buckets == old(buckets) + ParsePrefix(candles, parse).0
    {
      ghost var start := buckets;
      var i := 0;
      while i < |candles|
        invariant 0 <= i <= |candles|
        invariant Valid() && emas == old(emas)
        invariant timeframe == old(timeframe) && limit == old(limit)
        invariant ParsePrefix(candles[..i], parse).1.Pass?
        invariant buckets == start + ParsePrefix(candles[..i], parse).0
      {
        var bucket := NewMABucket(candles[i], parse);
        ParseStep(candles, i, parse);
        if bucket.Err? {
          return Fail(bucket.error);
        }
        Feed(bucket.value);
        i := i + 1;
      }
      assert candles[..i] == candles;
      err := Pass;
    }
  }

  /** A ribbon for the market, unless its configuration is disabled: one fresh estimator per
      configured window, in order, a candle limit of the largest window plus the pre-warm
      count (as an unsigned integer), and then the candles of the response fed in. When
      feeding fails there is no handler. */
  method NewRibbonHandler(config: RibbonConfig, enabled: RibbonConfig -> bool, initialize: RibbonConfig -> RibbonConfig,
                          response: Result<seq<Candle>>, parse: string -> Result<real>,
                          log: real -> real, exp: real -> real)
    returns (rh: RibbonHandler?, err: Outcome)
    ensures err.Fail? <==> rh == null
    ensures !enabled(config) ==> err == Fail("ribbon config is disabled")
    ensures enabled(config) && response.Err? ==> err == Fail(response.error)
    ensures enabled(config) && response.Ok? ==> err == ParsePrefix(SortByTimestamp(response.value), parse).1
    ensures rh != null ==>
              var cfg := initialize(config);
              && fresh(rh) && rh.Valid()
              && rh.timeframe == cfg.Timeframe
              && rh.limit == CandleLimit(cfg)
              && |rh.emas| == |cfg.Windows|
              && (forall j :: 0 <= j < |rh.emas| ==>
                    fresh(rh.emas[j]) && rh.emas[j].window == cfg.Windows[j] as int
                    && rh.emas[j].Log == log && rh.emas[j].Exp == exp)
              && response.Ok? && rh.buckets == ParsePrefix(SortByTimestamp(response.value), parse).0
  {
    if !enabled(config) {
      return null, Fail("ribbon config is disabled");
    }
    var cfg := initialize(config);
    rh := new RibbonHandler(cfg.Timeframe);
    var maxWindow := rh.AddEstimators(cfg.Windows, log, exp);
    ghost var emas := rh.emas;
    rh.limit := WrapU64(maxWindow as int + cfg.PreWarm as int);
    assert rh.limit == CandleLimit(cfg);
    assert rh.emas == emas && rh.buckets == [];
    assert rh.Valid();
    err := rh.InitFromCandles(response, parse);
    assert rh.emas == emas;
    if err.Fail? {
      return null, err;
    }
  }
}
