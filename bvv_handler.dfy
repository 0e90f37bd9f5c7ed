/** The trading decision of internal/bvv_handler.go: for every market quoted in the fiat
    currency, bring the holdings back inside the configured [Min, Max] range by one market
    order, unless the average rate the holdings were bought at is unknown or above the
    current price (the market is "under water").

    The exchange is not part of this model: the list of markets (already ordered), the
    readings of each market that come from code not shown (its estimator, its bandwidth,
    the average of its trades, its minimum order size), the table of assets and the
    exchange's answer to an order are inputs. `log.Fatalf` and the panic of a decimal
    division by zero both end the evaluation; they are a failed outcome. */
module Handler {
  import opened Wrappers
  import opened Generic
  import opened Market
  import opened Bandwidth

  /** The handler settings the decision reads. */
  datatype HandlerConfig = HandlerConfig(Fiat: string, ActiveMode: bool, BuyUnderwater: bool)

  /** A market as the evaluation loop sees it: its balances, price and range, and what the
      code not shown answers about it. */
  datatype TradedMarket = TradedMarket(
    market: Snapshot,
    /** Whether the market has a moving-average handler (`market.mah != nil`). */
    HasEstimator: bool,
    ExpectedRate: Result<real>,
    Band: Result<MABandwidth>,
    /** What `market.rate.Average()` returns. */
    RateAverage: Result<real>,
    /** The market's own `BuyUnderwater` setting. */
    BuyUnderwater: bool,
    MinimumAmount: real)

  /** The message of the panic of a decimal division by zero. */
  const DivisionByZero: string := "decimal division by 0"

  /** How far the price lies from the expected rate: "under" rated when the expected rate
      is higher, "over" rated otherwise, in percent of the larger of the two. */
  datatype Valuation = Valuation(direction: string, percent: real)

  /** The division the valuation needs has a non-zero divisor. */
  predicate CanValuate(expected: real, price: real)
  {
    if expected > price then expected != 0.0 else price != 0.0
  }

  function Valuate(expected: real, price: real): Valuation
    requires CanValuate(expected, price)
  {
    if expected > price then Valuation("under", 100.0 - price / expected * 100.0)
    else Valuation("over", 100.0 - expected / price * 100.0)
  }

  /** The valuation names the side the price lies on; the price (when under rated) or the
      expected rate (when over rated) is the larger one reduced by the percentage; for
      positive rates the percentage lies in [0, 100) and is 0 exactly when they agree. */
  lemma ValuationSpec(expected: real, price: real)
    requires CanValuate(expected, price)
    ensures Valuate(expected, price).direction == "under" <==> expected > price
    ensures var v := Valuate(expected, price);
            expected > price ==> price * 100.0 == expected * (100.0 - v.percent)
    ensures var v := Valuate(expected, price);
            expected <= price ==> expected * 100.0 == price * (100.0 - v.percent)
    ensures 0.0 < expected && 0.0 < price ==> 0.0 <= Valuate(expected, price).percent < 100.0
    ensures 0.0 < expected && 0.0 < price ==> (Valuate(expected, price).percent == 0.0 <==> expected == price)
  {
    var v := Valuate(expected, price);
    if expected > price {
      assert price / expected * 100.0 == 100.0 - v.percent;
      assert price == price / expected * expected;
    } else {
      assert expected / price * 100.0 == 100.0 - v.percent;
      assert expected == expected / price * price;
    }
  }

  /** The readings of a market with an estimator, which are only reported: the expected rate
      and the bandwidth must be available and the three divisions reporting them must not
      divide by zero, or the evaluation ends with the first such error. */
  function Advise(m: TradedMarket): (r: Outcome)
    ensures !m.HasEstimator ==> r == Pass
    ensures r.Pass? <==>
              !m.HasEstimator
              || (&& m.ExpectedRate.Ok? && CanValuate(m.ExpectedRate.value, m.market.Price)
                  && m.Band.Ok? && m.Band.value.Cur != 0.0 && m.Band.value.Max != 0.0)
    ensures m.HasEstimator && m.ExpectedRate.Err? ==> r == Fail(m.ExpectedRate.error)
    ensures (m.HasEstimator && m.ExpectedRate.Ok? && CanValuate(m.ExpectedRate.value, m.market.Price) && m.Band.Err?)
              ==> r == Fail(m.Band.error)
  {
    if !m.HasEstimator then Pass
    else if m.ExpectedRate.Err? then Fail(m.ExpectedRate.error)
    else if !CanValuate(m.ExpectedRate.value, m.market.Price) then Fail(DivisionByZero)
    else if m.Band.Err? then Fail(m.Band.error)
    else if m.Band.value.Cur == 0.0 || m.Band.value.Max == 0.0 then Fail(DivisionByZero)
    else Pass
  }

  /** Which branch of the decision chain a market takes. */
  datatype Decision =
    | Skip                    // not quoted in the fiat currency
    | SellOff(amount: real)   // holding more than Max: sell the excess
    | NoAverage               // the average trade rate is unknown
    | UnderWater(avgRate: real)  // bought above the current price, buying is not allowed
    | TopUp(amount: real)     // holding less than Min: buy the shortfall
    | Hold                    // nothing to do

  /** Holding more than a positive maximum. */
  predicate AboveMax(m: TradedMarket)
  {
    m.market.Max > 0.0 && m.market.Max < m.market.Total()
  }

  /** Holding less than a positive minimum. */
  predicate BelowMin(m: TradedMarket)
  {
    m.market.Min > 0.0 && m.market.Min > m.market.Total()
  }

  /** The holdings were bought at a higher average rate than the current price, and
      neither the market nor the handler allows buying then. */
  predicate Underwater(cfg: HandlerConfig, m: TradedMarket, avgRate: real)
  {
    avgRate > m.market.Price && !m.BuyUnderwater && !cfg.BuyUnderwater
  }

  function Decide(cfg: HandlerConfig, m: TradedMarket): Decision
  {
    if m.market.To != cfg.Fiat then Skip
    else if AboveMax(m) then SellOff(m.market.Total() - m.market.Max)
    else if m.RateAverage.Err? then NoAverage
    else if Underwater(cfg, m, m.RateAverage.value) then UnderWater(m.RateAverage.value)
    else if BelowMin(m) then TopUp(m.market.Min - m.market.Total())
    else Hold
  }

  /** The precedence of the chain: markets outside the fiat currency are skipped; above the
      maximum the excess is sold whatever else holds, which brings the holdings down to the
      maximum; a buy needs a known average rate that is not under water, and then tops the
      holdings up to the minimum. */
  lemma DecideSpec(cfg: HandlerConfig, m: TradedMarket)
    ensures Decide(cfg, m).Skip? <==> m.market.To != cfg.Fiat
    ensures Decide(cfg, m).SellOff? <==> m.market.To == cfg.Fiat && AboveMax(m)
    ensures Decide(cfg, m).SellOff? ==>
              Decide(cfg, m).amount > 0.0 && m.market.Total() - Decide(cfg, m).amount == m.market.Max
    ensures Decide(cfg, m).NoAverage? <==> m.market.To == cfg.Fiat && !AboveMax(m) && m.RateAverage.Err?
    ensures Decide(cfg, m).UnderWater? <==>
              && m.market.To == cfg.Fiat && !AboveMax(m) && m.RateAverage.Ok?
              && Underwater(cfg, m, m.RateAverage.value)
    ensures Decide(cfg, m).TopUp? <==>
              && m.market.To == cfg.Fiat && !AboveMax(m) && m.RateAverage.Ok?
              && !Underwater(cfg, m, m.RateAverage.value) && BelowMin(m)
    ensures Decide(cfg, m).TopUp? ==>
              Decide(cfg, m).amount > 0.0 && m.market.Total() + Decide(cfg, m).amount == m.market.Min
  {
  }

  /** Allowing buys under water on either side turns an under-water market into a buy when
      it holds less than its minimum. */
  lemma BuyUnderwaterAllowsBuy(cfg: HandlerConfig, m: TradedMarket)
    requires m.market.To == cfg.Fiat && !AboveMax(m) && m.RateAverage.Ok? && BelowMin(m)
    requires m.BuyUnderwater || cfg.BuyUnderwater
    ensures Decide(cfg, m) == TopUp(m.market.Min - m.market.Total())
  {
  }

  /** The valuation and the bandwidth are only reported: they never change the decision. */
  lemma DecideIgnoresEstimator(cfg: HandlerConfig, m: TradedMarket, has: bool, expected: Result<real>, band: Result<MABandwidth>)
    ensures Decide(cfg, m.(HasEstimator := has, ExpectedRate := expected, Band := band)) == Decide(cfg, m)
  {
  }

  /** The size of an order: the requested amount, raised to the market's minimum amount when
      it is smaller. */
  function OrderAmount(amount: real, minimum: real): (r: real)
    ensures r >= amount && r >= minimum
    ensures r == amount || r == minimum
  {
    if minimum > amount then minimum else amount
  }

  /** The amount an order is placed for: the requested amount raised to the minimum, then
      rounded to the base asset's number of decimals, that number converted to int32. */
  function SentAmount(amount: real, minimum: real, decimals: int): real
  {
    RoundTo(OrderAmount(amount, minimum), Wrap32(decimals) as int)
  }

  /** The amount sent is the whole number of units of the asset's last decimal place nearest
      to the larger of the amount and the minimum, so within half a unit of it. */
  lemma SentAmountSpec(amount: real, minimum: real, decimals: int)
    ensures -0.5 <= (SentAmount(amount, minimum, decimals) - OrderAmount(amount, minimum))
                    * Scale(Wrap32(decimals) as int) <= 0.5
    ensures SentAmount(amount, minimum, decimals) * Scale(Wrap32(decimals) as int)
            == NearestWhole(OrderAmount(amount, minimum) * Scale(Wrap32(decimals) as int)) as real
    ensures -TwoTo31 <= decimals < TwoTo31 ==> SentAmount(amount, minimum, decimals) == RoundTo(OrderAmount(amount, minimum), decimals)
    ensures 0.0 <= amount ==> 0.0 <= SentAmount(amount, minimum, decimals)
  {
    RoundToBounds(OrderAmount(amount, minimum), Wrap32(decimals) as int);
    Wrap32Spec(decimals);
  }

  /** The rounding comes after raising to the minimum, so the amount sent can be below the
      minimum: with a minimum of 0.123 and two decimals 0.12 is sent. */
  lemma SentBelowMinimumExample()
    ensures SentAmount(0.1, 0.123, 2) == 0.12 < 0.123
  {
    assert Wrap32(2) == 2;
    RoundToDownExample();
  }

  /** A market order as the exchange receives it. */
  datatype Order = Order(market: string, side: string, orderType: string, amount: real)

  /** What evaluating produced: the orders sent to the exchange, in order, and whether
      evaluation went on to the end. */
  datatype Effects = Effects(orders: seq<Order>, outcome: Outcome)

  /** Sell or Buy (`side` is "sell" or "buy"): in dry-run mode nothing is sent; a market
      whose base asset is not known is refused; otherwise one market order for the amount
      raised to the minimum and rounded to the asset's decimals is sent, and the exchange's
      answer is the outcome. */
  function Submit(cfg: HandlerConfig, assets: map<string, int>, m: TradedMarket, side: string, amount: real,
                  place: Order -> Outcome): (r: Effects)
    ensures !cfg.ActiveMode ==> r == Effects([], Pass)
    ensures cfg.ActiveMode && m.market.From !in assets ==> r == Effects([], Fail("unknown asset " + m.market.From))
    ensures cfg.ActiveMode && m.market.From in assets ==>
              && |r.orders| == 1
              && r.orders[0].market == m.market.Name() && r.orders[0].side == side && r.orders[0].orderType == "market"
              && r.orders[0].amount == SentAmount(amount, m.MinimumAmount, assets[m.market.From])
              && r.outcome == place(r.orders[0])
  {
    var size := OrderAmount(amount, m.MinimumAmount);
    if !cfg.ActiveMode then Effects([], Pass)
    else if m.market.From !in assets then Effects([], Fail("unknown asset " + m.market.From))
    else
      var decimals := Wrap32(assets[m.market.From]);
      var order := Order(m.market.Name(), side, "market", RoundTo(size, decimals as int));
      Effects([order], place(order))
  }

  /** One turn of the evaluation loop over a market. */
  function Step(cfg: HandlerConfig, assets: map<string, int>, m: TradedMarket, place: Order -> Outcome): Effects
  {
    var d := Decide(cfg, m);
    if d.Skip? then Effects([], Pass)
    else if Advise(m).Fail? then Effects([], Advise(m))
    else
      match d
      case SellOff(amount) => Submit(cfg, assets, m, "sell", amount, place)
      case TopUp(amount) => Submit(cfg, assets, m, "buy", amount, place)
      // the under-water report divides by the average rate
      case UnderWater(avgRate) => if avgRate == 0.0 then Effects([], Fail(DivisionByZero)) else Effects([], Pass)
      case _ => Effects([], Pass)
  }

  /** The orders a market step may send: in active mode, for a fiat market whose readings
      pass and whose base asset is known, one market order of the decided amount raised to
      the minimum and rounded to the asset's decimals, selling off the excess or topping up the shortfall. */
  ghost predicate Justified(cfg: HandlerConfig, assets: map<string, int>, m: TradedMarket, o: Order)
  {
    && cfg.ActiveMode && m.market.To == cfg.Fiat && Advise(m).Pass? && m.market.From in assets
    && o.market == m.market.Name() && o.orderType == "market"
    && match Decide(cfg, m)
       case SellOff(a) => o.side == "sell" && o.amount == SentAmount(a, m.MinimumAmount, assets[m.market.From])
       case TopUp(a) => o.side == "buy" && o.amount == SentAmount(a, m.MinimumAmount, assets[m.market.From])
       case _ => false
  }

  /** A step sends at most one order, and only a justified one; a skipped market does
      nothing. */
  lemma StepSpec(cfg: HandlerConfig, assets: map<string, int>, m: TradedMarket, place: Order -> Outcome)
    ensures var e := Step(cfg, assets, m, place);
            && |e.orders| <= 1
            && (forall k :: 0 <= k < |e.orders| ==> Justified(cfg, assets, m, e.orders[k]))
    ensures m.market.To != cfg.Fiat ==> Step(cfg, assets, m, place) == Effects([], Pass)
  {
  }

  /** The evaluation loop over the markets, in order, stopping at the first failure. */
  function Run(cfg: HandlerConfig, assets: map<string, int>, ms: seq<TradedMarket>, place: Order -> Outcome): Effects
  {
    if ms == [] then Effects([], Pass)
    else
      var before := Run(cfg, assets, ms[..|ms| - 1], place);
      if before.outcome.Fail? then before
      else
        var last := Step(cfg, assets, ms[|ms| - 1], place);
        Effects(before.orders + last.orders, last.outcome)
  }

  /** In dry-run mode no order is ever sent. */
  lemma {:induction false} RunDryRun(cfg: HandlerConfig, assets: map<string, int>, ms: seq<TradedMarket>, place: Order -> Outcome)
    requires !cfg.ActiveMode
    ensures Run(cfg, assets, ms, place).orders == []
  {
    if ms != [] {
      RunDryRun(cfg, assets, ms[..|ms| - 1], place);
      var last := ms[|ms| - 1];
      match Decide(cfg, last)
      case SellOff(a) =>
      case TopUp(a) =>
      case _ =>
    }
  }

  /** Every order sent is justified by one of the markets, and the markets' order is kept:
      there are never more orders than markets. */
  lemma {:induction false} RunOrdersJustified(cfg: HandlerConfig, assets: map<string, int>, ms: seq<TradedMarket>,
                                             place: Order -> Outcome)
    ensures |Run(cfg, assets, ms, place).orders| <= |ms|
    ensures var orders := Run(cfg, assets, ms, place).orders;
            forall i :: 0 <= i < |orders| ==> exists k :: 0 <= k < |ms| && Justified(cfg, assets, ms[k], orders[i])
  {
    if ms != [] {
      var init := ms[..|ms| - 1];
      RunOrdersJustified(cfg, assets, init, place);
      StepSpec(cfg, assets, ms[|ms| - 1], place);
      var before := Run(cfg, assets, init, place);
      if before.outcome.Pass? {
        var last := Step(cfg, assets, ms[|ms| - 1], place);
        var orders := before.orders + last.orders;
        forall i | 0 <= i < |orders|
          ensures exists k :: 0 <= k < |ms| && Justified(cfg, assets, ms[k], orders[i])
        {
          if i < |before.orders| {
            var k :| 0 <= k < |init| && Justified(cfg, assets, init[k], before.orders[i]);
            assert ms[k] == init[k];
          } else {
            assert orders[i] == last.orders[i - |before.orders|];
            assert Justified(cfg, assets, ms[|ms| - 1], orders[i]);
          }
        }
      }
    }
  }

  /** Evaluation goes on to the end exactly when every market's step passes, and otherwise
      ends with the failure of the first market whose step fails. */
  lemma {:induction false} RunOutcome(cfg: HandlerConfig, assets: map<string, int>, ms: seq<TradedMarket>,
                                     place: Order -> Outcome)
    ensures var out := Run(cfg, assets, ms, place).outcome;
            out.Pass? <==> forall k :: 0 <= k < |ms| ==> Step(cfg, assets, ms[k], place).outcome.Pass?
    ensures var out := Run(cfg, assets, ms, place).outcome;
            out.Fail? ==> exists k :: && 0 <= k < |ms| && Step(cfg, assets, ms[k], place).outcome == out
                                      && forall j :: 0 <= j < k ==> Step(cfg, assets, ms[j], place).outcome.Pass?
  {
    if ms != [] {
      var init := ms[..|ms| - 1];
      RunOutcome(cfg, assets, init, place);
      assert forall k :: 0 <= k < |init| ==> init[k] == ms[k];
      var before := Run(cfg, assets, init, place);
      if before.outcome.Fail? {
        var k :| && 0 <= k < |init| && Step(cfg, assets, init[k], place).outcome == before.outcome
                 && forall j :: 0 <= j < k ==> Step(cfg, assets, init[j], place).outcome.Pass?;
        assert Step(cfg, assets, ms[k], place).outcome.Fail?;
      }
    }
  }

  /** Evaluate: the markets are fetched (a failure ends the evaluation with its error) and
      each is evaluated in turn until one fails. */
  method Evaluate(cfg: HandlerConfig, assets: map<string, int>, markets: Result<seq<TradedMarket>>,
                  place: Order -> Outcome)
    returns (orders: seq<Order>, outcome: Outcome)
    ensures markets.Err? ==> orders == [] && outcome == Fail(markets.error)
    ensures markets.Ok? ==> Effects(orders, outcome) == Run(cfg, assets, markets.value, place)
  {
    if markets.Err? {
      return [], Fail(markets.error);
    }
    var ms := markets.value;
    orders := [];
    var i := 0;
    while i < |ms|
      invariant 0 <= i <= |ms|
      invariant Run(cfg, assets, ms[..i], place) == Effects(orders, Pass)
    {
      assert ms[..i + 1][..i] == ms[..i];
      var step := Step(cfg, assets, ms[i], place);
      orders := orders + step.orders;
      if step.outcome.Fail? {
        assert Run(cfg, assets, ms[..i + 1], place) == Effects(orders, step.outcome);
        PrefixFailureSticks(cfg, assets, ms, i + 1, place);
        return orders, step.outcome;
      }
      i := i + 1;
    }
    assert ms[..i] == ms;
    outcome := Pass;
  }

  /** Once a prefix of the markets fails, the later ones change nothing. */
  lemma {:induction false} PrefixFailureSticks(cfg: HandlerConfig, assets: map<string, int>, ms: seq<TradedMarket>, n: nat,
                                               place: Order -> Outcome)
    requires n <= |ms| && Run(cfg, assets, ms[..n], place).outcome.Fail?
    ensures Run(cfg, assets, ms, place) == Run(cfg, assets, ms[..n], place)
    decreases |ms| - n
  {
    if n < |ms| {
      assert ms[..n + 1][..n] == ms[..n];
      PrefixFailureSticks(cfg, assets, ms, n + 1, place);
    } else {
      assert ms[..n] == ms;
    }
  }
}
