/** A trading pair with its balances and price (bvvMarket of internal/bvv_market.go).
    Decimals are reals, so the division in `reverse` is exact. */
module Market {
  import opened Wrappers

  /** The value fields of a market, without the `inverse` link. */
  datatype Snapshot = Snapshot(From: string, To: string, Available: real, InOrder: real, Price: real, Min: real, Max: real)
  {
    /** The zero value of the Go struct. */
    static const Zero: Snapshot := Snapshot("", "", 0.0, 0.0, 0.0, 0.0, 0.0)

    /** How much of the quote asset an amount of the base asset is worth at this price. */
    function Exchange(amount: real): real
    {
      Price * amount
    }

    function Total(): real
    {
      Available + InOrder
    }

    /** The exchange's market name: base symbol, a dash, quote symbol. */
    function Name(): (name: string)
      ensures |name| == |From| + 1 + |To|
      ensures name[..|From|] == From && name[|From|] == '-' && name[|From| + 1..] == To
    {
      From + "-" + To
    }

    /** The same holdings seen from the other side of the pair: symbols swapped, the price
        inverted and the balances converted to the quote asset; no range of its own. A
        zero price has no inverse. */
    function Reversed(): (r: Result<Snapshot>)
      ensures r.Err? <==> Price == 0.0
      ensures r.Ok? ==> r.value.From == To && r.value.To == From && r.value.Min == 0.0 && r.value.Max == 0.0
      ensures r.Ok? ==> r.value.Price * Price == 1.0
    {
      if Price == 0.0 then Err("cannot create a reverse when the prise is 0")
      else Ok(Snapshot(To, From, Exchange(Available), Exchange(InOrder), 1.0 / Price, 0.0, 0.0))
    }
  }

  /** The name of the reverse market reads the pair the other way round. */
  lemma ReversedName(m: Snapshot)
    requires m.Price != 0.0
    ensures m.Reversed().Ok? && m.Reversed().value.Name() == m.To + "-" + m.From
  {
  }

  /** Every balance of the reverse market is the original one exchanged at the price, and
      so is the total. */
  lemma ReversedTotal(m: Snapshot)
    requires m.Price != 0.0
    ensures m.Reversed().Ok?
    ensures m.Reversed().value.Available == m.Price * m.Available
    ensures m.Reversed().value.InOrder == m.Price * m.InOrder
    ensures m.Reversed().value.Total() == m.Price * m.Total()
  {
    var r := m.Reversed().value;
    assert r.Total() == m.Price * m.Available + m.Price * m.InOrder;
  }

  /** Reversing twice gives back the symbols, the price and the balances. */
  lemma ReversedTwice(m: Snapshot)
    requires m.Price != 0.0
    ensures m.Reversed().Ok? && m.Reversed().value.Reversed().Ok?
    ensures var rr := m.Reversed().value.Reversed().value;
            rr.From == m.From && rr.To == m.To && rr.Price == m.Price
            && rr.Available == m.Available && rr.InOrder == m.InOrder
  {
    var r := m.Reversed().value;
    assert r.Price != 0.0;
    var rr := r.Reversed().value;
    assert rr.Price == 1.0 / (1.0 / m.Price);
    assert rr.Available == (1.0 / m.Price) * (m.Price * m.Available);
    assert rr.InOrder == (1.0 / m.Price) * (m.Price * m.InOrder);
  }

  class BvvMarket {
    var From: string
    var To: string
    var inverse: BvvMarket?
    var Available: real
    var InOrder: real
    var Price: real
    var Min: real
    var Max: real

    constructor (s: Snapshot)
      ensures Value() == s && inverse == null
    {
      From, To, Available, InOrder := s.From, s.To, s.Available, s.InOrder;
      Price, Min, Max := s.Price, s.Min, s.Max;
      inverse := null;
    }

    function Value(): Snapshot
      reads this
    {
      Snapshot(From, To, Available, InOrder, Price, Min, Max)
    }

    /** A fresh market for the opposite direction of this pair, with no inverse link; with
        a zero price, a fresh zero market and an error. */
    method Reverse() returns (reverse: BvvMarket, err: Outcome)
      ensures fresh(reverse) && reverse.inverse == null
      ensures Value().Reversed().Err? ==> err == Fail(Value().Reversed().error) && reverse.Value() == Snapshot.Zero
      ensures Value().Reversed().Ok? ==> err == Pass && reverse.Value() == Value().Reversed().value
    {
      if Price == 0.0 {
        reverse := new BvvMarket(Snapshot.Zero);
        return reverse, Fail("cannot create a reverse when the prise is 0");
      }
      var v := Value();
      reverse := new BvvMarket(Snapshot(To, From, v.Exchange(Available), v.Exchange(InOrder), 1.0 / Price, 0.0, 0.0));
      err := Pass;
    }

    /** Takes this market's price from a table keyed by market name. A missing entry is an
        error and leaves the price at zero. */
    method SetPrice(prices: map<string, real>) returns (err: Outcome)
      modifies this`Price
      ensures err.Pass? <==> Value().Name() in prices
      ensures err.Pass? ==> Price == prices[Value().Name()]
      ensures err.Fail? ==> Price == 0.0 && err.error == "could not find price for market " + Value().Name()
    {
      var name := Value().Name();
      if name in prices {
        Price := prices[name];
        err := Pass;
      } else {
        Price := 0.0;
        err := Fail("could not find price for market " + name);
      }
    }
  }
}
