/** The rate accumulator of internal/rate.go: signed running totals of the base amount
    (From) and the quote amount (To) of a market's trades. Decimals are reals; parsing a
    decimal from its text is the partial function `parse` the caller supplies. */
module Rate {
  import opened Wrappers

  /** The text fields of an exchange trade record used here. */
  datatype Trade = Trade(Amount: string, Price: string, Side: string)

  /** How `%e` prints an error made by errors.New or by fmt.Errorf without %w: a pointer to a
      struct whose one field is the message, and %e is no verb for a string, so fmt prints
      the struct with the bad verb reported for its field. */
  function FormatErrorE(msg: string): string
  {
    "&{%!e(string=" + msg + ")}"
  }

  /** The error for a field that is no decimal. */
  function ConvertError(field: string, msg: string): string
  {
    "cannot convert `" + field + "` to Decimal: " + FormatErrorE(msg)
  }

  /** The error names the field, and carries the parse error's message inside fmt's
      report of the bad verb. */
  lemma ConvertErrorSpec(field: string, msg: string)
    ensures var e := ConvertError(field, msg);
            var head := "cannot convert `" + field + "` to Decimal: &{%!e(string=";
            && e[..|head|] == head && e[|head|..|e| - 2] == msg && e[|e| - 2..] == ")}"
  {
  }

  /** How a trade moves the totals: a buy adds its amount and price × amount, any other
      side subtracts them. Either field failing to parse is an error naming that field. */
  function Effect(t: Trade, parse: string -> Result<real>): (r: Result<(real, real)>)
    ensures parse(t.Amount).Err? ==> r == Err(ConvertError(t.Amount, parse(t.Amount).error))
    ensures parse(t.Amount).Ok? && parse(t.Price).Err? ==> r == Err(ConvertError(t.Price, parse(t.Price).error))
    ensures r.Ok? <==> parse(t.Amount).Ok? && parse(t.Price).Ok?
    ensures r.Ok? && t.Side == "buy" ==>
              r.value.0 == parse(t.Amount).value && r.value.1 == parse(t.Price).value * parse(t.Amount).value
    ensures r.Ok? && t.Side != "buy" ==>
              r.value.0 == -parse(t.Amount).value && r.value.1 == -(parse(t.Price).value * parse(t.Amount).value)
  {
    if parse(t.Amount).Err? then Err(ConvertError(t.Amount, parse(t.Amount).error))
    else if parse(t.Price).Err? then Err(ConvertError(t.Price, parse(t.Price).error))
    else
      var amount, price := parse(t.Amount).value, parse(t.Price).value;
      var quote := price * amount;
      if t.Side == "buy" then Ok((amount, quote)) else Ok((-amount, -quote))
  }

  class Rate {
    var From: real
    var To: real

    constructor ()
      ensures From == 0.0 && To == 0.0
    {
      From := 0.0;
      To := 0.0;
    }

    method Buy(from: real, to: real)
      modifies this
      ensures From == old(From) + from && To == old(To) + to
    {
      From := From + from;
      To := To + to;
    }

    method Sell(from: real, to: real)
      modifies this
      ensures From == old(From) - from && To == old(To) - to
    {
      From := From - from;
      To := To - to;
    }

    /** Records one trade; on a parse error the totals are left as they were. */
    method ExchangeFromTrade(trade: Trade, parse: string -> Result<real>) returns (err: Outcome)
      modifies this
      ensures Effect(trade, parse).Err? ==> err == Fail(Effect(trade, parse).error) && From == old(From) && To == old(To)
      ensures Effect(trade, parse).Ok? ==> err == Pass && (From, To) == Moved(old(From), old(To), [trade], parse)
    {
      ghost var from0, to0 := From, To;
      var amount: real, price: real;
      match parse(trade.Amount) {
        case Err(e) =>
          return Fail(ConvertError(trade.Amount, e));
        case Ok(a) =>
          amount := a;
      }
      match parse(trade.Price) {
        case Err(e) =>
          return Fail(ConvertError(trade.Price, e));
        case Ok(p) =>
          price := p;
      }
      var quote := price * amount;
      if trade.Side == "buy" {
        Buy(amount, quote);
      } else {
        Sell(amount, quote);
      }
      err := Pass;
      assert [trade][1..] == [];
      ghost var d := Effect(trade, parse).value;
      assert d.0 == (if trade.Side == "buy" then amount else -amount);
      assert d.1 == (if trade.Side == "buy" then quote else -quote);
      assert Moved(from0, to0, [trade], parse) == (from0 + d.0, to0 + d.1);
      assert From == from0 + d.0 && To == to0 + d.1;
    }

    /** The average price paid per unit of the base asset; undefined before any volume. */
    function Average(): (r: Result<real>)
      reads this
      ensures r.Err? <==> From == 0.0
      ensures r.Ok? ==> r.value * From == To
    {
      if From == 0.0 then Err("cannot calculate average without regstering any exchanges")
      else Ok(To / From)
    }
  }

  /** Whether every trade of a batch parses. */
  predicate AllParse(trades: seq<Trade>, parse: string -> Result<real>)
  {
    forall k :: 0 <= k < |trades| ==> Effect(trades[k], parse).Ok?
  }

  /** The totals after recording a batch of trades that all parse, in order. */
  function Moved(from: real, to: real, trades: seq<Trade>, parse: string -> Result<real>): (real, real)
    requires AllParse(trades, parse)
    decreases |trades|
  {
    if trades == [] then (from, to)
    else
      var d := Effect(trades[0], parse).value;
      Moved(from + d.0, to + d.1, trades[1..], parse)
  }

  /** Recording a batch moves the totals by the sum of the trades' effects, wherever they start. */
  lemma {:induction false} MovedShift(from: real, to: real, trades: seq<Trade>, parse: string -> Result<real>)
    requires AllParse(trades, parse)
    ensures Moved(from, to, trades, parse).0 == from + Moved(0.0, 0.0, trades, parse).0
    ensures Moved(from, to, trades, parse).1 == to + Moved(0.0, 0.0, trades, parse).1
    decreases |trades|
  {
    if trades != [] {
      var d := Effect(trades[0], parse).value;
      assert AllParse(trades[1..], parse) by {
        forall k | 0 <= k < |trades[1..]| ensures Effect(trades[1..][k], parse).Ok? {
          assert trades[1..][k] == trades[k + 1];
        }
      }
      MovedShift(from + d.0, to + d.1, trades[1..], parse);
      MovedShift(d.0, d.1, trades[1..], parse);
    }
  }

  /** Recording two batches one after the other is recording their concatenation. */
  lemma {:induction false} MovedConcat(from: real, to: real, a: seq<Trade>, b: seq<Trade>, parse: string -> Result<real>)
    requires AllParse(a, parse) && AllParse(b, parse)
    ensures AllParse(a + b, parse)
    ensures var m := Moved(from, to, a, parse); Moved(from, to, a + b, parse) == Moved(m.0, m.1, b, parse)
    decreases |a|
  {
    assert AllParse(a + b, parse) by {
      forall k | 0 <= k < |a + b| ensures Effect((a + b)[k], parse).Ok? {
        if k < |a| {
          assert (a + b)[k] == a[k];
        } else {
          assert (a + b)[k] == b[k - |a|];
        }
      }
    }
    if a != [] {
      var d := Effect(a[0], parse).value;
      assert (a + b)[1..] == a[1..] + b;
      assert AllParse(a[1..], parse) by {
        forall k | 0 <= k < |a[1..]| ensures Effect(a[1..][k], parse).Ok? {
          assert a[1..][k] == a[k + 1];
        }
      }
      MovedConcat(from + d.0, to + d.1, a[1..], b, parse);
    } else {
      assert a + b == b;
    }
  }

  /** The totals after a batch do not depend on the order of its trades. */
  lemma {:induction false} MovedOrderIndependent(from: real, to: real, a: seq<Trade>, b: seq<Trade>, parse: string -> Result<real>)
    requires multiset(a) == multiset(b)
    requires AllParse(a, parse)
    ensures AllParse(b, parse)
    ensures Moved(from, to, a, parse) == Moved(from, to, b, parse)
    decreases |a|
  {
    AllParseReordered(a, b, parse);
    if a != [] {
      var t := a[0];
      assert t in multiset(b);
      var i :| 0 <= i < |b| && b[i] == t;
      var rest := b[..i] + b[i + 1..];
      MultisetUnpick(a, b, i);
      AllParseTail(a, parse);
      var d := Effect(t, parse).value;
      MovedOrderIndependent(from + d.0, to + d.1, a[1..], rest, parse);
      MovedPick(from, to, a, b, i, parse);
    }
  }

  /** When the rest of `a` and `b` without its element `i` (the first of `a`) give the same
      totals from any start, so do `a` and `b`. */
  lemma MovedPick(from: real, to: real, a: seq<Trade>, b: seq<Trade>, i: nat, parse: string -> Result<real>)
    requires a != [] && i < |b| && b[i] == a[0]
    requires AllParse(a, parse) && AllParse(b, parse)
    requires AllParse(a[1..], parse) && AllParse(b[..i] + b[i + 1..], parse)
    requires var d := Effect(a[0], parse).value;
             Moved(from + d.0, to + d.1, a[1..], parse) == Moved(from + d.0, to + d.1, b[..i] + b[i + 1..], parse)
    ensures Moved(from, to, a, parse) == Moved(from, to, b, parse)
  {
    // Moved over b = Moved over b[..i], then a[0], then b[i+1..]; moving a[0] first gives the same.
    assert b == b[..i] + [a[0]] + b[i + 1..];
    MovedSubPrefix(from, to, b[..i], a[0], b[i + 1..], parse);
    MovedFront(from, to, a, parse);
  }

  /** Recording a batch is recording its first trade, then the rest. */
  lemma MovedFront(from: real, to: real, trades: seq<Trade>, parse: string -> Result<real>)
    requires trades != [] && AllParse(trades, parse)
    ensures AllParse(trades[1..], parse)
    ensures var d := Effect(trades[0], parse).value;
            Moved(from, to, trades, parse) == Moved(from + d.0, to + d.1, trades[1..], parse)
  {
    AllParseTail(trades, parse);
  }

  lemma AllParseTail(s: seq<Trade>, parse: string -> Result<real>)
    requires s != [] && AllParse(s, parse)
    ensures AllParse(s[1..], parse)
  {
    forall k | 0 <= k < |s[1..]| ensures Effect(s[1..][k], parse).Ok? {
      assert s[1..][k] == s[k + 1];
    }
  }

  lemma AllParseReordered(a: seq<Trade>, b: seq<Trade>, parse: string -> Result<real>)
    requires multiset(a) == multiset(b) && AllParse(a, parse)
    ensures AllParse(b, parse)
  {
    forall k | 0 <= k < |b| ensures Effect(b[k], parse).Ok? {
      assert b[k] in multiset(a);
      var j :| 0 <= j < |a| && a[j] == b[k];
    }
  }

  /** Taking the first element of `a` out of both sides, where `b` holds it at `i`. */
  lemma MultisetUnpick(a: seq<Trade>, b: seq<Trade>, i: nat)
    requires multiset(a) == multiset(b) && a != [] && i < |b| && b[i] == a[0]
    ensures multiset(a[1..]) == multiset(b[..i] + b[i + 1..])
  {
    assert a == [a[0]] + a[1..];
    assert b == b[..i] + [b[i]] + b[i + 1..];
    assert multiset(b) == multiset(b[..i]) + multiset([b[i]]) + multiset(b[i + 1..]);
    assert multiset(a[1..]) == multiset(a) - multiset([a[0]]);
  }

  /** Moving one trade to the front of a batch leaves the totals as they were. */
  lemma {:induction false} MovedSubPrefix(from: real, to: real, p: seq<Trade>, t: Trade, q: seq<Trade>, parse: string -> Result<real>)
    requires AllParse(p + [t] + q, parse)
    ensures AllParse(p + q, parse)
    ensures Effect(t, parse).Ok?
    ensures var d := Effect(t, parse).value;
            Moved(from, to, p + [t] + q, parse) == Moved(from + d.0, to + d.1, p + q, parse)
  {
    var all := p + [t] + q;
    assert Effect(t, parse).Ok? by { assert all[|p|] == t; }
    assert AllParse(p, parse) && AllParse(q, parse) by {
      forall k | 0 <= k < |p| ensures Effect(p[k], parse).Ok? { assert all[k] == p[k]; }
      forall k | 0 <= k < |q| ensures Effect(q[k], parse).Ok? { assert all[|p| + 1 + k] == q[k]; }
    }
    var d := Effect(t, parse).value;
    assert AllParse([t], parse);
    MovedConcat(from, to, p + [t], q, parse);
    MovedConcat(from, to, p, [t], parse);
    MovedConcat(from + d.0, to + d.1, p, q, parse);
    MovedShift(from, to, p, parse);
    MovedShift(from + d.0, to + d.1, p, parse);
    var m := Moved(from, to, p, parse);
    assert Moved(m.0, m.1, [t], parse) == (m.0 + d.0, m.1 + d.1) by {
      assert [t][1..] == [];
    }
    var m2 := Moved(from + d.0, to + d.1, p, parse);
    assert m2 == (m.0 + d.0, m.1 + d.1);
    assert p + [t] + q == (p + [t]) + q;
  }

  /** A buy and a sell of the same amount at the same price cancel out. */
  lemma BuySellCancel(amount: string, price: string, side: string, parse: string -> Result<real>)
    requires parse(amount).Ok? && parse(price).Ok? && side != "buy"
    ensures var trades := [Trade(amount, price, "buy"), Trade(amount, price, side)];
            AllParse(trades, parse) && Moved(0.0, 0.0, trades, parse) == (0.0, 0.0)
  {
    var trades := [Trade(amount, price, "buy"), Trade(amount, price, side)];
    var a, p := parse(amount).value, parse(price).value;
    assert trades[0] == Trade(amount, price, "buy") && trades[1] == Trade(amount, price, side);
    assert Effect(trades[0], parse).value.0 == a && Effect(trades[0], parse).value.1 == p * a;
    assert Effect(trades[1], parse).value.0 == -a && Effect(trades[1], parse).value.1 == -(p * a);
    assert trades[1..] == [trades[1]];
    assert [trades[1]][1..] == [];
    assert Moved(a + -a, p * a + -(p * a), [], parse) == (0.0, 0.0);
    assert Moved(a, p * a, [trades[1]], parse) == (0.0, 0.0);
  }
}
