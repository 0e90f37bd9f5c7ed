/** Candles as the exchange reports them, the decimal buckets built from them, their
    ordering by time and the estimator observations they produce. The same definitions
    appear in internal/moving_average_handler.go and internal/ribbon_handler.go. Parsing a
    decimal from its text is the partial function `parse` the caller supplies. */
module Buckets {
  import opened Wrappers
  import opened Ema

  /** The text fields of an exchange candle. */
  datatype Candle = Candle(Timestamp: int, Open: string, High: string, Low: string, Close: string, Volume: string)

  datatype MABucket = MABucket(timestamp: int, close: real, high: real, low: real, open: real, volume: real)
  {
    /** The mean of the four prices of the bucket. */
    function Average(): (avg: real)
    {
      (low + open + close + high) / 4.0
    }
  }

  function Min4(a: real, b: real, c: real, d: real): real
  {
    var ab := if a <= b then a else b;
    var cd := if c <= d then c else d;
    if ab <= cd then ab else cd
  }

  function Max4(a: real, b: real, c: real, d: real): real
  {
    var ab := if a >= b then a else b;
    var cd := if c >= d then c else d;
    if ab >= cd then ab else cd
  }

  /** The average lies between the lowest and the highest of the four prices, and a candle
      whose four prices agree averages to that price; four times it is their sum. */
  lemma AverageBounds(b: MABucket)
    ensures Min4(b.low, b.open, b.close, b.high) <= b.Average() <= Max4(b.low, b.open, b.close, b.high)
    ensures b.low == b.open == b.close == b.high ==> b.Average() == b.low
    ensures 4.0 * b.Average() == b.low + b.open + b.close + b.high
  {
  }

  /** The error of the first field, in order, that does not parse; None when all parse. */
  function FirstError(fields: seq<string>, parse: string -> Result<real>): (r: Option<string>)
    ensures r.None? <==> forall k :: 0 <= k < |fields| ==> parse(fields[k]).Ok?
    ensures r.Some? ==> exists k :: 0 <= k < |fields| && parse(fields[k]).Err? && r.value == parse(fields[k]).error
                                    && forall j :: 0 <= j < k ==> parse(fields[j]).Ok?
  {
    if fields == [] then None
    else if parse(fields[0]).Err? then Some(parse(fields[0]).error)
    else
      var r := FirstError(fields[1..], parse);
      assert forall k :: 1 <= k < |fields| ==> fields[k] == fields[1..][k - 1];
      r
  }

  /** The fields of a candle in the order they are parsed: low, open, close, high, volume. */
  function ParseOrder(c: Candle): seq<string>
  {
    [c.Low, c.Open, c.Close, c.High, c.Volume]
  }

  /** A bucket holding the candle's timestamp and its five decimals, parsed low, open,
      close, high, volume; the error of the first of them that does not parse. */
  function NewMABucket(c: Candle, parse: string -> Result<real>): Result<MABucket>
  {
    match parse(c.Low)
    case Err(e) => Err(e)
    case Ok(low) =>
      match parse(c.Open)
      case Err(e) => Err(e)
      case Ok(open) =>
        match parse(c.Close)
        case Err(e) => Err(e)
        case Ok(close) =>
          match parse(c.High)
          case Err(e) => Err(e)
          case Ok(high) =>
            match parse(c.Volume)
            case Err(e) => Err(e)
            case Ok(volume) => Ok(MABucket(c.Timestamp, close, high, low, open, volume))
  }

  /** A candle becomes a bucket exactly when all five fields parse; the bucket carries the
      timestamp and the parsed values unchanged, and otherwise the error is that of the first
      field in parse order that fails. */
  lemma NewMABucketSpec(c: Candle, parse: string -> Result<real>)
    ensures NewMABucket(c, parse).Ok? <==> FirstError(ParseOrder(c), parse).None?
    ensures NewMABucket(c, parse).Err? ==> FirstError(ParseOrder(c), parse) == Some(NewMABucket(c, parse).error)
    ensures var r := NewMABucket(c, parse);
            r.Ok? ==> && r.value.timestamp == c.Timestamp
                      && Ok(r.value.low) == parse(c.Low) && Ok(r.value.open) == parse(c.Open)
                      && Ok(r.value.close) == parse(c.Close) && Ok(r.value.high) == parse(c.High)
                      && Ok(r.value.volume) == parse(c.Volume)
  {
    var fields := ParseOrder(c);
    assert fields[0] == c.Low && fields[1] == c.Open && fields[2] == c.Close && fields[3] == c.High && fields[4] == c.Volume;
    assert fields[1..][1..][1..][1..][1..] == [];
  }

  /** Candles in non-decreasing timestamp order (the Less of candlesByTS). */
  predicate ByTimestamp(cs: seq<Candle>)
  {
    forall i, j :: 0 <= i < j < |cs| ==> cs[i].Timestamp <= cs[j].Timestamp
  }

  /** Inserts a candle into a timestamp-ordered sequence, after the candles not later than it. */
  function Insert(c: Candle, cs: seq<Candle>): (r: seq<Candle>)
    requires ByTimestamp(cs)
    ensures |r| == |cs| + 1
    ensures ByTimestamp(r)
    ensures r[0] == c || (cs != [] && r[0] == cs[0])
    ensures multiset(r) == multiset(cs) + multiset{c}
  {
    if cs == [] then [c]
    else if c.Timestamp <= cs[0].Timestamp then ConsSorted(c, cs); [c] + cs
    else
      var rest := Insert(c, cs[1..]);
      ConsSorted(cs[0], rest);
      assert multiset([cs[0]] + rest) == multiset{cs[0]} + multiset(rest);
      assert multiset(cs) == multiset{cs[0]} + multiset(cs[1..]) by {
        assert cs == [cs[0]] + cs[1..];
      }
      [cs[0]] + rest
  }

  lemma ConsSorted(x: Candle, s: seq<Candle>)
    requires ByTimestamp(s) && (s != [] ==> x.Timestamp <= s[0].Timestamp)
    ensures ByTimestamp([x] + s)
  {
    var r := [x] + s;
    forall i, j | 0 <= i < j < |r| ensures r[i].Timestamp <= r[j].Timestamp {
      if i == 0 {
        assert r[j] == s[j - 1];
        if j > 1 {
          assert s[0].Timestamp <= s[j - 1].Timestamp;
        }
      } else {
        assert r[i] == s[i - 1] && r[j] == s[j - 1];
      }
    }
  }

  /** The candles ordered by timestamp: a sorted rearrangement of the response. */
  function SortByTimestamp(cs: seq<Candle>): (r: seq<Candle>)
    ensures ByTimestamp(r)
    ensures multiset(r) == multiset(cs) && |r| == |cs|
  {
    if cs == [] then []
    else
      assert cs == [cs[0]] + cs[1..];
      Insert(cs[0], SortByTimestamp(cs[1..]))
  }

  /** Builds one bucket per candle, in order, stopping at the first candle that does not
      parse. The result holds the buckets built and whether every candle parsed. */
  function ParsePrefix(cs: seq<Candle>, parse: string -> Result<real>): (seq<MABucket>, Outcome)
  {
    if cs == [] then ([], Pass)
    else
      var before := ParsePrefix(cs[..|cs| - 1], parse);
      if before.1.Fail? then before
      else
        match NewMABucket(cs[|cs| - 1], parse)
        case Err(e) => (before.0, Fail(e))
        case Ok(b) => (before.0 + [b], Pass)
  }

  /** The buckets are those of the leading candles, one for each; all candles give one when
      the outcome is a pass, and otherwise the next candle is the first that does not parse,
      and its error is the outcome's. */
  lemma {:induction false} ParsePrefixSpec(cs: seq<Candle>, parse: string -> Result<real>)
    ensures var r := ParsePrefix(cs, parse);
            && |r.0| <= |cs|
            && (r.1.Pass? ==> |r.0| == |cs|)
            && (r.1.Fail? ==> |r.0| < |cs| && NewMABucket(cs[|r.0|], parse) == Err(r.1.error))
            && forall k :: 0 <= k < |r.0| ==> NewMABucket(cs[k], parse) == Ok(r.0[k])
    decreases |cs|
  {
    if cs != [] {
      var init := cs[..|cs| - 1];
      ParsePrefixSpec(init, parse);
      assert forall k :: 0 <= k < |init| ==> init[k] == cs[k];
    }
  }

  /** One turn of the feeding loop: a candle that does not parse ends the whole prefix with
      its error; one that parses extends it by its bucket. */
  lemma ParseStep(cs: seq<Candle>, i: nat, parse: string -> Result<real>)
    requires i < |cs| && ParsePrefix(cs[..i], parse).1.Pass?
    ensures NewMABucket(cs[i], parse).Err? ==>
              ParsePrefix(cs, parse) == (ParsePrefix(cs[..i], parse).0, Fail(NewMABucket(cs[i], parse).error))
    ensures NewMABucket(cs[i], parse).Ok? ==>
              ParsePrefix(cs[..i + 1], parse) == (ParsePrefix(cs[..i], parse).0 + [NewMABucket(cs[i], parse).value], Pass)
  {
    PrefixSnoc(cs, i, parse);
    if NewMABucket(cs[i], parse).Err? {
      PrefixFailureSticks(cs, i + 1, parse);
    }
  }

  lemma PrefixSnoc(cs: seq<Candle>, i: nat, parse: string -> Result<real>)
    requires i < |cs| && ParsePrefix(cs[..i], parse).1.Pass?
    ensures NewMABucket(cs[i], parse).Err? ==>
              ParsePrefix(cs[..i + 1], parse) == (ParsePrefix(cs[..i], parse).0, Fail(NewMABucket(cs[i], parse).error))
    ensures NewMABucket(cs[i], parse).Ok? ==>
              ParsePrefix(cs[..i + 1], parse) == (ParsePrefix(cs[..i], parse).0 + [NewMABucket(cs[i], parse).value], Pass)
  {
    assert cs[..i + 1][..i] == cs[..i];
    assert cs[..i + 1][i] == cs[i];
  }

  /** Once a prefix of the candles fails to parse, no later candle changes the result. */
  lemma {:induction false} PrefixFailureSticks(cs: seq<Candle>, n: nat, parse: string -> Result<real>)
    requires n <= |cs| && ParsePrefix(cs[..n], parse).1.Fail?
    ensures ParsePrefix(cs, parse) == ParsePrefix(cs[..n], parse)
    decreases |cs| - n
  {
    if n < |cs| {
      assert cs[..n + 1][..n] == cs[..n];
      PrefixFailureSticks(cs, n + 1, parse);
    } else {
      assert cs[..n] == cs;
    }
  }

  /** The observations an estimator records for a sequence of buckets: each bucket's
      average with its logarithm. */
  function Observed(bs: seq<MABucket>, log: real -> real): seq<HistVal>
  {
    if bs == [] then []
    else Observed(bs[..|bs| - 1], log) + [HistVal(bs[|bs| - 1].Average(), log(bs[|bs| - 1].Average()))]
  }

  lemma ObservedSnoc(bs: seq<MABucket>, b: MABucket, log: real -> real)
    ensures Observed(bs + [b], log) == Observed(bs, log) + [HistVal(b.Average(), log(b.Average()))]
  {
    assert (bs + [b])[..|bs|] == bs;
  }

  /** An estimator that had observed the buckets and then one more average has observed
      the extended buckets. */
  lemma ObservedFed(seen: seq<HistVal>, now: seq<HistVal>, bs: seq<MABucket>, b: MABucket, log: real -> real)
    requires seen == Observed(bs, log)
    requires now == seen + [HistVal(b.Average(), log(b.Average()))]
    ensures now == Observed(bs + [b], log)
  {
    ObservedSnoc(bs, b, log);
  }

  /** One observation per bucket, in the same order. */
  lemma {:induction false} ObservedSpec(bs: seq<MABucket>, log: real -> real)
    ensures |Observed(bs, log)| == |bs|
    ensures forall k :: 0 <= k < |bs| ==> Observed(bs, log)[k] == HistVal(bs[k].Average(), log(bs[k].Average()))
  {
    if bs != [] {
      ObservedSpec(bs[..|bs| - 1], log);
    }
  }
}
