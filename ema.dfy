/** The log-space sliding-window estimator of pkg/moving_average.

    Values are averaged in log space over a FIFO window; an offset accumulator records,
    for every value added, how far its log lies from the window's mean just after it was
    added. Floats and decimals are reals, and `math.Log` / `math.Exp` are the abstract
    functions `Log` and `Exp` an estimator is built with. */
module Ema {
  import opened Wrappers
  import opened Seqs
  import opened Bandwidth

  /** A running sum and count (eMAAvgVal). EMA embeds two of them by value, so their
      pointer-receiver updates are functions whose result EMA assigns back to its field. */
  datatype AvgVal = AvgVal(sum: real, count: nat) {

    function Add(value: real): AvgVal
    {
      AvgVal(sum + value, count + 1)
    }

    /** Refuses to take away the last remaining value, leaving the accumulator unchanged. */
    function Sub(value: real): (r: (AvgVal, Outcome))
      ensures r.1.Fail? <==> count <= 1
      ensures r.1.Fail? ==> r.0 == this
      ensures r.1.Pass? ==> r.0.Add(value) == this
    {
      if count <= 1 then (this, Fail("cannot substract eMAAvgVal with count 0"))
      else (AvgVal(sum - value, count - 1), Pass)
    }

    /** The mean of the values accumulated so far. */
    function Get(): (r: Result<real>)
      ensures r.Err? <==> count == 0
    {
      if count < 1 then Err("cannot get eMAAvgVal with count 0") else Ok(sum / count as real)
    }
  }

  /** The accumulator that summarises exactly the values of `s`. */
  function Summary(s: seq<real>): AvgVal
  {
    AvgVal(Sum(s), |s|)
  }

  /** Adding a value to a summary summarises the extended sequence. */
  lemma SummaryAdd(s: seq<real>, x: real)
    ensures Summary(s).Add(x) == Summary(s + [x])
  {
    SumSnoc(s, x);
  }

  /** A summary's mean is the mean of the summarised values, and it refuses when empty. */
  lemma SummaryGet(s: seq<real>)
    ensures Summary(s).Get() == if s == [] then Err("cannot get eMAAvgVal with count 0") else Ok(Mean(s))
  {
  }

  /** A retained observation: the raw value and its logarithm. */
  datatype HistVal = HistVal(abs: real, exp: real)

  /** The sum of the logarithms of retained observations. */
  function LogSum(h: seq<HistVal>): real
  {
    if h == [] then 0.0 else LogSum(h[..|h| - 1]) + h[|h| - 1].exp
  }

  /** The mean of the logarithms of retained observations. */
  function MeanLog(h: seq<HistVal>): real
    requires h != []
  {
    LogSum(h) / |h| as real
  }

  /** The accumulator that summarises the logarithms of `h`. */
  function Accumulated(h: seq<HistVal>): AvgVal
  {
    AvgVal(LogSum(h), |h|)
  }

  lemma LogSumSnoc(h: seq<HistVal>, x: HistVal)
    ensures LogSum(h + [x]) == LogSum(h) + x.exp
  {
    assert (h + [x])[..|h|] == h;
  }

  lemma {:induction false} LogSumDropFirst(h: seq<HistVal>)
    requires h != []
    ensures LogSum(h[1..]) == LogSum(h) - h[0].exp
  {
    if |h| > 1 {
      var init := h[..|h| - 1];
      LogSumDropFirst(init);
      assert init[1..] == h[1..][..|h| - 2];
    }
  }

  /** An accumulator's mean is the mean logarithm of its observations; it refuses when empty. */
  lemma AccumulatedGet(h: seq<HistVal>)
    ensures Accumulated(h).Get() == if h == [] then Err("cannot get eMAAvgVal with count 0") else Ok(MeanLog(h))
  {
  }

  /** What a window of size `window` keeps of everything added: all of it when the
      window is 0 (unbounded), otherwise the most recent `window` observations. */
  function Retained(all: seq<HistVal>, window: nat): seq<HistVal>
  {
    if window == 0 then all else LastN(all, window)
  }

  /** One observation entering a FIFO window: it is appended, and the oldest retained
      observation is dropped when a bounded window is already full. */
  function Push(h: seq<HistVal>, x: HistVal, window: nat): (r: seq<HistVal>)
    ensures r != [] && r[|r| - 1] == x
    ensures window > 0 && |h| <= window ==> |r| <= window
    ensures window == 0 || |h| < window ==> |r| == |h| + 1
  {
    if window > 0 && |h| >= window then h[1..] + [x] else h + [x]
  }

  /** Pushing every added observation in turn keeps exactly the retained window. */
  lemma WindowStep(all: seq<HistVal>, x: HistVal, window: nat)
    ensures window > 0 ==> |Retained(all, window)| <= window
    ensures Retained(all + [x], window) == Push(Retained(all, window), x, window)
  {
    if window > 0 {
      LastNSnoc(all, x, window);
    }
  }

  /** The update AddValue makes to the accumulator and the window: add the new logarithm,
      then subtract the oldest one and drop it when a bounded window overflows. */
  function Slide(value: AvgVal, h: seq<HistVal>, x: HistVal, window: nat): (AvgVal, seq<HistVal>)
  {
    var added, grown := value.Add(x.exp), h + [x];
    if added.count > window && window > 0 then (added.Sub(grown[0].exp).0, grown[1..]) else (added, grown)
  }

  /** Sliding an accumulator of the window is pushing onto the window: the result
      accumulates the pushed window. */
  lemma SlidePush(value: AvgVal, history: seq<HistVal>, x: HistVal, window: nat,
                  after: AvgVal, kept: seq<HistVal>)
    requires value == Accumulated(history)
    requires (after, kept) == Slide(value, history, x, window)
    ensures kept == Push(history, x, window) && after == Accumulated(kept)
  {
    LogSumSnoc(history, x);
    if window > 0 && |history| >= window {
      LogSumDropFirst(history + [x]);
      assert (history + [x])[1..] == history[1..] + [x];
    }
  }

  /** The estimator's fields agree with everything added so far: the accumulator
      summarises the window, the window is what its size retains, and the offset
      accumulator summarises one offset per added observation. */
  ghost predicate Consistent(value: AvgVal, history: seq<HistVal>, offset: AvgVal,
                             all: seq<HistVal>, offsets: seq<real>, window: nat)
  {
    && value == Accumulated(history)
    && history == Retained(all, window)
    && offset == Summary(offsets)
    && |offsets| == |all|
  }

  /** Sliding the window over a new observation pushes it, and with one more offset
      sample (whatever its value) keeps the fields consistent with the extended history. */
  lemma AddStep(value: AvgVal, history: seq<HistVal>, offset: AvgVal,
                all: seq<HistVal>, offsets: seq<real>, window: nat, x: HistVal, sample: real,
                after: AvgVal, kept: seq<HistVal>)
    requires Consistent(value, history, offset, all, offsets, window)
    requires (after, kept) == Slide(value, history, x, window)
    ensures kept == Push(history, x, window)
    ensures Consistent(after, kept, offset.Add(sample), all + [x], offsets + [sample], window)
  {
    WindowStep(all, x, window);
    SlidePush(value, history, x, window, after, kept);
    SummaryAdd(offsets, sample);
  }

  /** A consistent unbounded window holds everything added, and a bounded one at most its
      size. */
  lemma WindowBounds(value: AvgVal, history: seq<HistVal>, offset: AvgVal,
                     all: seq<HistVal>, offsets: seq<real>, window: nat)
    requires Consistent(value, history, offset, all, offsets, window)
    ensures window == 0 ==> history == all
    ensures window > 0 ==> |history| <= window && history == all[|all| - |history|..]
    ensures window > 0 ==> |history| == if |all| <= window then |all| else window
  {
  }

  class EMA {
    var value: AvgVal
    var offset: AvgVal
    var history: seq<HistVal>
    const window: nat
    /** Natural logarithm and exponential, as the estimator uses them. */
    const Log: real -> real
    const Exp: real -> real

    /** Every observation ever added, oldest first, tagged with its logarithm. */
    ghost var All: seq<HistVal>
    /** Every offset sample recorded, one per added value. */
    ghost var Offsets: seq<real>

    ghost predicate Valid()
      reads this
    {
      Consistent(value, history, offset, All, Offsets, window)
    }

    /** NewEMA: an empty estimator; window 0 means unbounded. */
    constructor (window: nat, log: real -> real, exp: real -> real)
      ensures Valid()
      ensures this.window == window && Log == log && Exp == exp
      ensures history == [] && All == [] && Offsets == []
    {
      value := AvgVal(0.0, 0);
      offset := AvgVal(0.0, 0);
      history := [];
      this.window := window;
      Log := log;
      Exp := exp;
      All := [];
      Offsets := [];
    }

    method AddValue(v: real)
      requires Valid()
      modifies this
      ensures Valid()
      ensures All == old(All) + [HistVal(v, Log(v))]
      ensures history == Push(old(history), HistVal(v, Log(v)), window)
      ensures history != [] && Offsets == old(Offsets) + [Log(v) - value.Get().GetOr(0.0)]
    {
      var exp := Log(v);
      var x := HistVal(v, exp);
      var val, hist := value.Add(exp), history + [x];
      if val.count > window && window > 0 {
        var (rest, _) := val.Sub(hist[0].exp);
        val, hist := rest, hist[1..];
      }
      assert (val, hist) == Slide(value, history, x, window);
      var avg := val.Get().GetOr(0.0);
      AddStep(value, history, offset, All, Offsets, window, x, exp - avg, val, hist);
      value, history, offset := val, hist, offset.Add(exp - avg);
      All := All + [x];
      Offsets := Offsets + [exp - avg];
    }

    /** The mean of the retained logarithms. */
    function GetExp(): (r: Result<real>)
      reads this
      requires Valid()
      ensures r.Ok? <==> history != []
      ensures r.Ok? ==> r.value == MeanLog(history)
    {
      value.Get()
    }

    /** The estimate: the exponential of the mean of the retained logarithms. */
    function Get(): (r: Result<real>)
      reads this
      requires Valid()
      ensures r.Ok? <==> history != []
      ensures r.Ok? ==> r.value == Exp(MeanLog(history))
    {
      match value.Get()
      case Err(e) => Err(e)
      case Ok(x) => Ok(Exp(x))
    }

    /** The estimate corrected by the mean offset; available as soon as one value was added. */
    function GetWithOffset(): (r: Result<real>)
      reads this
      requires Valid()
      ensures r.Ok? <==> All != []
      ensures r.Ok? ==> history != [] && r.value == Exp(MeanLog(history) + Mean(Offsets))
    {
      // Both accumulators count every added value, so once the offset one has a mean the
      // value one has too, and the second error return of the Go code cannot be reached.
      match offset.Get()
      case Err(e) => Err(e)
      case Ok(o) => Ok(Exp(value.Get().GetOr(0.0) + o))
    }

    /** The lowest and highest retained raw value, with the current estimate. */
    method GetBandwidth() returns (r: Result<MABandwidth>)
      requires Valid()
      ensures r.Err? <==> history == []
      ensures r.Ok? ==> exists k :: 0 <= k < |history| && history[k].abs == r.value.Min
      ensures r.Ok? ==> exists k :: 0 <= k < |history| && history[k].abs == r.value.Max
      ensures r.Ok? ==> forall k :: 0 <= k < |history| ==> r.value.Min <= history[k].abs <= r.value.Max
      ensures r.Ok? ==> Get() == Ok(r.value.Cur)
    {
      if |history| < 1 {
        return Err("cannot get bandwidth without history");
      }
      var lo, hi := history[0].abs, history[0].abs;
      ghost var iLo, iHi := 0, 0;
      for i := 0 to |history|
        invariant 0 <= iLo < |history| && history[iLo].abs == lo
        invariant 0 <= iHi < |history| && history[iHi].abs == hi
        invariant forall k :: 0 <= k < i ==> lo <= history[k].abs <= hi
      {
        if lo > history[i].abs {
          lo, iLo := history[i].abs, i;
        }
        if hi < history[i].abs {
          hi, iHi := history[i].abs, i;
        }
      }
      match Get()
      case Err(e) => r := Err(e);
      case Ok(cur) => r := Ok(MABandwidth(lo, cur, hi));
    }
  }

  /** The laws of the logarithm and exponential the worked examples rely on. */
  ghost predicate LogLaws(log: real -> real, exp: real -> real)
  {
    && (forall x, y :: 0.0 < x && 0.0 < y ==> log(x * y) == log(x) + log(y))
    && (forall x :: 0.0 < x ==> exp(log(x)) == x)
  }

  /** A window of 2 fed 1, 2 and 8 keeps 2 and 8, whose estimate is their geometric mean 4
      (fed only 1 it estimates 1, as FirstValueExample shows for every window). */
  lemma WindowTwoExample(log: real -> real, exp: real -> real)
    requires LogLaws(log, exp)
    ensures var all := [HistVal(1.0, log(1.0)), HistVal(2.0, log(2.0)), HistVal(8.0, log(8.0))];
            && Retained(all, 2) == all[1..]
            && exp(MeanLog(Retained(all, 2))) == 4.0
  {
    var all := [HistVal(1.0, log(1.0)), HistVal(2.0, log(2.0)), HistVal(8.0, log(8.0))];
    KeepsLastTwo(all);
    MeanTwoEight(Retained(all, 2), log, exp);
  }

  /** A window of 2 keeps the last two of three observations. */
  lemma KeepsLastTwo(all: seq<HistVal>)
    requires |all| == 3
    ensures Retained(all, 2) == all[1..] == [all[1], all[2]]
  {
  }

  /** The geometric mean of 2 and 8 is 4. */
  lemma MeanTwoEight(kept: seq<HistVal>, log: real -> real, exp: real -> real)
    requires LogLaws(log, exp) && |kept| == 2 && kept[0] == HistVal(2.0, log(2.0)) && kept[1] == HistVal(8.0, log(8.0))
    ensures exp(MeanLog(kept)) == 4.0
  {
    assert LogSum(kept) == log(2.0) + log(8.0) by {
      LogSumSnoc([], kept[0]);
      LogSumSnoc([kept[0]], kept[1]);
      assert [] + [kept[0]] == [kept[0]] && [kept[0]] + [kept[1]] == kept;
    }
    assert log(2.0 * 2.0) == log(2.0) + log(2.0);
    assert log(2.0 * 4.0) == log(2.0) + log(4.0);
  }

  /** Whatever the window, a single value 1 estimates 1. */
  lemma FirstValueExample(all: seq<HistVal>, window: nat, log: real -> real, exp: real -> real)
    requires LogLaws(log, exp) && all != [] && all[0] == HistVal(1.0, log(1.0))
    ensures exp(MeanLog(Retained(all[..1], window))) == 1.0
  {
    var one := all[..1];
    assert one == [HistVal(1.0, log(1.0))];
    assert Retained(one, window) == one;
    LogSumSnoc([], one[0]);
    assert [] + [one[0]] == one;
  }

  /** An unbounded window fed 1, 2 and 4 keeps all three, whose estimate is 2. */
  lemma UnboundedExample(log: real -> real, exp: real -> real)
    requires LogLaws(log, exp)
    ensures var all := [HistVal(1.0, log(1.0)), HistVal(2.0, log(2.0)), HistVal(4.0, log(4.0))];
            && Retained(all, 0) == all
            && exp(MeanLog(Retained(all, 0))) == 2.0
  {
    var all := [HistVal(1.0, log(1.0)), HistVal(2.0, log(2.0)), HistVal(4.0, log(4.0))];
    MeanOneTwoFour(all, log, exp);
  }

  /** The geometric mean of 1, 2 and 4 is 2. */
  lemma MeanOneTwoFour(all: seq<HistVal>, log: real -> real, exp: real -> real)
    requires LogLaws(log, exp) && all == [HistVal(1.0, log(1.0)), HistVal(2.0, log(2.0)), HistVal(4.0, log(4.0))]
    ensures exp(MeanLog(all)) == 2.0
  {
    assert LogSum(all) == log(1.0) + log(2.0) + log(4.0) by {
      LogSumSnoc([], all[0]);
      LogSumSnoc([all[0]], all[1]);
      LogSumSnoc([all[0], all[1]], all[2]);
      assert [] + [all[0]] == [all[0]] && [all[0]] + [all[1]] == all[..2] && all[..2] + [all[2]] == all;
    }
    assert log(1.0 * 1.0) == log(1.0) + log(1.0);
    assert log(2.0 * 2.0) == log(2.0) + log(2.0);
  }
}
