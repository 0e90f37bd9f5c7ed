/** The simple moving average of pkg/moving_average: a FIFO buffer of decimals with a
    running sum, decimals being reals. */
module Sma {
  import opened Wrappers
  import opened Seqs
  import opened Strings

  /** How many values a window retains: its size when positive, none otherwise. */
  function Capacity(window: int): (n: nat)
    ensures window > 0 ==> n == window
    ensures window <= 0 ==> n == 0
  {
    if window > 0 then window else 0
  }

  /** One AddValue on the retained buffer, in AddValue's own terms: append, then drop the
      oldest value when more than `window` are held. The result is again the retained
      suffix of everything added, and its sum moves by the added and the dropped value. */
  lemma SlideStep(kept: seq<real>, all: seq<real>, v: real, window: int, after: seq<real>, dropped: real)
    requires kept == LastN(all, Capacity(window))
    requires after == if |kept| + 1 > window then (kept + [v])[1..] else kept + [v]
    requires dropped == if |kept| + 1 > window then (kept + [v])[0] else 0.0
    ensures after == LastN(all + [v], Capacity(window))
    ensures Sum(after) == Sum(kept) + v - dropped
    ensures window <= 0 ==> after == [] && dropped == v
  {
    var grown := kept + [v];
    SumSnoc(kept, v);
    if window > 0 {
      LastNSnoc(all, v, window);
      if |grown| > window {
        SumDropFirst(grown);
        assert grown[1..] == kept[1..] + [v];
      }
    } else {
      SumDropFirst(grown);
      assert kept == [];
    }
  }

  class SimpleMovingAverage {
    var values: seq<real>
    var sum: real
    var window: int

    /** Every value ever added, oldest first. */
    ghost var All: seq<real>

    ghost predicate Valid()
      reads this
    {
      && sum == Sum(values)
      && values == LastN(All, Capacity(window))
    }

    /** The zero value of the Go struct: no values, sum 0, window 0. */
    constructor ()
      ensures Valid()
      ensures values == [] && sum == 0.0 && window == 0 && All == []
    {
      values := [];
      sum := 0.0;
      window := 0;
      All := [];
    }

    /** Appends the value and evicts the oldest one when the buffer then holds more than
        `window` values; the sum gains the new value and loses the evicted one. */
    method AddValue(v: real)
      requires Valid()
      modifies this
      ensures Valid()
      ensures window == old(window) && All == old(All) + [v]
      ensures values == if |old(values)| + 1 > window then (old(values) + [v])[1..] else old(values) + [v]
      ensures window > 0 ==> |values| <= window
      ensures window <= 0 ==> values == [] && sum == old(sum)
    {
      var oldValue := 0.0;
      var grown := values + [v];
      var kept := grown;
      if |grown| > window {
        oldValue := grown[0];
        kept := grown[1..];
      }
      SlideStep(values, All, v, window, kept, oldValue);
      values, sum, All := kept, sum + v - oldValue, All + [v];
    }

    /** The mean of the retained values; an empty buffer has none. */
    function GetCurrentMA(): (r: Result<real>)
      reads this
      requires Valid()
      ensures r.Err? <==> LastN(All, Capacity(window)) == []
      ensures r.Ok? ==> r.value == Mean(LastN(All, Capacity(window)))
    {
      if |values| == 0 then Err("cannot get MA for 0 elements") else Ok(sum / |values| as real)
    }
  }

  /** A new average for a window size; 0 and sizes below -1 are refused, and then the
      zero value comes back with the error. */
  method NewSimpleMovingAverage(window: int) returns (sma: SimpleMovingAverage, err: Outcome)
    ensures fresh(sma) && sma.Valid()
    ensures sma.values == [] && sma.sum == 0.0 && sma.All == []
    ensures err.Fail? <==> window == 0 || window < -1
    ensures err.Fail? ==> sma.window == 0 && err.error == "invalid window size " + IntToString(window)
    ensures err.Pass? ==> sma.window == window
  {
    sma := new SimpleMovingAverage();
    if window == 0 || window < -1 {
      return sma, Fail("invalid window size " + IntToString(window));
    }
    sma.window := window;
    err := Pass;
  }
}
