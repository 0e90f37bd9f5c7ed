/** The band of values an estimator has seen: lowest, current estimate and highest. */
module Bandwidth {

  datatype MABandwidth = MABandwidth(Min: real, Cur: real, Max: real) {

    /** How far (in percent of the current estimate) the minimum lies below it. */
    function GetMinPercent(): (r: real)
      requires Cur != 0.0
      ensures (100.0 - r) * Cur == 100.0 * Min
      ensures r == 0.0 <==> Min == Cur
      ensures 0.0 < Min <= Cur ==> 0.0 <= r < 100.0
    {
      100.0 - Min / Cur * 100.0
    }

    /** How far (in percent of the maximum) the current estimate lies below the maximum. */
    function GetMaxPercent(): (r: real)
      requires Max != 0.0
      ensures (100.0 - r) * Max == 100.0 * Cur
      ensures r == 0.0 <==> Cur == Max
      ensures 0.0 < Cur <= Max ==> 0.0 <= r < 100.0
    {
      100.0 - Cur / Max * 100.0
    }
  }
}
